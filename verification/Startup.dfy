/** The engine's start: every device found is collected, and pools are set up where possible. */
module Startup {
  import opened Prelude
  import opened BlockDevs
  import opened DeviceInfo
  import opened Engine
  import opened LiminalRuns
  import opened EngineObjects
  import Table

  /** The devices found for one pool uuid, and how its set up will go. */
  datatype Found = Found(pool: PoolUuid, infos: seq<Info>, attempt: Attempt)

  type UpEntry = Table.Entry<PoolUuid, Pool>

  /** Each uuid is found once and its infos are its own. */
  ghost predicate WfFound(fs: seq<Found>) {
    && (forall i, j | 0 <= i < j < |fs| :: fs[i].pool != fs[j].pool)
    && (forall f, i | f in fs && i in f.infos :: i.Ids().pool == f.pool)
  }

  ghost predicate OwnInfos(f: Found) {
    forall i | i in f.infos :: i.Ids().pool == f.pool
  }

  /** One pool uuid at the start. Names are checked against an empty table. */
  ghost function StartOne(l: Liminal, f: Found): Tried
    requires OwnInfos(f)
  {
    match Collect(f.pool, map[], f.infos)
    case Hopeless(bag) => Tried(l.(hopeless := l.hopeless[f.pool := bag]), None)
    case Added(m) => TrySetup(map[], l, f.pool, m, f.attempt)
  }

  /** The state of the start after some of the uuids: each is in at most one place. */
  ghost predicate StartInv(l: Liminal, ups: seq<UpEntry>, done: set<PoolUuid>) {
    && l.errored.Keys !! l.hopeless.Keys
    && l.errored.Keys <= done && l.hopeless.Keys <= done
    && (forall k | 0 <= k < |ups| :: ups[k].uuid in done && ups[k].uuid !in l.errored && ups[k].uuid !in l.hopeless)
    && (forall j, k | 0 <= j < k < |ups| :: ups[j].uuid != ups[k].uuid)
    && (forall p | p in l.errored :: WfSet(p, l.errored[p]))
    && (forall p, i | p in l.hopeless && i in l.hopeless[p] :: i.Ids().pool == p)
  }

  ghost function WithUp(ups: seq<UpEntry>, p: PoolUuid, up: Option<(string, Pool)>): seq<UpEntry> {
    if up.None? then ups else ups + [Table.Entry(up.value.0, p, up.value.1)]
  }

  lemma FileErrored(l: Liminal, ups: seq<UpEntry>, done: set<PoolUuid>, p: PoolUuid, m: Devices)
    requires StartInv(l, ups, done) && p !in done && WfSet(p, m)
    ensures StartInv(l.(errored := l.errored[p := m]), ups, done + {p})
  {
  }

  lemma FileHopeless(l: Liminal, ups: seq<UpEntry>, done: set<PoolUuid>, p: PoolUuid, bag: set<LInfo>)
    requires StartInv(l, ups, done) && p !in done && forall i | i in bag :: i.Ids().pool == p
    ensures StartInv(l.(hopeless := l.hopeless[p := bag]), ups, done + {p})
  {
  }

  lemma BringUp(l: Liminal, ups: seq<UpEntry>, done: set<PoolUuid>, e: UpEntry)
    requires StartInv(l, ups, done) && e.uuid !in done
    ensures StartInv(l, ups + [e], done + {e.uuid})
  {
  }

  lemma StartOneKeeps(l: Liminal, ups: seq<UpEntry>, done: set<PoolUuid>, f: Found)
    requires StartInv(l, ups, done) && f.pool !in done && OwnInfos(f)
    ensures var t := StartOne(l, f); StartInv(t.liminal, WithUp(ups, f.pool, t.up), done + {f.pool})
  {
    CollectAll(f.pool, f.infos);
    match Collect(f.pool, map[], f.infos) {
      case Hopeless(bag) =>
        CollectBagIds(f.pool, map[], f.infos);
        FileHopeless(l, ups, done, f.pool, bag);
      case Added(m) =>
        TryKeepsStart(l, ups, done, f.pool, m, f.attempt);
    }
  }

  lemma TryKeepsStart(l: Liminal, ups: seq<UpEntry>, done: set<PoolUuid>, p: PoolUuid, m: Devices, a: Attempt)
    requires StartInv(l, ups, done) && p !in done && WfSet(p, m)
    ensures var t := TrySetup(map[], l, p, m, a); StartInv(t.liminal, WithUp(ups, p, t.up), done + {p})
  {
    FileErrored(l, ups, done, p, m);
    forall i | i in Bag(m) ensures i.Ids().pool == p { var d :| d in m && m[d] == i; }
    FileHopeless(l, ups, done, p, Bag(m));
    var t := TrySetup(map[], l, p, m, a);
    if t.up.Some? { BringUp(l, ups, done, Table.Entry(t.up.value.0, p, t.up.value.1)); }
  }

  lemma {:induction false} CollectBagIds(p: PoolUuid, m: Devices, infos: seq<Info>)
    requires WfSet(p, m) && (forall i | i in infos :: i.Ids().pool == p)
    requires Collect(p, m, infos).Hopeless?
    ensures forall l | l in Collect(p, m, infos).bag :: l.Ids().pool == p
    decreases |infos|
  {
    var init, last := infos[..|infos| - 1], infos[|infos| - 1];
    match ProcessAdd(p, m, last) {
      case Added(m') =>
        ProcessAddWf(p, m, last);
        CollectBagIds(p, m', init);
      case Hopeless(bag) =>
        BagIds(p, m, last);
        assert Collect(p, m, infos).bag == bag + Linfos(init);
        forall l | l in Linfos(init) ensures l.Ids().pool == p {
          var i :| i in init && FromInfo(i) == l;
          assert i in infos;
        }
        assert bag == Bag(m) + {FromInfo(last)};
    }
  }

  /** Drain the reports of one pool uuid from the back, as long as there is hope. */
  method CollectDevices(liminal: LiminalDevices, f: Found) returns (devices: DeviceSet)
    requires OwnInfos(f) && f.pool !in liminal.hopeless
    modifies liminal
    ensures fresh(devices) && devices.pool == f.pool && devices.Valid()
    ensures match Collect(f.pool, map[], f.infos)
            case Hopeless(bag) => liminal.Value() == old(liminal.Value()).(hopeless := old(liminal.hopeless)[f.pool := bag])
            case Added(m) => devices.internal == m && liminal.Value() == old(liminal.Value())
  {
    devices := new DeviceSet(f.pool);
    var infos := f.infos;
    while infos != [] && f.pool !in liminal.hopeless
      invariant devices.Valid() && (forall i | i in infos :: i.Ids().pool == f.pool)
      invariant f.pool in liminal.hopeless ==>
        infos == [] && Collect(f.pool, map[], f.infos).Hopeless?
        && liminal.Value() == old(liminal.Value()).(hopeless := old(liminal.hopeless)[f.pool := Collect(f.pool, map[], f.infos).bag])
      invariant f.pool !in liminal.hopeless ==>
        liminal.Value() == old(liminal.Value())
        && Collect(f.pool, devices.internal, infos) == Collect(f.pool, map[], f.infos)
      decreases |infos|
    {
      var info := infos[|infos| - 1];
      infos := infos[..|infos| - 1];
      var bag := devices.ProcessInfoAdd(info);
      if bag.Some? {
        liminal.hopeless := liminal.hopeless[f.pool := bag.value + Linfos(infos)];
        infos := [];
      }
    }
  }

  ghost function PoolsOf(fs: seq<Found>): set<PoolUuid> {
    set f | f in fs :: f.pool
  }

  lemma PoolsStep(fs: seq<Found>, k: nat)
    requires WfFound(fs) && k < |fs|
    ensures PoolsOf(fs[..k + 1]) == PoolsOf(fs[..k]) + {fs[k].pool}
    ensures fs[k].pool !in PoolsOf(fs[..k]) && OwnInfos(fs[k])
  {
  }

  /** The devices left in limbo and the pools that came up, in the order in which they were set up. */
  datatype Start = Start(liminal: Liminal, ups: seq<UpEntry>)

  ghost function StartAll(fs: seq<Found>): Start
    requires forall f | f in fs :: OwnInfos(f)
  {
    if fs == [] then Start(Liminal(map[], map[]), [])
    else
      var n := |fs| - 1;
      var before := StartAll(fs[..n]);
      var t := StartOne(before.liminal, fs[n]);
      Start(t.liminal, WithUp(before.ups, fs[n].pool, t.up))
  }

  lemma FirstFew(fs: seq<Found>, k: nat)
    requires WfFound(fs) && k <= |fs|
    ensures WfFound(fs[..k]) && forall f | f in fs[..k] :: OwnInfos(f)
  {
  }

  /** However many pool uuids were found, each ends up in at most one place, filed as it should be. */
  lemma {:induction false} StartAllKeeps(fs: seq<Found>)
    requires WfFound(fs)
    ensures (forall f | f in fs :: OwnInfos(f)) && StartInv(StartAll(fs).liminal, StartAll(fs).ups, PoolsOf(fs))
  {
    FirstFew(fs, |fs|);
    assert fs[..|fs|] == fs;
    if fs != [] {
      var n := |fs| - 1;
      FirstFew(fs, n);
      StartAllKeeps(fs[..n]);
      PoolsStep(fs, n);
      StartOneKeeps(StartAll(fs[..n]).liminal, StartAll(fs[..n]).ups, PoolsOf(fs[..n]), fs[n]);
    }
  }

  lemma StartAllStep(fs: seq<Found>, k: nat)
    requires WfFound(fs) && k < |fs|
    ensures (forall f | f in fs[..k] :: OwnInfos(f)) && (forall f | f in fs[..k + 1] :: OwnInfos(f)) && OwnInfos(fs[k])
    ensures var t := StartOne(StartAll(fs[..k]).liminal, fs[k]);
            StartAll(fs[..k + 1]) == Start(t.liminal, WithUp(StartAll(fs[..k]).ups, fs[k].pool, t.up))
    ensures var l := StartAll(fs[..k]).liminal; fs[k].pool !in l.errored && fs[k].pool !in l.hopeless
  {
    FirstFew(fs, k);
    FirstFew(fs, k + 1);
    PoolsStep(fs, k);
    StartAllKeeps(fs[..k]);
    assert fs[..k + 1][..k] == fs[..k];
  }

  ghost predicate InSomeBag(bag: set<LInfo>, infos: seq<Info>) {
    exists n :: 0 <= n < |infos| && BagOf(bag, infos, n)
  }

  /** Where a pool uuid is left by the start, `up` being the pool that came up under it, and what is kept of its devices. */
  ghost predicate StartedAs(l: Liminal, up: Option<(string, Pool)>, f: Found) {
    if NoConflicts(f.infos) then FiledAs(map[], f.pool, f.infos, f.attempt, Tried(l, up))
    else up.None? && f.pool in l.hopeless && f.pool !in l.errored && InSomeBag(l.hopeless[f.pool], f.infos)
  }

  lemma StartOneExact(l: Liminal, f: Found)
    requires OwnInfos(f) && f.pool !in l.errored && f.pool !in l.hopeless
    ensures StartedAs(StartOne(l, f).liminal, StartOne(l, f).up, f)
  {
    CollectAll(f.pool, f.infos);
    match Collect(f.pool, map[], f.infos) {
      case Hopeless(bag) => var n := CollectBag(f.pool, f.infos);
      case Added(m) => TryFiles(map[], l, f.pool, m, f.infos, f.attempt);
    }
  }

  lemma StartOneOthers(l: Liminal, f: Found, p: PoolUuid)
    requires OwnInfos(f) && p != f.pool
    ensures KeptAlike(l, StartOne(l, f).liminal, p)
  {
    CollectAll(f.pool, f.infos);
    var r := Collect(f.pool, map[], f.infos);
    if r.Added? { TryOthers(map[], l, f.pool, r.set', f.attempt, p); }
  }

  /** The pools that come up under the uuids of `fs` are not under another uuid. */
  lemma NotUpYet(fs: seq<Found>, p: PoolUuid)
    requires WfFound(fs) && p !in PoolsOf(fs)
    ensures (forall f | f in fs :: OwnInfos(f)) && forall e | e in StartAll(fs).ups :: e.uuid != p
  {
    StartAllKeeps(fs);
  }

  lemma StartedKept(l: Liminal, l': Liminal, up: Option<(string, Pool)>, f: Found)
    requires StartedAs(l, up, f) && KeptAlike(l, l', f.pool)
    ensures StartedAs(l', up, f)
  {
  }

  /** Every pool uuid found is left in exactly one place, with all that was found of its devices. */
  lemma {:induction false} StartAllExact(fs: seq<Found>, k: nat) returns (up: Option<(string, Pool)>)
    requires WfFound(fs) && k < |fs|
    ensures (forall f | f in fs :: OwnInfos(f)) && StartedAs(StartAll(fs).liminal, up, fs[k])
    ensures up.Some? ==> Table.Entry(up.value.0, fs[k].pool, up.value.1) in StartAll(fs).ups
    ensures up.None? ==> forall e | e in StartAll(fs).ups :: e.uuid != fs[k].pool
  {
    var n := |fs| - 1;
    var before, f := fs[..n], fs[n];
    StartAllStep(fs, n);
    FirstFew(fs, n);
    assert fs[..n + 1] == fs;
    var l := StartAll(before).liminal;
    if k == n {
      StartOneExact(l, f);
      up := StartOne(l, f).up;
      PoolsStep(fs, n);
      NotUpYet(before, f.pool);
    } else {
      up := StartAllExact(before, k);
      StartOneOthers(l, f, fs[k].pool);
      StartedKept(l, StartOne(l, f).liminal, up, fs[k]);
    }
  }

  /** Returns the pools that came up. */
  method SetupPools(liminal: LiminalDevices, fs: seq<Found>) returns (ups: seq<UpEntry>)
    requires liminal.Value() == Liminal(map[], map[]) && WfFound(fs)
    modifies liminal
    ensures (forall f | f in fs :: OwnInfos(f)) && Start(liminal.Value(), ups) == StartAll(fs)
  {
    ups := [];
    for k := 0 to |fs|
      invariant (forall f | f in fs[..k] :: OwnInfos(f)) && Start(liminal.Value(), ups) == StartAll(fs[..k])
    {
      var f := fs[k];
      StartAllStep(fs, k);
      var devices := CollectDevices(liminal, f);
      if f.pool !in liminal.hopeless {
        var up := liminal.TrySetupPool(map[], {}, f.pool, devices.internal, f.attempt);
        if up.Some? { ups := ups + [Table.Entry(up.value.0, f.pool, up.value.1)]; }
      }
    }
    assert fs[..|fs|] == fs;
  }

  // ----- filling the table

  function InsertAll(t: PoolTab, ups: seq<UpEntry>): PoolTab {
    if ups == [] then t
    else
      var last := ups[|ups| - 1];
      Table.Inserted(InsertAll(t, ups[..|ups| - 1]), last.name, last.uuid, last.item)
  }

  lemma {:induction false} InsertAllInverse(ups: seq<UpEntry>)
    ensures var t := InsertAll(Table.Tab(map[], map[]), ups);
            Table.Inverse(t) && forall u | u in t.items :: exists k :: 0 <= k < |ups| && ups[k].uuid == u
  {
    if ups != [] {
      var init, last := ups[..|ups| - 1], ups[|ups| - 1];
      InsertAllInverse(init);
      var t := InsertAll(Table.Tab(map[], map[]), init);
      Table.InsertedInverse(t, last.name, last.uuid, last.item);
      forall u | u in InsertAll(Table.Tab(map[], map[]), ups).items ensures exists k :: 0 <= k < |ups| && ups[k].uuid == u {
        if u == last.uuid {
          assert ups[|ups| - 1].uuid == u;
        } else {
          var k :| 0 <= k < |init| && init[k].uuid == u;
          assert ups[k].uuid == u;
        }
      }
    }
  }

  ghost predicate AllKept(t: PoolTab, ups: seq<UpEntry>) {
    forall k | 0 <= k < |ups| ::
      ups[k].uuid in t.items && t.items[ups[k].uuid] == Table.Item(ups[k].name, ups[k].item)
  }

  ghost predicate DistinctNames(ups: seq<UpEntry>) {
    forall j, k | 0 <= j < k < |ups| :: ups[j].name != ups[k].name
  }

  lemma {:induction false} DistinctAreKept(ups: seq<UpEntry>)
    requires (forall j, k | 0 <= j < k < |ups| :: ups[j].uuid != ups[k].uuid) && DistinctNames(ups)
    ensures AllKept(InsertAll(Table.Tab(map[], map[]), ups), ups)
  {
    if ups != [] {
      var init, last := ups[..|ups| - 1], ups[|ups| - 1];
      DistinctAreKept(init);
      InsertAllInverse(init);
      var t := InsertAll(Table.Tab(map[], map[]), init);
      forall n | n in t.names ensures n != last.name {
        var k :| 0 <= k < |init| && init[k].uuid == t.names[n];
        assert init[k] == ups[k];
      }
      forall k | 0 <= k < |ups|
        ensures var t' := InsertAll(Table.Tab(map[], map[]), ups);
                ups[k].uuid in t'.items && t'.items[ups[k].uuid] == Table.Item(ups[k].name, ups[k].item)
      {
        if k < |init| { assert init[k] == ups[k]; }
      }
    }
  }

  /**
   At the start names are checked against an empty table only, so pools with equal names
   displace one another: every pool that came up stays exactly when their names differ.
   */
  lemma StartKeepsAllIff(ups: seq<UpEntry>)
    requires forall j, k | 0 <= j < k < |ups| :: ups[j].uuid != ups[k].uuid
    ensures AllKept(InsertAll(Table.Tab(map[], map[]), ups), ups) <==> DistinctNames(ups)
  {
    InsertAllInverse(ups);
    var t := InsertAll(Table.Tab(map[], map[]), ups);
    if AllKept(t, ups) {
      forall j, k | 0 <= j < k < |ups| ensures ups[j].name != ups[k].name {
        assert t.names[t.items[ups[j].uuid].name] == ups[j].uuid && t.names[t.items[ups[k].uuid].name] == ups[k].uuid;
      }
    }
    if DistinctNames(ups) { DistinctAreKept(ups); }
  }

  /** `f` has one open device and metadata with this name. */
  predicate Simple(f: Found, name: string, pool: Pool) {
    && |f.infos| == 1 && f.infos[0].Stratis? && f.infos[0].Ids().pool == f.pool
    && f.attempt == WithMetadata(name, Started(pool))
  }

  /** Such a pool comes up under the name in its metadata. */
  lemma ComesUp(l: Liminal, f: Found, name: string, pool: Pool)
    requires Simple(f, name, pool)
    ensures OwnInfos(f) && StartOne(l, f) == Tried(l, Some((name, pool)))
  {
    var i := f.infos[0].stratis;
    var m: Devices := map[i.identifiers.device := LStratis(i, None)];
    assert ProcessAdd(f.pool, map[], f.infos[0]) == Added(m);
    assert f.infos[..|f.infos| - 1] == [];
    assert Collect(f.pool, map[], f.infos) == Added(m);
    assert !SomeClosed(m);
  }

  lemma StartsWith(fs: seq<Found>, f: Found)
    requires WfFound(fs + [f])
    ensures (forall g | g in fs :: OwnInfos(g)) && (forall g | g in fs + [f] :: OwnInfos(g)) && OwnInfos(f)
    ensures var t := StartOne(StartAll(fs).liminal, f);
            StartAll(fs + [f]) == Start(t.liminal, WithUp(StartAll(fs).ups, f.pool, t.up))
  {
  }

  lemma OneComesUp(f: Found, name: string, a: Pool)
    requires Simple(f, name, a)
    ensures (forall h | h in [f] :: OwnInfos(h)) && StartAll([f]) == Start(Liminal(map[], map[]), [Table.Entry(name, f.pool, a)])
  {
    ComesUp(Liminal(map[], map[]), f, name, a);
    assert [f][..0] == [];
  }

  lemma TwoWf(f: Found, g: Found)
    requires OwnInfos(f) && OwnInfos(g) && f.pool != g.pool
    ensures WfFound([f] + [g]) && forall h | h in [f] + [g] :: OwnInfos(h)
  {
  }

  lemma BothComeUp(f: Found, g: Found, name: string, a: Pool, b: Pool)
    requires Simple(f, name, a) && Simple(g, name, b) && f.pool != g.pool
    ensures WfFound([f] + [g]) && (forall h | h in [f] + [g] :: OwnInfos(h))
    ensures StartAll([f] + [g]).ups == [Table.Entry(name, f.pool, a)] + [Table.Entry(name, g.pool, b)]
  {
    OneComesUp(f, name, a);
    ComesUp(Liminal(map[], map[]), g, name, b);
    TwoWf(f, g);
    StartsWith([f], g);
  }

  lemma OneNameLost(e: UpEntry, e': UpEntry)
    requires e.uuid != e'.uuid && e.name == e'.name
    ensures !AllKept(InsertAll(Table.Tab(map[], map[]), [e] + [e']), [e] + [e'])
  {
  }

  /** Two pools of one name, one device each: both come up at the start, and one is lost from the table. */
  lemma EqualNamesDisplace(f: Found, g: Found, name: string, a: Pool, b: Pool)
    requires Simple(f, name, a) && Simple(g, name, b) && f.pool != g.pool
    ensures WfFound([f] + [g]) && (forall h | h in [f] + [g] :: OwnInfos(h))
    ensures var ups := StartAll([f] + [g]).ups;
            |ups| == 2 && !AllKept(InsertAll(Table.Tab(map[], map[]), ups), ups)
  {
    BothComeUp(f, g, name, a, b);
    OneNameLost(Table.Entry(name, f.pool, a), Table.Entry(name, g.pool, b));
  }

  method FillTable(ups: seq<UpEntry>) returns (pools: PoolTable)
    ensures fresh(pools) && pools.Valid() && pools.Value() == InsertAll(Table.Tab(map[], map[]), ups)
  {
    pools := new Table.Table<PoolUuid, Pool>();
    for k := 0 to |ups|
      invariant fresh(pools) && pools.Valid() && pools.Value() == InsertAll(Table.Tab(map[], map[]), ups[..k])
    {
      assert ups[..k + 1][..k] == ups[..k] && ups[..k + 1][k] == ups[k];
      var displaced := pools.Insert(ups[k].name, ups[k].uuid, ups[k].item);
    }
    assert ups[..|ups|] == ups;
  }

  lemma StartIsGood(l: Liminal, ups: seq<UpEntry>, done: set<PoolUuid>)
    requires StartInv(l, ups, done)
    ensures Inv(State(InsertAll(Table.Tab(map[], map[]), ups), l))
  {
    InsertAllInverse(ups);
  }

  /** A pool that did not come up at the start but may later waits for more devices with all that was found. */
  lemma StartedWaits(fs: seq<Found>, k: nat)
    requires WfFound(fs) && k < |fs|
    ensures forall f | f in fs :: OwnInfos(f)
    ensures var l, ups := StartAll(fs).liminal, StartAll(fs).ups;
            fs[k].pool in l.errored ==> InErrored(State(InsertAll(Table.Tab(map[], map[]), ups), l), fs[k].pool, fs[k].infos)
  {
    var up := StartAllExact(fs, k);
    InsertAllInverse(StartAll(fs).ups);
    StartAllKeeps(fs);
  }

  /** Whatever was found, the engine starts in a state that satisfies its invariant. */
  method Initialize(fs: seq<Found>) returns (engine: StratEngine)
    requires WfFound(fs)
    ensures fresh(engine) && engine.Valid()
    ensures forall f | f in fs :: OwnInfos(f)
    ensures engine.Value() == State(InsertAll(Table.Tab(map[], map[]), StartAll(fs).ups), StartAll(fs).liminal)
    ensures AllKept(engine.pools.Value(), StartAll(fs).ups) <==> DistinctNames(StartAll(fs).ups)
  {
    var liminal := new LiminalDevices();
    var ups := SetupPools(liminal, fs);
    StartAllKeeps(fs);
    StartIsGood(liminal.Value(), ups, PoolsOf(fs));
    StartKeepsAllIff(ups);
    var pools := FillTable(ups);
    engine := new StratEngine.Of(pools, liminal);
  }
}
