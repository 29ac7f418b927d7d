/**
 A pool's metadata, saved to some of its devices at a time and recovered by largest time.

 Clock readings, the devices selected, the devices that can be opened, the order in which
 devices are visited and the moments of restart are all arbitrary.
 */
module PoolMetadata {
  import opened Prelude
  import opened Mda
  import opened MdaRuns

  const MAX_NUM_TO_WRITE: int := 10

  /** A device of the pool: its layout, its bytes and the regions struct in memory. */
  datatype MetaDev = MetaDev(g: Geometry, store: Store)

  /** `up` says that the pool is set up, `lastUpdate` is then the time of the last save it knows of. */
  datatype Pool = Pool(devs: seq<MetaDev>, lastUpdate: Option<Time>, up: bool)

  // ----- the time stamp

  /** The last nanosecond of the last second. */
  predicate AtEnd(t: Time) {
    t.secs == I64_MAX && (t.nanos == 999_999_999 || t.nanos == 1_999_999_999)
  }

  /** `u` is after `t`, and in no leap second but that of `t`. */
  ghost predicate ComesAfter(t: Time, u: Time) {
    Before(t, u) && (u.nanos >= 1_000_000_000 ==> t.nanos >= 1_000_000_000 && u.secs == t.secs)
  }

  /** No time is between `t` and `u`: one nanosecond has passed. */
  ghost predicate JustAfter(t: Time, u: Time) {
    ComesAfter(t, u) && forall w | ComesAfter(t, w) :: !Before(w, u)
  }

  /** One nanosecond later; none if that is not representable. */
  function NextNano(t: Time): (n: Option<Time>)
    ensures n.None? <==> AtEnd(t)
    ensures n.None? ==> forall u :: !ComesAfter(t, u)
    ensures n.Some? ==> JustAfter(t, n.value)
  {
    if t.nanos + 1 == 1_000_000_000 || t.nanos + 1 == 2_000_000_000 then
      if t.secs == I64_MAX then None else Some(Time(t.secs + 1, 0))
    else Some(Time(t.secs, t.nanos + 1))
  }

  /** The clock is ahead of the last update, or there is a time after the last update. */
  predicate CanStamp(last: Option<Time>, now: Time) {
    last.None? || Before(last.value, now) || !AtEnd(last.value)
  }

  /** The clock reading, or just after the last update if the clock is not ahead of it. */
  function Stamp(last: Option<Time>, now: Time): (t: Option<Time>)
    ensures t.Some? <==> CanStamp(last, now)
    ensures t.Some? ==> BeforeOption(last, t.value)
    ensures t.Some? && BeforeOption(last, now) ==> t.value == now
    ensures t.Some? && !BeforeOption(last, now) ==> JustAfter(last.value, t.value)
  {
    if BeforeOption(last, now) then Some(now) else NextNano(last.value)
  }

  /** `t` is the clock reading if that is after the last time, and else just after the last time. */
  ghost predicate StampedBy(last: Option<Time>, now: Time, t: Time) {
    if BeforeOption(last, now) then t == now else JustAfter(last.value, t)
  }

  // ----- saving

  predicate Candidate(d: MetaDev, data: seq<Byte>) {
    |data| <= d.g.MaxData()
  }

  /** A selection of at most ten distinct devices that have room for the data. */
  ghost predicate Selection(devs: seq<MetaDev>, data: seq<Byte>, chosen: seq<nat>) {
    && |chosen| <= MAX_NUM_TO_WRITE && NoDup(chosen)
    && forall i | i in chosen :: i < |devs| && Candidate(devs[i], data)
  }

  function SaveDev(crc: Checksum, d: MetaDev, v: Version): MetaDev
    requires d.g.Fits(d.store.disk) && |v.data| <= U64_MAX
  {
    d.(store := SaveStep(crc, d.g, d.store, v))
  }

  ghost predicate AllFit(devs: seq<MetaDev>) {
    forall i | 0 <= i < |devs| :: devs[i].g.Fits(devs[i].store.disk)
  }

  /** Whether the device accepts the save. */
  predicate Accepts(d: MetaDev, v: Version) {
    Acceptable(d.g, d.store.headers, v.time, v.data)
  }

  /** The devices after `v` was written to those in `written`. */
  function SavedDevs(crc: Checksum, devs: seq<MetaDev>, v: Version, written: set<nat>): (r: seq<MetaDev>)
    requires AllFit(devs) && |v.data| <= U64_MAX
    ensures |r| == |devs|
    ensures forall i | 0 <= i < |devs| :: r[i] == if i in written then SaveDev(crc, devs[i], v) else devs[i]
  {
    seq(|devs|, i requires 0 <= i < |devs| => if i in written then SaveDev(crc, devs[i], v) else devs[i])
  }

  datatype SaveOutcome = SavedAt(stamp: Time) | NotSaved | ClockOverflow

  /** Some selected device that can be opened takes the data. */
  ghost predicate AnyTakes(devs: seq<MetaDev>, v: Version, chosen: seq<nat>, opens: set<nat>) {
    exists k :: 0 <= k < |chosen| && chosen[k] < |devs| && chosen[k] in opens && Accepts(devs[chosen[k]], v)
  }

  function Written(chosen: seq<nat>, opens: set<nat>): set<nat> {
    set i | i in chosen && i in opens
  }

  datatype SaveNext = SaveNext(pool: Pool, outcome: SaveOutcome)

  /** Write to every selected device that can be opened; succeed if any of them took the data. */
  ghost function SaveOf(crc: Checksum, pool: Pool, now: Time, data: seq<Byte>, chosen: seq<nat>, opens: set<nat>): SaveNext
    requires AllFit(pool.devs) && |data| <= U64_MAX
  {
    var stamp := Stamp(pool.lastUpdate, now);
    if stamp.None? then SaveNext(pool, ClockOverflow)
    else
      var v := Version(stamp.value, data);
      var devs := SavedDevs(crc, pool.devs, v, Written(chosen, opens));
      if AnyTakes(pool.devs, v, chosen, opens)
      then SaveNext(pool.(devs := devs, lastUpdate := stamp), SavedAt(stamp.value))
      else SaveNext(pool.(devs := devs), NotSaved)
  }

  method SaveToChosen(crc: Checksum, devs: seq<MetaDev>, v: Version, chosen: seq<nat>, opens: set<nat>)
    returns (devs': seq<MetaDev>, saved: bool)
    requires AllFit(devs) && |v.data| <= U64_MAX && Selection(devs, v.data, chosen)
    ensures devs' == SavedDevs(crc, devs, v, Written(chosen, opens))
    ensures saved <==> AnyTakes(devs, v, chosen, opens)
  {
    devs', saved := devs, false;
    for k := 0 to |chosen|
      invariant devs' == SavedDevs(crc, devs, v, Written(chosen[..k], opens))
      invariant saved <==> AnyTakes(devs, v, chosen[..k], opens)
    {
      var i := chosen[k];
      assert i in chosen && i !in chosen[..k];
      WrittenSnoc(devs, v, chosen, k, opens);
      if i in opens {
        SavedOneMore(crc, devs, v, Written(chosen[..k], opens), i);
        saved := saved || Accepts(devs'[i], v);
        devs' := devs'[i := SaveDev(crc, devs'[i], v)];
      }
    }
    assert chosen[..|chosen|] == chosen;
  }

  lemma SavedOneMore(crc: Checksum, devs: seq<MetaDev>, v: Version, written: set<nat>, i: nat)
    requires AllFit(devs) && |v.data| <= U64_MAX && i < |devs| && i !in written
    ensures SavedDevs(crc, devs, v, written)[i] == devs[i]
    ensures SavedDevs(crc, devs, v, written)[i := SaveDev(crc, devs[i], v)] == SavedDevs(crc, devs, v, written + {i})
  {
  }

  lemma WrittenSnoc(devs: seq<MetaDev>, v: Version, chosen: seq<nat>, k: nat, opens: set<nat>)
    requires k < |chosen| && chosen[k] < |devs|
    ensures Written(chosen[..k + 1], opens) == Written(chosen[..k], opens) + if chosen[k] in opens then {chosen[k]} else {}
    ensures AnyTakes(devs, v, chosen[..k + 1], opens) <==>
            AnyTakes(devs, v, chosen[..k], opens) || (chosen[k] in opens && Accepts(devs[chosen[k]], v))
  {
  }

  class MetadataMgr {
    var pool: Pool

    method SaveState(crc: Checksum, now: Time, data: seq<Byte>, chosen: seq<nat>, opens: set<nat>) returns (r: SaveOutcome)
      requires AllFit(pool.devs) && |data| <= U64_MAX && Selection(pool.devs, data, chosen)
      modifies this
      ensures SaveNext(pool, r) == SaveOf(crc, old(pool), now, data, chosen, opens)
      ensures r.ClockOverflow? <==> !CanStamp(old(pool).lastUpdate, now)
      ensures r.SavedAt? ==> StampedBy(old(pool).lastUpdate, now, r.stamp) && pool.lastUpdate == Some(r.stamp)
      ensures !r.SavedAt? ==> pool.lastUpdate == old(pool).lastUpdate
      ensures r.ClockOverflow? ==> pool == old(pool)
    {
      var stamp := Stamp(pool.lastUpdate, now);
      if stamp.None? { return ClockOverflow; }
      var devs, saved := SaveToChosen(crc, pool.devs, Version(stamp.value, data), chosen, opens);
      pool := pool.(devs := devs);
      if saved {
        pool := pool.(lastUpdate := stamp);
        return SavedAt(stamp.value);
      }
      return NotSaved;
    }
  }

  // ----- recovery

  /** The devices with the regions struct read afresh from their bytes; none if some of them cannot be loaded. */
  function ReloadAll(crc: Checksum, devs: seq<MetaDev>): (r: Option<seq<MetaDev>>)
    requires AllFit(devs)
    ensures r.Some? ==> |r.value| == |devs| && AllFit(r.value)
  {
    if devs == [] then Some([])
    else
      var first, rest := Load(crc, devs[0].g, devs[0].store.disk), ReloadAll(crc, devs[1..]);
      if first.Loaded? && rest.Some?
      then Some([devs[0].(store := devs[0].store.(headers := first.headers))] + rest.value)
      else None
  }

  function Later(a: Option<Time>, b: Option<Time>): Option<Time> {
    if a.None? then b else if b.None? then a else if Before(a.value, b.value) then b else a
  }

  function MostRecent(devs: seq<MetaDev>): Option<Time> {
    if devs == [] then None else Later(LastUpdateTime(devs[0].store.headers), MostRecent(devs[1..]))
  }

  datatype Metadata = NoMetadata | Recovered(time: Time, data: seq<Byte>) | Unreadable

  predicate InRange(order: seq<nat>, n: nat) {
    forall k | 0 <= k < |order| :: order[k] < n
  }

  /** The data of the first device in `order` that has the most recent time and can be read. */
  function FirstReadable(crc: Checksum, devs: seq<MetaDev>, time: Time, order: seq<nat>, readable: set<nat>): Metadata
    requires AllFit(devs) && InRange(order, |devs|)
  {
    if order == [] then Unreadable
    else
      var i := order[0];
      var d := devs[i];
      var read := if i in readable then LoadState(crc, d.g, d.store.disk, d.store.headers) else DataError;
      if LastUpdateTime(d.store.headers) == Some(time) && read.Data? then Recovered(time, read.bytes)
      else FirstReadable(crc, devs, time, order[1..], readable)
  }

  function GetMetadata(crc: Checksum, devs: seq<MetaDev>, order: seq<nat>, readable: set<nat>): Metadata
    requires AllFit(devs) && InRange(order, |devs|)
  {
    var time := MostRecent(devs);
    if time.None? then NoMetadata else FirstReadable(crc, devs, time.value, order, readable)
  }

  // ----- runs

  datatype Event =
    | Save(now: Time, data: seq<Byte>, chosen: seq<nat>, opens: set<nat>)
    | Restart(order: seq<nat>, readable: set<nat>)
    | Add(g: Geometry, disk: Disk)

  /** A restart sets the pool up again if it recovers metadata, and takes its time from it. */
  ghost function RestartOf(crc: Checksum, pool: Pool, order: seq<nat>, readable: set<nat>): Pool
    requires AllFit(pool.devs) && InRange(order, |pool.devs|)
  {
    match ReloadAll(crc, pool.devs)
    case None => pool.(up := false)
    case Some(devs) =>
      match GetMetadata(crc, devs, order, readable)
      case Recovered(time, _) => Pool(devs, Some(time), true)
      case _ => pool.(up := false)
  }

  ghost predicate Enabled(pool: Pool, e: Event) {
    match e
    case Save(now, data, chosen, opens) =>
      && pool.up && 0 < |data| <= U64_MAX && Selection(pool.devs, data, chosen)
      && CanStamp(pool.lastUpdate, now)
    case Restart(order, _) =>
      InRange(order, |pool.devs|) && (forall i | 0 <= i < |pool.devs| :: i in order)
    case Add(g, disk) => g.Fits(disk)
  }

  ghost function Next(crc: Checksum, pool: Pool, e: Event): Pool
    requires AllFit(pool.devs) && Enabled(pool, e)
  {
    match e
    case Save(now, data, chosen, opens) => SaveOf(crc, pool, now, data, chosen, opens).pool
    case Restart(order, readable) => RestartOf(crc, pool, order, readable)
    case Add(g, disk) => pool.(devs := pool.devs + [MetaDev(g, Store(InitDisk(crc, g, disk, 4), [None, None]))])
  }

  /** The last successful save after the event, given the one before it. */
  ghost function NextLatest(crc: Checksum, pool: Pool, latest: Option<Version>, e: Event): Option<Version>
    requires AllFit(pool.devs) && Enabled(pool, e)
  {
    match e
    case Save(now, data, chosen, opens) =>
      (match SaveOf(crc, pool, now, data, chosen, opens).outcome
       case SavedAt(stamp) => Some(Version(stamp, data))
       case _ => latest)
    case _ => latest
  }

  // ----- the invariant

  ghost predicate DevGood(crc: Checksum, d: MetaDev, vs: Slots) {
    Good(crc, d.g, d.store.disk, d.store.headers, vs)
  }

  ghost function LatestOf(d: MetaDev, vs: Slots): Option<Version> {
    Latest(d.store.headers, vs)
  }

  /** `v` is not newer than `latest`, and is `latest` if it has its time. */
  ghost predicate NotAhead(v: Option<Version>, latest: Option<Version>) {
    v.None? || (latest.Some? && (Before(v.value.time, latest.value.time) || v == latest))
  }

  /** Every device is intact, none is ahead of the last successful save, and some device holds it. */
  ghost predicate PoolInv(crc: Checksum, pool: Pool, slots: seq<Slots>, latest: Option<Version>) {
    && |slots| == |pool.devs|
    && (forall i | 0 <= i < |slots| :: DevGood(crc, pool.devs[i], slots[i]))
    && (forall i | 0 <= i < |slots| :: NotAhead(LatestOf(pool.devs[i], slots[i]), latest))
    && (latest.Some? ==> exists i :: 0 <= i < |slots| && LatestOf(pool.devs[i], slots[i]) == latest)
    && (pool.up ==> pool.lastUpdate == TimeOf(latest))
  }

  lemma InvFits(crc: Checksum, pool: Pool, slots: seq<Slots>, latest: Option<Version>)
    requires PoolInv(crc, pool, slots, latest)
    ensures AllFit(pool.devs)
  {
  }

  /** A stamp is after everything any device holds, so a device rejects the save exactly if it has no room for it. */
  lemma NoDeviceRejects(crc: Checksum, d: MetaDev, vs: Slots, latest: Option<Version>, v: Version)
    requires DevGood(crc, d, vs) && NotAhead(LatestOf(d, vs), latest)
    requires BeforeOption(TimeOf(latest), v.time)
    ensures Accepts(d, v) <==> Candidate(d, v.data)
  {
  }

  /** The versions in the slots of each device after a save to the devices in `written`. */
  ghost function SlotsAfter(devs: seq<MetaDev>, slots: seq<Slots>, v: Version, written: set<nat>): (r: seq<Slots>)
    requires |devs| == |slots|
    ensures |r| == |slots|
    ensures forall i | 0 <= i < |slots| :: r[i] == if i in written then SlotAfter(devs[i], slots[i], v) else slots[i]
  {
    seq(|slots|, i requires 0 <= i < |slots| => if i in written then SlotAfter(devs[i], slots[i], v) else slots[i])
  }

  ghost function SlotAfter(d: MetaDev, vs: Slots, v: Version): Slots {
    vs[Older(d.store.headers) := Some(v)]
  }

  lemma SavedDevGood(crc: Checksum, d: MetaDev, vs: Slots, v: Version)
    requires DevGood(crc, d, vs) && Accepts(d, v) && 0 < |v.data| <= U64_MAX
    ensures d.g.Fits(d.store.disk)
    ensures DevGood(crc, SaveDev(crc, d, v), SlotAfter(d, vs, v))
    ensures LatestOf(SaveDev(crc, d, v), SlotAfter(d, vs, v)) == Some(v)
  {
    SaveKeepsGood(crc, d.g, d.store.disk, d.store.headers, vs, v);
  }

  /** Device `i` after the save: intact, and holding the new version if it was written. */
  lemma SavedDevAt(crc: Checksum, pool: Pool, slots: seq<Slots>, latest: Option<Version>, v: Version, written: set<nat>, i: nat)
    requires PoolInv(crc, pool, slots, latest) && AllFit(pool.devs) && i < |pool.devs|
    requires 0 < |v.data| <= U64_MAX && BeforeOption(TimeOf(latest), v.time)
    requires i in written ==> Candidate(pool.devs[i], v.data)
    ensures var d, vs := SavedDevs(crc, pool.devs, v, written)[i], SlotsAfter(pool.devs, slots, v, written)[i];
            && DevGood(crc, d, vs)
            && LatestOf(d, vs) == (if i in written then Some(v) else LatestOf(pool.devs[i], slots[i]))
            && NotAhead(LatestOf(d, vs), Some(v))
  {
    assert DevGood(crc, pool.devs[i], slots[i]) && NotAhead(LatestOf(pool.devs[i], slots[i]), latest);
    if i in written {
      NoDeviceRejects(crc, pool.devs[i], slots[i], latest, v);
      SavedDevGood(crc, pool.devs[i], slots[i], v);
    }
  }

  lemma SuccessKeepsInv(crc: Checksum, pool: Pool, slots: seq<Slots>, latest: Option<Version>, v: Version, written: set<nat>, hit: nat)
    requires PoolInv(crc, pool, slots, latest) && AllFit(pool.devs) && hit < |pool.devs| && hit in written
    requires 0 < |v.data| <= U64_MAX && BeforeOption(TimeOf(latest), v.time)
    requires forall i | 0 <= i < |pool.devs| && i in written :: Candidate(pool.devs[i], v.data)
    ensures PoolInv(crc, pool.(devs := SavedDevs(crc, pool.devs, v, written), lastUpdate := Some(v.time)),
                    SlotsAfter(pool.devs, slots, v, written), Some(v))
  {
    var devs', slots' := SavedDevs(crc, pool.devs, v, written), SlotsAfter(pool.devs, slots, v, written);
    forall i | 0 <= i < |slots'|
      ensures DevGood(crc, devs'[i], slots'[i]) && NotAhead(LatestOf(devs'[i], slots'[i]), Some(v))
    {
      SavedDevAt(crc, pool, slots, latest, v, written, i);
    }
    SavedDevAt(crc, pool, slots, latest, v, written, hit);
    assert LatestOf(devs'[hit], slots'[hit]) == Some(v);
  }

  lemma SaveKeepsInv(crc: Checksum, pool: Pool, slots: seq<Slots>, latest: Option<Version>,
                     now: Time, data: seq<Byte>, chosen: seq<nat>, opens: set<nat>) returns (slots': seq<Slots>)
    requires PoolInv(crc, pool, slots, latest) && AllFit(pool.devs)
    requires Enabled(pool, Save(now, data, chosen, opens))
    ensures PoolInv(crc, Next(crc, pool, Save(now, data, chosen, opens)), slots',
                    NextLatest(crc, pool, latest, Save(now, data, chosen, opens)))
  {
    var v := Version(Stamp(pool.lastUpdate, now).value, data);
    var written := Written(chosen, opens);
    if AnyTakes(pool.devs, v, chosen, opens) {
      var k :| 0 <= k < |chosen| && chosen[k] < |pool.devs| && chosen[k] in opens && Accepts(pool.devs[chosen[k]], v);
      SuccessKeepsInv(crc, pool, slots, latest, v, written, chosen[k]);
      SaveIs(crc, pool, latest, now, data, chosen, opens);
      slots' := SlotsAfter(pool.devs, slots, v, written);
    } else {
      forall i | 0 <= i < |pool.devs| && i in written ensures Accepts(pool.devs[i], v) {
        NoDeviceRejects(crc, pool.devs[i], slots[i], latest, v);
      }
      NothingWritten(crc, pool.devs, v, chosen, opens);
      SaveIs(crc, pool, latest, now, data, chosen, opens);
      slots' := slots;
    }
  }

  lemma SaveIs(crc: Checksum, pool: Pool, latest: Option<Version>, now: Time, data: seq<Byte>, chosen: seq<nat>, opens: set<nat>)
    requires AllFit(pool.devs) && Enabled(pool, Save(now, data, chosen, opens))
    ensures var v := Version(Stamp(pool.lastUpdate, now).value, data);
            var devs := SavedDevs(crc, pool.devs, v, Written(chosen, opens));
            var next, last := Next(crc, pool, Save(now, data, chosen, opens)), NextLatest(crc, pool, latest, Save(now, data, chosen, opens));
            if AnyTakes(pool.devs, v, chosen, opens)
            then next == pool.(devs := devs, lastUpdate := Some(v.time)) && last == Some(v)
            else next == pool.(devs := devs) && last == latest
  {
  }

  lemma NothingWritten(crc: Checksum, devs: seq<MetaDev>, v: Version, chosen: seq<nat>, opens: set<nat>)
    requires AllFit(devs) && |v.data| <= U64_MAX && !AnyTakes(devs, v, chosen, opens)
    requires forall i | 0 <= i < |devs| && i in Written(chosen, opens) :: Accepts(devs[i], v)
    ensures SavedDevs(crc, devs, v, Written(chosen, opens)) == devs
  {
  }

  // ----- recovery in a state that satisfies the invariant

  lemma {:induction false} ReloadIsIdentity(crc: Checksum, devs: seq<MetaDev>, slots: seq<Slots>)
    requires |devs| == |slots| && AllFit(devs)
    requires forall i | 0 <= i < |slots| :: DevGood(crc, devs[i], slots[i])
    ensures ReloadAll(crc, devs) == Some(devs)
  {
    if devs != [] {
      var d := devs[0];
      assert DevGood(crc, d, slots[0]);
      GoodReload(crc, d.g, d.store.disk, d.store.headers, slots[0]);
      ReloadIsIdentity(crc, devs[1..], slots[1..]);
      assert devs == [d] + devs[1..];
    }
  }

  lemma {:induction false} MostRecentBounds(devs: seq<MetaDev>, i: nat)
    requires i < |devs| && LastUpdateTime(devs[i].store.headers).Some?
    ensures MostRecent(devs).Some?
    ensures !Before(MostRecent(devs).value, LastUpdateTime(devs[i].store.headers).value)
  {
    if i > 0 {
      assert devs[1..][i - 1] == devs[i];
      MostRecentBounds(devs[1..], i - 1);
    }
  }

  lemma {:induction false} MostRecentAttained(devs: seq<MetaDev>) returns (i: nat)
    requires MostRecent(devs).Some?
    ensures i < |devs| && LastUpdateTime(devs[i].store.headers) == MostRecent(devs)
  {
    if LastUpdateTime(devs[0].store.headers) == MostRecent(devs) {
      i := 0;
    } else {
      var j := MostRecentAttained(devs[1..]);
      i := j + 1;
    }
  }

  /** What is known of one device: its times and data are those of its latest version. */
  lemma DevReads(crc: Checksum, pool: Pool, slots: seq<Slots>, latest: Option<Version>, i: nat)
    requires PoolInv(crc, pool, slots, latest) && i < |pool.devs|
    ensures var d, v := pool.devs[i], LatestOf(pool.devs[i], slots[i]);
            && d.g.Fits(d.store.disk)
            && LastUpdateTime(d.store.headers) == TimeOf(v)
            && LoadState(crc, d.g, d.store.disk, d.store.headers) == AsRead(v)
            && NotAhead(v, latest)
  {
    var d := pool.devs[i];
    assert DevGood(crc, d, slots[i]) && NotAhead(LatestOf(d, slots[i]), latest);
    GoodReload(crc, d.g, d.store.disk, d.store.headers, slots[i]);
  }

  lemma MostRecentIsLatest(crc: Checksum, pool: Pool, slots: seq<Slots>, latest: Option<Version>)
    requires PoolInv(crc, pool, slots, latest)
    ensures MostRecent(pool.devs) == TimeOf(latest)
  {
    if latest.Some? {
      var i :| 0 <= i < |slots| && LatestOf(pool.devs[i], slots[i]) == latest;
      DevReads(crc, pool, slots, latest, i);
      MostRecentBounds(pool.devs, i);
    }
    if MostRecent(pool.devs).Some? {
      var j := MostRecentAttained(pool.devs);
      DevReads(crc, pool, slots, latest, j);
    }
  }

  /** Some device among `order` can be read and holds the last successful save. */
  ghost predicate HolderIn(pool: Pool, slots: seq<Slots>, latest: Option<Version>, order: seq<nat>, readable: set<nat>)
    requires |slots| == |pool.devs| && InRange(order, |pool.devs|)
  {
    exists k :: 0 <= k < |order| && order[k] in readable && LatestOf(pool.devs[order[k]], slots[order[k]]) == latest
  }

  lemma HolderStep(pool: Pool, slots: seq<Slots>, latest: Option<Version>, order: seq<nat>, readable: set<nat>)
    requires |slots| == |pool.devs| && InRange(order, |pool.devs|) && order != []
    ensures HolderIn(pool, slots, latest, order, readable) <==>
            || (order[0] in readable && LatestOf(pool.devs[order[0]], slots[order[0]]) == latest)
            || HolderIn(pool, slots, latest, order[1..], readable)
  {
  }

  /** The first device of the order decides if it can be read and holds the last successful save. */
  lemma ScanStep(crc: Checksum, pool: Pool, slots: seq<Slots>, latest: Version, order: seq<nat>, readable: set<nat>)
    requires PoolInv(crc, pool, slots, Some(latest)) && AllFit(pool.devs) && InRange(order, |pool.devs|) && order != []
    ensures FirstReadable(crc, pool.devs, latest.time, order, readable) ==
            if order[0] in readable && LatestOf(pool.devs[order[0]], slots[order[0]]) == Some(latest)
            then Recovered(latest.time, latest.data)
            else FirstReadable(crc, pool.devs, latest.time, order[1..], readable)
  {
    DevReads(crc, pool, slots, Some(latest), order[0]);
  }

  lemma {:induction false} ScanFindsLatest(crc: Checksum, pool: Pool, slots: seq<Slots>, latest: Version, order: seq<nat>, readable: set<nat>)
    requires PoolInv(crc, pool, slots, Some(latest)) && AllFit(pool.devs) && InRange(order, |pool.devs|)
    ensures FirstReadable(crc, pool.devs, latest.time, order, readable) ==
            if HolderIn(pool, slots, Some(latest), order, readable) then Recovered(latest.time, latest.data) else Unreadable
  {
    if order != [] {
      ScanStep(crc, pool, slots, latest, order, readable);
      HolderStep(pool, slots, Some(latest), order, readable);
      ScanFindsLatest(crc, pool, slots, latest, order[1..], readable);
    }
  }

  /**
   Recovery gives the last successful save, whatever the order of the devices, unless no device
   that holds it can be read; it never gives an older one.
   */
  lemma RecoveryIsExact(crc: Checksum, pool: Pool, slots: seq<Slots>, latest: Option<Version>, order: seq<nat>, readable: set<nat>)
    requires PoolInv(crc, pool, slots, latest) && AllFit(pool.devs) && InRange(order, |pool.devs|)
    ensures ReloadAll(crc, pool.devs) == Some(pool.devs)
    ensures GetMetadata(crc, pool.devs, order, readable) ==
            if latest.None? then NoMetadata
            else if HolderIn(pool, slots, latest, order, readable) then Recovered(latest.value.time, latest.value.data)
            else Unreadable
  {
    ReloadIsIdentity(crc, pool.devs, slots);
    MostRecentIsLatest(crc, pool, slots, latest);
    if latest.Some? { ScanFindsLatest(crc, pool, slots, latest.value, order, readable); }
  }

  /** If every device can be read, recovery succeeds as soon as anything was saved. */
  lemma AllReadable(pool: Pool, slots: seq<Slots>, latest: Option<Version>, order: seq<nat>, readable: set<nat>, crc: Checksum)
    requires PoolInv(crc, pool, slots, latest) && latest.Some? && InRange(order, |pool.devs|)
    requires forall i | 0 <= i < |pool.devs| :: i in order && i in readable
    ensures HolderIn(pool, slots, latest, order, readable)
  {
    var i :| 0 <= i < |slots| && LatestOf(pool.devs[i], slots[i]) == latest;
    assert i in order;
    var k :| 0 <= k < |order| && order[k] == i;
  }

  lemma RestartKeepsInv(crc: Checksum, pool: Pool, slots: seq<Slots>, latest: Option<Version>, order: seq<nat>, readable: set<nat>)
    requires PoolInv(crc, pool, slots, latest) && AllFit(pool.devs) && Enabled(pool, Restart(order, readable))
    ensures PoolInv(crc, Next(crc, pool, Restart(order, readable)), slots, latest)
  {
    RestartIs(crc, pool, slots, latest, order, readable);
    SameDevsInv(crc, pool, RestartOf(crc, pool, order, readable), slots, latest);
  }

  lemma RestartIs(crc: Checksum, pool: Pool, slots: seq<Slots>, latest: Option<Version>, order: seq<nat>, readable: set<nat>)
    requires PoolInv(crc, pool, slots, latest) && AllFit(pool.devs) && InRange(order, |pool.devs|)
    ensures var p := RestartOf(crc, pool, order, readable); p.devs == pool.devs && (p.up ==> p.lastUpdate == TimeOf(latest))
  {
    RecoveryIsExact(crc, pool, slots, latest, order, readable);
  }

  lemma SameDevsInv(crc: Checksum, pool: Pool, pool': Pool, slots: seq<Slots>, latest: Option<Version>)
    requires PoolInv(crc, pool, slots, latest) && pool'.devs == pool.devs
    requires pool'.up ==> pool'.lastUpdate == TimeOf(latest)
    ensures PoolInv(crc, pool', slots, latest)
  {
  }

  lemma AddKeepsInv(crc: Checksum, pool: Pool, slots: seq<Slots>, latest: Option<Version>, g: Geometry, disk: Disk)
    returns (slots': seq<Slots>)
    requires PoolInv(crc, pool, slots, latest) && AllFit(pool.devs) && g.Fits(disk)
    ensures PoolInv(crc, Next(crc, pool, Add(g, disk)), slots', latest)
    ensures pool.devs <= Next(crc, pool, Add(g, disk)).devs && |Next(crc, pool, Add(g, disk)).devs| == |pool.devs| + 1
  {
    InitGood(crc, g, disk);
    var empty: Slots := [None, None];
    slots' := slots + [empty];
    var next := Next(crc, pool, Add(g, disk));
    forall i | 0 <= i < |slots'|
      ensures DevGood(crc, next.devs[i], slots'[i]) && NotAhead(LatestOf(next.devs[i], slots'[i]), latest)
    {
      if i < |slots| { assert DevGood(crc, pool.devs[i], slots[i]) && NotAhead(LatestOf(pool.devs[i], slots[i]), latest); }
    }
    if latest.Some? {
      var i :| 0 <= i < |slots| && LatestOf(pool.devs[i], slots[i]) == latest;
      assert LatestOf(next.devs[i], slots'[i]) == latest;
    }
  }

  /** A run: each pool follows from the one before it, and `latests` records the last successful save. */
  ghost predicate IsRun(crc: Checksum, pools: seq<Pool>, latests: seq<Option<Version>>, events: seq<Event>) {
    && |pools| == |latests| == |events| + 1
    && forall i | 0 <= i < |events| ::
         && AllFit(pools[i].devs) && Enabled(pools[i], events[i])
         && pools[i + 1] == Next(crc, pools[i], events[i])
         && latests[i + 1] == NextLatest(crc, pools[i], latests[i], events[i])
  }

  ghost predicate Fresh(pool: Pool, latest: Option<Version>) {
    pool == Pool([], None, true) && latest == None
  }

  lemma {:induction false} RunKeepsInv(crc: Checksum, pools: seq<Pool>, latests: seq<Option<Version>>, events: seq<Event>, n: nat)
    returns (slots: seq<Slots>)
    requires IsRun(crc, pools, latests, events) && Fresh(pools[0], latests[0]) && n < |pools|
    ensures PoolInv(crc, pools[n], slots, latests[n])
    decreases n
  {
    if n == 0 {
      slots := [];
    } else {
      var before := RunKeepsInv(crc, pools, latests, events, n - 1);
      var m := n - 1;
      assert pools[m + 1] == Next(crc, pools[m], events[m]);
      match events[m] {
        case Save(now, data, chosen, opens) =>
          slots := SaveKeepsInv(crc, pools[m], before, latests[m], now, data, chosen, opens);
        case Restart(order, readable) =>
          RestartKeepsInv(crc, pools[m], before, latests[m], order, readable);
          slots := before;
        case Add(g, disk) =>
          slots := AddKeepsInv(crc, pools[m], before, latests[m], g, disk);
      }
    }
  }

  /** The stamp of a save that succeeds. */
  ghost function SavedStamp(crc: Checksum, pool: Pool, e: Event): Option<Time>
    requires AllFit(pool.devs) && Enabled(pool, e)
  {
    match e
    case Save(now, data, chosen, opens) =>
      (match SaveOf(crc, pool, now, data, chosen, opens).outcome
       case SavedAt(stamp) => Some(stamp)
       case _ => None)
    case _ => None
  }

  /** A successful save becomes the latest, with a later time; anything else leaves the latest alone. */
  lemma StampIsLater(crc: Checksum, pools: seq<Pool>, latests: seq<Option<Version>>, events: seq<Event>, n: nat)
    requires IsRun(crc, pools, latests, events) && Fresh(pools[0], latests[0]) && n < |events|
    ensures var stamp := SavedStamp(crc, pools[n], events[n]);
            if stamp.Some? then BeforeOption(TimeOf(latests[n]), stamp.value) && TimeOf(latests[n + 1]) == stamp
            else latests[n + 1] == latests[n]
  {
    var slots := RunKeepsInv(crc, pools, latests, events, n);
  }

  ghost predicate NotLater(a: Option<Time>, b: Option<Time>) {
    a.None? || (b.Some? && !Before(b.value, a.value))
  }

  lemma NotLaterTrans(a: Option<Time>, b: Option<Time>, c: Option<Time>)
    requires NotLater(a, b) && NotLater(b, c)
    ensures NotLater(a, c)
  {
  }

  lemma NextNotEarlier(crc: Checksum, pools: seq<Pool>, latests: seq<Option<Version>>, events: seq<Event>, n: nat)
    requires IsRun(crc, pools, latests, events) && Fresh(pools[0], latests[0]) && n < |events|
    ensures NotLater(TimeOf(latests[n]), TimeOf(latests[n + 1]))
  {
    StampIsLater(crc, pools, latests, events, n);
  }

  lemma {:induction false} LatestNeverGoesBack(crc: Checksum, pools: seq<Pool>, latests: seq<Option<Version>>, events: seq<Event>, m: nat, n: nat)
    requires IsRun(crc, pools, latests, events) && Fresh(pools[0], latests[0]) && m <= n < |pools|
    ensures NotLater(TimeOf(latests[m]), TimeOf(latests[n]))
    decreases n
  {
    if m < n {
      LatestNeverGoesBack(crc, pools, latests, events, m, n - 1);
      NextNotEarlier(crc, pools, latests, events, n - 1);
      NotLaterTrans(TimeOf(latests[m]), TimeOf(latests[n - 1]), TimeOf(latests[n - 1 + 1]));
    }
  }

  /** In every run the stamps of successful saves strictly increase, restarts in between included. */
  lemma StampsIncrease(crc: Checksum, pools: seq<Pool>, latests: seq<Option<Version>>, events: seq<Event>, m: nat, n: nat)
    requires IsRun(crc, pools, latests, events) && Fresh(pools[0], latests[0]) && m < n < |events|
    requires SavedStamp(crc, pools[m], events[m]).Some? && SavedStamp(crc, pools[n], events[n]).Some?
    ensures Before(SavedStamp(crc, pools[m], events[m]).value, SavedStamp(crc, pools[n], events[n]).value)
  {
    StampIsLater(crc, pools, latests, events, m);
    LatestNeverGoesBack(crc, pools, latests, events, m + 1, n);
    StampIsLater(crc, pools, latests, events, n);
  }

  /** In every run no selected device rejects a save because of the time stamp. */
  lemma RunNeverRejects(crc: Checksum, pools: seq<Pool>, latests: seq<Option<Version>>, events: seq<Event>, n: nat, k: nat)
    requires IsRun(crc, pools, latests, events) && Fresh(pools[0], latests[0])
    requires n < |events| && events[n].Save? && k < |events[n].chosen|
    ensures var e, pool := events[n], pools[n];
            && e.chosen[k] < |pool.devs|
            && Accepts(pool.devs[e.chosen[k]], Version(Stamp(pool.lastUpdate, e.now).value, e.data))
  {
    var slots := RunKeepsInv(crc, pools, latests, events, n);
    var e, pool := events[n], pools[n];
    assert e.chosen[k] in e.chosen;
    var i := e.chosen[k];
    assert DevGood(crc, pool.devs[i], slots[i]) && NotAhead(LatestOf(pool.devs[i], slots[i]), latests[n]);
    NoDeviceRejects(crc, pool.devs[i], slots[i], latests[n], Version(Stamp(pool.lastUpdate, e.now).value, e.data));
  }

  /** Some selected device can be opened. */
  ghost predicate AnyOpens(chosen: seq<nat>, opens: set<nat>) {
    exists k :: 0 <= k < |chosen| && chosen[k] in opens
  }

  lemma SavesIff(crc: Checksum, pool: Pool, slots: seq<Slots>, latest: Option<Version>, e: Event)
    requires PoolInv(crc, pool, slots, latest) && AllFit(pool.devs) && e.Save? && Enabled(pool, e)
    ensures var next, last := Next(crc, pool, e), NextLatest(crc, pool, latest, e);
            if AnyOpens(e.chosen, e.opens) then
              && last.Some? && last.value.data == e.data && StampedBy(TimeOf(latest), e.now, last.value.time)
              && next.lastUpdate == TimeOf(last) && next.up
            else last == latest && next == pool
  {
    var v := Version(Stamp(pool.lastUpdate, e.now).value, e.data);
    forall i | 0 <= i < |pool.devs| && Candidate(pool.devs[i], e.data) ensures Accepts(pool.devs[i], v) {
      assert DevGood(crc, pool.devs[i], slots[i]) && NotAhead(LatestOf(pool.devs[i], slots[i]), latest);
      NoDeviceRejects(crc, pool.devs[i], slots[i], latest, v);
    }
    SaveIs(crc, pool, latest, e.now, e.data, e.chosen, e.opens);
    TakesIff(pool.devs, v, e.chosen, e.opens);
    if !AnyOpens(e.chosen, e.opens) { NothingWritten(crc, pool.devs, v, e.chosen, e.opens); }
  }

  lemma TakesIff(devs: seq<MetaDev>, v: Version, chosen: seq<nat>, opens: set<nat>)
    requires Selection(devs, v.data, chosen)
    requires forall i | 0 <= i < |devs| && Candidate(devs[i], v.data) :: Accepts(devs[i], v)
    ensures AnyTakes(devs, v, chosen, opens) <==> AnyOpens(chosen, opens)
    ensures forall i | 0 <= i < |devs| && i in Written(chosen, opens) :: Accepts(devs[i], v)
  {
    if AnyOpens(chosen, opens) {
      var k :| 0 <= k < |chosen| && chosen[k] in opens;
      assert chosen[k] in chosen;
    }
  }

  /**
   In every run a save succeeds exactly when some selected device can be opened, however the clock went, and is then
   the latest save, under the time that the clock and the latest save before it demand.
   */
  lemma SaveSucceedsIff(crc: Checksum, pools: seq<Pool>, latests: seq<Option<Version>>, events: seq<Event>, n: nat)
    requires IsRun(crc, pools, latests, events) && Fresh(pools[0], latests[0]) && n < |events| && events[n].Save?
    ensures var e := events[n];
            if AnyOpens(e.chosen, e.opens) then
              && latests[n + 1].Some? && latests[n + 1].value.data == e.data
              && StampedBy(TimeOf(latests[n]), e.now, latests[n + 1].value.time)
              && pools[n + 1].lastUpdate == TimeOf(latests[n + 1]) && pools[n + 1].up
            else latests[n + 1] == latests[n] && pools[n + 1] == pools[n]
  {
    var slots := RunKeepsInv(crc, pools, latests, events, n);
    SavesIff(crc, pools[n], slots, latests[n], events[n]);
  }

  /** In every run a restart sets the pool up exactly when a device with the latest save can be read, and loses nothing. */
  lemma RestartUpIff(crc: Checksum, pools: seq<Pool>, latests: seq<Option<Version>>, events: seq<Event>, n: nat) returns (slots: seq<Slots>)
    requires IsRun(crc, pools, latests, events) && Fresh(pools[0], latests[0]) && n < |events| && events[n].Restart?
    ensures PoolInv(crc, pools[n], slots, latests[n]) && InRange(events[n].order, |pools[n].devs|)
    ensures pools[n + 1].devs == pools[n].devs && latests[n + 1] == latests[n]
    ensures pools[n + 1].up <==>
            latests[n].Some? && HolderIn(pools[n], slots, latests[n], events[n].order, events[n].readable)
    ensures pools[n + 1].up ==> pools[n + 1].lastUpdate == TimeOf(latests[n])
  {
    slots := RunKeepsInv(crc, pools, latests, events, n);
    assert pools[n + 1] == Next(crc, pools[n], events[n]);
    RecoveryIsExact(crc, pools[n], slots, latests[n], events[n].order, events[n].readable);
  }

  /** At any point of any run, recovery over all the devices gives the last successful save. */
  lemma RunRecovers(crc: Checksum, pools: seq<Pool>, latests: seq<Option<Version>>, events: seq<Event>, n: nat, order: seq<nat>, readable: set<nat>)
    requires IsRun(crc, pools, latests, events) && Fresh(pools[0], latests[0]) && n < |pools|
    requires InRange(order, |pools[n].devs|) && forall i | 0 <= i < |pools[n].devs| :: i in order && i in readable
    ensures AllFit(pools[n].devs) && ReloadAll(crc, pools[n].devs) == Some(pools[n].devs)
    ensures GetMetadata(crc, pools[n].devs, order, readable) ==
            if latests[n].None? then NoMetadata else Recovered(latests[n].value.time, latests[n].value.data)
  {
    var slots := RunKeepsInv(crc, pools, latests, events, n);
    InvFits(crc, pools[n], slots, latests[n]);
    RecoveryIsExact(crc, pools[n], slots, latests[n], order, readable);
    if latests[n].Some? { AllReadable(pools[n], slots, latests[n], order, readable, crc); }
  }
}
