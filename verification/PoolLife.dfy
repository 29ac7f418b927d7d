/**
 The parts joined: what a run hands out passes the check on the metadata it saves, and a restart
 from that metadata gives the backstore back.
 */
module PoolLife {
  import opened Prelude
  import opened BlockDevs
  import opened Backstore
  import opened BackstoreRuns
  import opened BackstoreFailures
  import opened Save
  import Restore
  import CheckMetadata
  import Mda
  import MdaRuns
  import PoolMetadata
  import PoolCrash
  import PoolCrashRuns

  type Extent = CheckMetadata.Extent

  // ----- what a run hands out

  /** One extent after the other, from `lo` to `hi`. */
  ghost predicate Consecutive(es: seq<Extent>, lo: nat, hi: nat) {
    if es == [] then lo == hi else es[0].start == lo && Consecutive(es[1..], es[0].End(), hi)
  }

  lemma {:induction false} ConsecutiveConcat(a: seq<Extent>, b: seq<Extent>, lo: nat, mid: nat, hi: nat)
    requires Consecutive(a, lo, mid) && Consecutive(b, mid, hi)
    ensures Consecutive(a + b, lo, hi)
    decreases |a|
  {
    if a == [] {
      assert a + b == b;
    } else {
      assert (a + b)[0] == a[0] && (a + b)[1..] == a[1..] + b;
      ConsecutiveConcat(a[1..], b, a[0].End(), mid, hi);
    }
  }

  /** Consecutive extents hold exactly the sectors between their ends. */
  lemma {:induction false} ConsecutiveTiles(es: seq<Extent>, lo: nat, hi: nat, x: int)
    requires Consecutive(es, lo, hi)
    ensures lo <= hi && (CheckMetadata.InSome(es, x) <==> lo <= x < hi)
    decreases |es|
  {
    if es != [] {
      ConsecutiveTiles(es[1..], es[0].End(), hi, x);
      CheckMetadata.CoverIs(es, x);
      CheckMetadata.CoverIs(es[1..], x);
      assert x in CheckMetadata.Interval(es[0].start, es[0].End()) <==> es[0].Has(x);
    }
  }

  function ToExtents(cs: seq<Chunk>): (es: seq<Extent>)
    ensures |es| == |cs| && forall i | 0 <= i < |cs| :: es[i] == CheckMetadata.Extent(cs[i].start, cs[i].length)
  {
    seq(|cs|, i requires 0 <= i < |cs| => CheckMetadata.Extent(cs[i].start, cs[i].length))
  }

  lemma {:induction false} ChunksConsecutive(sizes: seq<Sectors>, next: nat)
    ensures Consecutive(ToExtents(Chunks(sizes, next)), next, next + Total(sizes))
    decreases |sizes|
  {
    if sizes != [] {
      var cs := Chunks(sizes, next);
      assert ToExtents(cs)[1..] == ToExtents(cs[1..]) && cs[1..] == Chunks(sizes[1..], next + sizes[0]);
      ChunksConsecutive(sizes[1..], next + sizes[0]);
    }
  }

  /** What one attempt hands out of the cap device; one whose devicemapper step fails hands out nothing. */
  ghost function HandedOut(s: State, a: Attempt, s': State): seq<Extent> {
    if !CapOk(s) || (a.op.DoRequest? && a.op.modulus == 0) then []
    else
      match a.op
      case DoAlloc(sizes) =>
        (match AllocResultOf(s, sizes, a.dm)
         case Allocated(chunks) => ToExtents(chunks)
         case _ => [])
      case DoRequest(request, modulus) =>
        (match RequestNext(s, request, modulus, a.dm, s'.devs, s'.segments).result
         case Granted(start, length) => [CheckMetadata.Extent(start, length)]
         case _ => [])
      case _ => []
  }

  lemma TryHandsOut(s: State, a: Attempt, s': State)
    requires Try(s, a, s')
    ensures Consecutive(HandedOut(s, a, s'), s.next, s'.next)
  {
    match a.op {
      case DoAlloc(sizes) => AllocHandsOut(s, sizes, a.dm, s');
      case DoRequest(request, modulus) => RequestHandsOut(s, request, modulus, a.dm, s');
      case _ =>
    }
  }

  lemma AllocHandsOut(s: State, sizes: seq<Sectors>, dm: Dm, s': State)
    requires CapOk(s) && s' == AllocNext(s, sizes, dm, s'.devs, s'.segments)
    ensures Consecutive(HandedOut(s, Attempt(DoAlloc(sizes), dm), s'), s.next, s'.next)
  {
    ChunksConsecutive(sizes, s.next);
  }

  lemma RequestHandsOut(s: State, request: nat, modulus: nat, dm: Dm, s': State)
    requires RequestTry(s, request, modulus, dm, s')
    ensures Consecutive(HandedOut(s, Attempt(DoRequest(request, modulus), dm), s'), s.next, s'.next)
  {
    var es := HandedOut(s, Attempt(DoRequest(request, modulus), dm), s');
    if request < modulus { SmallQuotient(request, modulus); }
    if es != [] { assert es[1..] == []; }
  }

  ghost function Flat(lists: seq<seq<Extent>>): seq<Extent> {
    if lists == [] then [] else Flat(lists[..|lists| - 1]) + lists[|lists| - 1]
  }

  lemma {:induction false} FlatConsecutive(lists: seq<seq<Extent>>, ends: seq<nat>)
    requires |ends| == |lists| + 1 && forall i | 0 <= i < |lists| :: Consecutive(lists[i], ends[i], ends[i + 1])
    ensures Consecutive(Flat(lists), ends[0], ends[|lists|])
    decreases |lists|
  {
    if lists != [] {
      var n := |lists| - 1;
      FlatConsecutive(lists[..n], ends[..n + 1]);
      assert Consecutive(lists[n], ends[n], ends[n + 1]);
      ConsecutiveConcat(Flat(lists[..n]), lists[n], ends[0], ends[n], ends[n + 1]);
    }
  }

  /** What each of the first `n` steps of a run hands out. */
  ghost function HandedLists(states: seq<State>, attempts: seq<Attempt>, n: nat): (lists: seq<seq<Extent>>)
    requires n <= |attempts| < |states|
    ensures |lists| == n && forall i | 0 <= i < n :: lists[i] == HandedOut(states[i], attempts[i], states[i + 1])
  {
    seq(n, i requires 0 <= i < n => HandedOut(states[i], attempts[i], states[i + 1]))
  }

  ghost function Nexts(states: seq<State>, n: nat): (ends: seq<nat>)
    requires n < |states|
    ensures |ends| == n + 1 && forall i | 0 <= i <= n :: ends[i] == states[i].next
  {
    seq(n + 1, i requires 0 <= i <= n => states[i].next)
  }

  ghost function HandedBy(states: seq<State>, attempts: seq<Attempt>, n: nat): seq<Extent>
    requires n <= |attempts| < |states|
  {
    Flat(HandedLists(states, attempts, n))
  }

  /** The chunks and grants of any run follow one another without a gap, up to `next`, whatever fails on the way. */
  lemma TrialHandsOut(states: seq<State>, attempts: seq<Attempt>, n: nat)
    requires IsTrial(states, attempts) && n < |states|
    ensures Consecutive(HandedBy(states, attempts, n), states[0].next, states[n].next)
  {
    var lists, ends := HandedLists(states, attempts, n), Nexts(states, n);
    forall i | 0 <= i < n ensures Consecutive(lists[i], ends[i], ends[i + 1]) {
      TryHandsOut(states[i], attempts[i], states[i + 1]);
    }
    FlatConsecutive(lists, ends);
  }

  /** No sector of the cap device is handed out by two steps of a run, whatever fails in between. */
  lemma HandedOutOnce(states: seq<State>, attempts: seq<Attempt>, m: nat, n: nat, x: int)
    requires IsTrial(states, attempts) && m < n < |attempts|
    requires CheckMetadata.InSome(HandedOut(states[m], attempts[m], states[m + 1]), x)
    ensures !CheckMetadata.InSome(HandedOut(states[n], attempts[n], states[n + 1]), x)
  {
    TryHandsOut(states[m], attempts[m], states[m + 1]);
    ConsecutiveTiles(HandedOut(states[m], attempts[m], states[m + 1]), states[m].next, states[m + 1].next, x);
    NextNeverFalls(states, attempts, m + 1, n);
    TryHandsOut(states[n], attempts[n], states[n + 1]);
    ConsecutiveTiles(HandedOut(states[n], attempts[n], states[n + 1]), states[n].next, states[n + 1].next, x);
  }

  lemma {:induction false} Rises(ends: seq<nat>, m: nat, n: nat)
    requires m <= n < |ends| && forall i | 0 <= i < |ends| - 1 :: ends[i] <= ends[i + 1]
    ensures ends[m] <= ends[n]
    decreases n
  {
    if m < n { Rises(ends, m, n - 1); }
  }

  lemma NextNeverFalls(states: seq<State>, attempts: seq<Attempt>, m: nat, n: nat)
    requires IsTrial(states, attempts) && m <= n < |states|
    ensures states[m].next <= states[n].next
  {
    var ends := Nexts(states, n);
    forall i | 0 <= i < n ensures ends[i] <= ends[i + 1] {
      TryHandsOut(states[i], attempts[i], states[i + 1]);
      ConsecutiveTiles(HandedOut(states[i], attempts[i], states[i + 1]), ends[i], ends[i + 1], 0);
    }
    Rises(ends, m, n);
  }

  // ----- the check accepts what a run saves

  function SavedExtents(saves: seq<SegSave>): (es: seq<Extent>)
    ensures |es| == |saves| && forall i | 0 <= i < |saves| :: es[i] == CheckMetadata.Extent(saves[i].start, saves[i].length)
  {
    seq(|saves|, i requires 0 <= i < |saves| => CheckMetadata.Extent(saves[i].start, saves[i].length))
  }

  lemma {:induction false} SavedLength(segs: seq<BlkDevSegment>)
    ensures CheckMetadata.SumLengths(SavedExtents(RecordSegs(segs))) == |Phys(segs)|
    decreases |segs|
  {
    if segs != [] {
      assert SavedExtents(RecordSegs(segs))[1..] == SavedExtents(RecordSegs(segs[1..]));
      SavedLength(segs[1..]);
    }
  }

  /** The thin pool's devices are made of just what the run handed out, in whatever pieces. */
  ghost predicate MadeOf(f: CheckMetadata.FlexDevs, handed: seq<Extent>) {
    forall x :: CheckMetadata.InSome(f.All(), x) <==> CheckMetadata.InSome(handed, x)
  }

  /** The check on the metadata of a pool. */
  predicate PassesCheck(save: BackstoreSave, f: CheckMetadata.FlexDevs) {
    && WfSave(save) && f.NonEmpty()
    && CheckMetadata.Check(f, save.cap[0].length, SavedExtents(save.dataTier.allocs[0])) == CheckMetadata.Consistent
  }

  /** What was handed out lies in the segments of the data tier, whether there is a cap device or not. */
  lemma HandedIsCovered(states: seq<State>, attempts: seq<Attempt>, n: nat)
    requires IsTrial(states, attempts) && Live(states[0]) && n < |states|
    ensures states[n].next <= |Phys(states[n].segments)|
  {
    TrialSound(states, attempts, n);
  }

  /** The metadata that a run saves passes the check, whatever fails in the run. */
  lemma CheckAcceptsTrial(states: seq<State>, attempts: seq<Attempt>, n: nat, f: CheckMetadata.FlexDevs)
    requires IsTrial(states, attempts) && Live(states[0]) && states[0].next == 0 && n < |states|
    requires CheckMetadata.WfFlex(f) && MadeOf(f, HandedBy(states, attempts, n))
    ensures PassesCheck(Record(states[n]), f)
  {
    var s := states[n];
    TrialHandsOut(states, attempts, n);
    HandedIsCovered(states, attempts, n);
    forall x ensures CheckMetadata.InSome(f.All(), x) <==> 0 <= x < s.next {
      ConsecutiveTiles(HandedBy(states, attempts, n), 0, s.next, x);
    }
    CheckIff(s, f);
  }

  /** The check accepts what a backstore records exactly if the thin pool's devices tile what was handed out of it. */
  lemma CheckIff(s: State, f: CheckMetadata.FlexDevs)
    requires CheckMetadata.WfFlex(f)
    ensures PassesCheck(Record(s), f) <==> CheckMetadata.Tiles(f.All(), s.next) && s.next <= |Phys(s.segments)|
  {
    SavedLength(s.segments);
    if CheckMetadata.Tiles(f.All(), s.next) { SomethingHeld(f, s.next); }
    CheckMetadata.CheckExact(f, s.next, SavedExtents(RecordSegs(s.segments)));
  }

  lemma SomethingHeld(f: CheckMetadata.FlexDevs, next: nat)
    requires CheckMetadata.WfFlex(f) && CheckMetadata.Tiles(f.All(), next)
    ensures next > 0
  {
    var e := f.All()[0];
    assert e in f.All() && e.Has(e.start);
    assert CheckMetadata.InSome(f.All(), e.start);
  }

  // ----- a restart

  /** What a pool saves of itself. */
  datatype PoolSave = PoolSave(backstore: BackstoreSave, flexDevs: CheckMetadata.FlexDevs)

  /** The metadata is written in a form that can be read back. */
  ghost predicate Encodes(enc: PoolSave -> seq<Mda.Byte>, dec: seq<Mda.Byte> -> Option<PoolSave>) {
    forall save :: dec(enc(save)) == Some(save)
  }

  /** Gather the devices, check the metadata, and set the backstore up. `state` is what the backstore's own set up gives. */
  method SetupPool(save: PoolSave, found: seq<Found>) returns (r: Option<State>, ghost state: Result<State>)
    requires WfSave(save.backstore) && save.flexDevs.NonEmpty()
    ensures Restore.IsSetup(save.backstore, found, state)
    ensures r == if state.Success? && state.value.devs != [] && PassesCheck(save.backstore, save.flexDevs)
                 then Some(state.value) else None
  {
    var devs := GetBlockdevs(save.backstore, found);
    if devs.Failure? {
      state := Failure(devs.error);
      Restore.FailureIsSetup(save.backstore, found, state);
      return None, state;
    }
    Restore.GatheredWf(save.backstore, found, CacheMap(save.backstore), devs.value.1);
    Restore.SetupIsSetup(save.backstore, found, devs.value.0, devs.value.1);
    var outcome := Setup(save.backstore, devs.value.0, devs.value.1);
    state := outcome;
    SetupDevs(save.backstore, devs.value.0, devs.value.1);
    if devs.value.0 == [] || !PassesCheck(save.backstore, save.flexDevs) { return None, state; }
    r := if outcome.Success? then Some(outcome.value) else None;
  }

  lemma SetupDevs(save: BackstoreSave, data: seq<BlockDev>, cache: seq<BlockDev>)
    requires WfSave(save) && Restore.DevsWf(cache)
    ensures Setup(save, data, cache).Success? ==> Setup(save, data, cache).value.devs == data
  {
  }

  /** Set up from what a pool recorded succeeds exactly if its devices were found, no others and none shrunk, and its metadata is consistent. */
  method SetupPoolAgain(save: PoolSave, found: seq<Found>, ghost s: State, ghost devno: DevUuid -> Device) returns (r: Option<State>)
    requires save.flexDevs.NonEmpty() && save.backstore == Record(s) && Restore.Whole(s) && Restore.AsTheyWere(s, found, devno)
    ensures r.Some? <==>
            Restore.AllAndOnly(s, found) && Restore.NoneShrunk(found) && PassesCheck(save.backstore, save.flexDevs)
    ensures r.Some? ==> r.value == Restore.RenumberState(s, devno)
  {
    Restore.MapsOf(s);
    ghost var state;
    r, state := SetupPool(save, found);
    Restore.SetupIff(s, found, devno, state);
    if PassesCheck(save.backstore, save.flexDevs) { HasDevices(s, save.flexDevs); }
  }

  /** A backstore whose metadata is consistent has segments, and so devices. */
  lemma HasDevices(s: State, f: CheckMetadata.FlexDevs)
    requires Restore.Whole(s) && PassesCheck(Record(s), f)
    ensures s.devs != []
  {
    SavedLength(s.segments);
    assert s.segments != [];
    assert s.segments[0] in s.segments;
  }

  /** Recover the metadata from the devices, read it, and set the pool up from what was found. */
  method Restart(crc: Mda.Checksum, devs: seq<PoolMetadata.MetaDev>, order: seq<nat>, readable: set<nat>,
                 dec: seq<Mda.Byte> -> Option<PoolSave>, found: seq<Found>,
                 ghost s: State, ghost f: CheckMetadata.FlexDevs, ghost devno: DevUuid -> Device)
    returns (r: Option<State>)
    requires PoolMetadata.AllFit(devs) && PoolMetadata.InRange(order, |devs|)
    requires var m := PoolMetadata.GetMetadata(crc, devs, order, readable);
             m.Recovered? ==> dec(m.data) == Some(PoolSave(Record(s), f))
    requires f.NonEmpty() && Restore.Whole(s) && Restore.AsTheyWere(s, found, devno)
    ensures r.Some? <==>
            && PoolMetadata.GetMetadata(crc, devs, order, readable).Recovered?
            && Restore.AllAndOnly(s, found) && Restore.NoneShrunk(found) && PassesCheck(Record(s), f)
    ensures r.Some? ==> r.value == Restore.RenumberState(s, devno)
  {
    var metadata := PoolMetadata.GetMetadata(crc, devs, order, readable);
    if !metadata.Recovered? { return None; }
    r := SetupPoolAgain(dec(metadata.data).value, found, s, devno);
  }

  /** The devices found are those of the pool, which have these uuids. */
  ghost predicate FoundOf(uuids: seq<DevUuid>, devs: seq<PoolMetadata.MetaDev>, found: seq<Found>) {
    |uuids| == |devs| && forall u :: u in uuids <==> u in Restore.FoundUuids(found)
  }

  /** The backstore recorded has exactly these devices. */
  ghost predicate RecordedAre(s: State, uuids: seq<DevUuid>) {
    forall u :: u in uuids <==> Restore.HasUuid(s, u)
  }

  /**
   In every run of saves, saves that were cut off, restarts and new devices: a restart gives the backstore that
   the latest save recorded if and only if a device that holds that save can be read, its metadata is consistent,
   the devices of the pool are exactly those that it recorded, and none of them is on a disk that shrank.
   */
  method RestartGivesBack(crc: Mda.Checksum, devs: seq<PoolMetadata.MetaDev>, order: seq<nat>, readable: set<nat>,
                          dec: seq<Mda.Byte> -> Option<PoolSave>, found: seq<Found>,
                          ghost enc: PoolSave -> seq<Mda.Byte>, ghost pools: seq<PoolMetadata.Pool>,
                          ghost latests: seq<Option<MdaRuns.Version>>, ghost events: seq<PoolCrashRuns.Happening>, ghost n: nat,
                          ghost uuids: seq<DevUuid>, ghost s: State, ghost f: CheckMetadata.FlexDevs, ghost devno: DevUuid -> Device)
    returns (r: Option<State>)
    requires PoolCrashRuns.IsLife(crc, pools, latests, events) && n < |pools| && devs == pools[n].devs
    requires PoolMetadata.AllFit(devs) && PoolMetadata.InRange(order, |devs|)
    requires Encodes(enc, dec) && latests[n].Some? && latests[n].value.data == enc(PoolSave(Record(s), f))
    requires f.NonEmpty() && Restore.Whole(s) && Restore.AsTheyWere(s, found, devno) && FoundOf(uuids, devs, found)
    ensures r.Some? <==>
            && PoolCrash.HolderFound(crc, devs, latests[n].value.time, latests[n].value.data, order, readable)
            && RecordedAre(s, uuids) && Restore.NoneShrunk(found) && PassesCheck(Record(s), f)
    ensures r.Some? ==> r.value == Restore.RenumberState(s, devno)
  {
    RecoveredIff(crc, pools, latests, events, n, order, readable);
    FoundAgrees(s, uuids, devs, found);
    r := Restart(crc, devs, order, readable, dec, found, s, f, devno);
  }

  lemma RecoveredIff(crc: Mda.Checksum, pools: seq<PoolMetadata.Pool>, latests: seq<Option<MdaRuns.Version>>,
                     events: seq<PoolCrashRuns.Happening>, n: nat, order: seq<nat>, readable: set<nat>)
    requires PoolCrashRuns.IsLife(crc, pools, latests, events) && n < |pools| && latests[n].Some?
    requires PoolMetadata.AllFit(pools[n].devs) && PoolMetadata.InRange(order, |pools[n].devs|)
    ensures var m := PoolMetadata.GetMetadata(crc, pools[n].devs, order, readable);
            && (m.Recovered? <==> PoolCrash.HolderFound(crc, pools[n].devs, latests[n].value.time, latests[n].value.data, order, readable))
            && (m.Recovered? ==> m.data == latests[n].value.data)
  {
    PoolCrashRuns.LifeRecovers(crc, pools, latests, events, n, order, readable);
  }

  lemma FoundAgrees(s: State, uuids: seq<DevUuid>, devs: seq<PoolMetadata.MetaDev>, found: seq<Found>)
    requires FoundOf(uuids, devs, found)
    ensures Restore.AllAndOnly(s, found) <==> RecordedAre(s, uuids)
  {
  }

  /** A device that joins the pool after the latest save keeps it from being set up again until the next save. */
  method JoinedDeviceBlocks(crc: Mda.Checksum, devs: seq<PoolMetadata.MetaDev>, order: seq<nat>, readable: set<nat>,
                            dec: seq<Mda.Byte> -> Option<PoolSave>, found: seq<Found>,
                            ghost enc: PoolSave -> seq<Mda.Byte>, ghost pools: seq<PoolMetadata.Pool>,
                            ghost latests: seq<Option<MdaRuns.Version>>, ghost events: seq<PoolCrashRuns.Happening>, ghost n: nat,
                            ghost uuids: seq<DevUuid>, ghost joined: DevUuid,
                            ghost s: State, ghost f: CheckMetadata.FlexDevs, ghost devno: DevUuid -> Device)
    returns (r: Option<State>)
    requires PoolCrashRuns.IsLife(crc, pools, latests, events) && n < |events| && events[n].Joins? && devs == pools[n + 1].devs
    requires PoolMetadata.AllFit(devs) && PoolMetadata.InRange(order, |devs|)
    requires Encodes(enc, dec) && latests[n].Some? && latests[n].value.data == enc(PoolSave(Record(s), f))
    requires f.NonEmpty() && Restore.Whole(s) && RecordedAre(s, uuids) && joined !in uuids
    requires Restore.AsTheyWere(s, found, devno) && FoundOf(uuids + [joined], devs, found)
    ensures r.None?
  {
    assert latests[n + 1] == latests[n];
    r := RestartGivesBack(crc, devs, order, readable, dec, found, enc, pools, latests, events, n + 1,
                          uuids + [joined], s, f, devno);
    assert joined in uuids + [joined] && !Restore.HasUuid(s, joined);
  }
}
