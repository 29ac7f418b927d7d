/** Recording a backstore and rebuilding it gives the same backstore back. */
module Restore {
  import opened Prelude
  import opened RangeAlloc
  import opened Allocator
  import opened BlockDevs
  import opened Linear
  import opened Tiers
  import opened Backstore
  import opened BackstoreRuns
  import opened BackstoreFailures
  import opened Save

  // ----- a tier as sets of sectors

  /** The usable sectors of the devices are split between the segments, which do not overlap, and the free sectors. */
  ghost predicate TierSplit(devs: seq<BlockDev>, segs: seq<BlkDevSegment>) {
    && WfDevs(devs) && SegsOn(devs, segs)
    && NoDup(Phys(segs))
    && (forall l :: l in Usable(devs) <==> l in Phys(segs) || l in FreeList(devs))
    && (forall l :: !(l in Phys(segs) && l in FreeList(devs)))
  }

  lemma UsableNoDup(devs: seq<BlockDev>)
    requires WfDevs(devs)
    ensures NoDup(Usable(devs))
  {
    UsableInjective(devs);
  }

  lemma DataTierSplit(devs: seq<BlockDev>, segs: seq<BlkDevSegment>)
    requires DataInv(devs, segs)
    ensures TierSplit(devs, segs)
  {
    UsableNoDup(devs);
    NoDupSplit(Phys(segs), FreeList(devs));
  }

  lemma CacheTierSplit(devs: seq<BlockDev>, cache: seq<BlkDevSegment>, meta: seq<BlkDevSegment>)
    requires CacheInv(devs, cache, meta)
    ensures TierSplit(devs, cache + meta)
  {
    UsableNoDup(devs);
    NoDupSplit(Phys(meta), Phys(cache));
    PhysConcat(cache, meta);
  }

  ghost predicate SegHas(s: BlkDevSegment, l: Loc) {
    s.uuid == l.uuid && s.device == l.device && s.start <= l.sector < s.start + s.length
  }

  lemma TagSpan(s: BlkDevSegment, l: Loc)
    ensures l in Tag(s.uuid, s.device, Span(s.start, s.length)) <==> SegHas(s, l)
  {
    var t := Tag(s.uuid, s.device, Span(s.start, s.length));
    if SegHas(s, l) { assert t[l.sector - s.start] == l; }
  }

  lemma {:induction false} PhysElem(segs: seq<BlkDevSegment>, l: Loc)
    ensures l in Phys(segs) <==> exists i :: 0 <= i < |segs| && SegHas(segs[i], l)
  {
    if segs != [] {
      var rest := segs[1..];
      PhysElem(rest, l);
      TagSpan(segs[0], l);
      if l in Phys(rest) {
        var i :| 0 <= i < |rest| && SegHas(rest[i], l);
        assert SegHas(segs[i + 1], l);
      }
      if exists i :: 0 <= i < |segs| && SegHas(segs[i], l) {
        var i :| 0 <= i < |segs| && SegHas(segs[i], l);
        assert i == 0 || SegHas(rest[i - 1], l);
      }
    }
  }

  /** The used sectors of a device are its metadata region and what the segments take of it. */
  lemma UsedIs(devs: seq<BlockDev>, segs: seq<BlkDevSegment>, k: nat, x: int)
    requires TierSplit(devs, segs) && k < |devs|
    ensures Covers(devs[k].used, x) <==>
            0 <= x < devs[k].metadataSize || Loc(devs[k].uuid, devs[k].device, x) in Phys(segs)
    ensures Loc(devs[k].uuid, devs[k].device, x) in Phys(segs) ==> devs[k].metadataSize <= x < devs[k].size
  {
    var d, l := devs[k], Loc(devs[k].uuid, devs[k].device, x);
    assert WfDev(d) && d in devs;
    FreeListAt(devs, k, x);
    UsableElem(devs, l);
    UsableHere(devs, k, l);
    assert l in Usable(devs) <==> l in Phys(segs) || l in FreeList(devs);
    CoversInLimit(d.size, d.used, x);
  }

  lemma UsableHere(devs: seq<BlockDev>, k: nat, l: Loc)
    requires Distinct(devs) && k < |devs| && l.uuid == devs[k].uuid && l.device == devs[k].device
    ensures (exists d :: d in devs && l.uuid == d.uuid && l.device == d.device && d.metadataSize <= l.sector < d.size)
            <==> devs[k].metadataSize <= l.sector < devs[k].size
  {
  }

  lemma CoversInLimit(limit: Sectors, u: UsedMap, x: int)
    requires Wf(limit, u)
    ensures Covers(u, x) ==> 0 <= x < limit
  {
  }

  // ----- the recorded segments of one device

  ghost predicate SaveHas(s: SegSave, u: DevUuid, x: int) {
    s.parent == u && s.start <= x < s.start + s.length
  }

  lemma {:induction false} RangesForElem(saves: seq<SegSave>, u: DevUuid, x: int)
    ensures InRanges(RangesFor(saves, u), x) <==> exists i :: 0 <= i < |saves| && SaveHas(saves[i], u, x)
  {
    if saves != [] {
      var rest := saves[1..];
      RangesForElem(rest, u, x);
      var first := if saves[0].parent == u then [Range(saves[0].start, saves[0].length)] else [];
      InRangesConcat(first, RangesFor(rest, u), x);
      if first != [] && SaveHas(saves[0], u, x) { assert first[0].Has(x); }
      if exists i :: 0 <= i < |rest| && SaveHas(rest[i], u, x) {
        var i :| 0 <= i < |rest| && SaveHas(rest[i], u, x);
        assert SaveHas(saves[i + 1], u, x);
      }
      if exists i :: 0 <= i < |saves| && SaveHas(saves[i], u, x) {
        var i :| 0 <= i < |saves| && SaveHas(saves[i], u, x);
        assert i == 0 || SaveHas(rest[i - 1], u, x);
      }
    }
  }

  lemma InRangesConcat(a: seq<Range>, b: seq<Range>, x: int)
    ensures InRanges(a + b, x) <==> InRanges(a, x) || InRanges(b, x)
  {
    if InRanges(a, x) {
      var i :| 0 <= i < |a| && a[i].Has(x);
      assert (a + b)[i].Has(x);
    }
    if InRanges(b, x) {
      var i :| 0 <= i < |b| && b[i].Has(x);
      assert (a + b)[|a| + i].Has(x);
    }
  }

  /** A sector is in a recorded segment of the device exactly when it is in one of the segments. */
  lemma RecordedSector(devs: seq<BlockDev>, segs: seq<BlkDevSegment>, k: nat, x: int)
    requires WfDevs(devs) && SegsOn(devs, segs) && k < |devs|
    ensures InRanges(RangesFor(RecordSegs(segs), devs[k].uuid), x) <==>
            Loc(devs[k].uuid, devs[k].device, x) in Phys(segs)
  {
    var u, l, saves := devs[k].uuid, Loc(devs[k].uuid, devs[k].device, x), RecordSegs(segs);
    RangesForElem(saves, u, x);
    PhysElem(segs, l);
    forall i | 0 <= i < |segs| ensures SaveHas(saves[i], u, x) <==> SegHas(segs[i], l) {
      assert segs[i] in segs;
      SegDevice(devs, segs[i], k);
    }
  }

  lemma SegDevice(devs: seq<BlockDev>, s: BlkDevSegment, k: nat)
    requires Distinct(devs) && k < |devs| && exists d :: d in devs && OnDev(s, d)
    ensures s.uuid == devs[k].uuid ==> OnDev(s, devs[k])
  {
  }

  lemma UsedIsReserved(devs: seq<BlockDev>, segs: seq<BlkDevSegment>, k: nat, x: int)
    requires TierSplit(devs, segs) && k < |devs|
    ensures Covers(devs[k].used, x) <==>
            InRanges([Range(0, devs[k].metadataSize)] + RangesFor(RecordSegs(segs), devs[k].uuid), x)
  {
    var rs := RangesFor(RecordSegs(segs), devs[k].uuid);
    var md := Range(0, devs[k].metadataSize);
    UsedIs(devs, segs, k, x);
    RecordedSector(devs, segs, k, x);
    InRangesConcat([md], rs, x);
    assert md.Has(x) <==> InRanges([md], x) by {
      if md.Has(x) { assert [md][0].Has(x); }
    }
  }

  /** No two ranges share a sector. */
  ghost predicate Apart(rs: seq<Range>) {
    forall i, j, x | 0 <= i < j < |rs| :: rs[i].Has(x) ==> !rs[j].Has(x)
  }

  lemma ApartCons(r: Range, rs: seq<Range>)
    requires Apart(rs) && forall x | r.Has(x) :: !InRanges(rs, x)
    ensures Apart([r] + rs)
  {
  }

  lemma SegsOnTail(devs: seq<BlockDev>, segs: seq<BlkDevSegment>)
    requires SegsOn(devs, segs) && segs != []
    ensures SegsOn(devs, segs[1..])
  {
    forall s | s in segs[1..] ensures exists d :: d in devs && OnDev(s, d) { assert s in segs; }
  }

  lemma {:induction false} RecordedApart(devs: seq<BlockDev>, segs: seq<BlkDevSegment>, k: nat)
    requires WfDevs(devs) && SegsOn(devs, segs) && k < |devs| && NoDup(Phys(segs))
    ensures Apart(RangesFor(RecordSegs(segs), devs[k].uuid))
    decreases |segs|
  {
    if segs != [] {
      var first, rest, u := segs[0], segs[1..], devs[k].uuid;
      assert RecordSegs(segs)[1..] == RecordSegs(rest) && segs[0] in segs;
      NoDupSplit(Tag(first.uuid, first.device, Span(first.start, first.length)), Phys(rest));
      SegsOnTail(devs, segs);
      RecordedApart(devs, rest, k);
      if first.uuid == u {
        SegDevice(devs, first, k);
        var r := Range(first.start, first.length);
        forall x | r.Has(x) ensures !InRanges(RangesFor(RecordSegs(rest), u), x) {
          RecordedSector(devs, rest, k, x);
          TagSpan(first, Loc(u, devs[k].device, x));
        }
        ApartCons(r, RangesFor(RecordSegs(rest), u));
      }
    }
  }

  lemma {:induction false} RecordedInLimit(devs: seq<BlockDev>, segs: seq<BlkDevSegment>, k: nat)
    requires WfDevs(devs) && SegsOn(devs, segs) && k < |devs|
    ensures forall r | r in RangesFor(RecordSegs(segs), devs[k].uuid) :: InLimit(devs[k].size, r)
    decreases |segs|
  {
    if segs != [] {
      assert RecordSegs(segs)[1..] == RecordSegs(segs[1..]) && segs[0] in segs;
      SegsOnTail(devs, segs);
      RecordedInLimit(devs, segs[1..], k);
      SegDevice(devs, segs[0], k);
    }
  }

  /** The metadata region and the recorded segments of a device fit on it together. */
  lemma RecordedInsertable(devs: seq<BlockDev>, segs: seq<BlkDevSegment>, k: nat)
    requires TierSplit(devs, segs) && k < |devs|
    ensures AllInsertable(devs[k].size, map[],
                          [Range(0, devs[k].metadataSize)] + RangesFor(RecordSegs(segs), devs[k].uuid))
  {
    var d, rs, md := devs[k], RangesFor(RecordSegs(segs), devs[k].uuid), Range(0, devs[k].metadataSize);
    assert WfDev(d);
    RecordedApart(devs, segs, k);
    RecordedInLimit(devs, segs, k);
    forall x | md.Has(x) ensures !InRanges(rs, x) {
      RecordedSector(devs, segs, k, x);
      UsedIs(devs, segs, k, x);
    }
    ApartCons(md, rs);
    forall i | 0 <= i < |[md] + rs| ensures InLimit(d.size, ([md] + rs)[i]) {
      if i > 0 { assert rs[i - 1] in rs; }
    }
  }

  // ----- what is found when a recorded backstore is set up again

  function CacheDevs(s: State): seq<BlockDev> {
    if s.cacheTier.Some? then s.cacheTier.value.devs else []
  }

  /** No data device has the uuid of a cache device. */
  ghost predicate TiersApart(s: State) {
    forall d, e | d in s.devs && e in CacheDevs(s) :: d.uuid != e.uuid
  }

  /** `f` is device `d` found again, perhaps under another device number and on a larger disk. */
  ghost predicate Describes(f: Found, d: BlockDev, devno: DevUuid -> Device) {
    && f.uuid == d.uuid && f.size == d.size && f.metadataSize == d.metadataSize
    && f.device == devno(d.uuid) && f.actualSize >= f.size
  }

  function FoundUuids(found: seq<Found>): (us: seq<DevUuid>)
    ensures |us| == |found| && forall i | 0 <= i < |us| :: us[i] == found[i].uuid
  {
    seq(|found|, i requires 0 <= i < |found| => found[i].uuid)
  }

  /** Every device of the backstore was found once, in whatever order, and nothing else was. */
  ghost predicate Matches(s: State, found: seq<Found>, devno: DevUuid -> Device) {
    && NoDup(FoundUuids(found))
    && (forall f | f in found :: exists d :: d in s.devs + CacheDevs(s) && Describes(f, d, devno))
    && (forall d | d in s.devs + CacheDevs(s) :: d.uuid in FoundUuids(found))
  }

  /** A tier of the backstore, with its own segments. */
  ghost predicate IsTier(s: State, devs: seq<BlockDev>, segs: seq<BlkDevSegment>) {
    || (devs == s.devs && segs == s.segments)
    || (s.cacheTier.Some? && devs == s.cacheTier.value.devs
        && segs == s.cacheTier.value.cache + s.cacheTier.value.meta)
  }

  /** Both tiers are in order. Nothing is asked of `next` or of what the tables hold. */
  ghost predicate Whole(s: State) {
    DataInv(s.devs, s.segments) && CacheShape(s) && TiersApart(s)
  }

  lemma {:induction false} RangesForNone(saves: seq<SegSave>, u: DevUuid)
    requires forall i | 0 <= i < |saves| :: saves[i].parent != u
    ensures RangesFor(saves, u) == []
  {
    if saves != [] { RangesForNone(saves[1..], u); }
  }

  lemma SegsElsewhere(devs: seq<BlockDev>, segs: seq<BlkDevSegment>, u: DevUuid)
    requires SegsOn(devs, segs) && forall d | d in devs :: d.uuid != u
    ensures RangesFor(RecordSegs(segs), u) == []
  {
    forall i | 0 <= i < |segs| ensures segs[i].uuid != u { assert segs[i] in segs; }
    RangesForNone(RecordSegs(segs), u);
  }

  lemma RecordedCacheSegs(ct: CacheState)
    ensures FlatAllocs(RecordCache(ct).allocs) == RecordSegs(ct.cache + ct.meta)
  {
    var a, b := RecordSegs(ct.cache), RecordSegs(ct.meta);
    assert [a, b][1..] == [b] && [b][1..] == [];
    assert FlatAllocs([b]) == b + FlatAllocs([]);
    assert RecordSegs(ct.cache + ct.meta) == a + b;
  }

  /** Each device is filed with the segments of its own tier and no others. */
  lemma OwnSegments(s: State, devs: seq<BlockDev>, segs: seq<BlkDevSegment>, k: nat)
    requires Whole(s) && IsTier(s, devs, segs) && k < |devs|
    ensures TierSplit(devs, segs)
    ensures RangesFor(AllSegs(Record(s)), devs[k].uuid) == RangesFor(RecordSegs(segs), devs[k].uuid)
  {
    var u, saves := devs[k].uuid, RecordSegs(s.segments);
    assert devs[k] in devs;
    if s.cacheTier.Some? {
      var ct := s.cacheTier.value;
      RecordedCacheSegs(ct);
      var others := RecordSegs(ct.cache + ct.meta);
      CacheTierSplit(ct.devs, ct.cache, ct.meta);
      RangesForConcat(saves, others, u);
      if devs == s.devs && segs == s.segments {
        SegsElsewhere(ct.devs, ct.cache + ct.meta, u);
      } else {
        SegsElsewhere(s.devs, s.segments, u);
      }
    } else {
      assert saves + [] == saves;
    }
    DataTierSplit(s.devs, s.segments);
  }

  function TierMap(devs: seq<BlockDev>): map<DevUuid, Entry> { RecordedMap(RecordDevs(devs)) }

  lemma MapsOf(s: State)
    ensures DataMap(Record(s)) == TierMap(s.devs) && CacheMap(Record(s)) == TierMap(CacheDevs(s))
    ensures WfSave(Record(s))
  {
  }

  /** A device is recorded under its uuid, at its own index. */
  lemma TierMapIs(devs: seq<BlockDev>, u: DevUuid)
    requires Distinct(devs)
    ensures u in TierMap(devs) <==> exists i :: 0 <= i < |devs| && devs[i].uuid == u
    ensures forall i | 0 <= i < |devs| && devs[i].uuid == u ::
              u in TierMap(devs) && TierMap(devs)[u] == Entry(i, RecordDevs(devs)[i])
  {
    RecordedMapIs(RecordDevs(devs), u);
    forall i | 0 <= i < |devs| && devs[i].uuid == u
      ensures u in TierMap(devs) && TierMap(devs)[u] == Entry(i, RecordDevs(devs)[i])
    {
      assert RecordDevs(devs)[i].uuid == u;
    }
    if u in TierMap(devs) { assert devs[TierMap(devs)[u].index].uuid == u; }
  }

  lemma RecordForIs(s: State, devs: seq<BlockDev>, segs: seq<BlkDevSegment>, k: nat)
    requires Whole(s) && IsTier(s, devs, segs) && k < |devs|
    ensures var u := devs[k].uuid;
            && (u in DataMap(Record(s)) || u in CacheMap(Record(s)))
            && RecordFor(Record(s), u) == RecordDevs(devs)[k]
  {
    var u := devs[k].uuid;
    assert devs[k] in devs;
    MapsOf(s);
    CacheDevsDistinct(s);
    TierMapIs(s.devs, u);
    TierMapIs(CacheDevs(s), u);
    if devs != s.devs {
      forall i | 0 <= i < |s.devs| ensures s.devs[i].uuid != u { assert s.devs[i] in s.devs; }
    }
  }

  lemma CacheDevsDistinct(s: State)
    requires Whole(s)
    ensures WfDevs(CacheDevs(s)) && Distinct(CacheDevs(s)) && Distinct(s.devs)
  {
  }

  /** The device under its present number. */
  function Renumbered(d: BlockDev, devno: DevUuid -> Device): BlockDev {
    d.(device := devno(d.uuid))
  }

  /** Setting up a device again from the record gives the device, used sectors and all. */
  lemma BuiltAgain(s: State, devs: seq<BlockDev>, segs: seq<BlkDevSegment>, k: nat, f: Found, devno: DevUuid -> Device)
    requires Whole(s) && IsTier(s, devs, segs) && k < |devs| && Describes(f, devs[k], devno)
    ensures WfSave(Record(s)) && Buildable(Record(s), f)
    ensures Built(Record(s), f, Renumbered(devs[k], devno))
  {
    var save := Record(s);
    OwnSegments(s, devs, segs, k);
    RecordForIs(s, devs, segs, k);
    RecordedInsertable(devs, segs, k);
    var d := devs[k];
    assert WfDev(d);
    assert Reserved(save, f) == [Range(0, d.metadataSize)] + RangesFor(RecordSegs(segs), d.uuid);
    forall x ensures Covers(d.used, x) <==> InRanges(Reserved(save, f), x) { UsedIsReserved(devs, segs, k, x); }
  }

  // ----- the devices are accepted and come back in order

  lemma {:induction false} PartIs(found: seq<Found>, ours: map<DevUuid, Entry>, others: map<DevUuid, Entry>)
    requires NoDup(FoundUuids(found))
    ensures NoDup(PartOf(found, ours, others))
    ensures forall u :: u in PartOf(found, ours, others) <==> u in FoundUuids(found) && u in ours && u !in others
  {
    if found != [] {
      var n := |found| - 1;
      assert FoundUuids(found) == FoundUuids(found[..n]) + [found[n].uuid];
      SnocNoDup(FoundUuids(found[..n]), found[n].uuid);
      PartIs(found[..n], ours, others);
      SnocNoDup(PartOf(found[..n], ours, others), found[n].uuid);
    }
  }

  lemma TierOf(s: State, d: BlockDev) returns (devs: seq<BlockDev>, segs: seq<BlkDevSegment>, k: nat)
    requires d in s.devs + CacheDevs(s)
    ensures IsTier(s, devs, segs) && k < |devs| && devs[k] == d
  {
    if d in s.devs {
      devs, segs := s.devs, s.segments;
    } else {
      devs, segs := s.cacheTier.value.devs, s.cacheTier.value.cache + s.cacheTier.value.meta;
    }
    k :| 0 <= k < |devs| && devs[k] == d;
  }

  lemma UuidRecorded(s: State, u: DevUuid)
    requires Whole(s)
    ensures u in DataMap(Record(s)) <==> exists d :: d in s.devs && d.uuid == u
    ensures u in CacheMap(Record(s)) <==> exists d :: d in CacheDevs(s) && d.uuid == u
    ensures !(u in DataMap(Record(s)) && u in CacheMap(Record(s)))
  {
    MapsOf(s);
    CacheDevsDistinct(s);
    TierMapIs(s.devs, u);
    TierMapIs(CacheDevs(s), u);
  }

  /** Whatever the order in which the devices are found, the record of the backstore accepts them. */
  lemma RecordIsAccepted(s: State, found: seq<Found>, devno: DevUuid -> Device)
    requires Whole(s) && Matches(s, found, devno)
    ensures WfSave(Record(s)) && Acceptable(Record(s), found)
  {
    var save := Record(s);
    forall f | f in found ensures Buildable(save, f) {
      var d :| d in s.devs + CacheDevs(s) && Describes(f, d, devno);
      var devs, segs, k := TierOf(s, d);
      BuiltAgain(s, devs, segs, k, f, devno);
    }
    PartIs(found, DataMap(save), map[]);
    PartIs(found, CacheMap(save), DataMap(save));
    forall u
      ensures u in DataMap(save) ==> u in FoundUuids(found)
      ensures u in CacheMap(save) ==> u in FoundUuids(found) && u !in DataMap(save)
    {
      UuidRecorded(s, u);
      if u in DataMap(save) {
        var d :| d in s.devs && d.uuid == u;
        assert d in s.devs + CacheDevs(s);
      }
      if u in CacheMap(save) {
        var d :| d in CacheDevs(s) && d.uuid == u;
        assert d in s.devs + CacheDevs(s);
      }
    }
  }

  /** The devices in recorded order are listed as they were in the backstore. */
  lemma InRecordedOrder(devs: seq<BlockDev>, back: seq<BlockDev>)
    requires Distinct(devs) && Corresponds(Uuids(back), TierMap(devs))
    requires (forall d | d in back :: d.uuid in TierMap(devs)) && InOrder(back, TierMap(devs))
    ensures Uuids(back) == Uuids(devs)
  {
    var m := TierMap(devs);
    var ks := Keys(back, m);
    forall i | 0 <= i < |back| ensures back[i].uuid in m && 0 <= ks[i] < |devs| && devs[ks[i]].uuid == back[i].uuid {
      TierMapIs(devs, back[i].uuid);
      assert back[i] in back;
    }
    forall i, j | 0 <= i < j < |ks| ensures ks[i] < ks[j] {
      assert Uuids(back)[i] != Uuids(back)[j];
    }
    forall x ensures x in ks <==> x in Span(0, |devs|) {
      KeyOfEach(devs, back, x);
    }
    AscendingUnique(ks, Span(0, |devs|));
  }

  lemma KeyOfEach(devs: seq<BlockDev>, back: seq<BlockDev>, x: int)
    requires Distinct(devs) && Corresponds(Uuids(back), TierMap(devs))
    requires forall d | d in back :: d.uuid in TierMap(devs)
    ensures x in Keys(back, TierMap(devs)) <==> x in Span(0, |devs|)
  {
    var ks := Keys(back, TierMap(devs));
    if x in ks {
      var i :| 0 <= i < |ks| && ks[i] == x;
      assert back[i] in back;
      TierMapIs(devs, back[i].uuid);
      assert Span(0, |devs|)[x] == x;
    }
    if x in Span(0, |devs|) {
      var u := devs[x].uuid;
      TierMapIs(devs, u);
      assert u in Uuids(back);
      var i :| 0 <= i < |back| && Uuids(back)[i] == u;
      assert ks[i] == x;
    }
  }

  function RenumberDevs(devs: seq<BlockDev>, devno: DevUuid -> Device): (r: seq<BlockDev>)
    ensures |r| == |devs| && forall i | 0 <= i < |devs| :: r[i] == Renumbered(devs[i], devno)
  {
    seq(|devs|, i requires 0 <= i < |devs| => Renumbered(devs[i], devno))
  }

  /** The devices of a tier come back in order, each with its used sectors, whatever order they were found in. */
  lemma TierComesBack(s: State, devs: seq<BlockDev>, segs: seq<BlkDevSegment>, found: seq<Found>,
                      devno: DevUuid -> Device, back: seq<BlockDev>)
    requires Whole(s) && Matches(s, found, devno) && IsTier(s, devs, segs)
    requires WfSave(Record(s)) && Gathered(Record(s), found, TierMap(devs), back)
    ensures back == RenumberDevs(devs, devno)
  {
    CacheDevsDistinct(s);
    InRecordedOrder(devs, back);
    assert |back| == |Uuids(back)| == |devs|;
    forall i | 0 <= i < |back| ensures back[i] == Renumbered(devs[i], devno) {
      assert Uuids(back)[i] == Uuids(devs)[i];
      assert back[i] in back;
      DeviceBack(s, devs, segs, i, found, devno, back[i]);
    }
  }

  lemma DeviceBack(s: State, devs: seq<BlockDev>, segs: seq<BlkDevSegment>, i: nat, found: seq<Found>,
                   devno: DevUuid -> Device, b: BlockDev)
    requires Whole(s) && Matches(s, found, devno) && IsTier(s, devs, segs) && i < |devs|
    requires WfSave(Record(s)) && (exists f :: f in found && Built(Record(s), f, b)) && b.uuid == devs[i].uuid
    ensures b == Renumbered(devs[i], devno)
  {
    var f :| f in found && Built(Record(s), f, b);
    var d :| d in s.devs + CacheDevs(s) && Describes(f, d, devno);
    SameUuidSameDev(s, devs, segs, i, d);
    BuiltAgain(s, devs, segs, i, f, devno);
    BuiltUnique(Record(s), f, b, Renumbered(devs[i], devno));
  }

  lemma SameUuidSameDev(s: State, devs: seq<BlockDev>, segs: seq<BlkDevSegment>, i: nat, d: BlockDev)
    requires Whole(s) && IsTier(s, devs, segs) && i < |devs|
    requires d in s.devs + CacheDevs(s) && d.uuid == devs[i].uuid
    ensures d == devs[i]
  {
    CacheDevsDistinct(s);
    assert devs[i] in devs;
    assert d in devs;
    var j :| 0 <= j < |devs| && devs[j] == d;
  }

  // ----- the tiers are set up as they were

  function RenumberSegs(segs: seq<BlkDevSegment>, devno: DevUuid -> Device): (r: seq<BlkDevSegment>)
    ensures |r| == |segs| && forall i | 0 <= i < |segs| :: r[i] == segs[i].(device := devno(segs[i].uuid))
  {
    seq(|segs|, i requires 0 <= i < |segs| => segs[i].(device := devno(segs[i].uuid)))
  }

  lemma {:induction false} DevnoIs(devs: seq<BlockDev>, devno: DevUuid -> Device, u: DevUuid)
    requires exists d :: d in devs && d.uuid == u
    ensures u in UuidToDevno(RenumberDevs(devs, devno)) && UuidToDevno(RenumberDevs(devs, devno))[u] == devno(u)
  {
    var n := |devs| - 1;
    var r := RenumberDevs(devs, devno);
    assert r[..n] == RenumberDevs(devs[..n], devno) && r[n].uuid == devs[n].uuid;
    if devs[n].uuid != u {
      var d :| d in devs && d.uuid == u;
      assert devs == devs[..n] + [devs[n]];
      DevnoIs(devs[..n], devno, u);
    }
  }

  lemma {:induction false} SegsComeBack(devs: seq<BlockDev>, segs: seq<BlkDevSegment>, devno: DevUuid -> Device)
    requires SegsOn(devs, segs)
    ensures ToSegs(UuidToDevno(RenumberDevs(devs, devno)), RecordSegs(segs)) == Success(RenumberSegs(segs, devno))
    decreases |segs|
  {
    if segs != [] {
      assert segs[0] in segs;
      var d :| d in devs && OnDev(segs[0], d);
      DevnoIs(devs, devno, segs[0].uuid);
      SegsOnTail(devs, segs);
      assert RecordSegs(segs)[1..] == RecordSegs(segs[1..]);
      SegsComeBack(devs, segs[1..], devno);
      assert RenumberSegs(segs, devno) == [RenumberSegs(segs, devno)[0]] + RenumberSegs(segs[1..], devno);
    }
  }

  lemma {:induction false} FreeCountKept(devs: seq<BlockDev>, devno: DevUuid -> Device)
    ensures |FreeList(RenumberDevs(devs, devno))| == |FreeList(devs)|
  {
    if devs != [] {
      assert RenumberDevs(devs, devno)[1..] == RenumberDevs(devs[1..], devno);
      FreeCountKept(devs[1..], devno);
    }
  }

  function RenumberCache(ct: CacheState, devno: DevUuid -> Device): CacheState {
    CacheState(RenumberDevs(ct.devs, devno), RenumberSegs(ct.cache, devno), RenumberSegs(ct.meta, devno))
  }

  /** The backstore with every device under its present number and its tables made anew. */
  function RenumberState(s: State, devno: DevUuid -> Device): State {
    var segs := RenumberSegs(s.segments, devno);
    var ct := if s.cacheTier.Some? then Some(RenumberCache(s.cacheTier.value, devno)) else None;
    State(RenumberDevs(s.devs, devno), segs,
          if ct.None? then Some(TableFrom(segs, 0)) else None,
          if ct.Some?
          then Some(CacheDev(TableFrom(ct.value.meta, 0), TableFrom(ct.value.cache, 0), TableFrom(segs, 0)))
          else None,
          ct, s.next)
  }

  ghost predicate DevsWf(devs: seq<BlockDev>) {
    forall d | d in devs :: Wf(d.size, d.used)
  }

  lemma CacheTierComesBack(ct: CacheState, devno: DevUuid -> Device)
    requires CacheTierOk(ct)
    ensures DevsWf(RenumberDevs(ct.devs, devno))
    ensures SetupCacheTier(RenumberDevs(ct.devs, devno), RecordCache(ct)) == Success(RenumberCache(ct, devno))
  {
    forall i | 0 <= i < |ct.devs| ensures Wf(ct.devs[i].size, ct.devs[i].used) { assert WfDev(ct.devs[i]); }
    FreeCountKept(ct.devs, devno);
    SegsComeBack(ct.devs, ct.cache, devno);
    SegsComeBack(ct.devs, ct.meta, devno);
  }

  /** Setting up the tiers over the devices that came back gives the backstore that was recorded. */
  lemma SetupComesBack(s: State, devno: DevUuid -> Device)
    requires Whole(s)
    ensures DevsWf(RenumberDevs(CacheDevs(s), devno)) && WfSave(Record(s))
    ensures Setup(Record(s), RenumberDevs(s.devs, devno), RenumberDevs(CacheDevs(s), devno))
            == Success(RenumberState(s, devno))
  {
    SegsComeBack(s.devs, s.segments, devno);
    if s.cacheTier.Some? {
      CacheTierComesBack(s.cacheTier.value, devno);
    }
  }

  /** `r` is what setting up the tiers gives over the devices that the metadata accepts. */
  ghost predicate IsSetup(save: BackstoreSave, found: seq<Found>, r: Result<State>)
    requires WfSave(save)
  {
    if Acceptable(save, found)
    then exists data, cache ::
           && Gathered(save, found, DataMap(save), data) && Gathered(save, found, CacheMap(save), cache)
           && DevsWf(cache) && r == Setup(save, data, cache)
    else r.Failure?
  }

  /** Set a backstore up from its metadata and the devices found. */
  method SetupBackstore(save: BackstoreSave, found: seq<Found>) returns (r: Result<State>)
    requires WfSave(save)
    ensures IsSetup(save, found, r)
  {
    var devs := GetBlockdevs(save, found);
    if devs.Failure? { return Failure(devs.error); }
    GatheredWf(save, found, CacheMap(save), devs.value.1);
    SetupIsSetup(save, found, devs.value.0, devs.value.1);
    return Setup(save, devs.value.0, devs.value.1);
  }

  lemma SetupIsSetup(save: BackstoreSave, found: seq<Found>, data: seq<BlockDev>, cache: seq<BlockDev>)
    requires WfSave(save) && Acceptable(save, found) && DevsWf(cache)
    requires Gathered(save, found, DataMap(save), data) && Gathered(save, found, CacheMap(save), cache)
    ensures IsSetup(save, found, Setup(save, data, cache))
  {
  }

  lemma FailureIsSetup(save: BackstoreSave, found: seq<Found>, r: Result<State>)
    requires WfSave(save) && !Acceptable(save, found) && r.Failure?
    ensures IsSetup(save, found, r)
  {
  }

  lemma GatheredWf(save: BackstoreSave, found: seq<Found>, recorded: map<DevUuid, Entry>, devs: seq<BlockDev>)
    requires WfSave(save) && Gathered(save, found, recorded, devs)
    ensures DevsWf(devs)
  {
  }

  /** Whatever set up makes of the record of a backstore and the devices found again, it is that backstore. */
  lemma RestoredIs(s: State, found: seq<Found>, devno: DevUuid -> Device, r: Result<State>)
    requires Whole(s) && Matches(s, found, devno) && WfSave(Record(s)) && IsSetup(Record(s), found, r)
    ensures r == Success(RenumberState(s, devno))
  {
    var save := Record(s);
    RecordIsAccepted(s, found, devno);
    MapsOf(s);
    var data, cache :|
      && Gathered(save, found, DataMap(save), data) && Gathered(save, found, CacheMap(save), cache)
      && DevsWf(cache) && r == Setup(save, data, cache);
    TierComesBack(s, s.devs, s.segments, found, devno, data);
    if s.cacheTier.Some? {
      var ct := s.cacheTier.value;
      TierComesBack(s, ct.devs, ct.cache + ct.meta, found, devno, cache);
    } else {
      NoCacheBack(save, found, cache);
    }
    SetupComesBack(s, devno);
  }

  /**
   Recording a backstore and setting it up again from the devices found gives the same
   backstore: the same devices in the same order with the same used sectors, the same segments,
   the same `next`. Only device numbers follow what was found.
   */
  method RecordAndRestore(s: State, found: seq<Found>, ghost devno: DevUuid -> Device) returns (r: Result<State>)
    requires Whole(s) && Matches(s, found, devno)
    ensures r == Success(RenumberState(s, devno))
  {
    MapsOf(s);
    r := SetupBackstore(Record(s), found);
    RestoredIs(s, found, devno, r);
  }

  lemma NoCacheBack(save: BackstoreSave, found: seq<Found>, cache: seq<BlockDev>)
    requires WfSave(save) && CacheMap(save) == map[] && Gathered(save, found, CacheMap(save), cache)
    ensures cache == []
  {
    HasMember(Uuids(cache));
  }

  lemma HasMember<T>(s: seq<T>)
    ensures s != [] ==> exists x :: x in s
  {
    if s != [] { assert s[0] in s; }
  }

  /** Under unchanged device numbers nothing changes at all, if the tables held what the tiers have. */
  lemma SameNumbersSameState(s: State, devno: DevUuid -> Device)
    requires Whole(s) && HasCap(s) && CapHolds(s) && CacheHolds(s)
    requires forall d | d in s.devs + CacheDevs(s) :: devno(d.uuid) == d.device
    ensures RenumberState(s, devno) == s
  {
    SameNumbers(s.devs, s.segments, devno);
    if s.cacheTier.Some? {
      SameNumbers(s.cacheTier.value.devs, s.cacheTier.value.cache, devno);
      SameNumbers(s.cacheTier.value.devs, s.cacheTier.value.meta, devno);
    }
  }

  lemma SameNumbers(devs: seq<BlockDev>, segs: seq<BlkDevSegment>, devno: DevUuid -> Device)
    requires SegsOn(devs, segs) && forall d | d in devs :: devno(d.uuid) == d.device
    ensures RenumberDevs(devs, devno) == devs && RenumberSegs(segs, devno) == segs
  {
    forall i | 0 <= i < |segs| ensures RenumberSegs(segs, devno)[i] == segs[i] {
      assert segs[i] in segs;
      var d :| d in devs && OnDev(segs[i], d);
    }
  }

  // ----- runs go on across a restart

  /** Different devices were found under different numbers. */
  ghost predicate NumbersApart(devs: seq<BlockDev>, devno: DevUuid -> Device) {
    forall i, j | 0 <= i < j < |devs| :: devno(devs[i].uuid) != devno(devs[j].uuid)
  }

  ghost function Relabel(ls: seq<Loc>, devno: DevUuid -> Device): (r: seq<Loc>)
    ensures |r| == |ls| && forall i | 0 <= i < |ls| :: r[i] == ls[i].(device := devno(ls[i].uuid))
  {
    seq(|ls|, i requires 0 <= i < |ls| => ls[i].(device := devno(ls[i].uuid)))
  }

  lemma RelabelConcat(a: seq<Loc>, b: seq<Loc>, devno: DevUuid -> Device)
    ensures Relabel(a + b, devno) == Relabel(a, devno) + Relabel(b, devno)
  {
  }

  lemma {:induction false} PhysRelabel(segs: seq<BlkDevSegment>, devno: DevUuid -> Device)
    ensures Phys(RenumberSegs(segs, devno)) == Relabel(Phys(segs), devno)
  {
    if segs != [] {
      assert RenumberSegs(segs, devno)[1..] == RenumberSegs(segs[1..], devno);
      PhysRelabel(segs[1..], devno);
      RelabelConcat(Tag(segs[0].uuid, segs[0].device, Span(segs[0].start, segs[0].length)), Phys(segs[1..]), devno);
    }
  }

  lemma {:induction false} FreeRelabel(devs: seq<BlockDev>, devno: DevUuid -> Device)
    ensures FreeList(RenumberDevs(devs, devno)) == Relabel(FreeList(devs), devno)
  {
    if devs != [] {
      assert RenumberDevs(devs, devno)[1..] == RenumberDevs(devs[1..], devno);
      FreeRelabel(devs[1..], devno);
      RelabelConcat(FreeOf(devs[0]), FreeList(devs[1..]), devno);
      assert FreeOf(Renumbered(devs[0], devno)) == Relabel(FreeOf(devs[0]), devno);
    }
  }

  lemma {:induction false} UsableRelabel(devs: seq<BlockDev>, devno: DevUuid -> Device)
    requires forall d | d in devs :: d.metadataSize <= d.size
    ensures forall d | d in RenumberDevs(devs, devno) :: d.metadataSize <= d.size
    ensures Usable(RenumberDevs(devs, devno)) == Relabel(Usable(devs), devno)
  {
    if devs != [] {
      assert RenumberDevs(devs, devno)[1..] == RenumberDevs(devs[1..], devno);
      UsableRelabel(devs[1..], devno);
      RelabelConcat(UsableOf(devs[0]), Usable(devs[1..]), devno);
      assert UsableOf(Renumbered(devs[0], devno)) == Relabel(UsableOf(devs[0]), devno);
    }
  }

  lemma RenumberWf(devs: seq<BlockDev>, segs: seq<BlkDevSegment>, devno: DevUuid -> Device)
    requires WfDevs(devs) && SegsOn(devs, segs) && NumbersApart(devs, devno)
    ensures WfDevs(RenumberDevs(devs, devno)) && SegsOn(RenumberDevs(devs, devno), RenumberSegs(segs, devno))
  {
    var ds := RenumberDevs(devs, devno);
    forall i | 0 <= i < |devs| ensures WfDev(ds[i]) { assert WfDev(devs[i]); }
    forall s | s in RenumberSegs(segs, devno) ensures exists d :: d in ds && OnDev(s, d) {
      var i :| 0 <= i < |segs| && s == RenumberSegs(segs, devno)[i];
      assert segs[i] in segs;
      var d :| d in devs && OnDev(segs[i], d);
      var k :| 0 <= k < |devs| && devs[k] == d;
      assert ds[k] in ds && OnDev(s, ds[k]);
    }
  }

  lemma RenumberedData(devs: seq<BlockDev>, segs: seq<BlkDevSegment>, devno: DevUuid -> Device)
    requires DataInv(devs, segs) && NumbersApart(devs, devno)
    ensures DataInv(RenumberDevs(devs, devno), RenumberSegs(segs, devno))
  {
    RenumberWf(devs, segs, devno);
    PhysRelabel(segs, devno);
    FreeRelabel(devs, devno);
    UsableRelabel(devs, devno);
    RelabelConcat(Phys(segs), FreeList(devs), devno);
  }

  lemma RenumberedCache(devs: seq<BlockDev>, cache: seq<BlkDevSegment>, meta: seq<BlkDevSegment>, devno: DevUuid -> Device)
    requires CacheInv(devs, cache, meta) && NumbersApart(devs, devno)
    ensures CacheInv(RenumberDevs(devs, devno), RenumberSegs(cache, devno), RenumberSegs(meta, devno))
  {
    RenumberWf(devs, cache, devno);
    RenumberWf(devs, meta, devno);
    PhysRelabel(cache, devno);
    PhysRelabel(meta, devno);
    FreeRelabel(devs, devno);
    UsableRelabel(devs, devno);
    RelabelConcat(Phys(meta), Phys(cache), devno);
  }

  /**
   The tables of the restored backstore hold what its tiers have, even if they did not before, so
   what lay in the tier without being in the cap device becomes slack. If there was none of either,
   the restored backstore satisfies the invariant of runs.
   */
  lemma RestoredKeepsInv(s: State, devno: DevUuid -> Device)
    requires Whole(s) && NumbersApart(s.devs, devno) && NumbersApart(CacheDevs(s), devno)
    ensures var s' := RenumberState(s, devno);
            && Whole(s') && HasCap(s') && CapHolds(s') && CacheHolds(s')
            && s'.next == s.next && s'.Size() == |Phys(s.segments)|
            && (s.next <= |Phys(s.segments)| ==> Sound(s'))
            && (s.next == |Phys(s.segments)| ==> Inv(s'))
  {
    var s' := RenumberState(s, devno);
    RenumberedData(s.devs, s.segments, devno);
    PhysRelabel(s.segments, devno);
    if s.cacheTier.Some? {
      var ct := s.cacheTier.value;
      RenumberedCache(ct.devs, ct.cache, ct.meta, devno);
    }
    RenumberApart(s.devs, CacheDevs(s), devno);
    TableFromSize(s'.segments, 0);
    if s.next <= |Phys(s.segments)| { HeldIsPrefix(s'); }
  }

  // ----- recording what was set up

  /** Metadata as a backstore writes it. */
  ghost predicate Regular(save: BackstoreSave) {
    && WfSave(save) && |save.cap| == 1 && save.cap[0].start == 0 && |save.dataTier.allocs| == 1
    && DistinctDevs(save.dataTier.devs)
    && (save.cacheTier.Some? ==>
          |save.cacheTier.value.allocs| == 2 && save.cacheTier.value.devs != [] && DistinctDevs(save.cacheTier.value.devs))
    && (save.cacheTier.Some? ==> forall d, e | d in save.dataTier.devs && e in save.cacheTier.value.devs :: d.uuid != e.uuid)
  }

  ghost predicate DistinctDevs(devs: seq<DevSave>) {
    forall i, j | 0 <= i < j < |devs| :: devs[i].uuid != devs[j].uuid
  }

  lemma {:induction false} SegsAreRecorded(devno: map<DevUuid, Device>, saves: seq<SegSave>)
    requires ToSegs(devno, saves).Success?
    ensures RecordSegs(ToSegs(devno, saves).value) == saves
    decreases |saves|
  {
    if saves != [] {
      SegsAreRecorded(devno, saves[1..]);
      assert saves == [saves[0]] + saves[1..];
    }
  }

  lemma {:induction false} MapEntry(devs: seq<DevSave>, i: nat)
    requires DistinctDevs(devs) && i < |devs|
    ensures devs[i].uuid in RecordedMap(devs) && RecordedMap(devs)[devs[i].uuid] == Entry(i, devs[i])
  {
    var n := |devs| - 1;
    if i < n { MapEntry(devs[..n], i); }
  }

  /** Devices in recorded order, each recorded once, are at their recorded places. */
  lemma {:induction false} InPlace(devs: seq<BlockDev>, saves: seq<DevSave>)
    requires DistinctDevs(saves) && Corresponds(Uuids(devs), RecordedMap(saves))
    requires (forall d | d in devs :: d.uuid in RecordedMap(saves)) && InOrder(devs, RecordedMap(saves))
    ensures |devs| == |saves| && forall i | 0 <= i < |devs| :: devs[i].uuid == saves[i].uuid
  {
    var ks := Keys(devs, RecordedMap(saves));
    forall i | 0 <= i < |devs| ensures 0 <= ks[i] < |saves| && saves[ks[i]].uuid == devs[i].uuid {
      RecordedMapIs(saves, devs[i].uuid);
    }
    forall i, j | 0 <= i < j < |ks| ensures ks[i] < ks[j] {
      assert Uuids(devs)[i] != Uuids(devs)[j];
      assert ks[i] != ks[j];
      assert RecordedMap(saves)[devs[i].uuid].index <= RecordedMap(saves)[devs[j].uuid].index;
    }
    forall k | 0 <= k < |saves| ensures k in ks {
      MapEntry(saves, k);
      assert saves[k].uuid in Uuids(devs);
      var i :| 0 <= i < |devs| && Uuids(devs)[i] == saves[k].uuid;
      assert ks[i] == k;
    }
    AllInOrder(ks, |saves|);
  }

  /** An ascending list of all the numbers below `n` is the list of the numbers below `n`. */
  lemma {:induction false} AllInOrder(ks: seq<int>, n: nat)
    requires (forall i | 0 <= i < |ks| :: 0 <= ks[i] < n) && Ascending(ks) && forall k | 0 <= k < n :: k in ks
    ensures |ks| == n && forall i | 0 <= i < n :: ks[i] == i
    decreases n
  {
    if |ks| > 0 { assert 0 <= ks[0] < n; }
    if n > 0 {
      var m := |ks| - 1;
      assert n - 1 in ks;
      var i :| 0 <= i < |ks| && ks[i] == n - 1;
      assert i == m by { assert ks[m] < n; }
      var init := ks[..m];
      forall j | 0 <= j < |init| ensures 0 <= init[j] < n - 1 { assert ks[j] < ks[m]; }
      forall k | 0 <= k < n - 1 ensures k in init {
        assert k in ks;
        var j :| 0 <= j < |ks| && ks[j] == k;
        assert init[j] == k;
      }
      AllInOrder(init, n - 1);
      forall j | 0 <= j < n ensures ks[j] == j {
        if j < n - 1 { assert init[j] == j; }
      }
    }
  }

  lemma DevsAreRecorded(save: BackstoreSave, found: seq<Found>, saves: seq<DevSave>, devs: seq<BlockDev>)
    requires WfSave(save) && DistinctDevs(saves) && Gathered(save, found, RecordedMap(saves), devs)
    requires forall u | u in RecordedMap(saves) ::
               (u in DataMap(save) || u in CacheMap(save)) && RecordFor(save, u) == RecordedMap(saves)[u].save
    ensures RecordDevs(devs) == saves
  {
    InPlace(devs, saves);
    forall i | 0 <= i < |devs| ensures RecordDevs(devs)[i] == saves[i] {
      assert devs[i] in devs;
      var f :| f in found && Built(save, f, devs[i]);
      MapEntry(saves, i);
    }
  }

  lemma ApartMaps(save: BackstoreSave, u: DevUuid)
    requires Regular(save) && save.cacheTier.Some? && u in CacheMap(save)
    ensures u !in DataMap(save)
  {
    RecordedMapIs(save.dataTier.devs, u);
    RecordedMapIs(save.cacheTier.value.devs, u);
  }

  lemma CacheSetsUp(devs: seq<BlockDev>, save: TierSave)
    requires |save.allocs| == 2 && DevsWf(devs) && SetupCacheTier(devs, save).Success? && RecordDevs(devs) == save.devs
    ensures RecordCache(SetupCacheTier(devs, save).value) == save
  {
    SegsAreRecorded(UuidToDevno(devs), save.allocs[0]);
    SegsAreRecorded(UuidToDevno(devs), save.allocs[1]);
    assert save.allocs == [save.allocs[0], save.allocs[1]];
  }

  lemma RecordedAgain(save: BackstoreSave, data: seq<BlockDev>, cache: seq<BlockDev>)
    requires Regular(save) && DevsWf(cache) && Setup(save, data, cache).Success?
    requires RecordDevs(data) == save.dataTier.devs
    requires if save.cacheTier.Some? then RecordDevs(cache) == save.cacheTier.value.devs else cache == []
    ensures Record(Setup(save, data, cache).value) == save
  {
    SegsAreRecorded(UuidToDevno(data), save.dataTier.allocs[0]);
    assert save.dataTier.allocs == [save.dataTier.allocs[0]] && save.cap == [save.cap[0]];
    if save.cacheTier.Some? { CacheSetsUp(cache, save.cacheTier.value); }
  }

  /** Setting up a backstore from its metadata and recording it again gives the same metadata, whatever was found. */
  lemma RestoreAndRecord(save: BackstoreSave, found: seq<Found>, r: Result<State>)
    requires Regular(save) && IsSetup(save, found, r) && r.Success?
    ensures Record(r.value) == save
  {
    var data, cache :|
      && Gathered(save, found, DataMap(save), data) && Gathered(save, found, CacheMap(save), cache)
      && DevsWf(cache) && r == Setup(save, data, cache);
    DevsAreRecorded(save, found, save.dataTier.devs, data);
    if save.cacheTier.Some? {
      forall u | u in CacheMap(save) ensures u !in DataMap(save) { ApartMaps(save, u); }
      DevsAreRecorded(save, found, save.cacheTier.value.devs, cache);
    } else {
      NoCacheBack(save, found, cache);
    }
    RecordedAgain(save, data, cache);
  }

  // ----- when the tiers can be set up

  ghost predicate OnDevices(saves: seq<SegSave>, devs: seq<BlockDev>) {
    forall s | s in saves :: exists d :: d in devs && d.uuid == s.parent
  }

  lemma {:induction false} DevnoOf(devs: seq<BlockDev>, u: DevUuid)
    ensures u in UuidToDevno(devs) <==> exists d :: d in devs && d.uuid == u
  {
    if devs != [] {
      var n := |devs| - 1;
      DevnoOf(devs[..n], u);
      assert devs == devs[..n] + [devs[n]];
    }
  }

  lemma {:induction false} ToSegsIff(devs: seq<BlockDev>, saves: seq<SegSave>)
    ensures ToSegs(UuidToDevno(devs), saves).Success? <==> OnDevices(saves, devs)
    decreases |saves|
  {
    if saves != [] {
      DevnoOf(devs, saves[0].parent);
      ToSegsIff(devs, saves[1..]);
      assert saves == [saves[0]] + saves[1..];
    }
  }

  /**
   The tiers can be set up over their devices if and only if every recorded segment is on a device of its tier, and a
   cache, if there are devices for one, was recorded and leaves none of their space over.
   */
  lemma SetupSucceedsIff(save: BackstoreSave, data: seq<BlockDev>, cache: seq<BlockDev>)
    requires WfSave(save) && DevsWf(cache)
    ensures Setup(save, data, cache).Success? <==>
            && OnDevices(save.dataTier.allocs[0], data)
            && (cache != [] ==>
                  && save.cacheTier.Some? && FreeList(cache) == []
                  && OnDevices(save.cacheTier.value.allocs[0], cache) && OnDevices(save.cacheTier.value.allocs[1], cache))
    ensures Setup(save, data, cache).Success? ==>
              var s := Setup(save, data, cache).value;
              s.next == save.cap[0].length && s.devs == data && HasCap(s) && CapTable(s) == TableFrom(s.segments, 0)
  {
    ToSegsIff(data, save.dataTier.allocs[0]);
    if cache != [] && save.cacheTier.Some? {
      ToSegsIff(cache, save.cacheTier.value.allocs[0]);
      ToSegsIff(cache, save.cacheTier.value.allocs[1]);
    }
  }

  // ----- set up with devices missing or devices too many

  /** The backstore has a device with this uuid. */
  ghost predicate HasUuid(s: State, u: DevUuid) {
    exists d :: d in s.devs + CacheDevs(s) && d.uuid == u
  }

  /**
   What was found of the backstore's own devices says of itself what it said before; others may be missing, disks may
   have shrunk and strangers may be found.
   */
  ghost predicate AsTheyWere(s: State, found: seq<Found>, devno: DevUuid -> Device) {
    && NoDup(FoundUuids(found))
    && forall f, d | f in found && d in s.devs + CacheDevs(s) && f.uuid == d.uuid ::
         f.size == d.size && f.metadataSize == d.metadataSize && f.device == devno(d.uuid)
  }

  /** No device is on a smaller disk than when it was initialized. */
  ghost predicate NoneShrunk(found: seq<Found>) {
    forall f | f in found :: f.actualSize >= f.size
  }

  /** Exactly the devices of the backstore were found. */
  ghost predicate AllAndOnly(s: State, found: seq<Found>) {
    forall u :: u in FoundUuids(found) <==> HasUuid(s, u)
  }

  lemma AllAndOnlyMatches(s: State, found: seq<Found>, devno: DevUuid -> Device)
    requires AsTheyWere(s, found, devno) && AllAndOnly(s, found) && NoneShrunk(found)
    ensures Matches(s, found, devno)
  {
    forall f | f in found ensures exists d :: d in s.devs + CacheDevs(s) && Describes(f, d, devno) {
      var i :| 0 <= i < |found| && found[i] == f;
      assert FoundUuids(found)[i] == f.uuid && f.uuid in FoundUuids(found);
      assert HasUuid(s, f.uuid);
      var d :| d in s.devs + CacheDevs(s) && d.uuid == f.uuid;
      assert Describes(f, d, devno);
    }
    forall d | d in s.devs + CacheDevs(s) ensures d.uuid in FoundUuids(found) {
      assert HasUuid(s, d.uuid);
    }
  }

  lemma HasUuidIs(s: State, u: DevUuid)
    requires Whole(s)
    ensures HasUuid(s, u) <==> u in DataMap(Record(s)) || u in CacheMap(Record(s))
  {
    UuidRecorded(s, u);
    if u in DataMap(Record(s)) {
      var d :| d in s.devs && d.uuid == u;
      assert d in s.devs + CacheDevs(s);
    } else if u in CacheMap(Record(s)) {
      var d :| d in CacheDevs(s) && d.uuid == u;
      assert d in s.devs + CacheDevs(s);
    }
  }

  /** The record accepts no devices but its own, and not without any of them. */
  lemma AcceptedIsAllAndOnly(s: State, found: seq<Found>)
    requires Whole(s) && NoDup(FoundUuids(found)) && WfSave(Record(s)) && Acceptable(Record(s), found)
    ensures AllAndOnly(s, found) && NoneShrunk(found)
  {
    var save := Record(s);
    PartIs(found, DataMap(save), map[]);
    PartIs(found, CacheMap(save), DataMap(save));
    forall u ensures u in FoundUuids(found) <==> HasUuid(s, u) {
      HasUuidIs(s, u);
      if u in FoundUuids(found) {
        var i :| 0 <= i < |found| && FoundUuids(found)[i] == u;
        assert found[i] in found && Buildable(save, found[i]);
      }
    }
  }

  /**
   Setting up from the record of a backstore succeeds if and only if exactly its devices were found, none of them
   shrunk, and then gives that backstore.
   */
  lemma SetupIff(s: State, found: seq<Found>, devno: DevUuid -> Device, r: Result<State>)
    requires Whole(s) && AsTheyWere(s, found, devno) && WfSave(Record(s)) && IsSetup(Record(s), found, r)
    ensures r.Success? <==> AllAndOnly(s, found) && NoneShrunk(found)
    ensures r.Success? ==> r.value == RenumberState(s, devno)
  {
    if AllAndOnly(s, found) && NoneShrunk(found) {
      AllAndOnlyMatches(s, found, devno);
      RestoredIs(s, found, devno, r);
    } else if Acceptable(Record(s), found) {
      AcceptedIsAllAndOnly(s, found);
    }
  }

  // ----- a restart after the cap device was lost

  ghost predicate SameNumbersFound(s: State, devno: DevUuid -> Device) {
    NumbersApart(s.devs, devno) && forall d | d in s.devs :: devno(d.uuid) == d.device
  }

  /**
   A restart undoes the loss of the cap device if and only if exactly the devices of the backstore are
   found, none of them shrunk: then all that was ever mapped is mapped again, to the sectors it was mapped to before the loss.
   */
  lemma RestartUndoesLoss(s: State, lost: State, found: seq<Found>, devno: DevUuid -> Device, r: Result<State>,
                          x: int, device: Device, sector: int)
    requires Sound(s) && HasCap(s) && Phys(s.segments) <= Phys(lost.segments) && MapsTo(CapTable(s), x, device, sector)
    requires Lost(lost) && AsTheyWere(lost, found, devno) && SameNumbersFound(lost, devno)
    requires WfSave(Record(lost)) && IsSetup(Record(lost), found, r)
    ensures r.Success? <==> AllAndOnly(lost, found) && NoneShrunk(found)
    ensures r.Success? ==>
              && Sound(r.value) && HasCap(r.value) && r.value.next == lost.next
              && r.value.devs == lost.devs && r.value.segments == lost.segments
              && MapsTo(CapTable(r.value), x, device, sector)
  {
    SetupIff(lost, found, devno, r);
    if r.Success? {
      RestoredKeepsInv(lost, devno);
      SameNumbers(lost.devs, lost.segments, devno);
      MappedBySegments(s, lost.segments, x, device, sector);
    }
  }

  function AsFound(d: BlockDev): Found {
    Found.Found(d.uuid, d.device, d.size, d.metadataSize, d.size)
  }

  /**
   The devices of the cache that could not be made carry the uuid of the pool and are found with the others
   after a restart. They were never recorded, so the pool cannot be set up.
   */
  lemma CacheDevicesBlock(lost: State, d: BlockDev, found: seq<Found>, devno: DevUuid -> Device, r: Result<State>)
    requires Lost(lost) && !HasUuid(lost, d.uuid) && AsFound(d) in found
    requires AsTheyWere(lost, found, devno) && WfSave(Record(lost)) && IsSetup(Record(lost), found, r)
    ensures r.Failure?
  {
    SetupIff(lost, found, devno, r);
    var i :| 0 <= i < |found| && found[i] == AsFound(d);
    assert FoundUuids(found)[i] == d.uuid;
  }

  /** A new pool loses its cap device to a cache that cannot be made, and does not come back after a restart. */
  method LostPoolStaysDown() returns (r: Result<State>)
    ensures r.Failure?
  {
    var b, d := CapDeviceLost();
    var s := State(b.dataTier.blockMgr.blockDevs, b.dataTier.segments, b.linear, b.cache, None, b.next);
    assert s == b.Model();
    r := SetupBackstore(Record(s), [AsFound(s.devs[0]), AsFound(d)]);
    StrangerBlocks(s, d, r);
  }

  lemma StrangerBlocks(s: State, d: BlockDev, r: Result<State>)
    requires Lost(s) && |s.devs| == 1 && s.devs[0].uuid != d.uuid
    requires WfSave(Record(s)) && IsSetup(Record(s), [AsFound(s.devs[0]), AsFound(d)], r)
    ensures r.Failure?
  {
    var e := s.devs[0];
    var devno := (u: DevUuid) => if u == e.uuid then e.device else d.device;
    assert s.devs + CacheDevs(s) == [e];
    StrangerFound(s, e, d, devno);
    var found := [AsFound(e), AsFound(d)];
    assert found[1] in found;
    CacheDevicesBlock(s, d, found, devno, r);
  }

  lemma StrangerFound(s: State, e: BlockDev, d: BlockDev, devno: DevUuid -> Device)
    requires s.devs + CacheDevs(s) == [e] && e.uuid != d.uuid && devno(e.uuid) == e.device
    ensures AsTheyWere(s, [AsFound(e), AsFound(d)], devno) && !HasUuid(s, d.uuid)
  {
  }

  lemma MappedBySegments(s: State, segments: seq<BlkDevSegment>, x: int, device: Device, sector: int)
    requires CapPrefix(s) && HasCap(s) && Phys(s.segments) <= Phys(segments) && MapsTo(CapTable(s), x, device, sector)
    ensures MapsTo(TableFrom(segments, 0), x, device, sector)
  {
    TableFromMaps(segments, 0, x, device, sector);
    var phys := Phys(s.segments);
    assert 0 <= x < |phys[..s.Size()]| && phys[..s.Size()][x] == phys[x] == Phys(segments)[x];
  }

  lemma HeldIsPrefix(s: State)
    requires CapHolds(s) && HasCap(s) && s.next <= |Phys(s.segments)|
    ensures CapPrefix(s)
  {
    TableFromSize(s.segments, 0);
    TableDenotes(s.segments);
    assert Phys(s.segments)[..|Phys(s.segments)|] == Phys(s.segments);
  }

  lemma RenumberApart(a: seq<BlockDev>, b: seq<BlockDev>, devno: DevUuid -> Device)
    requires forall d, e | d in a && e in b :: d.uuid != e.uuid
    ensures forall d, e | d in RenumberDevs(a, devno) && e in RenumberDevs(b, devno) :: d.uuid != e.uuid
  {
  }

  // ----- for any metadata at all, the order in which devices are found does not matter

  lemma IndexInjective(recorded: seq<DevSave>, u: DevUuid, v: DevUuid)
    requires u in RecordedMap(recorded) && v in RecordedMap(recorded)
    requires RecordedMap(recorded)[u].index == RecordedMap(recorded)[v].index
    ensures u == v
  {
    RecordedMapIs(recorded, u);
    RecordedMapIs(recorded, v);
  }

  lemma KeysAscend(recorded: seq<DevSave>, devs: seq<BlockDev>)
    requires NoDup(Uuids(devs))
    requires (forall d | d in devs :: d.uuid in RecordedMap(recorded)) && InOrder(devs, RecordedMap(recorded))
    ensures Ascending(Keys(devs, RecordedMap(recorded)))
  {
    var ks, us := Keys(devs, RecordedMap(recorded)), Uuids(devs);
    forall i, j | 0 <= i < j < |ks| ensures ks[i] < ks[j] {
      assert us[i] != us[j] && devs[i] in devs && devs[j] in devs;
      if ks[i] == ks[j] { IndexInjective(recorded, us[i], us[j]); }
    }
  }

  lemma KeysAre(m: map<DevUuid, Entry>, devs: seq<BlockDev>, x: int)
    requires Corresponds(Uuids(devs), m) && forall d | d in devs :: d.uuid in m
    ensures x in Keys(devs, m) <==> exists u :: u in m && m[u].index == x
  {
  }

  lemma SameUuids(recorded: seq<DevSave>, a: seq<BlockDev>, b: seq<BlockDev>)
    requires Corresponds(Uuids(a), RecordedMap(recorded)) && Corresponds(Uuids(b), RecordedMap(recorded))
    requires (forall d | d in a :: d.uuid in RecordedMap(recorded)) && InOrder(a, RecordedMap(recorded))
    requires (forall d | d in b :: d.uuid in RecordedMap(recorded)) && InOrder(b, RecordedMap(recorded))
    ensures Uuids(a) == Uuids(b)
  {
    var m := RecordedMap(recorded);
    KeysAscend(recorded, a);
    KeysAscend(recorded, b);
    forall x ensures x in Keys(a, m) <==> x in Keys(b, m) {
      KeysAre(m, a, x);
      KeysAre(m, b, x);
    }
    AscendingUnique(Keys(a, m), Keys(b, m));
    assert |a| == |Keys(a, m)| == |Keys(b, m)| == |b|;
    forall i | 0 <= i < |a| ensures Uuids(a)[i] == Uuids(b)[i] {
      assert a[i] in a && b[i] in b && Keys(a, m)[i] == Keys(b, m)[i];
      IndexInjective(recorded, a[i].uuid, b[i].uuid);
    }
  }

  /** Two orders of the same devices give the same result. */
  lemma FoundOrderDoesNotMatter(save: BackstoreSave, recorded: seq<DevSave>, found: seq<Found>, found': seq<Found>,
                                a: seq<BlockDev>, b: seq<BlockDev>)
    requires WfSave(save) && NoDup(FoundUuids(found)) && forall f :: f in found <==> f in found'
    requires Gathered(save, found, RecordedMap(recorded), a) && Gathered(save, found', RecordedMap(recorded), b)
    ensures a == b
  {
    SameUuids(recorded, a, b);
    assert |a| == |Uuids(a)| == |b|;
    forall i | 0 <= i < |a| ensures a[i] == b[i] {
      assert a[i] in a && b[i] in b && Uuids(a)[i] == Uuids(b)[i];
      SameDevBuilt(save, found, found', a[i], b[i]);
    }
  }

  lemma SameDevBuilt(save: BackstoreSave, found: seq<Found>, found': seq<Found>, a: BlockDev, b: BlockDev)
    requires WfSave(save) && NoDup(FoundUuids(found)) && forall f :: f in found <==> f in found'
    requires exists f :: f in found && Built(save, f, a)
    requires exists f :: f in found' && Built(save, f, b)
    requires a.uuid == b.uuid
    ensures a == b
  {
    var f :| f in found && Built(save, f, a);
    var g :| g in found' && Built(save, g, b);
    var i :| 0 <= i < |found| && found[i] == f;
    var j :| 0 <= j < |found| && found[j] == g;
    assert FoundUuids(found)[i] == FoundUuids(found)[j];
    assert f == g;
    BuiltUnique(save, f, a, b);
  }
}
