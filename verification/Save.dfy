/** The saved form of a backstore, and rebuilding devices and tiers from it. */
module Save {
  import opened Prelude
  import opened RangeAlloc
  import opened Allocator
  import opened BlockDevs
  import opened Linear
  import opened Tiers
  import opened Backstore

  datatype DevSave = DevSave(uuid: DevUuid, userInfo: Option<string>, hardwareInfo: Option<string>)
  datatype SegSave = SegSave(parent: DevUuid, start: Sectors, length: Sectors)
  datatype TierSave = TierSave(allocs: seq<seq<SegSave>>, devs: seq<DevSave>)
  datatype BackstoreSave = BackstoreSave(cacheTier: Option<TierSave>, cap: seq<Chunk>, dataTier: TierSave)

  /** A device found at set up: what its own header says, its current number and its current size. */
  datatype Found = Found(uuid: DevUuid, device: Device, size: Sectors, metadataSize: Sectors, actualSize: Sectors)

  // ----- recording

  function RecordDevs(devs: seq<BlockDev>): (r: seq<DevSave>)
    ensures |r| == |devs|
    ensures forall i | 0 <= i < |devs| :: r[i] == DevSave(devs[i].uuid, devs[i].userInfo, devs[i].hardwareInfo)
  {
    seq(|devs|, i requires 0 <= i < |devs| => DevSave(devs[i].uuid, devs[i].userInfo, devs[i].hardwareInfo))
  }

  function RecordSegs(segs: seq<BlkDevSegment>): (r: seq<SegSave>)
    ensures |r| == |segs|
    ensures forall i | 0 <= i < |segs| :: r[i] == SegSave(segs[i].uuid, segs[i].start, segs[i].length)
  {
    seq(|segs|, i requires 0 <= i < |segs| => SegSave(segs[i].uuid, segs[i].start, segs[i].length))
  }

  function RecordCache(ct: CacheState): TierSave {
    TierSave([RecordSegs(ct.cache), RecordSegs(ct.meta)], RecordDevs(ct.devs))
  }

  function Record(s: State): BackstoreSave {
    BackstoreSave(
      if s.cacheTier.Some? then Some(RecordCache(s.cacheTier.value)) else None,
      [Chunk(0, s.next)],
      TierSave([RecordSegs(s.segments)], RecordDevs(s.devs)))
  }

  /** The lists that the metadata always has. */
  predicate WfSave(save: BackstoreSave) {
    && |save.cap| > 0 && |save.dataTier.allocs| > 0
    && (save.cacheTier.Some? ==> |save.cacheTier.value.allocs| > 1)
  }

  // ----- looking up what was recorded

  datatype Entry = Entry(index: nat, save: DevSave)

  function RecordedMap(devs: seq<DevSave>): map<DevUuid, Entry> {
    if devs == [] then map[]
    else var n := |devs| - 1; RecordedMap(devs[..n])[devs[n].uuid := Entry(n, devs[n])]
  }

  lemma {:induction false} RecordedMapIs(devs: seq<DevSave>, u: DevUuid)
    ensures u in RecordedMap(devs) <==> exists i :: 0 <= i < |devs| && devs[i].uuid == u
    ensures u in RecordedMap(devs) ==>
              var e := RecordedMap(devs)[u]; e.index < |devs| && e.save == devs[e.index] && e.save.uuid == u
  {
    if devs != [] { RecordedMapIs(devs[..|devs| - 1], u); }
  }

  function DataMap(save: BackstoreSave): map<DevUuid, Entry> { RecordedMap(save.dataTier.devs) }

  function CacheMap(save: BackstoreSave): map<DevUuid, Entry> {
    if save.cacheTier.Some? then RecordedMap(save.cacheTier.value.devs) else map[]
  }

  function FlatAllocs(allocs: seq<seq<SegSave>>): seq<SegSave> {
    if allocs == [] then [] else allocs[0] + FlatAllocs(allocs[1..])
  }

  function AllSegs(save: BackstoreSave): seq<SegSave>
    requires WfSave(save)
  {
    save.dataTier.allocs[0] + if save.cacheTier.Some? then FlatAllocs(save.cacheTier.value.allocs) else []
  }

  /** The recorded segments of one device, in recorded order. */
  function RangesFor(segs: seq<SegSave>, u: DevUuid): seq<Range> {
    if segs == [] then []
    else (if segs[0].parent == u then [Range(segs[0].start, segs[0].length)] else []) + RangesFor(segs[1..], u)
  }

  lemma {:induction false} RangesForConcat(a: seq<SegSave>, b: seq<SegSave>, u: DevUuid)
    ensures RangesFor(a + b, u) == RangesFor(a, u) + RangesFor(b, u)
  {
    if a == [] {
      assert a + b == b;
    } else {
      assert (a + b)[0] == a[0] && (a + b)[1..] == a[1..] + b;
      RangesForConcat(a[1..], b, u);
    }
  }

  lemma RangesForSnoc(segs: seq<SegSave>, i: nat, u: DevUuid)
    requires i < |segs|
    ensures RangesFor(segs[..i + 1], u)
            == RangesFor(segs[..i], u) + if segs[i].parent == u then [Range(segs[i].start, segs[i].length)] else []
  {
    assert segs[..i + 1] == segs[..i] + [segs[i]];
    RangesForConcat(segs[..i], [segs[i]], u);
    assert [segs[i]][1..] == [];
  }

  function Get(table: map<DevUuid, seq<Range>>, u: DevUuid): seq<Range> {
    if u in table then table[u] else []
  }

  /** One pass over the segments files each under its device. */
  method SegmentTable(segs: seq<SegSave>) returns (table: map<DevUuid, seq<Range>>)
    ensures forall u :: Get(table, u) == RangesFor(segs, u)
  {
    table := map[];
    for i := 0 to |segs|
      invariant forall u :: Get(table, u) == RangesFor(segs[..i], u)
    {
      var seg := segs[i];
      ghost var before := table;
      table := table[seg.parent := Get(table, seg.parent) + [Range(seg.start, seg.length)]];
      forall u ensures Get(table, u) == RangesFor(segs[..i + 1], u) {
        RangesForSnoc(segs, i, u);
        assert Get(before, u) == RangesFor(segs[..i], u);
      }
    }
    assert segs[..|segs|] == segs;
  }

  // ----- rebuilding the devices

  datatype SetupError = Shrunk | NoRecord | BadSegments | DuplicateUuids | UuidsDiffer
                      | Unallocated | NoSuchDevice | NoCacheMetadata
  datatype Result<T> = Success(value: T) | Failure(error: SetupError)

  function Reserved(save: BackstoreSave, f: Found): seq<Range>
    requires WfSave(save)
  {
    [Range(0, f.metadataSize)] + RangesFor(AllSegs(save), f.uuid)
  }

  function RecordFor(save: BackstoreSave, u: DevUuid): DevSave
    requires u in DataMap(save) || u in CacheMap(save)
  {
    if u in DataMap(save) then DataMap(save)[u].save else CacheMap(save)[u].save
  }

  /** The device described by `f` can be set up from the metadata. */
  ghost predicate Buildable(save: BackstoreSave, f: Found)
    requires WfSave(save)
  {
    && f.actualSize >= f.size
    && (f.uuid in DataMap(save) || f.uuid in CacheMap(save))
    && AllInsertable(f.size, map[], Reserved(save, f))
  }

  /** `d` is that device: its used sectors are its metadata region and its recorded segments. */
  ghost predicate Built(save: BackstoreSave, f: Found, d: BlockDev)
    requires WfSave(save)
  {
    && (f.uuid in DataMap(save) || f.uuid in CacheMap(save))
    && d == BlockDev(f.uuid, f.device, f.size, f.metadataSize, d.used,
                     RecordFor(save, f.uuid).userInfo, RecordFor(save, f.uuid).hardwareInfo)
    && Wf(d.size, d.used)
    && forall x :: Covers(d.used, x) <==> InRanges(Reserved(save, f), x)
  }

  /** The metadata and the device leave nothing open. */
  lemma BuiltUnique(save: BackstoreSave, f: Found, d: BlockDev, e: BlockDev)
    requires WfSave(save) && Built(save, f, d) && Built(save, f, e)
    ensures d == e
  {
    forall x ensures Covers(d.used, x) <==> Covers(e.used, x) {
      assert Covers(d.used, x) <==> InRanges(Reserved(save, f), x);
    }
    Canonical(d.size, d.used, e.used);
  }

  method GetBlockdev(save: BackstoreSave, table: map<DevUuid, seq<Range>>, f: Found) returns (r: Result<BlockDev>)
    requires WfSave(save) && forall u :: Get(table, u) == RangesFor(AllSegs(save), u)
    ensures r.Success? <==> Buildable(save, f)
    ensures r.Success? ==> Built(save, f, r.value)
  {
    if f.actualSize < f.size { return Failure(Shrunk); }
    if f.uuid !in DataMap(save) && f.uuid !in CacheMap(save) { return Failure(NoRecord); }
    var rec := RecordFor(save, f.uuid);
    var d := NewBlockDev(f.uuid, f.device, f.size, f.metadataSize, Get(table, f.uuid), rec.userInfo, rec.hardwareInfo);
    if d.None? { return Failure(BadSegments); }
    return Success(d.value);
  }

  /** The uuids of the found devices that belong to one tier, in the order in which they were found. */
  function PartOf(found: seq<Found>, ours: map<DevUuid, Entry>, others: map<DevUuid, Entry>): seq<DevUuid> {
    if found == [] then []
    else
      var n := |found| - 1;
      PartOf(found[..n], ours, others)
      + if found[n].uuid in ours && found[n].uuid !in others then [found[n].uuid] else []
  }

  lemma PartSnoc(found: seq<Found>, i: nat, ours: map<DevUuid, Entry>, others: map<DevUuid, Entry>)
    requires i < |found|
    ensures PartOf(found[..i + 1], ours, others)
            == PartOf(found[..i], ours, others)
               + if found[i].uuid in ours && found[i].uuid !in others then [found[i].uuid] else []
  {
    assert found[..i + 1][..i] == found[..i];
  }

  ghost predicate AllBuilt(save: BackstoreSave, found: seq<Found>, devs: seq<BlockDev>)
    requires WfSave(save)
  {
    forall d | d in devs :: exists f :: f in found && Built(save, f, d)
  }

  lemma BuiltSnoc(save: BackstoreSave, found: seq<Found>, i: nat, devs: seq<BlockDev>, d: BlockDev)
    requires WfSave(save) && AllBuilt(save, found, devs) && i < |found| && Built(save, found[i], d)
    ensures AllBuilt(save, found, devs + [d])
    ensures Uuids(devs + [d]) == Uuids(devs) + [found[i].uuid]
  {
  }

  method BuildAll(found: seq<Found>, save: BackstoreSave)
    returns (r: Result<(seq<BlockDev>, seq<BlockDev>)>)
    requires WfSave(save)
    ensures r.Success? <==> forall f | f in found :: Buildable(save, f)
    ensures r.Success? ==> AllBuilt(save, found, r.value.0) && AllBuilt(save, found, r.value.1)
    ensures r.Success? ==> Uuids(r.value.0) == PartOf(found, DataMap(save), map[])
    ensures r.Success? ==> Uuids(r.value.1) == PartOf(found, CacheMap(save), DataMap(save))
  {
    var table := SegmentTable(AllSegs(save));
    var data: seq<BlockDev>, cache: seq<BlockDev> := [], [];
    for i := 0 to |found|
      invariant forall f | f in found[..i] :: Buildable(save, f)
      invariant AllBuilt(save, found, data) && AllBuilt(save, found, cache)
      invariant Uuids(data) == PartOf(found[..i], DataMap(save), map[])
      invariant Uuids(cache) == PartOf(found[..i], CacheMap(save), DataMap(save))
    {
      PartSnoc(found, i, DataMap(save), map[]);
      PartSnoc(found, i, CacheMap(save), DataMap(save));
      var b := GetBlockdev(save, table, found[i]);
      if b.Failure? { return Failure(b.error); }
      if found[i].uuid in DataMap(save) {
        BuiltSnoc(save, found, i, data, b.value);
        data := data + [b.value];
      } else {
        BuiltSnoc(save, found, i, cache, b.value);
        cache := cache + [b.value];
      }
    }
    assert found[..|found|] == found;
    return Success((data, cache));
  }

  // ----- putting the devices in recorded order

  ghost function Keys(devs: seq<BlockDev>, recorded: map<DevUuid, Entry>): (ks: seq<int>)
    requires forall d | d in devs :: d.uuid in recorded
    ensures |ks| == |devs| && forall i | 0 <= i < |devs| :: ks[i] == recorded[devs[i].uuid].index
  {
    seq(|devs|, i requires 0 <= i < |devs| => recorded[devs[i].uuid].index)
  }

  predicate InOrder(devs: seq<BlockDev>, recorded: map<DevUuid, Entry>)
    requires forall d | d in devs :: d.uuid in recorded
  {
    forall i, j | 0 <= i < j < |devs| :: recorded[devs[i].uuid].index <= recorded[devs[j].uuid].index
  }

  function InsertByIndex(devs: seq<BlockDev>, d: BlockDev, recorded: map<DevUuid, Entry>): (r: seq<BlockDev>)
    requires d.uuid in recorded && forall e | e in devs :: e.uuid in recorded
    ensures multiset(r) == multiset(devs) + multiset{d}
  {
    if devs == [] || recorded[devs[|devs| - 1].uuid].index <= recorded[d.uuid].index then devs + [d]
    else
      var n := |devs| - 1;
      assert devs == devs[..n] + [devs[n]];
      InsertByIndex(devs[..n], d, recorded) + [devs[n]]
  }

  lemma SameElems(r: seq<BlockDev>, devs: seq<BlockDev>)
    requires multiset(r) == multiset(devs)
    ensures forall e :: e in r <==> e in devs
  {
    forall e ensures e in r <==> e in devs {
      assert e in r <==> e in multiset(r);
      assert e in devs <==> e in multiset(devs);
    }
  }

  /** If `d` comes before the last device, nothing comes after that. */
  lemma NoneLater(devs: seq<BlockDev>, d: BlockDev, recorded: map<DevUuid, Entry>)
    requires d.uuid in recorded && (forall e | e in devs :: e.uuid in recorded) && InOrder(devs, recorded)
    requires devs != [] && recorded[devs[|devs| - 1].uuid].index > recorded[d.uuid].index
    ensures var n := |devs| - 1;
            && (forall e | e in devs[..n] :: e.uuid in recorded)
            && forall e | e in InsertByIndex(devs[..n], d, recorded) ::
                 e.uuid in recorded && recorded[e.uuid].index <= recorded[devs[n].uuid].index
  {
    var n := |devs| - 1;
    assert forall e | e in devs[..n] :: e in devs;
    SameElems(InsertByIndex(devs[..n], d, recorded), devs[..n] + [d]);
    forall e | e in devs[..n] + [d] ensures e.uuid in recorded && recorded[e.uuid].index <= recorded[devs[n].uuid].index {
      if e != d {
        var i :| 0 <= i < n && devs[i] == e;
      }
    }
  }

  lemma {:induction false} InsertInOrder(devs: seq<BlockDev>, d: BlockDev, recorded: map<DevUuid, Entry>)
    requires d.uuid in recorded && (forall e | e in devs :: e.uuid in recorded) && InOrder(devs, recorded)
    ensures (forall e | e in InsertByIndex(devs, d, recorded) :: e.uuid in recorded)
    ensures InOrder(InsertByIndex(devs, d, recorded), recorded)
  {
    SameElems(InsertByIndex(devs, d, recorded), devs + [d]);
    if devs != [] && recorded[devs[|devs| - 1].uuid].index > recorded[d.uuid].index {
      var n := |devs| - 1;
      var init := devs[..n];
      assert forall e | e in init :: e in devs;
      InsertInOrder(init, d, recorded);
      NoneLater(devs, d, recorded);
      SnocInOrder(InsertByIndex(init, d, recorded), devs[n], recorded);
    }
  }

  lemma SnocInOrder(devs: seq<BlockDev>, d: BlockDev, recorded: map<DevUuid, Entry>)
    requires d.uuid in recorded && (forall e | e in devs :: e.uuid in recorded) && InOrder(devs, recorded)
    requires forall e | e in devs :: recorded[e.uuid].index <= recorded[d.uuid].index
    ensures forall e | e in devs + [d] :: e.uuid in recorded
    ensures InOrder(devs + [d], recorded)
  {
  }

  /** The devices in the order of their index. */
  function SortByIndex(devs: seq<BlockDev>, recorded: map<DevUuid, Entry>): (r: seq<BlockDev>)
    requires forall e | e in devs :: e.uuid in recorded
    ensures multiset(r) == multiset(devs)
    ensures forall e :: e in r <==> e in devs
    ensures InOrder(r, recorded)
  {
    if devs == [] then []
    else
      var n := |devs| - 1;
      assert devs == devs[..n] + [devs[n]];
      var r := InsertByIndex(SortByIndex(devs[..n], recorded), devs[n], recorded);
      InsertInOrder(SortByIndex(devs[..n], recorded), devs[n], recorded);
      SameElems(r, devs);
      r
  }

  /** `uuids` are distinct, and exactly those that were recorded. */
  ghost predicate Corresponds(uuids: seq<DevUuid>, recorded: map<DevUuid, Entry>) {
    NoDup(uuids) && forall u :: u in uuids <==> u in recorded
  }

  method CheckAndSort(devs: seq<BlockDev>, recorded: map<DevUuid, Entry>) returns (r: Result<seq<BlockDev>>)
    ensures r.Success? <==> Corresponds(Uuids(devs), recorded)
    ensures r.Success? ==> multiset(r.value) == multiset(devs)
    ensures r.Success? ==> (forall d :: d in r.value <==> d in devs)
    ensures r.Success? ==> (forall d | d in r.value :: d.uuid in recorded) && InOrder(r.value, recorded)
  {
    var uuids: set<DevUuid> := {};
    var duplicates := [];
    for i := 0 to |devs|
      invariant forall u :: u in uuids <==> u in Uuids(devs)[..i]
      invariant duplicates == [] <==> NoDup(Uuids(devs)[..i])
    {
      var us := Uuids(devs);
      assert us[..i + 1] == us[..i] + [us[i]];
      SnocNoDup(us[..i], us[i]);
      if devs[i].uuid in uuids { duplicates := duplicates + [devs[i].uuid]; }
      uuids := uuids + {devs[i].uuid};
    }
    assert Uuids(devs)[..|devs|] == Uuids(devs);
    if duplicates != [] { return Failure(DuplicateUuids); }
    if uuids != recorded.Keys {
      assert !(forall u :: u in uuids <==> u in recorded.Keys);
      return Failure(UuidsDiffer);
    }
    forall d | d in devs ensures d.uuid in recorded {
      var i :| 0 <= i < |devs| && devs[i] == d;
      assert Uuids(devs)[i] in Uuids(devs);
    }
    return Success(SortByIndex(devs, recorded));
  }

  lemma SnocNoDup<T>(s: seq<T>, x: T)
    ensures NoDup(s + [x]) <==> NoDup(s) && x !in s
  {
    var t := s + [x];
    if NoDup(t) {
      forall i, j | 0 <= i < j < |s| ensures s[i] != s[j] { assert t[i] != t[j]; }
      forall i | 0 <= i < |s| ensures s[i] != x { assert t[i] != t[|s|]; }
    }
  }

  /** What `GetBlockdevs` demands of the metadata and the devices found. */
  ghost predicate Acceptable(save: BackstoreSave, found: seq<Found>)
    requires WfSave(save)
  {
    && (forall f | f in found :: Buildable(save, f))
    && Corresponds(PartOf(found, DataMap(save), map[]), DataMap(save))
    && Corresponds(PartOf(found, CacheMap(save), DataMap(save)), CacheMap(save))
  }

  /** `devs` are the recorded devices of one tier, each once, in recorded order, and rebuilt from what was found. */
  ghost predicate Gathered(save: BackstoreSave, found: seq<Found>, recorded: map<DevUuid, Entry>, devs: seq<BlockDev>)
    requires WfSave(save)
  {
    && AllBuilt(save, found, devs)
    && Corresponds(Uuids(devs), recorded)
    && (forall d | d in devs :: d.uuid in recorded)
    && InOrder(devs, recorded)
  }

  method GetBlockdevs(save: BackstoreSave, found: seq<Found>) returns (r: Result<(seq<BlockDev>, seq<BlockDev>)>)
    requires WfSave(save)
    ensures r.Success? <==> Acceptable(save, found)
    ensures r.Success? ==> Gathered(save, found, DataMap(save), r.value.0)
    ensures r.Success? ==> Gathered(save, found, CacheMap(save), r.value.1)
  {
    var parts := BuildAll(found, save);
    if parts.Failure? { return Failure(parts.error); }
    var data := CheckAndSort(parts.value.0, DataMap(save));
    if data.Failure? { return Failure(data.error); }
    var cache := CheckAndSort(parts.value.1, CacheMap(save));
    if cache.Failure? { return Failure(cache.error); }
    PermutedUuids(parts.value.0, data.value);
    PermutedUuids(parts.value.1, cache.value);
    return Success((data.value, cache.value));
  }

  lemma PermutedUuids(a: seq<BlockDev>, b: seq<BlockDev>)
    requires NoDup(Uuids(a)) && multiset(b) == multiset(a) && forall d :: d in b <==> d in a
    ensures NoDup(Uuids(b)) && forall u :: u in Uuids(b) <==> u in Uuids(a)
  {
    NoDupMultiset(a);
    forall i, j | 0 <= i < j < |b| ensures b[i].uuid != b[j].uuid {
      assert b[i] in a && b[j] in a;
      var k :| 0 <= k < |a| && a[k] == b[i];
      var l :| 0 <= l < |a| && a[l] == b[j];
      assert Uuids(a)[k] == b[i].uuid && Uuids(a)[l] == b[j].uuid;
      if b[i] == b[j] { TwiceInMultiset(b, i, j); }
    }
    UuidsSame(a, b);
    UuidsSame(b, a);
  }

  lemma UuidsSame(a: seq<BlockDev>, b: seq<BlockDev>)
    requires forall d | d in a :: d in b
    ensures forall u | u in Uuids(a) :: u in Uuids(b)
  {
    forall u | u in Uuids(a) ensures u in Uuids(b) {
      var i :| 0 <= i < |a| && Uuids(a)[i] == u;
      assert a[i] in b;
      var j :| 0 <= j < |b| && b[j] == a[i];
      assert Uuids(b)[j] == u;
    }
  }

  lemma {:induction false} NoDupMultiset(a: seq<BlockDev>)
    requires NoDup(Uuids(a))
    ensures forall d | d in a :: multiset(a)[d] == 1
  {
    if a != [] {
      var n := |a| - 1;
      var init := a[..n];
      assert a == init + [a[n]];
      assert Uuids(a) == Uuids(init) + [a[n].uuid];
      SnocNoDup(Uuids(init), a[n].uuid);
      NoDupMultiset(init);
      forall i | 0 <= i < |init| ensures init[i] != a[n] { assert Uuids(init)[i] in Uuids(init); }
    }
  }

  lemma TwiceInMultiset<T>(s: seq<T>, i: nat, j: nat)
    requires i < j < |s| && s[i] == s[j]
    ensures multiset(s)[s[i]] >= 2
  {
    assert s == s[..j] + ([s[j]] + s[j + 1..]);
    assert s[..j][i] == s[i] && s[i] in s[..j];
    assert multiset(s) == multiset(s[..j]) + multiset([s[j]]) + multiset(s[j + 1..]);
  }

  // ----- rebuilding the tiers

  function UuidToDevno(devs: seq<BlockDev>): map<DevUuid, Device> {
    if devs == [] then map[]
    else var n := |devs| - 1; UuidToDevno(devs[..n])[devs[n].uuid := devs[n].device]
  }

  function MetadataToSegment(devno: map<DevUuid, Device>, s: SegSave): Result<BlkDevSegment> {
    if s.parent in devno then Success(BlkDevSegment(s.parent, devno[s.parent], s.start, s.length)) else Failure(NoSuchDevice)
  }

  function ToSegs(devno: map<DevUuid, Device>, saves: seq<SegSave>): Result<seq<BlkDevSegment>> {
    if saves == [] then Success([])
    else
      var first := MetadataToSegment(devno, saves[0]);
      if first.Failure? then Failure(first.error)
      else
        var rest := ToSegs(devno, saves[1..]);
        if rest.Failure? then rest else Success([first.value] + rest.value)
  }

  function SetupCacheTier(devs: seq<BlockDev>, save: TierSave): Result<CacheState>
    requires |save.allocs| > 1 && forall d | d in devs :: Wf(d.size, d.used)
  {
    if AvailSpace(devs) != 0 then Failure(Unallocated)
    else
      var meta := ToSegs(UuidToDevno(devs), save.allocs[1]);
      if meta.Failure? then Failure(meta.error)
      else
        var cache := ToSegs(UuidToDevno(devs), save.allocs[0]);
        if cache.Failure? then Failure(cache.error) else Success(CacheState(devs, cache.value, meta.value))
  }

  /** The backstore made from the devices; devicemapper steps succeed. */
  function Setup(save: BackstoreSave, data: seq<BlockDev>, cache: seq<BlockDev>): Result<State>
    requires WfSave(save) && forall d | d in cache :: Wf(d.size, d.used)
  {
    var segs := ToSegs(UuidToDevno(data), save.dataTier.allocs[0]);
    if segs.Failure? then Failure(segs.error)
    else
      var origin := TableFrom(segs.value, 0);
      var next := save.cap[0].length;
      if cache == [] then Success(State(data, segs.value, Some(origin), None, None, next))
      else if save.cacheTier.None? then Failure(NoCacheMetadata)
      else
        var ct := SetupCacheTier(cache, save.cacheTier.value);
        if ct.Failure? then Failure(ct.error)
        else
          Success(State(data, segs.value, None,
                   Some(CacheDev(TableFrom(ct.value.meta, 0), TableFrom(ct.value.cache, 0), origin)),
                   Some(ct.value), next))
  }
}
