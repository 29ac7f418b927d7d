/** Block devices, the segments allocated from them, and the manager that allocates. */
module BlockDevs {
  import opened Prelude
  import opened RangeAlloc
  import opened Allocator

  datatype DevUuid = DevUuid(id: nat)
  datatype Device = Device(major: nat, minor: nat)

  /** A block device: identity, size, space given over to metadata, and allocation state. */
  datatype BlockDev = BlockDev(
    uuid: DevUuid,
    device: Device,
    size: Sectors,
    metadataSize: Sectors,
    used: UsedMap,
    userInfo: Option<string>,
    hardwareInfo: Option<string>)
  {
    function Available(): (n: Sectors)
      requires Wf(size, used)
      ensures n == |FreeSeq(size, used)|
    {
      UsedPlusAvailable(size, used);
      size - Sum(used)
    }
  }

  datatype BlkDevSegment = BlkDevSegment(uuid: DevUuid, device: Device, start: Sectors, length: Sectors)

  /** A physical sector. */
  datatype Loc = Loc(uuid: DevUuid, device: Device, sector: int)

  // ----- devices and segments as lists of physical sectors

  ghost function Tag(uuid: DevUuid, device: Device, xs: seq<int>): (ls: seq<Loc>)
    ensures |ls| == |xs| && forall i | 0 <= i < |xs| :: ls[i] == Loc(uuid, device, xs[i])
  {
    seq(|xs|, i requires 0 <= i < |xs| => Loc(uuid, device, xs[i]))
  }

  /** The physical sectors of a list of segments, in list order. */
  ghost function Phys(segs: seq<BlkDevSegment>): seq<Loc> {
    if segs == [] then []
    else Tag(segs[0].uuid, segs[0].device, Span(segs[0].start, segs[0].length)) + Phys(segs[1..])
  }

  ghost function FreeOf(d: BlockDev): seq<Loc> {
    Tag(d.uuid, d.device, FreeSeq(d.size, d.used))
  }

  /** Every free sector: those of the first device lowest first, then those of the second, and so on. */
  ghost function FreeList(devs: seq<BlockDev>): seq<Loc> {
    if devs == [] then [] else FreeOf(devs[0]) + FreeList(devs[1..])
  }

  /** The sectors of a device that are not given over to metadata. */
  ghost function UsableOf(d: BlockDev): seq<Loc>
    requires d.metadataSize <= d.size
  {
    Tag(d.uuid, d.device, Span(d.metadataSize, d.size - d.metadataSize))
  }

  ghost function Usable(devs: seq<BlockDev>): seq<Loc>
    requires forall d | d in devs :: d.metadataSize <= d.size
  {
    if devs == [] then [] else UsableOf(devs[0]) + Usable(devs[1..])
  }

  ghost predicate WfDev(d: BlockDev) {
    && Wf(d.size, d.used)
    && d.metadataSize <= d.size
    && forall x | 0 <= x < d.metadataSize :: Covers(d.used, x)
  }

  ghost predicate WfDevs(devs: seq<BlockDev>) {
    && (forall i | 0 <= i < |devs| :: WfDev(devs[i]))
    && Distinct(devs)
  }

  ghost predicate Distinct(devs: seq<BlockDev>) {
    forall i, j | 0 <= i < j < |devs| :: devs[i].uuid != devs[j].uuid && devs[i].device != devs[j].device
  }

  /** The same devices in the same order; only their allocation state may differ. */
  ghost predicate SameDevs(a: seq<BlockDev>, b: seq<BlockDev>) {
    && |a| == |b|
    && forall i | 0 <= i < |a| :: a[i].(used := b[i].used) == b[i]
  }

  lemma {:induction false} FreeListConcat(a: seq<BlockDev>, b: seq<BlockDev>)
    ensures FreeList(a + b) == FreeList(a) + FreeList(b)
  {
    if a == [] {
      assert a + b == b;
    } else {
      assert (a + b)[0] == a[0] && (a + b)[1..] == a[1..] + b;
      FreeListConcat(a[1..], b);
    }
  }

  lemma {:induction false} UsableConcat(a: seq<BlockDev>, b: seq<BlockDev>)
    requires forall d | d in a + b :: d.metadataSize <= d.size
    ensures (forall d | d in a :: d in a + b) && (forall d | d in b :: d in a + b)
    ensures Usable(a + b) == Usable(a) + Usable(b)
  {
    if a == [] {
      assert a + b == b;
    } else {
      assert (a + b)[0] == a[0] && (a + b)[1..] == a[1..] + b;
      UsableConcat(a[1..], b);
    }
  }

  lemma {:induction false} PhysConcat(a: seq<BlkDevSegment>, b: seq<BlkDevSegment>)
    ensures Phys(a + b) == Phys(a) + Phys(b)
  {
    if a == [] {
      assert a + b == b;
    } else {
      assert (a + b)[0] == a[0] && (a + b)[1..] == a[1..] + b;
      PhysConcat(a[1..], b);
    }
  }

  // ----- sizes

  function AvailSpace(devs: seq<BlockDev>): (n: nat)
    requires forall d | d in devs :: Wf(d.size, d.used)
    ensures n == |FreeList(devs)|
  {
    if devs == [] then 0 else devs[0].Available() + AvailSpace(devs[1..])
  }

  function Size(devs: seq<BlockDev>): nat {
    if devs == [] then 0 else devs[0].size + Size(devs[1..])
  }

  function MetadataSize(devs: seq<BlockDev>): nat {
    if devs == [] then 0 else devs[0].metadataSize + MetadataSize(devs[1..])
  }

  lemma {:induction false} UsableLength(devs: seq<BlockDev>)
    requires forall d | d in devs :: d.metadataSize <= d.size
    ensures |Usable(devs)| == Size(devs) - MetadataSize(devs)
  {
    if devs != [] { UsableLength(devs[1..]); }
  }

  function SegmentsLength(segs: seq<BlkDevSegment>): (n: nat)
    ensures n == |Phys(segs)|
  {
    if segs == [] then 0 else segs[0].length + SegmentsLength(segs[1..])
  }

  function Total(sizes: seq<Sectors>): nat {
    if sizes == [] then 0 else sizes[0] + Total(sizes[1..])
  }

  // ----- allocation

  function ToSegments(d: BlockDev, rs: seq<Range>): seq<BlkDevSegment> {
    seq(|rs|, i requires 0 <= i < |rs| => BlkDevSegment(d.uuid, d.device, rs[i].start, rs[i].len))
  }

  lemma {:induction false} ToSegmentsPhys(d: BlockDev, rs: seq<Range>)
    ensures Phys(ToSegments(d, rs)) == Tag(d.uuid, d.device, Flatten(rs))
  {
    if rs != [] {
      assert ToSegments(d, rs)[1..] == ToSegments(d, rs[1..]);
      ToSegmentsPhys(d, rs[1..]);
    }
  }

  /** `s` is a non-empty stretch of device `d`. */
  ghost predicate OnDev(s: BlkDevSegment, d: BlockDev) {
    && s.uuid == d.uuid && s.device == d.device
    && 0 < s.length && s.start + s.length <= d.size
  }

  /** Every segment is a non-empty stretch of one of the devices. */
  ghost predicate SegsOn(devs: seq<BlockDev>, segs: seq<BlkDevSegment>) {
    forall s | s in segs :: exists d :: d in devs && OnDev(s, d)
  }

  /** Take the lowest free sectors of one device: up to `size` of them. */
  method RequestSpace(d: BlockDev, size: Sectors) returns (d': BlockDev, segs: seq<BlkDevSegment>, sum: Sectors)
    requires WfDev(d)
    ensures WfDev(d') && d.(used := d'.used) == d'
    ensures sum == Min(size, |FreeOf(d)|)
    ensures Phys(segs) == FreeOf(d)[..sum] && FreeOf(d') == FreeOf(d)[sum..]
    ensures forall s | s in segs :: OnDev(s, d)
  {
    var allocator := new RangeAllocator.Of(d.size, d.used);
    var r := allocator.Request(size);
    d' := d.(used := allocator.segments.used);
    segs := ToSegments(d, Ranges(r.used));
    ToSegmentsPhys(d, Ranges(r.used));
    UsedPlusAvailable(d.size, r.used);
    sum := Sum(r.used);
    RangesOnDev(d, r.used);
  }

  lemma RangesOnDev(d: BlockDev, u: UsedMap)
    requires Wf(d.size, u)
    ensures forall s | s in ToSegments(d, Ranges(u)) :: OnDev(s, d)
  {
  }

  /**
   Set up a device from its recorded segments: the metadata region and the segments become
   the used sectors. Fails exactly when some of these overlap or leave the device.
   */
  method NewBlockDev(uuid: DevUuid, device: Device, size: Sectors, metadataSize: Sectors, others: seq<Range>,
                     userInfo: Option<string>, hardwareInfo: Option<string>)
    returns (d: Option<BlockDev>)
    ensures d.Some? <==> AllInsertable(size, map[], [Range(0, metadataSize)] + others)
    ensures d.Some? ==>
              && d.value == BlockDev(uuid, device, size, metadataSize, d.value.used, userInfo, hardwareInfo)
              && Wf(size, d.value.used)
              && forall x :: Covers(d.value.used, x) <==> InRanges([Range(0, metadataSize)] + others, x)
  {
    var segments := new PerDevSegments(size);
    var r := segments.InsertAll([Range(0, metadataSize)] + others);
    if r.Err? { return None; }
    forall x ensures Covers(segments.used, x) <==> InRanges([Range(0, metadataSize)] + others, x) {
      assert !Covers(map[], x);
    }
    return Some(BlockDev(uuid, device, size, metadataSize, segments.used, userInfo, hardwareInfo));
  }

  /** A device as initialization leaves it: only the metadata region is in use. */
  ghost predicate IsNew(d: BlockDev) {
    && Wf(d.size, d.used) && d.metadataSize <= d.size
    && forall x :: Covers(d.used, x) <==> 0 <= x < d.metadataSize
  }

  ghost predicate AllNew(devs: seq<BlockDev>) {
    forall d | d in devs :: IsNew(d) && d.metadataSize <= d.size
  }

  lemma NewDevFree(d: BlockDev)
    requires IsNew(d)
    ensures WfDev(d) && FreeOf(d) == UsableOf(d)
  {
    var s := Span(d.metadataSize, d.size - d.metadataSize);
    forall x ensures x in s <==> 0 <= x < d.size && !Covers(d.used, x) {
      if d.metadataSize <= x < d.size { assert s[x - d.metadataSize] == x; }
    }
    FreeSeqIs(d.size, d.used, s);
  }

  lemma {:induction false} NewDevsFree(devs: seq<BlockDev>)
    requires AllNew(devs)
    ensures FreeList(devs) == Usable(devs)
  {
    if devs != [] {
      NewDevFree(devs[0]);
      NewDevsFree(devs[1..]);
    }
  }

  class BlockDevMgr {
    var blockDevs: seq<BlockDev>

    ghost predicate Valid() reads this { WfDevs(blockDevs) }

    constructor (blockDevs: seq<BlockDev>)
      requires WfDevs(blockDevs)
      ensures Valid() && this.blockDevs == blockDevs
    {
      this.blockDevs := blockDevs;
    }

    /** Append newly initialized devices; none if initializing them fails. */
    method Add(devs: Option<seq<BlockDev>>) returns (ok: bool)
      requires Valid() && (devs.Some? ==> WfDevs(blockDevs + devs.value))
      modifies this
      ensures Valid() && ok == devs.Some?
      ensures blockDevs == if ok then old(blockDevs) + devs.value else old(blockDevs)
    {
      if devs.None? { return false; }
      blockDevs := blockDevs + devs.value;
      return true;
    }

    /**
     Remove the devices with the given uuids, looking from the back and never at index 0, and wipe
     them. Stops at the first uuid that is not found; what was removed before stays removed.
     */
    method RemoveBlockdevs(uuids: seq<DevUuid>, wiped: bool) returns (r: RemoveOutcome)
      requires Valid() && blockDevs != []
      modifies this
      ensures Valid() && blockDevs == RemoveAll(old(blockDevs), uuids).devs
      ensures r == if !RemoveAll(old(blockDevs), uuids).ok then NotFound else if wiped then Removed else NotWiped
    {
      RemoveAllWf(blockDevs, uuids);
      for i := 0 to |uuids|
        invariant blockDevs != [] && RemoveAll(blockDevs, uuids[i..]) == RemoveAll(old(blockDevs), uuids)
      {
        assert uuids[i..][0] == uuids[i] && uuids[i..][1..] == uuids[i + 1..];
        var index := |blockDevs| - 1;
        while index > 0 && blockDevs[index].uuid != uuids[i]
          invariant 0 <= index < |blockDevs|
          invariant LastIndex(blockDevs, uuids[i], index) == LastIndex(blockDevs, uuids[i], |blockDevs| - 1)
        {
          index := index - 1;
        }
        if index == 0 { return NotFound; }
        blockDevs := SwapRemove(blockDevs, index);
      }
      return if wiped then Removed else NotWiped;
    }

    /**
     All of the sizes are served or nothing changes. On success the lists take consecutive
     stretches off the front of the free list.
     */
    method AllocSpace(sizes: seq<Sectors>) returns (r: Option<seq<seq<BlkDevSegment>>>)
      requires Valid()
      modifies this
      ensures Valid() && SameDevs(old(blockDevs), blockDevs)
      ensures r.Some? <==> Total(sizes) <= |FreeList(old(blockDevs))|
      ensures r.Some? ==> Served(sizes, r.value, FreeList(old(blockDevs)), FreeList(blockDevs))
      ensures r.Some? ==> forall segs | segs in r.value :: SegsOn(blockDevs, segs)
      ensures r.Some? ==> NoDup(Phys(Concat(r.value)))
      ensures r.Some? ==> forall l | l in Phys(Concat(r.value)) :: IsFree(old(blockDevs), l) && !IsFree(blockDevs, l)
      ensures r.None? ==> blockDevs == old(blockDevs)
    {
      if AvailSpace(blockDevs) < Total(sizes) { return None; }
      var devs, lists := Serve(blockDevs, sizes);
      ServedDistinct(blockDevs, devs, sizes, lists);
      blockDevs := devs;
      return Some(lists);
    }
  }

  /** The greatest index from `from` down to 1 that holds `uuid`, or 0. */
  function LastIndex(devs: seq<BlockDev>, uuid: DevUuid, from: nat): (i: nat)
    requires from < |devs|
    ensures i <= from && (i > 0 ==> devs[i].uuid == uuid)
    ensures forall j | i < j <= from :: devs[j].uuid != uuid
  {
    if from == 0 || devs[from].uuid == uuid then from else LastIndex(devs, uuid, from - 1)
  }

  /** Remove the element at `i` by putting the last element in its place. */
  function SwapRemove<T>(s: seq<T>, i: nat): (r: seq<T>)
    requires i < |s|
    ensures |r| == |s| - 1 && forall j | 0 <= j < |r| :: r[j] == if j == i then s[|s| - 1] else s[j]
  {
    s[i := s[|s| - 1]][..|s| - 1]
  }

  datatype RemoveOutcome = Removed | NotFound | NotWiped
  datatype Removal = Removal(ok: bool, devs: seq<BlockDev>)

  function RemoveAll(devs: seq<BlockDev>, uuids: seq<DevUuid>): (r: Removal)
    requires devs != []
    decreases |uuids|
  {
    if uuids == [] then Removal(true, devs)
    else
      var i := LastIndex(devs, uuids[0], |devs| - 1);
      if i == 0 then Removal(false, devs) else RemoveAll(SwapRemove(devs, i), uuids[1..])
  }

  lemma {:induction false} RemoveAllWf(devs: seq<BlockDev>, uuids: seq<DevUuid>)
    requires WfDevs(devs) && devs != []
    ensures WfDevs(RemoveAll(devs, uuids).devs)
    decreases |uuids|
  {
    if uuids != [] {
      var i := LastIndex(devs, uuids[0], |devs| - 1);
      if i != 0 {
        SwapRemoveWf(devs, i);
        RemoveAllWf(SwapRemove(devs, i), uuids[1..]);
      }
    }
  }

  lemma {:induction false} RemoveShrinks(devs: seq<BlockDev>, uuids: seq<DevUuid>)
    requires devs != []
    ensures |RemoveAll(devs, uuids).devs| <= |devs|
    decreases |uuids|
  {
    if uuids != [] {
      var i := LastIndex(devs, uuids[0], |devs| - 1);
      if i != 0 { RemoveShrinks(SwapRemove(devs, i), uuids[1..]); }
    }
  }

  /** A removal that fails leaves the list alone exactly when its first uuid is not found. */
  lemma FailedRemovalKeepsIff(devs: seq<BlockDev>, uuids: seq<DevUuid>)
    requires devs != [] && !RemoveAll(devs, uuids).ok
    ensures RemoveAll(devs, uuids).devs == devs <==> !InTail(devs, uuids[0])
  {
    var i := LastIndex(devs, uuids[0], |devs| - 1);
    if i != 0 { RemoveShrinks(SwapRemove(devs, i), uuids[1..]); }
  }

  /** Three devices; the third is removed before an unknown uuid is met. */
  lemma FailedRemovalLosesDevice(a: BlockDev, b: BlockDev, c: BlockDev, x: DevUuid)
    requires Distinct([a, b, c]) && x != b.uuid
    ensures RemoveAll([a, b, c], [c.uuid, x]) == Removal(false, [a, b])
  {
  }

  /** A device other than the first has this uuid. */
  ghost predicate InTail(devs: seq<BlockDev>, u: DevUuid) {
    exists i :: 0 < i < |devs| && devs[i].uuid == u
  }

  lemma TailAfterRemoval(devs: seq<BlockDev>, i: nat, u: DevUuid)
    requires Distinct(devs) && 0 < i < |devs|
    ensures InTail(SwapRemove(devs, i), u) <==> InTail(devs, u) && u != devs[i].uuid
  {
    var rest := SwapRemove(devs, i);
    if InTail(devs, u) && u != devs[i].uuid {
      var k :| 0 < k < |devs| && devs[k].uuid == u;
      var k' := if k == |devs| - 1 then i else k;
      assert rest[k'] == devs[k];
    }
  }

  /** Removal succeeds exactly on distinct uuids of devices other than the first. */
  lemma {:induction false} RemovalExact(devs: seq<BlockDev>, uuids: seq<DevUuid>)
    requires Distinct(devs) && devs != []
    ensures RemoveAll(devs, uuids).ok <==> NoDup(uuids) && forall u | u in uuids :: InTail(devs, u)
    decreases |uuids|
  {
    if uuids != [] {
      var u, rest := uuids[0], uuids[1..];
      var i := LastIndex(devs, u, |devs| - 1);
      assert uuids == [u] + rest;
      if i == 0 {
        assert u in uuids && !InTail(devs, u);
      } else {
        SwapRemoveDistinct(devs, i);
        RemovalExact(SwapRemove(devs, i), rest);
        forall w ensures InTail(SwapRemove(devs, i), w) <==> InTail(devs, w) && w != u { TailAfterRemoval(devs, i, w); }
        NoDupCons(u, rest);
        assert InTail(devs, u);
      }
    }
  }

  lemma NoDupCons<T>(x: T, s: seq<T>)
    ensures NoDup([x] + s) <==> x !in s && NoDup(s)
  {
    var t := [x] + s;
    if NoDup(t) {
      forall i | 0 <= i < |s| ensures s[i] != x { assert t[0] != t[i + 1]; }
      forall i, j | 0 <= i < j < |s| ensures s[i] != s[j] { assert t[i + 1] != t[j + 1]; }
    }
  }

  /** `uuids` lists, in any order, the distinct uuids of `devs`. */
  ghost predicate ListsUuids(uuids: seq<DevUuid>, devs: seq<BlockDev>) {
    && |uuids| == |devs| && NoDup(uuids)
    && (forall i | 0 <= i < |devs| :: devs[i].uuid in uuids)
    && (forall i | 0 <= i < |uuids| :: exists j :: 0 <= j < |devs| && devs[j].uuid == uuids[i])
  }

  /** Removing the devices that were just appended gives back the list as it was, order included. */
  lemma {:induction false} RemoveAppended(base: seq<BlockDev>, added: seq<BlockDev>, uuids: seq<DevUuid>)
    requires Distinct(base + added) && base != []
    requires ListsUuids(uuids, added)
    ensures RemoveAll(base + added, uuids) == Removal(true, base)
    decreases |uuids|
  {
    if uuids == [] {
      assert base + added == base;
    } else {
      var j :| 0 <= j < |added| && added[j].uuid == uuids[0];
      RestListed(base, added, uuids, j);
      RemoveOne(base, added, uuids, j);
      RemoveAppended(base, SwapRemove(added, j), uuids[1..]);
    }
  }

  lemma RemoveOne(base: seq<BlockDev>, added: seq<BlockDev>, uuids: seq<DevUuid>, j: nat)
    requires Distinct(base + added) && base != []
    requires uuids != [] && j < |added| && added[j].uuid == uuids[0]
    ensures Distinct(base + SwapRemove(added, j))
    ensures RemoveAll(base + added, uuids) == RemoveAll(base + SwapRemove(added, j), uuids[1..])
  {
    FoundInTail(base, added, j);
    RemoveAt(base + added, uuids, |base| + j, base + SwapRemove(added, j)) by { SwapTail(base, added, j); }
  }

  lemma RemoveAt(devs: seq<BlockDev>, uuids: seq<DevUuid>, i: nat, rest: seq<BlockDev>)
    requires Distinct(devs) && uuids != [] && 0 < i < |devs| && i == LastIndex(devs, uuids[0], |devs| - 1)
    requires rest == SwapRemove(devs, i)
    ensures Distinct(rest) && RemoveAll(devs, uuids) == RemoveAll(rest, uuids[1..])
  {
  }

  lemma FoundInTail(base: seq<BlockDev>, added: seq<BlockDev>, j: nat)
    requires Distinct(base + added) && base != [] && j < |added|
    ensures LastIndex(base + added, added[j].uuid, |base + added| - 1) == |base| + j
  {
    assert (base + added)[|base| + j] == added[j];
  }

  lemma SwapTail<T>(base: seq<T>, added: seq<T>, j: nat)
    requires j < |added|
    ensures SwapRemove(base + added, |base| + j) == base + SwapRemove(added, j)
  {
  }

  lemma SwapRemoveDistinct(devs: seq<BlockDev>, i: nat)
    requires Distinct(devs) && i < |devs|
    ensures Distinct(SwapRemove(devs, i))
  {
  }

  lemma SwapRemoveWf(devs: seq<BlockDev>, i: nat)
    requires WfDevs(devs) && i < |devs|
    ensures WfDevs(SwapRemove(devs, i))
  {
  }

  lemma RestListed(base: seq<BlockDev>, added: seq<BlockDev>, uuids: seq<DevUuid>, j: nat)
    requires Distinct(base + added)
    requires ListsUuids(uuids, added) && uuids != [] && j < |added| && added[j].uuid == uuids[0]
    ensures ListsUuids(uuids[1..], SwapRemove(added, j))
  {
    forall a | 0 <= a < |added| && a != j ensures added[a].uuid != added[j].uuid {
      assert (base + added)[|base| + a] == added[a] && (base + added)[|base| + j] == added[j];
    }
    forall i | 0 <= i < |added| - 1 ensures SwapRemove(added, j)[i].uuid in uuids[1..] {
      RestIsListed(added, uuids, j, i);
    }
    forall i | 0 <= i < |uuids[1..]|
      ensures exists k :: 0 <= k < |SwapRemove(added, j)| && SwapRemove(added, j)[k].uuid == uuids[1..][i]
    {
      ListedIsRest(added, uuids, j, i);
    }
  }

  lemma RestIsListed(added: seq<BlockDev>, uuids: seq<DevUuid>, j: nat, i: nat)
    requires uuids != [] && j < |added| && i < |added| - 1 && added[j].uuid == uuids[0]
    requires forall a | 0 <= a < |added| :: added[a].uuid in uuids
    requires forall a | 0 <= a < |added| && a != j :: added[a].uuid != added[j].uuid
    ensures SwapRemove(added, j)[i].uuid in uuids[1..]
  {
  }

  lemma ListedIsRest(added: seq<BlockDev>, uuids: seq<DevUuid>, j: nat, i: nat)
    requires NoDup(uuids) && i + 1 < |uuids| && j < |added| && added[j].uuid == uuids[0]
    requires exists k :: 0 <= k < |added| && added[k].uuid == uuids[i + 1]
    ensures exists k :: 0 <= k < |SwapRemove(added, j)| && SwapRemove(added, j)[k].uuid == uuids[1..][i]
  {
    var k :| 0 <= k < |added| && added[k].uuid == uuids[i + 1];
    var k' := if k == |added| - 1 then j else k;
    assert uuids[0] != uuids[i + 1];
    assert SwapRemove(added, j)[k'] == added[k];
  }

  method Serve(devs: seq<BlockDev>, sizes: seq<Sectors>) returns (cur: seq<BlockDev>, lists: seq<seq<BlkDevSegment>>)
    requires WfDevs(devs) && Total(sizes) <= |FreeList(devs)|
    ensures WfDevs(cur) && SameDevs(devs, cur)
    ensures Served(sizes, lists, FreeList(devs), FreeList(cur))
    ensures forall segs | segs in lists :: SegsOn(cur, segs)
  {
    ghost var free := FreeList(devs);
    lists := [];
    cur := devs;
    for i := 0 to |sizes|
      invariant WfDevs(cur) && SameDevs(devs, cur)
      invariant Served(sizes[..i], lists, free, FreeList(cur))
      invariant forall segs | segs in lists :: SegsOn(devs, segs)
    {
      ServedRoom(sizes, i, lists, free, FreeList(cur));
      var cur', segs := FirstFit(cur, sizes[i]);
      ServedStep(sizes, i, lists, free, FreeList(cur), segs, FreeList(cur'));
      SegsOnSameDevs(cur, devs, segs);
      cur := cur';
      lists := lists + [segs];
    }
    assert sizes[..|sizes|] == sizes;
    forall segs | segs in lists ensures SegsOn(cur, segs) { SegsOnSameDevs(devs, cur, segs); }
  }

  function Concat(lists: seq<seq<BlkDevSegment>>): seq<BlkDevSegment> {
    if lists == [] then [] else lists[0] + Concat(lists[1..])
  }

  lemma {:induction false} ConcatSnoc(lists: seq<seq<BlkDevSegment>>, last: seq<BlkDevSegment>)
    ensures Concat(lists + [last]) == Concat(lists) + last
  {
    if lists == [] {
      assert lists + [last] == [last];
    } else {
      assert (lists + [last])[1..] == lists[1..] + [last];
      ConcatSnoc(lists[1..], last);
    }
  }

  /**
   List `i` has `sizes[i]` sectors; one after the other the lists hold the first
   `Total(sizes)` sectors of `free`, and `rest` is what is left of it.
   */
  ghost predicate Served(sizes: seq<Sectors>, lists: seq<seq<BlkDevSegment>>, free: seq<Loc>, rest: seq<Loc>) {
    && |lists| == |sizes|
    && (forall i | 0 <= i < |sizes| :: |Phys(lists[i])| == sizes[i])
    && Total(sizes) <= |free|
    && Phys(Concat(lists)) == free[..Total(sizes)]
    && rest == free[Total(sizes)..]
  }

  lemma {:induction false} TotalSnoc(sizes: seq<Sectors>, i: nat)
    requires i < |sizes|
    ensures Total(sizes[..i + 1]) == Total(sizes[..i]) + sizes[i]
  {
    if i == 0 {
      assert sizes[..1] == [sizes[0]];
    } else {
      assert sizes[1..][..i] == sizes[..i + 1][1..] && sizes[1..][..i - 1] == sizes[..i][1..];
      TotalSnoc(sizes[1..], i - 1);
    }
  }

  lemma {:induction false} TotalPrefix(sizes: seq<Sectors>, i: nat)
    requires i <= |sizes|
    ensures Total(sizes[..i]) <= Total(sizes)
    decreases |sizes| - i
  {
    if i == |sizes| {
      assert sizes[..i] == sizes;
    } else {
      TotalSnoc(sizes, i);
      TotalPrefix(sizes, i + 1);
    }
  }

  lemma ServedRoom(sizes: seq<Sectors>, i: nat, lists: seq<seq<BlkDevSegment>>, free: seq<Loc>, rest: seq<Loc>)
    requires i < |sizes| && Total(sizes) <= |free| && Served(sizes[..i], lists, free, rest)
    ensures sizes[i] <= |rest|
  {
    TotalSnoc(sizes, i);
    TotalPrefix(sizes, i + 1);
  }

  lemma ServedStep(sizes: seq<Sectors>, i: nat, lists: seq<seq<BlkDevSegment>>, free: seq<Loc>, rest: seq<Loc>,
                   segs: seq<BlkDevSegment>, rest': seq<Loc>)
    requires i < |sizes| && Served(sizes[..i], lists, free, rest) && sizes[i] <= |rest|
    requires Phys(segs) == rest[..sizes[i]] && rest' == rest[sizes[i]..]
    ensures Served(sizes[..i + 1], lists + [segs], free, rest')
  {
    TotalSnoc(sizes, i);
    ConcatSnoc(lists, segs);
    PhysConcat(Concat(lists), segs);
    PopMore(free, Total(sizes[..i]), rest, [], sizes[i]);
  }

  /** First fit for one size: the front of the free list moves into the returned segments. */
  method FirstFit(devs: seq<BlockDev>, needed: Sectors) returns (cur: seq<BlockDev>, segs: seq<BlkDevSegment>)
    requires WfDevs(devs) && needed <= |FreeList(devs)|
    ensures WfDevs(cur) && SameDevs(devs, cur)
    ensures Phys(segs) == FreeList(devs)[..needed]
    ensures FreeList(cur) == FreeList(devs)[needed..]
    ensures SegsOn(devs, segs)
  {
    cur := devs;
    segs := [];
    var alloc: Sectors := 0;
    var i := 0;
    while i < |cur| && alloc != needed
      invariant alloc <= needed && i <= |cur|
      invariant Fitting(devs, cur, i, needed, alloc, segs)
    {
      cur, segs, alloc := FitOn(devs, cur, i, needed, alloc, segs);
      i := i + 1;
    }
    AllocDone(devs, cur, i, alloc, needed, segs);
  }

  /** The state of first fit when the devices before `i` have been visited. */
  ghost predicate Fitting(devs: seq<BlockDev>, cur: seq<BlockDev>, i: nat, needed: nat, alloc: nat, segs: seq<BlkDevSegment>) {
    && WfDevs(cur) && SameDevs(devs, cur) && i <= |cur|
    && Moved(devs, cur, alloc, segs)
    && SegsOn(devs, segs)
    && (alloc == needed || FreeList(cur[..i]) == [])
  }

  /** Take what is still needed from device `i`, or all that it has. */
  method FitOn(ghost devs: seq<BlockDev>, cur: seq<BlockDev>, i: nat, needed: Sectors, alloc: Sectors, segs: seq<BlkDevSegment>)
    returns (cur': seq<BlockDev>, segs': seq<BlkDevSegment>, alloc': Sectors)
    requires i < |cur| && alloc < needed && Fitting(devs, cur, i, needed, alloc, segs)
    ensures |cur'| == |cur| && alloc' <= needed && Fitting(devs, cur', i + 1, needed, alloc', segs')
  {
    var bd, more, sum := RequestSpace(cur[i], needed - alloc);
    FitStep(devs, cur, i, needed, alloc, segs, bd, more, sum);
    cur' := cur[i := bd];
    segs' := segs + more;
    alloc' := alloc + sum;
  }

  lemma FitStep(devs: seq<BlockDev>, cur: seq<BlockDev>, i: nat, needed: nat, alloc: nat, segs: seq<BlkDevSegment>,
                bd: BlockDev, more: seq<BlkDevSegment>, sum: nat)
    requires i < |cur| && alloc < needed && Fitting(devs, cur, i, needed, alloc, segs)
    requires WfDev(bd) && cur[i].(used := bd.used) == bd && sum == Min(needed - alloc, |FreeOf(cur[i])|)
    requires Phys(more) == FreeOf(cur[i])[..sum] && FreeOf(bd) == FreeOf(cur[i])[sum..]
    requires forall s | s in more :: OnDev(s, cur[i])
    ensures Fitting(devs, cur[i := bd], i + 1, needed, alloc + sum, segs + more)
  {
    UpdateKeepsDevs(devs, cur, i, bd);
    MoreOnDevs(devs, cur, i, segs, more);
    AllocStep(devs, cur, i, alloc, segs, bd, more, sum);
  }

  /** `alloc` sectors have moved off the front of the free list of `devs` into `segs`. */
  ghost predicate Moved(devs: seq<BlockDev>, cur: seq<BlockDev>, alloc: nat, segs: seq<BlkDevSegment>) {
    && alloc <= |FreeList(devs)|
    && Phys(segs) == FreeList(devs)[..alloc]
    && FreeList(cur) == FreeList(devs)[alloc..]
  }

  lemma FreeListSplit(devs: seq<BlockDev>, i: nat)
    requires i < |devs|
    ensures FreeList(devs) == FreeList(devs[..i]) + (FreeOf(devs[i]) + FreeList(devs[i + 1..]))
    ensures FreeList(devs[..i + 1]) == FreeList(devs[..i]) + FreeOf(devs[i])
  {
    assert devs == devs[..i] + devs[i..];
    FreeListConcat(devs[..i], devs[i..]);
    assert devs[i..][0] == devs[i] && devs[i..][1..] == devs[i + 1..];
    FreeListSnoc(devs[..i], devs[i], devs[..i + 1]);
  }

  lemma FreeListSnoc(devs: seq<BlockDev>, d: BlockDev, all: seq<BlockDev>)
    requires all == devs + [d]
    ensures FreeList(all) == FreeList(devs) + FreeOf(d)
  {
    FreeListConcat(devs, [d]);
    assert FreeList([d]) == FreeOf(d) + FreeList([]);
  }

  lemma SegsOnSameDevs(a: seq<BlockDev>, b: seq<BlockDev>, segs: seq<BlkDevSegment>)
    requires SegsOn(a, segs) && (SameDevs(a, b) || SameDevs(b, a) || a <= b)
    ensures SegsOn(b, segs)
  {
    forall s | s in segs ensures exists d :: d in b && OnDev(s, d) {
      var d :| d in a && OnDev(s, d);
      var i :| 0 <= i < |a| && a[i] == d;
      assert b[i] in b && OnDev(s, b[i]);
    }
  }

  lemma MoreOnDevs(devs: seq<BlockDev>, cur: seq<BlockDev>, i: nat, segs: seq<BlkDevSegment>, more: seq<BlkDevSegment>)
    requires SegsOn(devs, segs) && SameDevs(devs, cur) && i < |cur|
    requires forall s | s in more :: OnDev(s, cur[i])
    ensures SegsOn(devs, segs + more)
  {
    forall s | s in segs + more ensures exists d :: d in devs && OnDev(s, d) {
      if s in more { assert devs[i] in devs && OnDev(s, devs[i]); }
    }
  }

  lemma UpdateKeepsDevs(devs: seq<BlockDev>, cur: seq<BlockDev>, i: nat, bd: BlockDev)
    requires WfDevs(cur) && SameDevs(devs, cur) && i < |cur|
    requires WfDev(bd) && cur[i].(used := bd.used) == bd
    ensures WfDevs(cur[i := bd]) && SameDevs(devs, cur[i := bd])
  {
  }

  lemma AllocStep(devs: seq<BlockDev>, cur: seq<BlockDev>, i: nat, alloc: nat, segs: seq<BlkDevSegment>,
                  bd: BlockDev, more: seq<BlkDevSegment>, sum: nat)
    requires i < |cur| && Moved(devs, cur, alloc, segs)
    requires FreeList(cur[..i]) == []
    requires sum <= |FreeOf(cur[i])|
    requires Phys(more) == FreeOf(cur[i])[..sum] && FreeOf(bd) == FreeOf(cur[i])[sum..]
    ensures Moved(devs, cur[i := bd], alloc + sum, segs + more)
    ensures sum == |FreeOf(cur[i])| ==> FreeList(cur[i := bd][..i + 1]) == []
  {
    var next := cur[i := bd];
    FreeListSplit(cur, i);
    FreeListSplit(next, i);
    assert next[..i] == cur[..i] && next[i + 1..] == cur[i + 1..];
    PhysConcat(segs, more);
    PopMore(FreeList(devs), alloc, FreeOf(cur[i]), FreeList(cur[i + 1..]), sum);
  }

  /** Popping `sum` more elements off a queue of which `alloc` are already gone. */
  lemma PopMore<T>(all: seq<T>, alloc: nat, front: seq<T>, rest: seq<T>, sum: nat)
    requires alloc <= |all| && sum <= |front|
    requires all[alloc..] == front + rest || (all[alloc..] == front && rest == [])
    ensures alloc + sum <= |all|
    ensures all[..alloc + sum] == all[..alloc] + front[..sum]
    ensures all[alloc + sum..] == front[sum..] + rest
    ensures rest == [] ==> all[alloc + sum..] == front[sum..]
  {
  }

  lemma AllocDone(devs: seq<BlockDev>, cur: seq<BlockDev>, i: nat, alloc: nat, needed: nat, segs: seq<BlkDevSegment>)
    requires Moved(devs, cur, alloc, segs) && alloc <= needed <= |FreeList(devs)|
    requires alloc == needed || (i == |cur| && FreeList(cur[..i]) == [])
    ensures alloc == needed
  {
    assert cur[..|cur|] == cur;
  }

  // ----- consequences of the free list view

  lemma {:induction false} FreeListElem(devs: seq<BlockDev>, l: Loc)
    requires l in FreeList(devs)
    ensures exists i :: 0 <= i < |devs| && l.uuid == devs[i].uuid && l in FreeOf(devs[i])
  {
    if l in FreeOf(devs[0]) {
    } else {
      FreeListElem(devs[1..], l);
      var i :| 0 <= i < |devs[1..]| && l.uuid == devs[1..][i].uuid && l in FreeOf(devs[1..][i]);
      assert devs[i + 1] == devs[1..][i];
    }
  }

  lemma {:induction false} UsableElem(devs: seq<BlockDev>, l: Loc)
    requires forall d | d in devs :: d.metadataSize <= d.size
    ensures l in Usable(devs) <==>
            exists d :: d in devs && l.uuid == d.uuid && l.device == d.device && d.metadataSize <= l.sector < d.size
  {
    if devs != [] {
      var d, rest := devs[0], devs[1..];
      UsableElem(rest, l);
      assert devs == [d] + rest;
      assert l in UsableOf(d) <==> l.uuid == d.uuid && l.device == d.device && d.metadataSize <= l.sector < d.size by {
        if l.uuid == d.uuid && l.device == d.device && d.metadataSize <= l.sector < d.size {
          assert UsableOf(d)[l.sector - d.metadataSize] == l;
        }
      }
    }
  }

  /** Distinct positions of the usable space are distinct sectors of distinct device numbers. */
  lemma {:induction false} UsableInjective(devs: seq<BlockDev>)
    requires WfDevs(devs)
    ensures forall i, j | 0 <= i < j < |Usable(devs)| ::
              Usable(devs)[i].device != Usable(devs)[j].device || Usable(devs)[i].sector != Usable(devs)[j].sector
  {
    if devs != [] {
      var d, rest := devs[0], devs[1..];
      UsableInjective(rest);
      var us := Usable(devs);
      assert us == UsableOf(d) + Usable(rest);
      forall i, j | 0 <= i < j < |us| ensures us[i].device != us[j].device || us[i].sector != us[j].sector {
        if i < |UsableOf(d)| <= j {
          var l := Usable(rest)[j - |UsableOf(d)|];
          assert l in Usable(rest) && us[j] == l;
          UsableElem(rest, l);
        }
      }
    }
  }

  ghost predicate AllTagged(ls: seq<Loc>, u: DevUuid) {
    forall i | 0 <= i < |ls| :: ls[i].uuid == u
  }

  ghost predicate NoneTagged(ls: seq<Loc>, u: DevUuid) {
    forall i | 0 <= i < |ls| :: ls[i].uuid != u
  }

  lemma SplitByTag(a: seq<Loc>, b: seq<Loc>, c: seq<Loc>, d: seq<Loc>, u: DevUuid)
    requires a + b == c + d
    requires AllTagged(a, u) && AllTagged(c, u) && NoneTagged(b, u) && NoneTagged(d, u)
    ensures a == c && b == d
  {
    var s := a + b;
    assert forall i | 0 <= i < |s| :: s[i].uuid == u <==> i < |a|;
    assert forall i | 0 <= i < |s| :: s[i].uuid == u <==> i < |c|;
    var k := Min(|a|, |c|);
    if k < |s| { assert (s[k].uuid == u <==> k < |a|) && (s[k].uuid == u <==> k < |c|); }
    assert a == s[..|a|] && c == s[..|c|] && b == s[|a|..] && d == s[|c|..];
  }

  lemma RestNotTagged(devs: seq<BlockDev>)
    requires WfDevs(devs) && devs != []
    ensures AllTagged(FreeOf(devs[0]), devs[0].uuid) && NoneTagged(FreeList(devs[1..]), devs[0].uuid)
    ensures FreeList(devs) == FreeOf(devs[0]) + FreeList(devs[1..])
  {
    var rest := FreeList(devs[1..]);
    forall i | 0 <= i < |rest| ensures rest[i].uuid != devs[0].uuid {
      FreeListElem(devs[1..], rest[i]);
    }
  }

  /** How popping `n` elements shows on the first device and on the others. */
  lemma PopFirst(devs: seq<BlockDev>, cur: seq<BlockDev>, n: nat)
    requires WfDevs(devs) && WfDevs(cur) && SameDevs(devs, cur) && devs != []
    requires n <= |FreeList(devs)| && FreeList(cur) == FreeList(devs)[n..]
    ensures var first := |FreeOf(devs[0])|;
            if n <= first
            then FreeOf(cur[0]) == FreeOf(devs[0])[n..] && FreeList(cur[1..]) == FreeList(devs[1..])
            else FreeOf(cur[0]) == [] && n - first <= |FreeList(devs[1..])|
                 && FreeList(cur[1..]) == FreeList(devs[1..])[n - first..]
  {
    RestNotTagged(devs);
    RestNotTagged(cur);
    PopTagged(FreeOf(devs[0]), FreeList(devs[1..]), FreeOf(cur[0]), FreeList(cur[1..]), n, devs[0].uuid);
  }

  lemma PopTagged(f: seq<Loc>, r: seq<Loc>, f': seq<Loc>, r': seq<Loc>, n: nat, u: DevUuid)
    requires AllTagged(f, u) && AllTagged(f', u) && NoneTagged(r, u) && NoneTagged(r', u)
    requires n <= |f + r| && f' + r' == (f + r)[n..]
    ensures if n <= |f| then f' == f[n..] && r' == r else f' == [] && r' == r[n - |f|..]
  {
    if n <= |f| {
      assert (f + r)[n..] == f[n..] + r;
      SplitByTag(f', r', f[n..], r, u);
    } else {
      assert (f + r)[n..] == [] + r[n - |f|..];
      SplitByTag(f', r', [], r[n - |f|..], u);
    }
  }

  /**
   First fit: after any allocation, if a device still has room then no device
   after it has been touched.
   */
  lemma {:induction false} FirstFitOrder(devs: seq<BlockDev>, cur: seq<BlockDev>, n: nat, i: nat, j: nat)
    requires WfDevs(devs) && WfDevs(cur) && SameDevs(devs, cur)
    requires n <= |FreeList(devs)| && FreeList(cur) == FreeList(devs)[n..]
    requires i < j < |devs| && FreeOf(cur[i]) != []
    ensures FreeOf(cur[j]) == FreeOf(devs[j])
    decreases i
  {
    PopFirst(devs, cur, n);
    TailDevs(devs, cur);
    if i == 0 {
      Untouched(devs[1..], cur[1..], j - 1);
    } else {
      var first := |FreeOf(devs[0])|;
      FirstFitOrder(devs[1..], cur[1..], if n <= first then 0 else n - first, i - 1, j - 1);
    }
  }

  lemma TailDevs(devs: seq<BlockDev>, cur: seq<BlockDev>)
    requires WfDevs(devs) && WfDevs(cur) && SameDevs(devs, cur) && devs != []
    ensures WfDevs(devs[1..]) && WfDevs(cur[1..]) && SameDevs(devs[1..], cur[1..])
  {
  }

  lemma {:induction false} Untouched(devs: seq<BlockDev>, cur: seq<BlockDev>, j: nat)
    requires WfDevs(devs) && WfDevs(cur) && SameDevs(devs, cur)
    requires FreeList(cur) == FreeList(devs) && j < |devs|
    ensures FreeOf(cur[j]) == FreeOf(devs[j])
  {
    PopFirst(devs, cur, 0);
    TailDevs(devs, cur);
    if j > 0 { Untouched(devs[1..], cur[1..], j - 1); }
  }

  // ----- what is free

  lemma NoDupSplit<T>(a: seq<T>, b: seq<T>)
    requires NoDup(a + b)
    ensures NoDup(a) && NoDup(b) && (forall x :: !(x in a && x in b)) && NoDup(b + a)
  {
    var s := a + b;
    forall i, j | 0 <= i < |a| && 0 <= j < |b| ensures a[i] != b[j] { assert s[i] != s[|a| + j]; }
    forall i, j | 0 <= i < j < |a| ensures a[i] != a[j] { assert s[i] != s[j]; }
    forall i, j | 0 <= i < j < |b| ensures b[i] != b[j] { assert s[|a| + i] != s[|a| + j]; }
  }

  lemma FreeAt(d: BlockDev, x: int)
    ensures Loc(d.uuid, d.device, x) in FreeOf(d) <==> 0 <= x < d.size && !Covers(d.used, x)
  {
    FreeFromElem(d.used, 0, d.size, x);
    var xs := FreeSeq(d.size, d.used);
    if x in xs {
      var i :| 0 <= i < |xs| && xs[i] == x;
      assert FreeOf(d)[i] == Loc(d.uuid, d.device, x);
    }
  }

  lemma {:induction false} FreeListAt(devs: seq<BlockDev>, k: nat, x: int)
    requires Distinct(devs) && k < |devs|
    ensures Loc(devs[k].uuid, devs[k].device, x) in FreeList(devs) <==>
            0 <= x < devs[k].size && !Covers(devs[k].used, x)
    decreases k
  {
    var d, l, rest := devs[k], Loc(devs[k].uuid, devs[k].device, x), devs[1..];
    FreeAt(d, x);
    if k == 0 {
      if l in FreeList(rest) { FreeListElem(rest, l); }
    } else {
      assert rest[k - 1] == d;
      FreeListAt(rest, k - 1, x);
    }
  }

  /** `l` is an unused sector of one of the devices. */
  ghost predicate IsFree(devs: seq<BlockDev>, l: Loc) {
    exists i :: 0 <= i < |devs| && l.uuid == devs[i].uuid && l.device == devs[i].device
                && 0 <= l.sector < devs[i].size && !Covers(devs[i].used, l.sector)
  }

  lemma FreeListIsFree(devs: seq<BlockDev>, l: Loc)
    requires Distinct(devs)
    ensures l in FreeList(devs) <==> IsFree(devs, l)
  {
    if l in FreeList(devs) {
      FreeListElem(devs, l);
      var i :| 0 <= i < |devs| && l.uuid == devs[i].uuid && l in FreeOf(devs[i]);
      FreeListAt(devs, i, l.sector);
    }
    if IsFree(devs, l) {
      var i :| 0 <= i < |devs| && l.uuid == devs[i].uuid && l.device == devs[i].device
               && 0 <= l.sector < devs[i].size && !Covers(devs[i].used, l.sector);
      FreeListAt(devs, i, l.sector);
    }
  }

  /** No sector is on the free list twice. */
  lemma {:induction false} FreeListNoDup(devs: seq<BlockDev>)
    requires WfDevs(devs)
    ensures NoDup(FreeList(devs))
  {
    if devs != [] {
      var d, rest := devs[0], devs[1..];
      FreeListNoDup(rest);
      RestNotTagged(devs);
      FreeFromAscending(d.used, 0, d.size);
      NoDupJoin(FreeOf(d), FreeList(rest), d.uuid);
    }
  }

  lemma NoDupJoin(a: seq<Loc>, b: seq<Loc>, u: DevUuid)
    requires NoDup(a) && NoDup(b) && AllTagged(a, u) && NoneTagged(b, u)
    ensures NoDup(a + b)
  {
  }

  /** The sectors served were free, are free no longer, and none is served twice. */
  lemma ServedDistinct(devs: seq<BlockDev>, devs': seq<BlockDev>, sizes: seq<Sectors>, lists: seq<seq<BlkDevSegment>>)
    requires WfDevs(devs) && WfDevs(devs') && Served(sizes, lists, FreeList(devs), FreeList(devs'))
    ensures NoDup(Phys(Concat(lists)))
    ensures forall l | l in Phys(Concat(lists)) :: IsFree(devs, l) && !IsFree(devs', l)
  {
    FreeListNoDup(devs);
    DistinctSplit(FreeList(devs), Total(sizes));
    forall l | l in Phys(Concat(lists)) ensures IsFree(devs, l) && !IsFree(devs', l) {
      FreeListIsFree(devs, l);
      FreeListIsFree(devs', l);
    }
  }

  lemma DistinctSplit<T>(s: seq<T>, n: nat)
    requires NoDup(s) && n <= |s|
    ensures NoDup(s[..n]) && forall x | x in s[..n] :: x in s && x !in s[n..]
  {
    assert s == s[..n] + s[n..];
    NoDupSplit(s[..n], s[n..]);
  }
}
