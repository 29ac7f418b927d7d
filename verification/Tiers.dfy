/** The data tier and the cache tier of a backstore. */
module Tiers {
  import opened Prelude
  import opened RangeAlloc
  import opened BlockDevs
  import opened Linear

  const MAX_CACHE_SIZE: int := 0x10_0000_0000  // 32 TiB in sectors
  const META_SPACE: Sectors := 0x10_0000       // 1 Mi sectors

  /**
   The sectors mapped so far followed by the sectors still free are the usable sectors of
   the devices, in device order and lowest first: nothing is lost, mapped twice or moved.
   */
  ghost predicate DataInv(devs: seq<BlockDev>, segments: seq<BlkDevSegment>) {
    && WfDevs(devs)
    && SegsOn(devs, segments)
    && Phys(segments) + FreeList(devs) == Usable(devs)
  }

  /** What allocating `request` sectors from the data tier does to its devices and segments. */
  ghost predicate TierAlloc(devs: seq<BlockDev>, segs: seq<BlkDevSegment>, request: nat, ok: bool,
                            devs': seq<BlockDev>, segs': seq<BlkDevSegment>) {
    && (ok <==> request <= |FreeList(devs)|)
    && SameDevs(devs, devs')
    && (if ok
        then Phys(segs') == Phys(segs) + FreeList(devs)[..request] && FreeList(devs') == FreeList(devs)[request..]
        else devs' == devs && segs' == segs)
  }

  lemma {:induction false} SameUsable(a: seq<BlockDev>, b: seq<BlockDev>)
    requires WfDevs(a) && WfDevs(b) && SameDevs(a, b)
    ensures Usable(a) == Usable(b)
  {
    if a != [] {
      TailDevs(a, b);
      SameUsable(a[1..], b[1..]);
    }
  }

  lemma TierAllocKeeps(devs: seq<BlockDev>, segs: seq<BlkDevSegment>, request: nat, ok: bool,
                       devs': seq<BlockDev>, segs': seq<BlkDevSegment>)
    requires DataInv(devs, segs) && WfDevs(devs') && SegsOn(devs', segs')
    requires TierAlloc(devs, segs, request, ok, devs', segs')
    ensures DataInv(devs', segs') && Usable(devs') == Usable(devs)
  {
    SameUsable(devs, devs');
    if ok {
      var free := FreeList(devs);
      assert free == free[..request] + free[request..];
      Assoc(Phys(segs), free[..request], free[request..]);
    }
  }

  lemma AddKeeps(devs: seq<BlockDev>, segs: seq<BlkDevSegment>, added: seq<BlockDev>)
    requires DataInv(devs, segs) && WfDevs(devs + added) && AllNew(added)
    ensures DataInv(devs + added, segs)
    ensures Usable(devs + added) == Usable(devs) + Usable(added)
    ensures FreeList(devs + added) == FreeList(devs) + Usable(added)
  {
    NewDevsFree(added);
    FreeListConcat(devs, added);
    UsableConcat(devs, added);
    Assoc(Phys(segs), FreeList(devs), Usable(added));
    SegsOnSameDevs(devs, devs + added, segs);
  }

  class DataTier {
    const blockMgr: BlockDevMgr
    var segments: seq<BlkDevSegment>

    ghost predicate Valid() reads this, blockMgr { DataInv(blockMgr.blockDevs, segments) }

    /** Initially no segment is allocated. */
    constructor (blockMgr: BlockDevMgr)
      requires blockMgr.Valid() && AllNew(blockMgr.blockDevs)
      ensures Valid() && this.blockMgr == blockMgr && segments == []
    {
      this.blockMgr := blockMgr;
      segments := [];
      NewDevsFree(blockMgr.blockDevs);
    }

    /** Add newly initialized devices; none if initializing them fails. */
    method Add(devs: Option<seq<BlockDev>>) returns (ok: bool)
      requires Valid() && (devs.Some? ==> WfDevs(blockMgr.blockDevs + devs.value) && AllNew(devs.value))
      modifies blockMgr
      ensures Valid() && ok == devs.Some?
      ensures blockMgr.blockDevs == if ok then old(blockMgr.blockDevs) + devs.value else old(blockMgr.blockDevs)
    {
      if devs.Some? { AddKeeps(blockMgr.blockDevs, segments, devs.value); }
      ok := blockMgr.Add(devs);
    }

    method Alloc(request: Sectors) returns (ok: bool)
      requires Valid()
      modifies this, blockMgr
      ensures Valid()
      ensures TierAlloc(old(blockMgr.blockDevs), old(segments), request, ok, blockMgr.blockDevs, segments)
    {
      ghost var devs, segs := blockMgr.blockDevs, segments;
      var more := AllocOne(blockMgr, request);
      ok := more.Some?;
      if ok {
        SegsOnSameDevs(devs, blockMgr.blockDevs, segs);
        CoalesceOn(blockMgr.blockDevs, segments, more.value);
        CoalescePhys(segments, more.value);
        segments := Coalesce(segments, more.value);
      }
      TierAllocKeeps(devs, segs, request, ok, blockMgr.blockDevs, segments);
    }
  }

  /** One size, its segments in one list. */
  method AllocOne(mgr: BlockDevMgr, request: Sectors) returns (more: Option<seq<BlkDevSegment>>)
    requires mgr.Valid()
    modifies mgr
    ensures mgr.Valid() && SameDevs(old(mgr.blockDevs), mgr.blockDevs)
    ensures more.Some? <==> request <= |FreeList(old(mgr.blockDevs))|
    ensures more.Some? ==>
              && SegsOn(mgr.blockDevs, more.value)
              && Phys(more.value) == FreeList(old(mgr.blockDevs))[..request]
              && FreeList(mgr.blockDevs) == FreeList(old(mgr.blockDevs))[request..]
    ensures more.None? ==> mgr.blockDevs == old(mgr.blockDevs)
  {
    assert Total([request]) == request;
    var r := mgr.AllocSpace([request]);
    if r.None? { return None; }
    OneList(r.value, request, old(mgr.blockDevs), mgr.blockDevs);
    return Some(Concat(r.value));
  }

  lemma OneList(lists: seq<seq<BlkDevSegment>>, request: Sectors, devs: seq<BlockDev>, devs': seq<BlockDev>)
    requires Served([request], lists, FreeList(devs), FreeList(devs'))
    requires forall segs | segs in lists :: SegsOn(devs', segs)
    ensures SegsOn(devs', Concat(lists))
    ensures request <= |FreeList(devs)| && Phys(Concat(lists)) == FreeList(devs)[..request]
    ensures FreeList(devs') == FreeList(devs)[request..]
  {
    assert Total([request]) == request;
    assert lists == [lists[0]] && Concat(lists) == lists[0] + Concat([]);
    assert lists[0] in lists;
  }

  // ----- the cache tier

  ghost predicate CacheInv(devs: seq<BlockDev>, cache: seq<BlkDevSegment>, meta: seq<BlkDevSegment>) {
    && WfDevs(devs) && devs != []
    && SegsOn(devs, cache) && SegsOn(devs, meta)
    && FreeList(devs) == []
    && Phys(meta) + Phys(cache) == Usable(devs)
    && |Phys(meta)| == META_SPACE
    && |Phys(cache)| <= MAX_CACHE_SIZE
  }

  function Uuids(devs: seq<BlockDev>): (us: seq<DevUuid>)
    ensures |us| == |devs| && forall i | 0 <= i < |devs| :: us[i] == devs[i].uuid
  {
    seq(|devs|, i requires 0 <= i < |devs| => devs[i].uuid)
  }

  class CacheTier {
    const blockMgr: BlockDevMgr
    var cacheSegments: seq<BlkDevSegment>
    var metaSegments: seq<BlkDevSegment>

    ghost predicate Valid() reads this, blockMgr {
      CacheInv(blockMgr.blockDevs, cacheSegments, metaSegments)
    }

    constructor Of(blockMgr: BlockDevMgr, cacheSegments: seq<BlkDevSegment>, metaSegments: seq<BlkDevSegment>)
      requires CacheInv(blockMgr.blockDevs, cacheSegments, metaSegments)
      ensures Valid() && this.blockMgr == blockMgr
      ensures this.cacheSegments == cacheSegments && this.metaSegments == metaSegments
    {
      this.blockMgr := blockMgr;
      this.cacheSegments := cacheSegments;
      this.metaSegments := metaSegments;
    }

    /** Null is the error of a cache sub-device that would be too big. */
    static method New(blockMgr: BlockDevMgr) returns (tier: CacheTier?)
      requires blockMgr.Valid() && AllNew(blockMgr.blockDevs)
      requires META_SPACE < |Usable(blockMgr.blockDevs)|
      modifies blockMgr
      ensures tier != null <==> |Usable(old(blockMgr.blockDevs))| - META_SPACE <= MAX_CACHE_SIZE
      ensures tier != null ==> fresh(tier) && tier.blockMgr == blockMgr && tier.Valid()
      ensures SameDevs(old(blockMgr.blockDevs), blockMgr.blockDevs)
      ensures tier == null ==> blockMgr.blockDevs == old(blockMgr.blockDevs)
    {
      ghost var devs := blockMgr.blockDevs;
      NewDevsFree(devs);
      var avail := AvailSpace(blockMgr.blockDevs);
      if avail - META_SPACE > MAX_CACHE_SIZE { return null; }
      var r := blockMgr.AllocSpace([META_SPACE, avail - META_SPACE]);
      CacheSplit(devs, blockMgr.blockDevs, r);
      tier := new CacheTier.Of(blockMgr, r.value[1], r.value[0]);
    }

    /** All the new space goes to the cache sub-device, or nothing at all changes. */
    method Add(devs: Option<seq<BlockDev>>, wiped: bool) returns (ok: bool)
      requires Valid() && (devs.Some? ==> WfDevs(blockMgr.blockDevs + devs.value) && AllNew(devs.value))
      modifies this, blockMgr
      ensures Valid() && metaSegments == old(metaSegments)
      ensures ok <==> devs.Some? && |Usable(devs.value)| + |Phys(old(cacheSegments))| <= MAX_CACHE_SIZE
      ensures ok ==> SameDevs(old(blockMgr.blockDevs) + devs.value, blockMgr.blockDevs)
      ensures ok ==> Phys(cacheSegments) == Phys(old(cacheSegments)) + Usable(devs.value)
      ensures !ok ==> blockMgr.blockDevs == old(blockMgr.blockDevs) && cacheSegments == old(cacheSegments)
    {
      ghost var base := blockMgr.blockDevs;
      ok := blockMgr.Add(devs);
      if !ok { return false; }
      var uuids := Uuids(devs.value);
      AddedFree(base, devs.value);
      var avail := AvailSpace(blockMgr.blockDevs);
      if avail + SegmentsLength(cacheSegments) > MAX_CACHE_SIZE {
        UuidsListed(base, devs.value);
        RemoveAppended(base, devs.value, uuids);
        var removal := blockMgr.RemoveBlockdevs(uuids, wiped);
        assert !removal.NotFound?;
        return false;
      }
      TakeAdded(avail, base, devs.value);
      return true;
    }

    /** Give the cache sub-device all that newly added devices have. */
    method TakeAdded(avail: Sectors, ghost base: seq<BlockDev>, ghost added: seq<BlockDev>)
      requires CacheInv(base, cacheSegments, metaSegments) && WfDevs(base + added) && AllNew(added)
      requires blockMgr.blockDevs == base + added && FreeList(base + added) == Usable(added)
      requires avail == |Usable(added)| && avail + |Phys(cacheSegments)| <= MAX_CACHE_SIZE
      modifies this, blockMgr
      ensures Valid() && metaSegments == old(metaSegments)
      ensures SameDevs(base + added, blockMgr.blockDevs)
      ensures Phys(cacheSegments) == Phys(old(cacheSegments)) + Usable(added)
    {
      var more := AllocOne(blockMgr, avail);
      CacheGrow(base, added, blockMgr.blockDevs, cacheSegments, metaSegments, more.value);
      cacheSegments := Coalesce(cacheSegments, more.value);
    }
  }

  lemma CacheSplit(devs: seq<BlockDev>, devs': seq<BlockDev>, r: Option<seq<seq<BlkDevSegment>>>)
    requires WfDevs(devs) && AllNew(devs) && WfDevs(devs') && SameDevs(devs, devs')
    requires META_SPACE < |Usable(devs)| <= META_SPACE + MAX_CACHE_SIZE
    requires FreeList(devs) == Usable(devs)
    requires var sizes := [META_SPACE, |Usable(devs)| - META_SPACE];
             && (r.Some? <==> Total(sizes) <= |FreeList(devs)|)
             && (r.Some? ==> Served(sizes, r.value, FreeList(devs), FreeList(devs')))
    requires r.Some? ==> forall segs | segs in r.value :: SegsOn(devs', segs)
    ensures r.Some? && |r.value| == 2
    ensures CacheInv(devs', r.value[1], r.value[0])
  {
    var us := Usable(devs);
    var sizes: seq<Sectors> := [META_SPACE, |us| - META_SPACE];
    TotalOfTwo(sizes);
    var lists := r.value;
    ConcatOfTwo(lists);
    PhysConcat(lists[0], lists[1]);
    SameUsable(devs, devs');
    assert |Phys(lists[0])| == sizes[0] && |Phys(lists[1])| == sizes[1];
    assert us[..|us|] == us && us[|us|..] == [];
  }

  lemma TotalOfTwo(sizes: seq<Sectors>)
    requires |sizes| == 2
    ensures Total(sizes) == sizes[0] as int + sizes[1] as int
  {
    assert sizes[1..] == [sizes[1]] && Total(sizes[1..]) == sizes[1] + Total([]);
  }

  lemma ConcatOfTwo(lists: seq<seq<BlkDevSegment>>)
    requires |lists| == 2
    ensures Concat(lists) == lists[0] + lists[1] && lists[0] in lists && lists[1] in lists
  {
    assert lists[1..] == [lists[1]] && Concat(lists[1..]) == lists[1] + Concat([]);
  }

  lemma AddedFree(base: seq<BlockDev>, added: seq<BlockDev>)
    requires WfDevs(base + added) && AllNew(added) && FreeList(base) == []
    ensures FreeList(base + added) == Usable(added)
  {
    NewDevsFree(added);
    FreeListConcat(base, added);
  }

  lemma UuidsListed(base: seq<BlockDev>, added: seq<BlockDev>)
    requires WfDevs(base + added)
    ensures ListsUuids(Uuids(added), added)
  {
    var us := Uuids(added);
    TailDistinct(base, added);
    forall i | 0 <= i < |added| ensures added[i].uuid in us { assert us[i] == added[i].uuid; }
    forall i | 0 <= i < |us| ensures exists j :: 0 <= j < |added| && added[j].uuid == us[i] {
      assert added[i].uuid == us[i];
    }
  }

  lemma TailDistinct(base: seq<BlockDev>, added: seq<BlockDev>)
    requires Distinct(base + added)
    ensures forall i, j | 0 <= i < j < |added| :: added[i].uuid != added[j].uuid
  {
    var all := base + added;
    forall i, j | 0 <= i < j < |added| ensures added[i].uuid != added[j].uuid {
      assert all[|base| + i] == added[i] && all[|base| + j] == added[j];
    }
  }

  lemma CacheGrow(base: seq<BlockDev>, added: seq<BlockDev>, devs: seq<BlockDev>,
                  cache: seq<BlkDevSegment>, meta: seq<BlkDevSegment>, more: seq<BlkDevSegment>)
    requires CacheInv(base, cache, meta) && WfDevs(base + added) && AllNew(added)
    requires WfDevs(devs) && SameDevs(base + added, devs) && SegsOn(devs, more)
    requires FreeList(base + added) == Usable(added)
    requires |Usable(added)| + |Phys(cache)| <= MAX_CACHE_SIZE
    requires Phys(more) == Usable(added)[..|Usable(added)|] && FreeList(devs) == Usable(added)[|Usable(added)|..]
    ensures Coalescable(cache, more)
    ensures CacheInv(devs, Coalesce(cache, more), meta)
    ensures Phys(Coalesce(cache, more)) == Phys(cache) + Usable(added)
  {
    CarrySegs(base, added, devs, cache);
    CarrySegs(base, added, devs, meta);
    CoalesceOn(devs, cache, more);
    CoalescePhys(cache, more);
    GrownUsable(base, added, devs, Phys(meta), Phys(cache));
    var us := Usable(added);
    assert us[..|us|] == us && us[|us|..] == [];
  }

  lemma CarrySegs(base: seq<BlockDev>, added: seq<BlockDev>, devs: seq<BlockDev>, segs: seq<BlkDevSegment>)
    requires SegsOn(base, segs) && SameDevs(base + added, devs)
    ensures SegsOn(devs, segs)
  {
    SegsOnSameDevs(base, base + added, segs);
    SegsOnSameDevs(base + added, devs, segs);
  }

  lemma GrownUsable(base: seq<BlockDev>, added: seq<BlockDev>, devs: seq<BlockDev>, meta: seq<Loc>, cache: seq<Loc>)
    requires WfDevs(base + added) && WfDevs(base) && AllNew(added) && WfDevs(devs) && SameDevs(base + added, devs)
    requires meta + cache == Usable(base)
    ensures meta + (cache + Usable(added)) == Usable(devs)
  {
    UsableConcat(base, added);
    SameUsable(base + added, devs);
    Assoc(meta, cache, Usable(added));
  }
}
