/**
 The backstore: a cap device over the data tier, optionally cached.

 Devicemapper calls are the `dm` parameters: how a step ends. The size of a DM device is the size
 of the table last set for it.
 */
module Backstore {
  import opened Prelude
  import opened RangeAlloc
  import opened BlockDevs
  import opened Linear
  import opened Tiers

  datatype CacheDev = CacheDev(meta: Table, cache: Table, origin: Table)
  datatype Chunk = Chunk(start: nat, length: nat)

  datatype CacheState = CacheState(devs: seq<BlockDev>, cache: seq<BlkDevSegment>, meta: seq<BlkDevSegment>)

  /** How a devicemapper step ends: well, before the table is set, or with the table set and the device suspended. */
  datatype Dm = Done | NotSet | NotResumed

  /** The value of a backstore. */
  datatype State = State(
    devs: seq<BlockDev>,
    segments: seq<BlkDevSegment>,
    linear: Option<Table>,
    cache: Option<CacheDev>,
    cacheTier: Option<CacheState>,
    next: nat)
  {
    /** The size of the cap device. */
    function Size(): nat {
      if linear.Some? then TableSize(linear.value)
      else if cache.Some? then TableSize(cache.value.origin)
      else 0
    }

    function With(devs: seq<BlockDev>, segments: seq<BlkDevSegment>): State {
      this.(devs := devs, segments := segments)
    }
  }

  /** What was allocated from the cap device lies in it, and its table holds no more than the segments. */
  ghost predicate CapOk(s: State) {
    (s.linear.None? || s.cache.None?) && s.next <= s.Size() <= |Phys(s.segments)|
  }

  /** The same data devices, with `n` more sectors in the segments. */
  ghost predicate Grew(s: State, n: nat, s': State) {
    SameDevs(s.devs, s'.devs) && |Phys(s'.segments)| == |Phys(s.segments)| + n
  }

  // ----- what the operations do

  /** Every segment of the data tier is in the table of the cap device. */
  function Extended(s: State): State {
    var table := TableFrom(s.segments, 0);
    if s.cache.Some? then s.(cache := Some(s.cache.value.(origin := table)))
    else s.(linear := Some(table))
  }

  /** A device that exists keeps the table set for it even if it cannot be resumed; one that does not exist is not made. */
  function AfterDm(s: State, dm: Dm): State {
    if dm.Done? || (dm.NotResumed? && (s.linear.Some? || s.cache.Some?)) then Extended(s) else s
  }

  lemma ExtendedSize(s: State)
    requires s.cache.None? || s.linear.None?
    ensures Extended(s).Size() == |Phys(s.segments)|
  {
    TableFromSize(s.segments, 0);
  }

  /** Where a chunk must start that comes after the first `i` chunks. */
  ghost function EndOf(cs: seq<Chunk>, i: nat, lo: nat): nat
    requires i <= |cs|
  {
    if i == 0 then lo else cs[i - 1].start + cs[i - 1].length
  }

  /** The chunks have these sizes and follow one another from `lo` to `hi`. */
  ghost predicate ChunksFill(cs: seq<Chunk>, sizes: seq<Sectors>, lo: nat, hi: nat) {
    && |cs| == |sizes|
    && (forall i | 0 <= i < |cs| :: cs[i].length == sizes[i] && cs[i].start == EndOf(cs, i, lo))
    && hi == EndOf(cs, |cs|, lo)
  }

  function Chunks(sizes: seq<Sectors>, next: nat): seq<Chunk> {
    if sizes == [] then [] else [Chunk(next, sizes[0])] + Chunks(sizes[1..], next + sizes[0])
  }

  /** The chunks have exactly the sizes asked for, one after the other from `next`. */
  lemma {:induction false} ChunksExact(sizes: seq<Sectors>, next: nat)
    ensures ChunksFill(Chunks(sizes, next), sizes, next, next + Total(sizes))
    decreases |sizes|
  {
    if sizes != [] {
      var rest, cs := Chunks(sizes[1..], next + sizes[0]), Chunks(sizes, next);
      ChunksExact(sizes[1..], next + sizes[0]);
      forall i | 0 < i <= |cs| ensures EndOf(cs, i, next) == EndOf(rest, i - 1, next + sizes[0]) {
        if i > 1 { assert cs[i - 1] == rest[i - 2]; }
      }
    }
  }

  /** `x` rounded down to a multiple of `m`. */
  function RoundDown(x: nat, m: nat): (r: nat)
    requires m > 0
    ensures r == x / m * m && r <= x && (r == 0 <==> x / m == 0)
  {
    UnitsBound(x, m);
    x / m * m
  }

  datatype AllocResult = Allocated(chunks: seq<Chunk>) | NoSpace | DmFailed

  /** The sectors that an `Alloc` takes from the data tier. */
  function AllocNeed(s: State, sizes: seq<Sectors>): nat
    requires s.next <= s.Size()
  {
    var available := s.Size() - s.next;
    if available < Total(sizes) then Total(sizes) - available else 0
  }

  ghost function AllocResultOf(s: State, sizes: seq<Sectors>, dm: Dm): AllocResult
    requires s.next <= s.Size()
  {
    if AllocNeed(s, sizes) > |FreeList(s.devs)| then NoSpace
    else if AllocNeed(s, sizes) > 0 && !dm.Done? then DmFailed
    else Allocated(Chunks(sizes, s.next))
  }

  /** When an allocation succeeds, and what it returns: stretches of the sizes asked for, from `next` on. */
  lemma AllocExact(s: State, sizes: seq<Sectors>, dm: Dm)
    requires s.next <= s.Size()
    ensures var r, available := AllocResultOf(s, sizes, dm), s.Size() - s.next;
            && (r.NoSpace? <==> Total(sizes) > available + |FreeList(s.devs)|)
            && (r.DmFailed? <==> available < Total(sizes) <= available + |FreeList(s.devs)| && !dm.Done?)
            && (r.Allocated? ==> ChunksFill(r.chunks, sizes, s.next, s.next + Total(sizes)))
  {
    ChunksExact(sizes, s.next);
  }

  /** The state after an `Alloc` that leaves the data tier with `devs` and `segments`. */
  ghost function AllocNext(s: State, sizes: seq<Sectors>, dm: Dm, devs: seq<BlockDev>, segments: seq<BlkDevSegment>): State
    requires s.next <= s.Size()
  {
    match AllocResultOf(s, sizes, dm)
    case NoSpace => s
    case DmFailed => AfterDm(s.With(devs, segments), dm)
    case Allocated(_) =>
      (if AllocNeed(s, sizes) == 0 then s else Extended(s.With(devs, segments))).(next := s.next + Total(sizes))
  }

  /** How the halving loop of a request ends; the request is counted in units of the modulus. */
  datatype LoopEnd = Found(k: nat) | Exhausted | Underflows

  function Halve(k: nat, modulus: nat, available: nat, free: nat): (end: LoopEnd)
    requires modulus > 0
    ensures end.Found? ==> 0 < end.k <= k && 0 <= end.k * modulus - available <= free
  {
    if k == 0 then Exhausted
    else if k * modulus < available then Underflows
    else if k * modulus - available <= free then Found(k)
    else Halve(k / 2, modulus, available, free)
  }

  /** `Underflow` is the subtraction of the loop going below zero. */
  datatype RequestResult = Granted(start: nat, length: nat) | Nothing | DmError | Underflow

  /** What a request for `request` sectors in units of `modulus` amounts to. */
  datatype Plan = Refuse | Slack(length: nat) | Overrun | Extend(need: nat)

  ghost function RequestPlan(s: State, request: nat, modulus: nat): Plan
    requires s.next <= s.Size() && modulus > 0
  {
    var available, units := s.Size() - s.next, RoundDown(request, modulus);
    if units == 0 then Refuse
    else if available >= units then Slack(units)
    else match Halve(request / modulus, modulus, available, |FreeList(s.devs)|)
         case Exhausted => Refuse
         case Underflows => Overrun
         case Found(k) => Extend(k * modulus - available)
  }

  ghost function RequestNeed(s: State, request: nat, modulus: nat): nat
    requires s.next <= s.Size() && modulus > 0
  {
    var plan := RequestPlan(s, request, modulus);
    if plan.Extend? then plan.need else 0
  }

  /** The length granted once the cap device has size `size`. */
  function Grant(request: nat, modulus: nat, size: nat, next: nat): nat
    requires modulus > 0
  {
    if size < next then 0 else RoundDown(Min(request, size - next), modulus)
  }

  datatype Requested = Requested(result: RequestResult, state: State)

  /** The end of a request once the data tier has grown. */
  ghost function Finish(mid: State, request: nat, modulus: nat, dm: Dm): Requested
    requires modulus > 0
  {
    if !dm.Done? then Requested(DmError, AfterDm(mid, dm))
    else
      var amount := Grant(request, modulus, Extended(mid).Size(), mid.next);
      Requested(Granted(mid.next, amount), Extended(mid).(next := mid.next + amount))
  }

  ghost function RequestNext(s: State, request: nat, modulus: nat, dm: Dm,
                             devs: seq<BlockDev>, segments: seq<BlkDevSegment>): Requested
    requires s.next <= s.Size() && modulus > 0
  {
    match RequestPlan(s, request, modulus)
    case Refuse => Requested(Nothing, s)
    case Overrun => Requested(Underflow, s)
    case Slack(length) => Requested(Granted(s.next, length), s.(next := s.next + length))
    case Extend(_) => Finish(s.With(devs, segments), request, modulus, dm)
  }

  /** The cap device becomes the origin of a cache over the devices of `ct`. */
  function Cached(s: State, ct: CacheState): State
    requires s.linear.Some?
  {
    s.(linear := None,
       cache := Some(CacheDev(TableFrom(ct.meta, 0), TableFrom(ct.cache, 0), s.linear.value)),
       cacheTier := Some(ct))
  }

  function CacheTable(s: State, ct: CacheState): State
    requires s.cache.Some?
  {
    s.(cacheTier := Some(ct), cache := Some(s.cache.value.(cache := TableFrom(ct.cache, 0))))
  }

  lemma LoopNext(s: State, request: nat, modulus: nat, dm: Dm, end: LoopEnd,
                 devs: seq<BlockDev>, segments: seq<BlkDevSegment>)
    requires s.next <= s.Size() && modulus > 0 && s.Size() - s.next < RoundDown(request, modulus)
    requires end == Halve(request / modulus, modulus, s.Size() - s.next, |FreeList(s.devs)|)
    ensures RequestNeed(s, request, modulus) == if end.Found? then end.k * modulus - (s.Size() - s.next) else 0
    ensures RequestNext(s, request, modulus, dm, devs, segments) ==
            match end
            case Exhausted => Requested(Nothing, s)
            case Underflows => Requested(Underflow, s)
            case Found(_) => Finish(s.With(devs, segments), request, modulus, dm)
  {
  }

  /** A loop that found an amount, and what follows it. */
  lemma LoopThenFinish(s: State, request: nat, modulus: nat, dm: Dm, end: LoopEnd, mid: State, r: RequestResult, s': State)
    requires s.next <= s.Size() && modulus > 0 && s.Size() - s.next < RoundDown(request, modulus)
    requires end == Halve(request / modulus, modulus, s.Size() - s.next, |FreeList(s.devs)|) && end.Found?
    requires mid == s.With(mid.devs, mid.segments) && Grew(s, end.k * modulus - (s.Size() - s.next), mid)
    requires Requested(r, s') == Finish(mid, request, modulus, dm)
    ensures Requested(r, s') == RequestNext(s, request, modulus, dm, s'.devs, s'.segments)
    ensures Grew(s, RequestNeed(s, request, modulus), s')
  {
    LoopNext(s, request, modulus, dm, end, mid.devs, mid.segments);
  }

  // ----- the class

  class Backstore {
    const dataTier: DataTier
    var cacheTier: CacheTier?
    var linear: Option<Table>
    var cache: Option<CacheDev>
    var next: nat

    ghost predicate Valid()
      reads this, dataTier, dataTier.blockMgr, cacheTier, if cacheTier == null then {} else {cacheTier.blockMgr}
    {
      && dataTier.Valid()
      && (cacheTier != null ==> cacheTier.Valid() && cacheTier.blockMgr != dataTier.blockMgr)
    }

    ghost function Model(): State
      reads this, dataTier, dataTier.blockMgr, cacheTier, if cacheTier == null then {} else {cacheTier.blockMgr}
    {
      State(dataTier.blockMgr.blockDevs, dataTier.segments, linear, cache,
            if cacheTier == null then None
            else Some(CacheState(cacheTier.blockMgr.blockDevs, cacheTier.cacheSegments, cacheTier.metaSegments)),
            next)
    }

    /** Immediately after initialization there is no cap device. */
    constructor (dataTier: DataTier)
      requires dataTier.Valid() && dataTier.segments == []
      ensures Valid() && this.dataTier == dataTier && cacheTier == null
      ensures Model() == State(dataTier.blockMgr.blockDevs, [], None, None, None, 0)
    {
      this.dataTier := dataTier;
      cacheTier, linear, cache, next := null, None, None, 0;
    }

    function Size(): nat reads this {
      if linear.Some? then TableSize(linear.value)
      else if cache.Some? then TableSize(cache.value.origin)
      else 0
    }

    method ExtendCapDevice(dm: Dm) returns (ok: bool)
      requires Valid() && (cache.None? || linear.None?)
      modifies this`linear, this`cache
      ensures Valid() && ok == dm.Done? && Model() == AfterDm(old(Model()), dm)
    {
      var table := MapToDm(dataTier.segments);
      if dm.NotSet? { return false; }
      if cache.Some? {
        cache := Some(cache.value.(origin := table));
      } else if linear.Some? || dm.Done? {
        linear := Some(table);
      }
      return dm.Done?;
    }

    /** Take sectors from the data tier, leaving everything else alone. */
    method TakeFromTier(need: Sectors) returns (ok: bool)
      requires Valid()
      modifies dataTier, dataTier.blockMgr
      ensures Valid()
      ensures Model() == old(Model()).With(dataTier.blockMgr.blockDevs, dataTier.segments)
      ensures ok <==> need <= |FreeList(old(Model()).devs)|
      ensures !ok ==> Model() == old(Model())
      ensures Grew(old(Model()), if ok then need else 0, Model())
    {
      ok := dataTier.Alloc(need);
    }

    method Alloc(sizes: seq<Sectors>, dm: Dm) returns (r: AllocResult)
      requires Valid() && CapOk(Model())
      requires Total(sizes) <= U64_MAX
      modifies this`linear, this`cache, this`next, dataTier, dataTier.blockMgr
      ensures Valid()
      ensures r == AllocResultOf(old(Model()), sizes, dm)
      ensures if r.Allocated? then ChunksFill(r.chunks, sizes, old(next), next) else next == old(next)
      ensures Model() == AllocNext(old(Model()), sizes, dm, dataTier.blockMgr.blockDevs, dataTier.segments)
      ensures Grew(old(Model()), if r.NoSpace? then 0 else AllocNeed(old(Model()), sizes), Model())
    {
      var total, available := Total(sizes), Size() - next;
      if available < total {
        var grown := GrowCap(total - available, dm);
        if grown.None? { return NoSpace; }
        if !grown.value { return DmFailed; }
      }
      var chunks := TakeChunks(sizes);
      return Allocated(chunks);
    }

    /** Take sectors from the data tier and extend the cap device over them; none if there are too few. */
    method GrowCap(need: Sectors, dm: Dm) returns (ok: Option<bool>)
      requires Valid() && CapOk(Model())
      modifies this`linear, this`cache, dataTier, dataTier.blockMgr
      ensures Valid() && (ok.Some? <==> need <= |FreeList(old(Model()).devs)|)
      ensures ok.None? ==> Model() == old(Model())
      ensures ok.Some? ==>
                && ok.value == dm.Done?
                && Model() == AfterDm(old(Model()).With(dataTier.blockMgr.blockDevs, dataTier.segments), dm)
      ensures Grew(old(Model()), if ok.Some? then need else 0, Model())
    {
      var taken := TakeFromTier(need);
      if !taken { return None; }
      var extended := ExtendCapDevice(dm);
      return Some(extended);
    }

    /** Hand out consecutive stretches of the cap device. */
    method TakeChunks(sizes: seq<Sectors>) returns (chunks: seq<Chunk>)
      modifies this`next
      ensures chunks == Chunks(sizes, old(next)) && ChunksFill(chunks, sizes, old(next), next)
      ensures Model() == old(Model()).(next := old(next) + Total(sizes))
    {
      chunks, next := CutChunks(sizes, next);
    }

    method Request(request: Sectors, modulus: Sectors, dm: Dm) returns (r: RequestResult)
      requires Valid() && CapOk(Model())
      requires modulus != 0
      modifies this`linear, this`cache, this`next, dataTier, dataTier.blockMgr
      ensures Valid()
      ensures Requested(r, Model()) == RequestNext(old(Model()), request, modulus, dm, dataTier.blockMgr.blockDevs, dataTier.segments)
      ensures Grew(old(Model()), RequestNeed(old(Model()), request, modulus), Model())
    {
      var internal := RoundDown(request, modulus);
      if internal == 0 { return Nothing; }
      var available := Size() - next;
      if available >= internal {
        next := next + internal;
        return Granted(next - internal, internal);
      }
      r := RequestMore(request, modulus, dm);
    }

    /** A request for more than is left in the cap device. */
    method RequestMore(request: Sectors, modulus: Sectors, dm: Dm) returns (r: RequestResult)
      requires Valid() && CapOk(Model())
      requires modulus != 0 && Size() - next < RoundDown(request, modulus)
      modifies this`linear, this`cache, this`next, dataTier, dataTier.blockMgr
      ensures Valid()
      ensures Requested(r, Model()) == RequestNext(old(Model()), request, modulus, dm, dataTier.blockMgr.blockDevs, dataTier.segments)
      ensures Grew(old(Model()), RequestNeed(old(Model()), request, modulus), Model())
    {
      ghost var s := Model();
      var end := LoopFrom(request, modulus, Size() - next);
      ghost var mid := Model();
      if !end.Found? {
        r := if end.Exhausted? then Nothing else Underflow;
        LoopNext(s, request, modulus, dm, end, mid.devs, mid.segments);
        return;
      }
      r := ExtendAndGrant(request, modulus, dm);
      LoopThenFinish(s, request, modulus, dm, end, mid, r, Model());
    }

    /** The loop, starting from the request rounded down. */
    method LoopFrom(request: Sectors, modulus: Sectors, available: nat) returns (end: LoopEnd)
      requires Valid() && modulus != 0
      modifies dataTier, dataTier.blockMgr
      ensures Valid() && end == Halve(request / modulus, modulus, available, |FreeList(old(Model()).devs)|)
      ensures Model() == old(Model()).With(dataTier.blockMgr.blockDevs, dataTier.segments)
      ensures Grew(old(Model()), if end.Found? then end.k * modulus - available else 0, Model())
      ensures !end.Found? ==> Model() == old(Model())
    {
      end := HalvingLoop(RoundDown(request, modulus), modulus, available, request / modulus);
    }

    method ExtendAndGrant(request: Sectors, modulus: Sectors, dm: Dm) returns (r: RequestResult)
      requires Valid() && (cache.None? || linear.None?) && modulus != 0
      modifies this`linear, this`cache, this`next
      ensures Valid() && Requested(r, Model()) == Finish(old(Model()), request, modulus, dm)
      ensures Grew(old(Model()), 0, Model())
    {
      var ok := ExtendCapDevice(dm);
      if !ok { return DmError; }
      var amount := Grant(request, modulus, Size(), next);
      next := next + amount;
      return Granted(next - amount, amount);
    }

    /** Try ever smaller amounts until one can be allocated. */
    method HalvingLoop(first: Sectors, modulus: Sectors, available: nat, ghost k0: nat) returns (end: LoopEnd)
      requires Valid() && modulus != 0 && first == k0 * modulus
      modifies dataTier, dataTier.blockMgr
      ensures Valid() && end == Halve(k0, modulus, available, |FreeList(old(Model()).devs)|)
      ensures Model() == old(Model()).With(dataTier.blockMgr.blockDevs, dataTier.segments)
      ensures Grew(old(Model()), if end.Found? then end.k * modulus - available else 0, Model())
      ensures !end.Found? ==> Model() == old(Model())
    {
      ghost var s := Model();
      ghost var k: nat := k0;
      var internal := first;
      while internal != 0
        invariant Valid() && Model() == s
        invariant internal == k * modulus
        invariant Halve(k, modulus, available, |FreeList(s.devs)|) == Halve(k0, modulus, available, |FreeList(s.devs)|)
        decreases internal
      {
        UnitsPositive(k, modulus);
        if internal < available { return Underflows; }
        var done := TakeFromTier(internal - available);
        if done {
          DivUnique(internal, k, modulus);
          return Found(internal / modulus);
        }
        HalfUnits(k, modulus);
        internal := internal / 2 / modulus * modulus;
        k := k / 2;
      }
      UnitsPositive(k, modulus);
      return Exhausted;
    }

    method AddDatadevs(devs: Option<seq<BlockDev>>) returns (ok: bool)
      requires Valid() && (devs.Some? ==> WfDevs(dataTier.blockMgr.blockDevs + devs.value) && AllNew(devs.value))
      modifies dataTier.blockMgr
      ensures Valid() && ok == devs.Some?
      ensures Model() == if ok then old(Model()).(devs := old(Model()).devs + devs.value) else old(Model())
    {
      ok := dataTier.Add(devs);
    }

    /**
     Turn the cap device into a cached device. If the devicemapper fails the linear device
     has already been given up.
     */
    method InitCache(devs: seq<BlockDev>, made: bool) returns (ok: bool)
      requires Valid() && cacheTier == null && cache.None? && linear.Some?
      requires WfDevs(devs) && AllNew(devs) && (devs != [] ==> META_SPACE < |Usable(devs)|)
      modifies this
      ensures Valid()
      ensures ok <==> devs != [] && |Usable(devs)| - META_SPACE <= MAX_CACHE_SIZE && made
      ensures ok ==> && Model().cacheTier.Some? && SameDevs(devs, Model().cacheTier.value.devs)
                     && Model() == Cached(old(Model()), Model().cacheTier.value)
      ensures !ok ==> Model() == if devs == [] || |Usable(devs)| - META_SPACE > MAX_CACHE_SIZE then old(Model())
                                 else old(Model()).(linear := None)
    {
      if devs == [] { return false; }
      var mgr := new BlockDevMgr(devs);
      var tier := CacheTier.New(mgr);
      if tier == null { return false; }
      var origin := linear.value;
      linear := None;
      if !made { return false; }
      var meta := MapToDm(tier.metaSegments);
      var sub := MapToDm(tier.cacheSegments);
      cache := Some(CacheDev(meta, sub, origin));
      cacheTier := tier;
      return true;
    }

    method AddCachedevs(devs: Option<seq<BlockDev>>, wiped: bool, dm: Dm) returns (ok: bool)
      requires Valid() && cacheTier != null && cache.Some?
      requires devs.Some? ==> WfDevs(cacheTier.blockMgr.blockDevs + devs.value) && AllNew(devs.value)
      modifies this`cache, cacheTier, cacheTier.blockMgr
      ensures Valid() && cacheTier == old(cacheTier)
      ensures devs.None? || |Usable(devs.value)| + |Phys(old(cacheTier.cacheSegments))| > MAX_CACHE_SIZE ==>
                !ok && Model() == old(Model())
      ensures devs.Some? && |Usable(devs.value)| + |Phys(old(cacheTier.cacheSegments))| <= MAX_CACHE_SIZE ==>
                && ok == dm.Done?
                && SameDevs(old(cacheTier.blockMgr.blockDevs) + devs.value, cacheTier.blockMgr.blockDevs)
                && cacheTier.metaSegments == old(cacheTier.metaSegments)
                && Phys(cacheTier.cacheSegments) == Phys(old(cacheTier.cacheSegments)) + Usable(devs.value)
                && Model() == if dm.NotSet? then old(Model()).(cacheTier := Model().cacheTier)
                              else CacheTable(old(Model()), Model().cacheTier.value)
    {
      ok := cacheTier.Add(devs, wiped);
      if ok {
        if dm.NotSet? { return false; }
        var table := MapToDm(cacheTier.cacheSegments);
        cache := Some(cache.value.(cache := table));
        return dm.Done?;
      }
    }
  }

  /** The loop that hands out one stretch after the other. */
  method CutChunks(sizes: seq<Sectors>, from: nat) returns (chunks: seq<Chunk>, next: nat)
    ensures chunks == Chunks(sizes, from) && next == from + Total(sizes) && ChunksFill(chunks, sizes, from, next)
  {
    chunks, next := [], from;
    for i := 0 to |sizes|
      invariant ChunksFill(chunks, sizes[..i], from, next)
    {
      FillStep(chunks, sizes, i, from, next);
      chunks := chunks + [Chunk(next, sizes[i])];
      next := next + sizes[i];
    }
    assert sizes[..|sizes|] == sizes;
    FillIsChunks(chunks, sizes, from, next);
  }

  lemma FillStep(cs: seq<Chunk>, sizes: seq<Sectors>, i: nat, lo: nat, hi: nat)
    requires i < |sizes| && ChunksFill(cs, sizes[..i], lo, hi)
    ensures ChunksFill(cs + [Chunk(hi, sizes[i])], sizes[..i + 1], lo, hi + sizes[i])
  {
    var cs' := cs + [Chunk(hi, sizes[i])];
    assert |cs| == i && cs'[i] == Chunk(hi, sizes[i]) && sizes[..i + 1][i] == sizes[i];
    forall j | 0 <= j < |cs'|
      ensures cs'[j].length == sizes[..i + 1][j] && cs'[j].start == EndOf(cs', j, lo)
    {
      assert EndOf(cs', j, lo) == EndOf(cs, j, lo);
      if j < i { assert cs'[j] == cs[j] && sizes[..i + 1][j] == sizes[..i][j]; }
    }
  }

  lemma {:induction false} FillAt(a: seq<Chunk>, b: seq<Chunk>, sizes: seq<Sectors>, lo: nat, hi: nat, hi': nat, i: nat)
    requires ChunksFill(a, sizes, lo, hi) && ChunksFill(b, sizes, lo, hi') && i < |sizes|
    ensures a[i] == b[i]
  {
    if i > 0 { FillAt(a, b, sizes, lo, hi, hi', i - 1); }
    assert EndOf(a, i, lo) == EndOf(b, i, lo);
  }

  /** There is only one way to fill. */
  lemma FillIsChunks(cs: seq<Chunk>, sizes: seq<Sectors>, lo: nat, hi: nat)
    requires ChunksFill(cs, sizes, lo, hi)
    ensures cs == Chunks(sizes, lo) && hi == lo + Total(sizes)
  {
    ChunksExact(sizes, lo);
    forall i | 0 <= i < |sizes| ensures cs[i] == Chunks(sizes, lo)[i] {
      FillAt(cs, Chunks(sizes, lo), sizes, lo, hi, lo + Total(sizes), i);
    }
  }

  // ----- arithmetic of the halving loop

  lemma UnitsBound(request: nat, modulus: nat)
    requires modulus > 0
    ensures request / modulus * modulus <= request
    ensures request / modulus * modulus == 0 <==> request / modulus == 0
  {
  }

  lemma UnitsPositive(k: nat, modulus: nat)
    requires modulus > 0
    ensures k * modulus == 0 <==> k == 0
    ensures k > 0 ==> k * modulus >= modulus
  {
  }

  lemma HalfBounds(k: nat, modulus: nat)
    ensures 2 * (k / 2 * modulus) <= k * modulus <= 2 * (k / 2 * modulus) + modulus
  {
    var q, r := k / 2, k % 2;
    assert k == 2 * q + r;
    assert k * modulus == 2 * (q * modulus) + r * modulus;
    assert r * modulus == if r == 0 then 0 else modulus;
  }

  /** Halving a multiple of the modulus and rounding down halves the multiplier. */
  lemma HalfUnits(k: nat, modulus: nat)
    requires modulus > 0
    ensures k * modulus / 2 / modulus == k / 2
    ensures k > 0 ==> k / 2 * modulus < k * modulus
  {
    HalfBounds(k, modulus);
    DivUnique(k * modulus / 2, k / 2, modulus);
    UnitsPositive(k, modulus);
  }
}
