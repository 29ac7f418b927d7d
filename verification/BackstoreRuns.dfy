/** Whole runs of a backstore whose devicemapper steps succeed. */
module BackstoreRuns {
  import opened Prelude
  import opened RangeAlloc
  import opened BlockDevs
  import opened Linear
  import opened Tiers
  import opened Backstore

  datatype Op =
    | DoAlloc(sizes: seq<Sectors>)
    | DoRequest(request: nat, modulus: nat)
    | DoAddData(devs: seq<BlockDev>)
    | DoInitCache(devs: seq<BlockDev>)
    | DoAddCache(devs: seq<BlockDev>)

  /** `n` sectors are taken from the data tier as an allocation takes them. */
  ghost predicate TakesFromTier(s: State, n: nat, s': State) {
    && TierAlloc(s.devs, s.segments, n, true, s'.devs, s'.segments)
    && WfDevs(s'.devs) && SegsOn(s'.devs, s'.segments)
  }

  ghost predicate AllocStep(s: State, sizes: seq<Sectors>, s': State) {
    && CapOk(s)
    && s' == AllocNext(s, sizes, Done, s'.devs, s'.segments)
    && TakesFromTier(s, if AllocResultOf(s, sizes, Done).NoSpace? then 0 else AllocNeed(s, sizes), s')
  }

  ghost predicate RequestStep(s: State, request: nat, modulus: nat, s': State) {
    && CapOk(s) && modulus > 0
    && s' == RequestNext(s, request, modulus, Done, s'.devs, s'.segments).state
    && TakesFromTier(s, RequestNeed(s, request, modulus), s')
  }

  ghost predicate AddDataStep(s: State, devs: seq<BlockDev>, s': State) {
    && WfDevs(s.devs + devs) && AllNew(devs)
    && s' == s.(devs := s.devs + devs)
  }

  ghost predicate CacheTierOk(ct: CacheState) {
    CacheInv(ct.devs, ct.cache, ct.meta)
  }

  /** Newly initialized devices for a cache, each large enough. */
  ghost predicate ForCache(devs: seq<BlockDev>) {
    WfDevs(devs) && AllNew(devs) && (devs != [] ==> META_SPACE < |Usable(devs)|)
  }

  /** There are devices and the cache that they make is not too big. */
  ghost predicate Cacheable(devs: seq<BlockDev>)
    requires ForCache(devs)
  {
    devs != [] && |Usable(devs)| - META_SPACE <= MAX_CACHE_SIZE
  }

  ghost predicate InitCacheStep(s: State, devs: seq<BlockDev>, s': State) {
    && ForCache(devs) && s.cacheTier.None?
    && if Cacheable(devs)
       then && s.cache.None? && s.linear.Some? && s'.cacheTier.Some? && CacheTierOk(s'.cacheTier.value)
            && SameDevs(devs, s'.cacheTier.value.devs) && s' == Cached(s, s'.cacheTier.value)
       else s' == s
  }

  ghost predicate AddCacheStep(s: State, devs: seq<BlockDev>, s': State) {
    && s.cacheTier.Some? && s.cache.Some?
    && (s' == s || (s'.cacheTier.Some? && CacheTierOk(s'.cacheTier.value)
                    && SameDevs(s.cacheTier.value.devs + devs, s'.cacheTier.value.devs)
                    && s'.cacheTier.value.meta == s.cacheTier.value.meta
                    && s' == CacheTable(s, s'.cacheTier.value)))
  }

  ghost predicate Step(s: State, op: Op, s': State) {
    match op
    case DoAlloc(sizes) => AllocStep(s, sizes, s')
    case DoRequest(request, modulus) => RequestStep(s, request, modulus, s')
    case DoAddData(devs) => AddDataStep(s, devs, s')
    case DoInitCache(devs) => InitCacheStep(s, devs, s')
    case DoAddCache(devs) => AddCacheStep(s, devs, s')
  }

  // ----- the invariant

  /** The table of the cap device holds the segments of the data tier. */
  ghost predicate CapHolds(s: State) {
    && (s.linear.None? || s.cache.None?)
    && (s.linear.Some? ==> s.linear.value == TableFrom(s.segments, 0))
    && (s.cache.Some? ==> s.cache.value.origin == TableFrom(s.segments, 0))
    && (s.linear.None? && s.cache.None? ==> Phys(s.segments) == [])
  }

  ghost predicate CacheHolds(s: State) {
    && (s.cache.Some? <==> s.cacheTier.Some?)
    && (s.cacheTier.Some? ==>
          && CacheTierOk(s.cacheTier.value)
          && s.cache.value.meta == TableFrom(s.cacheTier.value.meta, 0)
          && s.cache.value.cache == TableFrom(s.cacheTier.value.cache, 0))
  }

  ghost predicate Inv(s: State) {
    && DataInv(s.devs, s.segments)
    && CapHolds(s)
    && CacheHolds(s)
    && s.next == |Phys(s.segments)|
  }

  /** In a state that satisfies the invariant the cap device has no slack. */
  lemma NoSlack(s: State)
    requires CapHolds(s) && s.next == |Phys(s.segments)|
    ensures s.Size() == s.next && CapOk(s)
  {
    TableFromSize(s.segments, 0);
  }

  lemma InitInv(devs: seq<BlockDev>)
    requires WfDevs(devs) && AllNew(devs)
    ensures Inv(State(devs, [], None, None, None, 0))
  {
    NewDevsFree(devs);
  }

  /** Growing the tier by `n` and extending the cap device over it. */
  lemma GrowKeepsInv(s: State, n: nat, devs: seq<BlockDev>, segments: seq<BlkDevSegment>)
    requires Inv(s)
    requires TierAlloc(s.devs, s.segments, n, true, devs, segments) && WfDevs(devs) && SegsOn(devs, segments)
    ensures Inv(Extended(s.With(devs, segments)).(next := s.next + n))
    ensures Phys(s.segments) <= Phys(segments)
  {
    TierAllocKeeps(s.devs, s.segments, n, true, devs, segments);
  }

  lemma AllocKeepsInv(s: State, sizes: seq<Sectors>, s': State)
    requires Inv(s) && AllocStep(s, sizes, s')
    ensures Inv(s') && Phys(s.segments) <= Phys(s'.segments)
  {
    NoSlack(s);
    if AllocNeed(s, sizes) > 0 && !AllocResultOf(s, sizes, Done).NoSpace? {
      GrowKeepsInv(s, AllocNeed(s, sizes), s'.devs, s'.segments);
    }
  }

  /** Without slack the loop either finds an amount or runs out: it cannot underflow. */
  lemma {:induction false} HalveNoSlack(k: nat, modulus: nat, free: nat)
    requires modulus > 0
    ensures !Halve(k, modulus, 0, free).Underflows?
    ensures Halve(k, modulus, 0, free).Exhausted? <==> k == 0 || free < modulus
    ensures Halve(k, modulus, 0, free).Found? ==>
              var n := Halve(k, modulus, 0, free).k; n == k || free < 2 * (n * modulus) + modulus
    decreases k
  {
    UnitsPositive(k, modulus);
    if k > 0 && k * modulus > free {
      HalveNoSlack(k / 2, modulus, free);
      HalfBounds(k, modulus);
    }
  }

  /** What the request amounts to when there is no slack. */
  lemma PlanNoSlack(s: State, request: nat, modulus: nat)
    requires s.Size() == s.next && modulus > 0
    ensures var plan, free := RequestPlan(s, request, modulus), |FreeList(s.devs)|;
            if request < modulus || free < modulus then plan.Refuse?
            else
              && plan.Extend? && 0 < plan.need <= free && plan.need <= request
              && plan.need % modulus == 0
              && (plan.need == RoundDown(request, modulus) || free < 2 * plan.need + modulus)
  {
    var k, free := request / modulus, |FreeList(s.devs)|;
    SmallQuotient(request, modulus);
    HalveNoSlack(k, modulus, free);
    var end := Halve(k, modulus, 0, free);
    if end.Found? {
      MulLe(end.k, k, modulus);
      MultipleMod(end.k, modulus);
      UnitsPositive(end.k, modulus);
    }
  }

  lemma SmallQuotient(x: nat, m: nat)
    requires m > 0
    ensures x / m == 0 <==> x < m
  {
  }

  lemma MultipleMod(k: nat, m: nat)
    requires m > 0
    ensures k * m % m == 0
  {
    DivUnique(k * m, k, m);
    assert k * m == k * m / m * m + k * m % m;
  }

  lemma GrantExact(request: nat, modulus: nat, next: nat, need: nat)
    requires modulus > 0 && need <= request && need % modulus == 0
    ensures Grant(request, modulus, next + need, next) == need
  {
  }

  lemma RequestKeepsInv(s: State, request: nat, modulus: nat, s': State)
    requires Inv(s) && RequestStep(s, request, modulus, s')
    ensures Inv(s') && Phys(s.segments) <= Phys(s'.segments)
  {
    NoSlack(s);
    PlanNoSlack(s, request, modulus);
    var plan := RequestPlan(s, request, modulus);
    if plan.Extend? {
      GrowKeepsInv(s, plan.need, s'.devs, s'.segments);
      GrantedInFull(s, request, modulus, s', plan.need);
    }
  }

  /** Every step keeps the invariant and only appends to the logical to physical map. */
  lemma StepKeepsInv(s: State, op: Op, s': State)
    requires Inv(s) && Step(s, op, s')
    ensures Inv(s') && Phys(s.segments) <= Phys(s'.segments)
  {
    match op {
      case DoAlloc(sizes) => AllocKeepsInv(s, sizes, s');
      case DoRequest(request, modulus) => RequestKeepsInv(s, request, modulus, s');
      case DoAddData(devs) => AddKeeps(s.devs, s.segments, devs);
      case DoInitCache(devs) =>
      case DoAddCache(devs) =>
    }
  }

  lemma OneMore(states: seq<State>, n: nat)
    requires 0 < n < |states|
    requires forall m | 0 <= m <= n - 1 :: Phys(states[m].segments) <= Phys(states[n - 1].segments)
    requires Phys(states[n - 1].segments) <= Phys(states[n].segments)
    ensures forall m | 0 <= m <= n :: Phys(states[m].segments) <= Phys(states[n].segments)
  {
  }

  ghost predicate IsRun(states: seq<State>, ops: seq<Op>) {
    && |states| == |ops| + 1
    && (forall i | 0 <= i < |ops| :: Step(states[i], ops[i], states[i + 1]))
  }

  /** In every run from a freshly initialized backstore. */
  lemma {:induction false} RunKeepsInv(states: seq<State>, ops: seq<Op>, n: nat)
    requires IsRun(states, ops) && n < |states|
    requires Inv(states[0])
    ensures Inv(states[n])
    ensures forall m | 0 <= m <= n :: Phys(states[m].segments) <= Phys(states[n].segments)
    decreases n
  {
    if n > 0 {
      RunKeepsInv(states, ops, n - 1);
      var before, after := states[n - 1], states[n];
      assert Step(before, ops[n - 1], states[n - 1 + 1]);
      StepKeepsInv(before, ops[n - 1], after);
      OneMore(states, n);
    }
  }

  // ----- what the invariant means

  ghost predicate HasCap(s: State) { s.linear.Some? || s.cache.Some? }

  ghost function CapTable(s: State): Table
    requires HasCap(s)
  {
    if s.linear.Some? then s.linear.value else s.cache.value.origin
  }

  /**
   Logical sector `x` of the cap device is the `x`-th usable sector of the data devices,
   for every `x` that was handed out, and nothing else is mapped.
   */
  lemma CapMapping(s: State, x: int, device: Device, sector: int)
    requires Inv(s) && HasCap(s)
    ensures s.next <= |Usable(s.devs)|
    ensures MapsTo(CapTable(s), x, device, sector) <==>
            0 <= x < s.next && Usable(s.devs)[x].device == device && Usable(s.devs)[x].sector == sector
  {
    TableFromMaps(s.segments, 0, x, device, sector);
    var phys, us := Phys(s.segments), Usable(s.devs);
    assert us == phys + FreeList(s.devs);
    if 0 <= x < |phys| { assert us[x] == phys[x]; }
  }

  /** No two logical sectors share a physical one, and none is outside its device or in its metadata. */
  lemma CapMapIsSafe(s: State, x: int, y: int, device: Device, sector: int)
    requires Inv(s) && HasCap(s)
    requires MapsTo(CapTable(s), x, device, sector)
    ensures MapsTo(CapTable(s), y, device, sector) ==> x == y
    ensures exists d :: d in s.devs && d.device == device && d.metadataSize <= sector < d.size
  {
    CapMapping(s, x, device, sector);
    CapMapping(s, y, device, sector);
    UsableInjective(s.devs);
    var l := Usable(s.devs)[x];
    assert l in Usable(s.devs);
    UsableElem(s.devs, l);
  }

  /** Once a logical sector is mapped it stays mapped to the same physical sector for the rest of the run. */
  lemma MappedSectorsNeverMove(states: seq<State>, ops: seq<Op>, m: nat, n: nat, x: int, device: Device, sector: int)
    requires IsRun(states, ops) && Inv(states[0]) && m <= n < |states|
    requires HasCap(states[m]) && MapsTo(CapTable(states[m]), x, device, sector)
    ensures HasCap(states[n]) && MapsTo(CapTable(states[n]), x, device, sector)
  {
    RunKeepsInv(states, ops, m);
    RunKeepsInv(states, ops, n);
    StillMapped(states[m], states[n], x, device, sector);
  }

  lemma StillMapped(s: State, s': State, x: int, device: Device, sector: int)
    requires CapHolds(s) && CapHolds(s') && Phys(s.segments) <= Phys(s'.segments)
    requires HasCap(s) && MapsTo(CapTable(s), x, device, sector)
    ensures HasCap(s') && MapsTo(CapTable(s'), x, device, sector)
  {
    TableFromMaps(s.segments, 0, x, device, sector);
    TableFromMaps(s'.segments, 0, x, device, sector);
  }

  /** What is available in the backstore is exactly the free space of its devices. */
  lemma AvailableInBackstore(s: State)
    requires Inv(s)
    ensures Size(s.devs) - MetadataSize(s.devs) - s.next == AvailSpace(s.devs)
  {
    UsableLength(s.devs);
  }

  /** The outcome of a request in a state without slack, for every request and modulus. */
  lemma RequestExact(s: State, request: nat, modulus: nat, s': State)
    requires Inv(s) && RequestStep(s, request, modulus, s')
    ensures var r, free := RequestNext(s, request, modulus, Done, s'.devs, s'.segments).result, |FreeList(s.devs)|;
            if request < modulus || free < modulus then r == Nothing && s' == s
            else
              && r.Granted? && r.start == s.next && s'.next == s.next + r.length
              && 0 < r.length <= request && r.length % modulus == 0
              && (r.length == RoundDown(request, modulus) || free < 2 * r.length + modulus)
              && |FreeList(s'.devs)| == free - r.length
  {
    NoSlack(s);
    PlanNoSlack(s, request, modulus);
    var plan := RequestPlan(s, request, modulus);
    if plan.Extend? { GrantedInFull(s, request, modulus, s', plan.need); }
  }

  lemma GrantedInFull(s: State, request: nat, modulus: nat, s': State, need: nat)
    requires RequestStep(s, request, modulus, s') && s.next == |Phys(s.segments)|
    requires RequestPlan(s, request, modulus) == Extend(need) && 0 < need <= request && need % modulus == 0
    ensures RequestNext(s, request, modulus, Done, s'.devs, s'.segments) == Requested(Granted(s.next, need), s')
    ensures s' == Extended(s.With(s'.devs, s'.segments)).(next := s.next + need)
    ensures |FreeList(s'.devs)| == |FreeList(s.devs)| - need
  {
    ExtendedSize(s.With(s'.devs, s'.segments));
    GrantExact(request, modulus, s.next, need);
  }

  // ----- the methods of the class take exactly these steps

  lemma GrewIsTaken(s: State, n: nat, s': State)
    requires DataInv(s.devs, s.segments) && DataInv(s'.devs, s'.segments)
    requires Grew(s, n, s') && n <= |FreeList(s.devs)|
    ensures TakesFromTier(s, n, s')
  {
    SameUsable(s.devs, s'.devs);
    SplitLater(Phys(s.segments), FreeList(s.devs), Phys(s'.segments), FreeList(s'.devs), n);
  }

  lemma SplitLater<T>(a: seq<T>, b: seq<T>, c: seq<T>, d: seq<T>, n: nat)
    requires a + b == c + d && |c| == |a| + n && n <= |b|
    ensures c == a + b[..n] && d == b[n..]
  {
    assert c == (c + d)[..|c|] && d == (c + d)[|c|..];
    assert (a + b)[..|a| + n] == a + b[..n] && (a + b)[|a| + n..] == b[n..];
  }

  method AllocInRun(b: Backstore, sizes: seq<Sectors>) returns (r: AllocResult)
    requires b.Valid() && Inv(b.Model()) && Total(sizes) <= U64_MAX
    modifies b`linear, b`cache, b`next, b.dataTier, b.dataTier.blockMgr
    ensures b.Valid() && Step(old(b.Model()), DoAlloc(sizes), b.Model()) && Inv(b.Model())
    ensures r == NoSpace <==> Total(sizes) > |FreeList(old(b.Model()).devs)|
    ensures r != DmFailed
    ensures if r.Allocated? then ChunksFill(r.chunks, sizes, old(b.Model()).next, b.Model().next) else b.Model() == old(b.Model())
  {
    ghost var s := b.Model();
    NoSlack(s);
    r := b.Alloc(sizes, Done);
    ghost var need := if r.NoSpace? then 0 else AllocNeed(s, sizes);
    GrewIsTaken(s, need, b.Model());
    StepKeepsInv(s, DoAlloc(sizes), b.Model());
  }

  method RequestInRun(b: Backstore, request: Sectors, modulus: Sectors) returns (r: RequestResult)
    requires b.Valid() && Inv(b.Model()) && modulus != 0
    modifies b`linear, b`cache, b`next, b.dataTier, b.dataTier.blockMgr
    ensures b.Valid() && Step(old(b.Model()), DoRequest(request, modulus), b.Model()) && Inv(b.Model())
    ensures r == Nothing || r.Granted?
  {
    ghost var s := b.Model();
    NoSlack(s);
    PlanNoSlack(s, request, modulus);
    r := b.Request(request, modulus, Done);
    GrewIsTaken(s, RequestNeed(s, request, modulus), b.Model());
    StepKeepsInv(s, DoRequest(request, modulus), b.Model());
  }

  method AddDatadevsInRun(b: Backstore, devs: Option<seq<BlockDev>>) returns (ok: bool)
    requires b.Valid() && Inv(b.Model()) && (devs.Some? ==> WfDevs(b.Model().devs + devs.value) && AllNew(devs.value))
    modifies b.dataTier.blockMgr
    ensures b.Valid() && Inv(b.Model()) && ok == devs.Some?
    ensures if ok then Step(old(b.Model()), DoAddData(devs.value), b.Model()) else b.Model() == old(b.Model())
  {
    ghost var s := b.Model();
    ok := b.AddDatadevs(devs);
    if ok { StepKeepsInv(s, DoAddData(devs.value), b.Model()); }
  }

  method InitCacheInRun(b: Backstore, devs: seq<BlockDev>) returns (ok: bool)
    requires b.Valid() && Inv(b.Model()) && b.cacheTier == null && b.linear.Some?
    requires ForCache(devs)
    modifies b
    ensures b.Valid() && Step(old(b.Model()), DoInitCache(devs), b.Model()) && Inv(b.Model())
    ensures ok <==> Cacheable(devs)
    ensures ok <==> b.Model().cacheTier.Some?
  {
    ghost var s := b.Model();
    ok := b.InitCache(devs, true);
    StepKeepsInv(s, DoInitCache(devs), b.Model());
  }

  method AddCachedevsInRun(b: Backstore, devs: Option<seq<BlockDev>>, wiped: bool) returns (ok: bool)
    requires b.Valid() && Inv(b.Model()) && b.cacheTier != null
    requires devs.Some? ==> WfDevs(b.cacheTier.blockMgr.blockDevs + devs.value) && AllNew(devs.value)
    modifies b`cache, b.cacheTier, b.cacheTier.blockMgr
    ensures b.Valid() && Inv(b.Model())
    ensures if ok then devs.Some? && Step(old(b.Model()), DoAddCache(devs.value), b.Model()) else b.Model() == old(b.Model())
  {
    ghost var s := b.Model();
    ok := b.AddCachedevs(devs, wiped, Done);
    if ok { StepKeepsInv(s, DoAddCache(devs.value), b.Model()); }
  }
}
