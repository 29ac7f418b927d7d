/** Runs of a backstore whose devicemapper steps may fail, and what slack in the cap device can do. */
module BackstoreFailures {
  import opened Prelude
  import opened RangeAlloc
  import opened BlockDevs
  import opened Linear
  import opened Tiers
  import opened Backstore
  import opened BackstoreRuns

  // ----- runs with failures

  /** An operation, and how its devicemapper step ends. */
  datatype Attempt = Attempt(op: Op, dm: Dm)

  ghost predicate AllocTry(s: State, sizes: seq<Sectors>, dm: Dm, s': State) {
    && CapOk(s)
    && s' == AllocNext(s, sizes, dm, s'.devs, s'.segments)
    && TakesFromTier(s, if AllocResultOf(s, sizes, dm).NoSpace? then 0 else AllocNeed(s, sizes), s')
  }

  ghost predicate RequestDone(s: State, request: nat, modulus: nat, dm: Dm, s': State) {
    && CapOk(s) && modulus > 0
    && s' == RequestNext(s, request, modulus, dm, s'.devs, s'.segments).state
    && TakesFromTier(s, RequestNeed(s, request, modulus), s')
  }

  /** A request for less than a unit returns before it looks at the cap device. */
  ghost predicate RequestTry(s: State, request: nat, modulus: nat, dm: Dm, s': State) {
    modulus > 0 && if request < modulus then s' == s else RequestDone(s, request, modulus, dm, s')
  }

  /** A cache that cannot be made costs the linear device, which has been given up by then. */
  ghost predicate InitCacheTry(s: State, devs: seq<BlockDev>, dm: Dm, s': State) {
    && ForCache(devs) && s.cacheTier.None?
    && if Cacheable(devs) && !dm.Done? then s.cache.None? && s.linear.Some? && s' == s.(linear := None)
       else InitCacheStep(s, devs, s')
  }

  /** If the table is not set, the cache tier has grown and the cache device has not. */
  ghost predicate AddCacheTry(s: State, devs: seq<BlockDev>, dm: Dm, s': State) {
    if !dm.NotSet? then AddCacheStep(s, devs, s')
    else
      && s.cacheTier.Some? && s.cache.Some?
      && (s' == s || (s'.cacheTier.Some? && CacheTierOk(s'.cacheTier.value)
                      && SameDevs(s.cacheTier.value.devs + devs, s'.cacheTier.value.devs)
                      && s'.cacheTier.value.meta == s.cacheTier.value.meta
                      && s' == s.(cacheTier := s'.cacheTier)))
  }

  ghost predicate Try(s: State, a: Attempt, s': State) {
    match a.op
    case DoAlloc(sizes) => AllocTry(s, sizes, a.dm, s')
    case DoRequest(request, modulus) => RequestTry(s, request, modulus, a.dm, s')
    case DoAddData(devs) => AddDataStep(s, devs, s')
    case DoInitCache(devs) => InitCacheTry(s, devs, a.dm, s')
    case DoAddCache(devs) => AddCacheTry(s, devs, a.dm, s')
  }

  /** The one failure that costs the cap device: a cache that could be made, and is not. */
  ghost predicate Loses(a: Attempt) {
    a.op.DoInitCache? && !a.dm.Done? && ForCache(a.op.devs) && Cacheable(a.op.devs)
  }

  ghost predicate CacheShape(s: State) {
    && (s.linear.None? || s.cache.None?)
    && (s.cache.Some? <==> s.cacheTier.Some?)
    && (s.cacheTier.Some? ==> CacheTierOk(s.cacheTier.value))
  }

  /** The table of the cap device denotes the first of the mapped sectors, as many as it has. */
  ghost predicate CapPrefix(s: State) {
    && s.next <= s.Size() <= |Phys(s.segments)|
    && (HasCap(s) ==> Denotes(CapTable(s), Phys(s.segments)[..s.Size()]))
  }

  /** There is a cap device only if something was handed out of it. */
  ghost predicate Used(s: State) {
    HasCap(s) ==> s.next > 0
  }

  /** What every operation keeps, unless the cap device is lost. */
  ghost predicate Sound(s: State) {
    DataInv(s.devs, s.segments) && CacheShape(s) && CapPrefix(s)
  }

  /** The mapped sectors only grow, and so does the cap device, which never disappears. */
  ghost predicate Grows(s: State, s': State) {
    && Phys(s.segments) <= Phys(s'.segments)
    && s.Size() <= s'.Size()
    && (HasCap(s) ==> HasCap(s'))
  }

  lemma InvIsSound(s: State)
    requires Inv(s)
    ensures Sound(s)
  {
    NoSlack(s);
    TableDenotes(s.segments);
    assert Phys(s.segments)[..s.next] == Phys(s.segments);
  }

  lemma ExtendedPrefix(s: State, next: nat)
    requires s.linear.None? || s.cache.None?
    requires next <= |Phys(s.segments)|
    ensures CapPrefix(Extended(s).(next := next)) && HasCap(Extended(s)) && Extended(s).Size() == |Phys(s.segments)|
  {
    ExtendedSize(s);
    TableDenotes(s.segments);
    assert Phys(s.segments)[..|Phys(s.segments)|] == Phys(s.segments);
  }

  /** The same table is still right when the tier has grown. */
  lemma KeptPrefix(s: State, devs: seq<BlockDev>, segments: seq<BlkDevSegment>, next: nat)
    requires CapPrefix(s) && Phys(s.segments) <= Phys(segments) && next <= s.Size()
    ensures CapPrefix(s.(devs := devs, segments := segments, next := next))
  {
    SamePrefix(Phys(s.segments), Phys(segments), s.Size());
  }

  lemma SamePrefix<T>(a: seq<T>, b: seq<T>, n: nat)
    requires a <= b && n <= |a|
    ensures a[..n] == b[..n]
  {
  }

  /** What growing the tier gives. */
  lemma TierGrows(s: State, n: nat, s': State)
    requires DataInv(s.devs, s.segments) && TakesFromTier(s, n, s')
    ensures DataInv(s'.devs, s'.segments)
    ensures Phys(s.segments) <= Phys(s'.segments) && |Phys(s'.segments)| == |Phys(s.segments)| + n
    ensures |FreeList(s'.devs)| == |FreeList(s.devs)| - n
  {
    TierAllocKeeps(s.devs, s.segments, n, true, s'.devs, s'.segments);
  }

  /** What a devicemapper step that fails makes of a tier that has grown. */
  lemma AfterDmPrefix(s: State, devs: seq<BlockDev>, segments: seq<BlkDevSegment>, dm: Dm)
    requires (s.linear.None? || s.cache.None?) && CapPrefix(s) && Phys(s.segments) <= Phys(segments)
    ensures var s' := AfterDm(s.With(devs, segments), dm);
            && CapPrefix(s') && s.Size() <= s'.Size() && s'.next == s.next
            && (HasCap(s) ==> HasCap(s')) && (dm.NotSet? ==> s'.Size() == s.Size())
            && (dm.NotResumed? ==> s'.Size() == (if HasCap(s) then |Phys(segments)| else 0) && HasCap(s') == HasCap(s))
  {
    ExtendedPrefix(s.With(devs, segments), s.next);
    KeptPrefix(s, devs, segments, s.next);
  }

  lemma AllocTrySound(s: State, sizes: seq<Sectors>, dm: Dm, s': State)
    requires Sound(s) && AllocTry(s, sizes, dm, s')
    ensures Sound(s') && Grows(s, s') && (Used(s) ==> Used(s'))
  {
    var result, need := AllocResultOf(s, sizes, dm), AllocNeed(s, sizes);
    TierGrows(s, if result.NoSpace? then 0 else need, s');
    if need > 0 && result.Allocated? {
      ExtendedPrefix(s.With(s'.devs, s'.segments), s.next + Total(sizes));
    } else if result.DmFailed? {
      AfterDmPrefix(s, s'.devs, s'.segments, dm);
    } else {
      KeptPrefix(s, s.devs, s.segments, s'.next);
    }
  }

  lemma GrantFits(request: nat, modulus: nat, size: nat, next: nat)
    requires modulus > 0 && next <= size
    ensures next + Grant(request, modulus, size, next) <= size
    ensures modulus <= request && next + modulus <= size ==> Grant(request, modulus, size, next) > 0
  {
    if modulus <= request && next + modulus <= size { SmallQuotient(Min(request, size - next), modulus); }
  }

  /** A request that extends the cap device asks for at least one unit, and extends it by as much. */
  lemma ExtendsByUnits(s: State, request: nat, modulus: nat, need: nat)
    requires s.next <= s.Size() && modulus > 0 && RequestPlan(s, request, modulus) == Extend(need)
    ensures modulus <= request && s.next + modulus <= s.Size() + need
  {
    var k := Halve(request / modulus, modulus, s.Size() - s.next, |FreeList(s.devs)|).k;
    SmallQuotient(request, modulus);
    UnitsPositive(k, modulus);
  }

  lemma RequestDoneSound(s: State, request: nat, modulus: nat, dm: Dm, s': State)
    requires Sound(s) && RequestDone(s, request, modulus, dm, s')
    ensures Sound(s') && Grows(s, s') && (Used(s) ==> Used(s'))
  {
    TierGrows(s, RequestNeed(s, request, modulus), s');
    match RequestPlan(s, request, modulus) {
      case Refuse =>
      case Overrun =>
      case Slack(length) => KeptPrefix(s, s.devs, s.segments, s'.next);
      case Extend(need) =>
        var mid := s.With(s'.devs, s'.segments);
        if dm.Done? {
          ExtendedSize(mid);
          ExtendsByUnits(s, request, modulus, need);
          GrantFits(request, modulus, |Phys(mid.segments)|, s.next);
          ExtendedPrefix(mid, s'.next);
        } else {
          AfterDmPrefix(s, s'.devs, s'.segments, dm);
        }
    }
  }

  lemma RequestTrySound(s: State, request: nat, modulus: nat, dm: Dm, s': State)
    requires Sound(s) && RequestTry(s, request, modulus, dm, s')
    ensures Sound(s') && Grows(s, s') && (Used(s) ==> Used(s'))
  {
    if request >= modulus { RequestDoneSound(s, request, modulus, dm, s'); }
  }

  lemma DoneIsTry(s: State, request: nat, modulus: nat, dm: Dm, s': State)
    requires RequestDone(s, request, modulus, dm, s')
    ensures RequestTry(s, request, modulus, dm, s')
  {
    SmallQuotient(request, modulus);
  }

  /** Every attempt but the one that loses the cap device keeps it sound and only appends. */
  lemma TrySound(s: State, a: Attempt, s': State)
    requires Sound(s) && Try(s, a, s') && !Loses(a)
    ensures Sound(s') && Grows(s, s') && (Used(s) ==> Used(s'))
  {
    match a.op {
      case DoAlloc(sizes) => AllocTrySound(s, sizes, a.dm, s');
      case DoRequest(request, modulus) => RequestTrySound(s, request, modulus, a.dm, s');
      case DoAddData(devs) => AddDataSound(s, devs, s');
      case DoInitCache(devs) => InitCacheTrySound(s, devs, a.dm, s');
      case DoAddCache(devs) => AddCacheTrySound(s, devs, a.dm, s');
    }
  }

  lemma AddDataSound(s: State, devs: seq<BlockDev>, s': State)
    requires Sound(s) && AddDataStep(s, devs, s')
    ensures Sound(s') && Grows(s, s') && (Used(s) ==> Used(s'))
  {
    AddKeeps(s.devs, s.segments, devs);
  }

  lemma InitCacheTrySound(s: State, devs: seq<BlockDev>, dm: Dm, s': State)
    requires Sound(s) && InitCacheTry(s, devs, dm, s') && (dm.Done? || !Cacheable(devs))
    ensures Sound(s') && Grows(s, s') && (Used(s) ==> Used(s'))
  {
  }

  lemma AddCacheTrySound(s: State, devs: seq<BlockDev>, dm: Dm, s': State)
    requires Sound(s) && AddCacheTry(s, devs, dm, s')
    ensures Sound(s') && Grows(s, s') && (Used(s) ==> Used(s'))
  {
  }

  // ----- losing the cap device

  /** The tier is in order, but what was handed out of the cap device lies in none. */
  ghost predicate Lost(s: State) {
    && DataInv(s.devs, s.segments)
    && s.linear.None? && s.cache.None? && s.cacheTier.None?
    && 0 < s.next <= |Phys(s.segments)|
  }

  /** A cache that cannot be made leaves a sound state exactly if nothing was handed out, and always loses what was mapped. */
  lemma LosingIsSoundIff(s: State, a: Attempt, s': State)
    requires Sound(s) && Try(s, a, s') && Loses(a)
    ensures Sound(s') <==> s.next == 0
    ensures CapOk(s') <==> s.next == 0
    ensures Lost(s') <==> s.next > 0
    ensures !Grows(s, s')
  {
  }

  /** A call that returns before it needs the cap device. */
  ghost predicate Idle(a: Attempt) {
    || (a.op.DoRequest? && a.op.request < a.op.modulus)
    || (a.op.DoInitCache? && ForCache(a.op.devs) && !Cacheable(a.op.devs))
  }

  /**
   Once lost, always lost: data devices can be added, which does not help; calls that return early
   change nothing; every other call fails an assertion.
   */
  lemma LostStaysLost(s: State, a: Attempt, s': State)
    requires Lost(s) && Try(s, a, s')
    ensures Lost(s') && (a.op.DoAddData? || (Idle(a) && s' == s))
  {
    if a.op.DoAddData? { AddKeeps(s.devs, s.segments, a.op.devs); }
  }

  // ----- whole runs

  ghost predicate IsTrial(states: seq<State>, attempts: seq<Attempt>) {
    && |states| == |attempts| + 1
    && (forall i | 0 <= i < |attempts| :: Try(states[i], attempts[i], states[i + 1]))
  }

  /** None of the first `n` attempts loses the cap device. */
  ghost predicate NoLoss(attempts: seq<Attempt>, n: nat)
    requires n <= |attempts|
  {
    forall i | 0 <= i < n :: !Loses(attempts[i])
  }

  ghost predicate Live(s: State) {
    Sound(s) && Used(s)
  }

  /** A freshly initialized backstore is live. */
  lemma InitLive(devs: seq<BlockDev>)
    requires WfDevs(devs) && AllNew(devs)
    ensures Live(State(devs, [], None, None, None, 0))
  {
    InitInv(devs);
    InvIsSound(State(devs, [], None, None, None, 0));
  }

  lemma LiveStep(s: State, a: Attempt, s': State)
    requires Live(s) && Try(s, a, s')
    ensures if Loses(a) then Lost(s') else Live(s')
  {
    if Loses(a) { LosingIsSoundIff(s, a, s'); } else { TrySound(s, a, s'); }
  }

  lemma LostIsNotSound(s: State)
    requires Lost(s)
    ensures !Sound(s) && !CapOk(s)
  {
  }

  /**
   In every run whose devicemapper steps fail at will, the state is sound exactly as long as no attempt
   to make a cache has failed in the devicemapper, and lost for good after that.
   */
  lemma {:induction false} TrialSound(states: seq<State>, attempts: seq<Attempt>, n: nat)
    requires IsTrial(states, attempts) && Live(states[0]) && n < |states|
    ensures if NoLoss(attempts, n) then Live(states[n]) else Lost(states[n])
    ensures Sound(states[n]) <==> NoLoss(attempts, n)
    decreases n
  {
    if n > 0 {
      var m := n - 1;
      TrialSound(states, attempts, m);
      assert Try(states[m], attempts[m], states[m + 1]);
      NoLossStep(attempts, m);
      if NoLoss(attempts, m) {
        LiveStep(states[m], attempts[m], states[m + 1]);
      } else {
        LostStaysLost(states[m], attempts[m], states[m + 1]);
      }
    }
    if Lost(states[n]) { LostIsNotSound(states[n]); }
  }

  lemma NoLossStep(attempts: seq<Attempt>, n: nat)
    requires n < |attempts|
    ensures NoLoss(attempts, n + 1) <==>
            NoLoss(attempts, n) && !Loses(attempts[n])
  {
  }

  lemma GrowsTrans(a: State, b: State, c: State)
    requires Grows(a, b) && Grows(b, c)
    ensures Grows(a, c)
  {
  }

  lemma GrowsStep(states: seq<State>, attempts: seq<Attempt>, n: nat)
    requires IsTrial(states, attempts) && Live(states[0]) && n + 1 < |states| && NoLoss(attempts, n + 1)
    ensures Grows(states[n], states[n + 1])
  {
    TrialSound(states, attempts, n);
    assert Try(states[n], attempts[n], states[n + 1]);
    TrySound(states[n], attempts[n], states[n + 1]);
  }

  lemma {:induction false} GrowsChain(states: seq<State>, m: nat, n: nat)
    requires m <= n < |states| && forall i | m <= i < n :: Grows(states[i], states[i + 1])
    ensures Grows(states[m], states[n])
    decreases n
  {
    if m < n {
      GrowsChain(states, m, n - 1);
      GrowsTrans(states[m], states[n - 1], states[n - 1 + 1]);
    }
  }

  /** As long as it is not lost, the cap device only ever grows. */
  lemma TrialGrows(states: seq<State>, attempts: seq<Attempt>, m: nat, n: nat)
    requires IsTrial(states, attempts) && Live(states[0]) && m <= n < |states| && NoLoss(attempts, n)
    ensures Grows(states[m], states[n])
  {
    forall i | m <= i < n ensures Grows(states[i], states[i + 1]) { GrowsStep(states, attempts, i); }
    GrowsChain(states, m, n);
  }

  /** The map of the cap device, as far as it goes, is the list of usable sectors. */
  lemma SoundMapping(s: State, x: int, device: Device, sector: int)
    requires Sound(s) && HasCap(s)
    ensures s.Size() <= |Usable(s.devs)|
    ensures MapsTo(CapTable(s), x, device, sector) <==>
            0 <= x < s.Size() && Usable(s.devs)[x].device == device && Usable(s.devs)[x].sector == sector
  {
    var phys, us := Phys(s.segments), Usable(s.devs);
    assert us == phys + FreeList(s.devs);
    if 0 <= x < s.Size() { assert us[x] == phys[..s.Size()][x]; }
  }

  /** Whatever failed before, no two logical sectors share a physical one, and none is outside its device or in its metadata. */
  lemma SoundMapIsSafe(s: State, x: int, y: int, device: Device, sector: int)
    requires Sound(s) && HasCap(s) && MapsTo(CapTable(s), x, device, sector)
    ensures MapsTo(CapTable(s), y, device, sector) ==> x == y
    ensures exists d :: d in s.devs && d.device == device && d.metadataSize <= sector < d.size
  {
    SoundMapping(s, x, device, sector);
    SoundMapping(s, y, device, sector);
    UsableInjective(s.devs);
    var l := Usable(s.devs)[x];
    assert l in Usable(s.devs);
    UsableElem(s.devs, l);
  }

  /**
   In every run a mapped logical sector stays mapped to the same physical sector exactly as long as
   the cap device is not lost.
   */
  lemma FailuresMoveNothing(states: seq<State>, attempts: seq<Attempt>, m: nat, n: nat, x: int, device: Device, sector: int)
    requires IsTrial(states, attempts) && Live(states[0]) && m <= n < |states|
    requires HasCap(states[m]) && MapsTo(CapTable(states[m]), x, device, sector)
    ensures HasCap(states[n]) && MapsTo(CapTable(states[n]), x, device, sector) <==> NoLoss(attempts, n)
  {
    TrialSound(states, attempts, m);
    TrialSound(states, attempts, n);
    if NoLoss(attempts, n) {
      TrialGrows(states, attempts, m, n);
      StaysMapped(states[m], states[n], x, device, sector);
    }
  }

  lemma StaysMapped(s: State, s': State, x: int, device: Device, sector: int)
    requires CapPrefix(s) && CapPrefix(s') && Grows(s, s')
    requires HasCap(s) && MapsTo(CapTable(s), x, device, sector)
    ensures HasCap(s') && MapsTo(CapTable(s'), x, device, sector)
  {
    var before, after := Phys(s.segments)[..s.Size()], Phys(s'.segments)[..s'.Size()];
    assert 0 <= x < |before| && before[x].device == device && before[x].sector == sector;
    assert before[x] == Phys(s.segments)[x] == Phys(s'.segments)[x] == after[x];
  }

  // ----- how slack arises

  lemma SlackIsNotInv(s: State)
    ensures s.Size() != s.next ==> !Inv(s)
  {
    if CapHolds(s) && s.next == |Phys(s.segments)| { NoSlack(s); }
  }

  /**
   A table that could be set for a device that could not be resumed leaves all that was taken from the
   tier as slack at once.
   */
  lemma FailedResumeLeavesSlack(s0: State, sizes: seq<Sectors>, s1: State)
    requires Inv(s0) && HasCap(s0) && AllocTry(s0, sizes, NotResumed, s1) && AllocResultOf(s0, sizes, NotResumed).DmFailed?
    ensures s1.Size() - s1.next == Total(sizes) > 0 && !Inv(s1)
  {
    NoSlack(s0);
    ExtendedSize(s0.With(s1.devs, s1.segments));
    SlackIsNotInv(s1);
  }

  lemma FailedResumeOfRequest(s0: State, request: nat, modulus: nat, s1: State, need: nat)
    requires Inv(s0) && HasCap(s0) && RequestDone(s0, request, modulus, NotResumed, s1)
    requires RequestPlan(s0, request, modulus) == Extend(need)
    ensures s1.Size() - s1.next == need > 0 && !Inv(s1)
  {
    NoSlack(s0);
    PlanNoSlack(s0, request, modulus);
    ExtendedSize(s0.With(s1.devs, s1.segments));
    SlackIsNotInv(s1);
  }

  /** The table of the cap device is not set: it was refused, or there was no device to set it for. */
  ghost predicate TableKept(s: State, dm: Dm) {
    dm.NotSet? || (dm.NotResumed? && !HasCap(s))
  }

  /** An allocation whose table is not set leaves all of its sectors as slack once another allocation is served. */
  lemma FailedAllocLeavesSlack(s0: State, failed: seq<Sectors>, dm: Dm, s1: State, served: seq<Sectors>, s2: State)
    requires Inv(s0) && TableKept(s0, dm) && AllocTry(s0, failed, dm, s1) && AllocResultOf(s0, failed, dm).DmFailed?
    requires AllocTry(s1, served, Done, s2) && AllocResultOf(s1, served, Done).Allocated? && Total(served) > 0
    ensures s2.Size() - s2.next == Total(failed) > 0 && !Inv(s2)
  {
    AfterFailedAlloc(s0, failed, dm, s1);
    AfterServedAlloc(s1, served, s2);
    SlackIsNotInv(s2);
  }

  lemma AfterFailedAlloc(s0: State, failed: seq<Sectors>, dm: Dm, s1: State)
    requires Inv(s0) && TableKept(s0, dm) && AllocTry(s0, failed, dm, s1) && AllocResultOf(s0, failed, dm).DmFailed?
    ensures s1.next == s1.Size() == s0.next && |Phys(s1.segments)| == s0.next + Total(failed) && Total(failed) > 0
  {
    NoSlack(s0);
  }

  lemma AfterServedAlloc(s1: State, served: seq<Sectors>, s2: State)
    requires s1.next == s1.Size() && Total(served) > 0
    requires AllocTry(s1, served, Done, s2) && AllocResultOf(s1, served, Done).Allocated?
    ensures s2.next == s1.next + Total(served) && s2.Size() == |Phys(s1.segments)| + Total(served)
  {
    ExtendedSize(s1.With(s2.devs, s2.segments));
  }

  /** The same for requests: the slack is what both took from the tier less what is granted in the end. */
  lemma FailedRequestLeavesSlack(s0: State, r1: nat, m1: nat, dm: Dm, s1: State, r2: nat, m2: nat, s2: State, need1: nat, need2: nat)
    requires Inv(s0) && TableKept(s0, dm) && RequestDone(s0, r1, m1, dm, s1) && RequestPlan(s0, r1, m1) == Extend(need1)
    requires RequestDone(s1, r2, m2, Done, s2) && RequestPlan(s1, r2, m2) == Extend(need2)
    ensures s2.Size() == s0.next + need1 + need2
    ensures s2.next == s0.next + Grant(r2, m2, s2.Size(), s0.next)
    ensures |FreeList(s2.devs)| == |FreeList(s0.devs)| - need1 - need2
  {
    AfterFailedRequest(s0, r1, m1, dm, s1, need1);
    AfterServedRequest(s1, r2, m2, s2, need2);
  }

  lemma AfterFailedRequest(s0: State, request: nat, modulus: nat, dm: Dm, s1: State, need: nat)
    requires Inv(s0) && TableKept(s0, dm) && RequestDone(s0, request, modulus, dm, s1)
    requires RequestPlan(s0, request, modulus) == Extend(need)
    ensures s1.next == s1.Size() == s0.next && |Phys(s1.segments)| == s0.next + need
    ensures |FreeList(s1.devs)| == |FreeList(s0.devs)| - need
  {
    NoSlack(s0);
  }

  lemma AfterServedRequest(s1: State, request: nat, modulus: nat, s2: State, need: nat)
    requires s1.next == s1.Size() && RequestDone(s1, request, modulus, Done, s2) && RequestPlan(s1, request, modulus) == Extend(need)
    ensures s2.Size() == |Phys(s1.segments)| + need && |FreeList(s2.devs)| == |FreeList(s1.devs)| - need
    ensures s2.next == s1.next + Grant(request, modulus, s2.Size(), s1.next)
  {
    ExtendedSize(s1.With(s2.devs, s2.segments));
  }

  // ----- what slack can do

  /** The least multiple of the modulus that cannot be served, halved, still covers the slack. */
  predicate SlackIsHarmless(available: nat, free: nat, modulus: nat)
    requires modulus > 0
  {
    available + free < modulus || available <= ((available + free) / modulus + 1) / 2 * modulus
  }

  lemma {:induction false} HarmlessSuffices(k: nat, available: nat, free: nat, modulus: nat)
    requires modulus > 0 && SlackIsHarmless(available, free, modulus)
    requires k * modulus >= available
    ensures !Halve(k, modulus, available, free).Underflows?
    decreases k
  {
    if k > 0 && k * modulus - available > free {
      var p: nat := (available + free) / modulus + 1;
      NotServed(k, available + free, modulus);
      if k / 2 > 0 {
        UnitsPositive(k / 2, modulus);
        var a: nat, b: nat := p / 2, k / 2;
        MulLe(a, b, modulus);
        HarmlessSuffices(k / 2, available, free, modulus);
      }
    }
  }

  lemma NotServed(k: nat, total: nat, modulus: nat)
    requires modulus > 0
    ensures k * modulus > total <==> k >= total / modulus + 1
  {
    var q := total / modulus;
    assert total == q * modulus + total % modulus;
    if k >= q + 1 { MulLe(q + 1, k, modulus); assert (q + 1) * modulus == q * modulus + modulus; }
    else { MulLe(k, q, modulus); }
  }

  lemma OverrunIff(s: State, request: nat, modulus: nat)
    requires s.next <= s.Size() && modulus > 0
    ensures var available, k := s.Size() - s.next, request / modulus;
            RequestPlan(s, request, modulus) == Overrun <==>
            k * modulus > available && Halve(k, modulus, available, |FreeList(s.devs)|).Underflows?
  {
  }

  /** Exactly when a cap device with slack is safe for every request that 64 bits can hold. */
  lemma SlackExact(s: State, modulus: Sectors)
    requires s.next <= s.Size() && modulus > 0
    requires s.Size() - s.next + |FreeList(s.devs)| + modulus <= U64_MAX
    ensures (forall request: Sectors :: RequestPlan(s, request, modulus) != Overrun) <==>
            SlackIsHarmless(s.Size() - s.next, |FreeList(s.devs)|, modulus)
  {
    if SlackIsHarmless(s.Size() - s.next, |FreeList(s.devs)|, modulus) {
      forall request: Sectors ensures RequestPlan(s, request, modulus) != Overrun { NoOverrun(s, request, modulus); }
    } else {
      var request := OverrunningRequest(s, modulus);
    }
  }

  lemma NoOverrun(s: State, request: nat, modulus: nat)
    requires s.next <= s.Size() && modulus > 0 && SlackIsHarmless(s.Size() - s.next, |FreeList(s.devs)|, modulus)
    ensures RequestPlan(s, request, modulus) != Overrun
  {
    var k := WholeUnits(request, modulus);
    HarmlessNever(k, s.Size() - s.next, |FreeList(s.devs)|, modulus);
    NotHalvedNoOverrun(s, request, modulus, k);
  }

  lemma WholeUnits(request: nat, modulus: nat) returns (k: nat)
    requires modulus > 0
    ensures k == request / modulus
  {
    k := request / modulus;
  }

  lemma HarmlessNever(k: nat, available: nat, free: nat, modulus: nat)
    requires modulus > 0 && SlackIsHarmless(available, free, modulus)
    ensures k * modulus >= available ==> !Halve(k, modulus, available, free).Underflows?
  {
    if k * modulus >= available { HarmlessSuffices(k, available, free, modulus); }
  }

  lemma NotHalvedNoOverrun(s: State, request: nat, modulus: nat, k: nat)
    requires s.next <= s.Size() && modulus > 0 && k == request / modulus
    requires k * modulus >= s.Size() - s.next ==> !Halve(k, modulus, s.Size() - s.next, |FreeList(s.devs)|).Underflows?
    ensures RequestPlan(s, request, modulus) != Overrun
  {
    OverrunIff(s, request, modulus);
  }

  /** The least multiple of the modulus that cannot be served is such a request. */
  lemma OverrunningRequest(s: State, modulus: nat) returns (request: nat)
    requires s.next <= s.Size() && modulus > 0 && !SlackIsHarmless(s.Size() - s.next, |FreeList(s.devs)|, modulus)
    ensures RequestPlan(s, request, modulus) == Overrun
    ensures request <= s.Size() - s.next + |FreeList(s.devs)| + modulus
  {
    var p := HarmfulUnits(s.Size() - s.next, |FreeList(s.devs)|, modulus);
    request := p * modulus;
    OverrunsAt(s, p, modulus);
  }

  lemma OverrunsAt(s: State, p: nat, modulus: nat)
    requires s.next <= s.Size() && modulus > 0 && p * modulus > s.Size() - s.next
    requires Halve(p, modulus, s.Size() - s.next, |FreeList(s.devs)|).Underflows?
    ensures RequestPlan(s, p * modulus, modulus) == Overrun
  {
    DivUnique(p * modulus, p, modulus);
    OverrunIff(s, p * modulus, modulus);
  }

  /** The number of units that first exceeds what there is. */
  lemma FirstTooMany(total: nat, modulus: nat) returns (p: nat)
    requires modulus > 0
    ensures p == total / modulus + 1 && total < p * modulus <= total + modulus
  {
    var q: nat := total / modulus;
    assert total == q * modulus + total % modulus;
    p := q + 1;
    assert p * modulus == q * modulus + modulus;
  }

  lemma HarmfulUnits(available: nat, free: nat, modulus: nat) returns (p: nat)
    requires modulus > 0 && !SlackIsHarmless(available, free, modulus)
    ensures available < p * modulus <= available + free + modulus
    ensures Halve(p, modulus, available, free).Underflows?
  {
    p := FirstTooMany(available + free, modulus);
    SmallQuotient(available + free, modulus);
    HalvedBelow(p, modulus, available, free);
  }

  lemma HalvedBelow(p: nat, modulus: nat, available: nat, free: nat)
    requires modulus > 0 && p >= 2 && p * modulus > available + free && p / 2 * modulus < available
    ensures Halve(p, modulus, available, free).Underflows?
  {
    assert Halve(p, modulus, available, free) == Halve(p / 2, modulus, available, free);
  }

  // ----- the outcome of a request in every state

  /** `k` halved `j` times. */
  function Halved(k: nat, j: nat): nat {
    if j == 0 then k else Halved(k, j - 1) / 2
  }

  lemma {:induction false} HalvedFirst(k: nat, j: nat)
    ensures Halved(k / 2, j) == Halved(k, j + 1)
  {
    if j > 0 { HalvedFirst(k, j - 1); }
  }

  /** All amounts before the `j`-th were tried, and were more than there is. */
  ghost predicate TriedBefore(k: nat, j: nat, modulus: nat, available: nat, free: nat) {
    forall i | 0 <= i < j :: Halved(k, i) * modulus > available + free
  }

  lemma TriedFirst(k: nat, j: nat, modulus: nat, available: nat, free: nat)
    requires TriedBefore(k / 2, j, modulus, available, free) && k * modulus > available + free
    ensures TriedBefore(k, j + 1, modulus, available, free)
  {
    forall i | 0 <= i < j + 1 ensures Halved(k, i) * modulus > available + free {
      if i > 0 { HalvedFirst(k, i - 1); }
    }
  }

  /** The loop stops at the first half that there is, or that is less than what is left in the cap device, or at nothing. */
  lemma {:induction false} HalveExact(k: nat, modulus: nat, available: nat, free: nat) returns (j: nat)
    requires modulus > 0
    ensures TriedBefore(k, j, modulus, available, free)
    ensures var n := Halved(k, j);
            && Halve(k, modulus, available, free) ==
               (if n == 0 then Exhausted else if n * modulus < available then Underflows else Found(n))
            && (n > 0 ==> n * modulus <= available + free)
    decreases k
  {
    if k == 0 || k * modulus <= available + free {
      j := 0;
    } else {
      var i := HalveExact(k / 2, modulus, available, free);
      HalvedFirst(k, i);
      TriedFirst(k, i, modulus, available, free);
      j := i + 1;
    }
  }

  /** `n` is the greatest multiple of the modulus up to `x`. */
  ghost predicate Greatest(n: nat, modulus: nat, x: nat)
    requires modulus > 0
  {
    n % modulus == 0 && n <= x < n + modulus
  }

  lemma RoundedIsGreatest(x: nat, modulus: nat)
    requires modulus > 0
    ensures Greatest(RoundDown(x, modulus), modulus, x)
  {
    MultipleMod(x / modulus, modulus);
  }

  /**
   The outcome of a request in every state of the cap device, with and without slack: what is left is handed out
   if it is enough; else the amount is halved to the first that there is, what is missing to it is taken from the
   tier, and all that the cap device then has is handed out, up to the amount requested.
   */
  lemma RequestOutcome(s: State, request: nat, modulus: nat, dm: Dm, s': State) returns (j: nat)
    requires RequestDone(s, request, modulus, dm, s')
    ensures var r := RequestNext(s, request, modulus, dm, s'.devs, s'.segments).result;
            var available, free, n := s.Size() - s.next, |FreeList(s.devs)|, Halved(request / modulus, j);
            if request < modulus then r == Nothing && s' == s
            else if RoundDown(request, modulus) <= available then
              r == Granted(s.next, RoundDown(request, modulus)) && s' == s.(next := s.next + RoundDown(request, modulus))
            else
              && TriedBefore(request / modulus, j, modulus, available, free) && (n > 0 ==> n * modulus <= available + free)
              && (if n == 0 then r == Nothing && s' == s
                  else if n * modulus < available then r == Underflow && s' == s
                  else if !dm.Done? then
                    r == DmError && s'.next == s.next && |FreeList(s'.devs)| == free - (n * modulus - available)
                  else && |FreeList(s'.devs)| == free - (n * modulus - available) && r.Granted? && r.start == s.next && s'.next == s.next + r.length <= s'.Size()
                       && n * modulus <= r.length && Greatest(r.length, modulus, Min(request, s'.Size() - s.next)))
  {
    SmallQuotient(request, modulus);
    j := HalveExact(request / modulus, modulus, s.Size() - s.next, |FreeList(s.devs)|);
    var plan := RequestPlan(s, request, modulus);
    if plan.Extend? && dm.Done? { GrantedOutcome(s, request, modulus, s', Halved(request / modulus, j)); }
  }

  lemma GrantedOutcome(s: State, request: nat, modulus: nat, s': State, n: nat)
    requires RequestDone(s, request, modulus, Done, s') && n * modulus >= s.Size() - s.next && n <= request / modulus
    requires RequestPlan(s, request, modulus) == Extend(n * modulus - (s.Size() - s.next))
    ensures var r := RequestNext(s, request, modulus, Done, s'.devs, s'.segments).result;
            && r.Granted? && r.start == s.next && s'.next == s.next + r.length <= s'.Size()
            && n * modulus <= r.length && Greatest(r.length, modulus, Min(request, s'.Size() - s.next))
  {
    var mid := s.With(s'.devs, s'.segments);
    ExtendedSize(mid);
    var x := Min(request, Extended(mid).Size() - s.next);
    MulLe(n, request / modulus, modulus);
    RoundedIsGreatest(x, modulus);
    AtLeastUnits(n, x, modulus);
  }

  lemma AtLeastUnits(n: nat, x: nat, modulus: nat)
    requires modulus > 0 && n * modulus <= x
    ensures n * modulus <= RoundDown(x, modulus)
  {
    if n > x / modulus { MulLe(x / modulus + 1, n, modulus); assert (x / modulus + 1) * modulus == x / modulus * modulus + modulus; }
    MulLe(Min(n, x / modulus), x / modulus, modulus);
  }

  // ----- the methods of the class make exactly these attempts

  method AllocTried(b: Backstore, sizes: seq<Sectors>, dm: Dm) returns (r: AllocResult)
    requires b.Valid() && Sound(b.Model()) && Total(sizes) <= U64_MAX
    modifies b`linear, b`cache, b`next, b.dataTier, b.dataTier.blockMgr
    ensures b.Valid() && Sound(b.Model()) && AllocTry(old(b.Model()), sizes, dm, b.Model())
    ensures r == AllocResultOf(old(b.Model()), sizes, dm)
    ensures if r.Allocated? then ChunksFill(r.chunks, sizes, old(b.Model()).next, b.Model().next)
            else b.Model().next == old(b.Model()).next
  {
    ghost var s := b.Model();
    r := b.Alloc(sizes, dm);
    GrewIsTaken(s, if r.NoSpace? then 0 else AllocNeed(s, sizes), b.Model());
    AllocTrySound(s, sizes, dm, b.Model());
  }

  method RequestTried(b: Backstore, request: Sectors, modulus: Sectors, dm: Dm) returns (r: RequestResult)
    requires b.Valid() && Sound(b.Model()) && modulus != 0
    modifies b`linear, b`cache, b`next, b.dataTier, b.dataTier.blockMgr
    ensures b.Valid() && Sound(b.Model()) && RequestDone(old(b.Model()), request, modulus, dm, b.Model())
    ensures RequestTry(old(b.Model()), request, modulus, dm, b.Model())
    ensures r == RequestNext(old(b.Model()), request, modulus, dm, b.Model().devs, b.Model().segments).result
  {
    ghost var s := b.Model();
    r := b.Request(request, modulus, dm);
    GrewIsTaken(s, RequestNeed(s, request, modulus), b.Model());
    RequestDoneSound(s, request, modulus, dm, b.Model());
    DoneIsTry(s, request, modulus, dm, b.Model());
  }

  // ----- the underflow on a device of 1 GiB

  const GIB: Sectors := 0x20_0000
  const METADATA: Sectors := 8192
  const BLOCK: Sectors := 2048

  /** What a new thin pool asks for: two metadata devices, the data device and the metadata volume. */
  function ThinPoolSizes(): seq<Sectors> { [32768, 32768, 768 * BLOCK, 32768] }

  lemma ThinPoolTotal()
    ensures Total(ThinPoolSizes()) == 816 * BLOCK
  {
  }

  lemma FreshDevice(d: BlockDev)
    requires d.size == GIB && d.metadataSize == METADATA && d.used == map[0 := METADATA]
    ensures WfDevs([d]) && AllNew([d]) && |Usable([d])| == 1020 * BLOCK
  {
    forall x ensures Covers(d.used, x) <==> 0 <= x < d.metadataSize {
      if 0 <= x < METADATA { assert 0 in d.used && 0 <= x < 0 + d.used[0]; }
    }
    NewDevFree(d);
    UsableLength([d]);
  }

  /** A backstore over one device of 1 GiB. */
  method NewBackstore() returns (b: Backstore)
    ensures fresh(b) && fresh(b.dataTier) && fresh(b.dataTier.blockMgr) && b.Valid() && Inv(b.Model())
    ensures b.Model().next == 0 && |Usable(b.Model().devs)| == 1020 * BLOCK && b.cacheTier == null && b.cache.None?
    ensures |b.Model().devs| == 1 && b.Model().devs[0].uuid == DevUuid(0)
  {
    var d := BlockDev(DevUuid(0), Device(8, 0), GIB, METADATA, map[0 := METADATA], None, None);
    FreshDevice(d);
    InitInv([d]);
    var mgr := new BlockDevMgr([d]);
    var tier := new DataTier(mgr);
    b := new Backstore(tier);
  }

  /** In a run the free space is what `next` leaves of the usable space. */
  lemma FreeIsRest(s: State)
    requires Inv(s)
    ensures |FreeList(s.devs)| == |Usable(s.devs)| - s.next
  {
  }

  lemma AllocServed(s: State, sizes: seq<Sectors>, s': State)
    requires Inv(s) && Step(s, DoAlloc(sizes), s') && Total(sizes) <= |FreeList(s.devs)|
    ensures s'.next == s.next + Total(sizes) && |FreeList(s'.devs)| == |FreeList(s.devs)| - Total(sizes)
    ensures SameDevs(s.devs, s'.devs)
  {
    NoSlack(s);
  }

  /** The pool as its creation leaves it. */
  method NewPool() returns (b: Backstore)
    ensures fresh(b) && fresh(b.dataTier) && fresh(b.dataTier.blockMgr) && b.Valid() && Inv(b.Model())
    ensures |FreeList(b.Model().devs)| == 204 * BLOCK && b.Model().next == 816 * BLOCK
    ensures b.cacheTier == null && b.linear.Some? && |b.Model().devs| == 1 && b.Model().devs[0].uuid == DevUuid(0)
  {
    b := NewBackstore();
    ThinPoolTotal();
    FreeIsRest(b.Model());
    ghost var s := b.Model();
    var chunks := AllocInRun(b, ThinPoolSizes());
    AllocServed(s, ThinPoolSizes(), b.Model());
  }

  /** A request for whole blocks is granted in full if as many are there. */
  lemma GrantUnits(k: nat, there: nat, next: nat)
    requires k <= there
    ensures Grant(k * BLOCK, BLOCK, next + there * BLOCK, next) == k * BLOCK
  {
    DivUnique(k * BLOCK, k, BLOCK);
  }

  /** A device of 1 GiB for the cache. */
  method NewCacheDevice() returns (d: BlockDev)
    ensures ForCache([d]) && Cacheable([d]) && d.uuid == DevUuid(1)
  {
    d := BlockDev(DevUuid(1), Device(8, 16), GIB, METADATA, map[0 := METADATA], None, None);
    FreshDevice(d);
  }

  method InitCacheTried(b: Backstore, devs: seq<BlockDev>, made: bool) returns (ok: bool)
    requires b.Valid() && Sound(b.Model()) && b.cacheTier == null && b.linear.Some?
    requires ForCache(devs)
    modifies b
    ensures b.Valid() && Try(old(b.Model()), Attempt(DoInitCache(devs), if made then Done else NotSet), b.Model())
    ensures b.Model().linear.None? <==> Cacheable(devs)
    ensures ok <==> made && Cacheable(devs)
    ensures b.Model().next == old(b.Model()).next
  {
    ok := b.InitCache(devs, made);
  }

  /** A new pool whose cache cannot be made has lost its cap device, and with it all that it handed out. */
  method CapDeviceLost() returns (b: Backstore, d: BlockDev)
    ensures Lost(b.Model()) && !CapOk(b.Model()) && !Sound(b.Model())
    ensures b.cacheTier == null && d.uuid == DevUuid(1) && |b.Model().devs| == 1 && b.Model().devs[0].uuid == DevUuid(0)
  {
    b := NewPool();
    d := NewCacheDevice();
    ghost var s := b.Model();
    InvIsSound(s);
    var ok := InitCacheTried(b, [d], false);
    LosingIsSoundIff(s, Attempt(DoInitCache([d]), NotSet), b.Model());
  }

  /** The plan of a request that the free space covers when there is no slack. */
  lemma PlanServed(s: State, units: nat)
    requires s.next == s.Size() && 0 < units * BLOCK <= |FreeList(s.devs)|
    ensures RequestPlan(s, units * BLOCK, BLOCK) == Extend(units * BLOCK)
  {
  }

  /** A request for 196 blocks whose devicemapper step fails, then one for 5 that succeeds. */
  method LeaveSlack(b: Backstore)
    requires b.Valid() && Inv(b.Model()) && |FreeList(b.Model().devs)| == 204 * BLOCK
    modifies b`linear, b`cache, b`next, b.dataTier, b.dataTier.blockMgr
    ensures b.Valid() && Sound(b.Model()) && !Inv(b.Model())
    ensures b.Model().Size() - b.Model().next == 196 * BLOCK && |FreeList(b.Model().devs)| == 3 * BLOCK
  {
    ghost var s0 := b.Model();
    InvIsSound(s0);
    var failed := RequestTried(b, 196 * BLOCK, BLOCK, NotSet);
    ghost var s1 := b.Model();
    var served := RequestTried(b, 5 * BLOCK, BLOCK, Done);
    SlackFigures(s0, s1, b.Model());
  }

  lemma SlackFigures(s0: State, s1: State, s2: State)
    requires Inv(s0) && |FreeList(s0.devs)| == 204 * BLOCK
    requires RequestDone(s0, 196 * BLOCK, BLOCK, NotSet, s1) && RequestDone(s1, 5 * BLOCK, BLOCK, Done, s2)
    ensures !Inv(s2) && s2.Size() - s2.next == 196 * BLOCK && |FreeList(s2.devs)| == 3 * BLOCK
  {
    NoSlack(s0);
    PlanServed(s0, 196);
    AfterFailedRequest(s0, 196 * BLOCK, BLOCK, NotSet, s1, 196 * BLOCK);
    PlanServed(s1, 5);
    GrantUnits(5, 201, s1.next);
    FailedRequestLeavesSlack(s0, 196 * BLOCK, BLOCK, NotSet, s1, 5 * BLOCK, BLOCK, s2, 196 * BLOCK, 5 * BLOCK);
    SlackIsNotInv(s2);
  }

  lemma Overruns(s: State)
    requires s.Size() - s.next == 196 * BLOCK && |FreeList(s.devs)| == 3 * BLOCK
    ensures RequestPlan(s, 200 * BLOCK, BLOCK) == Overrun
  {
    DivUnique(200 * BLOCK, 200, BLOCK);
    assert Halve(200, BLOCK, 196 * BLOCK, 3 * BLOCK) == Halve(100, BLOCK, 196 * BLOCK, 3 * BLOCK);
  }

  /** After that a request for 200 blocks ends in the underflow. */
  method UnderflowReached() returns (r: RequestResult)
    ensures r == Underflow
  {
    var b := NewPool();
    LeaveSlack(b);
    Overruns(b.Model());
    r := RequestTried(b, 200 * BLOCK, BLOCK, Done);
  }
}
