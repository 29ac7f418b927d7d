/**
 Where the devices of a pool that is not up are kept, and what is kept of them, over arbitrary
 streams of udev events and pool operations.
 */
module LiminalRuns {
  import opened Prelude
  import opened BlockDevs
  import opened DeviceInfo
  import opened Engine
  import Table

  /** The operation is a udev event about a device of pool `p`. */
  predicate Concerns(op: Op, p: PoolUuid) {
    op.Udev? && !op.kind.OtherEvent? && op.info.Some? && op.info.value.Ids().pool == p
  }

  /** The reports about pool `p` that stand after an operation, the latest first. */
  function Heard(infos: seq<Info>, op: Op, p: PoolUuid): seq<Info> {
    if !Concerns(op, p) then infos
    else if op.kind.RemoveEvent? then Retract(infos, op.info.value)
    else [op.info.value] + infos
  }

  /** Some LUKS device was reported and no Stratis device over it. */
  ghost predicate Locked(infos: seq<Info>) {
    exists i | i in infos :: i.Luks? && forall j | j in infos && j.Stratis? :: j.Ids().device != i.Ids().device
  }

  /** The pool is not up, there is hope, and its set says of every device what the reports say. */
  ghost predicate Waiting(s: State, p: PoolUuid, infos: seq<Info>) {
    && p !in s.pools.items && p !in s.liminal.hopeless
    && NoConflicts(infos) && Summarizes(ErroredSet(s.liminal, p), infos)
  }

  ghost predicate InErrored(s: State, p: PoolUuid, infos: seq<Info>) {
    Waiting(s, p, infos) && p in s.liminal.errored
  }

  ghost predicate InHopeless(s: State, p: PoolUuid) {
    p in s.liminal.hopeless && p !in s.liminal.errored && p !in s.pools.items
  }

  ghost predicate IsUp(s: State, p: PoolUuid, name: string, pool: Pool) {
    && p in s.pools.items && s.pools.items[p] == Table.Item(name, pool) && name in s.pools.names && s.pools.names[name] == p
    && p !in s.liminal.errored && p !in s.liminal.hopeless
  }

  lemma LockedIff(m: Devices, infos: seq<Info>)
    requires Summarizes(m, infos)
    ensures SomeClosed(m) <==> Locked(infos)
  {
    if SomeClosed(m) {
      var d :| d in m && m[d].IsClosed();
      assert m[d] == Entry(infos, d).value;
      assert Luks(FirstLuks(infos, d).value) in infos;
    }
    if Locked(infos) {
      var i :| i in infos && i.Luks? && forall j | j in infos && j.Stratis? :: j.Ids().device != i.Ids().device;
      var d := i.Ids().device;
      assert FirstLuks(infos, d).Some? && FirstStratis(infos, d).None?;
      assert d in m && m[d] == Entry(infos, d).value;
    }
  }

  // ----- one event

  /** What filing a set of devices that says what `infos` say comes to. */
  ghost predicate FiledAs(names: map<string, PoolUuid>, p: PoolUuid, infos: seq<Info>, a: Attempt, t: Tried) {
    && (t.up.Some? <==> !Locked(infos) && Starts(names, a))
    && (t.up.Some? ==> t.up.value == (a.name, a.after.pool) && p !in t.liminal.errored && p !in t.liminal.hopeless)
    && (p in t.liminal.hopeless <==> !Locked(infos) && Futile(names, a))
    && (p in t.liminal.hopeless ==> forall l :: l in t.liminal.hopeless[p] <==> Told(infos, l))
    && (p in t.liminal.errored <==> t.up.None? && p !in t.liminal.hopeless)
    && (p in t.liminal.errored ==> Summarizes(t.liminal.errored[p], infos))
  }

  lemma TryFiles(names: map<string, PoolUuid>, l: Liminal, p: PoolUuid, m: Devices, infos: seq<Info>, a: Attempt)
    requires p !in l.errored && p !in l.hopeless && Summarizes(m, infos)
    ensures FiledAs(names, p, infos, a, TrySetup(names, l, p, m, a))
  {
    LockedIff(m, infos);
    forall i ensures i in Bag(m) <==> Told(infos, i) { BagTold(m, infos, i); }
  }

  /** An event of a pool that waits: either its report conflicts with what was heard, or the set is filed. */
  lemma EvaluateFiles(s: State, op: Op, p: PoolUuid, infos: seq<Info>)
    requires Inv(s) && Waiting(s, p, infos) && Concerns(op, p)
    ensures var t, heard := Evaluate(s, op.kind, op.info, op.attempt), Heard(infos, op, p);
            if NoConflicts(heard) then FiledAs(s.pools.names, p, heard, op.attempt, t)
            else
              && t.up.None? && p in t.liminal.hopeless && p !in t.liminal.errored
              && forall l :: l in t.liminal.hopeless[p] <==> Told(infos, l) || l == FromInfo(op.info.value)
  {
    var i, m, rest := op.info.value, ErroredSet(s.liminal, p), s.liminal.(errored := s.liminal.errored - {p});
    if op.kind.RemoveEvent? {
      RetractSummarizes(m, infos, i);
      TryFiles(s.pools.names, rest, p, ProcessRemove(m, i), Retract(infos, i), op.attempt);
    } else {
      CollectStep(p, m, infos, i);
      NoConflictsCons(infos, i);
      if ProcessAdd(p, m, i).Added? {
        TryFiles(s.pools.names, rest, p, ProcessAdd(p, m, i).set', [i] + infos, op.attempt);
      } else {
        forall l ensures l in Bag(m) <==> Told(infos, l) { BagTold(m, infos, l); }
      }
    }
  }

  /**
   Where an event leaves a pool that waits, and what is kept of its devices: by what was heard of them, whether
   some are locked, and how set up goes.
   */
  lemma EventExact(s: State, op: Op, p: PoolUuid, infos: seq<Info>)
    requires Inv(s) && Waiting(s, p, infos) && Concerns(op, p)
    ensures var s', heard := Next(s, op), Heard(infos, op, p);
            if !NoConflicts(heard) then
              InHopeless(s', p)
              && forall l :: l in s'.liminal.hopeless[p] <==> Told(infos, l) || l == FromInfo(op.info.value)
            else if Locked(heard) then InErrored(s', p, heard)
            else if Starts(s.pools.names, op.attempt) then IsUp(s', p, op.attempt.name, op.attempt.after.pool)
            else if Futile(s.pools.names, op.attempt) then
              InHopeless(s', p) && forall l :: l in s'.liminal.hopeless[p] <==> Told(heard, l)
            else InErrored(s', p, heard)
  {
    EvaluateFiles(s, op, p, infos);
  }

  /** An event of a pool without hope puts its report into the bag, or takes exactly that out. */
  lemma HopelessExact(s: State, op: Op, p: PoolUuid)
    requires Inv(s) && p in s.liminal.hopeless && Concerns(op, p)
    ensures InHopeless(Next(s, op), p)
    ensures forall l :: l in Next(s, op).liminal.hopeless[p] <==>
              if l == FromInfo(op.info.value) then !op.kind.RemoveEvent? else l in s.liminal.hopeless[p]
  {
  }

  /** After an event of a pool that was not up it is in exactly one place. */
  lemma OnePlace(s: State, op: Op, p: PoolUuid)
    requires Inv(s) && p !in s.pools.items && Concerns(op, p)
    ensures var s' := Next(s, op);
            && (p in s'.pools.items || p in s'.liminal.errored || p in s'.liminal.hopeless)
            && !(p in s'.pools.items && p in s'.liminal.errored)
            && !(p in s'.pools.items && p in s'.liminal.hopeless)
            && !(p in s'.liminal.errored && p in s'.liminal.hopeless)
  {
    StepKeepsInv(s, op);
  }

  /** The devices of pool `p` are kept alike. */
  ghost predicate KeptAlike(l: Liminal, l': Liminal, p: PoolUuid) {
    && (p in l'.errored <==> p in l.errored) && (p in l.errored ==> l'.errored[p] == l.errored[p])
    && (p in l'.hopeless <==> p in l.hopeless) && (p in l.hopeless ==> l'.hopeless[p] == l.hopeless[p])
  }

  lemma TryOthers(names: map<string, PoolUuid>, l: Liminal, q: PoolUuid, m: Devices, a: Attempt, p: PoolUuid)
    requires q != p
    ensures KeptAlike(l, TrySetup(names, l, q, m, a).liminal, p)
  {
  }

  lemma EvaluateOthers(s: State, kind: EventType, info: Option<Info>, a: Attempt, p: PoolUuid)
    requires SetsOk(s.liminal) && info.Some? && info.value.Ids().pool != p
    ensures KeptAlike(s.liminal, Evaluate(s, kind, info, a).liminal, p)
  {
    var i, q := info.value, info.value.Ids().pool;
    var m, rest := ErroredSet(s.liminal, q), s.liminal.(errored := s.liminal.errored - {q});
    assert KeptAlike(s.liminal, rest, p);
    if kind.RemoveEvent? {
      TryOthers(s.pools.names, rest, q, ProcessRemove(m, i), a, p);
    } else if ProcessAdd(q, m, i).Added? {
      TryOthers(s.pools.names, rest, q, ProcessAdd(q, m, i).set', a, p);
    }
  }

  /** An operation that is not an event of the pool leaves its devices where they are. */
  lemma OthersKept(s: State, op: Op, p: PoolUuid)
    requires SetsOk(s.liminal) && (!Concerns(op, p) || p in s.pools.items)
    ensures KeptAlike(s.liminal, Next(s, op).liminal, p)
  {
    if op.Udev? && op.info.Some? && op.info.value.Ids().pool != p {
      EvaluateOthers(s, op.kind, op.info, op.attempt, p);
    }
  }

  // ----- whole streams

  /** The reports that stand after the first `n` operations. */
  function HeardBy(base: seq<Info>, ops: seq<Op>, p: PoolUuid, n: nat): seq<Info>
    requires n <= |ops|
  {
    if n == 0 then base else Heard(HeardBy(base, ops, p, n - 1), ops[n - 1], p)
  }

  ghost predicate AnyConcerns(ops: seq<Op>, p: PoolUuid, n: nat)
    requires n <= |ops|
  {
    exists k :: 0 <= k < n && Concerns(ops[k], p)
  }

  /** The pool is not up at any point up to `n`. */
  ghost predicate Down(states: seq<State>, p: PoolUuid, n: nat)
    requires n < |states|
  {
    forall k | 0 <= k <= n :: p !in states[k].pools.items
  }

  lemma StepAt(states: seq<State>, ops: seq<Op>, n: nat)
    requires IsRun(states, ops) && Inv(states[0]) && n < |ops|
    ensures Inv(states[n]) && Enabled(states[n], ops[n]) && states[n + 1] == Next(states[n], ops[n])
  {
    RunKeepsInv(states, ops, n);
  }

  lemma HopelessStep(s: State, op: Op, p: PoolUuid)
    requires Inv(s) && p in s.liminal.hopeless
    ensures p in Next(s, op).liminal.hopeless
  {
    if Concerns(op, p) { HopelessExact(s, op, p); } else { OthersKept(s, op, p); }
  }

  lemma {:induction false} Lasts(ps: seq<bool>, m: nat, n: nat)
    requires m <= n < |ps| && ps[m] && forall k | m <= k < n :: ps[k] ==> ps[k + 1]
    ensures ps[n]
    decreases n
  {
    if m < n { Lasts(ps, m, n - 1); }
  }

  /** Once there is no hope, there is none for the rest of the stream. */
  lemma HopelessStays(states: seq<State>, ops: seq<Op>, p: PoolUuid, m: nat, n: nat)
    requires IsRun(states, ops) && Inv(states[0]) && m <= n < |states| && p in states[m].liminal.hopeless
    ensures p in states[n].liminal.hopeless
  {
    var ps := seq(|states|, k requires 0 <= k < |states| => p in states[k].liminal.hopeless);
    forall k | m <= k < n && ps[k] ensures ps[k + 1] {
      StepAt(states, ops, k);
      HopelessStep(states[k], ops[k], p);
    }
    Lasts(ps, m, n);
  }

  /**
   However a stream goes on, a pool that never came up and for which there is still hope is kept with exactly what
   the reports that stand say of each of its devices, once there was any event of it.
   */
  lemma {:induction false} StreamExact(states: seq<State>, ops: seq<Op>, p: PoolUuid, base: seq<Info>, n: nat)
    requires IsRun(states, ops) && Inv(states[0]) && n < |states| && Waiting(states[0], p, base)
    requires Down(states, p, n) && p !in states[n].liminal.hopeless
    ensures Waiting(states[n], p, HeardBy(base, ops, p, n))
    ensures p in states[n].liminal.errored <==> p in states[0].liminal.errored || AnyConcerns(ops, p, n)
    decreases n
  {
    if n > 0 {
      StepAt(states, ops, n - 1);
      var s, op := states[n - 1], ops[n - 1];
      if p in s.liminal.hopeless { HopelessStays(states, ops, p, n - 1, n); }
      StreamExact(states, ops, p, base, n - 1);
      if Concerns(op, p) { EventExact(s, op, p, HeardBy(base, ops, p, n - 1)); } else { OthersKept(s, op, p); }
    }
  }

  predicate PutsIn(op: Op, p: PoolUuid, l: LInfo) {
    Concerns(op, p) && !op.kind.RemoveEvent? && FromInfo(op.info.value) == l
  }

  predicate TakesOut(op: Op, p: PoolUuid, l: LInfo) {
    Concerns(op, p) && op.kind.RemoveEvent? && FromInfo(op.info.value) == l
  }

  /** No event from `m` on and before `n` takes `l` out. */
  ghost predicate NotTaken(ops: seq<Op>, p: PoolUuid, l: LInfo, m: nat, n: nat)
    requires n <= |ops|
  {
    forall k | m <= k < n :: !TakesOut(ops[k], p, l)
  }

  /** `l` was in the bag at `m` or was put in later, and was not taken out since. */
  ghost predicate StillThere(ops: seq<Op>, p: PoolUuid, l: LInfo, m: nat, n: nat, there: bool)
    requires n <= |ops|
  {
    || (there && NotTaken(ops, p, l, m, n))
    || exists k :: m <= k < n && PutsIn(ops[k], p, l) && NotTaken(ops, p, l, k + 1, n)
  }

  lemma StillThereStep(ops: seq<Op>, p: PoolUuid, l: LInfo, m: nat, n: nat, there: bool)
    requires m <= n < |ops|
    ensures StillThere(ops, p, l, m, n + 1, there) <==>
            PutsIn(ops[n], p, l) || (StillThere(ops, p, l, m, n, there) && !TakesOut(ops[n], p, l))
  {
    if PutsIn(ops[n], p, l) {
      assert NotTaken(ops, p, l, n + 1, n + 1);
    } else if StillThere(ops, p, l, m, n, there) && !TakesOut(ops[n], p, l) {
      if !(there && NotTaken(ops, p, l, m, n)) {
        var k :| m <= k < n && PutsIn(ops[k], p, l) && NotTaken(ops, p, l, k + 1, n);
        assert NotTaken(ops, p, l, k + 1, n + 1);
      }
    }
    if StillThere(ops, p, l, m, n + 1, there) && !PutsIn(ops[n], p, l) && !(there && NotTaken(ops, p, l, m, n + 1)) {
      var k :| m <= k < n + 1 && PutsIn(ops[k], p, l) && NotTaken(ops, p, l, k + 1, n + 1);
      assert NotTaken(ops, p, l, k + 1, n);
    }
  }

  lemma BagStep(s: State, op: Op, p: PoolUuid, l: LInfo)
    requires Inv(s) && p in s.liminal.hopeless
    ensures p in Next(s, op).liminal.hopeless
    ensures l in Next(s, op).liminal.hopeless[p] <==> PutsIn(op, p, l) || (l in s.liminal.hopeless[p] && !TakesOut(op, p, l))
  {
    if Concerns(op, p) { HopelessExact(s, op, p); } else { OthersKept(s, op, p); }
  }

  /** `there` says at each point whether `l` is in the bag. */
  ghost predicate Follows(there: seq<bool>, ops: seq<Op>, p: PoolUuid, l: LInfo, m: nat, n: nat)
    requires n < |there| && n <= |ops|
  {
    forall k | m <= k < n :: there[k + 1] <==> PutsIn(ops[k], p, l) || (there[k] && !TakesOut(ops[k], p, l))
  }

  lemma {:induction false} FollowsExact(there: seq<bool>, ops: seq<Op>, p: PoolUuid, l: LInfo, m: nat, n: nat)
    requires m <= n < |there| && n <= |ops| && Follows(there, ops, p, l, m, n)
    ensures there[n] <==> StillThere(ops, p, l, m, n, there[m])
    decreases n
  {
    if m < n {
      FollowsExact(there, ops, p, l, m, n - 1);
      StillThereStep(ops, p, l, m, n - 1, there[m]);
      assert there[n - 1 + 1] <==> PutsIn(ops[n - 1], p, l) || (there[n - 1] && !TakesOut(ops[n - 1], p, l));
    }
  }

  ghost predicate InBag(s: State, p: PoolUuid, l: LInfo) {
    p in s.liminal.hopeless && l in s.liminal.hopeless[p]
  }

  /** What the bag of a pool without hope holds, at any later point of any stream. */
  lemma BagExact(states: seq<State>, ops: seq<Op>, p: PoolUuid, m: nat, n: nat, l: LInfo)
    requires IsRun(states, ops) && Inv(states[0]) && m <= n < |states| && p in states[m].liminal.hopeless
    ensures p in states[n].liminal.hopeless
    ensures InBag(states[n], p, l) <==> StillThere(ops, p, l, m, n, InBag(states[m], p, l))
  {
    var there := seq(|states|, k requires 0 <= k < |states| => InBag(states[k], p, l));
    forall k | m <= k < n
      ensures there[k + 1] <==> PutsIn(ops[k], p, l) || (there[k] && !TakesOut(ops[k], p, l))
    {
      HopelessStays(states, ops, p, m, k);
      StepAt(states, ops, k);
      BagStep(states[k], ops[k], p, l);
    }
    HopelessStays(states, ops, p, m, n);
    FollowsExact(there, ops, p, l, m, n);
  }
}
