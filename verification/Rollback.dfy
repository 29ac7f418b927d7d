/** Applying an operation to every device, undoing it everywhere if it fails on one. */
module Rollback {
  import opened Prelude

  /** The outcome of one action or one rollback on a device in state `S`. */
  datatype Step<S> = Ok(state: S) | Err(code: nat, state: S)

  datatype LoopResult = AllDone | Causal(code: nat) | RollbackError(causal: nat, rollback: nat)

  /** A failed action leaves its device unchanged. */
  ghost predicate FailsClean<S(!new)>(action: S -> Step<S>) {
    forall s :: action(s).Err? ==> action(s).state == s
  }

  /** A rollback that succeeds on the device with its own index undoes the action. */
  ghost predicate Undoes<S(!new)>(action: S -> Step<S>, rollback: (nat, S) -> Step<S>, initial: seq<S>) {
    forall i | 0 <= i < |initial| :: action(initial[i]).Ok? && rollback(i, action(initial[i]).state).Ok? ==>
      rollback(i, action(initial[i]).state).state == initial[i]
  }

  /**
   Either every device is changed, or every device is as it was and the error is the one that
   caused the rollback. Under a rollback error the devices before the one that could not be
   restored are as they were and so are those from the failed action on.
   */
  method OperationLoop<S(!new)>(devs: array<S>, action: S -> Step<S>, rollback: (nat, S) -> Step<S>)
    returns (r: LoopResult, ghost failed: nat, ghost stuck: nat)
    requires FailsClean(action) && Undoes(action, rollback, devs[..])
    modifies devs
    ensures r.AllDone? ==> forall i | 0 <= i < devs.Length :: action(old(devs[i])) == Ok(devs[i])
    ensures r.AllDone? <==> forall i | 0 <= i < devs.Length :: action(old(devs[i])).Ok?
    ensures r.Causal? ==> devs[..] == old(devs[..])
    ensures !r.AllDone? ==>
              && failed < devs.Length && action(old(devs[failed])).Err?
              && (forall i | 0 <= i < failed :: action(old(devs[i])).Ok?)
              && (r.Causal? ==> r.code == action(old(devs[failed])).code)
              && (r.RollbackError? ==>
                    && r.causal == action(old(devs[failed])).code
                    && stuck < failed && rollback(stuck, action(old(devs[stuck])).state).Err?
                    && r.rollback == rollback(stuck, action(old(devs[stuck])).state).code
                    && (forall i | 0 <= i < devs.Length && (i < stuck || failed <= i) :: devs[i] == old(devs[i]))
                    && (forall i | stuck < i < failed :: action(old(devs[i])) == Ok(devs[i])))
  {
    ghost var initial := devs[..];
    failed, stuck := 0, 0;
    for i := 0 to devs.Length
      invariant forall j | i <= j < devs.Length :: devs[j] == initial[j]
      invariant forall j | 0 <= j < i :: action(initial[j]) == Ok(devs[j])
    {
      var step := action(devs[i]);
      devs[i] := step.state;
      if step.Err? {
        failed := i;
        r, stuck := RollbackLoop(devs, i, action, rollback, step.code, initial);
        return;
      }
    }
    return AllDone, 0, 0;
  }

  /** Undo the action on the first `n` devices, in the order in which it was applied. */
  method RollbackLoop<S(!new)>(devs: array<S>, n: nat, ghost action: S -> Step<S>, rollback: (nat, S) -> Step<S>,
                               causal: nat, ghost initial: seq<S>)
    returns (r: LoopResult, ghost stuck: nat)
    requires n <= devs.Length == |initial| && Undoes(action, rollback, initial)
    requires forall j | 0 <= j < n :: action(initial[j]) == Ok(devs[j])
    requires forall j | n <= j < devs.Length :: devs[j] == initial[j]
    modifies devs
    ensures r == Causal(causal) || r.RollbackError?
    ensures r.Causal? ==> devs[..] == initial
    ensures r.RollbackError? ==>
              && r.causal == causal && stuck < n
              && rollback(stuck, action(initial[stuck]).state).Err?
              && r.rollback == rollback(stuck, action(initial[stuck]).state).code
              && (forall j | 0 <= j < devs.Length && (j < stuck || n <= j) :: devs[j] == initial[j])
              && (forall j | stuck < j < n :: action(initial[j]) == Ok(devs[j]))
  {
    stuck := 0;
    for i := 0 to n
      invariant forall j | 0 <= j < devs.Length && (j < i || n <= j) :: devs[j] == initial[j]
      invariant forall j | i <= j < n :: action(initial[j]) == Ok(devs[j])
    {
      var step := rollback(i, devs[i]);
      devs[i] := step.state;
      if step.Err? { return RollbackError(causal, step.code), i; }
    }
    return Causal(causal), 0;
  }
}
