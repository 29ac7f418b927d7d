/**
 Device discovery and the engine's table of pools, driven by udev events and by pool
 operations. What lies behind a set up attempt (reading block device areas, the metadata,
 starting the pool) is an arbitrary outcome, except that the name check is made here.
 */
module Engine {
  import opened Prelude
  import opened BlockDevs
  import opened DeviceInfo
  import Table

  datatype Pool = Pool(id: nat, hasFilesystems: bool)

  type PoolTab = Table.Tab<PoolUuid, Pool>

  /** How an attempt to set up a pool goes, once its devices have been collected. */
  datatype Attempt =
    | BeforeMetadata(hopeless: bool)
    | WithMetadata(name: string, after: AfterMetadata)

  datatype AfterMetadata = Started(pool: Pool) | NotStarted(hopeless: bool)

  datatype Setup = Up(name: string, pool: Pool) | GoHopeless | GoErrored

  predicate Starts(names: map<string, PoolUuid>, a: Attempt) {
    a.WithMetadata? && a.name !in names && a.after.Started?
  }

  /** Set up finds that the devices can never make a pool; a name in use is not such a case. */
  predicate Futile(names: map<string, PoolUuid>, a: Attempt) {
    match a
    case BeforeMetadata(hopeless) => hopeless
    case WithMetadata(name, after) => name !in names && after.NotStarted? && after.hopeless
  }

  /** The attempt in the context of the pools that are already up: a name conflict is an error. */
  function SetupPool(names: map<string, PoolUuid>, a: Attempt): (r: Setup)
    ensures r.Up? ==> r.name !in names
    ensures r.Up? <==> Starts(names, a)
    ensures r.GoHopeless? <==> Futile(names, a)
    ensures r.Up? ==> r == Up(a.name, a.after.pool)
  {
    match a
    case BeforeMetadata(hopeless) => if hopeless then GoHopeless else GoErrored
    case WithMetadata(name, after) =>
      if name in names then GoErrored
      else match after
           case Started(pool) => Up(name, pool)
           case NotStarted(hopeless) => if hopeless then GoHopeless else GoErrored
  }

  predicate SomeClosed(m: Devices) {
    exists d | d in m :: m[d].IsClosed()
  }

  datatype Liminal = Liminal(errored: map<PoolUuid, Devices>, hopeless: map<PoolUuid, set<LInfo>>)

  datatype Tried = Tried(liminal: Liminal, up: Option<(string, Pool)>)

  /** Try to make a pool of a set of devices, or file the set where it belongs. */
  function TrySetup(names: map<string, PoolUuid>, l: Liminal, p: PoolUuid, m: Devices, a: Attempt): Tried {
    if SomeClosed(m) then Tried(l.(errored := l.errored[p := m]), None)
    else match SetupPool(names, a)
         case Up(name, pool) => Tried(l, Some((name, pool)))
         case GoHopeless => Tried(l.(hopeless := l.hopeless[p := Bag(m)]), None)
         case GoErrored => Tried(l.(errored := l.errored[p := m]), None)
  }

  function ErroredSet(l: Liminal, p: PoolUuid): Devices {
    if p in l.errored then l.errored[p] else map[]
  }

  datatype EventType = AddEvent | ChangeEvent | RemoveEvent | OtherEvent

  // ----- states

  datatype State = State(pools: PoolTab, liminal: Liminal)

  /** A pool uuid is in at most one place, and everything stored is filed where it belongs. */
  ghost predicate Inv(s: State) {
    && Table.Inverse(s.pools)
    && s.liminal.errored.Keys !! s.liminal.hopeless.Keys
    && s.pools.items.Keys !! s.liminal.errored.Keys
    && s.pools.items.Keys !! s.liminal.hopeless.Keys
    && (forall p | p in s.liminal.errored :: WfSet(p, s.liminal.errored[p]))
    && (forall p, i | p in s.liminal.hopeless && i in s.liminal.hopeless[p] :: i.Ids().pool == p)
  }

  ghost predicate SetsOk(l: Liminal) {
    forall p | p in l.errored :: WfSet(p, l.errored[p])
  }

  /** What a udev event does to the devices in limbo, and whether a pool comes up. */
  function Evaluate(s: State, kind: EventType, info: Option<Info>, a: Attempt): Tried
    requires SetsOk(s.liminal)
  {
    var l := s.liminal;
    if kind.OtherEvent? || info.None? then Tried(l, None)
    else
      var i := info.value;
      var p := i.Ids().pool;
      if p in s.pools.items then Tried(l, None)
      else if p in l.hopeless then
        var bag := if kind.RemoveEvent? then l.hopeless[p] - {FromInfo(i)} else l.hopeless[p] + {FromInfo(i)};
        Tried(l.(hopeless := l.hopeless[p := bag]), None)
      else
        var m, rest := ErroredSet(l, p), l.(errored := l.errored - {p});
        if kind.RemoveEvent? then TrySetup(s.pools.names, rest, p, ProcessRemove(m, i), a)
        else
          match ProcessAdd(p, m, i)
          case Hopeless(bag) => Tried(rest.(hopeless := rest.hopeless[p := bag]), None)
          case Added(m') => TrySetup(s.pools.names, rest, p, m', a)
  }

  datatype Op =
    | Udev(kind: EventType, info: Option<Info>, attempt: Attempt)
    | Create(name: string, created: Option<(PoolUuid, Pool)>)
    | Destroy(uuid: PoolUuid, destroyed: bool)
    | Rename(uuid: PoolUuid, newName: string, written: bool)

  /** A created pool has a uuid that has not been seen before. */
  ghost predicate Enabled(s: State, op: Op) {
    op.Create? && op.created.Some? ==>
      var u := op.created.value.0;
      u !in s.pools.items && u !in s.liminal.errored && u !in s.liminal.hopeless
  }

  function Next(s: State, op: Op): State
    requires SetsOk(s.liminal)
  {
    match op
    case Udev(kind, info, attempt) =>
      var t := Evaluate(s, kind, info, attempt);
      State(if t.up.Some? then Table.Inserted(s.pools, t.up.value.0, info.value.Ids().pool, t.up.value.1) else s.pools,
            t.liminal)
    case Create(name, created) =>
      if name in s.pools.names || created.None? then s
      else s.(pools := Table.Inserted(s.pools, name, created.value.0, created.value.1))
    case Destroy(uuid, destroyed) =>
      if uuid in s.pools.items && !s.pools.items[uuid].item.hasFilesystems && destroyed
      then s.(pools := Table.Removed(s.pools, uuid)) else s
    case Rename(uuid, newName, written) =>
      if uuid in s.pools.items && s.pools.items[uuid].name != newName && newName !in s.pools.names && written
      then s.(pools := Table.Inserted(Table.Removed(s.pools, uuid), newName, uuid, s.pools.items[uuid].item))
      else s
  }

  // ----- every step keeps the invariant

  lemma EvaluateUp(s: State, kind: EventType, info: Option<Info>, a: Attempt)
    requires Inv(s) && Evaluate(s, kind, info, a).up.Some?
    ensures info.Some?
    ensures var t, p := Evaluate(s, kind, info, a), info.value.Ids().pool;
            && t.up.value.0 !in s.pools.names && p !in s.pools.items
            && p !in t.liminal.errored && p !in t.liminal.hopeless
  {
  }

  lemma EvaluateKeeps(s: State, kind: EventType, info: Option<Info>, a: Attempt)
    requires Inv(s)
    ensures Inv(s.(liminal := Evaluate(s, kind, info, a).liminal))
  {
    if !kind.OtherEvent? && info.Some? {
      var i := info.value;
      var p := i.Ids().pool;
      if p !in s.pools.items && p !in s.liminal.hopeless {
        var m := ErroredSet(s.liminal, p);
        assert WfSet(p, m);
        if kind.RemoveEvent? {
          ProcessRemoveWf(p, m, i);
          TryKeeps(s, p, ProcessRemove(m, i), a);
        } else if ProcessAdd(p, m, i).Added? {
          ProcessAddWf(p, m, i);
          TryKeeps(s, p, ProcessAdd(p, m, i).set', a);
        } else {
          BagIds(p, m, i);
        }
      }
    }
  }

  lemma BagIds(p: PoolUuid, m: Devices, i: Info)
    requires WfSet(p, m) && i.Ids().pool == p
    ensures forall l | l in Bag(m) + {FromInfo(i)} :: l.Ids().pool == p
  {
  }

  lemma TryKeeps(s: State, p: PoolUuid, m: Devices, a: Attempt)
    requires Inv(s) && WfSet(p, m) && p !in s.pools.items && p !in s.liminal.hopeless
    ensures Inv(s.(liminal := TrySetup(s.pools.names, s.liminal.(errored := s.liminal.errored - {p}), p, m, a).liminal))
  {
    forall l | l in Bag(m) ensures l.Ids().pool == p { var d :| d in m && m[d] == l; }
  }

  lemma StepKeepsInv(s: State, op: Op)
    requires Inv(s) && Enabled(s, op)
    ensures Inv(Next(s, op))
  {
    match op {
      case Udev(kind, info, attempt) =>
        EvaluateKeeps(s, kind, info, attempt);
        var t := Evaluate(s, kind, info, attempt);
        if t.up.Some? {
          EvaluateUp(s, kind, info, attempt);
          Table.InsertedInverse(s.pools, t.up.value.0, info.value.Ids().pool, t.up.value.1);
        }
      case Create(name, created) =>
        if name !in s.pools.names && created.Some? {
          Table.InsertedInverse(s.pools, name, created.value.0, created.value.1);
        }
      case Destroy(uuid, destroyed) => Table.RemovedInverse(s.pools, uuid);
      case Rename(uuid, newName, written) =>
        Table.RemovedInverse(s.pools, uuid);
        if uuid in s.pools.items {
          Table.InsertedInverse(Table.Removed(s.pools, uuid), newName, uuid, s.pools.items[uuid].item);
        }
    }
  }

  ghost predicate IsRun(states: seq<State>, ops: seq<Op>) {
    && |states| == |ops| + 1
    && forall i | 0 <= i < |ops| ::
         SetsOk(states[i].liminal) && Enabled(states[i], ops[i]) && states[i + 1] == Next(states[i], ops[i])
  }

  lemma {:induction false} RunKeepsInv(states: seq<State>, ops: seq<Op>, n: nat)
    requires IsRun(states, ops) && Inv(states[0]) && n < |states|
    ensures Inv(states[n])
    decreases n
  {
    if n > 0 {
      RunKeepsInv(states, ops, n - 1);
      assert states[n - 1 + 1] == Next(states[n - 1], ops[n - 1]);
      StepKeepsInv(states[n - 1], ops[n - 1]);
    }
  }

  /** `t'` is `t` with one more pool. */
  ghost predicate Gains(t: PoolTab, t': PoolTab, name: string, u: PoolUuid, pool: Pool) {
    t'.items == t.items[u := Table.Item(name, pool)] && t'.names == t.names[name := u]
  }

  /**
   When each operation has an effect, and the whole table after it: a pool is created exactly under a free name,
   destroyed exactly if it has no filesystems, renamed exactly to a free name.
   */
  lemma TableExact(s: State, op: Op)
    requires Inv(s) && Enabled(s, op)
    ensures var t, t' := s.pools, Next(s, op).pools;
            match op
            case Udev(kind, info, a) =>
              (match Evaluate(s, kind, info, a).up
               case Some(up) => Gains(t, t', up.0, info.value.Ids().pool, up.1)
               case None => t' == t)
            case Create(name, created) =>
              if created.Some? && name !in t.names then Gains(t, t', name, created.value.0, created.value.1) else t' == t
            case Destroy(u, destroyed) =>
              if u in t.items && !t.items[u].item.hasFilesystems && destroyed
              then t'.items == t.items - {u} && t'.names == t.names - {t.items[u].name} else t' == t
            case Rename(u, newName, written) =>
              if u in t.items && newName !in t.names && written
              then && t'.items == t.items[u := Table.Item(newName, t.items[u].item)]
                   && t'.names == (t.names - {t.items[u].name})[newName := u]
              else t' == t
    ensures !op.Udev? ==> Next(s, op).liminal == s.liminal
  {
    if op.Udev? && Evaluate(s, op.kind, op.info, op.attempt).up.Some? { EvaluateUp(s, op.kind, op.info, op.attempt); }
  }

  /** No step makes an active pool disappear except its own destruction. */
  lemma PoolsStay(s: State, op: Op, u: PoolUuid)
    requires Inv(s) && Enabled(s, op) && u in s.pools.items
    ensures u in Next(s, op).pools.items
            || (op.Destroy? && op.uuid == u && op.destroyed && !s.pools.items[u].item.hasFilesystems)
    ensures u in Next(s, op).pools.items ==>
              && Next(s, op).pools.items[u].item == s.pools.items[u].item
              && (Next(s, op).pools.items[u].name == s.pools.items[u].name || (op.Rename? && op.uuid == u))
  {
    if op.Udev? && Evaluate(s, op.kind, op.info, op.attempt).up.Some? { EvaluateUp(s, op.kind, op.info, op.attempt); }
  }
}
