/** The devices in limbo and the engine as objects. */
module EngineObjects {
  import opened Prelude
  import opened BlockDevs
  import opened DeviceInfo
  import opened Engine
  import Table

  type PoolTable = Table.Table<PoolUuid, Pool>

  class LiminalDevices {
    var errored: map<PoolUuid, Devices>
    var hopeless: map<PoolUuid, set<LInfo>>

    ghost function Value(): Liminal reads this { Liminal(errored, hopeless) }

    constructor ()
      ensures Value() == Liminal(map[], map[])
    {
      errored, hopeless := map[], map[];
    }

    /** The preconditions are the assertions of the original. */
    method TrySetupPool(names: map<string, PoolUuid>, ghost items: set<PoolUuid>, p: PoolUuid, infos: Devices, a: Attempt)
      returns (up: Option<(string, Pool)>)
      requires p !in items && p !in errored && p !in hopeless
      modifies this
      ensures Tried(Value(), up) == TrySetup(names, old(Value()), p, infos, a)
      ensures if !SomeClosed(infos) && Starts(names, a) then up == Some((a.name, a.after.pool)) && Value() == old(Value())
              else if !SomeClosed(infos) && Futile(names, a) then
                up == None && errored == old(errored) && hopeless == old(hopeless)[p := infos.Values]
              else up == None && hopeless == old(hopeless) && errored == old(errored)[p := infos]
    {
      if SomeClosed(infos) {
        errored := errored[p := infos];
        return None;
      }
      match SetupPool(names, a)
      case Up(name, pool) => up := Some((name, pool));
      case GoHopeless =>
        hopeless := hopeless[p := infos.Values];
        up := None;
      case GoErrored =>
        errored := errored[p := infos];
        up := None;
    }

    method BlockEvaluate(pools: PoolTable, kind: EventType, info: Option<Info>, a: Attempt) returns (up: Option<(string, Pool)>)
      requires Inv(State(pools.Value(), Value()))
      modifies this
      ensures Tried(Value(), up) == Evaluate(State(pools.Value(), old(Value())), kind, info, a)
    {
      if kind.OtherEvent? || info.None? { return None; }
      var i := info.value;
      var p := i.Ids().pool;
      if p in pools.items { return None; }
      if p in hopeless {
        var bag := hopeless[p];
        if kind.RemoveEvent? { bag := bag - {FromInfo(i)}; } else { bag := bag + {FromInfo(i)}; }
        hopeless := hopeless[p := bag];
        return None;
      }
      var devices := new DeviceSet.Of(p, if p in errored then errored[p] else map[]);
      errored := errored - {p};
      if kind.RemoveEvent? {
        devices.ProcessInfoRemove(i);
      } else {
        var bag := devices.ProcessInfoAdd(i);
        if bag.Some? {
          hopeless := hopeless[p := bag.value];
          return None;
        }
      }
      up := TrySetupPool(pools.names, pools.items.Keys, p, devices.internal, a);
    }
  }

  datatype CreateOutcome = Created(uuid: PoolUuid) | AsBefore | NotCreated
  datatype DeleteOutcome = NoPool | Deleted | NotDeleted
  datatype RenameOutcome = NoSource | Same | Renamed | NotRenamed

  class StratEngine {
    const pools: PoolTable
    const liminal: LiminalDevices

    ghost function Value(): State reads this, pools, liminal { State(pools.Value(), liminal.Value()) }

    ghost predicate Valid() reads this, pools, liminal { Inv(Value()) }

    constructor Of(pools: PoolTable, liminal: LiminalDevices)
      requires Inv(State(pools.Value(), liminal.Value()))
      ensures Valid() && this.pools == pools && this.liminal == liminal
    {
      this.pools := pools;
      this.liminal := liminal;
    }

    method HandleEvent(kind: EventType, info: Option<Info>, a: Attempt) returns (up: Option<(string, Pool)>)
      requires Valid()
      modifies pools, liminal
      ensures Valid() && Value() == Next(old(Value()), Udev(kind, info, a))
      ensures up == Evaluate(old(Value()), kind, info, a).up
      ensures up.None? ==> pools.Value() == old(pools.Value())
      ensures up.Some? ==> info.Some? && Gains(old(pools.Value()), pools.Value(), up.value.0, info.value.Ids().pool, up.value.1)
    {
      ghost var s := Value();
      EvaluateKeeps(s, kind, info, a);
      StepKeepsInv(s, Udev(kind, info, a));
      TableExact(s, Udev(kind, info, a));
      up := liminal.BlockEvaluate(pools, kind, info, a);
      if up.Some? {
        EvaluateUp(s, kind, info, a);
        var displaced := pools.Insert(up.value.0, info.value.Ids().pool, up.value.1);
        assert displaced == [];
      }
    }

    /**
     `created` is what initializing the devices gives: a pool with a new uuid, or an error;
     `sameDevices` says that a pool which already has the name has just these devices.
     */
    method CreatePool(name: string, created: Option<(PoolUuid, Pool)>, sameDevices: bool) returns (r: CreateOutcome)
      requires Valid() && Enabled(Value(), Create(name, created))
      modifies pools
      ensures Valid() && Value() == Next(old(Value()), Create(name, created))
      ensures r.AsBefore? <==> name in old(pools.names) && sameDevices
      ensures r.Created? <==> name !in old(pools.names) && created.Some?
      ensures r.Created? ==>
                && r.uuid == created.value.0 && liminal.Value() == old(liminal.Value())
                && Gains(old(pools.Value()), pools.Value(), name, created.value.0, created.value.1)
      ensures !r.Created? ==> Value() == old(Value())
    {
      StepKeepsInv(Value(), Create(name, created));
      TableExact(Value(), Create(name, created));
      if name in pools.names { return if sameDevices then AsBefore else NotCreated; }
      if created.None? { return NotCreated; }
      var displaced := pools.Insert(name, created.value.0, created.value.1);
      assert displaced == [];
      return Created(created.value.0);
    }

    /** A pool whose destruction fails goes back where it was. */
    method DestroyPool(uuid: PoolUuid, destroyed: bool) returns (r: DeleteOutcome)
      requires Valid()
      modifies pools
      ensures Valid() && Value() == Next(old(Value()), Destroy(uuid, destroyed))
      ensures r.NoPool? <==> uuid !in old(pools.items)
      ensures r.Deleted? <==> uuid in old(pools.items) && !old(pools.items)[uuid].item.hasFilesystems && destroyed
      ensures r.Deleted? ==>
                && pools.items == old(pools.items) - {uuid} && liminal.Value() == old(liminal.Value())
                && pools.names == old(pools.names) - {old(pools.items)[uuid].name}
      ensures !r.Deleted? ==> Value() == old(Value())
    {
      StepKeepsInv(Value(), Destroy(uuid, destroyed));
      TableExact(Value(), Destroy(uuid, destroyed));
      if uuid !in pools.items { return NoPool; }
      if pools.items[uuid].item.hasFilesystems { return NotDeleted; }
      Table.RemoveInsert(pools.Value(), uuid);
      var removed := pools.RemoveByUuid(uuid);
      if !destroyed {
        var displaced := pools.Insert(removed.value.name, uuid, removed.value.item);
        assert displaced == [];
        return NotDeleted;
      }
      return Deleted;
    }

    /** A pool whose new name cannot be written goes back under its old name. */
    method RenamePool(uuid: PoolUuid, newName: string, written: bool) returns (r: RenameOutcome)
      requires Valid()
      modifies pools
      ensures Valid() && Value() == Next(old(Value()), Rename(uuid, newName, written))
      ensures r.NoSource? <==> uuid !in old(pools.items)
      ensures r.Same? <==> uuid in old(pools.items) && old(pools.items)[uuid].name == newName
      ensures r.Renamed? <==> uuid in old(pools.items) && newName !in old(pools.names) && written
      ensures r.Renamed? ==>
                && pools.items == old(pools.items)[uuid := Table.Item(newName, old(pools.items)[uuid].item)]
                && pools.names == (old(pools.names) - {old(pools.items)[uuid].name})[newName := uuid]
                && liminal.Value() == old(liminal.Value())
      ensures !r.Renamed? ==> Value() == old(Value())
    {
      StepKeepsInv(Value(), Rename(uuid, newName, written));
      TableExact(Value(), Rename(uuid, newName, written));
      if uuid !in pools.items { return NoSource; }
      var oldName := pools.items[uuid].name;
      if oldName == newName { return Same; }
      if newName in pools.names { return NotRenamed; }
      Table.RemoveInsert(pools.Value(), uuid);
      var removed := pools.RemoveByUuid(uuid);
      if !written {
        var displaced := pools.Insert(oldName, uuid, removed.value.item);
        assert displaced == [];
        return NotRenamed;
      }
      var displaced := pools.Insert(newName, uuid, removed.value.item);
      assert displaced == [];
      return Renamed;
    }
  }
}
