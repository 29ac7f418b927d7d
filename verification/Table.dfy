/** A table of items reachable by name and by uuid. */
module Table {
  import opened Prelude

  datatype Item<T> = Item(name: string, item: T)
  datatype Entry<U, T> = Entry(name: string, uuid: U, item: T)

  /** The value of a table. */
  datatype Tab<U(==), T> = Tab(names: map<string, U>, items: map<U, Item<T>>)

  /** The two maps are inverse to one another. */
  ghost predicate Inverse<U, T>(t: Tab<U, T>) {
    && (forall u | u in t.items :: t.items[u].name in t.names && t.names[t.items[u].name] == u)
    && (forall n | n in t.names :: t.names[n] in t.items && t.items[t.names[n]].name == n)
  }

  /** The entries that give way to a new one, the one with the same name first. */
  function Displaced<U, T>(t: Tab<U, T>, name: string, uuid: U): seq<Entry<U, T>> {
    (if name in t.names && t.names[name] != uuid && t.names[name] in t.items
     then [Entry(name, t.names[name], t.items[t.names[name]].item)] else [])
    + (if uuid in t.items then [Entry(t.items[uuid].name, uuid, t.items[uuid].item)] else [])
  }

  /** The table in which exactly the displaced entries have been replaced by the new one. */
  function Inserted<U, T>(t: Tab<U, T>, name: string, uuid: U, item: T): Tab<U, T> {
    Tab((t.names - (if uuid in t.items then {t.items[uuid].name} else {}))[name := uuid],
        (t.items - (if name in t.names then {t.names[name]} else {}))[uuid := Item(name, item)])
  }

  function Removed<U, T>(t: Tab<U, T>, uuid: U): Tab<U, T> {
    if uuid in t.items then Tab(t.names - {t.items[uuid].name}, t.items - {uuid}) else t
  }

  lemma InsertedInverse<U, T>(t: Tab<U, T>, name: string, uuid: U, item: T)
    requires Inverse(t)
    ensures Inverse(Inserted(t, name, uuid, item))
  {
  }

  lemma RemovedInverse<U, T>(t: Tab<U, T>, uuid: U)
    requires Inverse(t)
    ensures Inverse(Removed(t, uuid))
  {
  }

  /** Displaced and kept entries are exactly the old entries, each on one side only, and the new entry is there. */
  lemma DisplacedAndKept<U, T>(t: Tab<U, T>, name: string, uuid: U, item: T, e: Entry<U, T>)
    requires Inverse(t)
    ensures var t', out := Inserted(t, name, uuid, item), Displaced(t, name, uuid);
            && (e in out ==> e.uuid in t.items && t.items[e.uuid] == Item(e.name, e.item))
            && (e.uuid in t.items && t.items[e.uuid] == Item(e.name, e.item) ==>
                  (e in out <==> !(e.uuid != uuid && e.uuid in t'.items && t'.items[e.uuid] == t.items[e.uuid])))
            && (e.uuid != uuid && e.uuid in t'.items ==> e.uuid in t.items && t'.items[e.uuid] == t.items[e.uuid])
            && uuid in t'.items && t'.items[uuid] == Item(name, item)
  {
  }

  /** Removing an item and inserting it again under its name leaves the table as it was. */
  lemma RemoveInsert<U, T>(t: Tab<U, T>, uuid: U)
    requires Inverse(t) && uuid in t.items
    ensures Inserted(Removed(t, uuid), t.items[uuid].name, uuid, t.items[uuid].item) == t
    ensures Displaced(Removed(t, uuid), t.items[uuid].name, uuid) == []
  {
  }

  class Table<U(==), T> {
    var names: map<string, U>
    var items: map<U, Item<T>>

    ghost function Value(): Tab<U, T> reads this { Tab(names, items) }

    ghost predicate Valid() reads this { Inverse(Value()) }

    constructor ()
      ensures Valid() && Value() == Tab(map[], map[])
    {
      names, items := map[], map[];
    }

    /** Looking up by name finds what looking up by the uuid found gives. */
    function GetByName(name: string): (r: Option<Entry<U, T>>)
      requires Valid()
      reads this
      ensures r.None? ==> forall uuid | uuid in items :: items[uuid].name != name
      ensures r.Some? ==> r.value.name == name && GetByUuid(r.value.uuid) == r
    {
      if name in names then Some(Entry(name, names[name], items[names[name]].item)) else None
    }

    function GetByUuid(uuid: U): (r: Option<Entry<U, T>>)
      requires Valid()
      reads this
      ensures r.Some? <==> uuid in items
      ensures r.Some? ==> r.value.uuid == uuid && r.value.name in names && names[r.value.name] == uuid
    {
      if uuid in items then Some(Entry(items[uuid].name, uuid, items[uuid].item)) else None
    }

    method RemoveByUuid(uuid: U) returns (r: Option<Entry<U, T>>)
      requires Valid()
      modifies this
      ensures Valid() && Value() == Removed(old(Value()), uuid)
      ensures r == old(GetByUuid(uuid))
    {
      RemovedInverse(Value(), uuid);
      r := GetByUuid(uuid);
      if uuid in items {
        var name := items[uuid].name;
        items := items - {uuid};
        names := names - {name};
      }
    }

    method RemoveByName(name: string) returns (r: Option<Entry<U, T>>)
      requires Valid()
      modifies this
      ensures Valid() && r == old(GetByName(name))
      ensures Value() == if name in old(names) then Removed(old(Value()), old(names)[name]) else old(Value())
    {
      r := GetByName(name);
      if name in names {
        RemovedInverse(Value(), names[name]);
        var uuid := names[name];
        names := names - {name};
        items := items - {uuid};
      }
    }

    method Insert(name: string, uuid: U, item: T) returns (displaced: seq<Entry<U, T>>)
      requires Valid()
      modifies this
      ensures Valid() && Value() == Inserted(old(Value()), name, uuid, item)
      ensures displaced == Displaced(old(Value()), name, uuid)
    {
      InsertedInverse(Value(), name, uuid, item);
      displaced := Replace(name, uuid, item);
    }

    /** Insert, returning what is displaced. The assertions are those of the original, and never fail. */
    method Replace(name: string, uuid: U, item: T) returns (displaced: seq<Entry<U, T>>)
      requires Valid()
      modifies this
      ensures names == Inserted(old(Value()), name, uuid, item).names
      ensures items == Inserted(old(Value()), name, uuid, item).items
      ensures displaced == Displaced(old(Value()), name, uuid)
    {
      ghost var before := Value();
      var oldUuid := if name in names then Some(names[name]) else None;
      var oldPair := if uuid in items then Some(items[uuid]) else None;
      names := names[name := uuid];
      items := items[uuid := Item(name, item)];
      match (oldUuid, oldPair)
      case (Some(u), Some(pair)) =>
        if u == uuid {
          assert pair.name == name;
          displaced := [Entry(name, uuid, pair.item)];
          Overwrite(before.names, name, uuid);
          Overwrite(before.items, uuid, Item(name, item));
        } else {
          assert pair.name != name;
          assert pair.name in names && u in items;
          var other := items[u];
          assert other.name == name && names[pair.name] == uuid;
          UpdateThenRemove(before.names, name, uuid, pair.name);
          UpdateThenRemove(before.items, uuid, Item(name, item), u);
          names := names - {pair.name};
          items := items - {u};
          displaced := [Entry(name, u, other.item), Entry(pair.name, uuid, pair.item)];
        }
      case (Some(u), None) =>
        assert u in items;
        var other := items[u];
        assert other.name == name;
        UpdateThenRemove(before.items, uuid, Item(name, item), u);
        items := items - {u};
        displaced := [Entry(name, u, other.item)];
      case (None, Some(pair)) =>
        assert pair.name in names && names[pair.name] == uuid;
        UpdateThenRemove(before.names, name, uuid, pair.name);
        names := names - {pair.name};
        displaced := [Entry(pair.name, uuid, pair.item)];
      case (None, None) =>
        displaced := [];
    }
  }

  lemma UpdateThenRemove<K, V>(m: map<K, V>, k: K, v: V, other: K)
    requires k != other
    ensures m[k := v] - {other} == (m - {other})[k := v]
  {
  }

  lemma Overwrite<K, V>(m: map<K, V>, k: K, v: V)
    ensures (m - {k})[k := v] == m[k := v]
  {
  }
}
