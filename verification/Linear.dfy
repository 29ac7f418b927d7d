/** Lists of segments as linear devicemapper tables. */
module Linear {
  import opened Prelude
  import opened RangeAlloc
  import opened BlockDevs

  datatype TargetLine = TargetLine(start: nat, length: Sectors, device: Device, physical: Sectors) {
    ghost predicate Serves(x: int, device: Device, sector: int) {
      start <= x < start + length && device == this.device && sector == physical + (x - start)
    }
  }

  type Table = seq<TargetLine>

  function TableSize(t: Table): nat {
    if t == [] then 0 else t[0].length + TableSize(t[1..])
  }

  /** Sector `x` of the linear device is served by sector `sector` of `device`. */
  ghost predicate MapsTo(t: Table, x: int, device: Device, sector: int) {
    exists i :: 0 <= i < |t| && t[i].Serves(x, device, sector)
  }

  lemma MapsToCons(line: TargetLine, rest: Table, x: int, device: Device, sector: int)
    ensures MapsTo([line] + rest, x, device, sector)
            <==> line.Serves(x, device, sector) || MapsTo(rest, x, device, sector)
  {
    var t := [line] + rest;
    if MapsTo(rest, x, device, sector) {
      var i :| 0 <= i < |rest| && rest[i].Serves(x, device, sector);
      assert t[i + 1].Serves(x, device, sector);
    }
    if line.Serves(x, device, sector) { assert t[0].Serves(x, device, sector); }
  }

  /** The table maps logical sector `x` to `phys[x]` and maps nothing else. */
  ghost predicate Denotes(t: Table, phys: seq<Loc>) {
    && TableSize(t) == |phys|
    && (forall x | 0 <= x < |phys| :: MapsTo(t, x, phys[x].device, phys[x].sector))
    && (forall x, device, sector | MapsTo(t, x, device, sector) ::
          0 <= x < |phys| && device == phys[x].device && sector == phys[x].sector)
  }

  function TableFrom(segs: seq<BlkDevSegment>, offset: nat): Table {
    if segs == [] then []
    else [TargetLine(offset, segs[0].length, segs[0].device, segs[0].start)]
         + TableFrom(segs[1..], offset + segs[0].length)
  }

  method MapToDm(segs: seq<BlkDevSegment>) returns (table: Table)
    ensures table == TableFrom(segs, 0)
    ensures Denotes(table, Phys(segs))
  {
    table := [];
    var offset: nat := 0;
    for i := 0 to |segs|
      invariant table + TableFrom(segs[i..], offset) == TableFrom(segs, 0)
    {
      var rest := segs[i..];
      assert rest[0] == segs[i] && rest[1..] == segs[i + 1..];
      table := table + [TargetLine(offset, segs[i].length, segs[i].device, segs[i].start)];
      offset := offset + segs[i].length;
    }
    TableDenotes(segs);
  }

  lemma {:induction false} TableFromSize(segs: seq<BlkDevSegment>, offset: nat)
    ensures TableSize(TableFrom(segs, offset)) == |Phys(segs)|
  {
    if segs != [] { TableFromSize(segs[1..], offset + segs[0].length); }
  }

  lemma {:induction false} TableFromMaps(segs: seq<BlkDevSegment>, offset: nat, x: int, device: Device, sector: int)
    ensures MapsTo(TableFrom(segs, offset), x, device, sector) <==>
            offset <= x < offset + |Phys(segs)|
            && device == Phys(segs)[x - offset].device && sector == Phys(segs)[x - offset].sector
  {
    if segs != [] {
      var s := segs[0];
      TableFromMaps(segs[1..], offset + s.length, x, device, sector);
      MapsToCons(TargetLine(offset, s.length, s.device, s.start), TableFrom(segs[1..], offset + s.length),
                 x, device, sector);
    }
  }

  lemma TableDenotes(segs: seq<BlkDevSegment>)
    ensures Denotes(TableFrom(segs, 0), Phys(segs))
  {
    TableFromSize(segs, 0);
    var phys := Phys(segs);
    forall x | 0 <= x < |phys| ensures MapsTo(TableFrom(segs, 0), x, phys[x].device, phys[x].sector) {
      TableFromMaps(segs, 0, x, phys[x].device, phys[x].sector);
    }
    forall x, device, sector | MapsTo(TableFrom(segs, 0), x, device, sector)
      ensures 0 <= x < |phys| && device == phys[x].device && sector == phys[x].sector
    {
      TableFromMaps(segs, 0, x, device, sector);
    }
  }

  /** The new segments can follow the old ones without a length or an end overflowing. */
  ghost predicate Coalescable(left: seq<BlkDevSegment>, right: seq<BlkDevSegment>) {
    && (forall s | s in right :: s.start + s.length <= U64_MAX)
    && (forall s, t | s in left && t in right && s.uuid == t.uuid :: s.device == t.device)
  }

  /** Append, merging the last of `left` with the first of `right` when they are adjacent. */
  function Coalesce(left: seq<BlkDevSegment>, right: seq<BlkDevSegment>): (segs: seq<BlkDevSegment>)
    requires Coalescable(left, right)
    ensures |left| + |right| - 1 <= |segs| <= |left| + |right|
  {
    if left == [] then right
    else if right == [] then left
    else
      var last, first := left[|left| - 1], right[0];
      if Adjacent(last, first)
      then left[..|left| - 1] + [Merge(last, first)] + right[1..]
      else left + right
  }

  predicate Adjacent(last: BlkDevSegment, first: BlkDevSegment) {
    last.uuid == first.uuid && last.start + last.length == first.start
  }

  function Merge(last: BlkDevSegment, first: BlkDevSegment): BlkDevSegment
    requires last.length + first.length <= U64_MAX
  {
    last.(length := last.length + first.length)
  }

  /** Segment `i + 1` goes on where segment `i` ends. */
  ghost predicate MeetAt(segs: seq<BlkDevSegment>, i: nat)
    requires i + 1 < |segs|
  {
    Adjacent(segs[i], segs[i + 1])
  }

  ghost predicate NoneAdjacent(segs: seq<BlkDevSegment>) {
    forall i: nat | i + 1 < |segs| :: !MeetAt(segs, i)
  }

  /** Neighbours at the front of `segs` meet as those of `left` do, and from `at` on as those of `right` do. */
  ghost predicate MeetAlike(segs: seq<BlkDevSegment>, left: seq<BlkDevSegment>, right: seq<BlkDevSegment>, at: nat) {
    && |segs| == at + |right| && |left| <= at + 1
    && (forall i: nat | i + 1 < |left| && i + 1 < |segs| :: MeetAt(segs, i) <==> MeetAt(left, i))
    && (forall i: nat | i + 1 < |right| :: MeetAt(segs, at + i) <==> MeetAt(right, i))
  }

  lemma MeetsLeft(left: seq<BlkDevSegment>, merged: BlkDevSegment, rest: seq<BlkDevSegment>, i: nat)
    requires i + 1 < |left| && merged.uuid == left[|left| - 1].uuid && merged.start == left[|left| - 1].start
    ensures MeetAt(left[..|left| - 1] + [merged] + rest, i) <==> MeetAt(left, i)
  {
    Parts(left[..|left| - 1], merged, rest);
  }

  lemma MeetsRight(front: seq<BlkDevSegment>, merged: BlkDevSegment, right: seq<BlkDevSegment>, i: nat)
    requires i + 1 < |right| && merged.uuid == right[0].uuid
    requires merged.start + merged.length == right[0].start + right[0].length
    ensures MeetAt(front + [merged] + right[1..], |front| + i) <==> MeetAt(right, i)
  {
    var rest, segs := right[1..], front + [merged] + right[1..];
    Parts(front, merged, rest);
    assert segs[|front| + 1 + i] == rest[i];
    if i > 0 { assert segs[|front| + 1 + (i - 1)] == rest[i - 1]; }
  }

  lemma Parts<T>(a: seq<T>, x: T, b: seq<T>)
    ensures var s := a + [x] + b;
            && |s| == |a| + 1 + |b| && s[|a|] == x
            && (forall i | 0 <= i < |a| :: s[i] == a[i])
            && (forall i | 0 <= i < |b| :: s[|a| + 1 + i] == b[i])
  {
  }

  lemma MergedMeet(left: seq<BlkDevSegment>, right: seq<BlkDevSegment>)
    requires Coalescable(left, right) && left != [] && right != [] && Adjacent(left[|left| - 1], right[0])
    ensures MeetAlike(Coalesce(left, right), left, right, |left| - 1)
  {
    var n := |left| - 1;
    assert left[n] in left && right[0] in right;
    var merged := Merge(left[n], right[0]);
    var segs := left[..n] + [merged] + right[1..];
    assert segs == Coalesce(left, right);
    forall i: nat | i + 1 < |left| && i + 1 < |segs| ensures MeetAt(segs, i) <==> MeetAt(left, i) { MeetsLeft(left, merged, right[1..], i); }
    forall i: nat | i + 1 < |right| ensures MeetAt(segs, n + i) <==> MeetAt(right, i) { MeetsRight(left[..n], merged, right, i); }
  }

  lemma AppendedMeet(left: seq<BlkDevSegment>, right: seq<BlkDevSegment>)
    requires Coalescable(left, right) && left != [] && right != [] && !Adjacent(left[|left| - 1], right[0])
    ensures MeetAlike(Coalesce(left, right), left, right, |left|) && !MeetAt(Coalesce(left, right), |left| - 1)
  {
  }

  lemma ApartAlike(segs: seq<BlkDevSegment>, left: seq<BlkDevSegment>, right: seq<BlkDevSegment>, at: nat)
    requires MeetAlike(segs, left, right, at) && left != [] && right != [] && |left| - 1 <= at <= |left|
    requires at == |left| ==> !MeetAt(segs, at - 1)
    ensures NoneAdjacent(segs) <==> NoneAdjacent(left) && NoneAdjacent(right)
  {
    if NoneAdjacent(segs) {
      forall i: nat | i + 1 < |right| ensures !MeetAt(right, i) { assert !MeetAt(segs, at + i); }
    }
    if NoneAdjacent(left) && NoneAdjacent(right) {
      forall i: nat | i + 1 < |segs| ensures !MeetAt(segs, i) {
        if at <= i { assert !MeetAt(right, i - at) && at + (i - at) == i; }
      }
    }
  }

  /** Appending leaves adjacent segments only where there were some: those that meet are merged. */
  lemma CoalesceApart(left: seq<BlkDevSegment>, right: seq<BlkDevSegment>)
    requires Coalescable(left, right)
    ensures NoneAdjacent(Coalesce(left, right)) <==> NoneAdjacent(left) && NoneAdjacent(right)
  {
    if left != [] && right != [] {
      if Adjacent(left[|left| - 1], right[0]) {
        MergedMeet(left, right);
        ApartAlike(Coalesce(left, right), left, right, |left| - 1);
      } else {
        AppendedMeet(left, right);
        ApartAlike(Coalesce(left, right), left, right, |left|);
      }
    }
  }

  /** Merging does not change which sector comes where. */
  lemma CoalescePhys(left: seq<BlkDevSegment>, right: seq<BlkDevSegment>)
    requires Coalescable(left, right)
    ensures Phys(Coalesce(left, right)) == Phys(left) + Phys(right)
  {
    if left == [] || right == [] {
    } else if Adjacent(left[|left| - 1], right[0]) {
      var init, last, first := left[..|left| - 1], left[|left| - 1], right[0];
      assert last in left && first in right;
      MergedPhys(last, first, Merge(last, first));
      ThreeParts(init, [Merge(last, first)], right[1..], [last], [first]);
      assert left == init + [last] && right == [first] + right[1..];
    } else {
      PhysConcat(left, right);
    }
  }

  lemma ThreeParts(init: seq<BlkDevSegment>, merged: seq<BlkDevSegment>, rest: seq<BlkDevSegment>,
                   last: seq<BlkDevSegment>, first: seq<BlkDevSegment>)
    requires Phys(merged) == Phys(last) + Phys(first)
    ensures Phys(init + merged + rest) == Phys(init + last) + Phys(first + rest)
  {
    PhysConcat(init + merged, rest);
    PhysConcat(init, merged);
    PhysConcat(init, last);
    PhysConcat(first, rest);
    Regroup(Phys(init), Phys(last), Phys(first), Phys(rest));
  }

  lemma Regroup<T>(a: seq<T>, b: seq<T>, c: seq<T>, d: seq<T>)
    ensures (a + (b + c)) + d == (a + b) + (c + d)
  {
  }

  lemma MergedPhys(last: BlkDevSegment, first: BlkDevSegment, merged: BlkDevSegment)
    requires last.uuid == first.uuid && last.device == first.device && last.start + last.length == first.start
    requires last.length + first.length <= U64_MAX && merged == Merge(last, first)
    ensures Phys([merged]) == Phys([last]) + Phys([first])
  {
  }

  lemma CoalesceOn(devs: seq<BlockDev>, left: seq<BlkDevSegment>, right: seq<BlkDevSegment>)
    requires WfDevs(devs) && SegsOn(devs, left) && SegsOn(devs, right)
    ensures Coalescable(left, right) && SegsOn(devs, Coalesce(left, right))
  {
    forall s, t | s in left && t in right && s.uuid == t.uuid ensures s.device == t.device {
      var d :| d in devs && OnDev(s, d);
      var e :| e in devs && OnDev(t, e);
    }
    forall s | s in right ensures s.start + s.length <= U64_MAX {
      var d :| d in devs && OnDev(s, d);
    }
    var segs := Coalesce(left, right);
    forall s | s in segs ensures exists d :: d in devs && OnDev(s, d) {
      if s !in left && s !in right {
        var last, first := left[|left| - 1], right[0];
        assert last in left && first in right;
        var d :| d in devs && OnDev(last, d);
        var e :| e in devs && OnDev(first, e);
        assert d == e;
        assert OnDev(s, d);
      }
    }
  }
}
