/** What is known about devices that may belong to a pool, gathered from udev events. */
module DeviceInfo {
  import opened Prelude
  import opened BlockDevs

  datatype PoolUuid = PoolUuid(id: nat)
  datatype Identifiers = Identifiers(pool: PoolUuid, device: DevUuid)
  datatype EncryptionInfo = EncryptionInfo(keyDescription: Option<string>, clevisInfo: Option<(string, string)>)

  datatype StratisInfo = StratisInfo(identifiers: Identifiers, deviceNumber: Device, devnode: string)
  datatype LuksInfo = LuksInfo(info: StratisInfo, encryption: EncryptionInfo)

  /** One report from udev: a LUKS device of Stratis, or a Stratis device proper. */
  datatype Info = Luks(luks: LuksInfo) | Stratis(stratis: StratisInfo) {
    function Ids(): Identifiers {
      if Luks? then luks.info.identifiers else stratis.identifiers
    }

    function Encryption(): Option<EncryptionInfo> {
      if Luks? then Some(luks.encryption) else None
    }

    function Number(): Device {
      if Luks? then luks.info.deviceNumber else stratis.deviceNumber
    }
  }

  /** What is stored for one device: a closed LUKS device, or a Stratis device with what is under it. */
  datatype LInfo = LLuks(luks: LuksInfo) | LStratis(ids: StratisInfo, under: Option<LuksInfo>) {
    function Ids(): Identifiers {
      if LLuks? then luks.info.identifiers else ids.identifiers
    }

    function Encryption(): Option<EncryptionInfo> {
      if LLuks? then Some(luks.encryption)
      else if under.Some? then Some(under.value.encryption)
      else None
    }

    predicate IsClosed() { LLuks? }
  }

  function FromInfo(i: Info): LInfo {
    match i
    case Luks(l) => LLuks(l)
    case Stratis(s) => LStratis(s, None)
  }

  predicate LuksCompatible(a: LuksInfo, b: LuksInfo)
    requires a.info.identifiers == b.info.identifiers
  {
    a.info.deviceNumber == b.info.deviceNumber && a.encryption == b.encryption
  }

  predicate StratisCompatible(a: StratisInfo, b: StratisInfo)
    requires a.identifiers == b.identifiers
  {
    a.deviceNumber == b.deviceNumber
  }

  /** A stored info whose parts are about the device with these identifiers. */
  predicate About(l: LInfo, ids: Identifiers) {
    l.Ids() == ids && (l.LStratis? && l.under.Some? ==> l.under.value.info.identifiers == ids)
  }

  /** Combine what is known with a new report; none if they contradict one another. */
  function Update(old': LInfo, i: Info): (r: Option<LInfo>)
    requires About(old', i.Ids())
    ensures r.Some? ==> About(r.value, i.Ids())
  {
    match (old', i)
    case (LLuks(l), Stratis(s)) => Some(LStratis(s, Some(l)))
    case (LStratis(s, under), Luks(l)) =>
      if under.Some? && !LuksCompatible(under.value, l) then None else Some(LStratis(s, Some(l)))
    case (LLuks(l1), Luks(l2)) =>
      if !LuksCompatible(l1, l2) then None else Some(LLuks(l2))
    case (LStratis(s1, under), Stratis(s2)) =>
      if !StratisCompatible(s1, s2) then None else Some(LStratis(s2, under))
  }

  function StratisOf(l: LInfo): Option<StratisInfo> {
    if l.LStratis? then Some(l.ids) else None
  }

  function LuksOf(l: LInfo): Option<LuksInfo> {
    if l.LStratis? then l.under else Some(l.luks)
  }

  /**
   Layer by layer: a report contradicts what is known exactly if the layer it is about is known with another number, or
   with another encryption; otherwise it takes the place of that layer and leaves the other alone.
   */
  lemma UpdateExact(known: LInfo, i: Info)
    requires About(known, i.Ids())
    ensures var r, s, l := Update(known, i), StratisOf(known), LuksOf(known);
            match i
            case Stratis(new') =>
              && (r.None? <==> s.Some? && s.value.deviceNumber != new'.deviceNumber)
              && (r.Some? ==> StratisOf(r.value) == Some(new') && LuksOf(r.value) == l)
            case Luks(new') =>
              && (r.None? <==> l.Some? && (l.value.info.deviceNumber != new'.info.deviceNumber || l.value.encryption != new'.encryption))
              && (r.Some? ==> LuksOf(r.value) == Some(new') && StratisOf(r.value) == s)
  {
  }

  /** What is left when a device goes away. */
  function UpdateOnRemove(old': LInfo, i: Info): (r: Option<LInfo>)
    ensures r.Some? && About(old', i.Ids()) ==> About(r.value, i.Ids())
    ensures r.Some? && r.value.Encryption().Some? ==> r.value.Encryption() == old'.Encryption()
  {
    match (old', i)
    case (LLuks(l), Stratis(_)) => Some(LLuks(l))
    case (LStratis(s, under), Luks(_)) => Some(LStratis(s, under))
    case (LStratis(s1, under), Stratis(s2)) =>
      if s1.deviceNumber != s2.deviceNumber then Some(LStratis(s1, under))
      else if under.Some? then Some(LLuks(under.value)) else None
    case (LLuks(l1), Luks(l2)) =>
      if l1.info.deviceNumber != l2.info.deviceNumber then Some(LLuks(l1)) else None
  }

  // ----- sets of devices

  type Devices = map<DevUuid, LInfo>

  /** Every info is filed under its own identifiers and all encryption infos agree. */
  ghost predicate WfSet(pool: PoolUuid, m: Devices) {
    && (forall d | d in m :: About(m[d], Identifiers(pool, d)))
    && (forall d, e | d in m && e in m && m[d].Encryption().Some? && m[e].Encryption().Some? ::
          m[d].Encryption() == m[e].Encryption())
  }

  datatype AddResult = Added(set': Devices) | Hopeless(bag: set<LInfo>)

  function Bag(m: Devices): set<LInfo> {
    m.Values
  }

  /** The encryption info of some device of the set differs from `e`. */
  predicate Clashes(m: Devices, e: Option<EncryptionInfo>) {
    e.Some? && exists d | d in m :: m[d].Encryption().Some? && m[d].Encryption() != e
  }

  /** All encryption infos of a set agree, so looking at any one of them decides whether there is a clash. */
  lemma AnyEncryptionDecides(pool: PoolUuid, m: Devices, e: EncryptionInfo, d: DevUuid)
    requires WfSet(pool, m) && d in m && m[d].Encryption().Some?
    ensures Clashes(m, Some(e)) <==> m[d].Encryption() != Some(e)
  {
  }

  /** Take in one report; on a contradiction the set is emptied into a bag. */
  function ProcessAdd(pool: PoolUuid, m: Devices, i: Info): (r: AddResult)
    requires WfSet(pool, m) && i.Ids().pool == pool
  {
    var d := i.Ids().device;
    if Clashes(m, i.Encryption()) then Hopeless(Bag(m) + {FromInfo(i)})
    else if d !in m then Added(m[d := FromInfo(i)])
    else
      match Update(m[d], i)
      case Some(l) => Added(m[d := l])
      case None => Hopeless(Bag(m) + {FromInfo(i)})
  }

  lemma ProcessAddWf(pool: PoolUuid, m: Devices, i: Info)
    requires WfSet(pool, m) && i.Ids().pool == pool && ProcessAdd(pool, m, i).Added?
    ensures WfSet(pool, ProcessAdd(pool, m, i).set')
  {
    var m' := ProcessAdd(pool, m, i).set';
    var d := i.Ids().device;
    assert i.Ids() == Identifiers(pool, d);
    forall e | e in m' && m'[e].Encryption().Some?
      ensures e != d ==> e in m && m'[e] == m[e]
      ensures e == d ==> m'[e].Encryption() == i.Encryption() || (d in m && m'[e].Encryption() == m[d].Encryption())
    {
    }
  }

  function ProcessRemove(m: Devices, i: Info): Devices {
    var d := i.Ids().device;
    if d !in m then m
    else match UpdateOnRemove(m[d], i)
         case Some(l) => m[d := l]
         case None => m - {d}
  }

  lemma ProcessRemoveWf(pool: PoolUuid, m: Devices, i: Info)
    requires WfSet(pool, m) && i.Ids().pool == pool
    ensures WfSet(pool, ProcessRemove(m, i))
  {
    assert i.Ids() == Identifiers(pool, i.Ids().device);
  }

  /** Removing a device right after it was added gives the old set back in exactly these cases. */
  lemma RemoveUndoesAdd(pool: PoolUuid, m: Devices, i: Info)
    requires WfSet(pool, m) && i.Ids().pool == pool && ProcessAdd(pool, m, i).Added?
    ensures ProcessRemove(ProcessAdd(pool, m, i).set', i) == m <==>
            var d := i.Ids().device;
            || d !in m
            || (m[d].LLuks? && i.Stratis?)
            || (m[d].LStratis? && i.Luks? && m[d].under == Some(i.luks))
  {
    var d := i.Ids().device;
    var m' := ProcessAdd(pool, m, i).set';
    if d in m {
      match (m[d], i) {
        case (LLuks(l), Stratis(s)) => assert m'[d := LLuks(l)] == m;
        case (LStratis(s, under), Luks(l)) =>
          assert m'[d] == LStratis(s, Some(l)) && m'[d := m'[d]] == m';
          if under == Some(l) { assert m' == m; }
        case (LLuks(_), Luks(_)) =>
        case (LStratis(_, _), Stratis(_)) =>
      }
    } else {
      assert m' - {d} == m;
    }
  }

  // ----- collecting many reports

  function Linfos(infos: seq<Info>): set<LInfo> {
    set i | i in infos :: FromInfo(i)
  }

  /** Take in the reports from the last to the first; after a contradiction the rest go into the bag. */
  function Collect(pool: PoolUuid, m: Devices, infos: seq<Info>): AddResult
    requires WfSet(pool, m) && forall i | i in infos :: i.Ids().pool == pool
    decreases |infos|
  {
    if infos == [] then Added(m)
    else
      var init, last := infos[..|infos| - 1], infos[|infos| - 1];
      match ProcessAdd(pool, m, last)
      case Added(m') => ProcessAddWf(pool, m, last); Collect(pool, m', init)
      case Hopeless(bag) => Hopeless(bag + Linfos(init))
  }

  /** Two reports that cannot both be true of one pool. */
  predicate Conflict(a: Info, b: Info) {
    || (a.Luks? && b.Luks? && a.luks.encryption != b.luks.encryption)
    || (a.Ids().device == b.Ids().device && a.Luks? == b.Luks? && a.Number() != b.Number())
  }

  ghost predicate NoConflicts(infos: seq<Info>) {
    forall i, j | 0 <= i < |infos| && 0 <= j < |infos| :: !Conflict(infos[i], infos[j])
  }

  function FirstStratis(infos: seq<Info>, d: DevUuid): (r: Option<StratisInfo>)
    ensures r.Some? ==> Stratis(r.value) in infos && r.value.identifiers.device == d
    ensures r.None? ==> forall i | i in infos && i.Stratis? :: i.Ids().device != d
  {
    if infos == [] then None
    else if infos[0].Stratis? && infos[0].Ids().device == d then Some(infos[0].stratis)
    else FirstStratis(infos[1..], d)
  }

  function FirstLuks(infos: seq<Info>, d: DevUuid): (r: Option<LuksInfo>)
    ensures r.Some? ==> Luks(r.value) in infos && r.value.info.identifiers.device == d
    ensures r.None? ==> forall i | i in infos && i.Luks? :: i.Ids().device != d
  {
    if infos == [] then None
    else if infos[0].Luks? && infos[0].Ids().device == d then Some(infos[0].luks)
    else FirstLuks(infos[1..], d)
  }

  /** What a list of reports says about one device. */
  function Entry(infos: seq<Info>, d: DevUuid): Option<LInfo> {
    match (FirstStratis(infos, d), FirstLuks(infos, d))
    case (Some(s), l) => Some(LStratis(s, l))
    case (None, Some(l)) => Some(LLuks(l))
    case (None, None) => None
  }

  ghost predicate Summarizes(m: Devices, infos: seq<Info>) {
    forall d :: (d in m <==> Entry(infos, d).Some?) && (d in m ==> m[d] == Entry(infos, d).value)
  }

  lemma NoConflictIn(infos: seq<Info>, a: Info, b: Info)
    requires NoConflicts(infos) && a in infos && b in infos
    ensures !Conflict(a, b)
  {
  }

  ghost predicate LuksDiffers(infos: seq<Info>, i: Info) {
    i.Luks? && exists j | j in infos :: j.Luks? && j.luks.encryption != i.luks.encryption
  }

  ghost predicate NumberDiffers(infos: seq<Info>, i: Info) {
    exists j | j in infos :: j.Ids().device == i.Ids().device && j.Luks? == i.Luks? && j.Number() != i.Number()
  }

  lemma ClashIff(m: Devices, infos: seq<Info>, i: Info)
    requires Summarizes(m, infos) && NoConflicts(infos)
    ensures Clashes(m, i.Encryption()) <==> LuksDiffers(infos, i)
  {
    if Clashes(m, i.Encryption()) {
      var d :| d in m && m[d].Encryption().Some? && m[d].Encryption() != i.Encryption();
      assert m[d] == Entry(infos, d).value;
      assert Luks(FirstLuks(infos, d).value) in infos;
    }
    if LuksDiffers(infos, i) {
      var j :| j in infos && j.Luks? && j.luks.encryption != i.luks.encryption;
      var d := j.Ids().device;
      var l := FirstLuks(infos, d);
      assert l.Some?;
      NoConflictIn(infos, Luks(l.value), j);
      assert d in m && m[d] == Entry(infos, d).value;
      assert m[d].Encryption() == Some(l.value.encryption);
    }
  }

  lemma UpdateIff(pool: PoolUuid, m: Devices, infos: seq<Info>, i: Info)
    requires WfSet(pool, m) && i.Ids().pool == pool && Summarizes(m, infos) && NoConflicts(infos)
    requires i.Ids().device in m && !LuksDiffers(infos, i)
    ensures About(m[i.Ids().device], i.Ids())
    ensures Update(m[i.Ids().device], i).Some? <==> !NumberDiffers(infos, i)
  {
  }

  /** The entry of a device when one more report is put in front. */
  function EntryAfter(infos: seq<Info>, i: Info, d: DevUuid): Option<LInfo> {
    if i.Ids().device != d then Entry(infos, d)
    else match i
         case Stratis(s) => Some(LStratis(s, FirstLuks(infos, d)))
         case Luks(l) =>
           var s := FirstStratis(infos, d);
           if s.Some? then Some(LStratis(s.value, Some(l))) else Some(LLuks(l))
  }

  lemma EntryCons(infos: seq<Info>, i: Info, d: DevUuid)
    ensures Entry([i] + infos, d) == EntryAfter(infos, i, d)
  {
  }

  /** One more report at the front of the list: accepted exactly if it conflicts with none of the others. */
  lemma CollectStep(pool: PoolUuid, m: Devices, infos: seq<Info>, i: Info)
    requires WfSet(pool, m) && i.Ids().pool == pool && Summarizes(m, infos) && NoConflicts(infos)
    ensures ProcessAdd(pool, m, i).Added? <==> !LuksDiffers(infos, i) && !NumberDiffers(infos, i)
    ensures ProcessAdd(pool, m, i).Added? ==> Summarizes(ProcessAdd(pool, m, i).set', [i] + infos)
  {
    ClashIff(m, infos, i);
    var d := i.Ids().device;
    assert d in m <==> Entry(infos, d).Some?;
    if d in m && !LuksDiffers(infos, i) { UpdateIff(pool, m, infos, i); }
    if ProcessAdd(pool, m, i).Added? { AddedSummarizes(pool, m, infos, i); }
  }

  lemma AddedSummarizes(pool: PoolUuid, m: Devices, infos: seq<Info>, i: Info)
    requires WfSet(pool, m) && i.Ids().pool == pool && Summarizes(m, infos) && ProcessAdd(pool, m, i).Added?
    ensures Summarizes(ProcessAdd(pool, m, i).set', [i] + infos)
  {
    var m' := ProcessAdd(pool, m, i).set';
    forall e
      ensures (e in m' <==> Entry([i] + infos, e).Some?)
      ensures e in m' ==> m'[e] == Entry([i] + infos, e).value
    {
      assert (e in m <==> Entry(infos, e).Some?) && (e in m ==> m[e] == Entry(infos, e).value);
      AddedAt(pool, m, infos, i, e);
    }
  }

  lemma AddedAt(pool: PoolUuid, m: Devices, infos: seq<Info>, i: Info, e: DevUuid)
    requires WfSet(pool, m) && i.Ids().pool == pool && ProcessAdd(pool, m, i).Added?
    requires (e in m <==> Entry(infos, e).Some?) && (e in m ==> m[e] == Entry(infos, e).value)
    ensures var m' := ProcessAdd(pool, m, i).set';
            (e in m' <==> Entry([i] + infos, e).Some?) && (e in m' ==> m'[e] == Entry([i] + infos, e).value)
  {
    EntryCons(infos, i, e);
  }

  lemma NoConflictsCons(infos: seq<Info>, i: Info)
    ensures NoConflicts([i] + infos) <==> NoConflicts(infos) && !LuksDiffers(infos, i) && !NumberDiffers(infos, i)
  {
    var all := [i] + infos;
    if NoConflicts(all) {
      forall j | j in infos ensures !Conflict(j, i) {
        var k :| 0 <= k < |infos| && infos[k] == j;
        assert all[k + 1] == j && all[0] == i;
      }
      forall a, b | 0 <= a < |infos| && 0 <= b < |infos| ensures !Conflict(infos[a], infos[b]) {
        assert all[a + 1] == infos[a] && all[b + 1] == infos[b];
      }
    }
    if NoConflicts(infos) && !LuksDiffers(infos, i) && !NumberDiffers(infos, i) {
      forall a, b | 0 <= a < |all| && 0 <= b < |all| ensures !Conflict(all[a], all[b]) {
        if a > 0 { assert all[a] == infos[a - 1] && infos[a - 1] in infos; }
        if b > 0 { assert all[b] == infos[b - 1] && infos[b - 1] in infos; }
      }
    }
  }

  /** Collecting the front of a list when the back of it has been collected already. */
  lemma {:induction false} CollectExact(pool: PoolUuid, m: Devices, front: seq<Info>, back: seq<Info>)
    requires WfSet(pool, m) && (forall i | i in front :: i.Ids().pool == pool)
    requires Summarizes(m, back) && NoConflicts(back)
    ensures Collect(pool, m, front).Added? <==> NoConflicts(front + back)
    ensures Collect(pool, m, front).Added? ==>
              WfSet(pool, Collect(pool, m, front).set') && Summarizes(Collect(pool, m, front).set', front + back)
    decreases |front|
  {
    if front == [] {
      assert front + back == back;
    } else {
      var init, last := front[..|front| - 1], front[|front| - 1];
      assert front + back == init + ([last] + back);
      CollectStep(pool, m, back, last);
      NoConflictsCons(back, last);
      if ProcessAdd(pool, m, last).Added? {
        ProcessAddWf(pool, m, last);
        CollectExact(pool, ProcessAdd(pool, m, last).set', init, [last] + back);
      } else {
        ConflictStays(init, [last] + back);
      }
    }
  }

  lemma ConflictStays(a: seq<Info>, b: seq<Info>)
    requires !NoConflicts(b)
    ensures !NoConflicts(a + b)
  {
    var i, j :| 0 <= i < |b| && 0 <= j < |b| && Conflict(b[i], b[j]);
    assert (a + b)[|a| + i] == b[i] && (a + b)[|a| + j] == b[j];
  }

  /**
   Collecting any list of reports for one pool succeeds exactly when no two of them conflict,
   and then the set says of each device what the list says.
   */
  lemma CollectAll(pool: PoolUuid, infos: seq<Info>)
    requires forall i | i in infos :: i.Ids().pool == pool
    ensures Collect(pool, map[], infos).Added? <==> NoConflicts(infos)
    ensures Collect(pool, map[], infos).Added? ==>
              WfSet(pool, Collect(pool, map[], infos).set') && Summarizes(Collect(pool, map[], infos).set', infos)
  {
    CollectExact(pool, map[], infos, []);
    assert infos + [] == infos;
  }

  /** The reports say `l` of some device. */
  ghost predicate Told(infos: seq<Info>, l: LInfo) {
    exists d :: Entry(infos, d) == Some(l)
  }

  lemma BagTold(m: Devices, infos: seq<Info>, l: LInfo)
    requires Summarizes(m, infos)
    ensures l in Bag(m) <==> Told(infos, l)
  {
    if l in Bag(m) {
      var d :| d in m && m[d] == l;
      assert Entry(infos, d) == Some(l);
    }
    if Told(infos, l) {
      var d :| Entry(infos, d) == Some(l);
      assert d in m && m[d] == l;
    }
  }

  lemma LinfosSnoc(infos: seq<Info>, l: LInfo)
    requires infos != []
    ensures l in Linfos(infos) <==> l in Linfos(infos[..|infos| - 1]) || l == FromInfo(infos[|infos| - 1])
  {
    var n := |infos| - 1;
    assert infos == infos[..n] + [infos[n]];
  }

  /** The report that stops the collecting. */
  lemma CollectStops(pool: PoolUuid, m: Devices, front: seq<Info>, back: seq<Info>, l: LInfo)
    requires WfSet(pool, m) && (forall i | i in front :: i.Ids().pool == pool) && front != [] && Summarizes(m, back)
    requires ProcessAdd(pool, m, front[|front| - 1]).Hopeless?
    ensures Collect(pool, m, front).Hopeless?
    ensures l in Collect(pool, m, front).bag <==> Told(back, l) || l in Linfos(front)
  {
    BagTold(m, back, l);
    LinfosSnoc(front, l);
  }

  lemma Regrouped(front: seq<Info>, back: seq<Info>, n: nat)
    requires front != [] && n <= |front| - 1
    ensures front[n..] + back == front[..|front| - 1][n..] + ([front[|front| - 1]] + back)
  {
  }

  lemma LastOne(front: seq<Info>, back: seq<Info>)
    requires front != []
    ensures var n := |front| - 1;
            front[n..] + back == [front[n]] + back && front[n + 1..] + back == back && front[..n + 1] == front
  {
    assert front[|front| - 1..] == [front[|front| - 1]];
  }

  /** What the bag holds when collecting stops at report `n` of the front: what was said up to then, and the other reports. */
  ghost predicate BagIs(bag: set<LInfo>, front: seq<Info>, back: seq<Info>, n: nat)
    requires n < |front|
  {
    forall l :: l in bag <==> Told(front[n + 1..] + back, l) || l in Linfos(front[..n + 1])
  }

  lemma {:induction false} CollectBagFrom(pool: PoolUuid, m: Devices, front: seq<Info>, back: seq<Info>) returns (n: nat)
    requires WfSet(pool, m) && (forall i | i in front :: i.Ids().pool == pool)
    requires Summarizes(m, back) && NoConflicts(back) && Collect(pool, m, front).Hopeless?
    ensures n < |front| && NoConflicts(front[n + 1..] + back) && !NoConflicts(front[n..] + back)
    ensures BagIs(Collect(pool, m, front).bag, front, back, n)
    decreases |front|
  {
    var k := |front| - 1;
    var init, last := front[..k], front[k];
    CollectStep(pool, m, back, last);
    NoConflictsCons(back, last);
    if ProcessAdd(pool, m, last).Added? {
      ProcessAddWf(pool, m, last);
      var m' := ProcessAdd(pool, m, last).set';
      assert Collect(pool, m, front) == Collect(pool, m', init);
      n := CollectBagFrom(pool, m', init, [last] + back);
      Regrouped(front, back, n);
      Regrouped(front, back, n + 1);
      assert front[..n + 1] == init[..n + 1];
    } else {
      n := k;
      LastOne(front, back);
      forall l ensures l in Collect(pool, m, front).bag <==> Told(back, l) || l in Linfos(front) {
        CollectStops(pool, m, front, back, l);
      }
    }
  }

  /**
   Report `n` conflicts with those behind it, which do not conflict with one another, and the bag holds what
   these say of each device together with every other report as it is.
   */
  ghost predicate BagOf(bag: set<LInfo>, infos: seq<Info>, n: nat)
    requires n < |infos|
  {
    && NoConflicts(infos[n + 1..]) && !NoConflicts(infos[n..])
    && forall l :: l in bag <==> Told(infos[n + 1..], l) || l in Linfos(infos[..n + 1])
  }

  /** Reports that conflict end in a bag, and none of them is lost. */
  lemma CollectBag(pool: PoolUuid, infos: seq<Info>) returns (n: nat)
    requires (forall i | i in infos :: i.Ids().pool == pool) && Collect(pool, map[], infos).Hopeless?
    ensures n < |infos| && BagOf(Collect(pool, map[], infos).bag, infos, n)
  {
    n := CollectBagFrom(pool, map[], infos, []);
    assert infos[n + 1..] + [] == infos[n + 1..] && infos[n..] + [] == infos[n..];
  }

  /** Reports of the same kind about the same device are the same report. */
  ghost predicate Agree(infos: seq<Info>) {
    forall i, j | i in infos && j in infos :: i.Ids().device == j.Ids().device && i.Luks? == j.Luks? ==> i == j
  }

  ghost predicate SameReports(a: seq<Info>, b: seq<Info>) {
    forall i :: i in a <==> i in b
  }

  lemma SameEntry(a: seq<Info>, b: seq<Info>, d: DevUuid)
    requires Agree(a) && SameReports(a, b)
    ensures Entry(a, d) == Entry(b, d)
  {
  }

  lemma SameConflicts(a: seq<Info>, b: seq<Info>)
    requires SameReports(a, b) && NoConflicts(a)
    ensures NoConflicts(b)
  {
    forall i, j | 0 <= i < |b| && 0 <= j < |b| ensures !Conflict(b[i], b[j]) {
      assert b[i] in a && b[j] in a;
      NoConflictIn(a, b[i], b[j]);
    }
  }

  /** The order and the repetition of reports do not matter. */
  lemma OrderDoesNotMatter(pool: PoolUuid, a: seq<Info>, b: seq<Info>)
    requires (forall i | i in a :: i.Ids().pool == pool) && (forall i | i in b :: i.Ids().pool == pool)
    requires SameReports(a, b) && Agree(a)
    ensures Collect(pool, map[], a).Added? <==> Collect(pool, map[], b).Added?
    ensures Collect(pool, map[], a).Added? ==> Collect(pool, map[], a) == Collect(pool, map[], b)
  {
    CollectAll(pool, a);
    CollectAll(pool, b);
    if NoConflicts(a) { SameConflicts(a, b); }
    if NoConflicts(b) { SameConflicts(b, a); }
    if NoConflicts(a) {
      var m, n := Collect(pool, map[], a).set', Collect(pool, map[], b).set';
      forall d ensures (d in m <==> d in n) && (d in m ==> m[d] == n[d]) { SameEntry(a, b, d); }
      assert m == n;
    }
  }

  // ----- taking a report back

  /** The report is about the layer of a device that `l` shows: what lies under an open device is not shown. */
  predicate ShownBy(l: LInfo, i: Info) {
    match l
    case LLuks(luks) => i.Luks? && luks.info.deviceNumber == i.Number()
    case LStratis(ids, _) => i.Stratis? && ids.deviceNumber == i.Number()
  }

  /**
   A remove report of another kind or with another number than what the set shows for its device changes
   nothing. One that matches takes off exactly that layer and touches no other device.
   */
  lemma RemoveExact(m: Devices, i: Info)
    ensures var d, m' := i.Ids().device, ProcessRemove(m, i);
            if d in m && ShownBy(m[d], i) then
              && (forall e | e != d :: (e in m' <==> e in m) && (e in m' ==> m'[e] == m[e]))
              && (if m[d].LStratis? && m[d].under.Some? then d in m' && m'[d] == LLuks(m[d].under.value) else d !in m')
            else m' == m
  {
    var d := i.Ids().device;
    if d in m { assert m[d := m[d]] == m; }
  }

  /** The reports are of one kind and give one device the same number. */
  predicate SameLayer(a: Info, b: Info) {
    a.Ids().device == b.Ids().device && a.Luks? == b.Luks? && a.Number() == b.Number()
  }

  function Without(infos: seq<Info>, i: Info): (r: seq<Info>)
    ensures forall j :: j in r <==> j in infos && !SameLayer(j, i)
  {
    if infos == [] then []
    else (if SameLayer(infos[0], i) then [] else [infos[0]]) + Without(infos[1..], i)
  }

  /** Some report is about the layer of `i`, and if that is LUKS there is no Stratis device over it. */
  predicate OnTop(infos: seq<Info>, i: Info) {
    && (exists j | j in infos :: SameLayer(j, i))
    && (i.Luks? ==> forall j | j in infos && j.Stratis? :: j.Ids().device != i.Ids().device)
  }

  /** The reports that stand once `i` was taken back. */
  function Retract(infos: seq<Info>, i: Info): seq<Info> {
    if OnTop(infos, i) then Without(infos, i) else infos
  }

  lemma WithoutStep(infos: seq<Info>, i: Info)
    requires infos != []
    ensures SameLayer(infos[0], i) ==> Without(infos, i) == Without(infos[1..], i)
    ensures !SameLayer(infos[0], i) ==>
              Without(infos, i) != [] && Without(infos, i)[0] == infos[0] && Without(infos, i)[1..] == Without(infos[1..], i)
  {
  }

  lemma {:induction false} FirstStratisKept(infos: seq<Info>, i: Info, e: DevUuid)
    requires i.Luks? || e != i.Ids().device
    ensures FirstStratis(Without(infos, i), e) == FirstStratis(infos, e)
  {
    if infos != [] {
      FirstStratisKept(infos[1..], i, e);
      WithoutStep(infos, i);
    }
  }

  lemma {:induction false} FirstLuksKept(infos: seq<Info>, i: Info, e: DevUuid)
    requires i.Stratis? || e != i.Ids().device
    ensures FirstLuks(Without(infos, i), e) == FirstLuks(infos, e)
  {
    if infos != [] {
      FirstLuksKept(infos[1..], i, e);
      WithoutStep(infos, i);
    }
  }

  /** If all reports agree, taking one back leaves none of its layer. */
  lemma FirstsGone(infos: seq<Info>, i: Info)
    requires NoConflicts(infos) && exists j | j in infos :: SameLayer(j, i)
    ensures i.Stratis? ==> FirstStratis(Without(infos, i), i.Ids().device).None?
    ensures i.Luks? ==> FirstLuks(Without(infos, i), i.Ids().device).None?
  {
    var j :| j in infos && SameLayer(j, i);
    forall k | k in Without(infos, i) ensures !(k.Ids().device == i.Ids().device && k.Luks? == i.Luks?) {
      NoConflictIn(infos, j, k);
    }
  }

  lemma RetractEntry(infos: seq<Info>, i: Info, e: DevUuid)
    requires NoConflicts(infos)
    ensures e != i.Ids().device || !OnTop(infos, i) ==> Entry(Retract(infos, i), e) == Entry(infos, e)
    ensures e == i.Ids().device && OnTop(infos, i) ==>
              Entry(Retract(infos, i), e) ==
              if i.Stratis? && FirstLuks(infos, e).Some? then Some(LLuks(FirstLuks(infos, e).value)) else None
  {
    if i.Luks? || e != i.Ids().device { FirstStratisKept(infos, i, e); }
    if i.Stratis? || e != i.Ids().device { FirstLuksKept(infos, i, e); }
    if OnTop(infos, i) { FirstsGone(infos, i); }
  }

  lemma ShownIff(infos: seq<Info>, i: Info)
    requires NoConflicts(infos)
    ensures var e := Entry(infos, i.Ids().device); OnTop(infos, i) <==> e.Some? && ShownBy(e.value, i)
  {
    var d := i.Ids().device;
    var s, l := FirstStratis(infos, d), FirstLuks(infos, d);
    if OnTop(infos, i) {
      var j :| j in infos && SameLayer(j, i);
      if i.Stratis? { NoConflictIn(infos, j, Stratis(s.value)); } else { NoConflictIn(infos, j, Luks(l.value)); }
    }
    if s.Some? && ShownBy(LStratis(s.value, l), i) { assert SameLayer(Stratis(s.value), i); }
    if s.None? && l.Some? && ShownBy(LLuks(l.value), i) { assert SameLayer(Luks(l.value), i); }
  }

  /** Removing a device from a set that says what some reports say gives the set of the reports that still stand. */
  lemma RetractSummarizes(m: Devices, infos: seq<Info>, i: Info)
    requires Summarizes(m, infos) && NoConflicts(infos)
    ensures Summarizes(ProcessRemove(m, i), Retract(infos, i)) && NoConflicts(Retract(infos, i))
  {
    RemoveExact(m, i);
    ShownIff(infos, i);
    var m', rest := ProcessRemove(m, i), Retract(infos, i);
    assert i.Ids().device in m <==> Entry(infos, i.Ids().device).Some?;
    forall e ensures (e in m' <==> Entry(rest, e).Some?) && (e in m' ==> m'[e] == Entry(rest, e).value) {
      assert (e in m <==> Entry(infos, e).Some?) && (e in m ==> m[e] == Entry(infos, e).value);
      RetractEntry(infos, i, e);
    }
    forall a, b | 0 <= a < |rest| && 0 <= b < |rest| ensures !Conflict(rest[a], rest[b]) {
      assert rest[a] in infos && rest[b] in infos;
      NoConflictIn(infos, rest[a], rest[b]);
    }
  }

  // ----- the mutable set

  class DeviceSet {
    const pool: PoolUuid
    var internal: Devices

    ghost predicate Valid() reads this { WfSet(pool, internal) }

    constructor (pool: PoolUuid)
      ensures this.pool == pool && internal == map[] && Valid()
    {
      this.pool := pool;
      internal := map[];
    }

    constructor Of(pool: PoolUuid, internal: Devices)
      requires WfSet(pool, internal)
      ensures this.pool == pool && this.internal == internal && Valid()
    {
      this.pool := pool;
      this.internal := internal;
    }

    /** None is success; otherwise everything is drained into the bag. */
    method ProcessInfoAdd(info: Info) returns (hopeless: Option<set<LInfo>>)
      requires Valid() && info.Ids().pool == pool
      modifies this
      ensures Valid()
      ensures match ProcessAdd(pool, old(internal), info)
              case Added(m) => hopeless == None && internal == m
              case Hopeless(bag) => hopeless == Some(bag) && internal == map[]
    {
      var device := info.Ids().device;
      if Clashes(internal, info.Encryption()) {
        hopeless := Some(internal.Values + {FromInfo(info)});
        internal := map[];
        return;
      }
      if device !in internal {
        ProcessAddWf(pool, internal, info);
        internal := internal[device := FromInfo(info)];
        return None;
      }
      var removed := internal[device];
      assert About(removed, info.Ids()) by { assert info.Ids() == Identifiers(pool, device); }
      var updated := Update(removed, info);
      if updated.None? {
        hopeless := Some(internal.Values + {FromInfo(info)});
        internal := map[];
        return;
      }
      ProcessAddWf(pool, internal, info);
      internal := internal[device := updated.value];
      return None;
    }

    method ProcessInfoRemove(info: Info)
      requires Valid() && info.Ids().pool == pool
      modifies this
      ensures Valid() && internal == ProcessRemove(old(internal), info)
      ensures var d := info.Ids().device; !(d in old(internal) && ShownBy(old(internal)[d], info)) ==> internal == old(internal)
    {
      ProcessRemoveWf(pool, internal, info);
      RemoveExact(internal, info);
      var device := info.Ids().device;
      if device in internal {
        var updated := UpdateOnRemove(internal[device], info);
        internal := internal - {device};
        if updated.Some? { internal := internal[device := updated.value]; }
      }
    }
  }
}
