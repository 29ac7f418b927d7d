/**
 A pool save that is cut off: some of the devices written have only part of it. What recovery
 over all the devices then gives.
 */
module PoolCrash {
  import opened Prelude
  import opened Mda
  import opened MdaRuns
  import opened PoolMetadata

  /** What a device has of a save: nothing that shows, all of it, or its time without its data. */
  datatype Kind = KeptOld | TookNew | Broken

  /** How the two region writes of each device ended. */
  type Fates = nat -> Fate

  // ----- one device

  ghost function CrashedDisk(crc: Checksum, d: MetaDev, v: Version, first: Fate, second: Fate): Disk
    requires d.g.Fits(d.store.disk) && Storable(d.g, v)
  {
    SavedDisk(crc, d.g, d.store.disk, d.store.headers, v.time, v.data, first, second)
  }

  ghost function KindOf(crc: Checksum, d: MetaDev, v: Version, first: Fate, second: Fate): Kind
    requires d.g.Fits(d.store.disk) && Storable(d.g, v)
  {
    var r, disk := Older(d.store.headers), CrashedDisk(crc, d, v, first, second);
    if first.Written? then TookNew
    else if Region(d.g, disk, r)[..32] != HeaderBytes(crc, HeaderOf(crc, v)) then KeptOld
    else if DataBytes(d.g, disk, r, v) == v.data || DataBytes(d.g, disk, r + 2, v) == v.data then TookNew
    else Broken
  }

  ghost predicate NoAccident(crc: Checksum, d: MetaDev, v: Version, first: Fate)
    requires d.g.Fits(d.store.disk) && Storable(d.g, v)
  {
    first.Torn? ==> NoCollision(crc, d.g, d.store.disk, d.store.headers, v, first.reached)
  }

  /** What a reload of the device shows: the version before the save, the save, or only its time. */
  ghost predicate Shows(crc: Checksum, d: MetaDev, kind: Kind, before: Option<Version>, v: Version) {
    && d.g.Fits(d.store.disk)
    && var time, read := LastUpdateTime(d.store.headers), LoadState(crc, d.g, d.store.disk, d.store.headers);
       match kind
       case KeptOld => time == TimeOf(before) && read == AsRead(before)
       case TookNew => time == Some(v.time) && read == Data(v.data)
       case Broken => time == Some(v.time) && read == DataError
  }

  /** The device with the headers that loading finds on `disk`. */
  function Reloaded(crc: Checksum, g: Geometry, disk: Disk): MetaDev
    requires g.Fits(disk) && Load(crc, g, disk).Loaded?
  {
    MetaDev(g, Store(disk, Load(crc, g, disk).headers))
  }

  lemma CrashedDevShows(crc: Checksum, d: MetaDev, vs: Slots, v: Version, first: Fate, second: Fate)
    requires DevGood(crc, d, vs) && Accepts(d, v) && Storable(d.g, v) && NoAccident(crc, d, v, first)
    ensures var disk := CrashedDisk(crc, d, v, first, second);
            && Load(crc, d.g, disk).Loaded?
            && Shows(crc, Reloaded(crc, d.g, disk), KindOf(crc, d, v, first, second), LatestOf(d, vs), v)
  {
    var g, disk, hs := d.g, d.store.disk, d.store.headers;
    match first {
      case Torn(reached) => CutOffInFirstCopy(crc, g, disk, hs, vs, v, reached);
      case Written =>
        match second {
          case Torn(reached) => CutOffInSecondCopy(crc, g, disk, hs, vs, v, reached);
          case Written =>
            SaveKeepsGood(crc, g, disk, hs, vs, v);
            var r := Older(hs);
            GoodReload(crc, g, CrashedDisk(crc, d, v, first, second), hs[r := Some(HeaderOf(crc, v))], vs[r := Some(v)]);
        }
    }
  }

  /** A save cut off right after its header, over other data, is broken. */
  lemma HeaderOnlyIsBroken(crc: Checksum, d: MetaDev, v: Version, reached: set<nat>, second: Fate)
    requires d.g.Fits(d.store.disk) && Storable(d.g, v) && forall i: nat :: i in reached <==> i < 32
    requires var r := Older(d.store.headers);
             DataBytes(d.g, d.store.disk, r, v) != v.data && DataBytes(d.g, d.store.disk, r + 2, v) != v.data
    ensures KindOf(crc, d, v, Torn(reached), second) == Broken
  {
    HeaderOnlyRegions(crc, d, v, reached, second);
  }

  lemma HeaderOnlyRegions(crc: Checksum, d: MetaDev, v: Version, reached: set<nat>, second: Fate)
    requires d.g.Fits(d.store.disk) && Storable(d.g, v) && forall i: nat :: i in reached <==> i < 32
    ensures var r, disk := Older(d.store.headers), CrashedDisk(crc, d, v, Torn(reached), second);
            && Region(d.g, disk, r)[..32] == HeaderBytes(crc, HeaderOf(crc, v))
            && DataBytes(d.g, disk, r, v) == DataBytes(d.g, d.store.disk, r, v)
            && DataBytes(d.g, disk, r + 2, v) == DataBytes(d.g, d.store.disk, r + 2, v)
  {
    SavedRegions(crc, d.g, d.store.disk, d.store.headers, v.time, v.data, Torn(reached), second);
    HeaderReached(Region(d.g, d.store.disk, Older(d.store.headers)), RegionBytes(crc, v.time, v.data), reached, |v.data|);
  }

  lemma HeaderReached(before: seq<Byte>, bs: seq<Byte>, reached: set<nat>, n: nat)
    requires 32 + n == |bs| <= |before| && forall i: nat :: i in reached <==> i < 32
    ensures WriteAt(before, 0, bs, Torn(reached))[..32] == bs[..32]
    ensures WriteAt(before, 0, bs, Torn(reached))[32..32 + n] == before[32..32 + n]
  {
  }

  // ----- the pool

  ghost predicate Storables(devs: seq<MetaDev>, v: Version, written: set<nat>) {
    forall i | 0 <= i < |devs| && i in written :: Storable(devs[i].g, v)
  }

  /** The devices as the save left them, memory gone. */
  ghost function Crashed(crc: Checksum, devs: seq<MetaDev>, v: Version, written: set<nat>, first: Fates, second: Fates): (r: seq<MetaDev>)
    requires AllFit(devs) && Storables(devs, v, written)
    ensures |r| == |devs| && AllFit(r)
    ensures forall i | 0 <= i < |devs| :: r[i] == devs[i].(store := devs[i].store.(disk := DiskAt(crc, devs, v, written, first, second, i)))
  {
    seq(|devs|, i requires 0 <= i < |devs| =>
      devs[i].(store := devs[i].store.(disk := DiskAt(crc, devs, v, written, first, second, i))))
  }

  ghost function DiskAt(crc: Checksum, devs: seq<MetaDev>, v: Version, written: set<nat>, first: Fates, second: Fates, i: nat): (d: Disk)
    requires AllFit(devs) && Storables(devs, v, written) && i < |devs|
    ensures devs[i].g.Fits(d)
  {
    if i in written then CrashedDisk(crc, devs[i], v, first(i), second(i)) else devs[i].store.disk
  }

  ghost function KindAt(crc: Checksum, devs: seq<MetaDev>, v: Version, written: set<nat>, first: Fates, second: Fates, i: nat): Kind
    requires AllFit(devs) && Storables(devs, v, written) && i < |devs|
  {
    if i in written then KindOf(crc, devs[i], v, first(i), second(i)) else KeptOld
  }

  ghost function KindsOf(crc: Checksum, devs: seq<MetaDev>, v: Version, written: set<nat>, first: Fates, second: Fates): (r: seq<Kind>)
    requires AllFit(devs) && Storables(devs, v, written)
    ensures |r| == |devs| && forall i | 0 <= i < |devs| :: r[i] == KindAt(crc, devs, v, written, first, second, i)
  {
    seq(|devs|, i requires 0 <= i < |devs| => KindAt(crc, devs, v, written, first, second, i))
  }

  ghost predicate AllLoad(crc: Checksum, devs: seq<MetaDev>) {
    AllFit(devs) && forall i | 0 <= i < |devs| :: Load(crc, devs[i].g, devs[i].store.disk).Loaded?
  }

  lemma {:induction false} ReloadAllIs(crc: Checksum, devs: seq<MetaDev>)
    requires AllLoad(crc, devs)
    ensures var r := ReloadAll(crc, devs);
            && r.Some? && |r.value| == |devs|
            && forall i | 0 <= i < |devs| :: r.value[i] == Reloaded(crc, devs[i].g, devs[i].store.disk)
  {
    if devs != [] {
      ReloadAllIs(crc, devs[1..]);
      var r := ReloadAll(crc, devs).value;
      forall i | 0 <= i < |devs| ensures r[i] == Reloaded(crc, devs[i].g, devs[i].store.disk) {
        if i > 0 { assert r[i] == ReloadAll(crc, devs[1..]).value[i - 1] && devs[1..][i - 1] == devs[i]; }
      }
    }
  }

  // ----- scanning devices that agree on what they hold

  ghost predicate Holds(crc: Checksum, d: MetaDev, time: Time, data: seq<Byte>)
    requires d.g.Fits(d.store.disk)
  {
    LastUpdateTime(d.store.headers) == Some(time) && LoadState(crc, d.g, d.store.disk, d.store.headers) == Data(data)
  }

  /** A device with that time has that data, if it has any. */
  ghost predicate OneReading(crc: Checksum, devs: seq<MetaDev>, time: Time, data: seq<Byte>)
    requires AllFit(devs)
  {
    forall i | 0 <= i < |devs| && LastUpdateTime(devs[i].store.headers) == Some(time) ::
      var read := LoadState(crc, devs[i].g, devs[i].store.disk, devs[i].store.headers); read.Data? ==> read.bytes == data
  }

  ghost predicate HolderFound(crc: Checksum, devs: seq<MetaDev>, time: Time, data: seq<Byte>, order: seq<nat>, readable: set<nat>)
    requires AllFit(devs) && InRange(order, |devs|)
  {
    exists k :: 0 <= k < |order| && order[k] in readable && Holds(crc, devs[order[k]], time, data)
  }

  lemma HolderFoundStep(crc: Checksum, devs: seq<MetaDev>, time: Time, data: seq<Byte>, order: seq<nat>, readable: set<nat>)
    requires AllFit(devs) && InRange(order, |devs|) && order != []
    ensures HolderFound(crc, devs, time, data, order, readable) <==>
            || (order[0] in readable && Holds(crc, devs[order[0]], time, data))
            || HolderFound(crc, devs, time, data, order[1..], readable)
  {
  }

  lemma {:induction false} ScanIs(crc: Checksum, devs: seq<MetaDev>, time: Time, data: seq<Byte>, order: seq<nat>, readable: set<nat>)
    requires AllFit(devs) && InRange(order, |devs|) && OneReading(crc, devs, time, data)
    ensures FirstReadable(crc, devs, time, order, readable) ==
            if HolderFound(crc, devs, time, data, order, readable) then Recovered(time, data) else Unreadable
  {
    if order != [] {
      HolderFoundStep(crc, devs, time, data, order, readable);
      ScanIs(crc, devs, time, data, order[1..], readable);
    }
  }

  // ----- recovery

  /** Each device shows what its kind says, and before the save none was ahead of `latest`, which some device held. */
  ghost predicate AfterCrash(crc: Checksum, devs: seq<MetaDev>, kinds: seq<Kind>, before: seq<Option<Version>>,
                             latest: Option<Version>, v: Version) {
    && |devs| == |kinds| == |before| && AllFit(devs)
    && (forall i | 0 <= i < |devs| :: Shows(crc, devs[i], kinds[i], before[i], v) && NotAhead(before[i], latest))
    && (latest.Some? ==> exists i :: 0 <= i < |devs| && before[i] == latest)
    && BeforeOption(TimeOf(latest), v.time)
  }

  ghost predicate SaveShows(kinds: seq<Kind>) {
    exists i :: 0 <= i < |kinds| && kinds[i] != KeptOld
  }

  lemma TimeAfterCrash(crc: Checksum, devs: seq<MetaDev>, kinds: seq<Kind>, before: seq<Option<Version>>,
                       latest: Option<Version>, v: Version)
    requires AfterCrash(crc, devs, kinds, before, latest, v)
    ensures MostRecent(devs) == if SaveShows(kinds) then Some(v.time) else TimeOf(latest)
  {
    if SaveShows(kinds) {
      var i :| 0 <= i < |kinds| && kinds[i] != KeptOld;
      assert Shows(crc, devs[i], kinds[i], before[i], v);
      MostRecentBounds(devs, i);
    } else if latest.Some? {
      var i :| 0 <= i < |devs| && before[i] == latest;
      assert Shows(crc, devs[i], kinds[i], before[i], v);
      MostRecentBounds(devs, i);
    }
    if MostRecent(devs).Some? {
      var j := MostRecentAttained(devs);
      assert Shows(crc, devs[j], kinds[j], before[j], v) && NotAhead(before[j], latest);
    }
  }

  lemma NewReading(crc: Checksum, devs: seq<MetaDev>, kinds: seq<Kind>, before: seq<Option<Version>>,
                   latest: Option<Version>, v: Version, i: nat)
    requires AfterCrash(crc, devs, kinds, before, latest, v) && i < |devs|
    ensures LastUpdateTime(devs[i].store.headers) == Some(v.time) ==> kinds[i] != KeptOld
    ensures Holds(crc, devs[i], v.time, v.data) <==> kinds[i] == TookNew
  {
  }

  lemma OldReading(crc: Checksum, devs: seq<MetaDev>, kinds: seq<Kind>, before: seq<Option<Version>>,
                   latest: Version, v: Version, i: nat)
    requires AfterCrash(crc, devs, kinds, before, Some(latest), v) && i < |devs| && kinds[i] == KeptOld
    ensures LastUpdateTime(devs[i].store.headers) == Some(latest.time) ==> before[i] == Some(latest)
    ensures Holds(crc, devs[i], latest.time, latest.data) <==> before[i] == Some(latest)
  {
  }

  ghost predicate NewFound(kinds: seq<Kind>, order: seq<nat>, readable: set<nat>)
    requires InRange(order, |kinds|)
  {
    exists k :: 0 <= k < |order| && order[k] in readable && kinds[order[k]] == TookNew
  }

  ghost predicate OldFound(before: seq<Option<Version>>, latest: Option<Version>, order: seq<nat>, readable: set<nat>)
    requires InRange(order, |before|)
  {
    exists k :: 0 <= k < |order| && order[k] in readable && before[order[k]] == latest
  }

  /**
   If the save shows on no device, recovery gives what was saved before. If it shows on any, recovery
   gives the save if a device that has all of it can be read, and fails otherwise. It never gives a
   mixture, and never falls back on the save before.
   */
  lemma RecoveryAfterCrash(crc: Checksum, devs: seq<MetaDev>, kinds: seq<Kind>, before: seq<Option<Version>>,
                           latest: Option<Version>, v: Version, order: seq<nat>, readable: set<nat>)
    requires AfterCrash(crc, devs, kinds, before, latest, v) && InRange(order, |devs|)
    ensures GetMetadata(crc, devs, order, readable) == Outcome(kinds, before, latest, v, order, readable)
  {
    TimeAfterCrash(crc, devs, kinds, before, latest, v);
    if SaveShows(kinds) {
      NewScan(crc, devs, kinds, before, latest, v, order, readable);
    } else if latest.Some? {
      OldScan(crc, devs, kinds, before, latest.value, v, order, readable);
    }
  }

  ghost function Outcome(kinds: seq<Kind>, before: seq<Option<Version>>, latest: Option<Version>, v: Version,
                         order: seq<nat>, readable: set<nat>): Metadata
    requires |kinds| == |before| && InRange(order, |kinds|)
  {
    if SaveShows(kinds) then if NewFound(kinds, order, readable) then Recovered(v.time, v.data) else Unreadable
    else if latest.None? then NoMetadata
    else if OldFound(before, latest, order, readable) then Recovered(latest.value.time, latest.value.data)
    else Unreadable
  }

  lemma NewScan(crc: Checksum, devs: seq<MetaDev>, kinds: seq<Kind>, before: seq<Option<Version>>,
                latest: Option<Version>, v: Version, order: seq<nat>, readable: set<nat>)
    requires AfterCrash(crc, devs, kinds, before, latest, v) && InRange(order, |devs|)
    ensures FirstReadable(crc, devs, v.time, order, readable) ==
            if NewFound(kinds, order, readable) then Recovered(v.time, v.data) else Unreadable
  {
    forall i | 0 <= i < |devs| && LastUpdateTime(devs[i].store.headers) == Some(v.time)
      ensures var read := LoadState(crc, devs[i].g, devs[i].store.disk, devs[i].store.headers); read.Data? ==> read.bytes == v.data
    {
      NewReading(crc, devs, kinds, before, latest, v, i);
      assert Shows(crc, devs[i], kinds[i], before[i], v);
    }
    ScanIs(crc, devs, v.time, v.data, order, readable);
    forall k | 0 <= k < |order| ensures Holds(crc, devs[order[k]], v.time, v.data) <==> kinds[order[k]] == TookNew {
      NewReading(crc, devs, kinds, before, latest, v, order[k]);
    }
  }

  lemma OldScan(crc: Checksum, devs: seq<MetaDev>, kinds: seq<Kind>, before: seq<Option<Version>>,
                latest: Version, v: Version, order: seq<nat>, readable: set<nat>)
    requires AfterCrash(crc, devs, kinds, before, Some(latest), v) && InRange(order, |devs|) && !SaveShows(kinds)
    ensures FirstReadable(crc, devs, latest.time, order, readable) ==
            if OldFound(before, Some(latest), order, readable) then Recovered(latest.time, latest.data) else Unreadable
  {
    forall i | 0 <= i < |devs| && LastUpdateTime(devs[i].store.headers) == Some(latest.time)
      ensures var read := LoadState(crc, devs[i].g, devs[i].store.disk, devs[i].store.headers); read.Data? ==> read.bytes == latest.data
    {
      OldReading(crc, devs, kinds, before, latest, v, i);
      assert Shows(crc, devs[i], kinds[i], before[i], v);
    }
    ScanIs(crc, devs, latest.time, latest.data, order, readable);
    forall k | 0 <= k < |order| ensures Holds(crc, devs[order[k]], latest.time, latest.data) <==> before[order[k]] == Some(latest) {
      OldReading(crc, devs, kinds, before, latest, v, order[k]);
    }
  }

  // ----- from a state of a run

  ghost function Befores(devs: seq<MetaDev>, slots: seq<Slots>): (r: seq<Option<Version>>)
    requires |devs| == |slots|
    ensures |r| == |devs| && forall i | 0 <= i < |devs| :: r[i] == LatestOf(devs[i], slots[i])
  {
    seq(|devs|, i requires 0 <= i < |devs| => LatestOf(devs[i], slots[i]))
  }

  ghost predicate NoAccidents(crc: Checksum, devs: seq<MetaDev>, v: Version, written: set<nat>, first: Fates)
    requires AllFit(devs) && Storables(devs, v, written)
  {
    forall i | 0 <= i < |devs| && i in written :: NoAccident(crc, devs[i], v, first(i))
  }

  lemma CrashedDevAt(crc: Checksum, pool: Pool, slots: seq<Slots>, latest: Option<Version>, v: Version,
                     written: set<nat>, first: Fates, second: Fates, i: nat)
    requires PoolInv(crc, pool, slots, latest) && AllFit(pool.devs) && i < |pool.devs|
    requires Storables(pool.devs, v, written) && BeforeOption(TimeOf(latest), v.time)
    requires NoAccidents(crc, pool.devs, v, written, first)
    ensures var disk := DiskAt(crc, pool.devs, v, written, first, second, i);
            && Load(crc, pool.devs[i].g, disk).Loaded?
            && Shows(crc, Reloaded(crc, pool.devs[i].g, disk), KindAt(crc, pool.devs, v, written, first, second, i),
                     LatestOf(pool.devs[i], slots[i]), v)
  {
    var d := pool.devs[i];
    assert DevGood(crc, d, slots[i]) && NotAhead(LatestOf(d, slots[i]), latest);
    if i in written {
      NoDeviceRejects(crc, d, slots[i], latest, v);
      CrashedDevShows(crc, d, slots[i], v, first(i), second(i));
    } else {
      GoodReload(crc, d.g, d.store.disk, d.store.headers, slots[i]);
    }
  }

  /** Recovery after a save to any of the devices was cut off, on each of them at any byte of either copy. */
  lemma CrashRecovery(crc: Checksum, pool: Pool, slots: seq<Slots>, latest: Option<Version>, v: Version,
                      written: set<nat>, first: Fates, second: Fates, order: seq<nat>, readable: set<nat>)
    requires PoolInv(crc, pool, slots, latest) && AllFit(pool.devs) && InRange(order, |pool.devs|)
    requires Storables(pool.devs, v, written) && BeforeOption(TimeOf(latest), v.time)
    requires NoAccidents(crc, pool.devs, v, written, first)
    ensures var found := ReloadAll(crc, Crashed(crc, pool.devs, v, written, first, second));
            && found.Some? && |found.value| == |pool.devs|
            && GetMetadata(crc, found.value, order, readable) ==
               Outcome(KindsOf(crc, pool.devs, v, written, first, second), Befores(pool.devs, slots), latest, v, order, readable)
  {
    var devs := Crashed(crc, pool.devs, v, written, first, second);
    CrashedLoad(crc, pool, slots, latest, v, written, first, second);
    ReloadAllIs(crc, devs);
    CrashedPool(crc, pool, slots, latest, v, written, first, second, ReloadAll(crc, devs).value);
    RecoveryAfterCrash(crc, ReloadAll(crc, devs).value, KindsOf(crc, pool.devs, v, written, first, second),
                       Befores(pool.devs, slots), latest, v, order, readable);
  }

  lemma CrashedLoad(crc: Checksum, pool: Pool, slots: seq<Slots>, latest: Option<Version>, v: Version,
                    written: set<nat>, first: Fates, second: Fates)
    requires PoolInv(crc, pool, slots, latest) && AllFit(pool.devs)
    requires Storables(pool.devs, v, written) && BeforeOption(TimeOf(latest), v.time)
    requires NoAccidents(crc, pool.devs, v, written, first)
    ensures AllLoad(crc, Crashed(crc, pool.devs, v, written, first, second))
  {
    var devs := Crashed(crc, pool.devs, v, written, first, second);
    forall i | 0 <= i < |devs| ensures Load(crc, devs[i].g, devs[i].store.disk).Loaded? {
      CrashedDevAt(crc, pool, slots, latest, v, written, first, second, i);
    }
  }

  lemma CrashedPool(crc: Checksum, pool: Pool, slots: seq<Slots>, latest: Option<Version>, v: Version,
                    written: set<nat>, first: Fates, second: Fates, found: seq<MetaDev>)
    requires PoolInv(crc, pool, slots, latest) && AllFit(pool.devs)
    requires Storables(pool.devs, v, written) && BeforeOption(TimeOf(latest), v.time)
    requires NoAccidents(crc, pool.devs, v, written, first)
    requires |found| == |pool.devs|
    requires forall i | 0 <= i < |found| ::
               var disk := DiskAt(crc, pool.devs, v, written, first, second, i);
               Load(crc, pool.devs[i].g, disk).Loaded? && found[i] == Reloaded(crc, pool.devs[i].g, disk)
    ensures AfterCrash(crc, found, KindsOf(crc, pool.devs, v, written, first, second), Befores(pool.devs, slots), latest, v)
  {
    var kinds, before := KindsOf(crc, pool.devs, v, written, first, second), Befores(pool.devs, slots);
    forall i | 0 <= i < |found| ensures Shows(crc, found[i], kinds[i], before[i], v) && NotAhead(before[i], latest) {
      CrashedDevAt(crc, pool, slots, latest, v, written, first, second, i);
    }
    forall i | 0 <= i < |found| ensures found[i].g.Fits(found[i].store.disk) {
      assert Shows(crc, found[i], kinds[i], before[i], v);
    }
    if latest.Some? {
      var i :| 0 <= i < |slots| && LatestOf(pool.devs[i], slots[i]) == latest;
      assert before[i] == latest;
    }
  }

  /**
   One device cut off between header and data is enough to lose the pool's metadata: nothing is
   recovered, although every other device still has the save before and all can be read.
   */
  lemma OneBrokenDevice(crc: Checksum, pool: Pool, slots: seq<Slots>, latest: Option<Version>, v: Version,
                        torn: nat, first: Fates, second: Fates, order: seq<nat>, readable: set<nat>)
    requires PoolInv(crc, pool, slots, latest) && AllFit(pool.devs) && InRange(order, |pool.devs|)
    requires torn < |pool.devs| && Storables(pool.devs, v, {torn}) && BeforeOption(TimeOf(latest), v.time)
    requires NoAccidents(crc, pool.devs, v, {torn}, first)
    requires KindOf(crc, pool.devs[torn], v, first(torn), second(torn)) == Broken
    ensures var found := ReloadAll(crc, Crashed(crc, pool.devs, v, {torn}, first, second));
            && found.Some? && |found.value| == |pool.devs|
            && GetMetadata(crc, found.value, order, readable) == Unreadable
  {
    CrashRecovery(crc, pool, slots, latest, v, {torn}, first, second, order, readable);
    OneKind(crc, pool.devs, v, torn, first, second);
    BrokenOutcome(KindsOf(crc, pool.devs, v, {torn}, first, second), Befores(pool.devs, slots), latest, v, order, readable, torn);
  }

  lemma OneKind(crc: Checksum, devs: seq<MetaDev>, v: Version, torn: nat, first: Fates, second: Fates)
    requires AllFit(devs) && Storables(devs, v, {torn}) && torn < |devs|
    requires KindOf(crc, devs[torn], v, first(torn), second(torn)) == Broken
    ensures var kinds := KindsOf(crc, devs, v, {torn}, first, second);
            kinds[torn] == Broken && forall i | 0 <= i < |kinds| :: kinds[i] != TookNew
  {
  }

  lemma BrokenOutcome(kinds: seq<Kind>, before: seq<Option<Version>>, latest: Option<Version>, v: Version,
                      order: seq<nat>, readable: set<nat>, torn: nat)
    requires |kinds| == |before| && InRange(order, |kinds|) && torn < |kinds| && kinds[torn] == Broken
    requires forall i | 0 <= i < |kinds| :: kinds[i] != TookNew
    ensures Outcome(kinds, before, latest, v, order, readable) == Unreadable
  {
  }
}
