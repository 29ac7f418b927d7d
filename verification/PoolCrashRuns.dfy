/**
 Runs of a pool in which saves, saves that are cut off, restarts and added devices alternate.
 A device that was cut off keeps less than an intact one: this is what it keeps, and what the
 pool can count on.
 */
module PoolCrashRuns {
  import opened Prelude
  import opened Mda
  import opened MdaRuns
  import opened PoolMetadata
  import opened PoolCrash

  // ----- the headers of one region

  /** The header of copy `i` of a region. */
  ghost function Hdr(crc: Checksum, g: Geometry, disk: Disk, i: nat): HeaderRead
    requires g.Fits(disk) && i < 4
  {
    FromBuf(crc, Region(g, disk, i)[..32])
  }

  /** What loading finds in a primary region, given the headers of its two copies. */
  ghost function Pick(first: HeaderRead, backup: HeaderRead): HeaderRead {
    if first.Bad? then backup else first
  }

  ghost predicate Reads(r: HeaderRead, h: Option<Header>) {
    r == if h.None? then Empty else Found(h.value)
  }

  /**
   Loading finds `h`; the backup copy has no later header; and headers speak of data that fits.
   */
  ghost predicate SlotSane(first: HeaderRead, backup: HeaderRead, h: Option<Header>, max: int) {
    && Reads(Pick(first, backup), h)
    && !backup.Panic?
    && (backup.Found? ==>
          h.Some? && !Before(h.value.lastUpdated, backup.header.lastUpdated) && backup.header.used <= max)
    && (h.Some? ==> h.value.used <= max)
  }

  /** A save that got past the header of the first copy. */
  lemma SlotWithNew(first: HeaderRead, backup: HeaderRead, h: Option<Header>, max: int, new': Header, backup': HeaderRead)
    requires SlotSane(first, backup, h, max) && new'.used <= max
    requires h.Some? ==> Before(h.value.lastUpdated, new'.lastUpdated)
    requires backup' == backup || backup' == Found(new') || backup' == Bad
    ensures SlotSane(Found(new'), backup', Some(new'), max)
  {
  }

  /** A first copy whose header is spoiled. */
  lemma SlotSpoiled(first: HeaderRead, backup: HeaderRead, h: Option<Header>, max: int)
    requires SlotSane(first, backup, h, max) && !backup.Bad?
    ensures SlotSane(Bad, backup, ToOption(backup), max)
    ensures ToOption(backup).Some? ==> h.Some? && !Before(h.value.lastUpdated, ToOption(backup).value.lastUpdated)
  {
  }

  // ----- one device

  ghost predicate SlotAt(crc: Checksum, g: Geometry, disk: Disk, r: nat, h: Option<Header>)
    requires g.Fits(disk) && r < 2
  {
    SlotSane(Hdr(crc, g, disk, r), Hdr(crc, g, disk, r + 2), h, g.MaxData())
  }

  /** Loading finds the headers in memory, they differ in time, and no backup copy has a later one. */
  ghost predicate Sane(crc: Checksum, d: MetaDev) {
    var g, disk, hs := d.g, d.store.disk, d.store.headers;
    && g.Fits(disk) && !Tied(hs)
    && SlotAt(crc, g, disk, 0, hs[0]) && SlotAt(crc, g, disk, 1, hs[1])
  }

  lemma MdaIs(crc: Checksum, g: Geometry, disk: Disk, r: nat)
    requires g.Fits(disk) && r < 2
    ensures GetMda(crc, g, disk, r) == Pick(Hdr(crc, g, disk, r), Hdr(crc, g, disk, r + 2))
  {
    HeaderInRegion(crc, g, disk, r);
    HeaderInRegion(crc, g, disk, r + 2);
  }

  lemma SaneLoads(crc: Checksum, d: MetaDev)
    requires Sane(crc, d)
    ensures Load(crc, d.g, d.store.disk) == Loaded(d.store.headers)
  {
    SlotLoads(crc, d.g, d.store.disk, 0, d.store.headers[0]);
    SlotLoads(crc, d.g, d.store.disk, 1, d.store.headers[1]);
    LoadsPair(crc, d.g, d.store.disk, d.store.headers);
  }

  lemma SlotLoads(crc: Checksum, g: Geometry, disk: Disk, r: nat, h: Option<Header>)
    requires g.Fits(disk) && r < 2 && SlotAt(crc, g, disk, r, h)
    ensures GetMda(crc, g, disk, r) == if h.None? then Empty else Found(h.value)
  {
    MdaIs(crc, g, disk, r);
  }

  lemma HdrHolds(crc: Checksum, g: Geometry, disk: Disk, i: nat, v: Option<Version>)
    requires g.Fits(disk) && i < 4 && CopyHolds(crc, g, disk, i, v)
    ensures Reads(Hdr(crc, g, disk, i), if v.None? then None else Some(HeaderOf(crc, v.value)))
  {
    HeaderInRegion(crc, g, disk, i);
    CopyHeader(crc, g, disk, i, v);
  }

  /** An intact device is sane. */
  lemma GoodIsSane(crc: Checksum, d: MetaDev, vs: Slots)
    requires DevGood(crc, d, vs)
    ensures Sane(crc, d)
  {
    var g, disk, hs := d.g, d.store.disk, d.store.headers;
    NoTieInRuns(crc, g, disk, hs, vs);
    HdrHolds(crc, g, disk, 0, vs[0]);
    HdrHolds(crc, g, disk, 1, vs[1]);
    HdrHolds(crc, g, disk, 2, vs[0]);
    HdrHolds(crc, g, disk, 3, vs[1]);
  }

  /** What a device shows: the time of its newer region and what reading it gives. */
  datatype View = View(time: Option<Time>, read: StateRead)

  ghost function ViewOf(crc: Checksum, d: MetaDev): View
    requires d.g.Fits(d.store.disk)
  {
    View(LastUpdateTime(d.store.headers), LoadState(crc, d.g, d.store.disk, d.store.headers))
  }

  ghost function ViewAfter(kind: Kind, before: View, v: Version): View {
    match kind
    case KeptOld => before
    case TookNew => View(Some(v.time), Data(v.data))
    case Broken => View(Some(v.time), DataError)
  }

  /** Putting an older header, or none, in the older place changes nothing about the newer one. */
  lemma OlderIsOlder(hs: Headers, h: Option<Header>)
    requires !Tied(hs)
    requires h.Some? ==> hs[Older(hs)].Some? && !Before(hs[Older(hs)].value.lastUpdated, h.value.lastUpdated)
    ensures var hs' := hs[Older(hs) := h]; Newer(hs') == Newer(hs) && !Tied(hs') && LastUpdateTime(hs') == LastUpdateTime(hs)
  {
  }

  lemma NewIsNewer(crc: Checksum, hs: Headers, v: Version)
    requires !Tied(hs) && BeforeOption(LastUpdateTime(hs), v.time) && |v.data| <= U64_MAX
    ensures var hs' := hs[Older(hs) := Some(HeaderOf(crc, v))];
            Newer(hs') == Older(hs) && !Tied(hs') && LastUpdateTime(hs') == Some(v.time)
    ensures hs[Older(hs)].Some? ==> Before(hs[Older(hs)].value.lastUpdated, v.time)
  {
  }

  /** Both copies of region `n` are as they were. */
  ghost predicate Kept(g: Geometry, disk: Disk, d: Disk, n: nat)
    requires g.Fits(disk) && g.Fits(d) && n < 2
  {
    Region(g, d, n) == Region(g, disk, n) && Region(g, d, n + 2) == Region(g, disk, n + 2)
  }

  /** Reading a region that was kept gives what it gave. */
  lemma SameReading(crc: Checksum, g: Geometry, disk: Disk, d: Disk, hs: Headers, hs': Headers)
    requires g.Fits(disk) && g.Fits(d) && Kept(g, disk, d, Newer(hs))
    requires Newer(hs') == Newer(hs) && hs'[Newer(hs)] == hs[Newer(hs)]
    requires hs[Newer(hs)].Some? ==> hs[Newer(hs)].value.used <= g.MaxData()
    ensures LoadState(crc, g, d, hs') == LoadState(crc, g, disk, hs)
  {
    var n := Newer(hs);
    if hs[n].Some? {
      DataInRegion(crc, g, disk, hs[n].value, n);
      DataInRegion(crc, g, disk, hs[n].value, n + 2);
      DataInRegion(crc, g, d, hs[n].value, n);
      DataInRegion(crc, g, d, hs[n].value, n + 2);
    }
  }

  /** The slots of a sane device by their age. */
  lemma SlotsOf(crc: Checksum, d: MetaDev, r: nat)
    requires Sane(crc, d) && r < 2
    ensures SlotAt(crc, d.g, d.store.disk, r, d.store.headers[r])
  {
    assert r == 0 || r == 1;
  }

  /** A device one of whose regions was written and is sane, and whose other region was kept. */
  lemma SaneAgain(crc: Checksum, d: MetaDev, disk: Disk, r: nat, h: Option<Header>)
    requires Sane(crc, d) && d.g.Fits(disk) && r < 2 && Kept(d.g, d.store.disk, disk, 1 - r)
    requires SlotAt(crc, d.g, disk, r, h)
    requires !Tied(d.store.headers[r := h])
    ensures Sane(crc, MetaDev(d.g, Store(disk, d.store.headers[r := h])))
  {
  }

  // ----- a save to one device, complete or cut off

  /** A mixture of old and new header in the backup copy does not pass for a header. */
  ghost predicate NoBackupCollision(crc: Checksum, g: Geometry, disk: Disk, hs: Headers, v: Version, reached: set<nat>)
    requires g.Fits(disk) && Storable(g, v)
  {
    var r := Older(hs);
    var d := SavedDisk(crc, g, disk, hs, v.time, v.data, Written, Torn(reached));
    NoHeaderCollision(crc, Region(g, disk, r + 2)[..32], HeaderBytes(crc, HeaderOf(crc, v)), Region(g, d, r + 2)[..32])
  }

  ghost predicate NoMishap(crc: Checksum, d: MetaDev, v: Version, first: Fate, second: Fate)
    requires d.g.Fits(d.store.disk) && Storable(d.g, v)
  {
    && NoAccident(crc, d, v, first)
    && (first.Written? && second.Torn? ==> NoBackupCollision(crc, d.g, d.store.disk, d.store.headers, v, second.reached))
  }

  /** What a save leaves of a device: nothing that loads, or a sane device that shows what its kind says. */
  ghost predicate Leaves(crc: Checksum, d: MetaDev, v: Version, kind: Kind, disk: Disk)
    requires Sane(crc, d)
  {
    && d.g.Fits(disk) && !Load(crc, d.g, disk).LoadPanic?
    && (Load(crc, d.g, disk).Loaded? ==>
          && Sane(crc, Reloaded(crc, d.g, disk))
          && ViewOf(crc, Reloaded(crc, d.g, disk)) == ViewAfter(kind, ViewOf(crc, d), v))
    && (kind != KeptOld ==> Load(crc, d.g, disk).Loaded?)
  }

  /** The device with the new header in its older place. */
  lemma LeavesNew(crc: Checksum, d: MetaDev, v: Version, disk: Disk, kind: Kind)
    requires Sane(crc, d) && Accepts(d, v) && Storable(d.g, v) && d.g.Fits(disk)
    requires Kept(d.g, d.store.disk, disk, Newer(d.store.headers))
    requires var r := Older(d.store.headers);
             && Hdr(crc, d.g, disk, r) == Found(HeaderOf(crc, v))
             && var backup := Hdr(crc, d.g, disk, r + 2);
                backup == Hdr(crc, d.g, d.store.disk, r + 2) || backup == Found(HeaderOf(crc, v)) || backup == Bad
    requires kind != KeptOld
    requires var hs' := d.store.headers[Older(d.store.headers) := Some(HeaderOf(crc, v))];
             LoadState(crc, d.g, disk, hs') == if kind == TookNew then Data(v.data) else DataError
    ensures Leaves(crc, d, v, kind, disk)
  {
    var r, hs := Older(d.store.headers), d.store.headers;
    var hs' := hs[r := Some(HeaderOf(crc, v))];
    NewIsNewer(crc, hs, v);
    SlotsOf(crc, d, r);
    SlotWithNew(Hdr(crc, d.g, d.store.disk, r), Hdr(crc, d.g, d.store.disk, r + 2), hs[r], d.g.MaxData(),
                HeaderOf(crc, v), Hdr(crc, d.g, disk, r + 2));
    SaneAgain(crc, d, disk, r, Some(HeaderOf(crc, v)));
    SaneLoads(crc, MetaDev(d.g, Store(disk, hs')));
  }

  /** The device whose newer region is kept and whose older one shows something older still, or nothing. */
  lemma LeavesOld(crc: Checksum, d: MetaDev, v: Version, disk: Disk, h: Option<Header>)
    requires Sane(crc, d) && d.g.Fits(disk) && Kept(d.g, d.store.disk, disk, Newer(d.store.headers))
    requires var r := Older(d.store.headers);
             && SlotAt(crc, d.g, disk, r, h)
             && (h.Some? ==> d.store.headers[r].Some? && !Before(d.store.headers[r].value.lastUpdated, h.value.lastUpdated))
    ensures Leaves(crc, d, v, KeptOld, disk)
  {
    var r, hs := Older(d.store.headers), d.store.headers;
    OlderIsOlder(hs, h);
    SlotsOf(crc, d, 1 - r);
    SaneAgain(crc, d, disk, r, h);
    SaneLoads(crc, MetaDev(d.g, Store(disk, hs[r := h])));
    SameReading(crc, d.g, d.store.disk, disk, hs, hs[r := h]);
  }

  /** Both copies of the older header are spoiled. */
  lemma LeavesNothing(crc: Checksum, d: MetaDev, v: Version, disk: Disk)
    requires Sane(crc, d) && d.g.Fits(disk) && Kept(d.g, d.store.disk, disk, Newer(d.store.headers))
    requires var r := Older(d.store.headers); Hdr(crc, d.g, disk, r) == Bad && Hdr(crc, d.g, disk, r + 2) == Bad
    ensures Leaves(crc, d, v, KeptOld, disk) && Load(crc, d.g, disk) == LoadError
  {
    var r, n := Older(d.store.headers), Newer(d.store.headers);
    MdaIs(crc, d.g, disk, r);
    MdaIs(crc, d.g, disk, n);
    SlotsOf(crc, d, n);
    LoadFails(crc, d.g, disk, r);
  }

  lemma LoadFails(crc: Checksum, g: Geometry, disk: Disk, r: nat)
    requires g.Fits(disk) && r < 2 && GetMda(crc, g, disk, r).Bad? && !GetMda(crc, g, disk, 1 - r).Panic?
    ensures Load(crc, g, disk) == LoadError
  {
    assert r == 0 || r == 1;
  }

  lemma SaveKeepsOther(crc: Checksum, d: MetaDev, v: Version, first: Fate, second: Fate)
    requires d.g.Fits(d.store.disk) && Storable(d.g, v)
    ensures var disk := CrashedDisk(crc, d, v, first, second);
            d.g.Fits(disk) && Kept(d.g, d.store.disk, disk, Newer(d.store.headers))
  {
    SavedRegions(crc, d.g, d.store.disk, d.store.headers, v.time, v.data, first, second);
  }

  /** Where the header found is one of the old and the new one, or none. */
  lemma HdrAmong(crc: Checksum, before: seq<Byte>, v: Version, found: seq<Byte>)
    requires |before| == |found| == 32 && 0 < |v.data| <= U64_MAX
    requires NoHeaderCollision(crc, before, HeaderBytes(crc, HeaderOf(crc, v)), found)
    ensures found == HeaderBytes(crc, HeaderOf(crc, v)) ==> FromBuf(crc, found) == Found(HeaderOf(crc, v))
    ensures FromBuf(crc, found) == Bad || FromBuf(crc, found) == FromBuf(crc, before) || FromBuf(crc, found) == Found(HeaderOf(crc, v))
    ensures found != HeaderBytes(crc, HeaderOf(crc, v)) ==> FromBuf(crc, found) == Bad || found == before
  {
    HeaderRoundTrip(crc, HeaderOf(crc, v));
  }

  /** What the device looks like when the first copy was cut off. */
  lemma TornFirstDisk(crc: Checksum, d: MetaDev, v: Version, reached: set<nat>, second: Fate)
    requires d.g.Fits(d.store.disk) && Storable(d.g, v) && NoCollision(crc, d.g, d.store.disk, d.store.headers, v, reached)
    ensures var r, disk := Older(d.store.headers), CrashedDisk(crc, d, v, Torn(reached), second);
            && d.g.Fits(disk) && Kept(d.g, d.store.disk, disk, Newer(d.store.headers))
            && Hdr(crc, d.g, disk, r + 2) == Hdr(crc, d.g, d.store.disk, r + 2)
            && NoDataCollision(crc, v.data, DataBytes(d.g, disk, r, v))
            && NoDataCollision(crc, v.data, DataBytes(d.g, disk, r + 2, v))
            && NoHeaderCollision(crc, Region(d.g, d.store.disk, r)[..32], HeaderBytes(crc, HeaderOf(crc, v)), Region(d.g, disk, r)[..32])
  {
    SaveKeepsOther(crc, d, v, Torn(reached), second);
    SavedRegions(crc, d.g, d.store.disk, d.store.headers, v.time, v.data, Torn(reached), second);
    assert CrashedDisk(crc, d, v, Torn(reached), second) == CrashedDisk(crc, d, v, Torn(reached), Torn({}));
  }

  lemma LeavesTornFirst(crc: Checksum, d: MetaDev, v: Version, reached: set<nat>, second: Fate)
    requires Sane(crc, d) && Accepts(d, v) && Storable(d.g, v)
    requires NoCollision(crc, d.g, d.store.disk, d.store.headers, v, reached)
    ensures Leaves(crc, d, v, KindOf(crc, d, v, Torn(reached), second), CrashedDisk(crc, d, v, Torn(reached), second))
  {
    var r, disk := Older(d.store.headers), CrashedDisk(crc, d, v, Torn(reached), second);
    TornFirstDisk(crc, d, v, reached, second);
    HdrAmong(crc, Region(d.g, d.store.disk, r)[..32], v, Region(d.g, disk, r)[..32]);
    if Region(d.g, disk, r)[..32] == HeaderBytes(crc, HeaderOf(crc, v)) {
      TornReads(crc, d, v, disk);
      LeavesNew(crc, d, v, disk, KindOf(crc, d, v, Torn(reached), second));
    } else {
      LeavesOlder(crc, d, v, disk);
    }
  }

  /** With the new header, reading gives the new data if either copy has all of it. */
  lemma TornReads(crc: Checksum, d: MetaDev, v: Version, disk: Disk)
    requires Sane(crc, d) && Accepts(d, v) && Storable(d.g, v) && d.g.Fits(disk)
    requires var r := Older(d.store.headers);
             NoDataCollision(crc, v.data, DataBytes(d.g, disk, r, v)) && NoDataCollision(crc, v.data, DataBytes(d.g, disk, r + 2, v))
    ensures var r := Older(d.store.headers);
            LoadState(crc, d.g, disk, d.store.headers[r := Some(HeaderOf(crc, v))]) ==
            if DataBytes(d.g, disk, r, v) == v.data || DataBytes(d.g, disk, r + 2, v) == v.data then Data(v.data) else DataError
  {
    NewIsNewer(crc, d.store.headers, v);
    ReadsOrFails(crc, d.g, disk, d.store.headers[Older(d.store.headers) := Some(HeaderOf(crc, v))], v);
  }

  /** The older header is as it was, or spoiled. */
  lemma LeavesOlder(crc: Checksum, d: MetaDev, v: Version, disk: Disk)
    requires Sane(crc, d) && d.g.Fits(disk) && Kept(d.g, d.store.disk, disk, Newer(d.store.headers))
    requires var r := Older(d.store.headers);
             && Hdr(crc, d.g, disk, r + 2) == Hdr(crc, d.g, d.store.disk, r + 2)
             && (Hdr(crc, d.g, disk, r) == Bad || Hdr(crc, d.g, disk, r) == Hdr(crc, d.g, d.store.disk, r))
    ensures Leaves(crc, d, v, KeptOld, disk)
  {
    var r := Older(d.store.headers);
    var first, backup := Hdr(crc, d.g, d.store.disk, r), Hdr(crc, d.g, d.store.disk, r + 2);
    SlotsOf(crc, d, r);
    if Hdr(crc, d.g, disk, r) == first {
      LeavesOld(crc, d, v, disk, d.store.headers[r]);
    } else if backup.Bad? {
      LeavesNothing(crc, d, v, disk);
    } else {
      SlotSpoiled(first, backup, d.store.headers[r], d.g.MaxData());
      LeavesOld(crc, d, v, disk, ToOption(backup));
    }
  }

  lemma LeavesTornSecond(crc: Checksum, d: MetaDev, v: Version, second: Fate)
    requires Sane(crc, d) && Accepts(d, v) && Storable(d.g, v) && NoMishap(crc, d, v, Written, second)
    ensures Leaves(crc, d, v, TookNew, CrashedDisk(crc, d, v, Written, second))
  {
    var g, hs, r := d.g, d.store.headers, Older(d.store.headers);
    var disk := CrashedDisk(crc, d, v, Written, second);
    SaveKeepsOther(crc, d, v, Written, second);
    SavedRegions(crc, g, d.store.disk, hs, v.time, v.data, Written, second);
    WrittenRegion(crc, g, Region(g, d.store.disk, r), v);
    WrittenRegion(crc, g, Region(g, d.store.disk, r + 2), v);
    HdrHolds(crc, g, disk, r, Some(v));
    if second.Torn? {
      HdrAmong(crc, Region(g, d.store.disk, r + 2)[..32], v, Region(g, disk, r + 2)[..32]);
    } else {
      HdrHolds(crc, g, disk, r + 2, Some(v));
    }
    NewIsNewer(crc, hs, v);
    CopyData(crc, g, disk, r, v);
    LeavesNew(crc, d, v, disk, TookNew);
  }

  /** Whatever becomes of a save, the device cannot be loaded any more or shows what its kind says. */
  lemma LeavesAny(crc: Checksum, d: MetaDev, v: Version, first: Fate, second: Fate)
    requires Sane(crc, d) && Accepts(d, v) && Storable(d.g, v) && NoMishap(crc, d, v, first, second)
    ensures Leaves(crc, d, v, KindOf(crc, d, v, first, second), CrashedDisk(crc, d, v, first, second))
  {
    match first {
      case Torn(reached) => LeavesTornFirst(crc, d, v, reached, second);
      case Written => LeavesTornSecond(crc, d, v, second);
    }
  }

  /**
   A save makes a device unloadable if and only if it is cut off in the first copy, which it leaves with neither
   the old nor the new header, and the backup copy of that header was bad already.
   */
  lemma UnloadableIff(crc: Checksum, d: MetaDev, v: Version, first: Fate, second: Fate)
    requires Sane(crc, d) && Accepts(d, v) && Storable(d.g, v) && NoMishap(crc, d, v, first, second)
    ensures var r, disk := Older(d.store.headers), CrashedDisk(crc, d, v, first, second);
            var before, found := Region(d.g, d.store.disk, r)[..32], Region(d.g, disk, r)[..32];
            !Load(crc, d.g, disk).Loaded? <==>
            && first.Torn? && Hdr(crc, d.g, d.store.disk, r + 2) == Bad
            && found != before && found != HeaderBytes(crc, HeaderOf(crc, v))
  {
    match first {
      case Torn(reached) => UnloadableTorn(crc, d, v, reached, second);
      case Written => LeavesTornSecond(crc, d, v, second);
    }
  }

  lemma UnloadableTorn(crc: Checksum, d: MetaDev, v: Version, reached: set<nat>, second: Fate)
    requires Sane(crc, d) && Accepts(d, v) && Storable(d.g, v)
    requires NoCollision(crc, d.g, d.store.disk, d.store.headers, v, reached)
    ensures var r, disk := Older(d.store.headers), CrashedDisk(crc, d, v, Torn(reached), second);
            var before, found := Region(d.g, d.store.disk, r)[..32], Region(d.g, disk, r)[..32];
            !Load(crc, d.g, disk).Loaded? <==>
            Hdr(crc, d.g, d.store.disk, r + 2) == Bad && found != before && found != HeaderBytes(crc, HeaderOf(crc, v))
  {
    var r, disk := Older(d.store.headers), CrashedDisk(crc, d, v, Torn(reached), second);
    var before, found := Region(d.g, d.store.disk, r)[..32], Region(d.g, disk, r)[..32];
    TornFirstDisk(crc, d, v, reached, second);
    HdrAmong(crc, before, v, found);
    if found == HeaderBytes(crc, HeaderOf(crc, v)) {
      NewHeaderLoads(crc, d, v, reached, second);
    } else {
      OlderLoadsIff(crc, d, disk, found == before);
    }
  }

  lemma NewHeaderLoads(crc: Checksum, d: MetaDev, v: Version, reached: set<nat>, second: Fate)
    requires Sane(crc, d) && Accepts(d, v) && Storable(d.g, v)
    requires NoCollision(crc, d.g, d.store.disk, d.store.headers, v, reached)
    requires var r, disk := Older(d.store.headers), CrashedDisk(crc, d, v, Torn(reached), second);
             Region(d.g, disk, r)[..32] == HeaderBytes(crc, HeaderOf(crc, v))
    ensures Load(crc, d.g, CrashedDisk(crc, d, v, Torn(reached), second)).Loaded?
  {
    LeavesTornFirst(crc, d, v, reached, second);
    assert KindOf(crc, d, v, Torn(reached), second) != KeptOld;
  }

  /** The older region has its old header in the first copy or none. */
  lemma OlderLoadsIff(crc: Checksum, d: MetaDev, disk: Disk, same: bool)
    requires Sane(crc, d) && d.g.Fits(disk) && Kept(d.g, d.store.disk, disk, Newer(d.store.headers))
    requires var r := Older(d.store.headers);
             && Hdr(crc, d.g, disk, r + 2) == Hdr(crc, d.g, d.store.disk, r + 2)
             && Hdr(crc, d.g, disk, r) == if same then Hdr(crc, d.g, d.store.disk, r) else Bad
    ensures !Load(crc, d.g, disk).Loaded? <==> !same && Hdr(crc, d.g, d.store.disk, Older(d.store.headers) + 2) == Bad
  {
    var r := Older(d.store.headers);
    var first, backup := Hdr(crc, d.g, d.store.disk, r), Hdr(crc, d.g, d.store.disk, r + 2);
    SlotsOf(crc, d, r);
    if same {
      OlderLoads(crc, d, disk, d.store.headers[r]);
    } else if backup.Bad? {
      LeavesNothing(crc, d, Version(Time(0, 0), []), disk);
    } else {
      SlotSpoiled(first, backup, d.store.headers[r], d.g.MaxData());
      OlderLoads(crc, d, disk, ToOption(backup));
    }
  }

  lemma OlderLoads(crc: Checksum, d: MetaDev, disk: Disk, h: Option<Header>)
    requires Sane(crc, d) && d.g.Fits(disk) && Kept(d.g, d.store.disk, disk, Newer(d.store.headers))
    requires var r := Older(d.store.headers);
             && SlotAt(crc, d.g, disk, r, h)
             && (h.Some? ==> d.store.headers[r].Some? && !Before(d.store.headers[r].value.lastUpdated, h.value.lastUpdated))
    ensures Load(crc, d.g, disk) == Loaded(d.store.headers[Older(d.store.headers) := h])
  {
    var r, hs := Older(d.store.headers), d.store.headers;
    OlderIsOlder(hs, h);
    SaneAgain(crc, d, disk, r, h);
    SaneLoads(crc, MetaDev(d.g, Store(disk, hs[r := h])));
  }

  // ----- the pool

  /** A device shows nothing, or something before `latest`, or `latest` with its data or without. */
  ghost predicate Fitting(view: View, latest: Option<Version>) {
    && (view.time.None? ==> view.read == NoData)
    && (view.time.Some? ==>
          && latest.Some?
          && (Before(view.time.value, latest.value.time)
              || (view.time.value == latest.value.time && (view.read == Data(latest.value.data) || view.read == DataError))))
  }

  /** Every device is sane and shows nothing later than `latest`, which some device shows. */
  ghost predicate DevsFit(crc: Checksum, devs: seq<MetaDev>, latest: Option<Version>) {
    && (forall i | 0 <= i < |devs| :: Sane(crc, devs[i]) && Fitting(ViewOf(crc, devs[i]), latest))
    && (latest.Some? ==> exists i :: 0 <= i < |devs| && ViewOf(crc, devs[i]).time == Some(latest.value.time))
  }

  ghost predicate LifeInv(crc: Checksum, pool: Pool, latest: Option<Version>) {
    DevsFit(crc, pool.devs, latest) && (pool.up ==> pool.lastUpdate == TimeOf(latest))
  }

  lemma SaneFit(crc: Checksum, devs: seq<MetaDev>, latest: Option<Version>)
    requires DevsFit(crc, devs, latest)
    ensures AllFit(devs)
  {
  }

  lemma {:induction false} SanePoolReloads(crc: Checksum, devs: seq<MetaDev>)
    requires AllFit(devs) && forall i | 0 <= i < |devs| :: Sane(crc, devs[i])
    ensures ReloadAll(crc, devs) == Some(devs)
  {
    forall i | 0 <= i < |devs| ensures Load(crc, devs[i].g, devs[i].store.disk) == Loaded(devs[i].store.headers) {
      SaneLoads(crc, devs[i]);
    }
    ReloadAllIs(crc, devs);
    assert ReloadAll(crc, devs).value == devs;
  }

  lemma TimeIsLatest(crc: Checksum, devs: seq<MetaDev>, latest: Option<Version>)
    requires DevsFit(crc, devs, latest) && AllFit(devs)
    ensures MostRecent(devs) == TimeOf(latest)
  {
    if latest.Some? {
      var i :| 0 <= i < |devs| && ViewOf(crc, devs[i]).time == Some(latest.value.time);
      MostRecentBounds(devs, i);
    }
    if MostRecent(devs).Some? {
      var j := MostRecentAttained(devs);
      assert Fitting(ViewOf(crc, devs[j]), latest);
    }
  }

  lemma LatestReading(crc: Checksum, devs: seq<MetaDev>, latest: Version)
    requires DevsFit(crc, devs, Some(latest)) && AllFit(devs)
    ensures OneReading(crc, devs, latest.time, latest.data)
  {
    forall i | 0 <= i < |devs| && LastUpdateTime(devs[i].store.headers) == Some(latest.time)
      ensures var read := LoadState(crc, devs[i].g, devs[i].store.disk, devs[i].store.headers); read.Data? ==> read.bytes == latest.data
    {
      assert Fitting(ViewOf(crc, devs[i]), Some(latest));
    }
  }

  /** What recovery gives, whatever was cut off before: the latest save that shows, nothing else. */
  lemma RecoveryIsLatest(crc: Checksum, devs: seq<MetaDev>, latest: Option<Version>, order: seq<nat>, readable: set<nat>)
    requires DevsFit(crc, devs, latest) && AllFit(devs) && InRange(order, |devs|)
    ensures ReloadAll(crc, devs) == Some(devs)
    ensures GetMetadata(crc, devs, order, readable) ==
            if latest.None? then NoMetadata
            else if HolderFound(crc, devs, latest.value.time, latest.value.data, order, readable)
            then Recovered(latest.value.time, latest.value.data)
            else Unreadable
  {
    SanePoolReloads(crc, devs);
    TimeIsLatest(crc, devs, latest);
    if latest.Some? {
      LatestReading(crc, devs, latest.value);
      ScanIs(crc, devs, latest.value.time, latest.value.data, order, readable);
    }
  }

  lemma FitAccepts(crc: Checksum, d: MetaDev, latest: Option<Version>, v: Version)
    requires Sane(crc, d) && Fitting(ViewOf(crc, d), latest) && BeforeOption(TimeOf(latest), v.time) && Candidate(d, v.data)
    ensures Accepts(d, v)
  {
  }

  /** After a save that shows, a device shows it or something before it. */
  lemma FitsNew(before: View, latest: Option<Version>, v: Version, kind: Kind)
    requires Fitting(before, latest) && BeforeOption(TimeOf(latest), v.time)
    ensures Fitting(ViewAfter(kind, before, v), Some(v))
  {
  }

  // ----- a save to some of the devices, complete or cut off

  ghost predicate NoMishaps(crc: Checksum, devs: seq<MetaDev>, v: Version, written: set<nat>, first: Fates, second: Fates)
    requires AllFit(devs) && Storables(devs, v, written)
  {
    forall i | 0 <= i < |devs| && i in written :: NoMishap(crc, devs[i], v, first(i), second(i))
  }

  /** One device of the pool after the save. */
  lemma DevAfter(crc: Checksum, devs: seq<MetaDev>, latest: Option<Version>, v: Version,
                 written: set<nat>, first: Fates, second: Fates, i: nat)
    requires AllFit(devs) && i < |devs| && Sane(crc, devs[i]) && Fitting(ViewOf(crc, devs[i]), latest)
    requires Storables(devs, v, written) && BeforeOption(TimeOf(latest), v.time)
    requires NoMishaps(crc, devs, v, written, first, second)
    ensures Leaves(crc, devs[i], v, KindAt(crc, devs, v, written, first, second, i),
                   DiskAt(crc, devs, v, written, first, second, i))
  {
    var d := devs[i];
    if i in written {
      FitAccepts(crc, d, latest, v);
      LeavesAny(crc, d, v, first(i), second(i));
    } else {
      SaneLoads(crc, d);
    }
  }

  /** The latest save that shows, after one that may have been cut off. */
  ghost function LatestAfter(kinds: seq<Kind>, latest: Option<Version>, v: Version): Option<Version> {
    if SaveShows(kinds) then Some(v) else latest
  }

  ghost predicate Becomes(crc: Checksum, d: MetaDev, kind: Kind, v: Version, d': MetaDev)
    requires d.g.Fits(d.store.disk)
  {
    Sane(crc, d') && ViewOf(crc, d') == ViewAfter(kind, ViewOf(crc, d), v)
  }

  lemma DevsFitAfter(crc: Checksum, devs: seq<MetaDev>, latest: Option<Version>, v: Version, kinds: seq<Kind>, found: seq<MetaDev>)
    requires DevsFit(crc, devs, latest) && AllFit(devs) && BeforeOption(TimeOf(latest), v.time)
    requires |kinds| == |devs| == |found| && forall i | 0 <= i < |devs| :: Becomes(crc, devs[i], kinds[i], v, found[i])
    ensures DevsFit(crc, found, LatestAfter(kinds, latest, v))
  {
    var latest' := LatestAfter(kinds, latest, v);
    forall i | 0 <= i < |found| ensures Sane(crc, found[i]) && Fitting(ViewOf(crc, found[i]), latest') {
      assert Becomes(crc, devs[i], kinds[i], v, found[i]) && Fitting(ViewOf(crc, devs[i]), latest);
      FitsNew(ViewOf(crc, devs[i]), latest, v, kinds[i]);
    }
    SomeShows(crc, devs, latest, v, kinds, found);
  }

  lemma SomeShows(crc: Checksum, devs: seq<MetaDev>, latest: Option<Version>, v: Version, kinds: seq<Kind>, found: seq<MetaDev>)
    requires AllFit(devs) && |kinds| == |devs| == |found|
    requires forall i | 0 <= i < |devs| :: Becomes(crc, devs[i], kinds[i], v, found[i])
    requires latest.Some? ==> exists i :: 0 <= i < |devs| && ViewOf(crc, devs[i]).time == Some(latest.value.time)
    ensures var latest' := LatestAfter(kinds, latest, v);
            latest'.Some? ==> exists i :: 0 <= i < |found| && Sane(crc, found[i]) && ViewOf(crc, found[i]).time == Some(latest'.value.time)
  {
    if SaveShows(kinds) {
      var i :| 0 <= i < |kinds| && kinds[i] != KeptOld;
      assert Becomes(crc, devs[i], kinds[i], v, found[i]);
    } else if latest.Some? {
      var i :| 0 <= i < |devs| && ViewOf(crc, devs[i]).time == Some(latest.value.time);
      assert Becomes(crc, devs[i], kinds[i], v, found[i]);
    }
  }

  /** After a save that was cut off, a reload fails or finds devices that fit. */
  lemma ReloadAfterCrash(crc: Checksum, devs: seq<MetaDev>, latest: Option<Version>, v: Version,
                         written: set<nat>, first: Fates, second: Fates)
    requires DevsFit(crc, devs, latest) && AllFit(devs)
    requires Storables(devs, v, written) && BeforeOption(TimeOf(latest), v.time)
    requires NoMishaps(crc, devs, v, written, first, second)
    ensures var found := ReloadAll(crc, Crashed(crc, devs, v, written, first, second));
            found.Some? ==> DevsFit(crc, found.value, LatestAfter(KindsOf(crc, devs, v, written, first, second), latest, v))
  {
    var crashed, kinds := Crashed(crc, devs, v, written, first, second), KindsOf(crc, devs, v, written, first, second);
    if ReloadAll(crc, crashed).Some? {
      ReloadedLoads(crc, crashed);
      ReloadAllIs(crc, crashed);
      var found := ReloadAll(crc, crashed).value;
      forall i | 0 <= i < |devs| ensures Becomes(crc, devs[i], kinds[i], v, found[i]) {
        assert Sane(crc, devs[i]) && Fitting(ViewOf(crc, devs[i]), latest);
        DevAfter(crc, devs, latest, v, written, first, second, i);
        assert found[i] == Reloaded(crc, crashed[i].g, crashed[i].store.disk);
      }
      DevsFitAfter(crc, devs, latest, v, kinds, found);
    }
  }

  lemma {:induction false} ReloadedLoads(crc: Checksum, devs: seq<MetaDev>)
    requires AllFit(devs) && ReloadAll(crc, devs).Some?
    ensures AllLoad(crc, devs)
  {
    if devs != [] {
      ReloadedLoads(crc, devs[1..]);
      forall i | 0 <= i < |devs| ensures Load(crc, devs[i].g, devs[i].store.disk).Loaded? {
        if i > 0 { assert devs[1..][i - 1] == devs[i]; }
      }
    }
  }

  /** A complete save to one device. */
  lemma SavedDevBecomes(crc: Checksum, d: MetaDev, latest: Option<Version>, v: Version)
    requires Sane(crc, d) && Fitting(ViewOf(crc, d), latest) && BeforeOption(TimeOf(latest), v.time)
    requires Candidate(d, v.data) && 0 < |v.data| <= U64_MAX
    ensures Accepts(d, v) && Becomes(crc, d, TookNew, v, SaveDev(crc, d, v))
  {
    FitAccepts(crc, d, latest, v);
    LeavesTornSecond(crc, d, v, Fate.Written);
    NewIsNewer(crc, d.store.headers, v);
    SavedHeaders(crc, d, v);
  }

  lemma SavedHeaders(crc: Checksum, d: MetaDev, v: Version)
    requires Sane(crc, d) && Accepts(d, v) && Storable(d.g, v)
    ensures Load(crc, d.g, CrashedDisk(crc, d, v, Fate.Written, Fate.Written)) == Loaded(SaveDev(crc, d, v).store.headers)
  {
    var g, hs, r := d.g, d.store.headers, Older(d.store.headers);
    var disk := CrashedDisk(crc, d, v, Fate.Written, Fate.Written);
    SaveKeepsOther(crc, d, v, Fate.Written, Fate.Written);
    SavedRegions(crc, g, d.store.disk, hs, v.time, v.data, Fate.Written, Fate.Written);
    WrittenRegion(crc, g, Region(g, d.store.disk, r), v);
    WrittenRegion(crc, g, Region(g, d.store.disk, r + 2), v);
    HdrHolds(crc, g, disk, r, Some(v));
    HdrHolds(crc, g, disk, r + 2, Some(v));
    NewIsNewer(crc, hs, v);
    SlotsOf(crc, d, r);
    SlotWithNew(Hdr(crc, g, d.store.disk, r), Hdr(crc, g, d.store.disk, r + 2), hs[r], g.MaxData(),
                HeaderOf(crc, v), Hdr(crc, g, disk, r + 2));
    SaneAgain(crc, d, disk, r, Some(HeaderOf(crc, v)));
    SaneLoads(crc, MetaDev(g, Store(disk, hs[r := Some(HeaderOf(crc, v))])));
  }

  // ----- runs

  datatype Happening =
    | Saves(now: Time, data: seq<Byte>, chosen: seq<nat>, opens: set<nat>)
    | Crashes(now: Time, data: seq<Byte>, written: set<nat>, first: Fates, second: Fates, order: seq<nat>, readable: set<nat>)
    | Restarts(order: seq<nat>, readable: set<nat>)
    | Joins(g: Geometry, disk: Disk)

  /** The pool with freshly loaded devices: up if metadata can be recovered from them. */
  ghost function Resumed(crc: Checksum, pool: Pool, devs: seq<MetaDev>, order: seq<nat>, readable: set<nat>): Pool
    requires AllFit(devs) && InRange(order, |devs|)
  {
    match GetMetadata(crc, devs, order, readable)
    case Recovered(time, _) => Pool(devs, Some(time), true)
    case _ => Pool(devs, pool.lastUpdate, false)
  }

  ghost predicate Possible(crc: Checksum, pool: Pool, e: Happening)
    requires AllFit(pool.devs)
  {
    match e
    case Saves(now, data, chosen, opens) =>
      pool.up && 0 < |data| <= U64_MAX && Selection(pool.devs, data, chosen) && CanStamp(pool.lastUpdate, now)
    case Crashes(now, data, written, first, second, order, _) =>
      && pool.up && CanStamp(pool.lastUpdate, now) && InRange(order, |pool.devs|)
      && var v := Version(Stamp(pool.lastUpdate, now).value, data);
         Storables(pool.devs, v, written) && NoMishaps(crc, pool.devs, v, written, first, second)
    case Restarts(order, _) => InRange(order, |pool.devs|)
    case Joins(g, disk) => pool.up && g.Fits(disk)
  }

  /** What comes of it; none if one of the devices cannot be loaded any more, which ends the run. */
  ghost function After(crc: Checksum, pool: Pool, e: Happening): Option<Pool>
    requires AllFit(pool.devs) && Possible(crc, pool, e)
  {
    match e
    case Saves(now, data, chosen, opens) => Some(SaveOf(crc, pool, now, data, chosen, opens).pool)
    case Crashes(now, data, written, first, second, order, readable) =>
      var v := Version(Stamp(pool.lastUpdate, now).value, data);
      var found := ReloadAll(crc, Crashed(crc, pool.devs, v, written, first, second));
      if found.None? then None else Some(Resumed(crc, pool, found.value, order, readable))
    case Restarts(order, readable) =>
      var found := ReloadAll(crc, pool.devs);
      if found.None? then None else Some(Resumed(crc, pool, found.value, order, readable))
    case Joins(g, disk) =>
      Some(pool.(devs := pool.devs + [MetaDev(g, Store(InitDisk(crc, g, disk, 4), [None, None]))]))
  }

  /** The latest save that shows: one that succeeded, or one that was cut off and shows nevertheless. */
  ghost function LatestOnce(crc: Checksum, pool: Pool, latest: Option<Version>, e: Happening): Option<Version>
    requires AllFit(pool.devs) && Possible(crc, pool, e)
  {
    match e
    case Saves(now, data, chosen, opens) =>
      (match SaveOf(crc, pool, now, data, chosen, opens).outcome
       case SavedAt(stamp) => Some(Version(stamp, data))
       case _ => latest)
    case Crashes(now, data, written, first, second, _, _) =>
      var v := Version(Stamp(pool.lastUpdate, now).value, data);
      LatestAfter(KindsOf(crc, pool.devs, v, written, first, second), latest, v)
    case _ => latest
  }

  lemma ResumedKeeps(crc: Checksum, pool: Pool, devs: seq<MetaDev>, latest: Option<Version>, order: seq<nat>, readable: set<nat>)
    requires DevsFit(crc, devs, latest) && AllFit(devs) && InRange(order, |devs|)
    ensures LifeInv(crc, Resumed(crc, pool, devs, order, readable), latest)
  {
    RecoveryIsLatest(crc, devs, latest, order, readable);
  }

  ghost function SaveKinds(n: nat, written: set<nat>): (kinds: seq<Kind>)
    ensures |kinds| == n && forall i | 0 <= i < n :: kinds[i] == if i in written then TookNew else KeptOld
  {
    seq(n, i requires 0 <= i < n => if i in written then TookNew else KeptOld)
  }

  lemma SavedDevsFit(crc: Checksum, devs: seq<MetaDev>, latest: Option<Version>, v: Version, written: set<nat>)
    requires DevsFit(crc, devs, latest) && AllFit(devs) && BeforeOption(TimeOf(latest), v.time) && 0 < |v.data| <= U64_MAX
    requires forall i | 0 <= i < |devs| && i in written :: Candidate(devs[i], v.data)
    ensures DevsFit(crc, SavedDevs(crc, devs, v, written), LatestAfter(SaveKinds(|devs|, written), latest, v))
    ensures forall i | 0 <= i < |devs| && i in written :: Accepts(devs[i], v)
  {
    var kinds, saved := SaveKinds(|devs|, written), SavedDevs(crc, devs, v, written);
    forall i | 0 <= i < |devs|
      ensures Becomes(crc, devs[i], kinds[i], v, saved[i])
      ensures i in written ==> Accepts(devs[i], v)
    {
      assert Sane(crc, devs[i]) && Fitting(ViewOf(crc, devs[i]), latest);
      if i in written { SavedDevBecomes(crc, devs[i], latest, v); }
    }
    DevsFitAfter(crc, devs, latest, v, kinds, saved);
  }

  /** What a save makes of the pool and of the latest save. */
  lemma SavesIs(crc: Checksum, pool: Pool, latest: Option<Version>, e: Happening)
    requires AllFit(pool.devs) && e.Saves? && Possible(crc, pool, e)
    ensures var v := Version(Stamp(pool.lastUpdate, e.now).value, e.data);
            var devs := SavedDevs(crc, pool.devs, v, PoolMetadata.Written(e.chosen, e.opens));
            if AnyTakes(pool.devs, v, e.chosen, e.opens)
            then After(crc, pool, e) == Some(pool.(devs := devs, lastUpdate := Some(v.time))) && LatestOnce(crc, pool, latest, e) == Some(v)
            else After(crc, pool, e) == Some(pool.(devs := devs)) && LatestOnce(crc, pool, latest, e) == latest
  {
  }

  lemma SavedAnywhere(crc: Checksum, pool: Pool, latest: Option<Version>, v: Version, devs: seq<MetaDev>, taken: bool)
    requires LifeInv(crc, pool, latest) && pool.up && BeforeOption(pool.lastUpdate, v.time)
    requires DevsFit(crc, devs, if taken then Some(v) else latest)
    ensures var pool' := if taken then pool.(devs := devs, lastUpdate := Some(v.time)) else pool.(devs := devs);
            LifeInv(crc, pool', if taken then Some(v) else latest)
    ensures taken ==> NotLater(TimeOf(latest), Some(v.time))
    ensures NotLater(TimeOf(latest), TimeOf(latest))
  {
  }

  lemma SavesKeep(crc: Checksum, pool: Pool, latest: Option<Version>, e: Happening)
    requires LifeInv(crc, pool, latest) && AllFit(pool.devs) && e.Saves? && Possible(crc, pool, e)
    ensures After(crc, pool, e).Some? && LifeInv(crc, After(crc, pool, e).value, LatestOnce(crc, pool, latest, e))
    ensures NotLater(TimeOf(latest), TimeOf(LatestOnce(crc, pool, latest, e)))
  {
    var v := Version(Stamp(pool.lastUpdate, e.now).value, e.data);
    SavesIs(crc, pool, latest, e);
    SavedDevsFit(crc, pool.devs, latest, v, PoolMetadata.Written(e.chosen, e.opens));
    SaveShowsIff(pool.devs, v, e.chosen, e.opens);
    var devs := SavedDevs(crc, pool.devs, v, PoolMetadata.Written(e.chosen, e.opens));
    SavedAnywhere(crc, pool, latest, v, devs, AnyTakes(pool.devs, v, e.chosen, e.opens));
  }

  lemma SaveShowsIff(devs: seq<MetaDev>, v: Version, chosen: seq<nat>, opens: set<nat>)
    requires forall i | 0 <= i < |devs| && i in PoolMetadata.Written(chosen, opens) :: Accepts(devs[i], v)
    ensures SaveShows(SaveKinds(|devs|, PoolMetadata.Written(chosen, opens))) <==> AnyTakes(devs, v, chosen, opens)
  {
    var written := PoolMetadata.Written(chosen, opens);
    var kinds := SaveKinds(|devs|, written);
    if AnyTakes(devs, v, chosen, opens) {
      var k :| 0 <= k < |chosen| && chosen[k] < |devs| && chosen[k] in opens && Accepts(devs[chosen[k]], v);
      assert kinds[chosen[k]] == TookNew;
    }
    if SaveShows(kinds) {
      var i :| 0 <= i < |kinds| && kinds[i] != KeptOld;
      var k :| 0 <= k < |chosen| && chosen[k] == i;
    }
  }

  lemma CrashesKeep(crc: Checksum, pool: Pool, latest: Option<Version>, e: Happening)
    requires LifeInv(crc, pool, latest) && AllFit(pool.devs) && e.Crashes? && Possible(crc, pool, e) && After(crc, pool, e).Some?
    ensures LifeInv(crc, After(crc, pool, e).value, LatestOnce(crc, pool, latest, e))
    ensures NotLater(TimeOf(latest), TimeOf(LatestOnce(crc, pool, latest, e)))
  {
    var v := Version(Stamp(pool.lastUpdate, e.now).value, e.data);
    ReloadAfterCrash(crc, pool.devs, latest, v, e.written, e.first, e.second);
    var found := ReloadAll(crc, Crashed(crc, pool.devs, v, e.written, e.first, e.second)).value;
    ResumedKeeps(crc, pool, found, LatestOnce(crc, pool, latest, e), e.order, e.readable);
  }

  lemma JoinsKeep(crc: Checksum, pool: Pool, latest: Option<Version>, e: Happening)
    requires LifeInv(crc, pool, latest) && AllFit(pool.devs) && e.Joins? && Possible(crc, pool, e)
    ensures After(crc, pool, e).Some? && LifeInv(crc, After(crc, pool, e).value, latest)
  {
    var d := MetaDev(e.g, Store(InitDisk(crc, e.g, e.disk, 4), [None, None]));
    InitGood(crc, e.g, e.disk);
    GoodIsSane(crc, d, [None, None]);
    GoodReload(crc, e.g, d.store.disk, d.store.headers, [None, None]);
    JoinedFit(crc, pool.devs, latest, d);
  }

  lemma JoinedFit(crc: Checksum, devs: seq<MetaDev>, latest: Option<Version>, d: MetaDev)
    requires DevsFit(crc, devs, latest) && Sane(crc, d) && Fitting(ViewOf(crc, d), latest)
    ensures DevsFit(crc, devs + [d], latest)
  {
    var all := devs + [d];
    forall i | 0 <= i < |all| ensures Sane(crc, all[i]) && Fitting(ViewOf(crc, all[i]), latest) {
      if i < |devs| { assert all[i] == devs[i]; }
    }
    if latest.Some? {
      var i :| 0 <= i < |devs| && ViewOf(crc, devs[i]).time == Some(latest.value.time);
      assert all[i] == devs[i];
    }
  }

  /** Whatever happens, as long as every device can be loaded. */
  lemma HappeningKeeps(crc: Checksum, pool: Pool, latest: Option<Version>, e: Happening)
    requires LifeInv(crc, pool, latest) && AllFit(pool.devs) && Possible(crc, pool, e) && After(crc, pool, e).Some?
    ensures LifeInv(crc, After(crc, pool, e).value, LatestOnce(crc, pool, latest, e))
    ensures NotLater(TimeOf(latest), TimeOf(LatestOnce(crc, pool, latest, e)))
  {
    match e {
      case Saves(_, _, _, _) => SavesKeep(crc, pool, latest, e);
      case Crashes(_, _, _, _, _, _, _) => CrashesKeep(crc, pool, latest, e);
      case Restarts(order, readable) =>
        RecoveryIsLatest(crc, pool.devs, latest, order, readable);
        ResumedKeeps(crc, pool, pool.devs, latest, order, readable);
      case Joins(_, _) => JoinsKeep(crc, pool, latest, e);
    }
  }

  ghost predicate IsLife(crc: Checksum, pools: seq<Pool>, latests: seq<Option<Version>>, events: seq<Happening>) {
    && |pools| == |latests| == |events| + 1
    && Fresh(pools[0], latests[0])
    && forall i | 0 <= i < |events| ::
         && AllFit(pools[i].devs) && Possible(crc, pools[i], events[i])
         && After(crc, pools[i], events[i]) == Some(pools[i + 1])
         && latests[i + 1] == LatestOnce(crc, pools[i], latests[i], events[i])
  }

  lemma {:induction false} LifeKeepsInv(crc: Checksum, pools: seq<Pool>, latests: seq<Option<Version>>, events: seq<Happening>, n: nat)
    requires IsLife(crc, pools, latests, events) && n < |pools|
    ensures LifeInv(crc, pools[n], latests[n])
    decreases n
  {
    if n > 0 {
      LifeKeepsInv(crc, pools, latests, events, n - 1);
      LifeStep(crc, pools, latests, events, n - 1);
    }
  }

  lemma LifeStep(crc: Checksum, pools: seq<Pool>, latests: seq<Option<Version>>, events: seq<Happening>, n: nat)
    requires IsLife(crc, pools, latests, events) && n < |events| && LifeInv(crc, pools[n], latests[n])
    ensures LifeInv(crc, pools[n + 1], latests[n + 1]) && NotLater(TimeOf(latests[n]), TimeOf(latests[n + 1]))
  {
    assert After(crc, pools[n], events[n]) == Some(pools[n + 1]);
    HappeningKeeps(crc, pools[n], latests[n], events[n]);
  }

  /**
   At any point of any run of saves, saves that were cut off, restarts and new devices, recovery gives
   the latest save that shows, whole, or fails because no device that holds it can be read. It never
   gives a mixture and never an older save.
   */
  lemma LifeRecovers(crc: Checksum, pools: seq<Pool>, latests: seq<Option<Version>>, events: seq<Happening>, n: nat,
                     order: seq<nat>, readable: set<nat>)
    requires IsLife(crc, pools, latests, events) && n < |pools| && InRange(order, |pools[n].devs|)
    ensures AllFit(pools[n].devs) && ReloadAll(crc, pools[n].devs) == Some(pools[n].devs)
    ensures GetMetadata(crc, pools[n].devs, order, readable) ==
            if latests[n].None? then NoMetadata
            else if HolderFound(crc, pools[n].devs, latests[n].value.time, latests[n].value.data, order, readable)
            then Recovered(latests[n].value.time, latests[n].value.data)
            else Unreadable
  {
    LifeKeepsInv(crc, pools, latests, events, n);
    SaneFit(crc, pools[n].devs, latests[n]);
    RecoveryIsLatest(crc, pools[n].devs, latests[n], order, readable);
  }

  lemma SavesOnceOpen(crc: Checksum, pool: Pool, latest: Option<Version>, e: Happening)
    requires LifeInv(crc, pool, latest) && AllFit(pool.devs) && e.Saves? && Possible(crc, pool, e)
    ensures var last := LatestOnce(crc, pool, latest, e);
            if AnyOpens(e.chosen, e.opens) then
              last.Some? && last.value.data == e.data && StampedBy(TimeOf(latest), e.now, last.value.time)
            else last == latest
  {
    var v := Version(Stamp(pool.lastUpdate, e.now).value, e.data);
    SavesIs(crc, pool, latest, e);
    forall i | 0 <= i < |pool.devs| && Candidate(pool.devs[i], e.data) ensures Accepts(pool.devs[i], v) {
      assert Sane(crc, pool.devs[i]) && Fitting(ViewOf(crc, pool.devs[i]), latest);
      FitAccepts(crc, pool.devs[i], latest, v);
    }
    TakesIff(pool.devs, v, e.chosen, e.opens);
  }

  /** A save that is not cut off succeeds exactly when some selected device can be opened, whatever was cut off before. */
  lemma LifeSaveSucceedsIff(crc: Checksum, pools: seq<Pool>, latests: seq<Option<Version>>, events: seq<Happening>, n: nat)
    requires IsLife(crc, pools, latests, events) && n < |events| && events[n].Saves?
    ensures var e := events[n];
            if AnyOpens(e.chosen, e.opens) then
              && latests[n + 1].Some? && latests[n + 1].value.data == e.data
              && StampedBy(TimeOf(latests[n]), e.now, latests[n + 1].value.time)
            else latests[n + 1] == latests[n]
  {
    LifeKeepsInv(crc, pools, latests, events, n);
    SavesOnceOpen(crc, pools[n], latests[n], events[n]);
  }

  /** After a restart, and after a save that was cut off, the pool is up exactly when a device with the latest save can be read. */
  lemma LifeUpIff(crc: Checksum, pools: seq<Pool>, latests: seq<Option<Version>>, events: seq<Happening>, n: nat)
    requires IsLife(crc, pools, latests, events) && n < |events| && (events[n].Restarts? || events[n].Crashes?)
    ensures AllFit(pools[n + 1].devs) && InRange(events[n].order, |pools[n + 1].devs|)
    ensures pools[n + 1].up <==>
            var last := latests[n + 1];
            last.Some? && HolderFound(crc, pools[n + 1].devs, last.value.time, last.value.data, events[n].order, events[n].readable)
    ensures pools[n + 1].up ==> pools[n + 1].lastUpdate == TimeOf(latests[n + 1])
  {
    assert After(crc, pools[n], events[n]) == Some(pools[n + 1]);
    LifeRecovers(crc, pools, latests, events, n + 1, events[n].order, events[n].readable);
  }

  /** A device that joins is one more device of the pool, and holds nothing yet. */
  lemma LifeJoins(crc: Checksum, pools: seq<Pool>, latests: seq<Option<Version>>, events: seq<Happening>, n: nat)
    requires IsLife(crc, pools, latests, events) && n < |events| && events[n].Joins?
    ensures var before, after := pools[n].devs, pools[n + 1].devs;
            && |after| == |before| + 1 && before <= after && latests[n + 1] == latests[n]
            && var d := after[|before|];
               && d.g == events[n].g && d.g.Fits(d.store.disk) && LastUpdateTime(d.store.headers) == None
               && Load(crc, d.g, d.store.disk) == Loaded(d.store.headers)
               && LoadState(crc, d.g, d.store.disk, d.store.headers) == NoData
  {
    assert After(crc, pools[n], events[n]) == Some(pools[n + 1]);
    var e := events[n];
    InitGood(crc, e.g, e.disk);
    GoodReload(crc, e.g, InitDisk(crc, e.g, e.disk, 4), [None, None], [None, None]);
  }

  lemma {:induction false} NotLaterChain(times: seq<Option<Time>>, m: nat, n: nat)
    requires m <= n < |times| && forall i | m <= i < n :: NotLater(times[i], times[i + 1])
    ensures NotLater(times[m], times[n])
    decreases n
  {
    if m < n {
      NotLaterChain(times, m, n - 1);
      NotLaterTrans(times[m], times[n - 1], times[n - 1 + 1]);
    }
  }

  ghost function Times(latests: seq<Option<Version>>): (ts: seq<Option<Time>>)
    ensures |ts| == |latests| && forall i | 0 <= i < |ts| :: ts[i] == TimeOf(latests[i])
  {
    seq(|latests|, i requires 0 <= i < |latests| => TimeOf(latests[i]))
  }

  /** The latest save that shows is never replaced by an earlier one. */
  lemma LifeNeverGoesBack(crc: Checksum, pools: seq<Pool>, latests: seq<Option<Version>>, events: seq<Happening>, m: nat, n: nat)
    requires IsLife(crc, pools, latests, events) && m <= n < |pools|
    ensures NotLater(TimeOf(latests[m]), TimeOf(latests[n]))
  {
    var times := Times(latests);
    forall i | m <= i < n ensures NotLater(times[i], times[i + 1]) {
      LifeKeepsInv(crc, pools, latests, events, i);
      LifeStep(crc, pools, latests, events, i);
    }
    NotLaterChain(times, m, n);
  }

  // ----- a save that fails half way while the process goes on

  /**
   After a save of `v` that failed on the devices in `torn`, with nothing in memory changed, a save of `w` goes
   completely to the devices in `written`.
   */
  ghost function FailedThenSaved(crc: Checksum, devs: seq<MetaDev>, v: Version, torn: set<nat>, first: Fates, second: Fates,
                                 w: Version, written: set<nat>): (r: seq<MetaDev>)
    requires AllFit(devs) && Storables(devs, v, torn) && 0 < |w.data| <= U64_MAX
    ensures |r| == |devs|
  {
    SavedDevs(crc, Crashed(crc, devs, v, torn, first, second), w, written)
  }

  ghost function KindsBut(kinds: seq<Kind>, written: set<nat>): (r: seq<Kind>)
    ensures |r| == |kinds| && forall i | 0 <= i < |kinds| :: r[i] == if i in written then KeptOld else kinds[i]
  {
    seq(|kinds|, i requires 0 <= i < |kinds| => if i in written then KeptOld else kinds[i])
  }

  /** A complete save over whatever was left in the older region. */
  lemma SavedOver(crc: Checksum, d: MetaDev, disk: Disk, w: Version)
    requires Sane(crc, d) && Accepts(d, w) && Storable(d.g, w) && d.g.Fits(disk)
    requires Kept(d.g, d.store.disk, disk, Newer(d.store.headers))
    ensures var d' := SaveDev(crc, d.(store := d.store.(disk := disk)), w);
            Sane(crc, d') && ViewOf(crc, d') == View(Some(w.time), Data(w.data))
  {
    var g, hs, r := d.g, d.store.headers, Older(d.store.headers);
    var disk' := SavedDisk(crc, g, disk, hs, w.time, w.data, Fate.Written, Fate.Written);
    SavedRegions(crc, g, disk, hs, w.time, w.data, Fate.Written, Fate.Written);
    WrittenRegion(crc, g, Region(g, disk, r), w);
    WrittenRegion(crc, g, Region(g, disk, r + 2), w);
    HdrHolds(crc, g, disk', r, Some(w));
    HdrHolds(crc, g, disk', r + 2, Some(w));
    NewIsNewer(crc, hs, w);
    SaneAgain(crc, d, disk', r, Some(HeaderOf(crc, w)));
    CopyData(crc, g, disk', r, w);
  }

  /** The device shows `w` if it was written, otherwise what the failed save left. */
  ghost predicate EndsAs(crc: Checksum, d: MetaDev, kind: Kind, v: Version, w: Version, saved: bool, found: MetaDev)
    requires d.g.Fits(d.store.disk)
  {
    && Sane(crc, found)
    && ViewOf(crc, found) == if saved then View(Some(w.time), Data(w.data)) else ViewAfter(kind, ViewOf(crc, d), v)
  }

  lemma EndOf(crc: Checksum, devs: seq<MetaDev>, latest: Option<Version>, v: Version, torn: set<nat>, first: Fates, second: Fates,
              w: Version, written: set<nat>, i: nat)
    requires DevsFit(crc, devs, latest) && AllFit(devs) && i < |devs|
    requires Storables(devs, v, torn) && Storables(devs, w, written) && 0 < |w.data| <= U64_MAX
    requires NoMishaps(crc, devs, v, torn, first, second)
    requires BeforeOption(TimeOf(latest), v.time) && BeforeOption(TimeOf(latest), w.time)
    ensures var d' := FailedThenSaved(crc, devs, v, torn, first, second, w, written)[i];
            && d'.g.Fits(d'.store.disk)
            && (Load(crc, d'.g, d'.store.disk).Loaded? ==>
                  EndsAs(crc, devs[i], KindAt(crc, devs, v, torn, first, second, i), v, w, i in written,
                         Reloaded(crc, d'.g, d'.store.disk)))
  {
    var d := devs[i];
    assert Sane(crc, d) && Fitting(ViewOf(crc, d), latest);
    DevAfter(crc, devs, latest, v, torn, first, second, i);
    if i in written {
      FitAccepts(crc, d, latest, w);
      DiskKeeps(crc, devs, v, torn, first, second, i);
      SavedOver(crc, d, DiskAt(crc, devs, v, torn, first, second, i), w);
      SaneLoads(crc, FailedThenSaved(crc, devs, v, torn, first, second, w, written)[i]);
    }
  }

  lemma DiskKeeps(crc: Checksum, devs: seq<MetaDev>, v: Version, torn: set<nat>, first: Fates, second: Fates, i: nat)
    requires AllFit(devs) && Storables(devs, v, torn) && i < |devs|
    ensures Kept(devs[i].g, devs[i].store.disk, DiskAt(crc, devs, v, torn, first, second, i), Newer(devs[i].store.headers))
  {
    if i in torn { SaveKeepsOther(crc, devs[i], v, first(i), second(i)); }
  }

  /** The save that the devices show in the end: the one with the later time, if the failed one shows at all. */
  ghost function LatestOfTwo(kinds: seq<Kind>, v: Version, w: Version): Version {
    if SaveShows(kinds) && Before(w.time, v.time) then v else w
  }

  lemma TwoFit(crc: Checksum, devs: seq<MetaDev>, latest: Option<Version>, kinds: seq<Kind>, v: Version, w: Version,
               written: set<nat>, found: seq<MetaDev>, hit: nat)
    requires DevsFit(crc, devs, latest) && AllFit(devs) && |kinds| == |devs| == |found|
    requires BeforeOption(TimeOf(latest), v.time) && BeforeOption(TimeOf(latest), w.time) && v.time != w.time
    requires forall i | 0 <= i < |devs| :: EndsAs(crc, devs[i], kinds[i], v, w, i in written, found[i])
    requires hit < |devs| && hit in written
    ensures DevsFit(crc, found, Some(LatestOfTwo(KindsBut(kinds, written), v, w)))
  {
    var kinds' := KindsBut(kinds, written);
    var top := LatestOfTwo(kinds', v, w);
    forall i | 0 <= i < |found| ensures Sane(crc, found[i]) && Fitting(ViewOf(crc, found[i]), Some(top)) {
      assert EndsAs(crc, devs[i], kinds[i], v, w, i in written, found[i]) && Fitting(ViewOf(crc, devs[i]), latest);
      FitsTop(ViewOf(crc, devs[i]), latest, v, w, kinds[i], i in written, SaveShows(kinds'), top);
    }
    var i := ShowsTop(crc, devs, kinds, v, w, written, found, hit);
  }

  /** Some device shows it. */
  lemma ShowsTop(crc: Checksum, devs: seq<MetaDev>, kinds: seq<Kind>, v: Version, w: Version,
                 written: set<nat>, found: seq<MetaDev>, hit: nat) returns (i: nat)
    requires AllFit(devs) && |kinds| == |devs| == |found|
    requires forall i | 0 <= i < |devs| :: EndsAs(crc, devs[i], kinds[i], v, w, i in written, found[i])
    requires hit < |devs| && hit in written
    ensures i < |found| && Sane(crc, found[i])
    ensures ViewOf(crc, found[i]).time == Some(LatestOfTwo(KindsBut(kinds, written), v, w).time)
  {
    var kinds' := KindsBut(kinds, written);
    if SaveShows(kinds') && Before(w.time, v.time) {
      i :| 0 <= i < |kinds'| && kinds'[i] != KeptOld;
    } else {
      i := hit;
    }
    assert EndsAs(crc, devs[i], kinds[i], v, w, i in written, found[i]);
  }

  lemma FitsTop(before: View, latest: Option<Version>, v: Version, w: Version, kind: Kind, saved: bool, shows: bool, top: Version)
    requires Fitting(before, latest) && BeforeOption(TimeOf(latest), v.time) && BeforeOption(TimeOf(latest), w.time) && v.time != w.time
    requires top == if shows && Before(w.time, v.time) then v else w
    requires !saved && kind != KeptOld ==> shows
    ensures Fitting(if saved then View(Some(w.time), Data(w.data)) else ViewAfter(kind, before, v), Some(top))
  {
  }

  lemma {:induction false} ScanGives(crc: Checksum, devs: seq<MetaDev>, time: Time, order: seq<nat>, readable: set<nat>)
    requires AllFit(devs) && InRange(order, |devs|)
    ensures var m := FirstReadable(crc, devs, time, order, readable);
            m == Unreadable || (m.Recovered? && m.time == time && exists i :: 0 <= i < |devs| && Holds(crc, devs[i], time, m.data))
    decreases |order|
  {
    if order != [] { ScanGives(crc, devs, time, order[1..], readable); }
  }

  lemma TopTime(devs: seq<MetaDev>, time: Time, hit: nat)
    requires hit < |devs| && LastUpdateTime(devs[hit].store.headers) == Some(time)
    requires forall i | 0 <= i < |devs| :: NotLater(LastUpdateTime(devs[i].store.headers), Some(time))
    ensures MostRecent(devs) == Some(time)
  {
    MostRecentBounds(devs, hit);
    var j := MostRecentAttained(devs);
  }

  /** If the two saves have the same time, it depends on the order of the devices which of them is found. */
  lemma TwoTied(crc: Checksum, devs: seq<MetaDev>, latest: Option<Version>, kinds: seq<Kind>, v: Version, w: Version,
                written: set<nat>, found: seq<MetaDev>, hit: nat, order: seq<nat>, readable: set<nat>)
    requires DevsFit(crc, devs, latest) && AllFit(devs) && AllFit(found) && |kinds| == |devs| == |found|
    requires BeforeOption(TimeOf(latest), w.time) && v.time == w.time && InRange(order, |found|)
    requires forall i | 0 <= i < |devs| :: EndsAs(crc, devs[i], kinds[i], v, w, i in written, found[i])
    requires hit < |devs| && hit in written
    ensures var m := GetMetadata(crc, found, order, readable);
            m == Unreadable || m == Recovered(w.time, w.data) || m == Recovered(w.time, v.data)
  {
    forall i | 0 <= i < |found|
      ensures NotLater(LastUpdateTime(found[i].store.headers), Some(w.time))
      ensures forall data | Holds(crc, found[i], w.time, data) :: data == w.data || data == v.data
    {
      assert EndsAs(crc, devs[i], kinds[i], v, w, i in written, found[i]) && Fitting(ViewOf(crc, devs[i]), latest);
      TiedView(ViewOf(crc, devs[i]), latest, v, w, kinds[i], i in written);
    }
    assert EndsAs(crc, devs[hit], kinds[hit], v, w, hit in written, found[hit]);
    TopTime(found, w.time, hit);
    ScanGives(crc, found, w.time, order, readable);
  }

  lemma TiedView(before: View, latest: Option<Version>, v: Version, w: Version, kind: Kind, saved: bool)
    requires Fitting(before, latest) && BeforeOption(TimeOf(latest), w.time) && v.time == w.time
    ensures var view := if saved then View(Some(w.time), Data(w.data)) else ViewAfter(kind, before, v);
            && NotLater(view.time, Some(w.time))
            && (view.time == Some(w.time) && view.read.Data? ==> view.read.bytes == w.data || view.read.bytes == v.data)
  {
  }

  /**
   A save of `v` fails half way on some devices, the process goes on, and a save of `w` succeeds. Recovery then gives
   the one of the two with the later time, if the first shows on any device that the second did not overwrite.
   When the clock went back in between, that is the save that failed, and the one that succeeded is lost.
   If their times are equal, either may be given.
   */
  lemma FailedSaveWins(crc: Checksum, devs: seq<MetaDev>, latest: Option<Version>, v: Version, torn: set<nat>, first: Fates, second: Fates,
                       w: Version, written: set<nat>, hit: nat, order: seq<nat>, readable: set<nat>)
    requires DevsFit(crc, devs, latest) && AllFit(devs) && InRange(order, |devs|)
    requires Storables(devs, v, torn) && Storables(devs, w, written) && 0 < |w.data| <= U64_MAX
    requires NoMishaps(crc, devs, v, torn, first, second)
    requires BeforeOption(TimeOf(latest), v.time) && BeforeOption(TimeOf(latest), w.time)
    requires hit < |devs| && hit in written
    ensures var after := FailedThenSaved(crc, devs, v, torn, first, second, w, written);
            var kinds := KindsBut(KindsOf(crc, devs, v, torn, first, second), written);
            && AllFit(after)
            && (ReloadAll(crc, after).Some? ==>
                  var found, top := ReloadAll(crc, after).value, LatestOfTwo(kinds, v, w);
                  var m := GetMetadata(crc, found, order, readable);
                  if v.time != w.time
                  then m == if HolderFound(crc, found, top.time, top.data, order, readable) then Recovered(top.time, top.data) else Unreadable
                  else m == Unreadable || m == Recovered(w.time, w.data) || m == Recovered(w.time, v.data))
  {
    var after := FailedThenSaved(crc, devs, v, torn, first, second, w, written);
    var kinds := KindsOf(crc, devs, v, torn, first, second);
    forall i | 0 <= i < |devs| ensures after[i].g.Fits(after[i].store.disk) {
      EndOf(crc, devs, latest, v, torn, first, second, w, written, i);
    }
    if ReloadAll(crc, after).Some? {
      ReloadedLoads(crc, after);
      ReloadAllIs(crc, after);
      var found := ReloadAll(crc, after).value;
      forall i | 0 <= i < |devs| ensures EndsAs(crc, devs[i], kinds[i], v, w, i in written, found[i]) {
        EndOf(crc, devs, latest, v, torn, first, second, w, written, i);
        assert found[i] == Reloaded(crc, after[i].g, after[i].store.disk);
      }
      if v.time != w.time {
        TwoFit(crc, devs, latest, kinds, v, w, written, found, hit);
        RecoveryIsLatest(crc, found, Some(LatestOfTwo(KindsBut(kinds, written), v, w)), order, readable);
      } else {
        TwoTied(crc, devs, latest, kinds, v, w, written, found, hit, order, readable);
      }
    }
  }
}
