/** What can be read back from the metadata regions after any run of saves, and after one is cut off. */
module MdaRuns {
  import opened Prelude
  import opened Sizes
  import opened Mda

  /** One save: its time and its data. */
  datatype Version = Version(time: Time, data: seq<Byte>)

  /** The versions held by the two primary regions. */
  type Slots = vs: seq<Option<Version>> | |vs| == 2 witness [None, None]

  ghost predicate Storable(g: Geometry, v: Version) {
    0 < |v.data| <= g.MaxData() && |v.data| <= U64_MAX
  }

  function HeaderOf(crc: Checksum, v: Version): Header
    requires |v.data| <= U64_MAX
  {
    Header(v.time, |v.data|, crc(v.data))
  }

  /** The bytes of copy `i` of a region. */
  ghost function Region(g: Geometry, disk: Disk, i: nat): (rg: seq<Byte>)
    requires g.Fits(disk) && i < 4
    ensures |rg| == g.regionSize >= 32
  {
    RegionInDisk(g, disk, i);
    Read(disk, g.At(i), g.regionSize)
  }

  /** A complete copy: header and data of `v`, or the header of nothing. */
  ghost predicate RegionHolds(crc: Checksum, g: Geometry, rg: seq<Byte>, v: Option<Version>)
    requires |rg| == g.regionSize >= 32
  {
    match v
    case None => FromBuf(crc, rg[..32]) == Empty
    case Some(v) =>
      && Storable(g, v)
      && rg[..32] == HeaderBytes(crc, HeaderOf(crc, v))
      && rg[32..32 + |v.data|] == v.data
  }

  ghost predicate CopyHolds(crc: Checksum, g: Geometry, disk: Disk, i: nat, v: Option<Version>)
    requires g.Fits(disk) && i < 4
  {
    RegionHolds(crc, g, Region(g, disk, i), v)
  }

  ghost predicate HeaderMatches(crc: Checksum, h: Option<Header>, v: Option<Version>) {
    match v
    case None => h == None
    case Some(v) => |v.data| <= U64_MAX && h == Some(HeaderOf(crc, v))
  }

  ghost predicate SlotHolds(crc: Checksum, g: Geometry, disk: Disk, i: nat, h: Option<Header>, v: Option<Version>)
    requires g.Fits(disk) && i < 2
  {
    && HeaderMatches(crc, h, v)
    && CopyHolds(crc, g, disk, i, v)
    && CopyHolds(crc, g, disk, i + 2, v)
  }

  /** Memory and both copies on the device agree on what each region holds, and no two times are equal. */
  ghost predicate Good(crc: Checksum, g: Geometry, disk: Disk, hs: Headers, vs: Slots) {
    && g.Fits(disk)
    && SlotHolds(crc, g, disk, 0, hs[0], vs[0])
    && SlotHolds(crc, g, disk, 1, hs[1], vs[1])
    && (vs[0].Some? && vs[1].Some? ==> vs[0].value.time != vs[1].value.time)
  }

  /** What the regions are meant to give back. */
  ghost function Latest(hs: Headers, vs: Slots): Option<Version> {
    vs[Newer(hs)]
  }

  function AsRead(v: Option<Version>): StateRead {
    if v.None? then NoData else Data(v.value.data)
  }

  function TimeOf(v: Option<Version>): Option<Time> {
    if v.None? then None else Some(v.value.time)
  }

  // ----- reading

  lemma HeaderInRegion(crc: Checksum, g: Geometry, disk: Disk, i: nat)
    requires g.Fits(disk) && i < 4
    ensures LoadRegionHeader(crc, g, disk, i) == FromBuf(crc, Region(g, disk, i)[..32])
  {
    RegionInDisk(g, disk, i);
    assert Region(g, disk, i)[..32] == Read(disk, g.At(i), 32);
  }

  lemma DataInRegion(crc: Checksum, g: Geometry, disk: Disk, h: Header, i: nat)
    requires g.Fits(disk) && i < 4 && h.used <= g.MaxData()
    ensures LoadRegionData(crc, g, disk, h, i) ==
            var bs := Region(g, disk, i)[32..32 + h.used]; if h.dataCrc == crc(bs) then Data(bs) else DataError
  {
    RegionInDisk(g, disk, i);
    SubSlice(disk, g.At(i), g.regionSize, 32, h.used);
  }

  lemma SubSlice<T>(s: seq<T>, a: nat, n: nat, b: nat, m: nat)
    requires a + n <= |s| && b + m <= n
    ensures s[a..a + n][b..b + m] == s[a + b..a + b + m]
  {
    var l, r := s[a..a + n][b..b + m], s[a + b..a + b + m];
    assert forall i | 0 <= i < m :: l[i] == r[i];
  }

  lemma CopyHeader(crc: Checksum, g: Geometry, disk: Disk, i: nat, v: Option<Version>)
    requires g.Fits(disk) && i < 4 && CopyHolds(crc, g, disk, i, v)
    ensures LoadRegionHeader(crc, g, disk, i) == if v.None? then Empty else Found(HeaderOf(crc, v.value))
  {
    HeaderInRegion(crc, g, disk, i);
    if v.Some? { HeaderRoundTrip(crc, HeaderOf(crc, v.value)); }
  }

  lemma CopyData(crc: Checksum, g: Geometry, disk: Disk, i: nat, v: Version)
    requires g.Fits(disk) && i < 4 && CopyHolds(crc, g, disk, i, Some(v))
    ensures LoadRegionData(crc, g, disk, HeaderOf(crc, v), i) == Data(v.data)
  {
    DataInRegion(crc, g, disk, HeaderOf(crc, v), i);
  }

  lemma GoodLoad(crc: Checksum, g: Geometry, disk: Disk, hs: Headers, vs: Slots)
    requires Good(crc, g, disk, hs, vs)
    ensures Load(crc, g, disk) == Loaded(hs)
  {
    CopyHeader(crc, g, disk, 0, vs[0]);
    CopyHeader(crc, g, disk, 1, vs[1]);
    assert hs == [hs[0], hs[1]];
  }

  lemma GoodRead(crc: Checksum, g: Geometry, disk: Disk, hs: Headers, vs: Slots)
    requires g.Fits(disk)
    requires var n := Newer(hs); HeaderMatches(crc, hs[n], vs[n]) && CopyHolds(crc, g, disk, n, vs[n])
    ensures LoadState(crc, g, disk, hs) == AsRead(Latest(hs, vs))
    ensures LastUpdateTime(hs) == TimeOf(Latest(hs, vs))
  {
    var n := Newer(hs);
    if vs[n].Some? { CopyData(crc, g, disk, n, vs[n].value); }
  }

  /** Loading gives the headers that were in memory, and reading gives the latest version. */
  lemma GoodReload(crc: Checksum, g: Geometry, disk: Disk, hs: Headers, vs: Slots)
    requires Good(crc, g, disk, hs, vs)
    ensures Load(crc, g, disk) == Loaded(hs)
    ensures LoadState(crc, g, disk, hs) == AsRead(Latest(hs, vs))
    ensures LastUpdateTime(hs) == TimeOf(Latest(hs, vs))
  {
    GoodLoad(crc, g, disk, hs, vs);
    GoodRead(crc, g, disk, hs, vs);
  }

  // ----- writing

  /** Writing one copy of a region leaves every other copy as it is. */
  lemma OtherRegions(g: Geometry, disk: Disk, i: nat, bs: seq<Byte>, fate: Fate, j: nat)
    requires g.Fits(disk) && i < 4 && j < 4 && i != j && |bs| <= g.regionSize && g.At(i) + |bs| <= |disk|
    ensures Region(g, WriteAt(disk, g.At(i), bs, fate), j) == Region(g, disk, j)
  {
    RegionInDisk(g, disk, j);
    if i < j { RegionsApart(g, i, j); } else { RegionsApart(g, j, i); }
    ReadElsewhere(disk, g.At(i), bs, fate, g.At(j), g.regionSize);
  }

  /** The bytes of a region under a write at its start. */
  lemma ThisRegion(g: Geometry, disk: Disk, i: nat, bs: seq<Byte>, fate: Fate)
    requires g.Fits(disk) && i < 4 && |bs| <= g.regionSize && g.At(i) + |bs| <= |disk|
    ensures Region(g, WriteAt(disk, g.At(i), bs, fate), i) == WriteAt(Region(g, disk, i), 0, bs, fate)
  {
    RegionInDisk(g, disk, i);
  }

  lemma WrittenRegion(crc: Checksum, g: Geometry, rg: seq<Byte>, v: Version)
    requires |rg| == g.regionSize >= 32 && Storable(g, v)
    ensures RegionHolds(crc, g, WriteAt(rg, 0, RegionBytes(crc, v.time, v.data), Written), Some(v))
  {
  }

  /** The region that was written becomes the newer one. */
  lemma SavedIsNewer(crc: Checksum, hs: Headers, v: Version)
    requires |v.data| <= U64_MAX && BeforeOption(LastUpdateTime(hs), v.time)
    ensures Newer(hs[Older(hs) := Some(HeaderOf(crc, v))]) == Older(hs)
  {
  }

  /** What a save does to the four copies. */
  lemma SavedRegions(crc: Checksum, g: Geometry, disk: Disk, hs: Headers, time: Time, data: seq<Byte>, first: Fate, second: Fate)
    requires g.Fits(disk) && |data| <= g.MaxData()
    ensures var r, bs := Older(hs), RegionBytes(crc, time, data);
            var d := SavedDisk(crc, g, disk, hs, time, data, first, second);
            && Region(g, d, r) == WriteAt(Region(g, disk, r), 0, bs, first)
            && Region(g, d, r + 2) ==
                 (if first.Torn? then Region(g, disk, r + 2) else WriteAt(Region(g, disk, r + 2), 0, bs, second))
            && Region(g, d, 1 - r) == Region(g, disk, 1 - r)
            && Region(g, d, 3 - r) == Region(g, disk, 3 - r)
  {
    var r, bs := Older(hs), RegionBytes(crc, time, data);
    RegionInDisk(g, disk, r);
    RegionInDisk(g, disk, r + 2);
    var d1 := WriteAt(disk, g.At(r), bs, first);
    ThisRegion(g, disk, r, bs, first);
    OtherRegions(g, disk, r, bs, first, r + 2);
    OtherRegions(g, disk, r, bs, first, 1 - r);
    OtherRegions(g, disk, r, bs, first, 3 - r);
    ThisRegion(g, d1, r + 2, bs, second);
    OtherRegions(g, d1, r + 2, bs, second, r);
    OtherRegions(g, d1, r + 2, bs, second, 1 - r);
    OtherRegions(g, d1, r + 2, bs, second, 3 - r);
  }

  /** A save, complete or not, leaves the other slot alone. */
  lemma OtherSlotKept(crc: Checksum, g: Geometry, disk: Disk, hs: Headers, vs: Slots, time: Time, data: seq<Byte>,
                      first: Fate, second: Fate)
    requires Good(crc, g, disk, hs, vs) && |data| <= g.MaxData()
    ensures var n, d := 1 - Older(hs), SavedDisk(crc, g, disk, hs, time, data, first, second);
            g.Fits(d) && SlotHolds(crc, g, d, n, hs[n], vs[n])
  {
    SavedRegions(crc, g, disk, hs, time, data, first, second);
    assert SlotHolds(crc, g, disk, 1 - Older(hs), hs[1 - Older(hs)], vs[1 - Older(hs)]);
  }

  lemma OwnSlotWritten(crc: Checksum, g: Geometry, disk: Disk, hs: Headers, v: Version)
    requires g.Fits(disk) && Storable(g, v)
    ensures var r, d := Older(hs), SavedDisk(crc, g, disk, hs, v.time, v.data, Written, Written);
            g.Fits(d) && SlotHolds(crc, g, d, r, Some(HeaderOf(crc, v)), Some(v))
  {
    var r := Older(hs);
    SavedRegions(crc, g, disk, hs, v.time, v.data, Written, Written);
    WrittenRegion(crc, g, Region(g, disk, r), v);
    WrittenRegion(crc, g, Region(g, disk, r + 2), v);
  }

  lemma Assembled(crc: Checksum, g: Geometry, disk: Disk, hs: Headers, vs: Slots, r: nat, h: Header, v: Version)
    requires g.Fits(disk) && r < 2
    requires SlotHolds(crc, g, disk, r, Some(h), Some(v)) && SlotHolds(crc, g, disk, 1 - r, hs[1 - r], vs[1 - r])
    requires vs[1 - r].Some? ==> v.time != vs[1 - r].value.time
    ensures Good(crc, g, disk, hs[r := Some(h)], vs[r := Some(v)])
  {
    if r == 0 {
      assert SlotHolds(crc, g, disk, 1, hs[r := Some(h)][1], vs[r := Some(v)][1]);
    } else {
      assert SlotHolds(crc, g, disk, 0, hs[r := Some(h)][0], vs[r := Some(v)][0]);
    }
  }

  lemma NewTime(crc: Checksum, g: Geometry, disk: Disk, hs: Headers, vs: Slots, v: Version)
    requires Good(crc, g, disk, hs, vs) && Acceptable(g, hs, v.time, v.data)
    ensures var n := 1 - Older(hs); vs[n].Some? ==> v.time != vs[n].value.time
  {
  }

  /** An acceptable save that completes: the new version replaces the older one and is the latest. */
  lemma SaveKeepsGood(crc: Checksum, g: Geometry, disk: Disk, hs: Headers, vs: Slots, v: Version)
    requires Good(crc, g, disk, hs, vs) && Acceptable(g, hs, v.time, v.data) && Storable(g, v)
    ensures var r := Older(hs);
            var hs' := hs[r := Some(HeaderOf(crc, v))];
            && Good(crc, g, SavedDisk(crc, g, disk, hs, v.time, v.data, Written, Written), hs', vs[r := Some(v)])
            && Latest(hs', vs[r := Some(v)]) == Some(v)
  {
    var r := Older(hs);
    SavedIsNewer(crc, hs, v);
    OwnSlotWritten(crc, g, disk, hs, v);
    OtherSlotKept(crc, g, disk, hs, vs, v.time, v.data, Written, Written);
    NewTime(crc, g, disk, hs, vs, v);
    Assembled(crc, g, SavedDisk(crc, g, disk, hs, v.time, v.data, Written, Written), hs, vs, r, HeaderOf(crc, v), v);
  }

  /** In a state of a run there is no tie, so the older region is the documented one. */
  lemma NoTieInRuns(crc: Checksum, g: Geometry, disk: Disk, hs: Headers, vs: Slots)
    requires Good(crc, g, disk, hs, vs)
    ensures !Tied(hs) && Older(hs) == OlderAsDocumented(hs) && Newer(hs) == 1 - OlderAsDocumented(hs)
  {
    OlderDocumentedIff(hs);
  }

  // ----- runs

  /** The device after the empty header has been written to every region. */
  function InitDisk(crc: Checksum, g: Geometry, disk: Disk, regions: nat): (d: Disk)
    requires g.Fits(disk) && regions <= 4
    ensures g.Fits(d)
  {
    if regions == 0 then disk
    else
      var d := InitDisk(crc, g, disk, regions - 1);
      RegionInDisk(g, d, regions - 1);
      WriteAt(d, g.At(regions - 1), HeaderBytes(crc, DEFAULT_HEADER), Written)
  }

  lemma {:induction false} InitRegions(crc: Checksum, g: Geometry, disk: Disk, regions: nat, i: nat)
    requires g.Fits(disk) && regions <= 4 && i < regions
    ensures CopyHolds(crc, g, InitDisk(crc, g, disk, regions), i, None)
  {
    var d, hdr := InitDisk(crc, g, disk, regions - 1), HeaderBytes(crc, DEFAULT_HEADER);
    RegionInDisk(g, d, regions - 1);
    if i == regions - 1 {
      HeaderRoundTrip(crc, DEFAULT_HEADER);
      ThisRegion(g, d, i, hdr, Written);
      assert WriteAt(Region(g, d, i), 0, hdr, Written)[..32] == hdr;
    } else {
      InitRegions(crc, g, disk, regions - 1, i);
      OtherRegions(g, d, regions - 1, hdr, Written, i);
    }
  }

  lemma InitGood(crc: Checksum, g: Geometry, disk: Disk)
    requires g.Fits(disk)
    ensures Good(crc, g, InitDisk(crc, g, disk, 4), [None, None], [None, None])
  {
    InitRegions(crc, g, disk, 4, 0);
    InitRegions(crc, g, disk, 4, 1);
    InitRegions(crc, g, disk, 4, 2);
    InitRegions(crc, g, disk, 4, 3);
  }

  /** A device and the regions struct in memory. */
  datatype Store = Store(disk: Disk, headers: Headers)

  /** A save that is accepted takes full effect; one that is rejected has none. */
  function SaveStep(crc: Checksum, g: Geometry, st: Store, v: Version): Store
    requires g.Fits(st.disk) && |v.data| <= U64_MAX
  {
    if Acceptable(g, st.headers, v.time, v.data)
    then Store(SavedDisk(crc, g, st.disk, st.headers, v.time, v.data, Written, Written),
               st.headers[Older(st.headers) := Some(HeaderOf(crc, v))])
    else st
  }

  function SaveAll(crc: Checksum, g: Geometry, st: Store, saves: seq<Version>): (st': Store)
    requires g.Fits(st.disk) && forall v | v in saves :: |v.data| <= U64_MAX
    ensures g.Fits(st'.disk)
  {
    if saves == [] then st
    else SaveStep(crc, g, SaveAll(crc, g, st, saves[..|saves| - 1]), saves[|saves| - 1])
  }

  /** What a run of saves ought to leave: the last one that is newer than its accepted predecessors and fits. */
  function LastAccepted(g: Geometry, saves: seq<Version>): Option<Version> {
    if saves == [] then None
    else
      var before, v := LastAccepted(g, saves[..|saves| - 1]), saves[|saves| - 1];
      if BeforeOption(TimeOf(before), v.time) && |v.data| <= g.MaxData() then Some(v) else before
  }

  lemma {:induction false} RunIsGood(crc: Checksum, g: Geometry, disk: Disk, saves: seq<Version>) returns (vs: Slots)
    requires g.Fits(disk) && forall v | v in saves :: 0 < |v.data| <= U64_MAX
    ensures var st := SaveAll(crc, g, Store(InitDisk(crc, g, disk, 4), [None, None]), saves);
            Good(crc, g, st.disk, st.headers, vs) && Latest(st.headers, vs) == LastAccepted(g, saves)
  {
    var st0 := Store(InitDisk(crc, g, disk, 4), [None, None]);
    if saves == [] {
      InitGood(crc, g, disk);
      vs := [None, None];
    } else {
      var init, v := saves[..|saves| - 1], saves[|saves| - 1];
      assert v in saves;
      var before := RunIsGood(crc, g, disk, init);
      var st := SaveAll(crc, g, st0, init);
      GoodReload(crc, g, st.disk, st.headers, before);
      if Acceptable(g, st.headers, v.time, v.data) {
        SaveKeepsGood(crc, g, st.disk, st.headers, before, v);
        vs := before[Older(st.headers) := Some(v)];
      } else {
        vs := before;
      }
    }
  }

  /**
   After any run of saves of non-empty data from an initialized device, loading the regions
   from the bytes of the device and reading them gives the last accepted version.
   */
  lemma ReloadAfterRun(crc: Checksum, g: Geometry, disk: Disk, saves: seq<Version>)
    requires g.Fits(disk) && forall v | v in saves :: 0 < |v.data| <= U64_MAX
    ensures var st := SaveAll(crc, g, Store(InitDisk(crc, g, disk, 4), [None, None]), saves);
            && Load(crc, g, st.disk) == Loaded(st.headers)
            && LoadState(crc, g, st.disk, st.headers) == AsRead(LastAccepted(g, saves))
            && LastUpdateTime(st.headers) == TimeOf(LastAccepted(g, saves))
  {
    var vs := RunIsGood(crc, g, disk, saves);
    var st := SaveAll(crc, g, Store(InitDisk(crc, g, disk, 4), [None, None]), saves);
    GoodReload(crc, g, st.disk, st.headers, vs);
  }

  /**
   Saving no data at all is accepted but does not survive: the header that says so reads back as
   nothing written, and a reload finds the version that was the latest before.
   */
  lemma EmptyDataIsLost(crc: Checksum, g: Geometry, disk: Disk, hs: Headers, vs: Slots, time: Time)
    requires Good(crc, g, disk, hs, vs) && Acceptable(g, hs, time, [])
    ensures var st, found := SaveStep(crc, g, Store(disk, hs), Version(time, [])), hs[Older(hs) := None];
            && LastUpdateTime(st.headers) == Some(time)
            && Load(crc, g, st.disk) == Loaded(found)
            && LoadState(crc, g, st.disk, found) == AsRead(Latest(hs, vs))
            && LastUpdateTime(found) == TimeOf(Latest(hs, vs))
  {
    SavedIsNewer(crc, hs, Version(time, []));
    EmptySaved(crc, g, disk, hs, time);
    OtherSlotKept(crc, g, disk, hs, vs, time, [], Written, Written);
    OlderBlanked(crc, g, SavedDisk(crc, g, disk, hs, time, [], Written, Written), hs, vs);
  }

  /** What a reload finds when the older slot is blank and the other as it was. */
  lemma OlderBlanked(crc: Checksum, g: Geometry, d: Disk, hs: Headers, vs: Slots)
    requires g.Fits(d) && CopyHolds(crc, g, d, Older(hs), None)
    requires SlotHolds(crc, g, d, 1 - Older(hs), hs[1 - Older(hs)], vs[1 - Older(hs)])
    ensures var found := hs[Older(hs) := None];
            && Load(crc, g, d) == Loaded(found)
            && LoadState(crc, g, d, found) == AsRead(Latest(hs, vs))
            && LastUpdateTime(found) == TimeOf(Latest(hs, vs))
  {
    var r, n := Older(hs), Newer(hs);
    var found := hs[r := None];
    CopyHeader(crc, g, d, r, None);
    CopyHeader(crc, g, d, n, vs[n]);
    LoadsPair(crc, g, d, found);
    assert Newer(found) == n;
    GoodRead(crc, g, d, found, vs);
  }

  lemma EmptySaved(crc: Checksum, g: Geometry, disk: Disk, hs: Headers, time: Time)
    requires g.Fits(disk)
    ensures var d := SavedDisk(crc, g, disk, hs, time, [], Written, Written);
            g.Fits(d) && CopyHolds(crc, g, d, Older(hs), None)
  {
    SavedRegions(crc, g, disk, hs, time, [], Written, Written);
    EmptyRegion(crc, g, Region(g, disk, Older(hs)), time);
  }

  /** An accepted save is what a reload reads, data and time, exactly when its data is not empty. */
  lemma ReadBackIff(crc: Checksum, g: Geometry, disk: Disk, hs: Headers, vs: Slots, v: Version)
    requires Good(crc, g, disk, hs, vs) && Acceptable(g, hs, v.time, v.data) && |v.data| <= U64_MAX
    ensures var d := SaveStep(crc, g, Store(disk, hs), v).disk;
            && Load(crc, g, d).Loaded?
            && var found := Load(crc, g, d).headers;
               (LoadState(crc, g, d, found) == Data(v.data) && LastUpdateTime(found) == Some(v.time) <==> v.data != [])
  {
    if v.data == [] {
      EmptyDataIsLost(crc, g, disk, hs, vs, v.time);
      GoodRead(crc, g, disk, hs, vs);
    } else {
      SaveKeepsGood(crc, g, disk, hs, vs, v);
      var st, r := SaveStep(crc, g, Store(disk, hs), v), Older(hs);
      GoodReload(crc, g, st.disk, st.headers, vs[r := Some(v)]);
    }
  }

  lemma EmptyRegion(crc: Checksum, g: Geometry, rg: seq<Byte>, time: Time)
    requires |rg| == g.regionSize >= 32
    ensures RegionHolds(crc, g, WriteAt(rg, 0, RegionBytes(crc, time, []), Written), None)
  {
    var h := HeaderOf(crc, Version(time, []));
    HeaderRoundTrip(crc, h);
    assert WriteAt(rg, 0, RegionBytes(crc, time, []), Written)[..32] == HeaderBytes(crc, h);
  }

  // ----- a save that is cut off

  /** No mixture of the old and the new header passes for a header, unless it is one of the two. */
  ghost predicate NoHeaderCollision(crc: Checksum, before: seq<Byte>, after: seq<Byte>, found: seq<Byte>)
    requires |before| == |after| == |found| == 32
  {
    !FromBuf(crc, found).Bad? ==> found == before || found == after
  }

  /** Bytes found where `data` was to be written have its checksum only if they are `data`. */
  ghost predicate NoDataCollision(crc: Checksum, data: seq<Byte>, found: seq<Byte>) {
    crc(found) == crc(data) ==> found == data
  }

  /** The data bytes of copy `i` of a region, as many as `v` has. */
  ghost function DataBytes(g: Geometry, disk: Disk, i: nat, v: Version): seq<Byte>
    requires g.Fits(disk) && i < 4 && Storable(g, v)
  {
    Region(g, disk, i)[32..32 + |v.data|]
  }

  /** What is on the device when a save of `v` is cut off in its first copy has no checksum by accident. */
  ghost predicate NoCollision(crc: Checksum, g: Geometry, disk: Disk, hs: Headers, v: Version, reached: set<nat>)
    requires g.Fits(disk) && Storable(g, v)
  {
    var r := Older(hs);
    var d := SavedDisk(crc, g, disk, hs, v.time, v.data, Torn(reached), Torn({}));
    && NoHeaderCollision(crc, Region(g, disk, r)[..32], HeaderBytes(crc, HeaderOf(crc, v)), Region(g, d, r)[..32])
    && NoDataCollision(crc, v.data, DataBytes(g, d, r, v))
    && NoDataCollision(crc, v.data, DataBytes(g, d, r + 2, v))
  }

  /**
   A save cut off in its first copy, any of whose bytes may have reached the device. Unless the whole
   new header did, a reload finds the previous version. If it did, a reload finds the new time, with
   the new data if either copy has all of it and with an error otherwise.
   */
  lemma CutOffInFirstCopy(crc: Checksum, g: Geometry, disk: Disk, hs: Headers, vs: Slots, v: Version, reached: set<nat>)
    requires Good(crc, g, disk, hs, vs) && Acceptable(g, hs, v.time, v.data) && Storable(g, v)
    requires NoCollision(crc, g, disk, hs, v, reached)
    ensures var r := Older(hs);
            var d := SavedDisk(crc, g, disk, hs, v.time, v.data, Torn(reached), Torn({}));
            && Load(crc, g, d).Loaded?
            && var found := Load(crc, g, d).headers;
               if Region(g, d, r)[..32] != HeaderBytes(crc, HeaderOf(crc, v))
               then LoadState(crc, g, d, found) == AsRead(Latest(hs, vs)) && LastUpdateTime(found) == TimeOf(Latest(hs, vs))
               else
                 && LastUpdateTime(found) == Some(v.time)
                 && LoadState(crc, g, d, found) ==
                      if DataBytes(g, d, r, v) == v.data || DataBytes(g, d, r + 2, v) == v.data then Data(v.data) else DataError
  {
    var r, n := Older(hs), Newer(hs);
    var d := SavedDisk(crc, g, disk, hs, v.time, v.data, Torn(reached), Torn({}));
    SavedRegions(crc, g, disk, hs, v.time, v.data, Torn(reached), Torn({}));
    CutOffHeaders(crc, g, disk, d, r, n, vs, HeaderOf(crc, v));
    if Region(g, d, r)[..32] == HeaderBytes(crc, HeaderOf(crc, v)) {
      CutOffWithNewHeader(crc, g, d, hs, vs, v);
    } else {
      CutOffWithOldHeader(crc, g, d, hs, vs);
    }
  }

  ghost function HeaderReadOf(crc: Checksum, v: Option<Version>): HeaderRead
    requires v.Some? ==> |v.value.data| <= U64_MAX
  {
    if v.None? then Empty else Found(HeaderOf(crc, v.value))
  }

  /** The headers a reload finds when only copy `r` has been touched. */
  lemma CutOffHeaders(crc: Checksum, g: Geometry, disk: Disk, d: Disk, r: nat, n: nat, vs: Slots, next: Header)
    requires r < 2 && n == 1 - r && g.Fits(disk) && g.Fits(d) && next.used > 0
    requires CopyHolds(crc, g, disk, r, vs[r]) && CopyHolds(crc, g, disk, r + 2, vs[r]) && CopyHolds(crc, g, disk, n, vs[n])
    requires Region(g, d, r + 2) == Region(g, disk, r + 2) && Region(g, d, n) == Region(g, disk, n)
    requires NoHeaderCollision(crc, Region(g, disk, r)[..32], HeaderBytes(crc, next), Region(g, d, r)[..32])
    ensures GetMda(crc, g, d, n) == HeaderReadOf(crc, vs[n])
    ensures GetMda(crc, g, d, r) ==
            if Region(g, d, r)[..32] == HeaderBytes(crc, next) then Found(next) else HeaderReadOf(crc, vs[r])
  {
    CopyHeader(crc, g, d, n, vs[n]);
    TouchedHeader(crc, g, disk, d, r, vs[r], next);
  }

  lemma TouchedHeader(crc: Checksum, g: Geometry, disk: Disk, d: Disk, r: nat, v: Option<Version>, next: Header)
    requires r < 2 && g.Fits(disk) && g.Fits(d) && next.used > 0
    requires CopyHolds(crc, g, disk, r, v) && CopyHolds(crc, g, d, r + 2, v)
    requires NoHeaderCollision(crc, Region(g, disk, r)[..32], HeaderBytes(crc, next), Region(g, d, r)[..32])
    ensures GetMda(crc, g, d, r) ==
            if Region(g, d, r)[..32] == HeaderBytes(crc, next) then Found(next) else HeaderReadOf(crc, v)
  {
    CopyHeader(crc, g, d, r + 2, v);
    CopyHeader(crc, g, disk, r, v);
    HeaderInRegion(crc, g, d, r);
    HeaderInRegion(crc, g, disk, r);
    HeaderRoundTrip(crc, next);
  }

  lemma CutOffWithOldHeader(crc: Checksum, g: Geometry, d: Disk, hs: Headers, vs: Slots)
    requires g.Fits(d) && HeaderMatches(crc, hs[0], vs[0]) && HeaderMatches(crc, hs[1], vs[1])
    requires GetMda(crc, g, d, 0) == HeaderReadOf(crc, vs[0]) && GetMda(crc, g, d, 1) == HeaderReadOf(crc, vs[1])
    requires CopyHolds(crc, g, d, Newer(hs), vs[Newer(hs)])
    ensures Load(crc, g, d) == Loaded(hs)
    ensures LoadState(crc, g, d, hs) == AsRead(Latest(hs, vs)) && LastUpdateTime(hs) == TimeOf(Latest(hs, vs))
  {
    LoadsPair(crc, g, d, hs);
    GoodRead(crc, g, d, hs, vs);
  }

  lemma CutOffWithNewHeader(crc: Checksum, g: Geometry, d: Disk, hs: Headers, vs: Slots, v: Version)
    requires g.Fits(d) && Storable(g, v) && BeforeOption(LastUpdateTime(hs), v.time)
    requires var r := Older(hs);
             && GetMda(crc, g, d, r) == Found(HeaderOf(crc, v))
             && GetMda(crc, g, d, 1 - r) == (if hs[1 - r].None? then Empty else Found(hs[1 - r].value))
             && NoDataCollision(crc, v.data, DataBytes(g, d, r, v))
             && NoDataCollision(crc, v.data, DataBytes(g, d, r + 2, v))
    ensures var r, found := Older(hs), hs[Older(hs) := Some(HeaderOf(crc, v))];
            && Load(crc, g, d) == Loaded(found) && LastUpdateTime(found) == Some(v.time)
            && LoadState(crc, g, d, found) ==
                 if DataBytes(g, d, r, v) == v.data || DataBytes(g, d, r + 2, v) == v.data then Data(v.data) else DataError
  {
    var r := Older(hs);
    var hs' := hs[r := Some(HeaderOf(crc, v))];
    SavedIsNewer(crc, hs, v);
    LoadsPair(crc, g, d, hs');
    ReadsOrFails(crc, g, d, hs', v);
  }

  lemma LoadsPair(crc: Checksum, g: Geometry, d: Disk, hs: Headers)
    requires g.Fits(d)
    requires GetMda(crc, g, d, 0) == (if hs[0].None? then Empty else Found(hs[0].value))
    requires GetMda(crc, g, d, 1) == (if hs[1].None? then Empty else Found(hs[1].value))
    ensures Load(crc, g, d) == Loaded(hs)
  {
    assert hs == [hs[0], hs[1]];
  }

  lemma ReadsOrFails(crc: Checksum, g: Geometry, d: Disk, hs: Headers, v: Version)
    requires g.Fits(d) && Storable(g, v) && hs[Newer(hs)] == Some(HeaderOf(crc, v))
    requires var r := Newer(hs);
             && NoDataCollision(crc, v.data, DataBytes(g, d, r, v))
             && NoDataCollision(crc, v.data, DataBytes(g, d, r + 2, v))
    ensures var r := Newer(hs);
            LoadState(crc, g, d, hs) ==
              if DataBytes(g, d, r, v) == v.data || DataBytes(g, d, r + 2, v) == v.data then Data(v.data) else DataError
  {
    var r := Newer(hs);
    DataInRegion(crc, g, d, HeaderOf(crc, v), r);
    DataInRegion(crc, g, d, HeaderOf(crc, v), r + 2);
  }

  /** A save cut off in its backup copy has already taken effect. */
  lemma CutOffInSecondCopy(crc: Checksum, g: Geometry, disk: Disk, hs: Headers, vs: Slots, v: Version, reached: set<nat>)
    requires Good(crc, g, disk, hs, vs) && Acceptable(g, hs, v.time, v.data) && Storable(g, v)
    ensures var d := SavedDisk(crc, g, disk, hs, v.time, v.data, Written, Torn(reached));
            && Load(crc, g, d).Loaded?
            && LoadState(crc, g, d, Load(crc, g, d).headers) == Data(v.data)
            && LastUpdateTime(Load(crc, g, d).headers) == Some(v.time)
  {
    var r, n := Older(hs), Newer(hs);
    var d := SavedDisk(crc, g, disk, hs, v.time, v.data, Written, Torn(reached));
    SavedRegions(crc, g, disk, hs, v.time, v.data, Written, Torn(reached));
    WrittenRegion(crc, g, Region(g, disk, r), v);
    assert CopyHolds(crc, g, d, r, Some(v)) && CopyHolds(crc, g, d, n, vs[n]);
    CopyHeader(crc, g, d, n, vs[n]);
    CopyHeader(crc, g, d, r, Some(v));
    SavedIsNewer(crc, hs, v);
    var hs', vs' := hs[r := Some(HeaderOf(crc, v))], vs[r := Some(v)];
    LoadsPair(crc, g, d, hs');
    GoodRead(crc, g, d, hs', vs');
  }

  /** Whatever reached the device, the struct in memory still reads the previous version. */
  lemma CutOffInMemory(crc: Checksum, g: Geometry, disk: Disk, hs: Headers, vs: Slots, v: Version, first: Fate, second: Fate)
    requires Good(crc, g, disk, hs, vs) && Acceptable(g, hs, v.time, v.data) && Storable(g, v)
    ensures LoadState(crc, g, SavedDisk(crc, g, disk, hs, v.time, v.data, first, second), hs) == AsRead(Latest(hs, vs))
  {
    OtherSlotKept(crc, g, disk, hs, vs, v.time, v.data, first, second);
    GoodRead(crc, g, SavedDisk(crc, g, disk, hs, v.time, v.data, first, second), hs, vs);
  }
}
