/**
 The regions that hold a device's variable length metadata: two primary regions, each with
 a backup copy, written alternately.

 The checksum is a parameter: any function from bytes to 32-bit values. Where a result needs
 two byte strings not to collide, it says which.
 */
module Mda {
  import opened Prelude
  import opened Sizes

  type Byte = x: int | 0 <= x < 256
  type U32 = x: int | 0 <= x < 0x1_0000_0000
  type U64 = x: int | 0 <= x <= 0xFFFF_FFFF_FFFF_FFFF
  type Secs = x: int | 0 <= x <= 0x7FFF_FFFF_FFFF_FFFF
  type Nanos = x: int | 0 <= x < 2_000_000_000
  type Checksum = seq<Byte> -> U32

  const I64_MAX: int := 0x7FFF_FFFF_FFFF_FFFF

  /** A time not before the epoch; a leap second shows as a nanosecond part of a second or more. */
  datatype Time = Time(secs: Secs, nanos: Nanos)

  predicate Before(a: Time, b: Time) {
    a.secs < b.secs || (a.secs == b.secs && a.nanos < b.nanos)
  }

  /** No time at all comes before every time. */
  predicate BeforeOption(a: Option<Time>, b: Time) {
    a.None? || Before(a.value, b)
  }

  // ----- little endian integers

  function Le(v: nat, k: nat): (bs: seq<Byte>)
    ensures |bs| == k
  {
    if k == 0 then [] else [v % 256] + Le(v / 256, k - 1)
  }

  function UnLe(bs: seq<Byte>): nat {
    if bs == [] then 0 else bs[0] + 256 * UnLe(bs[1..])
  }

  function Pow256(k: nat): nat {
    if k == 0 then 1 else 256 * Pow256(k - 1)
  }

  lemma {:induction false} LeRoundTrip(v: nat, k: nat)
    requires v < Pow256(k)
    ensures UnLe(Le(v, k)) == v
  {
    if k > 0 {
      LeRoundTrip(v / 256, k - 1);
      assert Le(v, k)[1..] == Le(v / 256, k - 1);
    }
  }

  lemma Pow256Values()
    ensures Pow256(4) == 0x1_0000_0000 && Pow256(8) == 0x1_0000_0000_0000_0000
  {
    assert Pow256(1) == 256 && Pow256(2) == 0x1_0000 && Pow256(3) == 0x100_0000;
    assert Pow256(5) == 0x100_0000_0000 && Pow256(6) == 0x1_0000_0000_0000 && Pow256(7) == 0x100_0000_0000_0000;
  }

  lemma DivDiv(v: nat, p: nat)
    requires p > 0
    ensures v / (256 * p) == v / 256 / p
  {
    var q := v / 256 / p;
    assert v / 256 == q * p + v / 256 % p && v == 256 * (v / 256) + v % 256;
    assert v == q * (256 * p) + (256 * (v / 256 % p) + v % 256);
    DivUnique(v, q, 256 * p);
  }

  /** Byte `i` is digit `i` to the base 256. */
  lemma {:induction false} LeDigit(v: nat, k: nat, i: nat)
    requires i < k
    ensures Pow256(i) > 0 && Le(v, k)[i] == v / Pow256(i) % 256
  {
    if i > 0 {
      LeDigit(v / 256, k - 1, i - 1);
      DivDiv(v, Pow256(i - 1));
    }
  }

  lemma {:induction false} LeOfUnLe(bs: seq<Byte>)
    ensures Le(UnLe(bs), |bs|) == bs
  {
    if bs != [] {
      LeOfUnLe(bs[1..]);
      assert bs == [bs[0]] + bs[1..];
    }
  }

  // ----- headers

  datatype Header = Header(lastUpdated: Time, used: U64, dataCrc: U32)

  const DEFAULT_HEADER := Header(Time(0, 0), 0, 0)
  const HDR_VERSION: Byte := 1
  const METADATA_VERSION: Byte := 1

  /** Everything in a header but its checksum. */
  function HeaderBody(h: Header): (bs: seq<Byte>)
    ensures |bs| == 28
  {
    Le(h.dataCrc, 4) + Le(h.used, 8) + Le(h.lastUpdated.secs, 8) + Le(h.lastUpdated.nanos, 4)
    + [HDR_VERSION, METADATA_VERSION, 0, 0]
  }

  function HeaderBytes(crc: Checksum, h: Header): (bs: seq<Byte>)
    ensures |bs| == 32
  {
    Le(crc(HeaderBody(h)), 4) + HeaderBody(h)
  }

  /** `Panic` is a time that cannot be represented, which the reader does not survive. */
  datatype HeaderRead = Bad | Empty | Found(header: Header) | Panic

  function ParseBuf(buf: seq<Byte>): HeaderRead
    requires |buf| == 32
  {
    if UnLe(buf[8..16]) == 0 then Empty
    else
      var secs, nanos := UnLe(buf[16..24]), UnLe(buf[24..28]);
      if secs > I64_MAX || nanos >= 2_000_000_000 then Panic
      else
        LeBound(buf[8..16]);
        LeBound(buf[4..8]);
        Pow256Values();
        Found(Header(Time(secs, nanos), UnLe(buf[8..16]), UnLe(buf[4..8])))
  }

  lemma {:induction false} LeBound(bs: seq<Byte>)
    ensures UnLe(bs) < Pow256(|bs|)
  {
    if bs != [] { LeBound(bs[1..]); }
  }

  function FromBuf(crc: Checksum, buf: seq<Byte>): HeaderRead
    requires |buf| == 32
  {
    if UnLe(buf[..4]) != crc(buf[4..]) then Bad
    else if buf[28] != HDR_VERSION then Bad
    else if buf[29] != METADATA_VERSION then Bad
    else ParseBuf(buf)
  }

  /** A written header reads back as it was, unless it says that nothing was written. */
  lemma HeaderRoundTrip(crc: Checksum, h: Header)
    ensures FromBuf(crc, HeaderBytes(crc, h)) == if h.used == 0 then Empty else Found(h)
  {
    var body, buf := HeaderBody(h), HeaderBytes(crc, h);
    var a, b, c, d, e: seq<Byte> :=
      Le(h.dataCrc, 4), Le(h.used, 8), Le(h.lastUpdated.secs, 8), Le(h.lastUpdated.nanos, 4), [1, 1, 0, 0];
    assert buf[4..] == body && buf[..4] == Le(crc(body), 4);
    assert body == a + b + c + d + e;
    BodySlices(a, b, c, d, e);
    assert buf[4..8] == body[0..4] && buf[8..16] == body[4..12] && buf[16..24] == body[12..20] && buf[24..28] == body[20..24];
    assert buf[28] == body[24] && buf[29] == body[25];
    Pow256Values();
    LeRoundTrip(crc(body), 4);
    LeRoundTrip(h.dataCrc, 4);
    LeRoundTrip(h.used, 8);
    LeRoundTrip(h.lastUpdated.secs, 8);
    LeRoundTrip(h.lastUpdated.nanos, 4);
  }

  lemma BodySlices(a: seq<Byte>, b: seq<Byte>, c: seq<Byte>, d: seq<Byte>, e: seq<Byte>)
    requires |a| == 4 && |b| == 8 && |c| == 8 && |d| == 4 && |e| == 4
    ensures var body := a + b + c + d + e;
            && |body| == 28
            && body[0..4] == a && body[4..12] == b && body[12..20] == c && body[20..24] == d
            && body[24] == e[0] && body[25] == e[1]
  {
  }

  /** Where each field of a header is. */
  lemma HeaderLayout(crc: Checksum, h: Header)
    ensures var buf := HeaderBytes(crc, h);
            && buf[..4] == Le(crc(buf[4..]), 4) && buf[4..8] == Le(h.dataCrc, 4) && buf[8..16] == Le(h.used, 8)
            && buf[16..24] == Le(h.lastUpdated.secs, 8) && buf[24..28] == Le(h.lastUpdated.nanos, 4)
            && buf[28..] == [1, 1, 0, 0]
  {
    var body, buf := HeaderBody(h), HeaderBytes(crc, h);
    assert buf[4..] == body && buf[..4] == Le(crc(body), 4);
    BodySlices(Le(h.dataCrc, 4), Le(h.used, 8), Le(h.lastUpdated.secs, 8), Le(h.lastUpdated.nanos, 4), [1, 1, 0, 0]);
    assert buf[4..8] == body[0..4] && buf[8..16] == body[4..12] && buf[16..24] == body[12..20] && buf[24..28] == body[20..24];
    assert buf[28..] == body[24..];
  }

  /** The bytes are a header as far as its checksum and its two version numbers say. */
  predicate Intact(crc: Checksum, buf: seq<Byte>)
    requires |buf| == 32
  {
    UnLe(buf[..4]) == crc(buf[4..]) && buf[28] == 1 && buf[29] == 1
  }

  /** The bytes are those of header `h` in all that a reader looks at. */
  ghost predicate Encodes(buf: seq<Byte>, h: Header)
    requires |buf| == 32
  {
    && buf[4..8] == Le(h.dataCrc, 4) && buf[8..16] == Le(h.used, 8)
    && buf[16..24] == Le(h.lastUpdated.secs, 8) && buf[24..28] == Le(h.lastUpdated.nanos, 4)
  }

  lemma EncodesIs(buf: seq<Byte>, h: Header)
    requires |buf| == 32
    ensures Encodes(buf, h) <==>
            && UnLe(buf[4..8]) == h.dataCrc && UnLe(buf[8..16]) == h.used
            && UnLe(buf[16..24]) == h.lastUpdated.secs && UnLe(buf[24..28]) == h.lastUpdated.nanos
  {
    Pow256Values();
    LeRoundTrip(h.dataCrc, 4);
    LeRoundTrip(h.used, 8);
    LeRoundTrip(h.lastUpdated.secs, 8);
    LeRoundTrip(h.lastUpdated.nanos, 4);
    LeOfUnLe(buf[4..8]);
    LeOfUnLe(buf[8..16]);
    LeOfUnLe(buf[16..24]);
    LeOfUnLe(buf[24..28]);
  }

  /** What any 32 bytes are read as; only an intact header is accepted, and only for what it says. */
  lemma FromBufExact(crc: Checksum, buf: seq<Byte>, h: Header)
    requires |buf| == 32
    ensures FromBuf(crc, buf) == Bad <==> !Intact(crc, buf)
    ensures FromBuf(crc, buf) == Empty <==> Intact(crc, buf) && UnLe(buf[8..16]) == 0
    ensures FromBuf(crc, buf) == Found(h) <==> Intact(crc, buf) && h.used > 0 && Encodes(buf, h)
    ensures FromBuf(crc, buf) == Panic <==>
            && Intact(crc, buf) && UnLe(buf[8..16]) > 0
            && (UnLe(buf[16..24]) > I64_MAX || UnLe(buf[24..28]) >= 2_000_000_000)
  {
    EncodesIs(buf, h);
  }

  // ----- the device as bytes

  type Disk = seq<Byte>

  function Read(disk: Disk, off: nat, n: nat): (bs: seq<Byte>)
    requires off + n <= |disk|
    ensures |bs| == n
  {
    disk[off..off + n]
  }

  /** Which bytes of a write reach the device: all, or those in some set when it is cut off. */
  datatype Fate = Written | Torn(reached: set<nat>)

  function WriteAt(disk: Disk, off: nat, bs: seq<Byte>, fate: Fate): (d: Disk)
    requires off + |bs| <= |disk|
    ensures |d| == |disk|
    ensures forall i | 0 <= i < |disk| ::
              d[i] == if off <= i < off + |bs| && (fate.Written? || i - off in fate.reached) then bs[i - off] else disk[i]
  {
    seq(|disk|, i requires 0 <= i < |disk| =>
      if off <= i < off + |bs| && (fate.Written? || i - off in fate.reached) then bs[i - off] else disk[i])
  }

  lemma ReadElsewhere(disk: Disk, off: nat, bs: seq<Byte>, fate: Fate, at: nat, n: nat)
    requires off + |bs| <= |disk| && at + n <= |disk|
    requires at + n <= off || off + |bs| <= at
    ensures Read(WriteAt(disk, off, bs, fate), at, n) == Read(disk, at, n)
  {
  }

  // ----- the layout

  /** The first byte of region `i`; the regions are one after the other behind the static header. */
  function Off(headerSize: nat, i: nat, regionSize: nat): nat {
    headerSize + regionSize * i
  }

  /** The geometry of a device: every region fits and offsets fit in 64 bits. */
  datatype Geometry = Geometry(headerSize: nat, regionSize: nat) {
    predicate Fits(disk: Disk) {
      regionSize >= MDA_REGION_HDR_SIZE && Off(headerSize, NUM_MDA_REGIONS, regionSize) <= |disk| <= U64_MAX
    }

    function At(i: nat): nat { Off(headerSize, i, regionSize) }

    function MaxData(): int { regionSize - MDA_REGION_HDR_SIZE }
  }

  lemma RegionInDisk(g: Geometry, disk: Disk, i: nat)
    requires g.Fits(disk) && i < 4
    ensures g.At(i) + g.regionSize <= |disk|
  {
  }

  /** The regions follow one another without a gap from the end of the static header. */
  lemma RegionsTile(g: Geometry, i: nat)
    ensures g.At(0) == g.headerSize && g.At(i + 1) == g.At(i) + g.regionSize
    ensures g.At(NUM_MDA_REGIONS) == g.headerSize + MdaSize(g.regionSize)
    ensures g.At(i) + MDA_REGION_HDR_SIZE + g.MaxData() == g.At(i + 1)
  {
  }

  lemma RegionsApart(g: Geometry, i: nat, j: nat)
    requires i < j < 4
    ensures g.At(i) + g.regionSize <= g.At(j)
  {
  }

  // ----- loading and saving

  type Headers = hs: seq<Option<Header>> | |hs| == 2 witness [None, None]

  /** The index of the older region. A tie between two written regions goes to index 1. */
  function Older(hs: Headers): (i: nat)
    ensures i < 2
  {
    if hs[0].None? then 0
    else if hs[1].None? then 1
    else if Before(hs[0].value.lastUpdated, hs[1].value.lastUpdated) then 0 else 1
  }

  function Newer(hs: Headers): (i: nat)
    ensures i < 2 && i == 1 - Older(hs)
  {
    1 - Older(hs)
  }

  /** Both regions are written, at the same time. */
  predicate Tied(hs: Headers) {
    hs[0].Some? && hs[1].Some? && hs[0].value.lastUpdated == hs[1].value.lastUpdated
  }

  /** The older region, as documented: the first one if neither is older. */
  function OlderAsDocumented(hs: Headers): nat {
    var a := if hs[0].None? then None else Some(hs[0].value.lastUpdated);
    if hs[1].None? then if a.None? then 0 else 1
    else if BeforeOption(a, hs[1].value.lastUpdated) || a == Some(hs[1].value.lastUpdated) then 0 else 1
  }

  /** The documented index of the older region is the one chosen except in a tie between written regions. */
  lemma OlderDocumentedIff(hs: Headers)
    ensures Older(hs) == OlderAsDocumented(hs) <==> !Tied(hs)
    ensures Newer(hs) == 1 - OlderAsDocumented(hs) <==> !Tied(hs)
  {
  }

  lemma TieGoesToSecond(h: Header)
    ensures var hs: Headers := [Some(h), Some(h)];
            && OlderAsDocumented(hs) == 0 && Older(hs) == 1 && Newer(hs) == 0
  {
  }

  function LastUpdateTime(hs: Headers): Option<Time> {
    match hs[Newer(hs)]
    case None => None
    case Some(h) => Some(h.lastUpdated)
  }

  function LoadRegionHeader(crc: Checksum, g: Geometry, disk: Disk, i: nat): HeaderRead
    requires g.Fits(disk) && i < 4
  {
    RegionInDisk(g, disk, i);
    FromBuf(crc, Read(disk, g.At(i), 32))
  }

  /** The header of a primary region, from its backup copy if the first is invalid. */
  function GetMda(crc: Checksum, g: Geometry, disk: Disk, i: nat): HeaderRead
    requires g.Fits(disk) && i < 2
  {
    var first := LoadRegionHeader(crc, g, disk, i);
    if first.Bad? then LoadRegionHeader(crc, g, disk, i + NUM_PRIMARY_MDA_REGIONS) else first
  }

  datatype LoadResult = Loaded(headers: Headers) | LoadError | LoadPanic

  function ToOption(r: HeaderRead): Option<Header>
    requires r.Empty? || r.Found?
  {
    if r.Found? then Some(r.header) else None
  }

  function Load(crc: Checksum, g: Geometry, disk: Disk): LoadResult
    requires g.Fits(disk)
  {
    var m0, m1 := GetMda(crc, g, disk, 0), GetMda(crc, g, disk, 1);
    if m0.Panic? then LoadPanic else if m0.Bad? then LoadError
    else if m1.Panic? then LoadPanic else if m1.Bad? then LoadError
    else Loaded([ToOption(m0), ToOption(m1)])
  }

  datatype StateRead = NoData | Data(bytes: seq<Byte>) | DataError

  function LoadRegionData(crc: Checksum, g: Geometry, disk: Disk, h: Header, i: nat): StateRead
    requires g.Fits(disk) && i < 4
  {
    var off := g.At(i) + MDA_REGION_HDR_SIZE;
    if off + h.used > |disk| then DataError
    else if h.dataCrc != crc(Read(disk, off, h.used)) then DataError
    else Data(Read(disk, off, h.used))
  }

  function LoadState(crc: Checksum, g: Geometry, disk: Disk, hs: Headers): StateRead
    requires g.Fits(disk)
  {
    var n := Newer(hs);
    match hs[n]
    case None => NoData
    case Some(h) =>
      var first := LoadRegionData(crc, g, disk, h, n);
      if first.DataError? then LoadRegionData(crc, g, disk, h, n + NUM_PRIMARY_MDA_REGIONS) else first
  }

  datatype SaveResult = Saved | OverwritingNewer | TooLong | IoError

  /** The bytes of one copy of a region: its header, then the data. */
  function RegionBytes(crc: Checksum, time: Time, data: seq<Byte>): (bs: seq<Byte>)
    requires |data| <= U64_MAX
    ensures |bs| == 32 + |data|
  {
    HeaderBytes(crc, Header(time, |data|, crc(data))) + data
  }

  predicate Acceptable(g: Geometry, hs: Headers, time: Time, data: seq<Byte>) {
    BeforeOption(LastUpdateTime(hs), time) && |data| <= g.MaxData()
  }

  /** The device after an acceptable save whose two region writes end as `first` and `second` say. */
  function SavedDisk(crc: Checksum, g: Geometry, disk: Disk, hs: Headers, time: Time, data: seq<Byte>, first: Fate, second: Fate)
    : (d: Disk)
    requires g.Fits(disk) && |data| <= g.MaxData()
    ensures g.Fits(d)
  {
    var r := Older(hs);
    RegionInDisk(g, disk, r);
    RegionInDisk(g, disk, r + 2);
    var bs := RegionBytes(crc, time, data);
    var d := WriteAt(disk, g.At(r), bs, first);
    if first.Torn? then d else WriteAt(d, g.At(r + 2), bs, second)
  }
}
