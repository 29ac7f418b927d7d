/** The metadata regions as an object that writes to and reads from a device file. */
module MdaDevice {
  import opened Prelude
  import opened Sizes
  import opened Mda
  import opened MdaRuns

  // ----- headers as buffers

  function Put(s: seq<Byte>, at: nat, bs: seq<Byte>): (t: seq<Byte>)
    requires at + |bs| <= |s|
    ensures |t| == |s|
  {
    s[..at] + bs + s[at + |bs|..]
  }

  /** Filling the fields of a zeroed buffer one after the other lays out the header. */
  lemma FieldsLaidOut(s: seq<Byte>, a: seq<Byte>, b: seq<Byte>, c: seq<Byte>, d: seq<Byte>)
    requires |s| == 32 && (forall i | 0 <= i < 32 :: s[i] == 0)
    requires |a| == 4 && |b| == 8 && |c| == 8 && |d| == 4
    ensures Put(Put(Put(Put(s, 4, a), 8, b), 16, c), 24, d)[28 := HDR_VERSION][29 := METADATA_VERSION][4..]
            == a + b + c + d + [HDR_VERSION, METADATA_VERSION, 0, 0]
  {
    assert Put(s, 4, a) == s[..4] + a + s[8..];
    assert Put(Put(s, 4, a), 8, b) == s[..4] + a + b + s[16..];
    assert Put(Put(Put(s, 4, a), 8, b), 16, c) == s[..4] + a + b + c + s[24..];
    assert Put(Put(Put(Put(s, 4, a), 8, b), 16, c), 24, d) == s[..4] + a + b + c + d + s[28..];
  }

  method PutLe(buf: array<Byte>, at: nat, k: nat, v: nat)
    requires at + k <= buf.Length
    modifies buf
    ensures buf[..] == Put(old(buf[..]), at, Le(v, k))
  {
    ghost var before := buf[..];
    var x := v;
    for i := 0 to k
      invariant x >= 0 && Le(v, k)[i..] == Le(x, k - i)
      invariant forall j | 0 <= j < buf.Length && !(at <= j < at + i) :: buf[j] == before[j]
      invariant forall j | 0 <= j < i :: buf[at + j] == Le(v, k)[j]
    {
      assert Le(v, k)[i] == Le(v, k)[i..][0] == x % 256;
      assert Le(v, k)[i + 1..] == Le(v, k)[i..][1..];
      buf[at + i] := x % 256;
      x := x / 256;
    }
    assert buf[..] == Put(before, at, Le(v, k));
  }

  /** The on-disk form of a header. The checksum is written last and covers the rest. */
  method ToBuf(crc: Checksum, h: Header) returns (buf: array<Byte>)
    ensures fresh(buf) && buf.Length == 32 && buf[..] == HeaderBytes(crc, h)
  {
    buf := new Byte[32](_ => 0);
    ghost var zero := buf[..];
    PutLe(buf, 4, 4, h.dataCrc);
    PutLe(buf, 8, 8, h.used);
    PutLe(buf, 16, 8, h.lastUpdated.secs);
    PutLe(buf, 24, 4, h.lastUpdated.nanos);
    buf[28] := HDR_VERSION;
    buf[29] := METADATA_VERSION;
    FieldsLaidOut(zero, Le(h.dataCrc, 4), Le(h.used, 8), Le(h.lastUpdated.secs, 8), Le(h.lastUpdated.nanos, 4));
    assert buf[4..] == buf[..][4..] == HeaderBody(h);
    var sum := crc(buf[4..]);
    ghost var filled := buf[..];
    PutLe(buf, 0, 4, sum);
    assert filled[..0] + Le(sum, 4) == Le(sum, 4);
  }

  // ----- the device file

  class File {
    var bytes: Disk
    var pos: nat

    method Seek(to: nat)
      modifies this`pos
      ensures pos == to
    {
      pos := to;
    }

    /** Write at the current position; `fate` says how much of it reaches the device. */
    method WriteAll(bs: seq<Byte>, fate: Fate) returns (ok: bool)
      requires pos + |bs| <= |bytes|
      modifies this
      ensures bytes == WriteAt(old(bytes), old(pos), bs, fate) && ok == fate.Written?
      ensures pos == old(pos) + |bs|
    {
      bytes := WriteAt(bytes, pos, bs, fate);
      pos := pos + |bs|;
      ok := fate.Written?;
    }

    method ReadExact(n: nat) returns (r: Option<seq<Byte>>)
      modifies this`pos
      ensures r == if old(pos) + n <= |bytes| then Some(Read(bytes, old(pos), n)) else None
    {
      if pos + n > |bytes| { return None; }
      r := Some(Read(bytes, pos, n));
      pos := pos + n;
    }
  }

  /** The first write from `i` on that does not complete. */
  function FirstTorn(fates: seq<Fate>, i: nat): (k: nat)
    requires i <= |fates|
    ensures i <= k <= |fates| && (k < |fates| ==> fates[k].Torn?) && forall j | i <= j < k :: fates[j].Written?
    decreases |fates| - i
  {
    if i == |fates| || fates[i].Torn? then i else FirstTorn(fates, i + 1)
  }

  /** The device after as many of the four headers as were written, and part of the next one. */
  function InitTorn(crc: Checksum, g: Geometry, disk: Disk, fates: seq<Fate>): (d: Disk)
    requires g.Fits(disk) && |fates| == 4
    ensures g.Fits(d)
  {
    var k := FirstTorn(fates, 0);
    var d := InitDisk(crc, g, disk, k);
    if k == 4 then d
    else
      RegionInDisk(g, d, k);
      WriteAt(d, g.At(k), HeaderBytes(crc, DEFAULT_HEADER), fates[k])
  }

  lemma {:induction false} InitLeaves(crc: Checksum, g: Geometry, disk: Disk, regions: nat, i: nat)
    requires g.Fits(disk) && regions <= i < 4
    ensures Region(g, InitDisk(crc, g, disk, regions), i) == Region(g, disk, i)
  {
    if regions > 0 {
      var d := InitDisk(crc, g, disk, regions - 1);
      RegionInDisk(g, d, regions - 1);
      InitLeaves(crc, g, disk, regions - 1, i);
      OtherRegions(g, d, regions - 1, HeaderBytes(crc, DEFAULT_HEADER), Written, i);
    }
  }

  /**
   What an initialization leaves that may be cut off: the regions before the cut have the header of nothing, that at
   the cut has as much of it as reached the device, and those behind it are as they were.
   */
  lemma InitTornExact(crc: Checksum, g: Geometry, disk: Disk, fates: seq<Fate>, i: nat)
    requires g.Fits(disk) && |fates| == 4 && i < 4
    ensures var d, k := InitTorn(crc, g, disk, fates), FirstTorn(fates, 0);
            && (i < k ==> CopyHolds(crc, g, d, i, None))
            && (i == k ==> Region(g, d, i) == WriteAt(Region(g, disk, i), 0, HeaderBytes(crc, DEFAULT_HEADER), fates[k]))
            && (i > k ==> Region(g, d, i) == Region(g, disk, i))
  {
    var k, hdr := FirstTorn(fates, 0), HeaderBytes(crc, DEFAULT_HEADER);
    var d := InitDisk(crc, g, disk, k);
    if i < k { InitRegions(crc, g, disk, k, i); } else { InitLeaves(crc, g, disk, k, i); }
    if k < 4 {
      RegionInDisk(g, d, k);
      if i == k { ThisRegion(g, d, k, hdr, fates[k]); } else { OtherRegions(g, d, k, hdr, fates[k], i); }
    }
  }

  class MdaRegions {
    const g: Geometry
    var headers: Headers

    constructor (g: Geometry)
      ensures this.g == g && headers == [None, None]
    {
      this.g := g;
      headers := [None, None];
    }

    constructor Of(g: Geometry, headers: Headers)
      ensures this.g == g && this.headers == headers
    {
      this.g := g;
      this.headers := headers;
    }

    /**
     Write the empty header to one region after the other, up to the first write that does not
     complete. `fates` says how the writes end, `synced` whether all of them are made to last.
     */
    method Initialize(crc: Checksum, f: File, fates: seq<Fate>, synced: bool) returns (ok: bool)
      requires g.Fits(f.bytes) && |fates| == 4
      modifies f
      ensures g.Fits(f.bytes) && f.bytes == InitTorn(crc, g, old(f.bytes), fates)
      ensures ok <==> FirstTorn(fates, 0) == 4 && synced
      ensures ok ==> f.bytes == InitDisk(crc, g, old(f.bytes), 4)
    {
      var buf := ToBuf(crc, DEFAULT_HEADER);
      var hdr := buf[..];
      for region := 0 to 4
        invariant g.Fits(f.bytes) && f.bytes == InitDisk(crc, g, old(f.bytes), region)
        invariant FirstTorn(fates, region) == FirstTorn(fates, 0)
      {
        RegionInDisk(g, f.bytes, region);
        f.Seek(g.At(region));
        var written := f.WriteAll(hdr, fates[region]);
        if !written { return false; }
      }
      return synced;
    }

    /** Write to the older region and then to its backup; memory changes only if both writes succeed. */
    method SaveState(crc: Checksum, f: File, time: Time, data: seq<Byte>, first: Fate, second: Fate) returns (r: SaveResult)
      requires g.Fits(f.bytes)
      modifies this`headers, f
      ensures g.Fits(f.bytes)
      ensures r == (if !BeforeOption(LastUpdateTime(old(headers)), time) then OverwritingNewer
                    else if |data| > g.MaxData() then TooLong
                    else if first.Torn? || second.Torn? then IoError
                    else Saved)
      ensures r.OverwritingNewer? || r.TooLong? ==> f.bytes == old(f.bytes)
      ensures r.Saved? || r.IoError? ==>
                f.bytes == SavedDisk(crc, g, old(f.bytes), old(headers), time, data, first, second)
      ensures headers == if r.Saved? then old(headers)[Older(old(headers)) := Some(HeaderOf(crc, Version(time, data)))]
                         else old(headers)
    {
      var last := LastUpdateTime(headers);
      if !BeforeOption(last, time) { return OverwritingNewer; }
      if |data| > g.MaxData() { return TooLong; }
      var header := HeaderOf(crc, Version(time, data));
      var buf := ToBuf(crc, header);
      var bs := buf[..] + data;
      var older := Older(headers);
      RegionInDisk(g, f.bytes, older);
      RegionInDisk(g, f.bytes, older + 2);
      f.Seek(g.At(older));
      var ok := f.WriteAll(bs, first);
      if !ok { return IoError; }
      f.Seek(g.At(older + NUM_PRIMARY_MDA_REGIONS));
      ok := f.WriteAll(bs, second);
      if !ok { return IoError; }
      headers := headers[older := Some(header)];
      return Saved;
    }

    method ReadState(crc: Checksum, f: File) returns (r: StateRead)
      requires g.Fits(f.bytes)
      modifies f`pos
      ensures r == LoadState(crc, g, f.bytes, headers)
    {
      var newer := Newer(headers);
      if headers[newer].None? { return NoData; }
      var mda := headers[newer].value;
      r := ReadRegion(crc, f, mda, newer);
      if r.DataError? {
        r := ReadRegion(crc, f, mda, newer + NUM_PRIMARY_MDA_REGIONS);
      }
    }

    method ReadRegion(crc: Checksum, f: File, mda: Header, i: nat) returns (r: StateRead)
      requires g.Fits(f.bytes) && i < 4
      modifies f`pos
      ensures r == LoadRegionData(crc, g, f.bytes, mda, i)
    {
      f.Seek(g.At(i) + MDA_REGION_HDR_SIZE);
      var data := f.ReadExact(mda.used);
      if data.None? || mda.dataCrc != crc(data.value) { return DataError; }
      return Data(data.value);
    }
  }

  predicate Usable(r: HeaderRead) { r.Empty? || r.Found? }

  method LoadRegions(crc: Checksum, g: Geometry, f: File) returns (r: LoadResult)
    requires g.Fits(f.bytes)
    modifies f`pos
    ensures r == Load(crc, g, f.bytes)
    ensures r.Loaded? <==> Usable(GetMda(crc, g, f.bytes, 0)) && Usable(GetMda(crc, g, f.bytes, 1))
    ensures r.LoadPanic? <==>
            || GetMda(crc, g, f.bytes, 0).Panic?
            || (Usable(GetMda(crc, g, f.bytes, 0)) && GetMda(crc, g, f.bytes, 1).Panic?)
  {
    var m0 := ReadHeader(crc, g, f, 0);
    if m0.Panic? { return LoadPanic; }
    if m0.Bad? { return LoadError; }
    var m1 := ReadHeader(crc, g, f, 1);
    if m1.Panic? { return LoadPanic; }
    if m1.Bad? { return LoadError; }
    return Loaded([ToOption(m0), ToOption(m1)]);
  }

  method ReadHeader(crc: Checksum, g: Geometry, f: File, i: nat) returns (r: HeaderRead)
    requires g.Fits(f.bytes) && i < 2
    modifies f`pos
    ensures r == GetMda(crc, g, f.bytes, i)
  {
    RegionInDisk(g, f.bytes, i);
    RegionInDisk(g, f.bytes, i + 2);
    f.Seek(g.At(i));
    var buf := f.ReadExact(MDA_REGION_HDR_SIZE);
    r := FromBuf(crc, buf.value);
    if r.Bad? {
      f.Seek(g.At(i + NUM_PRIMARY_MDA_REGIONS));
      buf := f.ReadExact(MDA_REGION_HDR_SIZE);
      r := FromBuf(crc, buf.value);
    }
  }
}
