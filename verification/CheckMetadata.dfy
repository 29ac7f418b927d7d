/** The consistency check on the metadata of a pool that is about to be set up. */
module CheckMetadata {
  import opened Prelude

  datatype Extent = Extent(start: nat, length: nat) {
    function End(): nat { start + length }
    predicate Has(x: int) { start <= x < start + length }
  }

  datatype FlexDevs = FlexDevs(
    metaDev: seq<Extent>,
    thinMetaDev: seq<Extent>,
    thinDataDev: seq<Extent>,
    thinMetaDevSpare: seq<Extent>)
  {
    function All(): seq<Extent> { metaDev + thinMetaDev + thinDataDev + thinMetaDevSpare }

    predicate NonEmpty() { metaDev != [] && thinMetaDev != [] && thinDataDev != [] && thinMetaDevSpare != [] }
  }

  datatype CheckResult = Consistent | UsedDiffers | TotalDiffers | NothingAllocated | CapTooSmall

  function Last(es: seq<Extent>): Extent
    requires es != []
  {
    es[|es| - 1]
  }

  /** The one that starts last; the second if they start together. */
  function MaxStart(a: Extent, b: Extent): Extent {
    if b.start >= a.start then b else a
  }

  /** The start of the space not yet allocated in the cap device. */
  function NextIndex(f: FlexDevs): nat
    requires f.NonEmpty()
  {
    MaxStart(MaxStart(MaxStart(Last(f.metaDev), Last(f.thinMetaDev)), Last(f.thinDataDev)), Last(f.thinMetaDevSpare)).End()
  }

  /** The last extents of the four devices, in the order in which they are compared. */
  function Lasts(f: FlexDevs): (es: seq<Extent>)
    requires f.NonEmpty()
    ensures |es| == 4
  {
    [Last(f.metaDev), Last(f.thinMetaDev), Last(f.thinDataDev), Last(f.thinMetaDevSpare)]
  }

  /** Whatever the metadata, the next index is the end of the extent that starts last, the later one in a tie. */
  lemma NextIndexExact(f: FlexDevs) returns (j: nat)
    requires f.NonEmpty()
    ensures j < 4 && NextIndex(f) == Lasts(f)[j].End()
    ensures forall i | 0 <= i < 4 :: Lasts(f)[i].start <= Lasts(f)[j].start && (i > j ==> Lasts(f)[i].start < Lasts(f)[j].start)
  {
    var es := Lasts(f);
    j := if es[1].start >= es[0].start then 1 else 0;
    j := if es[2].start >= es[j].start then 2 else j;
    j := if es[3].start >= es[j].start then 3 else j;
  }

  function SumLengths(es: seq<Extent>): nat {
    if es == [] then 0 else es[0].length + SumLengths(es[1..])
  }

  /** `cap` sectors are recorded as allocated from the cap device, which has `segments` of the data tier. */
  function Check(f: FlexDevs, cap: nat, segments: seq<Extent>): CheckResult
    requires f.NonEmpty()
  {
    if cap != NextIndex(f) then UsedDiffers
    else if SumLengths(f.All()) != NextIndex(f) then TotalDiffers
    else if SumLengths(segments) == 0 then NothingAllocated
    else if NextIndex(f) > SumLengths(segments) then CapTooSmall
    else Consistent
  }

  // ----- what the check means

  ghost predicate Disjoint(es: seq<Extent>) {
    forall i, j | 0 <= i < j < |es| :: es[i].End() <= es[j].start || es[j].End() <= es[i].start
  }

  ghost predicate Positive(es: seq<Extent>) {
    forall e | e in es :: e.length > 0
  }

  ghost predicate AscendingStarts(es: seq<Extent>) {
    forall i, j | 0 <= i < j < |es| :: es[i].start <= es[j].start
  }

  /** What the thin pool guarantees of its own lists. */
  ghost predicate WfFlex(f: FlexDevs) {
    && f.NonEmpty()
    && AscendingStarts(f.metaDev) && AscendingStarts(f.thinMetaDev)
    && AscendingStarts(f.thinDataDev) && AscendingStarts(f.thinMetaDevSpare)
    && Disjoint(f.All()) && Positive(f.All())
  }

  /** The extents cover every sector below `cap` and no other. */
  ghost predicate Tiles(es: seq<Extent>, cap: nat) {
    forall x :: InSome(es, x) <==> 0 <= x < cap
  }

  ghost predicate InSome(es: seq<Extent>, x: int) {
    exists i | 0 <= i < |es| :: es[i].Has(x)
  }

  ghost function Cover(es: seq<Extent>): set<int> {
    if es == [] then {} else Interval(es[0].start, es[0].End()) + Cover(es[1..])
  }

  ghost predicate Between(lo: int, x: int, hi: int) {
    lo <= x < hi
  }

  ghost function Interval(lo: int, hi: int): set<int> {
    set x: int | lo <= x < hi && Between(lo, x, hi)
  }

  lemma {:induction false} IntervalSize(lo: int, hi: int)
    requires lo <= hi
    ensures |Interval(lo, hi)| == hi - lo
    decreases hi - lo
  {
    if lo < hi {
      IntervalSize(lo, hi - 1);
      assert Interval(lo, hi) == Interval(lo, hi - 1) + {hi - 1};
    } else {
      assert Interval(lo, hi) == {};
    }
  }

  lemma {:induction false} CoverIs(es: seq<Extent>, x: int)
    ensures x in Cover(es) <==> InSome(es, x)
  {
    if es != [] {
      CoverIs(es[1..], x);
      if InSome(es[1..], x) {
        var i :| 0 <= i < |es[1..]| && es[1..][i].Has(x);
        assert es[i + 1].Has(x);
      }
      if InSome(es, x) {
        var i :| 0 <= i < |es| && es[i].Has(x);
        assert i == 0 || es[1..][i - 1].Has(x);
      }
    }
  }

  /** Disjoint extents have as many sectors as their lengths add up to. */
  lemma {:induction false} CoverSize(es: seq<Extent>)
    requires Disjoint(es)
    ensures |Cover(es)| == SumLengths(es)
  {
    if es != [] {
      CoverSize(es[1..]);
      IntervalSize(es[0].start, es[0].End());
      forall x | x in Interval(es[0].start, es[0].End()) ensures x !in Cover(es[1..]) {
        CoverIs(es[1..], x);
      }
    }
  }

  lemma SubsetOfSameSize(a: set<int>, b: set<int>)
    requires a <= b && |a| == |b|
    ensures a == b
  {
    assert b == a + (b - a);
  }

  /** No extent of an ascending list starts after the last one. */
  lemma StartsBefore(es: seq<Extent>)
    requires es != [] && AscendingStarts(es)
    ensures Last(es) in es
    ensures forall e | e in es :: e.start <= Last(es).start
  {
  }

  lemma LaterEndsLater(all: seq<Extent>, e: Extent, top: Extent)
    requires Disjoint(all) && Positive(all) && e in all && top in all && e.start <= top.start
    ensures e.End() <= top.End()
  {
  }

  lemma NextStartsLast(a: seq<Extent>, b: seq<Extent>, c: seq<Extent>, d: seq<Extent>) returns (top: Extent)
    requires a != [] && b != [] && c != [] && d != []
    requires AscendingStarts(a) && AscendingStarts(b) && AscendingStarts(c) && AscendingStarts(d)
    ensures top == MaxStart(MaxStart(MaxStart(Last(a), Last(b)), Last(c)), Last(d))
    ensures top in a + b + c + d
    ensures forall e | e in a + b + c + d :: e.start <= top.start
  {
    StartsBefore(a);
    StartsBefore(b);
    StartsBefore(c);
    StartsBefore(d);
    top := MaxStart(MaxStart(MaxStart(Last(a), Last(b)), Last(c)), Last(d));
  }

  /** The next index is where the extent that ends last ends. */
  lemma NextIsMaxEnd(f: FlexDevs)
    requires WfFlex(f)
    ensures exists e :: e in f.All() && e.End() == NextIndex(f)
    ensures forall e | e in f.All() :: e.End() <= NextIndex(f)
  {
    var top := NextStartsLast(f.metaDev, f.thinMetaDev, f.thinDataDev, f.thinMetaDevSpare);
    forall e | e in f.All() ensures e.End() <= top.End() { LaterEndsLater(f.All(), e, top); }
  }

  lemma InBounds(es: seq<Extent>, next: nat)
    requires forall e | e in es :: e.End() <= next
    ensures forall x | InSome(es, x) :: 0 <= x < next
  {
    forall x | InSome(es, x) ensures 0 <= x < next {
      var i :| 0 <= i < |es| && es[i].Has(x);
      assert es[i] in es;
    }
  }

  lemma TilesItsEnd(es: seq<Extent>, next: nat, cap: nat)
    requires Positive(es) && Tiles(es, cap)
    requires (exists e :: e in es && e.End() == next) && (forall e | e in es :: e.End() <= next)
    ensures cap == next
  {
    var e :| e in es && e.End() == next;
    var i :| 0 <= i < |es| && es[i] == e;
    InBounds(es, next);
    assert es[i].Has(next - 1) && InSome(es, next - 1);
    assert InSome(es, cap - 1) <==> 0 <= cap - 1 < cap;
  }

  lemma TilesIsCover(es: seq<Extent>, next: nat)
    ensures Tiles(es, next) <==> Cover(es) == Interval(0, next)
  {
    forall x ensures x in Cover(es) <==> InSome(es, x) { CoverIs(es, x); }
    if Tiles(es, next) {
      assert Cover(es) == Interval(0, next);
    } else {
      var x :| InSome(es, x) != (0 <= x < next);
      assert x in Cover(es) <==> InSome(es, x);
    }
  }

  lemma CoverWithin(es: seq<Extent>, next: nat)
    requires forall e | e in es :: e.End() <= next
    ensures Cover(es) <= Interval(0, next)
  {
    InBounds(es, next);
    forall x ensures x in Cover(es) <==> InSome(es, x) { CoverIs(es, x); }
  }

  lemma TilesIff(es: seq<Extent>, next: nat)
    requires Disjoint(es) && forall e | e in es :: e.End() <= next
    ensures SumLengths(es) == next <==> Tiles(es, next)
  {
    CoverSize(es);
    IntervalSize(0, next);
    CoverWithin(es, next);
    TilesIsCover(es, next);
    if SumLengths(es) == next { SubsetOfSameSize(Cover(es), Interval(0, next)); }
  }

  /**
   The check accepts exactly when the four lists tile the space allocated from the cap device
   without a gap, and the data tier has segments enough to hold it.
   */
  lemma CheckExact(f: FlexDevs, cap: nat, segments: seq<Extent>)
    requires WfFlex(f)
    ensures Check(f, cap, segments) == Consistent <==>
              Tiles(f.All(), cap) && 0 < SumLengths(segments) && cap <= SumLengths(segments)
  {
    NextIsMaxEnd(f);
    TilesIff(f.All(), NextIndex(f));
    if Tiles(f.All(), cap) { TilesItsEnd(f.All(), NextIndex(f), cap); }
  }
}
