/** Types and sequence facts shared by every component. */
module Prelude {

  const U64_MAX: int := 0xFFFF_FFFF_FFFF_FFFF

  /** A sector count or sector offset: the source's 64-bit unsigned `Sectors`. */
  type Sectors = x: int | 0 <= x <= 0xFFFF_FFFF_FFFF_FFFF

  datatype Option<+T> = None | Some(value: T)

  function Min(a: int, b: int): (m: int)
    ensures m <= a && m <= b && (m == a || m == b)
  {
    if a <= b then a else b
  }

  /** Strictly increasing. */
  ghost predicate Ascending(s: seq<int>) {
    forall i, j | 0 <= i < j < |s| :: s[i] < s[j]
  }

  ghost predicate NoDup<T>(s: seq<T>) {
    forall i, j | 0 <= i < j < |s| :: s[i] != s[j]
  }

  /** Strictly increasing sequences with the same elements are the same sequence. */
  lemma {:induction false} AscendingUnique(a: seq<int>, b: seq<int>)
    requires Ascending(a) && Ascending(b)
    requires forall x :: x in a <==> x in b
    ensures a == b
  {
    var head := if |b| == 0 then 0 else b[0];
    assert head in a <==> head in b;
    if a == [] {
    } else {
      assert a[0] in a && b[0] in b;
      assert a[0] in b && b[0] in a;
      assert a[0] == b[0];
      assert a == [a[0]] + a[1..] && b == [b[0]] + b[1..];
      forall x ensures x in a[1..] <==> x in b[1..] {
        if x in a[1..] { assert x in a; assert x > a[0]; }
        if x in b[1..] { assert x in b; assert x > b[0]; }
      }
      AscendingUnique(a[1..], b[1..]);
    }
  }

  lemma AscendingConcat(a: seq<int>, b: seq<int>)
    requires Ascending(a) && Ascending(b)
    requires forall x, y | x in a && y in b :: x < y
    ensures Ascending(a + b)
  {
    forall i, j | 0 <= i < j < |a + b|
      ensures (a + b)[i] < (a + b)[j]
    {
      if i < |a| <= j { assert a[i] in a && b[j - |a|] in b; }
    }
  }

  lemma Assoc<T>(a: seq<T>, b: seq<T>, c: seq<T>)
    ensures a + (b + c) == (a + b) + c
  {
  }

  ghost predicate IsMin(s: set<Sectors>, m: Sectors) {
    m in s && forall j | j in s :: m <= j
  }

  /** The least element of a non-empty set. */
  function SetMin(s: set<Sectors>): (m: Sectors)
    requires s != {}
    ensures IsMin(s, m)
  {
    MinExists(s);
    var m :| m in s && forall j | j in s :: m <= j;
    m
  }

  lemma {:induction false} MinWitness(s: set<Sectors>) returns (m: Sectors)
    requires s != {}
    ensures IsMin(s, m)
    decreases |s|
  {
    var k :| k in s;
    m := k;
    var rest := s - {k};
    if rest != {} {
      var low := MinWitness(rest);
      if low < k { m := low; }
      forall j | j in s ensures m <= j {
        if j != k { assert j in rest; }
      }
    }
  }

  lemma MinExists(s: set<Sectors>)
    requires s != {}
    ensures exists m :: m in s && forall j | j in s :: m <= j
  {
    var m := MinWitness(s);
    assert IsMin(s, m);
  }

  /** `ks` lists the elements of `s` in increasing order. */
  ghost predicate SortedAs(ks: seq<Sectors>, s: set<Sectors>) {
    && (forall k :: k in ks <==> k in s)
    && (forall i, j | 0 <= i < j < |ks| :: ks[i] < ks[j])
  }

  /** The keys in the order in which an ordered map is iterated. */
  function SortedKeys(s: set<Sectors>): (ks: seq<Sectors>)
    ensures SortedAs(ks, s)
    decreases |s|
  {
    if s == {} then [] else
      var m := SetMin(s);
      var rest := SortedKeys(s - {m});
      assert forall k | k in s - {m} :: m < k;
      [m] + rest
  }

  // ----- arithmetic

  lemma DivUnique(t: nat, q: nat, m: nat)
    requires m > 0 && q * m <= t < q * m + m
    ensures t / m == q
  {
    var d := t / m;
    assert t == d * m + t % m;
    if d + 1 <= q { MulLe(d + 1, q, m); }
    if q + 1 <= d { MulLe(q + 1, d, m); }
  }

  lemma MulLe(a: nat, b: nat, m: nat)
    requires a <= b
    ensures a * m <= b * m
  {
  }
}
