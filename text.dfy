/** Strings and small generic helpers shared by the whole model: optional
    values, decimal digits, the character searches of java.lang.String
    (indexOf, lastIndexOf, replace) and order-preserving de-duplication. */
module Text {

  datatype Option<+T> = None | Some(value: T)

  datatype Result<+T, +E> = Ok(value: T) | Err(error: E)

  // ---------------------------------------------------------------------------
  // Decimal digits
  // ---------------------------------------------------------------------------

  predicate IsDigit(c: char) { '0' <= c <= '9' }

  predicate AllDigits(s: string) { forall i :: 0 <= i < |s| ==> IsDigit(s[i]) }

  function DigitChar(d: nat): (c: char)
    requires d < 10
    ensures IsDigit(c) && c as int - '0' as int == d
  {
    ('0' as int + d) as char
  }

  /** The decimal rendering Java gives a non-negative int in string concatenation. */
  function NatToString(n: nat): (s: string)
    ensures |s| > 0 && AllDigits(s)
  {
    if n < 10 then [DigitChar(n)] else NatToString(n / 10) + [DigitChar(n % 10)]
  }

  /** The value of a run of decimal digits (Integer.parseInt without a sign). */
  function DigitsValue(s: string): nat
    requires AllDigits(s)
  {
    if s == [] then 0 else 10 * DigitsValue(s[..|s| - 1]) + (s[|s| - 1] as int - '0' as int)
  }

  /** Parsing a rendered number gives the number back. */
  lemma {:induction false} DigitsValueOfNatToString(n: nat)
    ensures DigitsValue(NatToString(n)) == n
  {
    if n >= 10 {
      var s := NatToString(n);
      assert s[..|s| - 1] == NatToString(n / 10);
      DigitsValueOfNatToString(n / 10);
    }
  }

  /** Distinct numbers render differently. */
  lemma NatToStringInjective(m: nat, n: nat)
    requires NatToString(m) == NatToString(n)
    ensures m == n
  {
    DigitsValueOfNatToString(m);
    DigitsValueOfNatToString(n);
  }

  /** The digits of k modulo 10^w, left-padded with zeros to exactly w characters. */
  function FixedDigits(k: nat, w: nat): (s: string)
    ensures |s| == w && AllDigits(s)
  {
    if w == 0 then [] else FixedDigits(k / 10, w - 1) + [DigitChar(k % 10)]
  }

  function Pow10(w: nat): (p: nat)
    ensures p >= 1
  {
    if w == 0 then 1 else 10 * Pow10(w - 1)
  }

  /** A zero-padded field of width w reads back as k modulo 10^w. */
  lemma {:induction false} DigitsValueOfFixedDigits(k: nat, w: nat)
    ensures DigitsValue(FixedDigits(k, w)) == k % Pow10(w)
  {
    if w > 0 {
      var s := FixedDigits(k, w);
      assert s[..|s| - 1] == FixedDigits(k / 10, w - 1);
      DigitsValueOfFixedDigits(k / 10, w - 1);
      ModDigits(k, Pow10(w - 1));
    }
  }

  lemma ModDigits(k: nat, p: nat)
    requires p >= 1
    ensures k % (10 * p) == 10 * ((k / 10) % p) + k % 10
  {
    var q := k / 10;
    var d := k % 10;
    var a := q / p;
    var b := q % p;
    assert q == p * a + b;
    assert k == 10 * q + d;
    assert k == (10 * p) * a + (10 * b + d) by {
      assert 10 * (p * a) == (10 * p) * a;
    }
    ModUnique(k, 10 * p, a, 10 * b + d);
  }

  lemma ModUnique(k: int, m: int, a: int, r: int)
    requires m > 0 && 0 <= r < m && k == m * a + r
    ensures k % m == r
  {
    var a', r' := k / m, k % m;
    assert k == m * a' + r';
    var t := a - a';
    assert m * t == r' - r by {
      assert m * t == m * a - m * a';
    }
    MulBound(m, t);
    assert t == 0;
  }

  lemma MulBound(m: int, t: int)
    requires m > 0
    ensures t >= 1 ==> m * t >= m
    ensures t <= -1 ==> m * t <= -m
  {
    if t >= 1 {
      assert m * t == m + m * (t - 1);
    } else if t <= -1 {
      assert m * t == -m + m * (t + 1);
    }
  }

  // ---------------------------------------------------------------------------
  // Searching
  // ---------------------------------------------------------------------------

  /** String.lastIndexOf(char): the last position holding c, or -1. */
  function LastIndexOf(s: string, c: char): (k: int)
    ensures -1 <= k < |s|
    ensures k >= 0 ==> s[k] == c
    ensures forall j :: k < j < |s| ==> s[j] != c
  {
    if s == [] then -1
    else if s[|s| - 1] == c then |s| - 1
    else LastIndexOf(s[..|s| - 1], c)
  }

  /** String.indexOf(char, from): the first position at or after from holding c, or -1. */
  function IndexOfFrom(s: string, c: char, from: nat): (k: int)
    ensures k == -1 || (from <= k < |s| && s[k] == c)
    ensures forall j :: from <= j < |s| && (k == -1 || j < k) ==> s[j] != c
    decreases |s| - from
  {
    if from >= |s| then -1
    else if s[from] == c then from
    else IndexOfFrom(s, c, from + 1)
  }

  function IndexOf(s: string, c: char): int
  {
    IndexOfFrom(s, c, 0)
  }

  /** The last occurrence of c is found in a suffix free of c. */
  lemma {:induction false} LastIndexOfBeforeSuffix(a: string, c: char, b: string)
    requires c !in b
    ensures LastIndexOf(a + [c] + b, c) == |a|
  {
    var s := a + [c] + b;
    if b == [] {
      assert s[|s| - 1] == c;
    } else {
      var b' := b[..|b| - 1];
      assert s[|s| - 1] == b[|b| - 1];
      assert s[..|s| - 1] == a + [c] + b';
      assert c !in b' by { assert forall j :: 0 <= j < |b'| ==> b'[j] == b[j]; }
      LastIndexOfBeforeSuffix(a, c, b');
    }
  }

  /** The first occurrence of c is found after a prefix free of c. */
  lemma IndexOfAfterPrefix(a: string, c: char, b: string)
    requires c !in a
    ensures IndexOf(a + [c] + b, c) == |a|
  {
    var s := a + [c] + b;
    assert s[|a|] == c;
    assert forall j :: 0 <= j < |a| ==> s[j] == a[j];
  }

  predicate StartsAt(s: string, pat: string, i: nat)
  {
    i + |pat| <= |s| && s[i..i + |pat|] == pat
  }

  predicate EndsWith(s: string, suffix: string)
  {
    |suffix| <= |s| && s[|s| - |suffix|..] == suffix
  }

  /** String.replace(CharSequence, CharSequence): every occurrence of pat,
      scanned left to right without overlap, becomes rep. */
  function ReplaceAll(s: string, pat: string, rep: string): string
    requires |pat| > 0
    decreases |s|
  {
    if |s| < |pat| then s
    else if s[..|pat|] == pat then rep + ReplaceAll(s[|pat|..], pat, rep)
    else [s[0]] + ReplaceAll(s[1..], pat, rep)
  }

  /** A string ending in pat and with no earlier occurrence of pat has just
      that suffix replaced. */
  lemma {:induction false} ReplaceSuffix(a: string, pat: string, rep: string)
    requires |pat| > 0
    requires forall i :: 0 <= i < |a| ==> !StartsAt(a + pat, pat, i)
    ensures ReplaceAll(a + pat, pat, rep) == a + rep
  {
    var s := a + pat;
    if a == [] {
      assert s == pat;
      assert s[|pat|..] == [];
    } else {
      assert !StartsAt(s, pat, 0);
      assert s[1..] == a[1..] + pat;
      forall i | 0 <= i < |a[1..]|
        ensures !StartsAt(a[1..] + pat, pat, i)
      {
        assert !StartsAt(s, pat, i + 1);
        assert (a[1..] + pat)[i..i + |pat|] == s[i + 1..i + 1 + |pat|];
      }
      ReplaceSuffix(a[1..], pat, rep);
      assert [a[0]] + (a[1..] + rep) == a + rep;
    }
  }

  // ---------------------------------------------------------------------------
  // Order-preserving de-duplication (Stream.distinct)
  // ---------------------------------------------------------------------------

  /** The position of the first occurrence of x in xs. */
  function FirstIndex<T(==)>(xs: seq<T>, x: T): (k: nat)
    requires x in xs
    ensures k < |xs| && xs[k] == x
    ensures forall j :: 0 <= j < k ==> xs[j] != x
  {
    if xs[0] == x then 0 else 1 + FirstIndex(xs[1..], x)
  }

  /** The elements of xs, each kept at its first occurrence. */
  function Distinct<T(==)>(xs: seq<T>): seq<T>
  {
    if xs == [] then []
    else
      var d := Distinct(xs[..|xs| - 1]);
      if xs[|xs| - 1] in d then d else d + [xs[|xs| - 1]]
  }

  predicate NoDuplicates<T(==)>(xs: seq<T>)
  {
    forall i, j :: 0 <= i < j < |xs| ==> xs[i] != xs[j]
  }

  /** Distinct keeps every element exactly once, in first-occurrence order. */
  lemma {:induction false} DistinctSpec<T>(xs: seq<T>)
    ensures NoDuplicates(Distinct(xs))
    ensures forall x :: x in Distinct(xs) <==> x in xs
    ensures forall i, j :: 0 <= i < j < |Distinct(xs)| ==>
              FirstIndex(xs, Distinct(xs)[i]) < FirstIndex(xs, Distinct(xs)[j])
  {
    if xs != [] {
      var init := xs[..|xs| - 1];
      var y := xs[|xs| - 1];
      assert xs == init + [y];
      DistinctSpec(init);
      var d := Distinct(init);
      forall x | x in init
        ensures FirstIndex(xs, x) == FirstIndex(init, x)
      {
        FirstIndexPrefix(init, y, x);
      }
      if y !in d {
        assert y !in init;
        FirstIndexNew(init, y);
        var r := d + [y];
        forall i, j | 0 <= i < j < |r|
          ensures FirstIndex(xs, r[i]) < FirstIndex(xs, r[j])
        {
          assert r[i] == d[i] && d[i] in d;
          if j < |d| {
            assert r[j] == d[j] && d[j] in d;
          }
        }
      }
    }
  }

  lemma FirstIndexPrefix<T>(init: seq<T>, y: T, x: T)
    requires x in init
    ensures FirstIndex(init + [y], x) == FirstIndex(init, x)
  {
    var k := FirstIndex(init, x);
    var s := init + [y];
    assert s[k] == x;
    assert forall j :: 0 <= j < |init| ==> s[j] == init[j];
  }

  lemma FirstIndexNew<T>(init: seq<T>, y: T)
    requires y !in init
    ensures FirstIndex(init + [y], y) == |init|
  {
    var s := init + [y];
    assert s[|init|] == y;
    assert forall j :: 0 <= j < |init| ==> s[j] == init[j];
  }
}
