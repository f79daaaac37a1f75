/** Strings as the Go code sees them: sequences of characters compared
    lexicographically.  A Go byte string is a string all of whose characters are
    below 256; nothing here depends on that bound. */
module Text {

  // ---- order -------------------------------------------------------------

  /** Go's `a < b` on strings. */
  predicate Less(a: string, b: string) {
    if b == [] then false
    else if a == [] then true
    else if a[0] != b[0] then a[0] < b[0]
    else Less(a[1..], b[1..])
  }

  lemma {:induction false} LessTotal(a: string, b: string)
    ensures a == b || Less(a, b) || Less(b, a)
  {
    if a != [] && b != [] && a[0] == b[0] {
      LessTotal(a[1..], b[1..]);
      assert a == [a[0]] + a[1..] && b == [b[0]] + b[1..];
    }
  }

  lemma {:induction false} LessTransitive(a: string, b: string, c: string)
    requires Less(a, b) && Less(b, c)
    ensures Less(a, c)
  {
    if a != [] && a[0] == b[0] && b[0] == c[0] {
      LessTransitive(a[1..], b[1..], c[1..]);
    }
  }

  lemma {:induction false} LessIrreflexive(a: string)
    ensures !Less(a, a)
  {
    if a != [] {
      LessIrreflexive(a[1..]);
    }
  }

  lemma LessAsymmetric(a: string, b: string)
    requires Less(a, b)
    ensures !Less(b, a) && a != b
  {
    if Less(b, a) {
      LessTransitive(a, b, a);
    }
    LessIrreflexive(a);
  }

  /** a comes before b if b goes on where a ends, or at the first place where they differ a
      has the smaller character. */
  lemma {:induction false} LessMeaning(a: string, b: string)
    ensures Less(a, b) <==>
      exists k :: 0 <= k <= |a| && k < |b| && a[..k] == b[..k] && (k == |a| || a[k] < b[k])
  {
    if b == [] {
    } else if a == [] {
      assert a[..0] == b[..0];
    } else if a[0] != b[0] {
      assert a[..0] == b[..0];
      if k :| 0 <= k <= |a| && k < |b| && a[..k] == b[..k] && (k == |a| || a[k] < b[k]) {
        if k > 0 { assert a[..k][0] == b[..k][0]; }
      }
    } else {
      LessMeaning(a[1..], b[1..]);
      if k :| 0 <= k <= |a| && k < |b| && a[..k] == b[..k] && (k == |a| || a[k] < b[k]) {
        assert k > 0 && a[1..][..k - 1] == a[..k][1..] && b[1..][..k - 1] == b[..k][1..];
      }
      if k :| 0 <= k <= |a[1..]| && k < |b[1..]| && a[1..][..k] == b[1..][..k] && (k == |a[1..]| || a[1..][k] < b[1..][k]) {
        assert a[..k + 1] == [a[0]] + a[1..][..k] && b[..k + 1] == [b[0]] + b[1..][..k];
      }
    }
  }

  // ---- regrouping concatenations -------------------------------------------

  lemma Regroup<T>(a: seq<T>, b: seq<T>, c: seq<T>)
    ensures a + b + c == a + (b + c)
  {
  }

  lemma RegroupFour<T>(a: seq<T>, b: seq<T>, c: seq<T>, d: seq<T>)
    ensures a + b + c + d == a + (b + (c + d))
  {
    Regroup(a, b, c);
    Regroup(a, b + c, d);
    Regroup(b, c, d);
  }

  lemma RegroupFive<T>(a: seq<T>, b: seq<T>, c: seq<T>, d: seq<T>, e: seq<T>)
    ensures a + b + c + d + e == a + (b + (c + (d + e)))
  {
    RegroupFour(a, b, c, d);
    Regroup(a, b + (c + d), e);
    Regroup(b, c + d, e);
    Regroup(c, d, e);
  }

  // ---- runs of characters ------------------------------------------------

  /** Length of the longest prefix of t whose characters all satisfy p. */
  function Run(t: string, p: char -> bool): (n: nat)
    ensures n <= |t|
    ensures forall i :: 0 <= i < n ==> p(t[i])
    ensures n < |t| ==> !p(t[n])
  {
    if t == [] || !p(t[0]) then 0 else 1 + Run(t[1..], p)
  }

  predicate All(t: string, p: char -> bool) {
    forall i :: 0 <= i < |t| ==> p(t[i])
  }

  /** The run stops exactly where the text stops satisfying p. */
  lemma RunIs(t: string, p: char -> bool, n: nat)
    requires n <= |t| && (forall i :: 0 <= i < n ==> p(t[i]))
    requires n < |t| ==> !p(t[n])
    ensures Run(t, p) == n
  {
    if n < |t| && 0 < n {
      RunIs(t[1..], p, n - 1);
    } else if n == |t| && t != [] {
      RunIs(t[1..], p, n - 1);
    }
  }

  lemma RunAppend(a: string, b: string, p: char -> bool)
    requires All(a, p)
    requires b == [] || !p(b[0])
    ensures Run(a + b, p) == |a|
    ensures (a + b)[..|a|] == a && (a + b)[|a|..] == b
  {
    RunIs(a + b, p, |a|);
  }

  predicate IsDigit(c: char) {
    '0' <= c <= '9'
  }

  // ---- decimal numerals --------------------------------------------------

  function Digit(d: nat): (c: char)
    requires d < 10
    ensures IsDigit(c)
  {
    ('0' as int + d) as char
  }

  function DigitValue(c: char): (d: nat)
    requires IsDigit(c)
    ensures d < 10 && Digit(d) == c
  {
    c as int - '0' as int
  }

  /** The decimal numeral of n, without leading zeros. */
  function Decimal(n: nat): (t: string)
    ensures t != [] && All(t, IsDigit)
  {
    if n < 10 then [Digit(n)] else Decimal(n / 10) + [Digit(n % 10)]
  }

  /** The number a digit string denotes, leading zeros allowed. */
  function DecimalValue(t: string): nat
    requires All(t, IsDigit)
  {
    if t == [] then 0
    else DecimalValue(t[..|t| - 1]) * 10 + DigitValue(t[|t| - 1])
  }

  lemma {:induction false} DecimalRoundTrip(n: nat)
    ensures DecimalValue(Decimal(n)) == n
  {
    if n >= 10 {
      var t := Decimal(n);
      assert t[..|t| - 1] == Decimal(n / 10) && t[|t| - 1] == Digit(n % 10);
      DecimalRoundTrip(n / 10);
    }
  }

  /** strconv.FormatInt(n, 10). */
  function IntText(n: int): string {
    if n < 0 then "-" + Decimal(-n) else Decimal(n)
  }

  // ---- decimal fractions -----------------------------------------------------

  function Pow10(w: nat): (p: nat)
    ensures p > 0
  {
    if w == 0 then 1 else 10 * Pow10(w - 1)
  }

  /** The digits of f / 10^w behind the point, without trailing zeros. */
  function FractionText(f: nat, w: nat): (t: string)
    requires f < Pow10(w)
    ensures |t| <= w && All(t, IsDigit)
    ensures f > 0 ==> t != ""
  {
    if f == 0 then "" else
      FirstDigit(f, w);
      [Digit(f / Pow10(w - 1))] + FractionText(f % Pow10(w - 1), w - 1)
  }

  lemma FirstDigit(f: nat, w: nat)
    requires 0 < f < Pow10(w)
    ensures w > 0 && f / Pow10(w - 1) < 10
  {
    var p := Pow10(w - 1);
    assert f < 10 * p;
    assert f == p * (f / p) + f % p;
  }

  /** What up to w digits behind the point are worth, in units of 1/10^w. */
  function FractionValue(t: string, w: nat): nat
    requires All(t, IsDigit) && |t| <= w
  {
    if t == "" then 0 else DigitValue(t[0]) * Pow10(w - 1) + FractionValue(t[1..], w - 1)
  }

  lemma {:induction false} FractionCons(d: nat, rest: string, w: nat)
    requires d < 10 && All(rest, IsDigit) && |rest| < w
    ensures All([Digit(d)] + rest, IsDigit)
    ensures FractionValue([Digit(d)] + rest, w) == d * Pow10(w - 1) + FractionValue(rest, w - 1)
  {
    var t := [Digit(d)] + rest;
    assert t[1..] == rest;
  }

  lemma Division(f: nat, p: nat)
    requires p > 0
    ensures f == f / p * p + f % p && f % p < p
  {
  }

  lemma {:induction false} FractionStep(f: nat, q: nat, r: nat, w: nat)
    requires 0 < f < Pow10(w) && q < 10 && r < Pow10(w - 1)
    requires f == q * Pow10(w - 1) + r
    requires FractionText(f, w) == [Digit(q)] + FractionText(r, w - 1)
    requires FractionValue(FractionText(r, w - 1), w - 1) == r
    ensures FractionValue(FractionText(f, w), w) == f
  {
    FractionCons(q, FractionText(r, w - 1), w);
  }

  lemma {:induction false} FractionRoundTrip(f: nat, w: nat)
    requires f < Pow10(w)
    ensures FractionValue(FractionText(f, w), w) == f
  {
    if f > 0 {
      FirstDigit(f, w);
      var p := Pow10(w - 1);
      Division(f, p);
      FractionRoundTrip(f % p, w - 1);
      FractionStep(f, f / p, f % p, w);
    }
  }

  // ---- substrings --------------------------------------------------------

  predicate HasAt(t: string, p: string, i: nat) {
    i + |p| <= |t| && t[i..i + |p|] == p
  }

  /** strings.Contains */
  predicate Contains(t: string, p: string) {
    exists i: nat :: i <= |t| && HasAt(t, p, i)
  }

  /** strings.Index, with None for -1. */
  function IndexFrom(t: string, p: string, from: nat): (r: int)
    requires from <= |t|
    ensures r >= 0 ==> from <= r && HasAt(t, p, r) && (forall j: nat :: from <= j < r ==> !HasAt(t, p, j))
    ensures r < 0 ==> r == -1 && forall j: nat :: from <= j <= |t| ==> !HasAt(t, p, j)
    decreases |t| - from
  {
    if HasAt(t, p, from) then from
    else if from == |t| then -1
    else IndexFrom(t, p, from + 1)
  }

  function Index(t: string, p: string): (r: int)
    ensures r >= 0 ==> HasAt(t, p, r) && (forall j: nat :: j < r ==> !HasAt(t, p, j))
    ensures r < 0 ==> r == -1 && !Contains(t, p)
  {
    IndexFrom(t, p, 0)
  }

  predicate HasPrefix(t: string, p: string) {
    |p| <= |t| && t[..|p|] == p
  }

  predicate HasSuffix(t: string, p: string) {
    |p| <= |t| && t[|t| - |p|..] == p
  }

  /** strings.Repeat of one character. */
  function Repeat(c: char, n: nat): (t: string)
    ensures |t| == n && forall i :: 0 <= i < n ==> t[i] == c
  {
    seq(n, _ => c)
  }
}
