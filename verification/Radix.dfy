/**
 Positional numerals in an arbitrary base, most significant digit first.

 Buffers read big-endian integers (base 256), IPv6 text is eight base-65536 groups
 printed in base 16, and dotted quads and versions are printed in base 10. All of
 them are the same numeral system, so the laws are proved once here.
 */
module Radix {

  function Pow(b: nat, n: nat): nat
  {
    if n == 0 then 1 else b * Pow(b, n - 1)
  }

  /** The number a digit string denotes. */
  function Value(b: nat, digits: seq<nat>): nat
  {
    if digits == [] then 0 else Value(b, digits[..|digits| - 1]) * b + digits[|digits| - 1]
  }

  /** The lowest `n` digits of `v`. */
  function Digits(b: nat, v: nat, n: nat): (digits: seq<nat>)
    requires b >= 2
    ensures |digits| == n
    ensures forall i :: 0 <= i < n ==> digits[i] < b
    decreases n
  {
    if n == 0 then [] else Digits(b, v / b, n - 1) + [v % b]
  }

  ghost predicate AreDigits(b: nat, digits: seq<nat>)
  {
    forall i :: 0 <= i < |digits| ==> digits[i] < b
  }

  lemma PowPositive(b: nat, n: nat)
    requires b >= 1
    ensures Pow(b, n) >= 1
  {
    if n > 0 {
      PowPositive(b, n - 1);
      MulGrows(b, Pow(b, n - 1));
    }
  }

  lemma MulGrows(a: nat, b: nat)
    requires a >= 1 && b >= 1
    ensures a * b >= b && a * b >= a
  {
    assert (a - 1) * b >= 0;
    assert a * (b - 1) >= 0;
  }

  lemma {:induction false} PowAdd(b: nat, m: nat, n: nat)
    ensures Pow(b, m + n) == Pow(b, m) * Pow(b, n)
  {
    if m > 0 {
      PowAdd(b, m - 1, n);
      MulRegroup(b, Pow(b, m - 1), Pow(b, n));
    }
  }

  lemma MulRegroup(b: nat, x: nat, y: nat)
    ensures b * (x * y) == (b * x) * y
  {
  }

  lemma MulMono(a: nat, c: nat, b: nat)
    requires a <= c
    ensures a * b <= c * b
  {
    assert (c - a) * b >= 0;
  }

  lemma QuotientUnique(q: nat, r: nat, d: nat, s: nat, b: nat)
    requires r < b && s < b && q * b + r == d * b + s
    ensures q == d && r == s
  {
    if d > q {
      MulMono(q + 1, d, b);
    } else if d < q {
      MulMono(d + 1, q, b);
    }
  }

  /** Division with remainder is unique. */
  lemma DivModUnique(q: nat, b: nat, r: nat)
    requires r < b
    ensures (q * b + r) / b == q && (q * b + r) % b == r
  {
    var x := q * b + r;
    var d, s := x / b, x % b;
    assert d * b + s == x;
    QuotientUnique(q, r, d, s, b);
  }

  lemma {:induction false} ValueBound(b: nat, digits: seq<nat>)
    requires AreDigits(b, digits)
    ensures Value(b, digits) < Pow(b, |digits|)
  {
    if digits != [] {
      var init := digits[..|digits| - 1];
      ValueBound(b, init);
      var x, p, last := Value(b, init), Pow(b, |init|), digits[|digits| - 1];
      MulMono(x + 1, p, b);
      assert Value(b, digits) == x * b + last;
      assert x * b + last < (x + 1) * b;
    }
  }

  lemma DivModSplit(b: nat, v: nat)
    requires b >= 1
    ensures (v / b) * b + v % b == v
  {
  }

  lemma ValueSnoc(b: nat, digits: seq<nat>, q: nat, d: nat)
    requires Value(b, digits) == q
    ensures Value(b, digits + [d]) == q * b + d
  {
    assert (digits + [d])[..|digits|] == digits;
  }

  lemma QuotientBound(b: nat, v: nat, n: nat)
    requires b >= 2 && n >= 1 && v < Pow(b, n)
    ensures v / b < Pow(b, n - 1)
  {
    var q := v / b;
    assert v == q * b + v % b;
    if q >= Pow(b, n - 1) {
      MulMono(Pow(b, n - 1), q, b);
    }
  }

  /** Printing then reading gives the number back, as long as it fits the width. */
  lemma {:induction false} ValueOfDigits(b: nat, v: nat, n: nat)
    requires b >= 2 && v < Pow(b, n)
    ensures Value(b, Digits(b, v, n)) == v
    decreases n
  {
    if n > 0 {
      assert Value(b, Digits(b, v / b, n - 1)) == v / b by {
        QuotientBound(b, v, n);
        ValueOfDigits(b, v / b, n - 1);
      }
      DivModSplit(b, v);
      ValueSnoc(b, Digits(b, v / b, n - 1), v / b, v % b);
    }
  }

  /** Reading then printing at the same width gives the digits back. */
  lemma {:induction false} DigitsOfValue(b: nat, digits: seq<nat>)
    requires b >= 2 && AreDigits(b, digits)
    ensures Digits(b, Value(b, digits), |digits|) == digits
  {
    if digits != [] {
      var init, last := digits[..|digits| - 1], digits[|digits| - 1];
      DivModUnique(Value(b, init), b, last);
      DigitsOfValue(b, init);
      assert init + [last] == digits;
    }
  }

  /** Equal-length digit strings denoting one number are one string. */
  lemma ValueInjective(b: nat, xs: seq<nat>, ys: seq<nat>)
    requires b >= 2 && AreDigits(b, xs) && AreDigits(b, ys) && |xs| == |ys|
    requires Value(b, xs) == Value(b, ys)
    ensures xs == ys
  {
    DigitsOfValue(b, xs);
    DigitsOfValue(b, ys);
  }

  lemma {:induction false} ValueConcat(b: nat, xs: seq<nat>, ys: seq<nat>)
    ensures Value(b, xs + ys) == Value(b, xs) * Pow(b, |ys|) + Value(b, ys)
  {
    if ys == [] {
      assert xs + ys == xs;
    } else {
      var init, last := ys[..|ys| - 1], ys[|ys| - 1];
      assert (xs + ys)[..|xs + ys| - 1] == xs + init;
      ValueConcat(b, xs, init);
      var p, x, y := Pow(b, |init|), Value(b, xs), Value(b, init);
      assert Value(b, xs + ys) == (x * p + y) * b + last;
      assert (x * p + y) * b == x * (b * p) + y * b;
    }
  }

  lemma NoHighPart(v: nat, h: nat, l: nat, p: nat)
    requires v == h * p + l && v < p
    ensures v == l
  {
    if h > 0 { MulMono(1, h, p); }
  }

  /** The low digits of a number that fits them are the number. */
  lemma LowDigits(b: nat, hi: seq<nat>, lo: seq<nat>)
    ensures Value(b, hi + lo) < Pow(b, |lo|) ==> Value(b, lo) == Value(b, hi + lo)
  {
    ValueConcat(b, hi, lo);
    var v, h, l, p := Value(b, hi + lo), Value(b, hi), Value(b, lo), Pow(b, |lo|);
    if v < p { NoHighPart(v, h, l, p); }
  }

  /** Leading zeros do not change a number: reduced-size and padded fields agree. */
  lemma LeadingZeros(b: nat, n: nat, digits: seq<nat>)
    ensures Value(b, seq(n, _ => 0) + digits) == Value(b, digits)
  {
    ValueConcat(b, seq(n, _ => 0), digits);
    ValueOfZeros(b, n);
  }

  lemma {:induction false} ValueOfZeros(b: nat, n: nat)
    ensures Value(b, seq(n, _ => 0)) == 0
  {
    if n > 0 {
      assert seq(n, _ => 0)[..n - 1] == seq(n - 1, _ => 0);
      ValueOfZeros(b, n - 1);
    }
  }

  /** The shortest digit string of a number; zero is one digit. */
  function MinDigits(b: nat, v: nat): (digits: seq<nat>)
    requires b >= 2
    ensures |digits| >= 1
    ensures forall i :: 0 <= i < |digits| ==> digits[i] < b
    ensures |digits| > 1 ==> digits[0] != 0
    decreases v
  {
    if v < b then [v] else
      DivShrinks(v, b);
      MinDigits(b, v / b) + [v % b]
  }

  lemma DivShrinks(v: nat, b: nat)
    requires b >= 2 && v >= b
    ensures 0 < v / b < v
  {
    var q, r := v / b, v % b;
    assert v == q * b + r;
    if q == 0 {
      assert false;
    }
    MulMono(2, b, q);
  }

  lemma {:induction false} ValueOfMinDigits(b: nat, v: nat)
    requires b >= 2
    ensures Value(b, MinDigits(b, v)) == v
    decreases v
  {
    if v < b {
      assert Value(b, []) == 0;
    } else {
      DivShrinks(v, b);
      DivModSplit(b, v);
      ValueOfMinDigits(b, v / b);
      ValueSnoc(b, MinDigits(b, v / b), v / b, v % b);
    }
  }

  /** A digit string without a leading zero is the shortest one. */
  lemma {:induction false} MinDigitsOfValue(b: nat, digits: seq<nat>)
    requires b >= 2 && AreDigits(b, digits) && |digits| >= 1
    requires |digits| > 1 ==> digits[0] != 0
    ensures MinDigits(b, Value(b, digits)) == digits
  {
    var init, last := digits[..|digits| - 1], digits[|digits| - 1];
    if |digits| == 1 {
      assert Value(b, init) == 0;
    } else {
      MinDigitsOfValue(b, init);
      ValuePositive(b, init);
      DivModUnique(Value(b, init), b, last);
      MulGrows(Value(b, init), b);
      assert init + [last] == digits;
    }
  }

  lemma {:induction false} ValuePositive(b: nat, digits: seq<nat>)
    requires b >= 2 && |digits| >= 1 && digits[0] != 0
    ensures Value(b, digits) > 0
  {
    if |digits| > 1 {
      ValuePositive(b, digits[..|digits| - 1]);
      MulGrows(Value(b, digits[..|digits| - 1]), b);
    }
  }

  lemma PowMonotone(b: nat, m: nat, n: nat)
    requires b >= 1 && m <= n
    ensures Pow(b, m) <= Pow(b, n)
    decreases n
  {
    if m < n {
      PowMonotone(b, m, n - 1);
      PowPositive(b, n - 1);
      MulGrows(b, Pow(b, n - 1));
    }
  }

  lemma {:induction false} MinDigitsLength(b: nat, v: nat, n: nat)
    requires b >= 2 && n >= 1 && v < Pow(b, n)
    ensures |MinDigits(b, v)| <= n
    decreases n
  {
    if v >= b {
      DivShrinks(v, b);
      assert Pow(b, 0) == 1;
      QuotientBound(b, v, n);
      MinDigitsLength(b, v / b, n - 1);
    }
  }
}
