/** Floating point numbers as their bits, converted as machines do that follow IEEE 754: to the nearest, to
    the even one of two, and NaNs made quiet. */
module Reals {
  import opened Words

  function TwoTo(k: nat): (n: nat)
    ensures n > 0
  {
    if k == 0 then 1 else 2 * TwoTo(k - 1)
  }

  /** The sign, the exponent and the fraction of a double. */
  datatype Parts = Parts(sign: nat, exponent: nat, fraction: nat) {
    predicate Valid() { sign < 2 && exponent < 2048 && fraction < 0x10_0000_0000_0000 }
  }

  function PartsOf(v: LongLong): (p: Parts)
    ensures p.Valid()
  {
    Parts(v.hi / 0x8000_0000, v.hi / 0x10_0000 % 0x800, v.hi % 0x10_0000 * 0x1_0000_0000 + v.low)
  }

  function BitsOf(p: Parts): LongLong
    requires p.Valid()
  {
    LongLong(p.fraction % 0x1_0000_0000, p.sign * 0x8000_0000 + p.exponent * 0x10_0000 + p.fraction / 0x1_0000_0000)
  }

  lemma PartsOfBits(p: Parts)
    requires p.Valid()
    ensures PartsOf(BitsOf(p)) == p
  {
    var top, low := p.fraction / 0x1_0000_0000, p.fraction % 0x1_0000_0000;
    var upper := p.sign * 0x800 + p.exponent;
    assert p.fraction == top * 0x1_0000_0000 + low && top < 0x10_0000;
    RemainderUnique(upper * 0x10_0000 + top, 0x10_0000, upper, top);
    RemainderUnique(upper, 0x800, p.sign, p.exponent);
    RemainderUnique(upper * 0x10_0000 + top, 0x8000_0000, p.sign, p.exponent * 0x10_0000 + top);
  }

  /** The place of the highest bit. */
  function Log(f: nat): (k: nat)
    requires f > 0
    ensures TwoTo(k) <= f < TwoTo(k + 1)
  {
    if f == 1 then 0 else 1 + Log(f / 2)
  }

  function Quiet(fraction: nat): nat { if fraction < 0x40_0000 then fraction + 0x40_0000 else fraction }

  /** The fraction behind the highest bit, at the top of 52 bits. */
  function Fraction(f: nat, k: nat): nat
    requires TwoTo(k) <= f && k <= 52
  {
    (f - TwoTo(k)) * TwoTo(52 - k)
  }

  /** The exponent and fraction of the double for a float of this exponent and fraction. */
  function WideParts(sign: nat, exponent: nat, f: nat): Parts
    requires f < 0x80_0000
  {
    if exponent == 0xFF then Parts(sign, 2047, if f == 0 then 0 else Quiet(f) * 0x2000_0000)
    else if exponent > 0 then Parts(sign, exponent + 896, f * 0x2000_0000)
    else if f == 0 then Parts(sign, 0, 0)
    else
      var k := Log(f);
      SmallLog(f, k);
      Parts(sign, k + 874, Fraction(f, k))
  }

  function WidenParts(w: u32): Parts { WideParts(w / 0x8000_0000, w / 0x80_0000 % 0x100, w % 0x80_0000) }

  lemma SmallLog(f: nat, k: nat)
    requires TwoTo(k) <= f < 0x80_0000
    ensures k <= 22
  {
    TwoTo52();
    if k > 22 { TwoToGrows(23, k); }
  }

  /** A float as a double. */
  function Widen(w: u32): LongLong {
    WidenValid(w);
    BitsOf(WidenParts(w))
  }

  /** `m / d`, to the nearest. */
  function Rounded(m: nat, d: nat): nat
    requires d > 0
  {
    var q, r := m / d, m % d;
    if 2 * r < d || (2 * r == d && q % 2 == 0) then q else q + 1
  }

  /** The exponent and fraction of the float nearest to a double of this exponent and fraction. */
  function NarrowParts(exponent: nat, fraction: nat): nat
  {
    var m := 0x10_0000_0000_0000 + fraction;
    if exponent == 2047 then 0x7F80_0000 + if fraction == 0 then 0 else Quiet(fraction / 0x2000_0000)
    else if exponent >= 897 then
      var bits := (exponent - 897) * 0x80_0000 + Rounded(m, 0x2000_0000);
      if bits < 0x7F80_0000 then bits else 0x7F80_0000
    else if exponent >= 872 then Rounded(m, 0x2000_0000 * TwoTo(897 - exponent))
    else 0
  }

  /** A double as the nearest float. */
  function Narrow(v: LongLong): u32 {
    var p := PartsOf(v);
    NarrowFits(p.exponent, p.fraction);
    p.sign * 0x8000_0000 + NarrowParts(p.exponent, p.fraction)
  }

  lemma RoundedLess(m: nat, d: nat, n: nat)
    requires d > 0 && m <= n * d
    ensures Rounded(m, d) <= n
  {
    if m / d >= n {
      assert m / d * d >= n * d;
      assert m % d == 0;
    }
  }

  lemma RoundedExact(q: nat, d: nat)
    requires d > 0
    ensures Rounded(q * d, d) == q
  {
    RemainderUnique(q * d, d, q, 0);
  }

  lemma {:induction false} TwoToSum(a: nat, b: nat)
    ensures TwoTo(a + b) == TwoTo(a) * TwoTo(b)
  {
    if a > 0 { TwoToSum(a - 1, b); }
  }

  lemma {:induction false} TwoToGrows(a: nat, b: nat)
    requires a <= b
    ensures TwoTo(a) <= TwoTo(b)
  {
    if a < b { TwoToGrows(a, b - 1); }
  }

  lemma TwoTo52()
    ensures TwoTo(52) == 0x10_0000_0000_0000 && TwoTo(23) == 0x80_0000 && TwoTo(29) == 0x2000_0000
  {
    TwoToSum(23, 29);
    assert TwoTo(23) == 0x80_0000 by { assert TwoTo(10) == 1024; TwoToSum(10, 10); TwoToSum(20, 3); }
    assert TwoTo(29) == 0x2000_0000 by { assert TwoTo(10) == 1024; TwoToSum(10, 10); TwoToSum(20, 9); }
  }

  /** A small float, as a fraction of the double. */
  lemma SmallFloat(f: nat, k: nat)
    requires TwoTo(k) <= f < TwoTo(k + 1) && f < 0x80_0000
    ensures k <= 22 && Fraction(f, k) < 0x10_0000_0000_0000
    ensures 0x10_0000_0000_0000 + Fraction(f, k) == f * TwoTo(52 - k)
  {
    TwoTo52();
    SmallLog(f, k);
    TwoToSum(k, 52 - k);
    var g, t := TwoTo(k), TwoTo(52 - k);
    assert TwoTo(k + 1) == 2 * g;
    Scaled(f, g, t);
  }

  lemma Scaled(f: nat, g: nat, t: nat)
    requires g <= f < 2 * g && t > 0
    ensures g * t + (f - g) * t == f * t && (f - g) * t < g * t
  {
    assert (f - g) * t == f * t - g * t;
    assert f * t < 2 * g * t by { assert (2 * g - f) * t > 0; }
  }

  lemma WidenValid(w: u32)
    ensures WidenParts(w).Valid()
  {
    var exponent, f := w / 0x80_0000 % 0x100, w % 0x80_0000;
    if exponent == 0 && f > 0 { SmallFloat(f, Log(f)); }
  }

  lemma NarrowFits(exponent: nat, fraction: nat)
    requires exponent < 2048 && fraction < 0x10_0000_0000_0000
    ensures NarrowParts(exponent, fraction) < 0x8000_0000
  {
    if 872 <= exponent < 897 {
      var d := 0x2000_0000 * TwoTo(897 - exponent);
      assert d >= 0x2000_0000;
      RoundedLess(0x10_0000_0000_0000 + fraction, d, 0x100_0000);
    }
  }

  /** A NaN that raises an exception; conversions make it quiet. */
  predicate Signalling(w: u32) { w / 0x80_0000 % 0x100 == 0xFF && 0 < w % 0x80_0000 < 0x40_0000 }

  /** A float survives the way to a double and back exactly if it is no signalling NaN. */
  lemma NarrowWiden(w: u32)
    ensures Narrow(Widen(w)) == w <==> !Signalling(w)
  {
    var sign, exponent, f := w / 0x8000_0000, w / 0x80_0000 % 0x100, w % 0x80_0000;
    FloatFields(w);
    WidenIs(w);
    hide *;
    FractionBack(sign, exponent, f);
    SumsDiffer(sign, NarrowParts(WidenParts(w).exponent, WidenParts(w).fraction), exponent * 0x80_0000 + f);
  }

  lemma SumsDiffer(sign: nat, a: nat, b: nat)
    ensures sign * 0x8000_0000 + a == sign * 0x8000_0000 + b <==> a == b
  {
  }

  lemma FloatFields(w: u32)
    ensures var sign, exponent, f := w / 0x8000_0000, w / 0x80_0000 % 0x100, w % 0x80_0000;
            && sign < 2 && exponent < 0x100 && f < 0x80_0000 && w == sign * 0x8000_0000 + (exponent * 0x80_0000 + f)
            && (Signalling(w) <==> exponent == 0xFF && 0 < f < 0x40_0000)
            && WidenParts(w) == WideParts(sign, exponent, f)
  {
    hide WideParts;
  }

  lemma WidenIs(w: u32)
    ensures var p := WidenParts(w);
            && p.Valid() && Narrow(Widen(w)) == p.sign * 0x8000_0000 + NarrowParts(p.exponent, p.fraction)
  {
    WidenValid(w);
    PartsOfBits(WidenParts(w));
    hide BitsOf;
    hide PartsOf;
    hide NarrowParts;
    hide WidenParts;
  }

  lemma FractionBack(sign: nat, exponent: nat, f: nat)
    requires exponent < 0x100 && f < 0x80_0000
    ensures var p := WideParts(sign, exponent, f);
            && p.sign == sign
            && (NarrowParts(p.exponent, p.fraction) == exponent * 0x80_0000 + f
                <==> !(exponent == 0xFF && 0 < f < 0x40_0000))
  {
    if exponent == 0xFF {
      NaNBack(f);
    } else if exponent > 0 {
      RoundedExact(0x80_0000 + f, 0x2000_0000);
      assert 0x10_0000_0000_0000 + f * 0x2000_0000 == (0x80_0000 + f) * 0x2000_0000;
      hide Rounded;
    } else if f > 0 {
      var k := Log(f);
      SmallFloat(f, k);
      SmallExact(f, k);
      hide NarrowParts;
      hide Fraction;
    }
    hide TwoTo;
  }

  lemma NaNBack(f: nat)
    requires f < 0x80_0000
    ensures f > 0 ==> Quiet(f) * 0x2000_0000 > 0 && Quiet(Quiet(f) * 0x2000_0000 / 0x2000_0000) == Quiet(f)
    ensures Quiet(f) == f <==> f >= 0x40_0000
  {
  }

  lemma SmallExact(f: nat, k: nat)
    requires TwoTo(k) <= f && k <= 22 && 0x10_0000_0000_0000 + Fraction(f, k) == f * TwoTo(52 - k)
    ensures NarrowParts(k + 874, Fraction(f, k)) == f
  {
    TwoToSum(29, 23 - k);
    TwoTo52();
    RoundedExact(f, TwoTo(52 - k));
    hide Rounded;
    hide TwoTo;
    hide Fraction;
    assert 897 - (k + 874) == 23 - k && 29 + (23 - k) == 52 - k;
  }

  /** Conversion to a float makes NaNs quiet. */
  lemma NarrowIsQuiet(v: LongLong)
    ensures !Signalling(Narrow(v))
  {
    var p := PartsOf(v);
    NarrowFits(p.exponent, p.fraction);
    var bits := NarrowParts(p.exponent, p.fraction);
    QuietBits(p.exponent, p.fraction);
    assert Narrow(v) == p.sign * 0x8000_0000 + bits;
    BelowSign(p.sign, bits);
    hide NarrowParts;
    hide PartsOf;
  }

  lemma BelowSign(sign: nat, bits: nat)
    requires sign < 2 && bits < 0x8000_0000
    ensures (sign * 0x8000_0000 + bits) / 0x80_0000 % 0x100 == bits / 0x80_0000
    ensures (sign * 0x8000_0000 + bits) % 0x80_0000 == bits % 0x80_0000
  {
    var q, r := bits / 0x80_0000, bits % 0x80_0000;
    RemainderUnique(sign * 0x8000_0000 + bits, 0x80_0000, sign * 0x100 + q, r);
    RemainderUnique(sign * 0x100 + q, 0x100, sign, q);
  }

  lemma QuietBits(exponent: nat, fraction: nat)
    requires exponent < 2048 && fraction < 0x10_0000_0000_0000
    ensures var bits := NarrowParts(exponent, fraction);
            bits <= 0x7F80_0000 || (bits / 0x80_0000 == 0xFF && bits % 0x80_0000 >= 0x40_0000)
    ensures NarrowParts(exponent, fraction) < 0x8000_0000
  {
    NarrowFits(exponent, fraction);
    if exponent == 2047 {
      var f := fraction / 0x2000_0000;
      if fraction != 0 { RemainderUnique(0x7F80_0000 + Quiet(f), 0x80_0000, 0xFF, Quiet(f)); }
    } else if 872 <= exponent < 897 {
      var d := 0x2000_0000 * TwoTo(897 - exponent);
      assert d >= 0x2000_0000;
      RoundedLess(0x10_0000_0000_0000 + fraction, d, 0x100_0000);
    }
    hide Rounded;
  }

  /** The number is a float. */
  ghost predicate IsFloat(v: LongLong) { exists w: u32 {:trigger Widen(w)} :: !Signalling(w) && v == Widen(w) }

  /** A double survives the way to a float and back exactly if it is one. */
  lemma WidenNarrow(v: LongLong)
    ensures Widen(Narrow(v)) == v <==> IsFloat(v)
  {
    NarrowIsQuiet(v);
    if IsFloat(v) {
      var w: u32 :| !Signalling(w) && v == Widen(w);
      NarrowWiden(w);
    }
    hide Narrow;
    hide Widen;
    hide Signalling;
  }

  /** A float survives two conversions to a double exactly if it survives one. */
  lemma NarrowTwice(w: u32)
    ensures Narrow(Widen(Narrow(Widen(w)))) == w <==> !Signalling(w)
  {
    NarrowWiden(w);
    NarrowIsQuiet(Widen(w));
    NarrowWiden(Narrow(Widen(w)));
    hide Narrow;
    hide Widen;
    hide Signalling;
  }

  // ----- the numbers that bits stand for ---------------------------------------------------------

  /** The number of a float without its sign, in units of 2^-149; infinity counts as 2^128. */
  function FloatUnits(bits: nat): nat {
    var e, f := bits / 0x80_0000, bits % 0x80_0000;
    if e == 0 then f else (0x80_0000 + f) * TwoTo(e - 1)
  }

  /** The number of a double without its sign, in units of 2^-1074. */
  function DoubleUnits(v: LongLong): nat {
    var p := PartsOf(v);
    if p.exponent == 0 then p.fraction else (0x10_0000_0000_0000 + p.fraction) * TwoTo(p.exponent - 1)
  }

  /** `x` doubled `k` times. */
  function Doubled(x: nat, k: nat): nat { if k == 0 then x else 2 * Doubled(x, k - 1) }

  lemma {:induction false} DoubledIs(x: nat, k: nat)
    ensures Doubled(x, k) == x * TwoTo(k)
  {
    if k > 0 { DoubledIs(x, k - 1); }
  }

  function Distance(a: nat, b: nat): nat { if a < b then b - a else a - b }

  /** `Rounded` is the nearest whole number, and the even one of two. */
  lemma RoundedIsNearest(m: nat, d: nat, k: nat)
    requires d > 0
    ensures Distance(Rounded(m, d) * d, m) <= Distance(k * d, m)
    ensures Distance(Rounded(m, d) * d, m) == Distance(k * d, m) && k != Rounded(m, d) ==> Rounded(m, d) % 2 == 0
  {
    var q, r := m / d, m % d;
    DivisionLaw(m, d);
    if k <= q {
      assert (q - k) * d == q * d - k * d;
      if k < q { AtLeastOne(q - k, d); }
    } else {
      assert (k - q) * d == k * d - q * d;
      AtLeastOne(k - q, d);
    }
    assert (q + 1) * d == q * d + d;
    if k > q + 1 {
      assert (k - q - 1) * d == (k - q) * d - d;
      AtLeastOne(k - q - 1, d);
    }
  }

  lemma AtLeastOne(k: nat, d: nat)
    requires k > 0 && d > 0
    ensures k * d >= d
  {
  }

  lemma Scale(a: nat, b: nat, p: nat)
    requires p > 0
    ensures Distance(a * p, b * p) == Distance(a, b) * p
  {
    if a < b { assert (b - a) * p == b * p - a * p; } else { assert (a - b) * p == a * p - b * p; }
  }

  lemma Ordered(a: nat, b: nat, p: nat)
    requires p > 0
    ensures a <= b <==> a * p <= b * p
    ensures a == b <==> a * p == b * p
  {
    if a < b { assert (b - a) * p > 0; } else if b < a { assert (a - b) * p > 0; }
  }

  /** The same when both are counted in smaller units. */
  lemma RoundedScaled(m: nat, d: nat, k: nat, p: nat)
    requires d > 0 && p > 0
    ensures var n := Rounded(m, d);
            && Distance(n * d * p, m * p) <= Distance(k * d * p, m * p)
            && (Distance(n * d * p, m * p) == Distance(k * d * p, m * p) && k != n ==> n % 2 == 0)
  {
    var n := Rounded(m, d);
    RoundedIsNearest(m, d, k);
    hide Rounded;
    Scale(n * d, m, p);
    Scale(k * d, m, p);
    hide Distance;
    Ordered(Distance(n * d, m), Distance(k * d, m), p);
  }

  /** A float is as near to `v` as `w`, or nearer, and even if it is another one as near. */
  ghost predicate AsNear(v: LongLong, n: nat, w: nat) {
    var d, a, b := DoubleUnits(v), Doubled(FloatUnits(n), 925), Doubled(FloatUnits(w), 925);
    && Distance(a, d) <= Distance(b, d)
    && (Distance(a, d) == Distance(b, d) && FloatUnits(n) != FloatUnits(w) ==> n % 2 == 0)
  }

  lemma NearIs(v: LongLong, n: nat, w: nat, t: nat)
    requires t == TwoTo(925)
    ensures AsNear(v, n, w)
       <==> var d, a, b := DoubleUnits(v), FloatUnits(n) * t, FloatUnits(w) * t;
            && Distance(a, d) <= Distance(b, d)
            && (Distance(a, d) == Distance(b, d) && FloatUnits(n) != FloatUnits(w) ==> n % 2 == 0)
  {
    hide TwoTo;
    DoubledIs(FloatUnits(n), 925);
    DoubledIs(FloatUnits(w), 925);
    hide Distance;
    hide Doubled;
    hide FloatUnits;
    hide DoubleUnits;
  }

  /** Narrowing a double that is a number gives the nearest float of the same sign, infinity included, and the
      even one of two. */
  lemma NarrowIsNearest(v: LongLong, w: nat)
    requires PartsOf(v).exponent < 2047 && w <= 0x7F80_0000
    ensures var n := Narrow(v) % 0x8000_0000;
            && Narrow(v) / 0x8000_0000 == v.hi / 0x8000_0000 && n <= 0x7F80_0000 && AsNear(v, n, w)
  {
    var p := PartsOf(v);
    NarrowFits(p.exponent, p.fraction);
    var n := NarrowParts(p.exponent, p.fraction);
    assert Narrow(v) == p.sign * 0x8000_0000 + n;
    RemainderUnique(Narrow(v), 0x8000_0000, p.sign, n);
    NearestParts(v, w);
    hide *;
  }

  lemma NearestParts(v: LongLong, w: nat)
    requires PartsOf(v).exponent < 2047 && w <= 0x7F80_0000
    ensures var p := PartsOf(v);
            var n := NarrowParts(p.exponent, p.fraction); n <= 0x7F80_0000 && AsNear(v, n, w)
  {
    hide *;
    var e := PartsOf(v).exponent;
    if e >= 1151 {
      NearestInfinite(v, w);
    } else if e >= 897 {
      NearestNormal(v, w);
    } else if e >= 872 {
      NearestSmall(v, w);
    } else {
      NearestZero(v, w);
    }
  }

  lemma UnitsOf(v: LongLong)
    ensures var p := PartsOf(v);
            && p.exponent < 2048 && p.fraction < 0x10_0000_0000_0000
            && (p.exponent > 0 ==> DoubleUnits(v) == (0x10_0000_0000_0000 + p.fraction) * TwoTo(p.exponent - 1))
            && (p.exponent == 0 ==> DoubleUnits(v) == p.fraction)
  {
  }

  lemma UnitsAt(w: nat)
    ensures var e, f := w / 0x80_0000, w % 0x80_0000;
            && f < 0x80_0000 && w == e * 0x80_0000 + f
            && FloatUnits(w) == if e == 0 then f else (0x80_0000 + f) * TwoTo(e - 1)
  {
    hide TwoTo;
  }

  /** No float is larger than infinity. */
  lemma UnitsBelow(w: nat, k: nat)
    requires w <= 0x7F80_0000 && k == 254
    ensures FloatUnits(w) <= 0x80_0000 * TwoTo(k)
  {
    hide *;
    var e, f := w / 0x80_0000, w % 0x80_0000;
    UnitsAt(w);
    TwoStep(k - 1);
    if e == 0 {
      Smaller(f, 0x80_0000, 1, TwoTo(k));
    } else if e <= k {
      TwoToGrows(e - 1, k - 1);
      Smaller(0x80_0000 + f, 0x100_0000, TwoTo(e - 1), TwoTo(k - 1));
    } else {
      assert e == k + 1 && f == 0;
    }
  }

  lemma Smaller(a: nat, b: nat, p: nat, q: nat)
    requires a <= b && p <= q
    ensures a * p <= b * q
  {
    assert (b - a) * q >= 0 && a * (q - p) >= 0;
  }

  lemma TwoStep(k: nat)
    ensures TwoTo(k + 1) == 2 * TwoTo(k)
  {
  }

  lemma NearestInfinite(v: LongLong, w: nat)
    requires 1151 <= PartsOf(v).exponent < 2047 && w <= 0x7F80_0000
    ensures var p := PartsOf(v);
            var n := NarrowParts(p.exponent, p.fraction); n == 0x7F80_0000 && AsNear(v, n, w)
  {
    hide *;
    var p, n, k, t := PartsOf(v), 0x7F80_0000, 254, TwoTo(925);
    var m := 0x10_0000_0000_0000 + p.fraction;
    UnitsOf(v);
    TooLarge(p.exponent, p.fraction);
    UnitsBelow(w, k);
    UnitsAt(n);
    TopIs(p.exponent, k, t);
    Smaller(0x10_0000_0000_0000, m, TwoTo(p.exponent - 1), TwoTo(p.exponent - 1));
    Smaller(FloatUnits(w), FloatUnits(n), t, t);
    NearIs(v, n, w, t);
    Highest(FloatUnits(w), FloatUnits(n), t, DoubleUnits(v));
  }

  lemma TooLarge(e: nat, fraction: nat)
    requires 1151 <= e < 2047 && fraction < 0x10_0000_0000_0000
    ensures NarrowParts(e, fraction) == 0x7F80_0000
  {
    AtLeastHalf(0x10_0000_0000_0000 + fraction);
    hide Rounded;
  }

  lemma Highest(b: nat, a: nat, t: nat, d: nat)
    requires b <= a && a * t <= d && t > 0
    ensures Distance(a * t, d) <= Distance(b * t, d)
    ensures Distance(a * t, d) == Distance(b * t, d) ==> a == b
  {
    Ordered(b, a, t);
  }

  lemma AtLeastHalf(m: nat)
    requires m >= 0x10_0000_0000_0000
    ensures Rounded(m, 0x2000_0000) >= 0x80_0000
  {
  }

  lemma TopIs(e: nat, k: nat, t: nat)
    requires e >= 1151 && k == 254 && t == TwoTo(925)
    ensures 0x80_0000 * TwoTo(k) * t <= 0x10_0000_0000_0000 * TwoTo(e - 1)
  {
    hide *;
    TwoTo52();
    TwoToSum(k, 925);
    TwoToSum(1150, 29);
    TwoToGrows(1150, e - 1);
    var a := TwoTo(1150);
    assert 0x80_0000 * TwoTo(k) * t == 0x80_0000 * (TwoTo(k) * t);
    assert 0x80_0000 * (a * 0x2000_0000) == 0x10_0000_0000_0000 * a;
  }

  /** A float is a multiple of the unit of a range of floats, or less than what the range begins with. */
  lemma OnGrid(w: nat, g: nat) returns (k: nat)
    ensures FloatUnits(w) == k * TwoTo(g) || FloatUnits(w) < 0x80_0000 * TwoTo(g)
  {
    hide *;
    var e, f := w / 0x80_0000, w % 0x80_0000;
    UnitsAt(w);
    k := 0;
    if e > g {
      k := (0x80_0000 + f) * TwoTo(e - 1 - g);
      TwoToSum(e - 1 - g, g);
      assert (0x80_0000 + f) * (TwoTo(e - 1 - g) * TwoTo(g)) == k * TwoTo(g);
    } else if e > 0 {
      TwoStep(e - 1);
      TwoToGrows(e, g);
      LessThan(0x80_0000 + f, 0x100_0000, TwoTo(e - 1));
    } else {
      AtLeastOne(0x80_0000, TwoTo(g));
      Smaller(0x80_0000, 0x80_0000, 1, TwoTo(g));
    }
  }

  lemma NormalBits(g: nat, q: nat)
    requires 0x80_0000 <= q <= 0x100_0000
    ensures FloatUnits(g * 0x80_0000 + q) == q * TwoTo(g)
  {
    hide *;
    var n := g * 0x80_0000 + q;
    UnitsAt(n);
    if q < 0x100_0000 {
      RemainderUnique(n, 0x80_0000, g + 1, q - 0x80_0000);
    } else {
      RemainderUnique(n, 0x80_0000, g + 2, 0);
      TwoStep(g);
    }
  }

  lemma NearestNormal(v: LongLong, w: nat)
    requires 897 <= PartsOf(v).exponent < 1151
    ensures var p := PartsOf(v);
            var n := NarrowParts(p.exponent, p.fraction); n <= 0x7F80_0000 && AsNear(v, n, w)
  {
    hide *;
    var p, d, t := PartsOf(v), 0x2000_0000, TwoTo(925);
    var m, g, u := 0x10_0000_0000_0000 + p.fraction, p.exponent - 897, TwoTo(p.exponent - 1);
    UnitsOf(v);
    var q := Rounded(m, d);
    NormalIs(p.exponent, p.fraction);
    var n := g * 0x80_0000 + q;
    NormalBits(g, q);
    UnitIs(p.exponent, t);
    var k := OnGrid(w, g);
    Reordered(q, TwoTo(g), t, d, u);
    if FloatUnits(w) == k * TwoTo(g) {
      Reordered(k, TwoTo(g), t, d, u);
      RoundedScaled(m, d, k, u);
      Nearer(v, n, w, t, q, k);
    } else {
      var b := 0x80_0000;
      Reordered(b, TwoTo(g), t, d, u);
      RoundedScaled(m, d, b, u);
      LessThan(FloatUnits(w), b * TwoTo(g), t);
      Smaller(b * d, m, u, u);
      Farther(v, n, w, t, b * d * u);
    }
  }

  lemma NormalIs(e: nat, fraction: nat)
    requires 897 <= e < 1151 && fraction < 0x10_0000_0000_0000
    ensures var q := Rounded(0x10_0000_0000_0000 + fraction, 0x2000_0000);
            && 0x80_0000 <= q <= 0x100_0000
            && NarrowParts(e, fraction) == (e - 897) * 0x80_0000 + q <= 0x7F80_0000
            && ((e - 897) * 0x80_0000 + q) % 2 == q % 2
  {
    var m := 0x10_0000_0000_0000 + fraction;
    AtLeastHalf(m);
    RoundedLess(m, 0x2000_0000, 0x100_0000);
    hide Rounded;
  }

  lemma UnitIs(e: nat, t: nat)
    requires e >= 897 && t == TwoTo(925)
    ensures TwoTo(e - 897) * t == 0x2000_0000 * TwoTo(e - 1)
  {
    hide *;
    TwoTo52();
    TwoToSum(e - 897, 925);
    TwoToSum(29, e - 1);
  }

  lemma Reordered(q: nat, g: nat, t: nat, d: nat, u: nat)
    requires g * t == d * u
    ensures q * g * t == q * d * u
  {
    assert q * g * t == q * (g * t) && q * d * u == q * (d * u);
  }

  lemma LessThan(a: nat, b: nat, t: nat)
    requires a < b && t > 0
    ensures a * t < b * t
  {
    assert (b - a) * t > 0;
  }

  lemma Nearer(v: LongLong, n: nat, w: nat, t: nat, q: nat, k: nat)
    requires t == TwoTo(925) && n % 2 == q % 2 && (FloatUnits(n) != FloatUnits(w) ==> k != q)
    requires var d, a, b := DoubleUnits(v), FloatUnits(n) * t, FloatUnits(w) * t;
      Distance(a, d) <= Distance(b, d) && (Distance(a, d) == Distance(b, d) && k != q ==> q % 2 == 0)
    ensures AsNear(v, n, w)
  {
    hide *;
    NearIs(v, n, w, t);
  }

  /** What lies below a number that is not nearer is farther off. */
  lemma Farther(v: LongLong, n: nat, w: nat, t: nat, b: nat)
    requires t == TwoTo(925) && FloatUnits(w) * t < b <= DoubleUnits(v)
    requires Distance(FloatUnits(n) * t, DoubleUnits(v)) <= Distance(b, DoubleUnits(v))
    ensures AsNear(v, n, w)
  {
    hide *;
    NearIs(v, n, w, t);
    Beyond(FloatUnits(n) * t, FloatUnits(w) * t, b, DoubleUnits(v));
  }

  lemma Beyond(a: nat, c: nat, b: nat, d: nat)
    requires c < b <= d && Distance(a, d) <= Distance(b, d)
    ensures Distance(a, d) < Distance(c, d)
  {
  }

  lemma NearestSmall(v: LongLong, w: nat)
    requires 872 <= PartsOf(v).exponent < 897
    ensures var p := PartsOf(v);
            var n := NarrowParts(p.exponent, p.fraction); n <= 0x80_0000 && AsNear(v, n, w)
  {
    hide *;
    var p, t := PartsOf(v), TwoTo(925);
    var m, d, u := 0x10_0000_0000_0000 + p.fraction, 0x2000_0000 * TwoTo(897 - p.exponent), TwoTo(p.exponent - 1);
    UnitsOf(v);
    var q, k := Rounded(m, d), FloatUnits(w);
    SmallBits(p.exponent, p.fraction);
    SmallUnit(p.exponent, t);
    Reordered(q, 1, t, d, u);
    Reordered(k, 1, t, d, u);
    RoundedScaled(m, d, k, u);
    Nearer(v, q, w, t, q, k);
  }

  lemma SmallBits(e: nat, fraction: nat)
    requires 872 <= e < 897 && fraction < 0x10_0000_0000_0000
    ensures var q := Rounded(0x10_0000_0000_0000 + fraction, 0x2000_0000 * TwoTo(897 - e));
            q <= 0x80_0000 && FloatUnits(q) == q && NarrowParts(e, fraction) == q
  {
    hide TwoTo;
    TwoStep(896 - e);
    var d := 0x2000_0000 * TwoTo(897 - e);
    assert d >= 0x4000_0000;
    assert 0x80_0000 * d >= 0x80_0000 * 0x4000_0000;
    RoundedLess(0x10_0000_0000_0000 + fraction, d, 0x80_0000);
    TwoTo0();
    hide Rounded;
  }

  lemma TwoTo0()
    ensures TwoTo(0) == 1
  {
  }

  lemma SmallUnit(e: nat, t: nat)
    requires 872 <= e < 897 && t == TwoTo(925)
    ensures 1 * t == 0x2000_0000 * TwoTo(897 - e) * TwoTo(e - 1)
  {
    hide *;
    TwoTo52();
    TwoToSum(897 - e, e - 1);
    TwoToSum(29, 896);
    assert 0x2000_0000 * TwoTo(897 - e) * TwoTo(e - 1) == 0x2000_0000 * (TwoTo(897 - e) * TwoTo(e - 1));
  }

  lemma NearestZero(v: LongLong, w: nat)
    requires PartsOf(v).exponent < 872
    ensures var p := PartsOf(v);
            var n := NarrowParts(p.exponent, p.fraction); n == 0 && AsNear(v, n, w)
  {
    hide *;
    var p, t := PartsOf(v), TwoTo(925);
    UnitsOf(v);
    ZeroParts(p.exponent, p.fraction);
    BelowHalf(p.exponent, p.fraction);
    NearIs(v, 0, w, t);
    Lowest(FloatUnits(w), t, DoubleUnits(v));
  }

  lemma ZeroParts(e: nat, fraction: nat)
    requires e < 872
    ensures NarrowParts(e, fraction) == 0 && FloatUnits(0) == 0
  {
    hide TwoTo;
  }

  lemma Lowest(b: nat, t: nat, d: nat)
    requires 2 * d < t
    ensures Distance(0 * t, d) <= Distance(b * t, d)
    ensures Distance(0 * t, d) == Distance(b * t, d) ==> b == 0
  {
    if b > 0 { AtLeastOne(b, t); }
  }

  lemma BelowHalf(e: nat, fraction: nat)
    requires e < 872 && fraction < 0x10_0000_0000_0000
    ensures 2 * fraction < TwoTo(925)
    ensures e > 0 ==> 2 * ((0x10_0000_0000_0000 + fraction) * TwoTo(e - 1)) < TwoTo(925)
  {
    hide TwoTo;
    TwoTo52();
    TwoToSum(52, 873);
    TwoToSum(3, 870);
    assert TwoTo(3) == 8 by { TwoStep(2); TwoStep(1); TwoStep(0); TwoTo0(); }
    assert TwoTo(870) >= 1;
    var a, m := TwoTo(870), 0x10_0000_0000_0000 + fraction;
    assert TwoTo(925) == 0x10_0000_0000_0000 * (8 * a);
    if e > 0 {
      TwoToGrows(e - 1, 870);
      Ordered(TwoTo(e - 1), a, m);
      assert m * a < 0x20_0000_0000_0000 * a by { LessThan(m, 0x20_0000_0000_0000, a); }
    }
  }

  /** Widening is exact: the double has the sign and the number of the float. */
  lemma WidenIsExact(w: u32)
    requires w / 0x80_0000 % 0x100 < 0xFF
    ensures Widen(w).hi / 0x8000_0000 == w / 0x8000_0000
    ensures DoubleUnits(Widen(w)) == Doubled(FloatUnits(w % 0x8000_0000), 925)
  {
    hide *;
    var sign, e, f, t := w / 0x8000_0000, w / 0x80_0000 % 0x100, w % 0x80_0000, TwoTo(925);
    FloatFields(w);
    RemainderUnique(w, 0x8000_0000, sign, e * 0x80_0000 + f);
    WidenFields(w, sign, e, f);
    UnitsOf(Widen(w));
    FloatUnitsOf(e, f);
    DoubledIs(FloatUnits(e * 0x80_0000 + f), 925);
    WideIs(sign, e, f);
    if e > 0 {
      WideNormal(e, f, t);
    } else if f > 0 {
      var k := Log(f);
      SmallFloat(f, k);
      WideSmall(f, k, t);
    }
  }

  lemma WidenFields(w: u32, sign: nat, e: nat, f: nat)
    requires sign == w / 0x8000_0000 && e == w / 0x80_0000 % 0x100 && f == w % 0x80_0000
    ensures PartsOf(Widen(w)) == WideParts(sign, e, f) && PartsOf(Widen(w)).sign == Widen(w).hi / 0x8000_0000
  {
    WidenValid(w);
    PartsOfBits(WidenParts(w));
    FloatFields(w);
    hide BitsOf;
    hide WideParts;
  }

  lemma WideIs(sign: nat, e: nat, f: nat)
    requires e < 0xFF && f < 0x80_0000
    ensures var p := WideParts(sign, e, f);
            && p.sign == sign
            && (e > 0 ==> p.exponent == e + 896 && p.fraction == f * 0x2000_0000)
            && (e == f == 0 ==> p.exponent == p.fraction == 0)
            && (e == 0 < f ==> Log(f) <= 22 && p.exponent == Log(f) + 874 && p.fraction == Fraction(f, Log(f)))
  {
    if e == 0 < f { SmallFloat(f, Log(f)); }
    hide Log;
    hide Fraction;
    hide TwoTo;
  }

  lemma FloatUnitsOf(e: nat, f: nat)
    requires f < 0x80_0000
    ensures FloatUnits(e * 0x80_0000 + f) == if e == 0 then f else (0x80_0000 + f) * TwoTo(e - 1)
  {
    hide TwoTo;
    RemainderUnique(e * 0x80_0000 + f, 0x80_0000, e, f);
  }

  lemma WideNormal(e: nat, f: nat, t: nat)
    requires e > 0 && t == TwoTo(925)
    ensures (0x10_0000_0000_0000 + f * 0x2000_0000) * TwoTo(e + 896 - 1) == (0x80_0000 + f) * TwoTo(e - 1) * t
  {
    hide *;
    TwoTo52();
    TwoToSum(e - 1, 925);
    TwoToSum(29, e + 895);
    var m, a := 0x80_0000 + f, TwoTo(e + 895);
    assert 0x10_0000_0000_0000 + f * 0x2000_0000 == m * 0x2000_0000;
    assert m * 0x2000_0000 * a == m * (0x2000_0000 * a);
    assert m * TwoTo(e - 1) * t == m * (TwoTo(e - 1) * t);
  }

  lemma WideSmall(f: nat, k: nat, t: nat)
    requires k <= 22 && t == TwoTo(925)
    ensures f * TwoTo(52 - k) * TwoTo(k + 874 - 1) == f * t
  {
    hide *;
    TwoToSum(52 - k, k + 873);
    assert f * TwoTo(52 - k) * TwoTo(k + 873) == f * (TwoTo(52 - k) * TwoTo(k + 873));
  }

  /** What is no number stays so. */
  lemma NarrowSpecial(v: LongLong)
    requires PartsOf(v).exponent == 2047
    ensures var n := Narrow(v) % 0x8000_0000;
            && Narrow(v) / 0x8000_0000 == v.hi / 0x8000_0000 && n >= 0x7F80_0000
            && (n == 0x7F80_0000 <==> PartsOf(v).fraction == 0)
  {
    var p := PartsOf(v);
    NarrowFits(p.exponent, p.fraction);
    var n := NarrowParts(p.exponent, p.fraction);
    assert Narrow(v) == p.sign * 0x8000_0000 + n;
    RemainderUnique(Narrow(v), 0x8000_0000, p.sign, n);
  }

  // ----- comparisons ---------------------------------------------------------------------------

  predicate IsNaN(v: LongLong) { PartsOf(v).exponent == 2047 && PartsOf(v).fraction != 0 }

  /** `a == b` for doubles: a NaN equals nothing, and the two zeros are equal. */
  predicate SameReal(a: LongLong, b: LongLong) {
    && !IsNaN(a) && !IsNaN(b)
    && (a == b || (a.low == b.low == 0 && a.hi % 0x8000_0000 == b.hi % 0x8000_0000 == 0))
  }

  /** `a == b` for floats. */
  predicate SameFloat(a: u32, b: u32) {
    && !(a / 0x80_0000 % 0x100 == 0xFF && a % 0x80_0000 != 0) && !(b / 0x80_0000 % 0x100 == 0xFF && b % 0x80_0000 != 0)
    && (a == b || a % 0x8000_0000 == b % 0x8000_0000 == 0)
  }

  lemma BitsOfParts(v: LongLong)
    ensures BitsOf(PartsOf(v)) == v
  {
    var upper, low := v.hi / 0x10_0000, v.hi % 0x10_0000;
    assert v.hi == upper * 0x10_0000 + low;
    RemainderUnique(v.hi, 0x8000_0000, upper / 0x800, upper % 0x800 * 0x10_0000 + low);
  }

  /** A double counted in units of 2^-1074, with its sign; infinity counts as 2^1024. */
  function SignedUnits(v: LongLong): int { if v.hi >= 0x8000_0000 then 0 - DoubleUnits(v) else DoubleUnits(v) }

  /** Doubles are equal exactly if both are numbers, infinity included, and the same number. */
  lemma SameRealIs(a: LongLong, b: LongLong)
    ensures SameReal(a, b) <==> !IsNaN(a) && !IsNaN(b) && SignedUnits(a) == SignedUnits(b)
  {
    hide *;
    SameBits(a, b);
    ZeroUnits(a);
    ZeroUnits(b);
    var p, q := PartsOf(a), PartsOf(b);
    if p.exponent < q.exponent {
      UnitsGrow(a, b);
    } else if q.exponent < p.exponent {
      UnitsGrow(b, a);
    } else {
      UnitsDiffer(a, b);
    }
    SignIs(a);
    SignIs(b);
  }

  lemma SignIs(v: LongLong)
    ensures SignedUnits(v) == if PartsOf(v).sign == 1 then 0 - DoubleUnits(v) else DoubleUnits(v)
    ensures PartsOf(v).sign < 2
  {
    hide DoubleUnits;
  }

  /** Same parts, same bits. */
  lemma SameBits(a: LongLong, b: LongLong)
    ensures a == b <==> PartsOf(a) == PartsOf(b)
    ensures SameReal(a, b) <==>
              && !IsNaN(a) && !IsNaN(b)
              && (PartsOf(a) == PartsOf(b) || (PartsOf(a).exponent == PartsOf(a).fraction == 0
                                               && PartsOf(b).exponent == PartsOf(b).fraction == 0))
  {
    BitsOfParts(a);
    BitsOfParts(b);
    ZeroBits(a);
    ZeroBits(b);
    hide PartsOf;
    hide BitsOf;
    hide IsNaN;
  }

  lemma ZeroBits(v: LongLong)
    ensures v.low == v.hi % 0x8000_0000 == 0 <==> PartsOf(v).exponent == PartsOf(v).fraction == 0
  {
    var upper, low := v.hi / 0x10_0000, v.hi % 0x10_0000;
    assert v.hi == upper * 0x10_0000 + low;
    RemainderUnique(v.hi, 0x8000_0000, upper / 0x800, upper % 0x800 * 0x10_0000 + low);
  }

  lemma ZeroUnits(v: LongLong)
    ensures DoubleUnits(v) == 0 <==> PartsOf(v).exponent == PartsOf(v).fraction == 0
  {
    hide *;
    var p := PartsOf(v);
    UnitsOf(v);
    if p.exponent > 0 { AtLeastOne(0x10_0000_0000_0000 + p.fraction, TwoTo(p.exponent - 1)); }
  }

  /** A larger exponent means a larger number. */
  lemma UnitsGrow(a: LongLong, b: LongLong)
    requires PartsOf(a).exponent < PartsOf(b).exponent
    ensures DoubleUnits(a) < DoubleUnits(b)
  {
    hide *;
    var p, q := PartsOf(a), PartsOf(b);
    UnitsOf(a);
    UnitsOf(b);
    var m, n, u := 0x10_0000_0000_0000 + p.fraction, 0x10_0000_0000_0000 + q.fraction, TwoTo(q.exponent - 1);
    Smaller(0x10_0000_0000_0000, n, u, u);
    if p.exponent > 0 {
      TwoStep(p.exponent - 1);
      TwoToGrows(p.exponent, q.exponent - 1);
      LessThan(m, 0x20_0000_0000_0000, TwoTo(p.exponent - 1));
    } else {
      Smaller(0x10_0000_0000_0000, 0x10_0000_0000_0000, 1, u);
    }
  }

  lemma UnitsDiffer(a: LongLong, b: LongLong)
    requires PartsOf(a).exponent == PartsOf(b).exponent
    ensures DoubleUnits(a) == DoubleUnits(b) <==> PartsOf(a).fraction == PartsOf(b).fraction
  {
    hide *;
    var p, q := PartsOf(a), PartsOf(b);
    UnitsOf(a);
    UnitsOf(b);
    if p.exponent > 0 {
      Ordered(0x10_0000_0000_0000 + p.fraction, 0x10_0000_0000_0000 + q.fraction, TwoTo(p.exponent - 1));
    }
  }

  /** A float counted in units of 2^-149, with its sign. */
  function SignedFloat(w: u32): int {
    if w >= 0x8000_0000 then 0 - FloatUnits(w % 0x8000_0000) else FloatUnits(w % 0x8000_0000)
  }

  lemma SameFloatIs(a: u32, b: u32)
    ensures SameFloat(a, b) <==>
              a % 0x8000_0000 <= 0x7F80_0000 && b % 0x8000_0000 <= 0x7F80_0000 && SignedFloat(a) == SignedFloat(b)
  {
    hide *;
    FloatNaN(a);
    FloatNaN(b);
    SameFloatFields(a, b);
    SignedFloatIs(a);
    SignedFloatIs(b);
    var x, y := a % 0x8000_0000, b % 0x8000_0000;
    UnitsApart(x, y);
    SignsTold(a, b, x, y, FloatUnits(x), FloatUnits(y));
  }

  lemma UnitsApart(x: nat, y: nat)
    ensures FloatUnits(x) == FloatUnits(y) <==> x == y
    ensures FloatUnits(x) == 0 <==> x == 0
  {
    hide *;
    if x < y {
      FloatsGrow(x, y);
    } else if y < x {
      FloatsGrow(y, x);
    }
    if x > 0 { FloatsGrow(0, x); }
    UnitsAt(0);
  }

  lemma SignsTold(a: u32, b: u32, x: nat, y: nat, u: nat, v: nat)
    requires x == a % 0x8000_0000 && y == b % 0x8000_0000 && (u == v <==> x == y) && (u == 0 <==> x == 0)
    ensures (if a >= 0x8000_0000 then 0 - u else u) == (if b >= 0x8000_0000 then 0 - v else v)
       <==> a == b || x == y == 0
  {
  }

  lemma SignedFloatIs(w: u32)
    ensures SignedFloat(w)
         == if w >= 0x8000_0000 then 0 - FloatUnits(w % 0x8000_0000) else FloatUnits(w % 0x8000_0000)
  {
    hide FloatUnits;
  }

  lemma SameFloatFields(a: u32, b: u32)
    ensures SameFloat(a, b) <==>
              && !(a / 0x80_0000 % 0x100 == 0xFF && a % 0x80_0000 != 0)
              && !(b / 0x80_0000 % 0x100 == 0xFF && b % 0x80_0000 != 0)
              && (a == b || a % 0x8000_0000 == b % 0x8000_0000 == 0)
  {
  }

  lemma FloatNaN(w: u32)
    ensures w / 0x80_0000 % 0x100 == 0xFF && w % 0x80_0000 != 0 <==> w % 0x8000_0000 > 0x7F80_0000
  {
    var sign, e, f := w / 0x8000_0000, w / 0x80_0000 % 0x100, w % 0x80_0000;
    FloatFields(w);
    RemainderUnique(w, 0x8000_0000, sign, e * 0x80_0000 + f);
  }

  lemma FloatsGrow(a: nat, b: nat)
    requires a < b
    ensures FloatUnits(a) < FloatUnits(b)
  {
    hide *;
    var d, e, f, g := a / 0x80_0000, b / 0x80_0000, a % 0x80_0000, b % 0x80_0000;
    UnitsAt(a);
    UnitsAt(b);
    if d == e {
      if e > 0 { LessThan(0x80_0000 + f, 0x80_0000 + g, TwoTo(e - 1)); }
    } else {
      assert d < e;
      var u := TwoTo(e - 1);
      Smaller(0x80_0000, 0x80_0000 + g, u, u);
      if d > 0 {
        TwoStep(d - 1);
        TwoToGrows(d, e - 1);
        LessThan(0x80_0000 + f, 0x100_0000, TwoTo(d - 1));
      } else {
        Smaller(0x80_0000, 0x80_0000, 1, u);
      }
    }
  }
}
