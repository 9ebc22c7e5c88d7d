/** Resampling of a colour lookup table to the gamma table of the graphics card, in exact arithmetic.
    The table size is at least 2. */
module GammaTable {

  datatype Rgb = Rgb(R: real, G: real, B: real)

  datatype Outcome = Sent | NoData

  const MAX: int := 0xffff

  // ---- one channel, at the position num/den of the input ----

  function Below(num: nat, den: nat): int requires den >= 1 { num / den }

  function Above(num: nat, den: nat): int requires den >= 1 { (num + den - 1) / den }

  function Fraction(num: nat, den: nat): real
    requires den >= 1
  {
    (num % den) as real / den as real
  }

  /** cd_color_rgb_interpolate, for one channel. */
  function Interpolate(p: real, q: real, f: real): real { p * (1.0 - f) + q * f }

  /** The conversion of a non-negative double to an integer. */
  function Quantise(x: real): int { (x * MAX as real).Floor }

  lemma DivMod(num: nat, den: nat)
    requires den >= 1
    ensures num == den * (num / den) + num % den && 0 <= num % den < den
  {
  }

  lemma QuotientIs(num: nat, den: nat, q: nat, r: nat)
    requires num == den * q + r && r < den
    ensures num / den == q && num % den == r
  {
    DivMod(num, den);
    var d, e := num / den, num % den;
    if d < q {
      NextMultiple(den, d, q);
    } else if d > q {
      NextMultiple(den, q, d);
    }
  }

  lemma {:induction false} NextMultiple(den: nat, a: nat, b: nat)
    requires a < b
    ensures den * a + den <= den * b
    decreases b
  {
    OneMore(den, b - 1);
    if a < b - 1 {
      NextMultiple(den, a, b - 1);
    }
  }

  lemma OneMore(den: nat, k: nat)
    ensures den * (k + 1) == den * k + den
  {
  }

  lemma AboveIsNext(num: nat, den: nat)
    requires den >= 1
    ensures Above(num, den) == Below(num, den) + if num % den == 0 then 0 else 1
  {
    DivMod(num, den);
    var q, r := num / den, num % den;
    if r == 0 {
      QuotientIs(num + den - 1, den, q, den - 1);
    } else {
      OneMore(den, q);
      QuotientIs(num + den - 1, den, q + 1, r - 1);
    }
  }

  /** Positions up to the last entry stay within the table. */
  lemma IndicesInRange(num: nat, den: nat, last: nat)
    requires den >= 1 && num <= last * den
    ensures 0 <= Below(num, den) <= Above(num, den) <= last
    ensures Below(num, den) == last ==> num % den == 0
  {
    AboveIsNext(num, den);
    DivMod(num, den);
    Commutes(last, den);
    var q := num / den;
    if q > last {
      NextMultiple(den, last, q);
    }
  }

  lemma Commutes(x: nat, y: nat)
    ensures x * y == y * x
  {
  }

  lemma FractionInUnit(num: nat, den: nat)
    requires den >= 1
    ensures 0.0 <= Fraction(num, den) < 1.0
  {
    DivMod(num, den);
    DivideLess((num % den) as real, den as real);
  }

  lemma DivideLess(x: real, y: real)
    requires 0.0 <= x < y
    ensures 0.0 <= x / y < 1.0
  {
    assert x == (x / y) * y;
  }

  /** The interpolated value at position num/den. */
  function At(a: seq<real>, num: nat, den: nat): real
    requires den >= 1 && a != [] && num <= (|a| - 1) * den
  {
    IndicesInRange(num, den, |a| - 1);
    Interpolate(a[Below(num, den)], a[Above(num, den)], Fraction(num, den))
  }

  lemma LastIndex(last: nat, den: nat, i: nat)
    requires i <= den
    ensures 0 <= last * i <= last * den
  {
  }

  /** Entry i of the table of size g, before quantisation. */
  function Sample(a: seq<real>, g: nat, i: nat): real
    requires g >= 2 && a != [] && i < g
  {
    LastIndex(|a| - 1, g - 1, i);
    At(a, (|a| - 1) * i, g - 1)
  }

  function Resample(a: seq<real>, g: nat): (r: seq<real>)
    requires g >= 2 && a != []
    ensures |r| == g
  {
    seq(g, i requires 0 <= i < g => Sample(a, g, i))
  }

  /** The table one channel is sent as. */
  function Table(a: seq<real>, g: nat): (r: seq<int>)
    requires g >= 2 && a != []
    ensures |r| == g
  {
    seq(g, i requires 0 <= i < g => Quantise(Sample(a, g, i)))
  }

  // ---- laws ----

  lemma Exact(a: seq<real>, num: nat, den: nat)
    requires den >= 1 && a != [] && num <= (|a| - 1) * den && num % den == 0
    ensures 0 <= num / den < |a| && At(a, num, den) == a[num / den]
  {
    IndicesInRange(num, den, |a| - 1);
    AboveIsNext(num, den);
    assert Fraction(num, den) == 0.0;
  }

  lemma SampleIs(a: seq<real>, g: nat, i: nat, k: nat)
    requires g >= 2 && i < g && k < |a| && (|a| - 1) * i == (g - 1) * k
    ensures Sample(a, g, i) == a[k]
  {
    var num := (|a| - 1) * i;
    LastIndex(|a| - 1, g - 1, i);
    QuotientIs(num, g - 1, k, 0);
    Exact(a, num, g - 1);
  }

  /** Both ends of the input are reproduced. */
  lemma Endpoints(a: seq<real>, g: nat)
    requires g >= 2 && a != []
    ensures Sample(a, g, 0) == a[0] && Sample(a, g, g - 1) == a[|a| - 1]
  {
    SampleIs(a, g, 0, 0);
    SampleIs(a, g, g - 1, |a| - 1);
  }

  /** A table of the input's own length is the input. */
  lemma SameLengthIsIdentity(a: seq<real>)
    requires |a| >= 2
    ensures Resample(a, |a|) == a
  {
    forall i | 0 <= i < |a| ensures Resample(a, |a|)[i] == a[i] {
      SampleIs(a, |a|, i, i);
    }
  }

  lemma Mixture(p: real, q: real, f: real, lo: real, hi: real)
    requires lo <= p <= hi && lo <= q <= hi && 0.0 <= f <= 1.0
    ensures lo <= Interpolate(p, q, f) <= hi
  {
    var gap := if p <= q then q - p else p - q;
    Portion(gap, f);
    assert Interpolate(p, q, f) == if p <= q then p + gap * f else p - gap * f;
  }

  lemma Portion(x: real, f: real)
    requires 0.0 <= x && 0.0 <= f <= 1.0
    ensures 0.0 <= x * f <= x
  {
    assert x * (1.0 - f) >= 0.0;
  }

  lemma ScaleLess(x: real, y: real, f: real)
    requires x <= y && f >= 0.0
    ensures x * f <= y * f
  {
  }

  /** No value leaves the range of the input. */
  lemma StaysWithin(a: seq<real>, num: nat, den: nat, lo: real, hi: real)
    requires den >= 1 && a != [] && num <= (|a| - 1) * den
    requires forall k :: 0 <= k < |a| ==> lo <= a[k] <= hi
    ensures lo <= At(a, num, den) <= hi
  {
    IndicesInRange(num, den, |a| - 1);
    FractionInUnit(num, den);
    Mixture(a[Below(num, den)], a[Above(num, den)], Fraction(num, den), lo, hi);
  }

  lemma QuantiseRange(x: real)
    requires 0.0 <= x <= 1.0
    ensures 0 <= Quantise(x) <= MAX
  {
    ScaleLess(x, 1.0, MAX as real);
    ScaleLess(0.0, x, MAX as real);
  }

  /** Black is 0 and full intensity 65535, and an entry is the sample up to one part in 65535. */
  lemma QuantiseIs(x: real)
    ensures Quantise(0.0) == 0 && Quantise(1.0) == 65535
    ensures 0.0 <= x - Quantise(x) as real / 65535.0 < 1.0 / 65535.0
  {
    var q := Quantise(x) as real;
    assert q <= x * 65535.0 < q + 1.0;
    assert (q / 65535.0) * 65535.0 == q && (1.0 / 65535.0) * 65535.0 == 1.0;
  }

  /** So is every entry of the table. */
  lemma EntryIsSample(a: seq<real>, g: nat, i: nat)
    requires g >= 2 && a != [] && i < g
    ensures 0.0 <= Sample(a, g, i) - Table(a, g)[i] as real / 65535.0 < 1.0 / 65535.0
    ensures Sample(a, g, i) == 1.0 ==> Table(a, g)[i] == 65535
    ensures Sample(a, g, i) == 0.0 ==> Table(a, g)[i] == 0
  {
    QuantiseIs(Sample(a, g, i));
  }

  /** Input values in the unit interval give 16-bit entries. */
  lemma EntriesFitIn16Bits(a: seq<real>, g: nat, i: nat)
    requires g >= 2 && a != [] && i < g
    requires forall k :: 0 <= k < |a| ==> 0.0 <= a[k] <= 1.0
    ensures 0 <= Table(a, g)[i] <= MAX
  {
    LastIndex(|a| - 1, g - 1, i);
    StaysWithin(a, (|a| - 1) * i, g - 1, 0.0, 1.0);
    QuantiseRange(Sample(a, g, i));
  }

  ghost predicate NonDecreasing(a: seq<real>) {
    forall j, k :: 0 <= j <= k < |a| ==> a[j] <= a[k]
  }

  lemma FractionGrows(m: nat, n: nat, den: nat)
    requires den >= 1 && m <= n && m / den == n / den
    ensures Fraction(m, den) <= Fraction(n, den)
  {
    DivMod(m, den);
    DivMod(n, den);
    DivideMonotone((m % den) as real, (n % den) as real, den as real);
  }

  lemma DivideMonotone(x: real, y: real, d: real)
    requires x <= y && d > 0.0
    ensures x / d <= y / d
  {
  }

  lemma QuotientGrows(m: nat, n: nat, den: nat)
    requires den >= 1 && m <= n
    ensures m / den <= n / den
  {
    DivMod(m, den);
    DivMod(n, den);
    if m / den > n / den {
      NextMultiple(den, n / den, m / den);
    }
  }

  lemma SlideUp(p: real, q: real, f: real, h: real)
    requires p <= q && f <= h
    ensures Interpolate(p, q, f) <= Interpolate(p, q, h)
  {
    ScaleLess(f, h, q - p);
    assert Interpolate(p, q, f) == p + (q - p) * f && Interpolate(p, q, h) == p + (q - p) * h;
  }

  lemma AtGrows(a: seq<real>, m: nat, n: nat, den: nat)
    requires den >= 1 && a != [] && m <= n <= (|a| - 1) * den && NonDecreasing(a)
    ensures At(a, m, den) <= At(a, n, den)
  {
    IndicesInRange(m, den, |a| - 1);
    IndicesInRange(n, den, |a| - 1);
    FractionInUnit(m, den);
    FractionInUnit(n, den);
    QuotientGrows(m, n, den);
    var lo, hi := Below(m, den), Below(n, den);
    if lo == hi {
      SameCell(a, m, n, den);
    } else {
      AboveIsNext(m, den);
      Mixture(a[lo], a[Above(m, den)], Fraction(m, den), a[lo], a[Above(m, den)]);
      Mixture(a[hi], a[Above(n, den)], Fraction(n, den), a[hi], a[Above(n, den)]);
    }
  }

  lemma SameCell(a: seq<real>, m: nat, n: nat, den: nat)
    requires den >= 1 && a != [] && m <= n <= (|a| - 1) * den && NonDecreasing(a)
    requires Below(m, den) == Below(n, den)
    ensures At(a, m, den) <= At(a, n, den)
  {
    var q := Below(m, den);
    IndicesInRange(m, den, |a| - 1);
    IndicesInRange(n, den, |a| - 1);
    AboveIsNext(m, den);
    AboveIsNext(n, den);
    if m % den == 0 {
      Exact(a, m, den);
      FractionInUnit(n, den);
      Mixture(a[q], a[Above(n, den)], Fraction(n, den), a[q], a[Above(n, den)]);
    } else {
      DivMod(m, den);
      DivMod(n, den);
      FractionGrows(m, n, den);
      SlideUp(a[q], a[q + 1], Fraction(m, den), Fraction(n, den));
    }
  }

  lemma QuantiseGrows(x: real, y: real)
    requires x <= y
    ensures Quantise(x) <= Quantise(y)
  {
    ScaleLess(x, y, MAX as real);
  }

  /** A non-decreasing input gives a non-decreasing table. */
  lemma TableGrows(a: seq<real>, g: nat, i: nat, j: nat)
    requires g >= 2 && a != [] && i <= j < g && NonDecreasing(a)
    ensures Sample(a, g, i) <= Sample(a, g, j) && Table(a, g)[i] <= Table(a, g)[j]
  {
    LastIndex(|a| - 1, g - 1, i);
    LastIndex(|a| - 1, g - 1, j);
    LastIndex(|a| - 1, j, i);
    AtGrows(a, (|a| - 1) * i, (|a| - 1) * j, g - 1);
    QuantiseGrows(Sample(a, g, i), Sample(a, g, j));
  }

  ghost predicate Affine(a: seq<real>, c: real, d: real) {
    forall k :: 0 <= k < |a| ==> a[k] == c + d * k as real
  }

  lemma PositionSplits(num: nat, den: nat)
    requires den >= 1
    ensures num as real / den as real == (num / den) as real + Fraction(num, den)
  {
    DivMod(num, den);
    var q, r, d := (num / den) as real, (num % den) as real, den as real;
    assert num as real == d * q + r;
    assert (d * q + r) / d == q + r / d by { CancelFactor(q, r, d); }
  }

  lemma CancelFactor(q: real, r: real, d: real)
    requires d > 0.0
    ensures (d * q + r) / d == q + r / d
  {
    assert (q + r / d) * d == d * q + r by {
      assert (r / d) * d == r;
      assert (q + r / d) * d == q * d + (r / d) * d;
    }
    UniqueQuotient(d * q + r, d, q + r / d);
  }

  lemma UniqueQuotient(x: real, d: real, z: real)
    requires d > 0.0 && z * d == x
    ensures x / d == z
  {
  }

  lemma AffineAt(a: seq<real>, c: real, d: real, num: nat, den: nat)
    requires den >= 1 && a != [] && num <= (|a| - 1) * den && Affine(a, c, d)
    ensures At(a, num, den) == c + d * (num as real / den as real)
  {
    IndicesInRange(num, den, |a| - 1);
    AboveIsNext(num, den);
    PositionSplits(num, den);
    var q, f, x := Below(num, den), Fraction(num, den), num as real / den as real;
    assert a[q] == c + d * q as real;
    if num % den == 0 {
      Exact(a, num, den);
      assert x == q as real;
    } else {
      assert a[q + 1] == c + d * (q + 1) as real;
      AffineStep(c, d, q as real, f, (q + 1) as real, x);
    }
  }

  /** An affine ramp stays affine: entry i lies at position (n-1)*i/(g-1) of the ramp. */
  lemma AffineStaysAffine(a: seq<real>, g: nat, i: nat, c: real, d: real)
    requires g >= 2 && a != [] && i < g && Affine(a, c, d)
    ensures Sample(a, g, i) == c + d * (((|a| - 1) * i) as real / (g - 1) as real)
  {
    LastIndex(|a| - 1, g - 1, i);
    AffineAt(a, c, d, (|a| - 1) * i, g - 1);
  }

  lemma AffineStep(c: real, d: real, q: real, f: real, next: real, x: real)
    requires next == q + 1.0 && x == q + f
    ensures Interpolate(c + d * q, c + d * next, f) == c + d * x
  {
    var p := c + d * q;
    Distribute(d, q, 1.0);
    Distribute(d, q, f);
    assert p * (1.0 - f) + (p + d) * f == p + d * f;
  }

  lemma Distribute(d: real, x: real, y: real)
    ensures d * (x + y) == d * x + d * y
  {
  }

  /** Resampling to a finer grid that contains the old one, and back, loses nothing. */
  lemma ThereAndBack(a: seq<real>, g: nat, m: nat)
    requires |a| >= 2 && m >= 1 && g == m * (|a| - 1) + 1 && g >= 2
    ensures Resample(Resample(a, g), |a|) == a
  {
    var b, last := Resample(a, g), |a| - 1;
    forall k | 0 <= k < |a| ensures Resample(b, |a|)[k] == a[k] {
      LastIndex(m, last, k);
      Reassociate(m, last, k);
      SampleIs(b, |a|, k, m * k);
      SampleIs(a, g, m * k, k);
    }
  }

  lemma Reassociate(m: nat, last: nat, k: nat)
    ensures (m * last) * k == last * (m * k)
  {
    assert m * (last * k) == (m * last) * k;
    assert last * (m * k) == (last * m) * k;
  }

  // ---- the loop as written ----

  lemma FloorIs(x: real, q: int)
    requires q as real <= x < q as real + 1.0
    ensures x.Floor == q
  {
  }

  /** The floor, ceiling and fractional part of the position x. */
  lemma PositionParts(num: nat, den: nat, x: real)
    requires den >= 1 && x == (num / den) as real + Fraction(num, den)
    ensures x.Floor == Below(num, den)
    ensures -((-x).Floor) == Above(num, den)
    ensures x - x.Floor as real == Fraction(num, den)
  {
    FractionInUnit(num, den);
    AboveIsNext(num, den);
    FloorIs(x, Below(num, den));
    if num % den == 0 {
      assert Fraction(num, den) == 0.0;
      FloorIs(-x, -Below(num, den));
    } else {
      FractionPositive(num, den);
      FloorIs(-x, -Below(num, den) - 1);
    }
  }

  /** What the loop calls mix is that position. */
  lemma MixIs(last: nat, den: nat, i: nat)
    requires den >= 1
    ensures last as real / den as real * i as real == ((last * i) / den) as real + Fraction(last * i, den)
  {
    MixIsPosition(last as real, den as real, i as real);
    assert (last * i) as real == last as real * i as real;
    PositionSplits(last * i, den);
  }

  lemma FractionPositive(num: nat, den: nat)
    requires den >= 1 && num % den != 0
    ensures Fraction(num, den) > 0.0
  {
    var r, d := (num % den) as real, den as real;
    assert r > 0.0 && (r / d) * d == r;
  }

  lemma MixIsPosition(x: real, d: real, i: real)
    requires d > 0.0
    ensures x / d * i == (x * i) / d
  {
    assert (x / d * i) * d == x * i by { assert (x / d) * d == x; }
    UniqueQuotient(x * i, d, x / d * i);
  }

  function Reds(a: seq<Rgb>): (r: seq<real>) ensures |r| == |a| { seq(|a|, i requires 0 <= i < |a| => a[i].R) }
  function Greens(a: seq<Rgb>): (r: seq<real>) ensures |r| == |a| { seq(|a|, i requires 0 <= i < |a| => a[i].G) }
  function Blues(a: seq<Rgb>): (r: seq<real>) ensures |r| == |a| { seq(|a|, i requires 0 <= i < |a| => a[i].B) }

  /** One round of the loop: the interpolated colour, before it is quantised. */
  method Mixed(clut: seq<Rgb>, gammaSize: nat, i: nat) returns (result: Rgb)
    requires gammaSize >= 2 && clut != [] && i < gammaSize
    ensures result == Rgb(Sample(Reds(clut), gammaSize, i), Sample(Greens(clut), gammaSize, i),
                          Sample(Blues(clut), gammaSize, i))
  {
    var mix := (|clut| - 1) as real / (gammaSize - 1) as real * i as real;
    LastIndex(|clut| - 1, gammaSize - 1, i);
    ghost var num, den := (|clut| - 1) * i, gammaSize - 1;
    MixIs(|clut| - 1, den, i);
    PositionParts(num, den, mix);
    IndicesInRange(num, den, |clut| - 1);
    var p1, p2 := clut[mix.Floor], clut[-((-mix).Floor)];
    var f := mix - mix.Floor as real;
    result := Rgb(Interpolate(p1.R, p2.R, f), Interpolate(p1.G, p2.G, f), Interpolate(p1.B, p2.B, f));
  }

  /** The table begins and ends with these two samples. */
  predicate EndsShown(table: seq<int>, first: real, last: real) {
    table != [] && table[0] == (first * 65535.0).Floor && table[|table| - 1] == (last * 65535.0).Floor
  }

  lemma EndEntries(a: seq<real>, g: nat)
    requires g >= 2 && a != []
    ensures EndsShown(Table(a, g), a[0], a[|a| - 1])
  {
    Endpoints(a, g);
  }

  lemma ChannelEnds(clut: seq<Rgb>, size: nat, r: seq<int>, g: seq<int>, b: seq<int>)
    requires size >= 2 && clut != []
    requires r == Table(Reds(clut), size) && g == Table(Greens(clut), size) && b == Table(Blues(clut), size)
    ensures EndsShown(r, clut[0].R, clut[|clut| - 1].R) && EndsShown(g, clut[0].G, clut[|clut| - 1].G)
    ensures EndsShown(b, clut[0].B, clut[|clut| - 1].B)
  {
    EndEntries(Reds(clut), size);
    EndEntries(Greens(clut), size);
    EndEntries(Blues(clut), size);
  }

  /** cc_color_calibrate_calib_set_output_gamma, up to sending the three tables */
  method SetOutputGamma(clut: seq<Rgb>, gammaSize: nat)
    returns (outcome: Outcome, red: array<int>, green: array<int>, blue: array<int>)
    requires gammaSize >= 2
    ensures outcome == NoData <==> clut == []
    ensures fresh(red) && fresh(green) && fresh(blue)
    ensures outcome == Sent ==>
              && red[..] == Table(Reds(clut), gammaSize)
              && green[..] == Table(Greens(clut), gammaSize)
              && blue[..] == Table(Blues(clut), gammaSize)
    ensures outcome == Sent ==>
              EndsShown(red[..], clut[0].R, clut[|clut| - 1].R) && EndsShown(green[..], clut[0].G, clut[|clut| - 1].G)
              && EndsShown(blue[..], clut[0].B, clut[|clut| - 1].B)
  {
    red, green, blue := new int[gammaSize], new int[gammaSize], new int[gammaSize];
    if |clut| == 0 {
      return NoData, red, green, blue;
    }
    ghost var r, g, b := Table(Reds(clut), gammaSize), Table(Greens(clut), gammaSize), Table(Blues(clut), gammaSize);
    var i := 0;
    while i < gammaSize
      invariant 0 <= i <= gammaSize
      invariant forall k :: 0 <= k < i ==> red[k] == r[k] && green[k] == g[k] && blue[k] == b[k]
    {
      var result := Mixed(clut, gammaSize, i);
      red[i] := Quantise(result.R);
      green[i] := Quantise(result.G);
      blue[i] := Quantise(result.B);
      i := i + 1;
    }
    ChannelEnds(clut, gammaSize, r, g, b);
    assert red[..] == r && green[..] == g && blue[..] == b;
    outcome := Sent;
  }
}
