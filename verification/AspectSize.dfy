/**
 Output sizes that keep a ratio exactly, are divisible by a grid, and come as near to a requested short side as limits
 allow.
 */
module AspectSize {
  import opened Wrappers
  import opened Decimal
  import opened Numbers

  /** The ratio as written: two integers, or something that cannot be read as that. */
  datatype Ratio = Ratio(a: int, b: int) | Unreadable

  datatype SizeError = DivisionByZero | NegativeRoot

  // ----- products

  lemma ProductIsPositive(a: int, b: int)
    requires a > 0 && b > 0
    ensures a * b > 0
  {
  }

  lemma ProductGrows(f: int, a: int, b: int)
    requires f > 0 && a <= b
    ensures f * a <= f * b
    ensures a < b ==> f * a + f <= f * b
  {
    Distributes(f, a, b - a);
    NotNegative(f, b - a);
    if a < b {
      Distributes(f, a + 1, b - a - 1);
      Distributes(f, a, 1);
      NotNegative(f, b - a - 1);
    }
  }

  lemma Distributes(f: int, a: int, b: int)
    ensures f * (a + b) == f * a + f * b
  {
  }

  lemma NotNegative(a: int, b: int)
    requires a >= 0 && b >= 0
    ensures a * b >= 0
  {
  }

  // ----- divisors

  function Gcd(a: nat, b: nat): nat
    decreases b
  {
    if b == 0 then a else Gcd(b, a % b)
  }

  /** d divides n. */
  ghost predicate Divides(d: int, n: int)
  {
    exists k :: IsProduct(n, d, k)
  }

  ghost predicate IsProduct(n: int, d: int, k: int)
  {
    n == d * k
  }

  /** The greatest common divisor divides both numbers and is a combination of them. */
  lemma {:induction false} GcdIsCombination(a: nat, b: nat) returns (x: int, y: int, p: int, q: int)
    ensures a * x + b * y == Gcd(a, b)
    ensures a == Gcd(a, b) * p && b == Gcd(a, b) * q
    ensures a > 0 || b > 0 ==> Gcd(a, b) > 0
    decreases b
  {
    if b == 0 {
      x, y, p, q := 1, 0, 1, 0;
    } else {
      var x', y', p', q' := GcdIsCombination(b, a % b);
      var g, k := Gcd(b, a % b), a / b;
      x, y, p, q := y', x' - k * y', k * p' + q', p';
      BezoutStep(a, b, k, a % b, x', y');
      FactorStep(g, k, p', q');
    }
  }

  lemma BezoutStep(a: int, b: int, k: int, rest: int, x: int, y: int)
    requires a == k * b + rest
    ensures a * y + b * (x - k * y) == b * x + rest * y
  {
    assert a * y == k * b * y + rest * y;
    assert b * (x - k * y) == b * x - b * (k * y);
    assert b * (k * y) == k * b * y;
  }

  lemma FactorStep(g: int, k: int, p: int, q: int)
    ensures k * (g * p) + g * q == g * (k * p + q)
  {
    assert g * (k * p + q) == g * (k * p) + g * q;
    assert g * (k * p) == k * (g * p);
  }

  /** The ratio in lowest terms; 9:16 for anything that is not two positive integers. */
  function Reduced(ratio: Ratio): (int, int)
  {
    if ratio.Unreadable? || ratio.a <= 0 || ratio.b <= 0 then (9, 16)
    else
      var g := Gcd(ratio.a, ratio.b);
      if g > 0 then (ratio.a / g, ratio.b / g) else (9, 16)
  }

  /** Positive, with a combination of 1: no common divisor but 1. */
  ghost predicate IsReduced(aw: int, ah: int, x: int, y: int)
  {
    aw > 0 && ah > 0 && aw * x + ah * y == 1
  }

  /** The reduced ratio is positive, in lowest terms, and the ratio that was read. */
  lemma ReducedIsReduced(ratio: Ratio) returns (x: int, y: int)
    ensures IsReduced(Reduced(ratio).0, Reduced(ratio).1, x, y)
    ensures ratio.Ratio? && ratio.a > 0 && ratio.b > 0 ==> ratio.a * Reduced(ratio).1 == ratio.b * Reduced(ratio).0
  {
    if ratio.Unreadable? || ratio.a <= 0 || ratio.b <= 0 {
      return -7, 4;
    }
    var p, q;
    x, y, p, q := GcdIsCombination(ratio.a, ratio.b);
    QuotientIs(ratio.a, Gcd(ratio.a, ratio.b), p);
    QuotientIs(ratio.b, Gcd(ratio.a, ratio.b), q);
    QuotientsAreReduced(ratio.a, ratio.b, Gcd(ratio.a, ratio.b), p, q, x, y);
  }

  lemma QuotientsAreReduced(a: int, b: int, g: int, p: int, q: int, x: int, y: int)
    requires a > 0 && b > 0 && g > 0 && a == g * p && b == g * q && a * x + b * y == g
    ensures IsReduced(p, q, x, y) && a * q == b * p
  {
    FactorIsPositive(g, p);
    FactorIsPositive(g, q);
    Collect(g, p, q, x, y);
    CancelOne(g, p * x + q * y);
    Swap(g, p, q);
  }

  lemma FactorIsPositive(g: int, p: int)
    requires g > 0 && g * p > 0
    ensures p > 0
  {
  }

  lemma Collect(g: int, p: int, q: int, x: int, y: int)
    ensures (g * p) * x + (g * q) * y == g * (p * x + q * y)
  {
    Distributes(g, p * x, q * y);
    assert (g * p) * x == g * (p * x);
    assert (g * q) * y == g * (q * y);
  }

  lemma Swap(g: int, p: int, q: int)
    ensures (g * p) * q == (g * q) * p
  {
  }

  // ----- reading the ratio

  /** An ASCII or a full-width colon. */
  predicate IsSeparator(c: char)
  {
    c == ':' || c == '\U{FF1A}'
  }

  /** The text split at every separator. */
  function Parts(s: string): (r: seq<string>)
    ensures r != []
  {
    if s == "" then [""]
    else
      var before, c := Parts(s[..|s| - 1]), s[|s| - 1];
      if IsSeparator(c) then before + [""]
      else before[|before| - 1 := before[|before| - 1] + [c]]
  }

  predicate NoSeparator(s: string)
  {
    forall i | 0 <= i < |s| :: !IsSeparator(s[i])
  }

  lemma {:induction false} OnePart(s: string)
    requires NoSeparator(s)
    ensures Parts(s) == [s]
  {
    if s != "" {
      OnePart(s[..|s| - 1]);
      assert s == s[..|s| - 1] + [s[|s| - 1]];
    }
  }

  lemma {:induction false} TwoParts(a: string, c: char, b: string)
    requires NoSeparator(a) && IsSeparator(c) && NoSeparator(b)
    ensures Parts(a + [c] + b) == [a, b]
  {
    var s := a + [c] + b;
    if b == "" {
      OnePart(a);
      assert s[..|s| - 1] == a;
    } else {
      var init, last := b[..|b| - 1], b[|b| - 1];
      TwoParts(a, c, init);
      assert s[..|s| - 1] == a + [c] + init;
      assert b == init + [last];
    }
  }

  /** Exactly two parts that are integers; `strip` and `toInt` are what Python makes of a text. None is not a text. */
  function ReadRatio(text: Option<string>, strip: string -> string, toInt: string -> Option<int>): Ratio
  {
    if text.None? then Unreadable
    else
      var parts := Parts(strip(text.value));
      if |parts| != 2 then Unreadable
      else
        match (toInt(parts[0]), toInt(parts[1]))
        case (Some(a), Some(b)) => Ratio(a, b)
        case _ => Unreadable
  }

  function ParseRatio(text: Option<string>, strip: string -> string, toInt: string -> Option<int>): (int, int)
  {
    Reduced(ReadRatio(text, strip, toInt))
  }

  /** Whatever the text, the parsed ratio is positive and in lowest terms. */
  lemma ParsedIsReduced(text: Option<string>, strip: string -> string, toInt: string -> Option<int>)
    returns (x: int, y: int)
    ensures var (aw, ah) := ParseRatio(text, strip, toInt);
            && IsReduced(aw, ah, x, y)
            && (ReadRatio(text, strip, toInt).Unreadable? ==> (aw, ah) == (9, 16))
  {
    x, y := ReducedIsReduced(ReadRatio(text, strip, toInt));
  }

  /** Two positive numbers written with either colon between them come back as the same ratio. */
  lemma WrittenRatioIsRead(a: nat, colon: char, b: nat, strip: string -> string, toInt: string -> Option<int>)
    requires a > 0 && b > 0 && IsSeparator(colon)
    requires toInt(Show(a)) == Some(a) && toInt(Show(b)) == Some(b)
    requires strip(Show(a) + [colon] + Show(b)) == Show(a) + [colon] + Show(b)
    ensures var (aw, ah) := ParseRatio(Some(Show(a) + [colon] + Show(b)), strip, toInt);
            aw > 0 && ah > 0 && a * ah == b * aw
  {
    DigitsDoNotSeparate(Show(a));
    DigitsDoNotSeparate(Show(b));
    TextIsRead(Show(a), colon, Show(b), a, b, strip, toInt);
    var x, y := ReducedIsReduced(Ratio(a, b));
  }

  lemma DigitsDoNotSeparate(s: string)
    requires AllDigits(s)
    ensures NoSeparator(s)
  {
    forall i | 0 <= i < |s| ensures !IsSeparator(s[i]) {
      assert IsDigit(s[i]);
    }
  }

  lemma TextIsRead(
    left: string, colon: char, right: string, a: int, b: int, strip: string -> string, toInt: string -> Option<int>)
    requires NoSeparator(left) && IsSeparator(colon) && NoSeparator(right)
    requires toInt(left) == Some(a) && toInt(right) == Some(b)
    requires strip(left + [colon] + right) == left + [colon] + right
    ensures ReadRatio(Some(left + [colon] + right), strip, toInt) == Ratio(a, b)
  {
    TwoParts(left, colon, right);
  }

  lemma QuotientIs(a: int, g: int, p: int)
    requires g > 0 && a == g * p
    ensures a / g == p
  {
    var q := a / g;
    assert a == g * q + a % g;
    if p < q {
      ProductGrows(g, p, q);
    } else if q < p {
      ProductGrows(g, q, p);
    }
  }

  lemma CancelOne(g: int, k: int)
    requires g > 0
    ensures g * k == g ==> k == 1
  {
  }

  // ----- rounding and roots

  /** Python's round(a / b): to the nearest integer, halves to even. */
  function RoundHalfEven(a: int, b: int): (r: int)
    requires b > 0
    ensures -b <= 2 * (b * r - a) <= b
    ensures 2 * (b * r - a) == b || 2 * (b * r - a) == -b ==> r % 2 == 0
  {
    var q, rest := a / b, a % b;
    if 2 * rest < b then q
    else if 2 * rest > b then q + 1
    else if q % 2 == 0 then q
    else q + 1
  }

  /** math.isqrt */
  function Isqrt(n: nat): (r: nat)
    ensures r * r <= n < (r + 1) * (r + 1)
  {
    if n == 0 then 0
    else
      var r := Isqrt(n - 1);
      if (r + 1) * (r + 1) <= n then r + 1 else r
  }

  /** m // d for positive d: rounds down. */
  function FloorDiv(m: int, d: int): (q: int)
    requires d > 0
    ensures m >= 0 ==> q >= 0
    ensures m - d < d * q <= m
  {
    m / d
  }

  /** Both with a divisor of either sign. */
  function RoundedQuotient(a: int, b: int): int
    requires b != 0
  {
    if b > 0 then RoundHalfEven(a, b) else RoundHalfEven(-a, -b)
  }

  function FlooredQuotient(a: int, b: int): int
    requires b != 0
  {
    if b > 0 then FloorDiv(a, b) else FloorDiv(-a, -b)
  }

  // ----- the size

  /** The multiple of the smallest legal size that is chosen. */
  function Scale(aw: int, ah: int, shortEdge: int, roundTo: int, maxLong: Option<int>, maxPixels: Option<nat>): (t: int)
    requires aw > 0 && ah > 0 && roundTo != 0
    ensures t >= 1
  {
    var t := Max(1, RoundedQuotient(shortEdge, Unit(roundTo, Min(aw, ah))));
    var byLong :=
      if maxLong.Some? then Min(t, Max(1, FlooredQuotient(maxLong.value, Unit(roundTo, Max(aw, ah))))) else t;
    var byPixels :=
      if maxPixels.Some? then Min(byLong, Max(1, Isqrt(FloorDiv(maxPixels.value, Area(aw, ah, roundTo))))) else byLong;
    Max(1, byPixels)
  }

  lemma ProductIsNegative(a: int, b: int)
    requires a < 0 && b > 0
    ensures a * b < 0
  {
  }

  function Unit(roundTo: int, component: int): (u: int)
    requires roundTo != 0 && component > 0
    ensures u == roundTo * component && (u > 0 <==> roundTo > 0) && u != 0
  {
    if roundTo > 0 then
      ProductIsPositive(roundTo, component);
      roundTo * component
    else
      ProductIsNegative(roundTo, component);
      roundTo * component
  }

  function Area(aw: int, ah: int, roundTo: int): (r: int)
    requires aw > 0 && ah > 0 && roundTo != 0
    ensures r == (roundTo * aw) * (roundTo * ah) && r > 0
  {
    SameSignProduct(Unit(roundTo, aw), Unit(roundTo, ah));
    (roundTo * aw) * (roundTo * ah)
  }

  lemma SameSignProduct(a: int, b: int)
    requires (a > 0 && b > 0) || (a < 0 && b < 0)
    ensures a * b > 0
  {
    if a < 0 {
      ProductIsPositive(-a, -b);
    }
  }

  datatype Size = Size(width: int, height: int)

  function SizeAt(aw: int, ah: int, roundTo: int, t: int): Size
  {
    Size(roundTo * aw * t, roundTo * ah * t)
  }

  function AspectSizeOf(
    aw: int, ah: int, shortEdge: int, roundTo: int, maxLong: Option<int>, maxPixels: Option<int>)
    : Result<Size, SizeError>
    requires aw > 0 && ah > 0
  {
    if roundTo == 0 then Err(DivisionByZero)
    else if maxPixels.Some? && maxPixels.value < 0 then Err(NegativeRoot)
    else
      var pixels: Option<nat> := if maxPixels.Some? then Some(maxPixels.value) else None;
      Ok(SizeAt(aw, ah, roundTo, Scale(aw, ah, shortEdge, roundTo, maxLong, pixels)))
  }

  /** A grid step below zero, which the code takes as it is, makes both sides negative: no legal size at all. */
  lemma NegativeGrid(aw: int, ah: int, shortEdge: int, roundTo: int, maxLong: Option<int>, maxPixels: Option<int>)
    requires aw > 0 && ah > 0
    ensures var r := AspectSizeOf(aw, ah, shortEdge, roundTo, maxLong, maxPixels);
            && (r.Ok? <==> roundTo != 0 && (maxPixels.Some? ==> maxPixels.value >= 0))
            && (r.Ok? ==> && (r.value.width > 0 <==> roundTo > 0) && (r.value.height > 0 <==> roundTo > 0)
                          && (IsLegal(aw, ah, roundTo, r.value) <==> roundTo > 0))
  {
    var r := AspectSizeOf(aw, ah, shortEdge, roundTo, maxLong, maxPixels);
    if r.Ok? {
      var pixels: Option<nat> := if maxPixels.Some? then Some(maxPixels.value) else None;
      var t := Scale(aw, ah, shortEdge, roundTo, maxLong, pixels);
      if roundTo > 0 {
        MultiplesAreLegal(aw, ah, roundTo, t);
      } else {
        ProductIsNegative(Unit(roundTo, aw), t);
        ProductIsNegative(Unit(roundTo, ah), t);
      }
    }
  }

  // ----- what the size is

  /** A size with exactly the ratio aw:ah and both sides positive multiples of roundTo. */
  ghost predicate IsLegal(aw: int, ah: int, roundTo: int, size: Size)
  {
    && size.width > 0 && size.height > 0
    && size.width * ah == size.height * aw
    && Divides(roundTo, size.width) && Divides(roundTo, size.height)
  }

  /** The legal sizes are exactly the multiples that are searched. */
  lemma LegalSizesAreMultiples(aw: int, ah: int, x: int, y: int, roundTo: int, size: Size) returns (t: int)
    requires IsReduced(aw, ah, x, y) && roundTo > 0
    ensures IsLegal(aw, ah, roundTo, size) ==> t >= 1 && size == SizeAt(aw, ah, roundTo, t)
  {
    t := 0;
    if IsLegal(aw, ah, roundTo, size) {
      var w :| IsProduct(size.width, roundTo, w);
      var h :| IsProduct(size.height, roundTo, h);
      t := w * x + h * y;
      Regroup(roundTo, w, ah);
      Regroup(roundTo, h, aw);
      CancelFactor(roundTo, w * ah, h * aw);
      Combine(aw, ah, x, y, w, h);
      Regroup(roundTo, aw, t);
      Regroup(roundTo, ah, t);
      PositiveMultiple(Unit(roundTo, aw), t);
    }
  }

  lemma Regroup(a: int, b: int, c: int)
    ensures (a * b) * c == a * (b * c)
  {
  }

  lemma PositiveMultiple(u: int, t: int)
    requires u > 0 && u * t > 0
    ensures t >= 1
  {
  }

  lemma CancelFactor(f: int, a: int, b: int)
    requires f > 0 && f * a == f * b
    ensures a == b
  {
  }

  /** Bezout's identity at work: from w * ah == h * aw, both are the same multiple. */
  lemma Combine(aw: int, ah: int, x: int, y: int, w: int, h: int)
    requires IsReduced(aw, ah, x, y) && w * ah == h * aw
    ensures w == aw * (w * x + h * y) && h == ah * (w * x + h * y)
  {
    calc {
      aw * (w * x + h * y);
      w * (aw * x) + (h * aw) * y;
      w * (aw * x + ah * y);
      w;
    }
    calc {
      ah * (w * x + h * y);
      (w * ah) * x + h * (ah * y);
      h * (aw * x + ah * y);
      h;
    }
  }

  lemma MultiplesAreLegal(aw: int, ah: int, roundTo: int, t: int)
    requires aw > 0 && ah > 0 && roundTo > 0 && t >= 1
    ensures IsLegal(aw, ah, roundTo, SizeAt(aw, ah, roundTo, t))
  {
    ProductIsPositive(roundTo, aw);
    ProductIsPositive(roundTo, ah);
    ProductIsPositive(roundTo * aw, t);
    ProductIsPositive(roundTo * ah, t);
    assert IsProduct(roundTo * aw * t, roundTo, aw * t);
    assert IsProduct(roundTo * ah * t, roundTo, ah * t);
    assert (roundTo * aw * t) * ah == (roundTo * ah * t) * aw;
  }

  // ----- the limits

  ghost predicate Fits(size: Size, maxLong: Option<int>, maxPixels: Option<int>)
  {
    && (maxLong.Some? ==> Max(size.width, size.height) <= maxLong.value)
    && (maxPixels.Some? ==> size.width * size.height <= maxPixels.value)
  }

  lemma QuotientBound(d: int, m: int, t: int)
    requires d > 0
    ensures d * t <= m <==> t <= FloorDiv(m, d)
  {
    var q := FloorDiv(m, d);
    if t <= q {
      ProductGrows(d, t, q);
    } else {
      ProductGrows(d, q, t);
    }
  }

  lemma SquareGrows(a: int, b: int)
    requires 0 <= a <= b
    ensures a * a <= b * b
  {
    assert b * b == a * a + a * (b - a) + b * (b - a);
    assert a * (b - a) >= 0 && b * (b - a) >= 0;
  }

  lemma RootBound(n: nat, t: int)
    requires t >= 1
    ensures t * t <= n <==> t <= Isqrt(n)
  {
    var r := Isqrt(n);
    if t <= r {
      SquareGrows(t, r);
    } else {
      SquareGrows(r + 1, t);
    }
  }

  lemma LongSide(aw: int, ah: int, roundTo: int, t: int)
    requires aw > 0 && ah > 0 && roundTo > 0 && t >= 1
    ensures Max(SizeAt(aw, ah, roundTo, t).width, SizeAt(aw, ah, roundTo, t).height) == Unit(roundTo, Max(aw, ah)) * t
    ensures Min(SizeAt(aw, ah, roundTo, t).width, SizeAt(aw, ah, roundTo, t).height) == Unit(roundTo, Min(aw, ah)) * t
  {
    if aw <= ah {
      Scaled(roundTo, aw, ah, t);
    } else {
      Scaled(roundTo, ah, aw, t);
    }
  }

  lemma Scaled(r: int, a: int, b: int, t: int)
    requires r > 0 && t >= 1 && a <= b
    ensures r * a * t <= r * b * t
  {
    ProductGrows(r, a, b);
    ProductGrows(t, r * a, r * b);
  }

  lemma PixelsOf(aw: int, ah: int, roundTo: int, t: int)
    requires aw > 0 && ah > 0 && roundTo > 0
    ensures SizeAt(aw, ah, roundTo, t).width * SizeAt(aw, ah, roundTo, t).height == Area(aw, ah, roundTo) * (t * t)
  {
    var w, h := roundTo * aw, roundTo * ah;
    assert (w * t) * (h * t) == (w * h) * (t * t);
  }

  /** A multiple fits exactly when it is no more than both bounds the code computes. */
  lemma FitsIffWithin(aw: int, ah: int, roundTo: int, maxLong: Option<int>, maxPixels: Option<nat>, t: int)
    requires aw > 0 && ah > 0 && roundTo > 0 && t >= 1
    ensures Fits(SizeAt(aw, ah, roundTo, t), maxLong, if maxPixels.Some? then Some(maxPixels.value) else None) <==>
            && (maxLong.Some? ==> t <= FloorDiv(maxLong.value, Unit(roundTo, Max(aw, ah))))
            && (maxPixels.Some? ==> t <= Isqrt(FloorDiv(maxPixels.value, Area(aw, ah, roundTo))))
  {
    LongSide(aw, ah, roundTo, t);
    if maxLong.Some? {
      QuotientBound(Unit(roundTo, Max(aw, ah)), maxLong.value, t);
    }
    if maxPixels.Some? {
      var area := Area(aw, ah, roundTo);
      PixelsOf(aw, ah, roundTo, t);
      QuotientBound(area, maxPixels.value, t * t);
      RootBound(maxPixels.value / area, t);
    }
  }

  /** Rounding and then lowering gives the nearest multiple among the positive ones up to a bound. */
  lemma NearestBelow(unit: int, shortEdge: int, bound: int, chosen: int, t: int)
    requires unit > 0 && 1 <= t <= bound
    requires chosen == Min(Max(1, RoundHalfEven(shortEdge, unit)), bound)
    ensures Distance(unit * chosen, shortEdge) <= Distance(unit * t, shortEdge)
    ensures t != chosen && Distance(unit * chosen, shortEdge) == Distance(unit * t, shortEdge) ==> chosen % 2 == 0
  {
    var r := RoundHalfEven(shortEdge, unit);
    if t < chosen {
      ProductGrows(unit, t, chosen - 1);
      ProductGrows(unit, chosen, r);
      Distributes(unit, chosen, -1);
      if chosen < r {
        ProductGrows(unit, chosen, r - 1);
        Distributes(unit, r, -1);
      }
    } else if t > chosen {
      ProductGrows(unit, chosen + 1, t);
      ProductGrows(unit, r, chosen);
      Distributes(unit, chosen, 1);
      if r < chosen {
        ProductGrows(unit, r + 1, chosen);
        Distributes(unit, r, 1);
      }
    }
  }

  /**
   The size has exactly the ratio and divides by the grid. When the smallest such size fits the limits, the result
   fits them, and among all sizes that do its short side is nearest to the request, the even multiple if two are equally
   near; otherwise it is the smallest.
   */
  lemma SizeIsOptimal(
    text: Option<string>, strip: string -> string, toInt: string -> Option<int>, shortEdge: int, roundTo: int,
    maxLong: Option<int>, maxPixels: Option<int>, other: Size)
    ensures var (aw, ah) := ParseRatio(text, strip, toInt);
            && aw > 0 && ah > 0
            && var r := AspectSizeOf(aw, ah, shortEdge, roundTo, maxLong, maxPixels);
               && (r.Ok? <==> roundTo != 0 && (maxPixels.Some? ==> maxPixels.value >= 0))
               && (r.Ok? ==> (IsLegal(aw, ah, roundTo, r.value) <==> roundTo > 0))
               && (r.Ok? && roundTo > 0 ==> IsOptimal(aw, ah, shortEdge, roundTo, maxLong, maxPixels, r.value, other))
  {
    var x, y := ParsedIsReduced(text, strip, toInt);
    var (aw, ah) := ParseRatio(text, strip, toInt);
    NegativeGrid(aw, ah, shortEdge, roundTo, maxLong, maxPixels);
    if roundTo > 0 && (maxPixels.Some? ==> maxPixels.value >= 0) {
      var pixels: Option<nat> := if maxPixels.Some? then Some(maxPixels.value) else None;
      ScaleIsOptimal(aw, ah, x, y, shortEdge, roundTo, maxLong, pixels, other);
    }
  }

  /** By how much the short side misses the request. */
  function Missed(size: Size, shortEdge: int): nat
  {
    Distance(Min(size.width, size.height), shortEdge)
  }

  /** Twice some multiple of the smallest legal size. */
  ghost predicate IsEvenMultiple(aw: int, ah: int, roundTo: int, size: Size)
  {
    exists half: int :: size == SizeAt(aw, ah, roundTo, 2 * half)
  }

  /**
   Fits the limits if the smallest legal size does, and then no other legal size that fits is nearer to the request; if
   another one is just as near, the even multiple has been chosen.
   */
  ghost predicate IsOptimal(
    aw: int, ah: int, shortEdge: int, roundTo: int, maxLong: Option<int>, maxPixels: Option<int>, chosen: Size,
    other: Size)
  {
    if Fits(SizeAt(aw, ah, roundTo, 1), maxLong, maxPixels) then
      && Fits(chosen, maxLong, maxPixels)
      && (IsLegal(aw, ah, roundTo, other) && Fits(other, maxLong, maxPixels) ==>
            && Missed(chosen, shortEdge) <= Missed(other, shortEdge)
            && (other != chosen && Missed(chosen, shortEdge) == Missed(other, shortEdge) ==>
                  IsEvenMultiple(aw, ah, roundTo, chosen)))
    else chosen == SizeAt(aw, ah, roundTo, 1)
  }

  lemma ScaleIsOptimal(
    aw: int, ah: int, x: int, y: int, shortEdge: int, roundTo: int, maxLong: Option<int>, maxPixels: Option<nat>,
    other: Size)
    requires IsReduced(aw, ah, x, y) && roundTo > 0
    ensures var pixels: Option<int> := if maxPixels.Some? then Some(maxPixels.value) else None;
            var chosen := SizeAt(aw, ah, roundTo, Scale(aw, ah, shortEdge, roundTo, maxLong, maxPixels));
            IsOptimal(aw, ah, shortEdge, roundTo, maxLong, pixels, chosen, other)
  {
    var t := Scale(aw, ah, shortEdge, roundTo, maxLong, maxPixels);
    FitsIffWithin(aw, ah, roundTo, maxLong, maxPixels, 1);
    FitsIffWithin(aw, ah, roundTo, maxLong, maxPixels, t);
    var u := LegalSizesAreMultiples(aw, ah, x, y, roundTo, other);
    var pixels: Option<int> := if maxPixels.Some? then Some(maxPixels.value) else None;
    if IsLegal(aw, ah, roundTo, other) && Fits(other, maxLong, pixels) {
      FitsIffWithin(aw, ah, roundTo, maxLong, maxPixels, u);
      ScaleIsNearest(aw, ah, shortEdge, roundTo, maxLong, maxPixels, u);
      if t % 2 == 0 {
        assert SizeAt(aw, ah, roundTo, t) == SizeAt(aw, ah, roundTo, 2 * (t / 2));
      }
    }
  }

  lemma ScaleIsNearest(
    aw: int, ah: int, shortEdge: int, roundTo: int, maxLong: Option<int>, maxPixels: Option<nat>, u: int)
    requires aw > 0 && ah > 0 && roundTo > 0 && u >= 1
    requires maxLong.Some? ==> u <= FloorDiv(maxLong.value, Unit(roundTo, Max(aw, ah)))
    requires maxPixels.Some? ==> u <= Isqrt(FloorDiv(maxPixels.value, Area(aw, ah, roundTo)))
    ensures var t := Scale(aw, ah, shortEdge, roundTo, maxLong, maxPixels);
            var chosen, other := SizeAt(aw, ah, roundTo, t), SizeAt(aw, ah, roundTo, u);
            && Missed(chosen, shortEdge) <= Missed(other, shortEdge)
            && (u != t && Missed(chosen, shortEdge) == Missed(other, shortEdge) ==> t % 2 == 0)
  {
    var unit := Unit(roundTo, Min(aw, ah));
    var t := Scale(aw, ah, shortEdge, roundTo, maxLong, maxPixels);
    var wanted := Max(1, RoundHalfEven(shortEdge, unit));
    LongSide(aw, ah, roundTo, t);
    LongSide(aw, ah, roundTo, u);
    NearestBelow(unit, shortEdge, if t < wanted then t else Max(u, wanted), t, u);
  }
}
