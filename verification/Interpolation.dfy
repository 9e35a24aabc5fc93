/** Table interpolation in fixed point: x has a table index above 20 bits of fraction. */
module Interpolation {

  type q7 = v: int | -0x80 <= v < 0x80
  type q15 = v: int | -0x8000 <= v < 0x8000
  type q31 = v: int | -0x8000_0000 <= v < 0x8000_0000

  /** The fraction's scale, and the largest fraction, which the code takes for one. */
  const SCALE := 0x10_0000
  const LAST := 0xF_FFFF

  function Index(x: q31): int
  {
    x / SCALE
  }

  function Fraction(x: q31): nat
  {
    x % SCALE
  }

  function Min(a: int, b: int): int
  {
    if a <= b then a else b
  }

  function Max(a: int, b: int): int
  {
    if a <= b then b else a
  }

  predicate Nondecreasing(table: seq<int>)
  {
    forall i, j :: 0 <= i <= j < |table| ==> table[i] <= table[j]
  }

  // -------------------------------------------------------------- q15 and q7

  /** The weighted sum of two neighbours, rounded down. */
  function Blend(y0: int, y1: int, fract: nat): int
  {
    (y0 * (LAST - fract) + y1 * fract) / SCALE
  }

  /** What becomes of a table value on its own: LAST is one short of the scale, so positive values lose one. */
  function Dip(y: int): int
  {
    if y > 0 then y - 1 else y
  }

  lemma BlendRange(y0: int, y1: int, fract: nat)
    requires -SCALE < y0 < SCALE && -SCALE < y1 < SCALE && fract <= LAST
    ensures Dip(Min(y0, y1)) <= Blend(y0, y1, fract) <= Dip(Max(y0, y1))
  {
    var lo, hi, w := Min(y0, y1), Max(y0, y1), y0 * (LAST - fract) + y1 * fract;
    Weighted(lo, y0, hi, LAST - fract);
    Weighted(lo, y1, hi, fract);
    assert lo * (LAST - fract) + lo * fract == lo * LAST;
    assert hi * (LAST - fract) + hi * fract == hi * LAST;
    assert lo * LAST <= w <= hi * LAST;
  }

  lemma Weighted(lo: int, y: int, hi: int, weight: nat)
    requires lo <= y <= hi
    ensures lo * weight <= y * weight <= hi * weight
  {
  }

  lemma BlendRises(y0: int, y1: int, f: nat, g: nat)
    requires y0 <= y1 && f <= g <= LAST
    ensures Blend(y0, y1, f) <= Blend(y0, y1, g)
  {
    assert y0 * (LAST - f) + y1 * f == y0 * LAST + (y1 - y0) * f;
    assert y0 * (LAST - g) + y1 * g == y0 * LAST + (y1 - y0) * g;
    assert (y1 - y0) * f <= (y1 - y0) * g;
  }

  /** `arm_linear_interp_q15` */
  function Interp15(table: seq<q15>, x: q31): (y: q15)
    requires 1 <= |table| <= 0x8000_0000
  {
    var index := Index(x);
    if index >= |table| - 1 then table[|table| - 1]
    else if index < 0 then table[0]
    else
      BlendRange(table[index], table[index + 1], Fraction(x));
      Blend(table[index], table[index + 1], Fraction(x))
  }

  /** `arm_linear_interp_q7` */
  function Interp7(table: seq<q7>, x: q31): (y: q7)
    requires 1 <= |table| <= 0x8000_0000
  {
    if x < 0 then table[0]
    else
      var index := Index(x) % 0x1000;
      if index >= |table| - 1 then table[|table| - 1]
      else
        BlendRange(table[index], table[index + 1], Fraction(x));
        Blend(table[index], table[index + 1], Fraction(x))
  }

  predicate InCell(table: seq<int>, x: q31)
  {
    0 <= Index(x) < |table| - 1
  }

  /** The value at x of the straight line through the two neighbours of x, times SCALE. */
  function Line(table: seq<int>, x: q31): int
    requires InCell(table, x)
  {
    var i := Index(x);
    table[i] * SCALE + (table[i + 1] - table[i]) * (x - i * SCALE)
  }

  /** Inside a cell the result is the line, less a SCALE-th of the left neighbour and rounded down, so less than two
      steps off it; and it stays between the neighbours, but for the one lost below a positive value. */
  lemma InCellRange(table: seq<q15>, x: q31)
    requires |table| <= 0x8000_0000 && InCell(table, x)
    ensures var y0, y1 := table[Index(x)], table[Index(x) + 1];
      Min(y0, y1) - 1 <= Dip(Min(y0, y1)) <= Interp15(table, x) <= Dip(Max(y0, y1)) <= Max(y0, y1)
    ensures var y, line, y0 := Interp15(table, x), Line(table, x), table[Index(x)];
      SCALE * y <= line - y0 < SCALE * (y + 1) && SCALE * (y - 2) < line < SCALE * (y + 2)
  {
    var y0, y1, f := table[Index(x)], table[Index(x) + 1], Fraction(x);
    BlendRange(y0, y1, f);
    LineIs(y0, y1, f);
    assert x - Index(x) * SCALE == f;
  }

  lemma LineIs(y0: int, y1: int, f: nat)
    requires f <= LAST
    ensures y0 * SCALE + (y1 - y0) * f - y0 == y0 * (LAST - f) + y1 * f
  {
  }

  /** At a table point inside the table the result is the table's value exactly when that is not positive. */
  lemma KnotExactIff(table: seq<q15>, i: nat)
    requires |table| <= 0x8000_0000 && i < |table| - 1 && i < 0x800
    ensures Interp15(table, i * SCALE) == Dip(table[i])
    ensures Interp15(table, i * SCALE) == table[i] <==> table[i] <= 0
  {
    assert Index(i * SCALE) == i && Fraction(i * SCALE) == 0;
    BlendRange(table[i], table[i], 0);
  }

  /** A nondecreasing table gives a nondecreasing function from 0 on: in a cell, across cells, into the clamp. */
  lemma RisesFromZero(table: seq<q15>, x: q31, z: q31)
    requires 1 <= |table| <= 0x8000_0000 && Nondecreasing(table) && 0 <= x <= z
    ensures Interp15(table, x) <= Interp15(table, z)
  {
    var i, k := Index(x), Index(z);
    assert i <= k;
    if InCell(table, x) {
      if i == k {
        BlendRises(table[i], table[i + 1], Fraction(x), Fraction(z));
      } else {
        InCellRange(table, x);
        if InCell(table, z) {
          InCellRange(table, z);
        }
      }
    }
  }

  /** The function interpolated, times SCALE: the line through the neighbours, and on either side the end value. */
  function Ideal(table: seq<int>, x: q31): int
    requires 1 <= |table|
  {
    if InCell(table, x) then Line(table, x) else SCALE * table[if x < 0 then 0 else |table| - 1]
  }

  /** For every x the result is less than two steps off that, and outside the cells it is exact. */
  lemma NearIdeal(table: seq<q15>, x: q31)
    requires 1 <= |table| <= 0x8000_0000
    ensures var y := Interp15(table, x);
      SCALE * (y - 2) < Ideal(table, x) < SCALE * (y + 2) && (!InCell(table, x) ==> SCALE * y == Ideal(table, x))
  {
    if InCell(table, x) {
      InCellRange(table, x);
    }
  }

  ghost predicate RisesEverywhere(table: seq<q15>)
    requires 1 <= |table| <= 0x8000_0000
  {
    forall x: q31, z: q31 :: x <= z ==> Interp15(table, x) <= Interp15(table, z)
  }

  /** Over all x it is nondecreasing exactly when nothing is lost at the table's start: below 0 the first value
      is returned as it is, at 0 it has lost one if positive. */
  lemma RisesEverywhereIff(table: seq<q15>)
    requires 1 <= |table| <= 0x8000_0000 && Nondecreasing(table)
    ensures RisesEverywhere(table) <==> |table| == 1 || table[0] <= 0
  {
    if |table| == 1 || table[0] <= 0 {
      forall x: q31, z: q31 | x <= z ensures Interp15(table, x) <= Interp15(table, z) {
        if 0 <= x {
          RisesFromZero(table, x, z);
        } else if 0 <= z && |table| > 1 {
          KnotExactIff(table, 0);
          RisesFromZero(table, 0, z);
        }
      }
    } else {
      KnotExactIff(table, 0);
      assert Interp15(table, -1) > Interp15(table, 0);
    }
  }

  /** The q7 routine, though it tests the sign first, is the q15 routine on q7 tables. */
  lemma SevenIsFifteen(table: seq<q7>, wide: seq<q15>, x: q31)
    requires 1 <= |table| <= 0x8000_0000 && |wide| == |table| && forall i :: 0 <= i < |table| ==> wide[i] == table[i]
    ensures Interp7(table, x) == Interp15(wide, x)
  {
    if x >= 0 {
      assert Index(x) < 0x800;
    } else {
      assert Index(x) < 0;
    }
  }

  // --------------------------------------------------------------------- q31

  const TWO32 := 0x1_0000_0000

  /** Each product is cut to its upper word before the two are added. */
  function Halves(y0: q31, y1: q31, fract: nat): int
    requires fract <= LAST
  {
    y0 * (0x7FFF_FFFF - 0x800 * fract) / TWO32 + y1 * (0x800 * fract) / TWO32
  }

  /** The two products before the cut. */
  function Exact(y0: q31, y1: q31, fract: nat): int
    requires fract <= LAST
  {
    y0 * (0x7FFF_FFFF - 0x800 * fract) + y1 * (0x800 * fract)
  }

  lemma CutTwice(a: int, b: int)
    ensures a + b - 2 * TWO32 < TWO32 * (a / TWO32 + b / TWO32) <= a + b
  {
  }

  /** The sum of products stays between the neighbours scaled by 2^31 - 1. */
  lemma ExactRange(y0: q31, y1: q31, fract: nat)
    requires fract <= LAST
    ensures Min(y0, y1) * 0x7FFF_FFFF <= Exact(y0, y1, fract) <= Max(y0, y1) * 0x7FFF_FFFF
  {
    var lo, hi, g := Min(y0, y1), Max(y0, y1), 0x800 * fract;
    Weighted(lo, y0, hi, 0x7FFF_FFFF - g);
    Weighted(lo, y1, hi, g);
    assert lo * (0x7FFF_FFFF - g) + lo * g == lo * 0x7FFF_FFFF;
    assert hi * (0x7FFF_FFFF - g) + hi * g == hi * 0x7FFF_FFFF;
  }

  lemma HalvesRange(y0: q31, y1: q31, fract: nat)
    requires fract <= LAST
    ensures Min(y0, y1) - 4 <= 2 * Halves(y0, y1, fract) <= Max(y0, y1)
    ensures Halves(y0, y1, fract) >= -0x4000_0000
  {
    ExactRange(y0, y1, fract);
    CutTwice(y0 * (0x7FFF_FFFF - 0x800 * fract), y1 * (0x800 * fract));
    CutLeast(y0, 0x7FFF_FFFF - 0x800 * fract);
    CutLeast(y1, 0x800 * fract);
    CutRange(Min(y0, y1), Halves(y0, y1, fract), Exact(y0, y1, fract), Max(y0, y1));
  }

  lemma CutRange(lo: q31, half: int, exact: int, hi: q31)
    requires lo * 0x7FFF_FFFF <= exact <= hi * 0x7FFF_FFFF && exact - 2 * TWO32 < TWO32 * half <= exact
    ensures lo - 4 <= 2 * half <= hi
  {
  }

  lemma CutLeast(y: q31, weight: nat)
    ensures y * weight / TWO32 >= -((weight + 1) / 2)
  {
    Weighted(-0x8000_0000, y, 0x7FFF_FFFF, weight);
  }

  /** `arm_linear_interp_q31` */
  function Interp31(table: seq<q31>, x: q31): (y: q31)
    requires 1 <= |table| <= 0x8000_0000
  {
    var index := Index(x);
    if index >= |table| - 1 then table[|table| - 1]
    else if index < 0 then table[0]
    else
      HalvesRange(table[index], table[index + 1], Fraction(x));
      2 * Halves(table[index], table[index + 1], Fraction(x))
  }

  /** Inside a cell the result is even, at most the larger neighbour, and no more than four below the smaller; it is
      never above the line less a 2^31-th of the left neighbour, and less than four steps below that. */
  lemma InCellRange31(table: seq<q31>, x: q31)
    requires |table| <= 0x8000_0000 && InCell(table, x)
    ensures var y0, y1, y := table[Index(x)], table[Index(x) + 1], Interp31(table, x);
      Min(y0, y1) - 4 <= y <= Max(y0, y1) && y % 2 == 0
    ensures var y, line, y0 := Interp31(table, x), 0x800 * Line(table, x), table[Index(x)];
      0x8000_0000 * y <= line - y0 < 0x8000_0000 * (y + 4)
  {
    var y0, y1, f := table[Index(x)], table[Index(x) + 1], Fraction(x);
    HalvesRange(y0, y1, f);
    CutTwice(y0 * (0x7FFF_FFFF - 0x800 * f), y1 * (0x800 * f));
    assert x - Index(x) * SCALE == f;
    LineExact(y0, y1, f);
  }

  lemma LineExact(y0: q31, y1: q31, f: nat)
    requires f <= LAST
    ensures 0x800 * (y0 * SCALE + (y1 - y0) * f) - y0 == Exact(y0, y1, f)
  {
  }

  /** For every x the q31 result is less than five steps off, and outside the cells it is exact. */
  lemma NearIdeal31(table: seq<q31>, x: q31)
    requires 1 <= |table| <= 0x8000_0000
    ensures var y := Interp31(table, x);
      SCALE * (y - 1) <= Ideal(table, x) < SCALE * (y + 5) && (!InCell(table, x) ==> SCALE * y == Ideal(table, x))
  {
    if InCell(table, x) {
      InCellRange31(table, x);
      Unscaled(Line(table, x), table[Index(x)], Interp31(table, x));
    }
  }

  lemma Unscaled(line: int, y0: q31, y: int)
    requires 0x8000_0000 * y <= 0x800 * line - y0 < 0x8000_0000 * (y + 4)
    ensures SCALE * (y - 1) <= line < SCALE * (y + 5)
  {
  }

  lemma ExactRises(y0: q31, y1: q31, f: nat, g: nat)
    requires y0 <= y1 && f <= g <= LAST
    ensures Exact(y0, y1, f) <= Exact(y0, y1, g)
  {
    assert Exact(y0, y1, f) == y0 * 0x7FFF_FFFF + (y1 - y0) * (0x800 * f);
    assert Exact(y0, y1, g) == y0 * 0x7FFF_FFFF + (y1 - y0) * (0x800 * g);
    assert (y1 - y0) * (0x800 * f) <= (y1 - y0) * (0x800 * g);
  }

  lemma HalvesNearlyRise(y0: q31, y1: q31, f: nat, z0: q31, z1: q31, g: nat)
    requires f <= LAST && g <= LAST && Exact(y0, y1, f) <= Exact(z0, z1, g)
    ensures Halves(y0, y1, f) <= Halves(z0, z1, g) + 1
  {
    CutTwice(y0 * (0x7FFF_FFFF - 0x800 * f), y1 * (0x800 * f));
    CutTwice(z0 * (0x7FFF_FFFF - 0x800 * g), z1 * (0x800 * g));
  }

  /** Cutting each product separately costs monotonicity, but never more than two steps of the result. */
  lemma NearlyRises31(table: seq<q31>, x: q31, z: q31)
    requires 1 <= |table| <= 0x8000_0000 && Nondecreasing(table) && 0 <= x <= z
    ensures Interp31(table, x) <= Interp31(table, z) + 2
  {
    var i, k := Index(x), Index(z);
    assert i <= k;
    if InCell(table, x) && InCell(table, z) {
      if i == k {
        ExactRises(table[i], table[i + 1], Fraction(x), Fraction(z));
      } else {
        ExactRange(table[i], table[i + 1], Fraction(x));
        ExactRange(table[k], table[k + 1], Fraction(z));
      }
      HalvesNearlyRise(table[i], table[i + 1], Fraction(x), table[k], table[k + 1], Fraction(z));
    } else if InCell(table, x) {
      InCellRange31(table, x);
    }
  }

  /** And two it can cost: the constant table of -1 falls from -2 to -4 within its first cell. */
  lemma Falls31()
    ensures Interp31([-1, -1], 0) == -2 && Interp31([-1, -1], 1) == -4
  {
    assert Halves(-1, -1, 0) == -1 && Halves(-1, -1, 1) == -2;
  }

  lemma CutsInOrder(a: int, b: int, half: int, half': int)
    requires a + TWO32 <= b && TWO32 * half <= a && b - 2 * TWO32 < TWO32 * half'
    ensures half <= half'
  {
  }

  lemma HalvesRise(y0: q31, y1: q31, f: nat, z0: q31, z1: q31, g: nat)
    requires f <= LAST && g <= LAST && Exact(y0, y1, f) + TWO32 <= Exact(z0, z1, g)
    ensures Halves(y0, y1, f) <= Halves(z0, z1, g)
  {
    CutTwice(y0 * (0x7FFF_FFFF - 0x800 * f), y1 * (0x800 * f));
    CutTwice(z0 * (0x7FFF_FFFF - 0x800 * g), z1 * (0x800 * g));
    CutsInOrder(Exact(y0, y1, f), Exact(z0, z1, g), Halves(y0, y1, f), Halves(z0, z1, g));
  }

  /** It costs nothing where the sums before the cut are at least one unit of the cut apart. */
  lemma RisesWhenApart31(table: seq<q31>, x: q31, z: q31)
    requires |table| <= 0x8000_0000 && InCell(table, x) && InCell(table, z)
    requires Exact(table[Index(x)], table[Index(x) + 1], Fraction(x)) + TWO32
             <= Exact(table[Index(z)], table[Index(z) + 1], Fraction(z))
    ensures Interp31(table, x) <= Interp31(table, z)
  {
    HalvesRise(table[Index(x)], table[Index(x) + 1], Fraction(x), table[Index(z)], table[Index(z) + 1], Fraction(z));
  }

  /** Within a cell that is: the product of the two steps, in value and in fraction, is at least 2^21. */
  lemma ApartInCell31(table: seq<q31>, x: q31, z: q31)
    requires |table| <= 0x8000_0000 && InCell(table, x) && Index(z) == Index(x)
    requires (table[Index(x) + 1] - table[Index(x)]) * (Fraction(z) - Fraction(x)) >= 0x20_0000
    ensures Interp31(table, x) <= Interp31(table, z)
  {
    var y0, y1, f, g := table[Index(x)], table[Index(x) + 1], Fraction(x), Fraction(z);
    ExactStep(y0, y1, f, g);
    RisesWhenApart31(table, x, z);
  }

  lemma ExactStep(y0: q31, y1: q31, f: nat, g: nat)
    requires f <= LAST && g <= LAST
    ensures Exact(y0, y1, g) == Exact(y0, y1, f) + 0x800 * ((y1 - y0) * (g - f))
  {
    assert Exact(y0, y1, f) == y0 * 0x7FFF_FFFF + 0x800 * ((y1 - y0) * f);
    assert Exact(y0, y1, g) == y0 * 0x7FFF_FFFF + 0x800 * ((y1 - y0) * g);
    assert (y1 - y0) * g - (y1 - y0) * f == (y1 - y0) * (g - f);
  }

  /** Neighbours far enough apart for a cell's last fraction, 2^11 - 1 short of its end, to be a unit below it. */
  predicate Steep(table: seq<q31>)
  {
    forall i :: 0 <= i < |table| - 1 ==> 0x7FF * (table[i + 1] - table[i]) >= TWO32
  }

  lemma {:induction false} SteepRises(table: seq<q31>, i: nat, k: nat)
    requires Steep(table) && i <= k < |table|
    ensures table[i] <= table[k]
    decreases k
  {
    if i < k {
      SteepRises(table, i, k - 1);
      assert 0x7FF * (table[k - 1 + 1] - table[k - 1]) >= TWO32;
    }
  }

  /** What a fraction still lacks to the end of its cell. */
  lemma BelowCellEnd(y0: q31, y1: q31, f: nat)
    requires f <= LAST && 0x7FF * (y1 - y0) >= TWO32
    ensures Exact(y0, y1, f) + TWO32 <= y1 * 0x7FFF_FFFF
  {
    assert Exact(y0, y1, f) == y1 * 0x7FFF_FFFF - (y1 - y0) * (0x7FFF_FFFF - 0x800 * f);
    assert (y1 - y0) * (0x7FFF_FFFF - 0x800 * f) >= (y1 - y0) * 0x7FF;
  }

  /** So a steep table gives a nondecreasing function from 0 on, within cells, across them and into the clamp. */
  lemma SteepRises31(table: seq<q31>, x: q31, z: q31)
    requires 1 <= |table| <= 0x8000_0000 && Steep(table) && 0 <= x <= z
    ensures Interp31(table, x) <= Interp31(table, z)
  {
    var i, k := Index(x), Index(z);
    assert i <= k;
    if InCell(table, x) {
      assert 0x7FF * (table[i + 1] - table[i]) >= TWO32;
      if !InCell(table, z) {
        InCellRange31(table, x);
        SteepRises(table, i + 1, |table| - 1);
      } else if i < k {
        BelowCellEnd(table[i], table[i + 1], Fraction(x));
        SteepRises(table, i + 1, k);
        SteepRises(table, k, k + 1);
        ExactRange(table[k], table[k + 1], Fraction(z));
        RisesWhenApart31(table, x, z);
      } else if Fraction(x) < Fraction(z) {
        var y0: int, y1: int := table[i], table[i + 1];
        StepsMultiply(y1 - y0, Fraction(z) - Fraction(x));
        ApartInCell31(table, x, z);
      }
    }
  }

  lemma StepsMultiply(d: int, n: int)
    requires 0x7FF * d >= TWO32 && n >= 1
    ensures d * n >= 0x20_0000
  {
    assert d * n >= d;
  }
}
