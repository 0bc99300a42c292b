/** Colour coding of a per-vertex scalar.

    The values are sorted, a trimmed [min, max] range is read off the sorted
    list, and every value is mapped into a blue - cyan - green - yellow - red
    ramp split into four bands at v_k = min + k/4 (max - min). */
module ColorMap {
  import opened Geometry

  datatype Color = Color(r: real, g: real, b: real)

  const Blue: Color := Color(0.0, 0.0, 1.0)
  const Red: Color := Color(1.0, 0.0, 0.0)

  /** Every component lies in [0, 1]. */
  predicate InUnitCube(c: Color) {
    0.0 <= c.r <= 1.0 && 0.0 <= c.g <= 1.0 && 0.0 <= c.b <= 1.0
  }

  /** The threshold v_k = min + k/4 * (max - min). */
  function Threshold(min: real, max: real, k: nat): real {
    min + (k as real) / 4.0 * (max - min)
  }

  /** Where `value` lies between lo and hi, as a fraction: `(value - lo) / (hi - lo)`. */
  function Fraction(prim: Primitives, value: real, lo: real, hi: real): real {
    Div(prim, value - lo, hi - lo)
  }

  /** The colour of band k at fraction u: (0, u, 1), (0, 1, 1 - u), (u, 1, 0)
      and (1, 1 - u, 0). */
  function BandColor(k: nat, u: real): Color
    requires k < 4
  {
    if k == 0 then Color(0.0, u, 1.0)
    else if k == 1 then Color(0.0, 1.0, 1.0 - u)
    else if k == 2 then Color(u, 1.0, 0.0)
    else Color(1.0, 1.0 - u, 0.0)
  }

  /** Blue below min, red above max, and otherwise the band the value falls
      in; a band is closed at its upper threshold. */
  function ValueToColor(prim: Primitives, value: real, min: real, max: real): (c: Color)
    ensures value < min ==> c == Blue
    ensures min <= value && max < value ==> c == Red
  {
    var v0 := Threshold(min, max, 0);
    var v1 := Threshold(min, max, 1);
    var v2 := Threshold(min, max, 2);
    var v3 := Threshold(min, max, 3);
    var v4 := Threshold(min, max, 4);
    if value < v0 then Blue
    else if value > v4 then Red
    else if value <= v2 then
      if value <= v1 then BandColor(0, Fraction(prim, value, v0, v1))
      else BandColor(1, Fraction(prim, value, v1, v2))
    else if value <= v3 then BandColor(2, Fraction(prim, value, v2, v3))
    else BandColor(3, Fraction(prim, value, v3, v4))
  }

  lemma FractionInUnit(prim: Primitives, value: real, lo: real, hi: real)
    requires lo < hi && lo <= value <= hi
    ensures 0.0 <= Fraction(prim, value, lo, hi) <= 1.0
  {
    QuotientInUnit(value - lo, hi - lo);
  }

  lemma QuotientInUnit(x: real, d: real)
    requires 0.0 <= x <= d && 0.0 < d
    ensures 0.0 <= x / d <= 1.0
  {
    var q := x / d;
    assert q * d == x;
    assert (q - 1.0) * d == q * d - d;
    PositiveProduct(q - 1.0, d);
  }

  lemma PositiveProduct(a: real, d: real)
    requires 0.0 < d
    ensures 0.0 < a ==> 0.0 < a * d
  {
  }

  lemma ThresholdsIncrease(min: real, max: real)
    requires min < max
    ensures Threshold(min, max, 0) == min && Threshold(min, max, 4) == max
    ensures Threshold(min, max, 0) < Threshold(min, max, 1) < Threshold(min, max, 2)
    ensures Threshold(min, max, 2) < Threshold(min, max, 3) < Threshold(min, max, 4)
  {
  }

  /** For a proper range every colour of the ramp is a valid colour. */
  lemma ValueToColorInUnitCube(prim: Primitives, value: real, min: real, max: real)
    requires min < max
    ensures InUnitCube(ValueToColor(prim, value, min, max))
  {
    ThresholdsIncrease(min, max);
    var v0 := Threshold(min, max, 0);
    var v1 := Threshold(min, max, 1);
    var v2 := Threshold(min, max, 2);
    var v3 := Threshold(min, max, 3);
    var v4 := Threshold(min, max, 4);
    if v0 <= value <= v1 {
      FractionInUnit(prim, value, v0, v1);
    } else if v1 < value <= v2 {
      FractionInUnit(prim, value, v1, v2);
    } else if v2 < value <= v3 {
      FractionInUnit(prim, value, v2, v3);
    } else if v3 < value <= v4 {
      FractionInUnit(prim, value, v3, v4);
    }
  }

  lemma FractionEnds(prim: Primitives, lo: real, hi: real)
    requires lo < hi
    ensures Fraction(prim, lo, lo, hi) == 0.0 && Fraction(prim, hi, lo, hi) == 1.0
  {
    assert (hi - lo) / (hi - lo) == 1.0;
  }

  /** The ramp is continuous for a proper range: at v_1, v_2 and v_3 the
      colour (taken from the band below) is what the band above gives at its
      lower end; at min the ramp starts from the blue used below min, and at
      max it ends in the red used above max. */
  lemma BandsAgree(prim: Primitives, min: real, max: real)
    requires min < max
    ensures ValueToColor(prim, min, min, max) == Blue
    ensures ValueToColor(prim, Threshold(min, max, 1), min, max) == BandColor(1, 0.0)
    ensures ValueToColor(prim, Threshold(min, max, 2), min, max) == BandColor(2, 0.0)
    ensures ValueToColor(prim, Threshold(min, max, 3), min, max) == BandColor(3, 0.0)
    ensures ValueToColor(prim, max, min, max) == Red
  {
    ThresholdsIncrease(min, max);
    var v0 := Threshold(min, max, 0);
    var v1 := Threshold(min, max, 1);
    var v2 := Threshold(min, max, 2);
    var v3 := Threshold(min, max, 3);
    var v4 := Threshold(min, max, 4);
    FractionEnds(prim, v0, v1);
    FractionEnds(prim, v1, v2);
    FractionEnds(prim, v2, v3);
    FractionEnds(prim, v3, v4);
  }

  predicate Sorted(s: seq<real>) {
    forall i, j | 0 <= i <= j < |s| :: s[i] <= s[j]
  }

  /** x inserted into a list before the first element it does not exceed. */
  function Insert(x: real, s: seq<real>): (r: seq<real>)
    ensures |r| == |s| + 1
  {
    if s == [] then [x]
    else if x <= s[0] then [x] + s
    else [s[0]] + Insert(x, s[1..])
  }

  /** Inserting into a sorted list keeps it sorted. */
  lemma {:induction false} InsertSorted(x: real, s: seq<real>)
    requires Sorted(s)
    ensures Sorted(Insert(x, s))
  {
    if s != [] && x > s[0] {
      InsertSorted(x, s[1..]);
      InsertAbove(s[0], x, s[1..]);
      ConsSorted(s[0], Insert(x, s[1..]));
    }
  }

  /** Inserting adds exactly x. */
  lemma {:induction false} InsertAdds(x: real, s: seq<real>)
    ensures multiset(Insert(x, s)) == multiset(s) + multiset{x}
  {
    if s != [] && x > s[0] {
      InsertAdds(x, s[1..]);
      assert s == [s[0]] + s[1..];
    }
  }

  /** A lower bound of x and of every element of s bounds every element of
      the list with x inserted. */
  lemma {:induction false} InsertAbove(a: real, x: real, s: seq<real>)
    requires a <= x && forall j | 0 <= j < |s| :: a <= s[j]
    ensures forall j | 0 <= j < |Insert(x, s)| :: a <= Insert(x, s)[j]
  {
    if s != [] && x > s[0] {
      InsertAbove(a, x, s[1..]);
      var r := Insert(x, s);
      forall j | 0 <= j < |r|
        ensures a <= r[j]
      {
        if j > 0 {
          assert r[j] == Insert(x, s[1..])[j - 1];
        }
      }
    } else if s != [] {
      var r := Insert(x, s);
      forall j | 0 <= j < |r|
        ensures a <= r[j]
      {
        if j > 0 {
          assert r[j] == s[j - 1];
        }
      }
    }
  }

  lemma ConsSorted(a: real, rest: seq<real>)
    requires Sorted(rest) && forall j | 0 <= j < |rest| :: a <= rest[j]
    ensures Sorted([a] + rest)
  {
    var r := [a] + rest;
    forall i, j | 0 <= i <= j < |r|
      ensures r[i] <= r[j]
    {
      if 0 < i {
        assert r[i] == rest[i - 1] && r[j] == rest[j - 1];
      } else if 0 < j {
        assert r[j] == rest[j - 1];
      }
    }
  }

  /** The values in ascending order (the library sort). */
  function SortedCopy(s: seq<real>): (r: seq<real>)
    ensures |r| == |s|
  {
    if s == [] then [] else Insert(s[|s| - 1], SortedCopy(s[..|s| - 1]))
  }

  /** The sorted copy is sorted and holds the same values, as often. */
  lemma {:induction false} SortedCopyIsSortedPermutation(s: seq<real>)
    ensures Sorted(SortedCopy(s))
    ensures multiset(SortedCopy(s)) == multiset(s)
  {
    if s != [] {
      SortedCopyIsSortedPermutation(s[..|s| - 1]);
      InsertSorted(s[|s| - 1], SortedCopy(s[..|s| - 1]));
      InsertAdds(s[|s| - 1], SortedCopy(s[..|s| - 1]));
      assert s == s[..|s| - 1] + [s[|s| - 1]];
    }
  }

  datatype Range = Range(min: real, max: real)

  /** The number of values to drop at each end: (|s| - 1) / bound. */
  function TrimCount(count: nat, bound: nat): nat
    requires count >= 2 && bound >= 2
  {
    (count - 1) / bound
  }

  lemma {:induction false} MulAtLeastDouble(i: nat, b: nat)
    requires b >= 2
    ensures i * 2 <= i * b
  {
    if i > 0 {
      MulAtLeastDouble(i - 1, b);
      assert i * b == (i - 1) * b + b;
      assert i * 2 == (i - 1) * 2 + 2;
    }
  }

  lemma DivTimesDivisor(n: nat, b: nat)
    requires b >= 2
    ensures (n / b) * b <= n
  {
  }

  /** At most half of the values, rounded down, are dropped at each end. */
  lemma TrimCountBound(count: nat, bound: nat)
    requires count >= 2 && bound >= 2
    ensures 2 * TrimCount(count, bound) <= count - 1
  {
    DivTimesDivisor(count - 1, bound);
    MulAtLeastDouble((count - 1) / bound, bound);
  }

  /** The range exactly as the colour coding reads it from the sorted values:
      with n = |s| - 1 and i = n / bound, [s[i], s[n - 1 - i]]. */
  function TrimmedRangeAsWritten(sorted: seq<real>, bound: nat): (r: Range)
    requires |sorted| >= 2 && bound >= 2
  {
    var n := |sorted| - 1;
    var i := TrimCount(|sorted|, bound);
    Range(sorted[i], sorted[n - 1 - i])
  }

  /** As written, the upper end skips one value more than the lower end:
      with nothing to drop it still leaves out the largest value, and with
      three values and bound 2 the range is inverted. */
  lemma AsWrittenDropsMaximum(prim: Primitives)
    ensures TrimmedRangeAsWritten([0.0, 1.0], 20) == Range(0.0, 0.0)
    ensures ValueToColor(prim, 1.0, 0.0, 0.0) == Red
    ensures TrimmedRangeAsWritten([0.0, 1.0, 2.0], 2) == Range(1.0, 0.0)
  {
  }

  /** Whenever no value is to be dropped, the as-written upper end is the
      second largest value, not the largest. */
  lemma AsWrittenExcludesLargest(sorted: seq<real>, bound: nat)
    requires |sorted| >= 2 && bound >= 2 && |sorted| - 1 < bound
    ensures TrimmedRangeAsWritten(sorted, bound).max == sorted[|sorted| - 2]
    ensures TrimmedRangeAsWritten(sorted, bound).min == sorted[0]
  {
  }

  /** On sorted values the as-written range holds every value from index i
      to index n - 1 - i, and it is inverted only when that index interval
      is empty. */
  lemma TrimmedRangeAsWrittenBounds(sorted: seq<real>, bound: nat)
    requires |sorted| >= 2 && bound >= 2 && Sorted(sorted)
    ensures var i := TrimCount(|sorted|, bound);
            i <= |sorted| - 2 - i ==> TrimmedRangeAsWritten(sorted, bound).min <= TrimmedRangeAsWritten(sorted, bound).max
    ensures forall j | TrimCount(|sorted|, bound) <= j <= |sorted| - 2 - TrimCount(|sorted|, bound) ::
              TrimmedRangeAsWritten(sorted, bound).min <= sorted[j] <= TrimmedRangeAsWritten(sorted, bound).max
  {
    TrimCountBound(|sorted|, bound);
  }

  /** The corrected range: i = n / bound values dropped at each end,
      [s[i], s[n - i]]. */
  function TrimmedRange(sorted: seq<real>, bound: nat): (r: Range)
    requires |sorted| >= 2 && bound >= 2
  {
    var n := |sorted| - 1;
    var i := TrimCount(|sorted|, bound);
    Range(sorted[i], sorted[n - i])
  }

  /** On sorted values the corrected range is never inverted and holds every
      value from index i to index |s| - 1 - i, so that i values are dropped
      at each end; when nothing is dropped it is the range of all values. */
  lemma TrimmedRangeBounds(sorted: seq<real>, bound: nat)
    requires |sorted| >= 2 && bound >= 2 && Sorted(sorted)
    ensures TrimmedRange(sorted, bound).min <= TrimmedRange(sorted, bound).max
    ensures forall j | TrimCount(|sorted|, bound) <= j < |sorted| - TrimCount(|sorted|, bound) ::
              TrimmedRange(sorted, bound).min <= sorted[j] <= TrimmedRange(sorted, bound).max
    ensures |sorted| - 1 < bound ==> TrimmedRange(sorted, bound) == Range(sorted[0], sorted[|sorted| - 1])
  {
    var n := |sorted| - 1;
    TrimCountBound(|sorted|, bound);
  }

  /** Colour every vertex by its value, against the trimmed range of the
      sorted values as the colour coding reads it, [s[i], s[n - 1 - i]]. */
  method ColorCoding(prim: Primitives, prop: array<real>, colorProp: array<Color>, bound: nat)
    requires prop.Length >= 2 && bound >= 2
    requires colorProp.Length == prop.Length
    modifies colorProp
    ensures forall v | 0 <= v < colorProp.Length ::
              colorProp[v] == ValueToColor(prim, prop[v], TrimmedRangeAsWritten(SortedCopy(prop[..]), bound).min,
                                           TrimmedRangeAsWritten(SortedCopy(prop[..]), bound).max)
  {
    var values := SortedCopy(prop[..]);
    var n := |values| - 1;
    var i := n / bound;
    TrimCountBound(|values|, bound);
    var minValue := values[i];
    var maxValue := values[n - 1 - i];
    var v := 0;
    while v < colorProp.Length
      invariant 0 <= v <= colorProp.Length
      invariant forall u | 0 <= u < v :: colorProp[u] == ValueToColor(prim, prop[u], minValue, maxValue)
    {
      colorProp[v] := ValueToColor(prim, prop[v], minValue, maxValue);
      v := v + 1;
    }
  }
}
