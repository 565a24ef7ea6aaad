/** When the generator hands out more than the allocations
    (resource-manager, lib/allocators/ratios-allocator.js, line 30). */
module RatioRefills {
  import opened Collections
  import opened RatioAllocator

  // ---------------------------------------------------------------- draws that hit one range

  lemma SameRanges(s: seq<Share>, t: seq<Share>, x: real)
    requires |s| == |t| && forall k :: 0 <= k < |s| ==> s[k].from == t[k].from && s[k].to == t[k].to
    ensures FindRange(s, x) == FindRange(t, x)
  {
    var a := Find(s, (r: Share) => r.from <= x && x <= r.to);
    var b := Find(t, (r: Share) => r.from <= x && x <= r.to);
    if a.Some? { assert t[a.value].from <= x && x <= t[a.value].to; }
    if b.Some? { assert s[b.value].from <= x && x <= s[b.value].to; }
  }

  // ---------------------------------------------------------------- emptying an algorithm

  /** Algorithm i has n allocations less. */
  function Lower(s: seq<Share>, i: nat, n: nat): (t: seq<Share>)
    requires i < |s| && n <= s[i].allocations
    ensures |t| == |s| && t[i].allocations == s[i].allocations - n
    ensures forall k :: 0 <= k < |s| ==> t[k].from == s[k].from && t[k].to == s[k].to
    ensures forall k :: 0 <= k < |s| && k != i ==> t[k] == s[k]
  {
    s[i := s[i].(allocations := s[i].allocations - n)]
  }

  /** Draws that find algorithm i, as often as it has allocations, empty it and refill nothing. */
  lemma {:induction false} Emptied(s: seq<Share>, allocations: map<string, nat>, draws: nat -> real, k: nat, i: nat,
                                   n: nat)
    requires Valid(s, allocations) && UnitDraws(draws) && i < |s| && n <= s[i].allocations
    requires forall d :: k <= d < k + n ==> FindRange(s, draws(d)) == Some(i)
    ensures Valid(Lower(s, i, n), allocations)
    ensures NoRefill(s, allocations, draws, k) ==> NoRefill(Lower(s, i, n), allocations, draws, k + n)
    decreases n
  {
    hide Valid, NoRefill, FindRange, UnitDraws, Decrement, Lower;
    if n == 0 {
      LowerByNone(s, i);
    } else {
      var t := Decrement(s, i);
      LowerByOne(s, i, n);
      forall d | k + 1 <= d < k + n ensures FindRange(t, draws(d)) == Some(i) {
        SameRanges(s, t, draws(d));
      }
      OneTurn(s, allocations, draws, k, i);
      Emptied(t, allocations, draws, k + 1, i, n - 1);
    }
  }

  lemma LowerByNone(s: seq<Share>, i: nat)
    requires i < |s|
    ensures Lower(s, i, 0) == s
  {
  }

  lemma LowerByOne(s: seq<Share>, i: nat, n: nat)
    requires i < |s| && 0 < n <= s[i].allocations
    ensures Decrement(s, i) == Lower(s, i, 1) && Lower(Decrement(s, i), i, n - 1) == Lower(s, i, n)
  {
  }

  lemma OneTurn(s: seq<Share>, allocations: map<string, nat>, draws: nat -> real, k: nat, i: nat)
    requires Valid(s, allocations) && UnitDraws(draws) && i < |s| && 0 < s[i].allocations
    requires FindRange(s, draws(k)) == Some(i)
    ensures Valid(Decrement(s, i), allocations)
    ensures NoRefill(s, allocations, draws, k) ==> NoRefill(Decrement(s, i), allocations, draws, k + 1)
  {
    DecrementValid(s, allocations, i);
    StepValid(s, allocations, draws(k));
    hide Valid, NoRefillAt, SumAllocations, FindRange, Recalculated;
    assert Step(s, allocations, draws(k)).0 == Decrement(s, i);
  }

  lemma {:induction false} HasAllocations(s: seq<Share>, i: nat)
    requires i < |s| && s[i].allocations > 0
    ensures SumAllocations(s) > 0
  {
    if i > 0 {
      HasAllocations(s[1..], i - 1);
    }
  }

  /** Draws that empty i, then j, then find i again. */
  function EmptyBoth(x: real, m: nat, y: real, n: nat): nat -> real {
    (d: nat) => if m <= d < m + n then y else x
  }

  /** With three algorithms or more, draws that find two of them can be arranged to refill. */
  lemma RefillReached(s: seq<Share>, allocations: map<string, nat>, i: nat, x: real, j: nat, y: real, l: nat)
    requires Valid(s, allocations) && UnitDraw(x) && UnitDraw(y)
    requires i < |s| && j < |s| && l < |s| && i != j && i != l && j != l && s[l].allocations > 0
    requires FindRange(s, x) == Some(i) && FindRange(s, y) == Some(j)
    ensures var draws := EmptyBoth(x, s[i].allocations, y, s[j].allocations);
            UnitDraws(draws) && !NoRefill(s, allocations, draws, 0)
  {
    var m, n := s[i].allocations, s[j].allocations;
    var draws := EmptyBoth(x, m, y, n);
    hide Valid, FindRange, SumAllocations;
    Emptied(s, allocations, draws, 0, i, m);
    var t := Lower(s, i, m);
    SameRanges(s, t, y);
    Emptied(t, allocations, draws, m, j, n);
    var u := Lower(t, j, n);
    SameRanges(s, u, x);
    HasAllocations(u, l);
    RefillsNow(u, allocations, draws, m + n, i, j);
  }

  lemma RefillsNow(s: seq<Share>, allocations: map<string, nat>, draws: nat -> real, k: nat, i: nat, j: nat)
    requires Valid(s, allocations) && UnitDraws(draws) && SumAllocations(s) > 0
    requires i < |s| && j < |s| && i != j && s[i].allocations == s[j].allocations == 0
    requires FindRange(s, draws(k)) == Some(i)
    ensures !NoRefill(s, allocations, draws, k)
  {
    hide Valid, SumAllocations, FindRange;
    assert !NoRefillAt(s, draws(k));
  }

  // ---------------------------------------------------------------- draws that the generator makes

  /** No first ratio is above 1 / (number of algorithms - 1). */
  lemma InitialRatioBound(usage: seq<Usage>, allocations: map<string, nat>, i: nat)
    requires ValidUsage(usage, allocations) && Defined(usage) && |usage| >= 3 && i < |usage|
    ensures InitialRatios(usage)[i].ratio <= 0.5
  {
    InverseExact(usage, allocations);
    ValueBelowSum(usage, i);
    hide SumRatios, SumValues;
    Halved(usage[i].value, SumValues(usage), SumRatios(Inverse(usage, SumValues(usage))));
  }

  lemma Halved(value: real, sum: real, scale: real)
    requires 0.0 <= value <= sum && sum > 0.0 && scale >= 2.0
    ensures (1.0 - value / sum) / scale <= 0.5
  {
    var ratio := 1.0 - value / sum;
    assert value / sum >= 0.0;
    assert ratio <= 1.0;
    assert ratio / scale <= 0.5;
  }

  lemma InitialShares(usage: seq<Usage>, allocations: map<string, nat>)
    requires ValidUsage(usage, allocations) && Defined(usage) && usage != []
    ensures var s := Initial(usage, allocations);
            && Valid(s, allocations) && |s| == |usage|
            && forall i :: 0 <= i < |s| ==> s[i].ratio == InitialRatios(usage)[i].ratio && s[i].allocations >= 1
  {
    InitialValid(usage, allocations);
    InitialWeighted(usage, allocations);
    hide InitialRatios, Defined, SumRatios, Tiled, Weighted;
    forall i | 0 <= i < |usage|
      ensures Initial(usage, allocations)[i].ratio == InitialRatios(usage)[i].ratio
      ensures Initial(usage, allocations)[i].allocations >= 1
    {
      RangesKeep(InitialRatios(usage), allocations, 0.0, i);
    }
  }

  /** Math.random().toFixed(4): a multiple of 0.0001 from 0 to 1 */
  ghost predicate FourDecimals(x: real) {
    0.0 <= x <= 1.0 && x * 10000.0 == (x * 10000.0).Floor as real
  }

  ghost predicate GeneratorDraws(draws: nat -> real) { forall k :: FourDecimals(draws(k)) }

  /** The draws 0 and 1 find different algorithms. */
  lemma EndsDiffer(usage: seq<Usage>, allocations: map<string, nat>) returns (j: nat)
    requires ValidUsage(usage, allocations) && Defined(usage) && |usage| >= 3
    ensures var s := Initial(usage, allocations);
            FindRange(s, 0.0) == Some(0) && 0 < j < |s| && FindRange(s, 1.0) == Some(j)
  {
    InitialShares(usage, allocations);
    InitialRatioBound(usage, allocations, 0);
    var s := Initial(usage, allocations);
    hide Initial, Defined, InitialRatios, SumRatios, SumAllocations, FindRange;
    DrawWorks(s, allocations, 1.0);
    j := FindRange(s, 1.0).value;
  }

  /** With three algorithms or more some sequence of the draws 0 and 1 hands out more than the allocations. */
  lemma MoreIsHandedOut(usage: seq<Usage>, allocations: map<string, nat>) returns (draws: nat -> real)
    requires ValidUsage(usage, allocations) && Defined(usage) && |usage| >= 3
    ensures forall k :: draws(k) == 0.0 || draws(k) == 1.0
    ensures var s := Initial(usage, allocations);
            && Valid(s, allocations) && UnitDraws(draws)
            && |Yields(s, allocations, draws, 0)| > SumAllocations(s)
  {
    InitialShares(usage, allocations);
    var j := EndsDiffer(usage, allocations);
    var s := Initial(usage, allocations);
    hide Initial, Defined, Valid, Yields, SumAllocations, NoRefill, FindRange;
    RefillReached(s, allocations, 0, 0.0, j, 1.0, if j == 1 then 2 else 1);
    draws := EmptyBoth(0.0, s[0].allocations, 1.0, s[j].allocations);
    HandsOutExactly(s, allocations, draws, 0);
  }

  /** With two algorithms nothing is ever refilled. */
  lemma {:induction false} TwoNeverRefill(s: seq<Share>, allocations: map<string, nat>, draws: nat -> real, k: nat)
    requires Valid(s, allocations) && UnitDraws(draws) && |s| <= 2
    ensures NoRefill(s, allocations, draws, k)
    decreases |s|, SumAllocations(s)
  {
    if SumAllocations(s) > 0 {
      StepValid(s, allocations, draws(k));
      OtherIsLeft(s, draws(k));
      hide Valid, Step, NoRefillAt, SumAllocations;
      TwoNeverRefill(Step(s, allocations, draws(k)).0, allocations, draws, k + 1);
    }
  }

  lemma OtherIsLeft(s: seq<Share>, x: real)
    requires |s| <= 2 && SumAllocations(s) > 0
    ensures NoRefillAt(s, x)
  {
    hide FindRange;
    if |s| == 2 {
      assert s[1..][1..] == [];
    }
  }

  /** Every sequence of draws that the generator can make hands out exactly the sum of the allocations if and
      only if there are at most two algorithms. */
  lemma ExactForAllDraws(usage: seq<Usage>, allocations: map<string, nat>)
    requires ValidUsage(usage, allocations) && Defined(usage) && usage != []
    ensures Valid(Initial(usage, allocations), allocations)
    ensures |usage| <= 2 <==>
              forall draws :: GeneratorDraws(draws) ==>
                |Yields(Initial(usage, allocations), allocations, draws, 0)| ==
                SumAllocations(Initial(usage, allocations))
  {
    InitialShares(usage, allocations);
    var s := Initial(usage, allocations);
    hide Initial, Defined, Valid, Yields, SumAllocations, NoRefill;
    if |usage| <= 2 {
      forall draws | GeneratorDraws(draws) ensures |Yields(s, allocations, draws, 0)| == SumAllocations(s) {
        TwoNeverRefill(s, allocations, draws, 0);
        HandsOutExactly(s, allocations, draws, 0);
      }
    } else {
      var draws := MoreIsHandedOut(usage, allocations);
      assert GeneratorDraws(draws);
    }
  }
}
