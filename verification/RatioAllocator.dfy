/** Random allocation of pods by inverse ratio (resource-manager, lib/allocators/ratios-allocator.js). */
module RatioAllocator {
  import opened Collections

  datatype Usage = Usage(name: string, value: real)

  /** An algorithm with its ratio, what is left to allocate and its range within [0, 1]. */
  datatype Share = Share(name: string, ratio: real, allocations: nat, from: real, to: real)

  function Same(name: string): string { name }

  // ---------------------------------------------------------------- sums

  function SumValues(s: seq<Usage>): real {
    if s == [] then 0.0 else s[0].value + SumValues(s[1..])
  }

  function SumRatios(s: seq<Share>): real {
    if s == [] then 0.0 else s[0].ratio + SumRatios(s[1..])
  }

  function SumAllocations(s: seq<Share>): nat {
    if s == [] then 0 else s[0].allocations + SumAllocations(s[1..])
  }

  lemma SumsConcat(a: seq<Share>, b: seq<Share>)
    ensures SumRatios(a + b) == SumRatios(a) + SumRatios(b)
    ensures SumAllocations(a + b) == SumAllocations(a) + SumAllocations(b)
  {
    if a == [] {
      assert a + b == b;
    } else {
      assert (a + b)[1..] == a[1..] + b;
      SumsConcat(a[1..], b);
    }
  }

  // ---------------------------------------------------------------- ranges

  /** r.allocations || allocations: what reached 0 is filled up again. */
  function Refill(r: Share, allocations: map<string, nat>): nat
    requires r.name in allocations
  {
    if r.allocations != 0 then r.allocations else allocations[r.name]
  }

  ghost predicate Covered(s: seq<Share>, allocations: map<string, nat>) {
    forall i :: 0 <= i < |s| ==> s[i].name in allocations && allocations[s[i].name] >= 1
  }

  /** _calcRange: each range starts where the previous one ends. */
  function Ranges(s: seq<Share>, allocations: map<string, nat>, start: real): (t: seq<Share>)
    requires Covered(s, allocations)
    ensures |t| == |s|
  {
    if s == [] then []
    else
      var first := s[0].(allocations := Refill(s[0], allocations), from := start, to := start + s[0].ratio);
      [first] + Ranges(s[1..], allocations, start + s[0].ratio)
  }

  lemma {:induction false} RangesKeep(s: seq<Share>, allocations: map<string, nat>, start: real, i: nat)
    requires Covered(s, allocations) && i < |s|
    ensures var r := Ranges(s, allocations, start)[i];
            && r.name == s[i].name && r.ratio == s[i].ratio && r.name in allocations
            && r.allocations == Refill(s[i], allocations) >= 1
  {
    if i > 0 {
      RangesKeep(s[1..], allocations, start + s[0].ratio, i - 1);
    }
  }

  /** The ranges follow one another from start on. */
  ghost predicate Tiled(s: seq<Share>, start: real) {
    s == [] || (s[0].from == start && s[0].to == start + s[0].ratio && Tiled(s[1..], s[0].to))
  }

  /** _findRange: the first algorithm whose closed range holds the draw. */
  function FindRange(s: seq<Share>, x: real): (i: Option<nat>)
    ensures i.Some? ==> i.value < |s| && s[i.value].from <= x <= s[i.value].to
  {
    Find(s, (r: Share) => r.from <= x && x <= r.to)
  }

  function UsageName(u: Usage): string { u.name }
  function ShareName(r: Share): string { r.name }

  /** The state the generator keeps: distinct algorithms with an allocation each, non-negative ratios
      that sum to 1, and ranges that tile [0, 1]. */
  ghost predicate Valid(s: seq<Share>, allocations: map<string, nat>) {
    && Covered(s, allocations) && DistinctBy(s, ShareName)
    && (forall i :: 0 <= i < |s| ==> s[i].ratio >= 0.0)
    && SumRatios(s) == 1.0
    && Tiled(s, 0.0)
  }

  lemma RangesTiled(s: seq<Share>, allocations: map<string, nat>, start: real)
    requires Covered(s, allocations)
    ensures Tiled(Ranges(s, allocations, start), start)
    ensures SumRatios(Ranges(s, allocations, start)) == SumRatios(s)
  {
    if s != [] {
      RangesTiled(s[1..], allocations, start + s[0].ratio);
      assert Ranges(s, allocations, start)[1..] == Ranges(s[1..], allocations, start + s[0].ratio);
    }
  }

  /** What the tiling means: the first range starts at 0, the last ends at 1, each starts where the one
      before it ends, and none is reversed. */
  lemma {:induction false} TilingExact(s: seq<Share>, start: real)
    requires Tiled(s, start) && s != [] && forall i :: 0 <= i < |s| ==> s[i].ratio >= 0.0
    ensures s[0].from == start && s[|s| - 1].to == start + SumRatios(s)
    ensures forall i :: 0 <= i < |s| ==> s[i].from <= s[i].to
    ensures forall i :: 0 < i < |s| ==> s[i].from == s[i - 1].to
  {
    if |s| > 1 {
      TilingExact(s[1..], s[0].to);
      assert s[|s| - 1] == s[1..][|s| - 2];
      forall i | 0 < i < |s| ensures s[i].from == s[i - 1].to && s[i].from <= s[i].to {
        assert s[i] == s[1..][i - 1];
        if i > 1 { assert s[i - 1] == s[1..][i - 2]; }
      }
    } else {
      assert s[1..] == [];
    }
  }

  /** Every draw within the tiled interval finds an algorithm. */
  lemma {:induction false} DrawFinds(s: seq<Share>, start: real, x: real)
    requires Tiled(s, start) && s != [] && forall i :: 0 <= i < |s| ==> s[i].ratio >= 0.0
    requires start <= x <= start + SumRatios(s)
    ensures FindRange(s, x).Some?
  {
    if x > s[0].to {
      assert s[1..] != [];
      DrawFinds(s[1..], s[0].to, x);
      var i := FindRange(s[1..], x).value;
      assert s[i + 1] == s[1..][i];
    }
  }

  // ---------------------------------------------------------------- construction

  /** 1 - value / sum of values */
  function Inverse(s: seq<Usage>, sum: real): (r: seq<Share>)
    requires sum != 0.0
    ensures |r| == |s|
    ensures forall i :: 0 <= i < |r| ==> r[i] == Share(s[i].name, 1.0 - s[i].value / sum, 0, 0.0, 0.0)
  {
    if s == [] then [] else [Share(s[0].name, 1.0 - s[0].value / sum, 0, 0.0, 0.0)] + Inverse(s[1..], sum)
  }

  function Scaled(s: seq<Share>, sum: real): (r: seq<Share>)
    requires sum != 0.0
    ensures |r| == |s|
    ensures forall i :: 0 <= i < |r| ==> r[i] == s[i].(ratio := s[i].ratio / sum)
  {
    if s == [] then [] else [s[0].(ratio := s[0].ratio / sum)] + Scaled(s[1..], sum)
  }

  /** The ratios are numbers: neither division of _calcRatios is 0 / 0. */
  predicate Defined(s: seq<Usage>) {
    s == [] || (SumValues(s) != 0.0 && SumRatios(Inverse(s, SumValues(s))) != 0.0)
  }

  function InitialRatios(s: seq<Usage>): seq<Share>
    requires Defined(s)
  {
    if s == [] then [] else Scaled(Inverse(s, SumValues(s)), SumRatios(Inverse(s, SumValues(s))))
  }

  ghost predicate ValidUsage(s: seq<Usage>, allocations: map<string, nat>) {
    && DistinctBy(s, UsageName)
    && (forall i :: 0 <= i < |s| ==> s[i].value >= 0.0 && s[i].name in allocations && allocations[s[i].name] >= 1)
  }

  lemma InverseSum(s: seq<Usage>, sum: real)
    requires sum != 0.0
    ensures SumRatios(Inverse(s, sum)) == |s| as real - SumValues(s) / sum
  {
    if s != [] {
      InverseSum(s[1..], sum);
      assert Inverse(s, sum)[1..] == Inverse(s[1..], sum);
      assert s[0].value / sum + SumValues(s[1..]) / sum == SumValues(s) / sum;
    }
  }

  lemma ScaledSum(s: seq<Share>, sum: real)
    requires sum != 0.0
    ensures SumRatios(Scaled(s, sum)) == SumRatios(s) / sum
  {
    if s != [] {
      ScaledSum(s[1..], sum);
      assert Scaled(s, sum)[1..] == Scaled(s[1..], sum);
      assert s[0].ratio / sum + SumRatios(s[1..]) / sum == SumRatios(s) / sum;
    }
  }

  lemma ValueBelowSum(s: seq<Usage>, i: nat)
    requires i < |s| && forall k :: 0 <= k < |s| ==> s[k].value >= 0.0
    ensures s[i].value <= SumValues(s)
    ensures SumValues(s) >= 0.0
  {
    if |s| > 1 {
      ValueBelowSum(s[1..], if i > 0 then i - 1 else 0);
    }
  }

  /** The ratios are undefined exactly for a single algorithm or when every value is 0: the constructor
      divides 0 by 0 then, and the first draw finds no range. */
  lemma DefinedExactly(s: seq<Usage>, allocations: map<string, nat>)
    requires ValidUsage(s, allocations)
    ensures Defined(s) <==> |s| != 1 && (s == [] || exists i :: 0 <= i < |s| && s[i].value != 0.0)
  {
    hide SumRatios, Inverse;
    if s != [] {
      if i :| 0 <= i < |s| && s[i].value != 0.0 {
        ValueBelowSum(s, i);
        hide SumValues;
        InverseSum(s, SumValues(s));
        OneWhole(SumValues(s));
      } else {
        ZeroSum(s);
      }
    }
  }

  lemma OneWhole(x: real)
    requires x != 0.0
    ensures x / x == 1.0
  {
  }

  lemma ZeroSum(s: seq<Usage>)
    requires forall i :: 0 <= i < |s| ==> s[i].value == 0.0
    ensures SumValues(s) == 0.0
  {
  }

  lemma RatioInRange(value: real, sum: real, scale: real)
    requires 0.0 <= value <= sum && sum > 0.0 && scale > 0.0
    ensures (1.0 - value / sum) / scale >= 0.0
  {
    assert value / sum <= 1.0;
  }

  /** Ratios that are non-negative and sum to 1. */
  ghost predicate Weighted(s: seq<Share>) {
    (forall i :: 0 <= i < |s| ==> s[i].ratio >= 0.0) && SumRatios(s) == 1.0
  }

  lemma RangesValid(s: seq<Share>, allocations: map<string, nat>)
    requires Covered(s, allocations) && DistinctBy(s, ShareName) && Weighted(s)
    ensures Valid(Ranges(s, allocations, 0.0), allocations)
  {
    RangesTiled(s, allocations, 0.0);
    hide Ranges, Tiled, SumRatios;
    var t := Ranges(s, allocations, 0.0);
    forall i | 0 <= i < |t|
      ensures t[i].name == s[i].name && t[i].ratio == s[i].ratio && t[i].name in allocations
    {
      RangesKeep(s, allocations, 0.0, i);
    }
  }

  /** The first ratios sum to the number of algorithms less one. */
  lemma InverseExact(s: seq<Usage>, allocations: map<string, nat>)
    requires ValidUsage(s, allocations) && Defined(s) && s != []
    ensures SumValues(s) > 0.0 && |s| > 1
    ensures SumRatios(Inverse(s, SumValues(s))) == |s| as real - 1.0
  {
    ValueBelowSum(s, 0);
    DefinedExactly(s, allocations);
    InverseSum(s, SumValues(s));
    hide SumRatios, SumValues, Inverse;
    OneWhole(SumValues(s));
  }

  lemma InitialWeighted(s: seq<Usage>, allocations: map<string, nat>)
    requires ValidUsage(s, allocations) && Defined(s) && s != []
    ensures |InitialRatios(s)| == |s| && Weighted(InitialRatios(s))
    ensures forall i :: 0 <= i < |s| ==> InitialRatios(s)[i].allocations == 0 && InitialRatios(s)[i].name == s[i].name
  {
    InverseExact(s, allocations);
    hide SumRatios, SumValues, Inverse, Scaled;
    var sum, inverse := SumValues(s), Inverse(s, SumValues(s));
    ScaledSum(inverse, SumRatios(inverse));
    OneWhole(SumRatios(inverse));
    forall i | 0 <= i < |s| ensures InitialRatios(s)[i].ratio >= 0.0 {
      InitialRatioAt(s, allocations, i);
    }
  }

  lemma InitialRatioAt(s: seq<Usage>, allocations: map<string, nat>, i: nat)
    requires ValidUsage(s, allocations) && Defined(s) && i < |s|
    ensures InitialRatios(s)[i].ratio >= 0.0
  {
    InverseExact(s, allocations);
    ValueBelowSum(s, i);
    hide SumRatios, SumValues, Inverse, Scaled;
    RatioInRange(s[i].value, SumValues(s), SumRatios(Inverse(s, SumValues(s))));
  }

  /** With two algorithms or more and some positive value, the constructor reaches a valid state. */
  lemma InitialValid(s: seq<Usage>, allocations: map<string, nat>)
    requires ValidUsage(s, allocations) && Defined(s) && s != []
    ensures Covered(InitialRatios(s), allocations)
    ensures Valid(Ranges(InitialRatios(s), allocations, 0.0), allocations)
  {
    InitialWeighted(s, allocations);
    hide InitialRatios, Weighted, Defined;
    RangesValid(InitialRatios(s), allocations);
  }

  // ---------------------------------------------------------------- the generator

  function Without(s: seq<Share>, name: string): seq<Share> {
    Filter(s, (r: Share) => r.name != name)
  }

  function Raised(s: seq<Share>, div: real): (r: seq<Share>)
    ensures |r| == |s|
    ensures forall i :: 0 <= i < |r| ==> r[i] == s[i].(ratio := s[i].ratio + div)
  {
    if s == [] then [] else [s[0].(ratio := s[0].ratio + div)] + Raised(s[1..], div)
  }

  /** The position in the full list of element k of the list without element i. */
  function Skip(k: nat, i: nat): nat { if k < i then k else k + 1 }

  function Rest(s: seq<Share>, i: nat): (r: seq<Share>)
    requires i < |s|
    ensures |r| == |s| - 1
    ensures forall k :: 0 <= k < |r| ==> r[k] == s[Skip(k, i)]
  {
    s[..i] + s[i + 1..]
  }

  lemma {:induction false} WithoutIsRest(s: seq<Share>, i: nat)
    requires DistinctBy(s, ShareName) && i < |s|
    ensures Without(s, s[i].name) == Rest(s, i)
  {
    hide Filter, Rest, Skip;
    FilterHead(s, (r: Share) => r.name != s[i].name);
    RestHead(s, i);
    if i == 0 {
      KeepsAll(s[1..], s[0].name);
    } else {
      NamesDiffer(s, 0, i);
      WithoutIsRest(s[1..], i - 1);
    }
  }

  lemma NamesDiffer(s: seq<Share>, i: nat, j: nat)
    requires DistinctBy(s, ShareName) && i < j < |s|
    ensures s[i].name != s[j].name
    ensures DistinctBy(s[1..], ShareName)
  {
    assert ShareName(s[i]) != ShareName(s[j]);
  }

  lemma RestHead(s: seq<Share>, i: nat)
    requires i < |s|
    ensures Rest(s, i) == if i == 0 then s[1..] else [s[0]] + Rest(s[1..], i - 1)
  {
    if i > 0 {
      assert s[..i] == [s[0]] + s[1..][..i - 1];
      assert s[i + 1..] == s[1..][i..];
    }
  }

  lemma KeepsAll(s: seq<Share>, name: string)
    requires forall i :: 0 <= i < |s| ==> s[i].name != name
    ensures Without(s, name) == s
  {
    FilterAll(s, (r: Share) => r.name != name);
  }

  lemma {:induction false} RaisedSum(s: seq<Share>, div: real)
    ensures SumRatios(Raised(s, div)) == SumRatios(s) + |s| as real * div
  {
    if s != [] {
      RaisedSum(s[1..], div);
      assert Raised(s, div)[1..] == Raised(s[1..], div);
      OneMore(|s|, div);
    }
  }

  lemma OneMore(n: nat, x: real)
    requires n > 0
    ensures n as real * x == (n - 1) as real * x + x
  {
  }

  /** The share of a removed algorithm is spread evenly over the rest. */
  function Redistributed(s: seq<Share>, i: nat): seq<Share>
    requires i < |s| && Without(s, s[i].name) != []
  {
    var rest := Without(s, s[i].name);
    Raised(rest, Divide(s[i].ratio, |rest|))
  }

  function Divide(ratio: real, n: nat): real
    requires n > 0
  {
    ratio / n as real
  }

  lemma DivideExact(ratio: real, n: nat)
    requires n > 0
    ensures n as real * Divide(ratio, n) == ratio
    ensures ratio >= 0.0 ==> Divide(ratio, n) >= 0.0
  {
  }

  lemma SumsOne(r: Share)
    ensures SumRatios([r]) == r.ratio && SumAllocations([r]) == r.allocations
  {
    assert [r][1..] == [];
  }

  lemma RestSums(s: seq<Share>, i: nat)
    requires i < |s|
    ensures SumRatios(Rest(s, i)) == SumRatios(s) - s[i].ratio
    ensures SumAllocations(Rest(s, i)) == SumAllocations(s) - s[i].allocations
  {
    hide SumRatios, SumAllocations;
    SumsConcat(s[..i], [s[i]] + s[i + 1..]);
    SumsConcat([s[i]], s[i + 1..]);
    SumsConcat(s[..i], s[i + 1..]);
    SumsOne(s[i]);
    SplitAt(s, i);
  }

  lemma SpreadWeighted(rest: seq<Share>, ratio: real)
    requires rest != [] && ratio >= 0.0 && SumRatios(rest) + ratio == 1.0
    requires forall i :: 0 <= i < |rest| ==> rest[i].ratio >= 0.0
    ensures Weighted(Raised(rest, Divide(ratio, |rest|)))
  {
    hide SumRatios, Divide, Raised, Weighted;
    DivideExact(ratio, |rest|);
    RaisedWeighted(rest, Divide(ratio, |rest|), ratio);
  }

  lemma RaisedWeighted(rest: seq<Share>, div: real, ratio: real)
    requires |rest| as real * div == ratio && div >= 0.0 && SumRatios(rest) + ratio == 1.0
    requires forall i :: 0 <= i < |rest| ==> rest[i].ratio >= 0.0
    ensures Weighted(Raised(rest, div))
  {
    RaisedSum(rest, div);
    hide SumRatios;
  }

  lemma RedistributedWeighted(s: seq<Share>, allocations: map<string, nat>, i: nat)
    requires Valid(s, allocations) && i < |s| && |s| > 1
    ensures Without(s, s[i].name) == Rest(s, i)
    ensures Weighted(Redistributed(s, i))
  {
    WithoutIsRest(s, i);
    RestSums(s, i);
    hide SumRatios, SumAllocations, Without, Tiled, Covered, DistinctBy, Rest, Raised, Weighted, Divide;
    SpreadWeighted(Rest(s, i), s[i].ratio);
  }

  lemma RedistributedValid(s: seq<Share>, allocations: map<string, nat>, i: nat)
    requires Valid(s, allocations) && i < |s| && |s| > 1
    ensures Without(s, s[i].name) == Rest(s, i)
    ensures var t := Redistributed(s, i);
            && |t| == |s| - 1 && Covered(t, allocations) && Weighted(t) && DistinctBy(t, ShareName)
            && (forall k :: 0 <= k < |t| ==>
                  t[k].name == s[Skip(k, i)].name && t[k].allocations == s[Skip(k, i)].allocations)
  {
    RedistributedWeighted(s, allocations, i);
    hide SumRatios, Raised, Without, Tiled, Weighted, Divide, Rest, Redistributed;
    var t := Redistributed(s, i);
    forall k | 0 <= k < |t|
      ensures t[k].name == s[Skip(k, i)].name && t[k].allocations == s[Skip(k, i)].allocations
      ensures t[k].name in allocations && allocations[t[k].name] >= 1
    {
      assert t[k].name == s[Skip(k, i)].name;
    }
  }

  /** _reCalcRange */
  function Recalculated(s: seq<Share>, allocations: map<string, nat>, i: nat): seq<Share>
    requires Valid(s, allocations) && i < |s| && |s| > 1
  {
    RedistributedValid(s, allocations, i);
    Ranges(Redistributed(s, i), allocations, 0.0)
  }

  /** Removing an algorithm leaves a valid state in which every algorithm has something to allocate:
      what stood at 0 is filled up again. */
  lemma RecalculatedValid(s: seq<Share>, allocations: map<string, nat>, i: nat)
    requires Valid(s, allocations) && i < |s| && |s| > 1
    ensures var t := Recalculated(s, allocations, i);
            && |t| == |s| - 1 && Valid(t, allocations)
            && forall k :: 0 <= k < |t| ==> s[Skip(k, i)].name in allocations && t[k].name == s[Skip(k, i)].name
                                            && t[k].allocations == Refill(s[Skip(k, i)], allocations) >= 1
  {
    RedistributedValid(s, allocations, i);
    RangesValid(Redistributed(s, i), allocations);
    hide Redistributed, Ranges, Without;
    var t := Recalculated(s, allocations, i);
    forall k | 0 <= k < |t|
      ensures s[Skip(k, i)].name in allocations && t[k].name == s[Skip(k, i)].name
      ensures t[k].allocations == Refill(s[Skip(k, i)], allocations) >= 1
    {
      RangesKeep(Redistributed(s, i), allocations, 0.0, k);
    }
  }

  function Decrement(s: seq<Share>, i: nat): seq<Share>
    requires i < |s| && s[i].allocations > 0
  {
    s[i := s[i].(allocations := s[i].allocations - 1)]
  }

  lemma {:induction false} DecrementValid(s: seq<Share>, allocations: map<string, nat>, i: nat)
    requires Valid(s, allocations) && i < |s| && s[i].allocations > 0
    ensures Valid(Decrement(s, i), allocations)
    ensures SumAllocations(Decrement(s, i)) == SumAllocations(s) - 1
  {
    DecrementTiled(s, 0.0, i);
    hide SumRatios, SumAllocations, Tiled;
  }

  lemma {:induction false} DecrementTiled(s: seq<Share>, start: real, i: nat)
    requires i < |s| && s[i].allocations > 0
    ensures Tiled(s, start) ==> Tiled(Decrement(s, i), start)
    ensures SumRatios(Decrement(s, i)) == SumRatios(s)
    ensures SumAllocations(Decrement(s, i)) == SumAllocations(s) - 1
  {
    var t := Decrement(s, i);
    if i == 0 {
      assert t[1..] == s[1..];
    } else {
      DecrementTiled(s[1..], s[0].to, i - 1);
      assert t[1..] == Decrement(s[1..], i - 1);
    }
  }

  ghost predicate UnitDraw(x: real) { 0.0 <= x <= 1.0 }

  ghost predicate UnitDraws(draws: nat -> real) { forall n :: UnitDraw(draws(n)) }

  /** The draw finds an algorithm; if that one has nothing left, others have, so it can be removed. */
  lemma DrawWorks(s: seq<Share>, allocations: map<string, nat>, x: real)
    requires Valid(s, allocations) && UnitDraw(x)
    ensures FindRange(s, x).Some?
    ensures var i := FindRange(s, x).value;
            SumAllocations(s) > 0 && s[i].allocations == 0 ==> |s| > 1
  {
    assert s != [];
    DrawFinds(s, 0.0, x);
    assert |s| == 1 ==> s[1..] == [];
  }

  /** One turn of the generator: the algorithm to yield and the state it leaves. */
  function Step(s: seq<Share>, allocations: map<string, nat>, x: real): (seq<Share>, string)
    requires Valid(s, allocations) && UnitDraw(x) && SumAllocations(s) > 0
  {
    DrawWorks(s, allocations, x);
    var i := FindRange(s, x).value;
    if s[i].allocations != 0 then (Decrement(s, i), s[i].name)
    else
      RecalculatedValid(s, allocations, i);
      var t := Recalculated(s, allocations, i);
      DrawWorks(t, allocations, x);
      var j := FindRange(t, x).value;
      (Decrement(t, j), t[j].name)
  }

  lemma StepValid(s: seq<Share>, allocations: map<string, nat>, x: real)
    requires Valid(s, allocations) && UnitDraw(x) && SumAllocations(s) > 0
    ensures var t := Step(s, allocations, x).0;
            && Valid(t, allocations) && t != []
            && (|t| < |s| || (|t| == |s| && SumAllocations(t) == SumAllocations(s) - 1))
  {
    DrawWorks(s, allocations, x);
    var i := FindRange(s, x).value;
    hide Valid, Recalculated, Decrement, SumAllocations;
    if s[i].allocations != 0 {
      DecrementValid(s, allocations, i);
    } else {
      RecalculatedValid(s, allocations, i);
      var t := Recalculated(s, allocations, i);
      DrawWorks(t, allocations, x);
      var j := FindRange(t, x).value;
      DecrementValid(t, allocations, j);
    }
  }

  /** Everything the generator yields: it ends for every sequence of draws, because each turn leaves
      fewer algorithms, or as many and one allocation less. */
  function Yields(s: seq<Share>, allocations: map<string, nat>, draws: nat -> real, k: nat): seq<string>
    requires Valid(s, allocations) && UnitDraws(draws)
    decreases |s|, SumAllocations(s)
  {
    if SumAllocations(s) == 0 then []
    else
      StepValid(s, allocations, draws(k));
      var (t, name) := Step(s, allocations, draws(k));
      [name] + Yields(t, allocations, draws, k + 1)
  }

  // ---------------------------------------------------------------- what each algorithm gets

  ghost predicate Names(s: seq<Share>, name: string) {
    exists i :: 0 <= i < |s| && s[i].name == name
  }

  function Left(s: seq<Share>, name: string): nat {
    if s == [] then 0 else if s[0].name == name then s[0].allocations else Left(s[1..], name)
  }

  lemma LeftAt(s: seq<Share>, i: nat)
    requires DistinctBy(s, ShareName) && i < |s|
    ensures Left(s, s[i].name) == s[i].allocations
  {
    if i > 0 {
      LeftAt(s[1..], i - 1);
    }
  }

  lemma LeftAbsent(s: seq<Share>, name: string)
    ensures !Names(s, name) ==> Left(s, name) == 0
    ensures Left(s, name) <= SumAllocations(s)
  {
    if s != [] {
      LeftAbsent(s[1..], name);
      if Names(s[1..], name) {
        var i :| 0 <= i < |s[1..]| && s[1..][i].name == name;
        assert s[i + 1].name == name;
      }
    }
  }

  lemma DecrementLeft(s: seq<Share>, i: nat, name: string)
    requires DistinctBy(s, ShareName) && i < |s| && s[i].allocations > 0
    ensures Left(Decrement(s, i), name) + (if s[i].name == name then 1 else 0) == Left(s, name)
  {
    var t := Decrement(s, i);
    if i == 0 {
      assert t[1..] == s[1..];
    } else {
      DecrementLeft(s[1..], i - 1, name);
      assert t[1..] == Decrement(s[1..], i - 1);
    }
  }

  /** A removal of an algorithm that had nothing left refills the others that had nothing left. */
  lemma RecalculatedLeft(s: seq<Share>, allocations: map<string, nat>, i: nat, name: string)
    requires Valid(s, allocations) && i < |s| && |s| > 1 && s[i].allocations == 0
    requires name in allocations
    ensures Left(Recalculated(s, allocations, i), name) ==
              if Names(s, name) && name != s[i].name && Left(s, name) == 0 then allocations[name] else Left(s, name)
  {
    RecalculatedValid(s, allocations, i);
    hide Recalculated, Tiled, SumRatios, Left;
    RefilledLeft(s, Recalculated(s, allocations, i), allocations, i, name);
  }

  lemma RefilledLeft(s: seq<Share>, t: seq<Share>, allocations: map<string, nat>, i: nat, name: string)
    requires DistinctBy(s, ShareName) && DistinctBy(t, ShareName) && i < |s| && s[i].allocations == 0 && |t| == |s| - 1
    requires name in allocations
    requires forall k :: 0 <= k < |t| ==>
               && t[k].name == s[Skip(k, i)].name && t[k].name in allocations
               && t[k].allocations == Refill(s[Skip(k, i)], allocations)
    ensures Left(t, name) ==
              if Names(s, name) && name != s[i].name && Left(s, name) == 0 then allocations[name] else Left(s, name)
  {
    LeftAt(s, i);
    LeftAbsent(s, name);
    LeftAbsent(t, name);
    hide Left, SumAllocations;
    if k :| 0 <= k < |s| && s[k].name == name && k != i {
      var l := if k < i then k else k - 1;
      assert Skip(l, i) == k;
      LeftAt(s, k);
      LeftAt(t, l);
    } else {
      forall l | 0 <= l < |t| ensures t[l].name != name {
        assert t[l].name == s[Skip(l, i)].name;
      }
    }
  }

  /** With two algorithms, the one that is not removed had something left. */
  lemma OtherHasSome(s: seq<Share>, i: nat, name: string)
    requires |s| == 2 && DistinctBy(s, ShareName) && i < 2 && s[i].allocations == 0 && SumAllocations(s) > 0
    requires Names(s, name) && name != s[i].name
    ensures Left(s, name) > 0
  {
    assert s[1..][1..] == [];
    assert SumAllocations(s[1..]) == s[1].allocations;
    LeftAt(s, 0);
    LeftAt(s, 1);
  }

  /** n * allocation, as repeated addition */
  function Times(n: nat, allocation: nat): nat {
    if n == 0 then 0 else Times(n - 1, allocation) + allocation
  }

  lemma TimesIsProduct(n: nat, allocation: nat)
    ensures Times(n, allocation) == n * allocation
  {
  }

  lemma TimesAdd(m: nat, n: nat, allocation: nat)
    ensures Times(m + n, allocation) == Times(m, allocation) + Times(n, allocation)
    ensures Times(n + 1, allocation) == Times(n, allocation) + allocation
    ensures Times(0, allocation) == 0 && Times(1, allocation) == allocation
  {
    TimesIsProduct(m, allocation);
    TimesIsProduct(n, allocation);
    TimesIsProduct(m + n, allocation);
    assert (m + n) * allocation == m * allocation + n * allocation;
  }

  /** One turn gives the yielded algorithm one allocation from what it had left, or from a full refill
      when it had nothing; another algorithm keeps what it had, or is refilled when it had nothing. */
  lemma StepAccounts(s: seq<Share>, allocations: map<string, nat>, x: real, name: string) returns (refills: nat)
    requires Valid(s, allocations) && UnitDraw(x) && SumAllocations(s) > 0
    requires name in allocations
    ensures var (t, yielded) := Step(s, allocations, x);
            Left(t, name) + (if yielded == name then 1 else 0) == Left(s, name) + Times(refills, allocations[name])
    ensures |s| <= 2 ==> refills == 0
  {
    DrawWorks(s, allocations, x);
    var i := FindRange(s, x).value;
    TimesAdd(0, 0, allocations[name]);
    hide Recalculated, Decrement, Left, SumAllocations, Names, Times;
    if s[i].allocations != 0 {
      DecrementLeft(s, i, name);
      refills := 0;
    } else {
      RecalculatedValid(s, allocations, i);
      RecalculatedLeft(s, allocations, i, name);
      var t := Recalculated(s, allocations, i);
      DrawWorks(t, allocations, x);
      DecrementLeft(t, FindRange(t, x).value, name);
      refills := if Names(s, name) && name != s[i].name && Left(s, name) == 0 then 1 else 0;
      if |s| == 2 && refills == 1 {
        OtherHasSome(s, i, name);
      }
    }
  }

  /** Over the whole run an algorithm gets what it had left and some number of full refills; with at
      most two algorithms it gets exactly what it had left. */
  lemma {:induction false} YieldsExact(s: seq<Share>, allocations: map<string, nat>, draws: nat -> real, k: nat,
                                       name: string)
    returns (refills: nat)
    requires Valid(s, allocations) && UnitDraws(draws) && name in allocations
    ensures Count(Yields(s, allocations, draws, k), Same, name) == Left(s, name) + Times(refills, allocations[name])
    ensures |s| <= 2 ==> refills == 0
    decreases |s|, SumAllocations(s), 1
  {
    hide Step, Left, Valid, Times, Count, Yields, Names, Same, UnitDraws, UnitDraw;
    YieldsUnfold(s, allocations, draws, k);
    if SumAllocations(s) == 0 {
      LeftAbsent(s, name);
      TimesAdd(0, 0, allocations[name]);
      refills := 0;
    } else {
      refills := YieldsLater(s, allocations, draws, k, name);
    }
  }

  lemma {:induction false} YieldsLater(s: seq<Share>, allocations: map<string, nat>, draws: nat -> real, k: nat,
                                       name: string)
    returns (refills: nat)
    requires Valid(s, allocations) && UnitDraws(draws) && name in allocations && SumAllocations(s) > 0
    ensures Count(Yields(s, allocations, draws, k), Same, name) == Left(s, name) + Times(refills, allocations[name])
    ensures |s| <= 2 ==> refills == 0
    decreases |s|, SumAllocations(s), 0
  {
    hide Step, Left, Valid, Times, Count, Yields, Names, Same, SumAllocations;
    YieldsUnfold(s, allocations, draws, k);
    var t, yielded := Step(s, allocations, draws(k)).0, Step(s, allocations, draws(k)).1;
    StepValid(s, allocations, draws(k));
    var now := StepAccounts(s, allocations, draws(k), name);
    var later := YieldsExact(t, allocations, draws, k + 1, name);
    refills := now + later;
    TimesAdd(now, later, allocations[name]);
    CountFirst(yielded, Yields(t, allocations, draws, k + 1), name);
  }

  lemma YieldsUnfold(s: seq<Share>, allocations: map<string, nat>, draws: nat -> real, k: nat)
    requires Valid(s, allocations) && UnitDraws(draws)
    ensures SumAllocations(s) == 0 ==> Yields(s, allocations, draws, k) == []
    ensures SumAllocations(s) > 0 ==>
              var (t, yielded) := Step(s, allocations, draws(k));
              Valid(t, allocations) && Yields(s, allocations, draws, k) ==
                  [yielded] + Yields(t, allocations, draws, k + 1)
  {
    if SumAllocations(s) > 0 {
      StepValid(s, allocations, draws(k));
    }
    hide Step, Valid, SumAllocations;
  }

  lemma CountFirst(first: string, rest: seq<string>, name: string)
    ensures Count([first] + rest, Same, name) == Count(rest, Same, name) + if first == name then 1 else 0
  {
    assert ([first] + rest)[1..] == rest;
  }

  /** The state the constructor reaches. */
  ghost function Initial(usage: seq<Usage>, allocations: map<string, nat>): seq<Share>
    requires ValidUsage(usage, allocations) && Defined(usage) && usage != []
  {
    InitialValid(usage, allocations);
    Ranges(InitialRatios(usage), allocations, 0.0)
  }

  lemma InitialLeft(usage: seq<Usage>, allocations: map<string, nat>, i: nat)
    requires ValidUsage(usage, allocations) && Defined(usage) && i < |usage|
    ensures var s := Initial(usage, allocations);
            && Valid(s, allocations) && |s| == |usage|
            && usage[i].name in allocations && Left(s, usage[i].name) == allocations[usage[i].name] >= 1
  {
    InitialValid(usage, allocations);
    InitialWeighted(usage, allocations);
    hide InitialRatios, Weighted, Defined, SumRatios, Tiled;
    var s := Initial(usage, allocations);
    RangesKeep(InitialRatios(usage), allocations, 0.0, i);
    assert |s| == |usage| && s[i].name == usage[i].name && s[i].allocations == allocations[usage[i].name];
    LeftAt(s, i);
  }

  /** From the constructor on, every algorithm gets a positive whole multiple of its allocation, and
      exactly its allocation when there are two algorithms. */
  lemma PositiveMultiple(usage: seq<Usage>, allocations: map<string, nat>, draws: nat -> real,
                         i: nat) returns (times: nat)
    requires ValidUsage(usage, allocations) && Defined(usage) && i < |usage| && UnitDraws(draws)
    ensures Valid(Initial(usage, allocations), allocations)
    ensures Count(Yields(Initial(usage, allocations), allocations, draws, 0), Same, usage[i].name) ==
              times * allocations[usage[i].name]
    ensures times >= 1 && (|usage| == 2 ==> times == 1)
  {
    hide Initial, Defined, Yields, Left, Valid, Times;
    InitialLeft(usage, allocations, i);
    var refills := YieldsExact(Initial(usage, allocations), allocations, draws, 0, usage[i].name);
    times := refills + 1;
    TimesAdd(0, refills, allocations[usage[i].name]);
    TimesIsProduct(times, allocations[usage[i].name]);
  }

  // ---------------------------------------------------------------- how many allocations are handed out

  /** The draw does not remove an algorithm while another one stands at 0. */
  ghost predicate NoRefillAt(s: seq<Share>, x: real) {
    FindRange(s, x).Some? ==>
      var i := FindRange(s, x).value;
      s[i].allocations != 0 || forall k :: 0 <= k < |s| && k != i ==> s[k].allocations != 0
  }

  ghost predicate NoRefill(s: seq<Share>, allocations: map<string, nat>, draws: nat -> real, k: nat)
    requires Valid(s, allocations) && UnitDraws(draws)
    decreases |s|, SumAllocations(s)
  {
    SumAllocations(s) == 0 || (
      StepValid(s, allocations, draws(k));
      NoRefillAt(s, draws(k)) && NoRefill(Step(s, allocations, draws(k)).0, allocations, draws, k + 1))
  }

  lemma {:induction false} RefillSum(r: seq<Share>, t: seq<Share>)
    requires |r| == |t|
    requires forall k :: 0 <= k < |r| ==>
               t[k].allocations >= 1 && (r[k].allocations != 0 ==> t[k].allocations == r[k].allocations)
    ensures SumAllocations(t) >= SumAllocations(r)
    ensures SumAllocations(t) == SumAllocations(r) <==> forall k :: 0 <= k < |r| ==> r[k].allocations != 0
  {
    if r != [] {
      RefillSum(r[1..], t[1..]);
      assert (forall k :: 0 <= k < |r| ==> r[k].allocations != 0) <==>
             r[0].allocations != 0 && forall k :: 0 <= k < |r[1..]| ==> r[1..][k].allocations != 0 by {
        assert forall k :: 0 < k < |r| ==> r[k] == r[1..][k - 1];
      }
    }
  }

  lemma RecalculatedSum(s: seq<Share>, allocations: map<string, nat>, i: nat)
    requires Valid(s, allocations) && i < |s| && |s| > 1 && s[i].allocations == 0
    ensures SumAllocations(Recalculated(s, allocations, i)) >= SumAllocations(s)
    ensures SumAllocations(Recalculated(s, allocations, i)) == SumAllocations(s) <==>
              forall k :: 0 <= k < |s| && k != i ==> s[k].allocations != 0
  {
    RecalculatedValid(s, allocations, i);
    RestSums(s, i);
    hide Recalculated, SumAllocations, SumRatios, Valid, Rest;
    RefillSum(Rest(s, i), Recalculated(s, allocations, i));
    OthersInRest(s, i);
  }

  lemma OthersInRest(s: seq<Share>, i: nat)
    requires i < |s|
    ensures (forall k :: 0 <= k < |s| && k != i ==> s[k].allocations != 0) <==>
            forall k :: 0 <= k < |Rest(s, i)| ==> Rest(s, i)[k].allocations != 0
  {
    hide Rest;
    forall k | 0 <= k < |s| && k != i ensures s[k] == Rest(s, i)[if k < i then k else k - 1] {
      assert Skip(if k < i then k else k - 1, i) == k;
    }
  }

  lemma StepSum(s: seq<Share>, allocations: map<string, nat>, x: real)
    requires Valid(s, allocations) && UnitDraw(x) && SumAllocations(s) > 0
    ensures SumAllocations(Step(s, allocations, x).0) >= SumAllocations(s) - 1
    ensures SumAllocations(Step(s, allocations, x).0) == SumAllocations(s) - 1 <==> NoRefillAt(s, x)
  {
    DrawWorks(s, allocations, x);
    var i := FindRange(s, x).value;
    hide Recalculated, Decrement, SumAllocations;
    if s[i].allocations != 0 {
      DecrementValid(s, allocations, i);
    } else {
      RecalculatedValid(s, allocations, i);
      RecalculatedSum(s, allocations, i);
      var t := Recalculated(s, allocations, i);
      DrawWorks(t, allocations, x);
      DecrementValid(t, allocations, FindRange(t, x).value);
    }
  }

  /** The generator hands out at least the sum of the allocations, and exactly that sum precisely when
      no draw removes an algorithm while another one stands at 0. */
  lemma {:induction false} HandsOutExactly(s: seq<Share>, allocations: map<string, nat>, draws: nat -> real, k: nat)
    requires Valid(s, allocations) && UnitDraws(draws)
    ensures |Yields(s, allocations, draws, k)| >= SumAllocations(s)
    ensures |Yields(s, allocations, draws, k)| == SumAllocations(s) <==> NoRefill(s, allocations, draws, k)
    decreases |s|, SumAllocations(s)
  {
    if SumAllocations(s) > 0 {
      StepValid(s, allocations, draws(k));
      StepSum(s, allocations, draws(k));
      HandsOutExactly(Step(s, allocations, draws(k)).0, allocations, draws, k + 1);
      hide Step, Valid, SumAllocations, NoRefillAt;
    }
  }

  // ---------------------------------------------------------------- class AlgorithmRatios

  datatype Draw = Done | Yielded(name: string) | NoRange

  /** A call that yields: the state moves as Step says, stays valid and gets smaller. */
  ghost predicate Turn(s: seq<Share>, allocations: map<string, nat>, x: real, t: seq<Share>, r: Draw) {
    && Valid(s, allocations) && UnitDraw(x) && SumAllocations(s) > 0
    && t == Step(s, allocations, x).0 && r == Yielded(Step(s, allocations, x).1)
    && Valid(t, allocations) && t != []
    && (|t| < |s| || (|t| == |s| && SumAllocations(t) < SumAllocations(s)))
  }

  class AlgorithmRatios {
    var algorithms: seq<Share>
    var totalAllocations: nat
    var ratiosDefined: bool
    const allocations: map<string, nat>

    /** What every call of the generator finds and leaves. */
    ghost predicate Ready()
      reads this
    {
      totalAllocations == SumAllocations(algorithms) &&
      (ratiosDefined && algorithms != [] ==> Valid(algorithms, allocations))
    }

    constructor (usage: seq<Usage>, allocations: map<string, nat>)
      requires ValidUsage(usage, allocations)
      ensures Ready() && this.allocations == allocations && |algorithms| == |usage|
      ensures ratiosDefined <==> Defined(usage)
      ensures ratiosDefined && usage != [] ==> algorithms == Initial(usage, allocations)
      ensures usage != [] ==> totalAllocations > 0
    {
      this.allocations := allocations;
      ratiosDefined := Defined(usage);
      algorithms := if Defined(usage) then InitialRatios(usage) else Undefined(usage);
      totalAllocations := 0;
      new;
      if usage != [] && Defined(usage) {
        InitialValid(usage, allocations);
      }
      hide Defined, InitialRatios, Undefined, Valid, Ranges;
      CalcRange();
    }

    /** _calcRange: one pass with the running ratio and the running total. */
    method CalcRange()
      requires Covered(algorithms, allocations)
      modifies this
      ensures algorithms == Ranges(old(algorithms), allocations, 0.0)
      ensures totalAllocations == SumAllocations(algorithms)
      ensures algorithms != [] ==> totalAllocations > 0
      ensures ratiosDefined == old(ratiosDefined)
    {
      hide Ranges, Covered, SumAllocations, SumRatios, Refill;
      var s, ratio, total, done := algorithms, 0.0, 0, [];
      RangesBegin(s, allocations);
      for i := 0 to |s|
        invariant ratiosDefined == old(ratiosDefined)
        invariant |done| == i && total == SumAllocations(done) && (i > 0 ==> total > 0)
        invariant if i == 0 then ratio == 0.0 else done[i - 1].to == ratio
        invariant ratio == SumRatios(s[..i]) && done == Ranges(s[..i], allocations, 0.0)
      {
        var r := s[i];
        var from := if i > 0 then done[i - 1].to else 0.0;
        RangesNext(s, allocations, i);
        ratio := ratio + r.ratio;
        var next := r.(allocations := Refill(r, allocations), from := from, to := ratio);
        SumSnoc(done, next);
        done := done + [next];
        total := total + next.allocations;
      }
      assert s[..|s|] == s;
      algorithms := done;
      totalAllocations := total;
    }

    /** _reCalcRange */
    method ReCalcRange(i: nat)
      requires Valid(algorithms, allocations) && i < |algorithms| && |algorithms| > 1
      modifies this
      ensures algorithms == Recalculated(old(algorithms), allocations, i)
      ensures totalAllocations == SumAllocations(algorithms)
      ensures ratiosDefined == old(ratiosDefined)
    {
      RedistributedValid(algorithms, allocations, i);
      hide Valid;
      algorithms := Redistributed(algorithms, i);
      CalcRange();
    }

    /** One call of next() on generateRandom, with the draw it makes. */
    method Next(random: real) returns (r: Draw)
      requires Ready() && UnitDraw(random)
      modifies this
      ensures Ready() && ratiosDefined == old(ratiosDefined)
      ensures if old(totalAllocations) == 0 then r == Done && algorithms == old(algorithms)
              else if !ratiosDefined then r == NoRange && algorithms == old(algorithms)
              else Turn(old(algorithms), allocations, random, algorithms, r)
    {
      if totalAllocations == 0 {
        return Done;
      }
      if !ratiosDefined {
        // every range ends in NaN, so find returns undefined
        return NoRange;
      }
      assert algorithms != [];
      r := NextYield(random);
    }

    method NextYield(random: real) returns (r: Draw)
      requires Valid(algorithms, allocations) && UnitDraw(random)
      requires totalAllocations == SumAllocations(algorithms) > 0
      modifies this
      ensures Turn(old(algorithms), allocations, random, algorithms, r)
      ensures totalAllocations == SumAllocations(algorithms) && ratiosDefined == old(ratiosDefined)
    {
      StepValid(algorithms, allocations, random);
      StepParts(algorithms, allocations, random);
      hide Valid, Step, Recalculated, SumAllocations, Decrement, FindRange;
      var i := FindRange(algorithms, random).value;
      if algorithms[i].allocations == 0 {
        ReCalcRange(i);
        i := FindRange(algorithms, random).value;
      }
      DecrementValid(algorithms, allocations, i);
      r := Yielded(algorithms[i].name);
      algorithms := Decrement(algorithms, i);
      totalAllocations := totalAllocations - 1;
    }

    /** The loop of the metrics that runs the generator to its end. */
    method Exhaust(draws: nat -> real) returns (names: seq<string>, threw: bool)
      requires Ready() && UnitDraws(draws)
      modifies this
      ensures threw <==> !old(ratiosDefined) && old(totalAllocations) > 0
      ensures !threw ==> totalAllocations == 0
      ensures old(ratiosDefined) && old(algorithms) != [] ==>
                Valid(old(algorithms), allocations) && names == Yields(old(algorithms), allocations, draws, 0)
    {
      names, threw := [], false;
      ghost var start := algorithms;
      var k := 0;
      hide Valid, Step, SumAllocations, Yields;
      var r := NoRange;
      var ended := false;
      while !ended
        invariant Ready() && ratiosDefined == old(ratiosDefined)
        invariant ended ==> threw || totalAllocations == 0
        invariant threw <==> ended && !ratiosDefined && old(totalAllocations) > 0
        invariant !ratiosDefined ==> totalAllocations == old(totalAllocations)
        invariant ratiosDefined && start != [] ==>
                    algorithms != [] && Valid(start, allocations) && Valid(algorithms, allocations)
        invariant ratiosDefined && start != [] ==>
                    Yields(start, allocations, draws, 0) == names + Yields(algorithms, allocations, draws, k)
        decreases |algorithms|, totalAllocations, !ended
      {
        if ratiosDefined && algorithms != [] && start != [] { YieldsUnfold(algorithms, allocations, draws, k); }
        r := Next(draws(k));
        match r
        case Done => ended := true;
        case NoRange => ended, threw := true, true;
        case Yielded(name) =>
          names := names + [name];
          k := k + 1;
      }
      if ratiosDefined && start != [] { YieldsUnfold(algorithms, allocations, draws, k); }
    }
  }

  /** The shares of a constructor that divided 0 by 0; their ratios are not numbers. */
  function Undefined(s: seq<Usage>): (r: seq<Share>)
    ensures |r| == |s| && forall i :: 0 <= i < |r| ==> r[i].name == s[i].name
  {
    if s == [] then [] else [Share(s[0].name, 0.0, 0, 0.0, 0.0)] + Undefined(s[1..])
  }

  lemma SumSnoc(s: seq<Share>, r: Share)
    ensures SumAllocations(s + [r]) == SumAllocations(s) + r.allocations
    ensures SumAllocations([]) == 0
  {
    SumsConcat(s, [r]);
    SumsOne(r);
  }

  lemma RangesBegin(s: seq<Share>, allocations: map<string, nat>)
    requires Covered(s, allocations)
    ensures forall i :: 0 <= i <= |s| ==> Covered(s[..i], allocations)
    ensures SumAllocations([]) == 0 && SumRatios(s[..0]) == 0.0 && Ranges(s[..0], allocations, 0.0) == []
  {
  }

  /** The ranges of one algorithm more. */
  lemma RangesNext(s: seq<Share>, allocations: map<string, nat>, i: nat)
    requires Covered(s, allocations) && i < |s|
    ensures Covered(s[..i], allocations) && Covered(s[..i + 1], allocations)
    ensures s[i].name in allocations && Refill(s[i], allocations) >= 1
    ensures SumRatios(s[..i + 1]) == SumRatios(s[..i]) + s[i].ratio
    ensures var from := SumRatios(s[..i]);
            Ranges(s[..i + 1], allocations, 0.0) == Ranges(s[..i], allocations, 0.0) +
              [s[i].(allocations := Refill(s[i], allocations), from := from, to := from + s[i].ratio)]
  {
    assert s[..i + 1] == s[..i] + [s[i]];
    RangesSnoc(s[..i], s[i], allocations, 0.0);
  }

  lemma {:induction false} RangesSnoc(s: seq<Share>, r: Share, allocations: map<string, nat>, start: real)
    requires Covered(s + [r], allocations) && Covered(s, allocations) && r.name in allocations
    ensures SumRatios(s + [r]) == SumRatios(s) + r.ratio
    ensures var from := start + SumRatios(s);
            Ranges(s + [r], allocations, start) == Ranges(s, allocations, start) +
              [r.(allocations := Refill(r, allocations), from := from, to := from + r.ratio)]
  {
    if s == [] {
      assert s + [r] == [r] && [r][1..] == [];
    } else {
      hide Refill;
      assert (s + [r])[1..] == s[1..] + [r];
      assert Covered(s[1..] + [r], allocations);
      RangesSnoc(s[1..], r, allocations, start + s[0].ratio);
      hide Ranges, Covered, SumRatios;
      var first := s[0].(allocations := Refill(s[0], allocations), from := start, to := start + s[0].ratio);
      var from := start + SumRatios(s);
      var last := r.(allocations := Refill(r, allocations), from := from, to := from + r.ratio);
      Assoc([first], Ranges(s[1..], allocations, start + s[0].ratio), [last]);
    }
  }

  /** The two ways a turn can go. */
  lemma StepParts(s: seq<Share>, allocations: map<string, nat>, x: real)
    requires Valid(s, allocations) && UnitDraw(x) && SumAllocations(s) > 0
    ensures FindRange(s, x).Some?
    ensures var i := FindRange(s, x).value;
            if s[i].allocations != 0 then Step(s, allocations, x) == (Decrement(s, i), s[i].name)
            else
              && |s| > 1
              && var t := Recalculated(s, allocations, i);
              && Valid(t, allocations) && FindRange(t, x).Some?
              && var j := FindRange(t, x).value;
              && t[j].allocations > 0 && Step(s, allocations, x) == (Decrement(t, j), t[j].name)
  {
    DrawWorks(s, allocations, x);
    var i := FindRange(s, x).value;
    hide Recalculated, Decrement, SumAllocations, Valid;
    if s[i].allocations == 0 {
      RecalculatedValid(s, allocations, i);
      DrawWorks(Recalculated(s, allocations, i), allocations, x);
    }
  }
}
