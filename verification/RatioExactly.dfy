/** The ratios, the draws and the turns of the allocator by formula
    (resource-manager, lib/allocators/ratios-allocator.js). */
module RatioExactly {
  import opened Collections
  import opened RatioAllocator

  function RatioOf(r: Share): real { r.ratio }

  function ValueOf(u: Usage): real { u.value }

  // ---------------------------------------------------------------- the first ratios

  lemma SumOfHead<T(!new)>(s: seq<T>, f: T -> real)
    requires s != []
    ensures SumOf(s, f) == f(s[0]) + SumOf(s[1..], f)
  {
    if |s| > 1 {
      var init := s[..|s| - 1];
      SumOfHead(init, f);
      assert init[1..] == s[1..][..|s| - 2];
    }
  }

  lemma {:induction false} ValuesSum(usage: seq<Usage>)
    ensures SumValues(usage) == SumOf(usage, ValueOf)
  {
    if usage != [] {
      ValuesSum(usage[1..]);
      SumOfHead(usage, ValueOf);
    }
  }

  /** The first ratio of an algorithm among n is (1 - its value / the sum of the values) / (n - 1), and it has its whole
      allocation to hand out. */
  lemma InitialExactly(usage: seq<Usage>, allocations: map<string, nat>, i: nat)
    requires ValidUsage(usage, allocations) && Defined(usage) && i < |usage|
    ensures var s, sum := Initial(usage, allocations), SumOf(usage, ValueOf);
      && |s| == |usage| > 1 && sum > 0.0 && usage[i].name in allocations
      && s[i].name == usage[i].name && s[i].allocations == allocations[usage[i].name]
      && s[i].ratio == (1.0 - usage[i].value / sum) / (|usage| - 1) as real
  {
    hide SumValues, SumRatios, Weighted, Valid, Ranges, SumOf, InitialRatios, Defined, ValidUsage, Refill;
    FirstRatio(usage, allocations, i);
    InitialWeighted(usage, allocations);
    InitialValid(usage, allocations);
    RangesKeep(InitialRatios(usage), allocations, 0.0, i);
    RefilledFromNothing(InitialRatios(usage)[i], allocations);
  }

  lemma FirstRatio(usage: seq<Usage>, allocations: map<string, nat>, i: nat)
    requires ValidUsage(usage, allocations) && Defined(usage) && i < |usage|
    ensures |InitialRatios(usage)| == |usage| > 1 && SumOf(usage, ValueOf) > 0.0
    ensures InitialRatios(usage)[i].ratio == (1.0 - usage[i].value / SumOf(usage, ValueOf)) / (|usage| - 1) as real
  {
    hide SumValues, SumRatios, ValidUsage, SumOf, Defined, Inverse, Scaled;
    ValuesSum(usage);
    InverseExact(usage, allocations);
  }

  lemma RefilledFromNothing(r: Share, allocations: map<string, nat>)
    requires r.name in allocations && r.allocations == 0
    ensures Refill(r, allocations) == allocations[r.name]
  {
  }

  // ---------------------------------------------------------------- draws

  lemma {:induction false} TiledAt(s: seq<Share>, start: real, i: nat)
    requires Tiled(s, start) && i < |s|
    ensures s[i].to == s[i].from + s[i].ratio
  {
    if i > 0 {
      TiledAt(s[1..], s[0].to, i - 1);
    }
  }

  /** A range starts at the sum of the ratios before it. */
  lemma {:induction false} RangeIsPrefix(s: seq<Share>, start: real, i: nat)
    requires Tiled(s, start) && i < |s| && forall k :: 0 <= k < |s| ==> s[k].ratio >= 0.0
    ensures s[i].from == start + SumOf(s[..i], RatioOf)
    ensures s[i].to == start + SumOf(s[..i + 1], RatioOf)
  {
    TilingExact(s, start);
    TiledAt(s, start, i);
    assert s[..i + 1][..i] == s[..i];
    if i > 0 {
      RangeIsPrefix(s, start, i - 1);
    }
  }

  lemma {:induction false} PrefixesGrow(s: seq<Share>, k: nat, i: nat)
    requires k <= i <= |s| && forall l :: 0 <= l < |s| ==> s[l].ratio >= 0.0
    ensures SumOf(s[..k], RatioOf) <= SumOf(s[..i], RatioOf)
  {
    if k < i {
      PrefixesGrow(s, k, i - 1);
      assert s[..i][..i - 1] == s[..i - 1];
    }
  }

  /** Algorithm i owns the draw: the ratios before it sum to less, and with its own they reach the draw; the first
      algorithm owns 0 as well. */
  ghost predicate Owns(s: seq<Share>, i: nat, x: real)
    requires i < |s|
  {
    (i == 0 || SumOf(s[..i], RatioOf) < x) && x <= SumOf(s[..i + 1], RatioOf)
  }

  /** A draw hits the one algorithm that owns it. */
  lemma DrawExactly(s: seq<Share>, allocations: map<string, nat>, x: real, i: nat)
    requires Valid(s, allocations) && UnitDraw(x) && i < |s|
    ensures FindRange(s, x) == Some(i) <==> Owns(s, i, x)
  {
    RangeIsPrefix(s, 0.0, i);
    if i > 0 {
      RangeIsPrefix(s, 0.0, i - 1);
      PrefixesGrow(s, i - 1, i);
    }
    forall k | 0 <= k < i ensures s[k].to <= s[i].from {
      RangeIsPrefix(s, 0.0, k);
      PrefixesGrow(s, k + 1, i);
    }
    FoundFirst(s, x, i);
    hide Tiled, SumOf, SumRatios, FindRange;
  }

  lemma FoundFirst(s: seq<Share>, x: real, i: nat)
    requires i < |s|
    ensures FindRange(s, x) == Some(i) <==>
              s[i].from <= x <= s[i].to && forall k :: 0 <= k < i ==> !(s[k].from <= x <= s[k].to)
  {
  }

  // ---------------------------------------------------------------- removals and turns

  /** A removal among n algorithms raises every other ratio by the removed ratio / (n - 1), keeps the order, and fills
      up what stands at 0. */
  lemma RemovalExactly(s: seq<Share>, allocations: map<string, nat>, i: nat, k: nat)
    requires Valid(s, allocations) && i < |s| && |s| > 1 && k < |s| - 1
    ensures |Recalculated(s, allocations, i)| == |s| - 1
    ensures var was, now := s[if k < i then k else k + 1], Recalculated(s, allocations, i)[k];
      && was.name in allocations
      && now.name == was.name && now.ratio == was.ratio + s[i].ratio / (|s| - 1) as real
      && now.allocations == (if was.allocations == 0 then allocations[was.name] else was.allocations)
  {
    RedistributedValid(s, allocations, i);
    RecalculatedValid(s, allocations, i);
    RangesKeep(Redistributed(s, i), allocations, 0.0, k);
    hide Valid, Ranges, Weighted, Without, Rest;
  }

  /** One turn: the algorithm that owns the draw gets one of what it has left. When it has nothing left, it is removed
      first, and the algorithm that owns the draw then gets one. */
  lemma StepExactly(s: seq<Share>, allocations: map<string, nat>, x: real, i: nat, j: nat)
    requires Valid(s, allocations) && UnitDraw(x) && SumAllocations(s) > 0
    requires i < |s| && Owns(s, i, x)
    ensures s[i].allocations > 0 ==> Step(s, allocations, x) == (Lessened(s, i), s[i].name)
    ensures s[i].allocations == 0 ==> |s| > 1
    ensures s[i].allocations == 0 && j < |Recalculated(s, allocations, i)| ==>
              var t := Recalculated(s, allocations, i);
              Owns(t, j, x) ==> t[j].allocations > 0 && Step(s, allocations, x) == (Lessened(t, j), t[j].name)
  {
    hide Valid, Recalculated, Owns, SumAllocations, FindRange, UnitDraw;
    DrawExactly(s, allocations, x, i);
    DrawWorks(s, allocations, x);
    if s[i].allocations == 0 {
      RecalculatedValid(s, allocations, i);
      if j < |Recalculated(s, allocations, i)| {
        DrawExactly(Recalculated(s, allocations, i), allocations, x, j);
      }
    }
  }

  /** The algorithm has one allocation less; it keeps its name, ratio and range, and so does every other. */
  ghost function Lessened(s: seq<Share>, i: nat): seq<Share>
    requires i < |s| && s[i].allocations > 0
  {
    s[i := Share(s[i].name, s[i].ratio, s[i].allocations - 1, s[i].from, s[i].to)]
  }
}
