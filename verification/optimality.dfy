/** Package-merge is optimal: among all code lengths with the same cap and a Kraft sum of at most one,
    the lengths it returns cost the least.

    Any assignment of lengths picks, level by level, the leaves that are at least that long; its Kraft
    sum says what the picks are worth.  A round's list is the cheapest way to reach a given worth. */
module Optimality {
  import opened Bits
  import opened Canonical
  import opened PackageMerge

  // ----- Cheapest prefixes -----

  lemma {:induction false} PrefixGrows(nodes: seq<Node>, a: nat, b: nat)
    requires a <= b <= |nodes|
    ensures Sum(Weight, nodes[..a]) <= Sum(Weight, nodes[..b])
    decreases b
  {
    if a < b {
      PrefixGrows(nodes, a, b - 1);
      assert nodes[..b] == nodes[..b - 1] + [nodes[b - 1]];
      SumSnoc(Weight, nodes[..b - 1], nodes[b - 1]);
    }
  }

  /** The first `u` merged nodes weigh no more than any prefixes with at least `u` nodes together. */
  lemma {:induction false} MergeLeast(left: seq<Node>, right: seq<Node>, u: nat, p: nat, c: nat)
    requires ByWeight(left) && ByWeight(right) && p <= |left| && c <= |right| && u <= p + c
    ensures Sum(Weight, Merge(left, right)[..u]) <= Sum(Weight, left[..p]) + Sum(Weight, right[..c])
    decreases u
  {
    hide Sum;
    SumNone(Weight);
    if u > 0 {
      if left == [] {
        PrefixGrows(right, u, c);
      } else if right == [] {
        PrefixGrows(left, u, p);
      } else if left[0].weight < right[0].weight {
        SumTake(Weight, left[0], Merge(left[1..], right), u - 1);
        LeastStep(left, right, left[1..], right, u, p, c);
      } else {
        SumTake(Weight, right[0], Merge(left, right[1..]), u - 1);
        LeastStepRight(left, right, u, p, c);
      }
    }
  }

  /** The left head goes first: it is in the left prefix, or lighter than the last of the right one. */
  lemma {:induction false} LeastStep(left: seq<Node>, right: seq<Node>, rest: seq<Node>, same: seq<Node>, u: nat,
      p: nat, c: nat)
    requires ByWeight(left) && ByWeight(right) && p <= |left| && c <= |right| && 0 < u <= p + c
    requires left != [] && right != [] && left[0].weight < right[0].weight && rest == left[1..] && same == right
    ensures left[0].weight + Sum(Weight, Merge(rest, right)[..u - 1])
        <= Sum(Weight, left[..p]) + Sum(Weight, right[..c])
    decreases u, 0
  {
    hide Sum, Merge;
    SumNone(Weight);
    assert left == [left[0]] + rest;
    if p > 0 {
      MergeLeast(rest, right, u - 1, p - 1, c);
      SumTake(Weight, left[0], rest, p - 1);
    } else {
      MergeLeast(rest, right, u - 1, 0, c - 1);
      assert right[..c] == right[..c - 1] + [right[c - 1]];
      SumSnoc(Weight, right[..c - 1], right[c - 1]);
    }
  }

  lemma {:induction false} LeastStepRight(left: seq<Node>, right: seq<Node>, u: nat, p: nat, c: nat)
    requires ByWeight(left) && ByWeight(right) && p <= |left| && c <= |right| && 0 < u <= p + c
    requires left != [] && right != [] && right[0].weight <= left[0].weight
    ensures right[0].weight + Sum(Weight, Merge(left, right[1..])[..u - 1])
        <= Sum(Weight, left[..p]) + Sum(Weight, right[..c])
    decreases u, 0
  {
    hide Sum, Merge;
    SumNone(Weight);
    assert right == [right[0]] + right[1..];
    if c > 0 {
      MergeLeast(left, right[1..], u - 1, p, c - 1);
      SumTake(Weight, right[0], right[1..], c - 1);
    } else {
      MergeLeast(left, right[1..], u - 1, p - 1, 0);
      assert left[..p] == left[..p - 1] + [left[p - 1]];
      SumSnoc(Weight, left[..p - 1], left[p - 1]);
    }
  }

  // ----- Choices of leaves, level by level -----

  /** One level less. */
  ghost function Dec(l: seq<nat>): (r: seq<nat>)
    ensures |r| == |l| && forall i :: 0 <= i < |l| ==> r[i] == if l[i] > 0 then l[i] - 1 else 0
  {
    if l == [] then [] else Dec(l[..|l| - 1]) + [if l[|l| - 1] > 0 then l[|l| - 1] - 1 else 0]
  }

  /** How many of the first `m` leaves are used at the outermost level. */
  ghost function Ones(l: seq<nat>, m: nat): (n: nat)
    requires m <= |l|
    ensures n <= m
  {
    if m == 0 then 0 else Ones(l, m - 1) + if l[m - 1] > 0 then 1 else 0
  }

  ghost function OnesWeight(source: seq<Node>, l: seq<nat>, m: nat): nat
    requires m <= |l| == |source|
  {
    if m == 0 then 0 else OnesWeight(source, l, m - 1) + if l[m - 1] > 0 then source[m - 1].weight else 0
  }

  /** Any choice weighs at least as much as the lightest leaves, as many of them. */
  lemma {:induction false} LightestFirst(source: seq<Node>, l: seq<nat>, m: nat)
    requires m <= |l| == |source| && ByWeight(source)
    ensures Sum(Weight, source[..Ones(l, m)]) <= OnesWeight(source, l, m)
  {
    hide Sum;
    SumNone(Weight);
    if m > 0 {
      LightestFirst(source, l, m - 1);
      if l[m - 1] > 0 {
        var c := Ones(l, m - 1);
        assert source[..c + 1] == source[..c] + [source[c]];
        SumSnoc(Weight, source[..c], source[c]);
      }
    }
  }

  /** Worth of the choices at `k` levels, in units of 2^-k. */
  ghost function Worth(l: seq<nat>, k: nat): nat
    decreases k
  {
    if k == 0 then 0 else Shl(Ones(l, |l|), k - 1) + Worth(Dec(l), k - 1)
  }

  /** Weight of the choices at `k` levels. */
  ghost function ChoiceWeight(source: seq<Node>, l: seq<nat>, k: nat): nat
    requires |l| == |source|
    decreases k
  {
    if k == 0 then 0 else OnesWeight(source, l, |l|) + ChoiceWeight(source, Dec(l), k - 1)
  }

  /** Choices worth `u` weigh at least as much as the first `u` nodes after `k` rounds -- and there are
      that many nodes. */
  lemma {:induction false} RoundsLeast(source: seq<Node>, l: seq<nat>, k: nat, u: nat)
    requires SourceOk(source) && |l| == |source| && Shl(u, k) <= Worth(l, k + 1)
    ensures u <= |Rounds(source, k)|
    ensures Sum(Weight, Rounds(source, k)[..u]) <= ChoiceWeight(source, l, k + 1)
    decreases k
  {
    hide Sum, Shl, Merge, Pairs, Ones, OnesWeight, Dec, Worth;
    var c := Ones(l, |l|);
    LightestFirst(source, l, |l|);
    if k == 0 {
      WorthOne(l, u);
      PrefixGrows(source, u, c);
      assert ChoiceWeight(source, l, 1) == OnesWeight(source, l, |l|) + ChoiceWeight(source, Dec(l), 0);
    } else {
      var p := if u <= c then 0 else u - c;
      WorthLeft(l, k, u, p);
      RoundsLeast(source, Dec(l), k - 1, 2 * p);
      var inner := Rounds(source, k - 1);
      RoundsSorted(source, k - 1);
      PairsSorted(inner);
      SumPairs(Weight, inner, p);
      MergeLeast(Pairs(inner), source, u, p, c);
    }
  }

  lemma {:induction false} WorthOne(l: seq<nat>, u: nat)
    requires Shl(u, 0) <= Worth(l, 1)
    ensures u <= Ones(l, |l|)
  {
    assert Worth(Dec(l), 0) == 0;
  }

  lemma {:induction false} WorthLeft(l: seq<nat>, k: nat, u: nat, p: nat)
    requires k > 0 && Shl(u, k) <= Worth(l, k + 1) && p == if u <= Ones(l, |l|) then 0 else u - Ones(l, |l|)
    ensures Shl(2 * p, k - 1) <= Worth(Dec(l), k)
  {
    hide Shl;
    var c := Ones(l, |l|);
    ShlTwice(p, k);
    if u > c {
      ShlAdd(c, p, k);
    } else {
      ShlAdd(0, 0, k - 1);
    }
  }

  // ----- What a choice is worth -----

  /** The Kraft sum of the first `m` lengths, in units of 2^-L. */
  ghost function CappedKraft(l: seq<nat>, L: nat, m: nat): nat
    requires m <= |l| && forall i :: 0 <= i < |l| ==> l[i] <= L
  {
    if m == 0 then 0 else CappedKraft(l, L, m - 1) + Pow2(L - l[m - 1])
  }

  lemma {:induction false} CappedKraftDec(l: seq<nat>, L: nat, m: nat)
    requires L > 0 && m <= |l| && forall i :: 0 <= i < |l| ==> l[i] <= L
    ensures CappedKraft(l, L, m) == CappedKraft(Dec(l), L - 1, m) + Shl(m - Ones(l, m), L - 1)
  {
    hide Shl;
    if m == 0 {
      ShlAdd(0, 0, L - 1);
    } else {
      CappedKraftDec(l, L, m - 1);
      if l[m - 1] == 0 {
        ShlTwice(1, L);
        ShlTwice(1, L - 1 + 1);
        ShlOne(L - 1);
        ShlAdd(m - 1 - Ones(l, m - 1), 1, L - 1);
      }
    }
  }

  lemma {:induction false} ShlOne(w: nat)
    ensures Shl(1, w) == Pow2(w)
  {}

  /** Every leaf is worth one: its codeword's share and what its levels account for. */
  lemma {:induction false} WorthAccount(l: seq<nat>, L: nat)
    requires forall i :: 0 <= i < |l| ==> l[i] <= L
    ensures Worth(l, L) + CappedKraft(l, L, |l|) == Shl(|l|, L)
    decreases L
  {
    hide Shl, Dec, Ones;
    if L == 0 {
      AllZeroKraft(l, |l|);
      ShlZero(|l|);
    } else {
      assert forall i :: 0 <= i < |l| ==> Dec(l)[i] <= L - 1;
      WorthAccount(Dec(l), L - 1);
      CappedKraftDec(l, L, |l|);
      ShlAdd(Ones(l, |l|), |l| - Ones(l, |l|), L - 1);
      ShlAdd(|l|, |l|, L - 1);
      ShlTwice(|l|, L);
    }
  }

  lemma {:induction false} ShlZero(x: nat)
    ensures Shl(x, 0) == x
  {}

  lemma {:induction false} AllZeroKraft(l: seq<nat>, m: nat)
    requires m <= |l| && forall i :: 0 <= i < |l| ==> l[i] <= 0
    ensures CappedKraft(l, 0, m) == m
  {
    if m > 0 { AllZeroKraft(l, m - 1); }
  }

  // ----- What a choice weighs -----

  /** Weight times length over the first `m` leaves. */
  ghost function RankCost(source: seq<Node>, l: seq<nat>, m: nat): nat
    requires m <= |l| == |source|
  {
    if m == 0 then 0 else RankCost(source, l, m - 1) + Times(source[m - 1].weight, l[m - 1])
  }

  /** Multiplication by name, so that the solver does not try to reason about it. */
  ghost function Times(a: nat, b: nat): nat {
    a * b
  }

  lemma {:induction false} TimesMore(a: nat, b: nat)
    ensures Times(a, b + 1) == Times(a, b) + a && Times(a, 0) == 0
  {}

  lemma {:induction false} RankCostDec(source: seq<Node>, l: seq<nat>, m: nat)
    requires m <= |l| == |source|
    ensures RankCost(source, l, m) == OnesWeight(source, l, m) + RankCost(source, Dec(l), m)
  {
    hide Times;
    if m > 0 {
      RankCostDec(source, l, m - 1);
      TimesMore(source[m - 1].weight, Dec(l)[m - 1]);
    }
  }

  lemma {:induction false} ChoiceIsCost(source: seq<Node>, l: seq<nat>, L: nat)
    requires |l| == |source| && forall i :: 0 <= i < |l| ==> l[i] <= L
    ensures ChoiceWeight(source, l, L) == RankCost(source, l, |l|)
    decreases L
  {
    hide OnesWeight, RankCost, Dec;
    if L == 0 {
      ZeroCost(source, l, |l|);
    } else {
      assert forall i :: 0 <= i < |l| ==> Dec(l)[i] <= L - 1;
      ChoiceIsCost(source, Dec(l), L - 1);
      RankCostDec(source, l, |l|);
    }
  }

  lemma {:induction false} ZeroCost(source: seq<Node>, l: seq<nat>, m: nat)
    requires m <= |l| == |source| && forall i :: 0 <= i < |l| ==> l[i] == 0
    ensures RankCost(source, l, m) == 0
  {
    if m > 0 { ZeroCost(source, l, m - 1); }
  }

  /** The lengths of the leaves, by rank. */
  ghost function RankLengths(source: seq<Node>, lengths: seq<nat>, m: nat): (l: seq<nat>)
    requires m <= |source| && Singles(source, |lengths|)
    ensures |l| == m && forall i :: 0 <= i < m ==> l[i] == lengths[source[i].symbols[0]]
  {
    if m == 0 then [] else RankLengths(source, lengths, m - 1) + [lengths[source[m - 1].symbols[0]]]
  }

  /** Level counts as lengths by rank. */
  ghost function Widths(a: seq<nat>, m: nat): (l: seq<nat>)
    ensures |l| == m && forall i :: 0 <= i < m ==> l[i] == WidthAt(a, i)
  {
    if m == 0 then [] else Widths(a, m - 1) + [WidthAt(a, m - 1)]
  }

  lemma {:induction false} WidthsCost(source: seq<Node>, a: seq<nat>, m: nat)
    requires a != [] && m <= |source| && a[0] <= |source|
    ensures var n := |source|;
            RankCost(source, Widths(a, n), m)
            == RankCost(source, Widths(a[1..], n), m) + Sum(Weight, source[..if a[0] <= m then a[0] else m])
  {
    hide Times, Sum, Widths;
    SumNone(Weight);
    if m > 0 {
      WidthsCost(source, a, m - 1);
      TimesMore(source[m - 1].weight, WidthAt(a[1..], m - 1));
      assert source[..m] == source[..m - 1] + [source[m - 1]];
      SumSnoc(Weight, source[..m - 1], source[m - 1]);
    } else {
      assert source[..0] == [];
    }
  }

  /** The weight of the selected levels is the cost of the widths they amount to. */
  lemma {:induction false} LevelsCost(source: seq<Node>, a: seq<nat>)
    requires forall j :: 0 <= j < |a| ==> a[j] <= |source|
    ensures SumLevels(Weight, source, a) == RankCost(source, Widths(a, |source|), |source|)
  {
    hide RankCost, Sum;
    if a == [] {
      ZeroCost(source, Widths(a, |source|), |source|);
    } else {
      LevelsCost(source, a[1..]);
      WidthsCost(source, a, |source|);
    }
  }

  /** By rank: the selection of package-merge costs no more than any lengths up to `L` whose Kraft sum
      is at most one. */
  lemma {:induction false} SelectionLeast(source: seq<Node>, L: nat, l: seq<nat>)
    requires SourceOk(source) && 1 <= L && |source| <= Pow2(L) && |l| == |source|
    requires forall i :: 0 <= i < |l| ==> l[i] <= L
    requires CappedKraft(l, L, |l|) <= Pow2(L)
    ensures RankCost(source, Widths(FinalCounts(source, L), |source|), |source|) <= RankCost(source, l, |source|)
  {
    hide RankCost, Sum, SumLevels, Rounds, Worth, CappedKraft, ChoiceWeight, Shl, Pairs, Widths, FinalCounts;
    var n := |source|;
    EnoughPackages(source, L);
    WorthAccount(l, L);
    ShlOne(L);
    ShlAdd(n - 1, 1, L);
    ShlTwice(n - 1, L);
    RoundsLeast(source, l, L - 1, 2 * n - 2);
    ChoiceIsCost(source, l, L);
    PackagedByLevels(Weight, source, L);
    LevelsCost(source, FinalCounts(source, L));
    SumPackaged(source, L);
  }

  lemma {:induction false} SumPackaged(source: seq<Node>, L: nat)
    requires SourceOk(source) && 1 <= L && |source| <= Pow2(L)
    ensures 2 * |source| - 2 <= |Rounds(source, L - 1)|
    ensures Sum(Weight, Package(Rounds(source, L - 1))) == Sum(Weight, Rounds(source, L - 1)[..2 * |source| - 2])
  {
    hide Sum, Rounds, Pairs;
    EnoughPackages(source, L);
    var nodes, p := Rounds(source, L - 1), |source| - 1;
    SumPairs(Weight, nodes, p);
    assert Pairs(nodes)[..p] == Pairs(nodes);
  }

  // ----- From leaves to symbols -----

  /** Compressed size in bits: frequency times length over the first `n` symbols. */
  ghost function Cost(frequencies: seq<nat>, lengths: seq<nat>, n: nat): nat
    requires n <= |frequencies| == |lengths|
  {
    if n == 0 then 0 else Cost(frequencies, lengths, n - 1) + Times(frequencies[n - 1], lengths[n - 1])
  }

  ghost function LeafCost(nodes: seq<Node>, lengths: seq<nat>): nat
    requires Singles(nodes, |lengths|)
  {
    if nodes == [] then 0
    else LeafCost(nodes[..|nodes| - 1], lengths)
         + Times(nodes[|nodes| - 1].weight, lengths[nodes[|nodes| - 1].symbols[0]])
  }

  lemma {:induction false} LeafCostInsert(nodes: seq<Node>, x: Node, lengths: seq<nat>)
    requires Singles(nodes, |lengths|) && Singles([x], |lengths|)
    ensures Singles(InsertNode(nodes, x), |lengths|)
    ensures LeafCost(InsertNode(nodes, x), lengths)
        == LeafCost(nodes, lengths) + Times(x.weight, lengths[[x][0].symbols[0]])
  {
    hide Times;
    var r := InsertNode(nodes, x);
    assert [x][0] == x;
    if nodes == [] || nodes[|nodes| - 1].weight <= x.weight {
      assert r[..|r| - 1] == nodes;
    } else {
      var front := nodes[..|nodes| - 1];
      LeafCostInsert(front, x, lengths);
      assert r[..|r| - 1] == InsertNode(front, x);
    }
  }

  lemma {:induction false} CostOverLeaves(frequencies: seq<nat>, lengths: seq<nat>, n: nat)
    requires n <= |frequencies| == |lengths|
    ensures Singles(Leaves(frequencies, n), |lengths|)
    ensures Cost(frequencies, lengths, n) == LeafCost(Leaves(frequencies, n), lengths)
  {
    hide InsertNode, Singles, Times;
    LeavesSingle(frequencies, n);
    if n > 0 {
      CostOverLeaves(frequencies, lengths, n - 1);
      if frequencies[n - 1] > 0 {
        SingleLeaf(n - 1, frequencies[n - 1], |lengths|);
        LeafCostInsert(Leaves(frequencies, n - 1), Node([n - 1], frequencies[n - 1]), lengths);
      } else {
        ZeroTimes(lengths[n - 1]);
      }
    }
  }

  lemma {:induction false} ZeroTimes(b: nat)
    ensures Times(0, b) == 0
  {}

  lemma {:induction false} LeafCostByRank(source: seq<Node>, lengths: seq<nat>, l: seq<nat>, m: nat)
    requires m <= |source| == |l| && Singles(source, |lengths|)
    requires forall i :: 0 <= i < |source| ==> l[i] == lengths[source[i].symbols[0]]
    ensures Singles(source[..m], |lengths|)
    ensures LeafCost(source[..m], lengths) == RankCost(source, l, m)
  {
    hide Times;
    if m > 0 {
      LeafCostByRank(source, lengths, l, m - 1);
      assert source[..m][..m - 1] == source[..m - 1];
    } else {
      assert source[..0] == [];
    }
  }

  /** The leaves' share of a Kraft sum. */
  lemma {:induction false} LeavesShare(frequencies: seq<nat>, lengths: seq<nat>, n: nat)
    requires n <= |frequencies| == |lengths| && AtMostMax(lengths)
    requires forall s :: 0 <= s < |lengths| && frequencies[s] > 0 ==> lengths[s] > 0
    ensures Singles(Leaves(frequencies, n), |lengths|)
    ensures LeafKraft(Leaves(frequencies, n), lengths) <= Kraft(lengths, n)
  {
    hide InsertNode, Singles, Pow2;
    LeavesSingle(frequencies, n);
    if n > 0 {
      LeavesShare(frequencies, lengths, n - 1);
      if frequencies[n - 1] > 0 {
        SingleLeaf(n - 1, frequencies[n - 1], |lengths|);
        LeafKraftInsert(Leaves(frequencies, n - 1), Node([n - 1], frequencies[n - 1]), lengths);
      }
    }
  }

  lemma {:induction false} LeafKraftScaled(source: seq<Node>, lengths: seq<nat>, l: seq<nat>, L: nat, m: nat)
    requires m <= |source| == |l| && L <= MAX_BITS && Singles(source, |lengths|) && AtMostMax(lengths)
    requires forall i :: 0 <= i < |source| ==> l[i] == lengths[source[i].symbols[0]] <= L
    ensures Singles(source[..m], |lengths|)
    ensures LeafKraft(source[..m], lengths) == Shl(CappedKraft(l, L, m), MAX_BITS - L)
  {
    hide Shl, AtMostMax, Pow2;
    if m > 0 {
      LeafKraftScaled(source, lengths, l, L, m - 1);
      assert source[..m][..m - 1] == source[..m - 1];
      ShlPow(L - l[m - 1], MAX_BITS - L);
      ShlAdd(CappedKraft(l, L, m - 1), Pow2(L - l[m - 1]), MAX_BITS - L);
    } else {
      assert source[..0] == [];
      ShlAdd(0, 0, MAX_BITS - L);
    }
  }

  lemma {:induction false} ShlCancel(x: nat, y: nat, w: nat)
    requires Shl(x, w) <= Shl(y, w)
    ensures x <= y
  {
    if x > y {
      MulMono(Pow2(w), y + 1, x);
      MulDistributes(y, 1, Pow2(w));
    }
  }

  /** Lengths that give every used symbol a codeword of at most `L` bits, within a Kraft sum of one. */
  ghost predicate Admissible(frequencies: seq<nat>, L: nat, lengths: seq<nat>) {
    |lengths| == |frequencies| && L <= MAX_BITS
    && (forall s :: 0 <= s < |lengths| ==> lengths[s] <= L && (frequencies[s] > 0 ==> lengths[s] > 0))
    && Kraft(lengths, |lengths|) <= Pow2(MAX_BITS)
  }

  /** Package-merge is optimal: no admissible lengths make the data shorter. */
  lemma {:induction false} MergedLengthsOptimal(frequencies: seq<nat>, L: nat, lengths: seq<nat>)
    requires 1 <= L <= MAX_BITS && 2 <= |Leaves(frequencies, |frequencies|)| <= Pow2(L)
    requires Admissible(frequencies, L, lengths)
    ensures Admissible(frequencies, L, MergedLengths(frequencies, L))
    ensures Cost(frequencies, MergedLengths(frequencies, L), |frequencies|) <= Cost(frequencies, lengths, |frequencies|)
  {
    hide Leaves, MergedLengths, Rounds, Kraft, LeafKraft, Shl, RankCost, LeafCost, Cost, Widths, FinalCounts,
         CappedKraft, Pow2, Singles;
    MergedLengthsValid(frequencies, L);
    var n, merged, source := |frequencies|, MergedLengths(frequencies, L), Leaves(frequencies, |frequencies|);
    LeavesFacts(frequencies, n);
    LeavesSingle(frequencies, n);
    assert source[..|source|] == source;
    var l := RankLengths(source, lengths, |source|);
    RankWithin(source, lengths, L);
    LeavesShare(frequencies, lengths, n);
    LeafKraftScaled(source, lengths, l, L, |source|);
    ShlPow(L, MAX_BITS - L);
    ShlCancel(CappedKraft(l, L, |source|), Pow2(L), MAX_BITS - L);
    SelectionLeast(source, L, l);
    CostOverLeaves(frequencies, lengths, n);
    LeafCostByRank(source, lengths, l, |source|);
    MergedCost(frequencies, L);
  }

  lemma {:induction false} RankWithin(source: seq<Node>, lengths: seq<nat>, L: nat)
    requires Singles(source, |lengths|) && forall s :: 0 <= s < |lengths| ==> lengths[s] <= L
    ensures forall i :: 0 <= i < |source| ==>
              |source[i].symbols| == 1 && source[i].symbols[0] < |lengths|
              && RankLengths(source, lengths, |source|)[i] == lengths[source[i].symbols[0]] <= L
  {}

  lemma {:induction false} MergedCost(frequencies: seq<nat>, L: nat)
    requires 1 <= L && 2 <= |Leaves(frequencies, |frequencies|)| <= Pow2(L)
    ensures var source := Leaves(frequencies, |frequencies|);
            SourceOk(source) &&
            Cost(frequencies, MergedLengths(frequencies, L), |frequencies|)
            == RankCost(source, Widths(FinalCounts(source, L), |source|), |source|)
  {
    hide Leaves, MergedLengths, Rounds, RankCost, LeafCost, Cost, FinalCounts, Pow2, Singles;
    var n, merged, source := |frequencies|, MergedLengths(frequencies, L), Leaves(frequencies, |frequencies|);
    LeavesFacts(frequencies, n);
    LeavesSingle(frequencies, n);
    CostOverLeaves(frequencies, merged, n);
    var l := Widths(FinalCounts(source, L), |source|);
    forall i | 0 <= i < |source| ensures |source[i].symbols| == 1 && source[i].symbols[0] < |frequencies|
        && l[i] == merged[source[i].symbols[0]] {
      LengthIsWidth(frequencies, L, i);
    }
    LeafCostByRank(source, merged, l, |source|);
    assert source[..|source|] == source;
  }
}
