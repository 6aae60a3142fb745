/** Length-limited code lengths by package-merge (src/huffman.rs).

    The proof follows the data: a prefix of a round's list is a prefix of the packages and a prefix of
    the sorted leaves, so the whole result is described by how many leaves are taken at each level.
    Those counts never grow with depth, and that alone makes the Kraft sum exactly one. */
module PackageMerge {
  import opened Bits
  import opened Canonical

  /** A leaf or package: the leaf symbols it subsumes (with repetition) and its total weight. */
  datatype Node = Node(symbols: seq<nat>, weight: nat)

  // ----- The lists -----

  /** Insert after every node that is not heavier: a stable sort step. */
  function InsertNode(nodes: seq<Node>, x: Node): (r: seq<Node>)
    ensures |r| == |nodes| + 1
  {
    if nodes == [] || nodes[|nodes| - 1].weight <= x.weight then nodes + [x]
    else InsertNode(nodes[..|nodes| - 1], x) + [nodes[|nodes| - 1]]
  }

  /** The used symbols below `n` as leaves, stably sorted by weight. */
  function Leaves(frequencies: seq<nat>, n: nat): seq<Node>
    requires n <= |frequencies|
  {
    if n == 0 then []
    else if frequencies[n - 1] == 0 then Leaves(frequencies, n - 1)
    else InsertNode(Leaves(frequencies, n - 1), Node([n - 1], frequencies[n - 1]))
  }

  function Join(a: Node, b: Node): Node {
    Node(a.symbols + b.symbols, a.weight + b.weight)
  }

  /** Adjacent nodes joined in pairs; an odd one out is dropped. */
  function Pairs(nodes: seq<Node>): (r: seq<Node>)
    ensures |r| == |nodes| / 2
  {
    if |nodes| < 2 then [] else [Join(nodes[0], nodes[1])] + Pairs(nodes[2..])
  }

  function Package(nodes: seq<Node>): seq<Node> {
    if |nodes| < 2 then nodes else Pairs(nodes)
  }

  /** Merge by weight; on a tie the right list goes first. */
  function Merge(left: seq<Node>, right: seq<Node>): (r: seq<Node>)
    ensures |r| == |left| + |right|
  {
    if left == [] then right
    else if right == [] then left
    else if left[0].weight < right[0].weight then [left[0]] + Merge(left[1..], right)
    else [right[0]] + Merge(left, right[1..])
  }

  /** The list after `k` package-and-merge rounds. */
  function Rounds(source: seq<Node>, k: nat): seq<Node> {
    if k == 0 then source else Merge(Package(Rounds(source, k - 1)), source)
  }

  // ----- The loops -----

  lemma {:induction false} Prepend(a: seq<Node>, x: Node, b: seq<Node>)
    ensures a + ([x] + b) == (a + [x]) + b
  {}

  /** What is still to be merged. */
  ghost function MergeFrom(left: seq<Node>, li: nat, right: seq<Node>, ri: nat): seq<Node>
    requires li <= |left| && ri <= |right|
  {
    Merge(left[li..], right[ri..])
  }

  lemma {:induction false} MergeWhole(left: seq<Node>, right: seq<Node>)
    ensures [] + MergeFrom(left, 0, right, 0) == Merge(left, right)
  {
    assert left[0..] == left && right[0..] == right;
  }

  /** One turn of the merge loop. */
  lemma {:induction false} MergeNext(merged: seq<Node>, left: seq<Node>, li: nat, right: seq<Node>, ri: nat)
    requires li < |left| && ri < |right|
    ensures merged + MergeFrom(left, li, right, ri)
            == if left[li].weight < right[ri].weight then (merged + [left[li]]) + MergeFrom(left, li + 1, right, ri)
               else (merged + [right[ri]]) + MergeFrom(left, li, right, ri + 1)
  {
    assert left[li..][1..] == left[li + 1..] && right[ri..][1..] == right[ri + 1..];
    Prepend(merged, left[li], Merge(left[li + 1..], right[ri..]));
    Prepend(merged, right[ri], Merge(left[li..], right[ri + 1..]));
  }

  lemma {:induction false} MergeRest(merged: seq<Node>, left: seq<Node>, li: nat, right: seq<Node>, ri: nat)
    requires li <= |left| && ri <= |right| && (li == |left| || ri == |right|)
    ensures merged + MergeFrom(left, li, right, ri) == merged + left[li..] + right[ri..]
  {}

  method MergeNodes(left: seq<Node>, right: seq<Node>) returns (merged: seq<Node>)
    ensures merged == Merge(left, right)
  {
    hide Merge, MergeFrom;
    merged := [];
    var li, ri := 0, 0;
    MergeWhole(left, right);
    while li < |left| && ri < |right|
      invariant li <= |left| && ri <= |right|
      invariant merged + MergeFrom(left, li, right, ri) == Merge(left, right)
    {
      MergeNext(merged, left, li, right, ri);
      if left[li].weight < right[ri].weight {
        merged := merged + [left[li]];
        li := li + 1;
      } else {
        merged := merged + [right[ri]];
        ri := ri + 1;
      }
    }
    MergeRest(merged, left, li, right, ri);
    merged := merged + left[li..] + right[ri..];
  }

  /** One turn of the packaging loop. */
  lemma {:induction false} PairsNext(result: seq<Node>, nodes: seq<Node>, i: nat)
    requires 2 * i + 1 < |nodes|
    ensures result + Pairs(nodes[2 * i..])
        == (result + [Join(nodes[2 * i], nodes[2 * i + 1])]) + Pairs(nodes[2 * (i + 1)..])
  {
    hide Join;
    assert nodes[2 * i..][2..] == nodes[2 * (i + 1)..];
    Prepend(result, Join(nodes[2 * i], nodes[2 * i + 1]), Pairs(nodes[2 * (i + 1)..]));
  }

  lemma {:induction false} PairsRest(result: seq<Node>, nodes: seq<Node>)
    requires |nodes| < 2
    ensures result + Pairs(nodes) == result
  {}

  method PackageNodes(nodes: seq<Node>) returns (result: seq<Node>)
    ensures result == Package(nodes)
  {
    hide Pairs, Join;
    if |nodes| < 2 {
      return nodes;
    }
    var newLen := |nodes| / 2;
    result := [];
    assert nodes[0..] == nodes;
    for i := 0 to newLen
      invariant result + Pairs(nodes[2 * i..]) == Pairs(nodes)
    {
      PairsNext(result, nodes, i);
      result := result + [Join(nodes[2 * i], nodes[2 * i + 1])];
    }
    PairsRest(result, nodes[2 * newLen..]);
  }

  /** Two things that add up when nodes are joined: occurrences of a symbol, and weight. */
  datatype Measure = Occurrences(symbol: nat) | Weight

  ghost function Of(m: Measure, x: Node): nat {
    match m
    case Occurrences(s) => multiset(x.symbols)[s]
    case Weight => x.weight
  }

  ghost function Sum(m: Measure, nodes: seq<Node>): nat {
    if nodes == [] then 0 else Of(m, nodes[0]) + Sum(m, nodes[1..])
  }

  ghost function Count(nodes: seq<Node>, s: nat): nat {
    Sum(Occurrences(s), nodes)
  }

  lemma {:induction false} SumSnoc(m: Measure, nodes: seq<Node>, x: Node)
    ensures Sum(m, nodes + [x]) == Sum(m, nodes) + Of(m, x)
  {
    if nodes == [] {
      assert [x][1..] == [];
    } else {
      assert (nodes + [x])[1..] == nodes[1..] + [x];
      SumSnoc(m, nodes[1..], x);
    }
  }

  ghost predicate SymbolsIn(nodes: seq<Node>, n: nat) {
    forall i, j :: 0 <= i < |nodes| && 0 <= j < |nodes[i].symbols| ==> nodes[i].symbols[j] < n
  }

  /** Tally how often each symbol occurs in the packaged list: that is its code length. */
  method TallyWidths(packaged: seq<Node>, symbolCount: nat) returns (widths: seq<nat>)
    requires SymbolsIn(packaged, symbolCount)
    ensures |widths| == symbolCount && forall s :: 0 <= s < symbolCount ==> widths[s] == Count(packaged, s)
  {
    widths := seq(symbolCount, _ => 0);
    assert packaged[..0] == [];
    for i := 0 to |packaged|
      invariant |widths| == symbolCount && forall s :: 0 <= s < symbolCount ==> widths[s] == Count(packaged[..i], s)
    {
      var symbols := packaged[i].symbols;
      ghost var before := widths;
      for j := 0 to |symbols|
        invariant |widths| == symbolCount
        invariant forall s :: 0 <= s < symbolCount ==> widths[s] == before[s] + multiset(symbols[..j])[s]
      {
        assert symbols[..j + 1] == symbols[..j] + [symbols[j]];
        widths := widths[symbols[j] := widths[symbols[j]] + 1];
      }
      assert symbols[..|symbols|] == symbols && packaged[..i + 1] == packaged[..i] + [packaged[i]];
      forall s | 0 <= s < symbolCount ensures widths[s] == Count(packaged[..i + 1], s) {
        SumSnoc(Occurrences(s), packaged[..i], packaged[i]);
      }
    }
    assert packaged[..|packaged|] == packaged;
  }

  // ----- Prefixes of the lists -----

  /** How many of the first `u` merged nodes come from the right list. */
  ghost function Taken(left: seq<Node>, right: seq<Node>, u: nat): (a: nat)
    requires u <= |left| + |right|
    ensures a <= u && a <= |right| && u - a <= |left|
    decreases u
  {
    if u == 0 then 0
    else if left == [] then u
    else if right == [] then 0
    else if left[0].weight < right[0].weight then Taken(left[1..], right, u - 1)
    else 1 + Taken(left, right[1..], u - 1)
  }

  lemma {:induction false} MergeHead(left: seq<Node>, right: seq<Node>)
    ensures left == [] ==> Merge(left, right) == right
    ensures right == [] ==> Merge(left, right) == left
    ensures left != [] && right != [] ==>
              left == [left[0]] + left[1..] && right == [right[0]] + right[1..]
              && Merge(left, right) == if left[0].weight < right[0].weight then [left[0]] + Merge(left[1..], right)
                                       else [right[0]] + Merge(left, right[1..])
  {}

  lemma {:induction false} TakenHead(left: seq<Node>, right: seq<Node>, u: nat)
    requires u <= |left| + |right|
    ensures u > 0 ==>
              Taken(left, right, u) ==
              if left == [] then u
              else if right == [] then 0
              else if left[0].weight < right[0].weight then Taken(left[1..], right, u - 1)
              else 1 + Taken(left, right[1..], u - 1)
  {}

  /** A prefix of a merge adds up to a prefix of each list. */
  lemma {:induction false} SumMerge(m: Measure, left: seq<Node>, right: seq<Node>, u: nat)
    requires u <= |left| + |right|
    ensures var a := Taken(left, right, u);
            Sum(m, Merge(left, right)[..u]) == Sum(m, left[..u - a]) + Sum(m, right[..a])
    decreases u
  {
    hide Of, Sum, Merge, Taken;
    var a := Taken(left, right, u);
    SumNone(m);
    MergeHead(left, right);
    TakenHead(left, right, u);
    if u > 0 {
      if left == [] {
        assert left[..u - a] == [];
      } else if right == [] {
        assert right[..a] == [];
      } else if left[0].weight < right[0].weight {
        SumMerge(m, left[1..], right, u - 1);
        SumTake(m, left[0], Merge(left[1..], right), u - 1);
        SumTake(m, left[0], left[1..], u - 1 - a);
      } else {
        SumMerge(m, left, right[1..], u - 1);
        SumTake(m, right[0], Merge(left, right[1..]), u - 1);
        SumTake(m, right[0], right[1..], a - 1);
      }
    }
  }

  lemma {:induction false} SumNone(m: Measure)
    ensures forall nodes: seq<Node> :: Sum(m, nodes[..0]) == 0
    ensures Sum(m, []) == 0
  {
    assert forall nodes: seq<Node> :: nodes[..0] == [];
  }

  lemma {:induction false} SumTake(m: Measure, x: Node, rest: seq<Node>, k: nat)
    requires k <= |rest|
    ensures Sum(m, ([x] + rest)[..k + 1]) == Of(m, x) + Sum(m, rest[..k])
  {
    assert ([x] + rest)[..k + 1][1..] == rest[..k];
  }

  /** A prefix of the packages adds up to twice as long a prefix of what was packaged. */
  lemma {:induction false} SumPairs(m: Measure, nodes: seq<Node>, p: nat)
    requires 2 * p <= |nodes|
    ensures Sum(m, Pairs(nodes)[..p]) == Sum(m, nodes[..2 * p])
  {
    if p > 0 {
      SumPairs(m, nodes[2..], p - 1);
      assert Pairs(nodes)[..p][1..] == Pairs(nodes[2..])[..p - 1];
      assert nodes[..2 * p][1..][1..] == nodes[2..][..2 * (p - 1)];
      assert Of(m, Join(nodes[0], nodes[1])) == Of(m, nodes[0]) + Of(m, nodes[1]);
    }
  }

  ghost predicate ByWeight(nodes: seq<Node>) {
    forall i, j :: 0 <= i <= j < |nodes| ==> nodes[i].weight <= nodes[j].weight
  }

  ghost predicate Positive(nodes: seq<Node>) {
    forall i :: 0 <= i < |nodes| ==> nodes[i].weight > 0
  }

  /** The nodes of one weight, in order. */
  ghost function OfWeight(nodes: seq<Node>, w: nat): seq<Node> {
    if nodes == [] then [] else (if nodes[0].weight == w then [nodes[0]] else []) + OfWeight(nodes[1..], w)
  }

  lemma {:induction false} OfWeightFirst(x: Node, rest: seq<Node>, w: nat)
    ensures OfWeight([x] + rest, w) == (if x.weight == w then [x] else []) + OfWeight(rest, w)
  {
    assert ([x] + rest)[1..] == rest;
  }

  lemma {:induction false} OfWeightNone(w: nat)
    ensures OfWeight([], w) == []
  {}

  /** Taking the first node off a concatenation. */
  lemma {:induction false} FirstOff(a: seq<Node>, b: seq<Node>)
    requires a != []
    ensures a == [a[0]] + a[1..] && a + b == [a[0]] + (a[1..] + b)
  {}

  lemma {:induction false} Regroup(a: seq<Node>, b: seq<Node>, c: seq<Node>)
    ensures a + (b + c) == (a + b) + c
  {}

  lemma {:induction false} OfWeightConcat(a: seq<Node>, b: seq<Node>, w: nat)
    ensures OfWeight(a + b, w) == OfWeight(a, w) + OfWeight(b, w)
  {
    hide OfWeight;
    if a == [] {
      OfWeightNone(w);
      assert a + b == b;
    } else {
      var x, rest := a[0], a[1..];
      FirstOff(a, b);
      OfWeightFirst(x, rest, w);
      OfWeightFirst(x, rest + b, w);
      OfWeightConcat(rest, b, w);
      Regroup(if x.weight == w then [x] else [], OfWeight(rest, w), OfWeight(b, w));
    }
  }

  lemma {:induction false} NoneOfWeight(nodes: seq<Node>, w: nat)
    requires forall i :: 0 <= i < |nodes| ==> nodes[i].weight != w
    ensures OfWeight(nodes, w) == []
  {
    if nodes != [] { NoneOfWeight(nodes[1..], w); }
  }

  /** Among nodes of one weight the right list's come first, then the left list's, each in its order.  With
      `MergeSorted` this leaves no freedom in the merged list. */
  lemma {:induction false} MergeTies(left: seq<Node>, right: seq<Node>, w: nat)
    requires ByWeight(left) && ByWeight(right)
    ensures OfWeight(Merge(left, right), w) == OfWeight(right, w) + OfWeight(left, w)
    decreases |left| + |right|
  {
    hide Merge, OfWeight;
    OfWeightNone(w);
    MergeHead(left, right);
    if left != [] && right != [] {
      if left[0].weight < right[0].weight {
        MergeTies(left[1..], right, w);
        OfWeightFirst(left[0], Merge(left[1..], right), w);
        OfWeightFirst(left[0], left[1..], w);
        if left[0].weight == w { NoneOfWeight(right, w); }
      } else {
        MergeTies(left, right[1..], w);
        OfWeightFirst(right[0], Merge(left, right[1..]), w);
        OfWeightFirst(right[0], right[1..], w);
        Regroup(if right[0].weight == w then [right[0]] else [], OfWeight(right[1..], w), OfWeight(left, w));
      }
    }
  }

  /** The symbols below `n` of one frequency, in order. */
  ghost function SymbolsOfWeight(frequencies: seq<nat>, n: nat, w: nat): seq<Node>
    requires n <= |frequencies|
  {
    if n == 0 then []
    else SymbolsOfWeight(frequencies, n - 1, w) + if frequencies[n - 1] == w then [Node([n - 1], w)] else []
  }

  lemma {:induction false} InsertTies(nodes: seq<Node>, x: Node, w: nat)
    requires ByWeight(nodes)
    ensures OfWeight(InsertNode(nodes, x), w) == OfWeight(nodes + [x], w)
  {
    hide OfWeight;
    if !(nodes == [] || nodes[|nodes| - 1].weight <= x.weight) {
      var front, last := nodes[..|nodes| - 1], nodes[|nodes| - 1];
      InsertTies(front, x, w);
      assert nodes == front + [last];
      OfWeightConcat(front, [last], w);
      OfWeightConcat(front, [x], w);
      OfWeightConcat(nodes, [x], w);
      OfWeightConcat(InsertNode(front, x), [last], w);
      OneOfTwo(x, last, w);
      Regroup(OfWeight(front, w), OfWeight([x], w), OfWeight([last], w));
      Regroup(OfWeight(front, w), OfWeight([last], w), OfWeight([x], w));
    }
  }

  /** Nodes of different weights do not meet in one weight's list. */
  lemma {:induction false} OneOfTwo(x: Node, y: Node, w: nat)
    requires x.weight != y.weight
    ensures OfWeight([x], w) + OfWeight([y], w) == OfWeight([y], w) + OfWeight([x], w)
  {
    NoneOfWeight(if x.weight == w then [y] else [x], w);
  }

  /** The leaves are sorted stably: among equal frequencies the smaller symbol comes first. */
  lemma {:induction false} LeavesTies(frequencies: seq<nat>, n: nat, w: nat)
    requires n <= |frequencies| && w > 0
    ensures ByWeight(Leaves(frequencies, n))
    ensures OfWeight(Leaves(frequencies, n), w) == SymbolsOfWeight(frequencies, n, w)
  {
    hide InsertNode, ByWeight;
    LeavesFacts(frequencies, n);
    if n > 0 {
      LeavesTies(frequencies, n - 1, w);
      if frequencies[n - 1] > 0 {
        var x := Node([n - 1], frequencies[n - 1]);
        InsertTies(Leaves(frequencies, n - 1), x, w);
        OfWeightConcat(Leaves(frequencies, n - 1), [x], w);
        assert [x][1..] == [];
      }
    }
  }

  lemma {:induction false} MergeSorted(left: seq<Node>, right: seq<Node>)
    requires ByWeight(left) && ByWeight(right) && Positive(left) && Positive(right)
    ensures ByWeight(Merge(left, right)) && Positive(Merge(left, right))
    ensures |left| + |right| > 0 ==>
              Merge(left, right)[0].weight ==
              if left == [] then right[0].weight
              else if right == [] then left[0].weight
              else if left[0].weight < right[0].weight then left[0].weight else right[0].weight
    decreases |left| + |right|
  {
    if left != [] && right != [] {
      if left[0].weight < right[0].weight {
        MergeSorted(left[1..], right);
        ConsSorted(left[0], Merge(left[1..], right));
      } else {
        MergeSorted(left, right[1..]);
        ConsSorted(right[0], Merge(left, right[1..]));
      }
    }
  }

  lemma {:induction false} ConsSorted(x: Node, nodes: seq<Node>)
    requires ByWeight(nodes) && Positive(nodes) && x.weight > 0 && (nodes != [] ==> x.weight <= nodes[0].weight)
    ensures ByWeight([x] + nodes) && Positive([x] + nodes)
  {}

  lemma {:induction false} PairsAt(nodes: seq<Node>, i: nat)
    requires i < |nodes| / 2
    ensures Pairs(nodes)[i] == Join(nodes[2 * i], nodes[2 * i + 1])
  {
    if i > 0 {
      PairsAt(nodes[2..], i - 1);
    }
  }

  lemma {:induction false} PairsSorted(nodes: seq<Node>)
    requires ByWeight(nodes) && Positive(nodes)
    ensures ByWeight(Pairs(nodes)) && Positive(Pairs(nodes))
  {
    forall i | 0 <= i < |Pairs(nodes)| ensures Pairs(nodes)[i].weight > 0 {
      PairsAt(nodes, i);
    }
    forall i, j | 0 <= i <= j < |Pairs(nodes)| ensures Pairs(nodes)[i].weight <= Pairs(nodes)[j].weight {
      PairsAt(nodes, i);
      PairsAt(nodes, j);
    }
  }

  /** A sorted list of at least two leaves with positive weights. */
  ghost predicate SourceOk(source: seq<Node>) {
    |source| >= 2 && ByWeight(source) && Positive(source)
  }

  lemma {:induction false} RoundsSorted(source: seq<Node>, k: nat)
    requires SourceOk(source)
    ensures ByWeight(Rounds(source, k)) && Positive(Rounds(source, k)) && |Rounds(source, k)| >= 2
  {
    if k > 0 {
      RoundsSorted(source, k - 1);
      PairsSorted(Rounds(source, k - 1));
      MergeSorted(Pairs(Rounds(source, k - 1)), source);
    }
  }

  /** A package is only taken before a leaf that is strictly heavier. */
  lemma {:induction false} TakenOrder(left: seq<Node>, right: seq<Node>, u: nat)
    requires u <= |left| + |right| && ByWeight(right)
    ensures var a := Taken(left, right, u);
            u - a > 0 && a < |right| ==> left[u - a - 1].weight < right[a].weight
    decreases u
  {
    if u > 0 && left != [] && right != [] {
      if left[0].weight < right[0].weight {
        TakenOrder(left[1..], right, u - 1);
      } else {
        TakenOrder(left, right[1..], u - 1);
      }
    }
  }

  /** Leaf `i` is among the first `u` merged nodes if fewer than `Taken` leaves precede it. */
  lemma {:induction false} LeafPlace(left: seq<Node>, right: seq<Node>, u: nat, i: nat) returns (m: nat)
    requires u <= |left| + |right| && i < Taken(left, right, u)
    ensures m < u && Merge(left, right)[m] == right[i]
    decreases u
  {
    hide Merge, Taken;
    MergeHead(left, right);
    TakenHead(left, right, u);
    if left == [] {
      m := i;
    } else if left[0].weight < right[0].weight {
      m := LeafPlace(left[1..], right, u - 1, i);
      m := m + 1;
    } else if i == 0 {
      m := 0;
    } else {
      m := LeafPlace(left, right[1..], u - 1, i - 1);
      m := m + 1;
    }
  }

  // ----- Leaves per level -----

  /** Leaves among the first `u` nodes after round `k`, taken straight from the source list. */
  ghost function TopLeaves(source: seq<Node>, k: nat, u: nat): (a: nat)
    requires SourceOk(source) && u <= |Rounds(source, k)|
    ensures a <= u && a <= |source|
    ensures k > 0 ==> 2 * (u - a) <= |Rounds(source, k - 1)|
  {
    if k == 0 then u
    else
      RoundsSorted(source, k - 1);
      Taken(Pairs(Rounds(source, k - 1)), source, u)
  }

  /** For the first `u` nodes after `k` rounds: how many leaves they use at each level, outermost
      level first. */
  ghost function LeafCounts(source: seq<Node>, k: nat, u: nat): (a: seq<nat>)
    requires SourceOk(source) && u <= |Rounds(source, k)|
    ensures |a| == k + 1 && a[0] == TopLeaves(source, k, u)
    decreases k
  {
    var top := TopLeaves(source, k, u);
    if k == 0 then [top] else [top] + LeafCounts(source, k - 1, 2 * (u - top))
  }

  /** How many of the counts exceed `i`: the number of levels at which leaf `i` is used. */
  ghost function WidthAt(a: seq<nat>, i: nat): (w: nat)
    ensures w <= |a|
  {
    if a == [] then 0 else (if i < a[0] then 1 else 0) + WidthAt(a[1..], i)
  }

  /** Sums over the levels of measures of leaf prefixes. */
  ghost function SumLevels(m: Measure, source: seq<Node>, a: seq<nat>): nat
    requires forall j :: 0 <= j < |a| ==> a[j] <= |source|
  {
    if a == [] then 0 else Sum(m, source[..a[0]]) + SumLevels(m, source, a[1..])
  }

  lemma {:induction false} CountsBounded(source: seq<Node>, k: nat, u: nat)
    requires SourceOk(source) && u <= |Rounds(source, k)|
    ensures forall j :: 0 <= j < |LeafCounts(source, k, u)| ==> LeafCounts(source, k, u)[j] <= |source|
    decreases k
  {
    hide Rounds;
    if k > 0 {
      CountsBounded(source, k - 1, 2 * (u - TopLeaves(source, k, u)));
    }
  }

  lemma {:induction false} TopSum(m: Measure, source: seq<Node>, k: nat, u: nat)
    requires SourceOk(source) && k > 0 && u <= |Rounds(source, k)|
    ensures var a := TopLeaves(source, k, u);
            Sum(m, Rounds(source, k)[..u]) == Sum(m, Rounds(source, k - 1)[..2 * (u - a)]) + Sum(m, source[..a])
  {
    hide Sum, Of;
    RoundsSorted(source, k - 1);
    SumMerge(m, Pairs(Rounds(source, k - 1)), source, u);
    SumPairs(m, Rounds(source, k - 1), u - TopLeaves(source, k, u));
  }

  /** Any additive measure of a prefix of a round's list is the sum over its levels. */
  lemma {:induction false} RoundsByLevels(m: Measure, source: seq<Node>, k: nat, u: nat)
    requires SourceOk(source) && u <= |Rounds(source, k)|
    ensures forall j :: 0 <= j < |LeafCounts(source, k, u)| ==> LeafCounts(source, k, u)[j] <= |source|
    ensures Sum(m, Rounds(source, k)[..u]) == SumLevels(m, source, LeafCounts(source, k, u))
    decreases k
  {
    hide Sum, Of, Merge, TopLeaves, Pairs, Package;
    CountsBounded(source, k, u);
    var a := LeafCounts(source, k, u);
    if k == 0 {
      assert a[1..] == [] && a[0] == u by { TopOfNone(source, u); }
    } else {
      var v := 2 * (u - TopLeaves(source, k, u));
      TopSum(m, source, k, u);
      RoundsByLevels(m, source, k - 1, v);
      assert a[1..] == LeafCounts(source, k - 1, v);
    }
  }

  lemma {:induction false} TopOfNone(source: seq<Node>, u: nat)
    requires SourceOk(source) && u <= |Rounds(source, 0)|
    ensures TopLeaves(source, 0, u) == u
  {}

  /** Counts never grow with depth, and never exceed `n`. */
  ghost predicate Nested(a: seq<nat>, n: nat) {
    a == [] || (a[0] <= n && Nested(a[1..], a[0]))
  }

  /** A leaf counted by `TopLeaves` is one of the first `u` nodes. */
  lemma {:induction false} TopLeafPlace(source: seq<Node>, k: nat, u: nat, i: nat) returns (m: nat)
    requires SourceOk(source) && u <= |Rounds(source, k)| && i < TopLeaves(source, k, u)
    ensures m < u && Rounds(source, k)[m] == source[i]
  {
    if k == 0 {
      m := i;
    } else {
      RoundsSorted(source, k - 1);
      m := LeafPlace(Pairs(Rounds(source, k - 1)), source, u, i);
    }
  }

  /** The package over position `m` is heavier than the node there. */
  lemma {:induction false} PackageHeavier(nodes: seq<Node>, m: nat, p: nat)
    requires ByWeight(nodes) && Positive(nodes) && m < 2 * p <= |nodes|
    ensures nodes[m].weight < Pairs(nodes)[p - 1].weight
  {
    PairsAt(nodes, m / 2);
    PairsSorted(nodes);
    assert Pairs(nodes)[m / 2].weight == nodes[2 * (m / 2)].weight + nodes[2 * (m / 2) + 1].weight;
    assert m == 2 * (m / 2) || m == 2 * (m / 2) + 1;
    assert Pairs(nodes)[m / 2].weight <= Pairs(nodes)[p - 1].weight;
  }

  /** The heart of the argument: a leaf used one level down sits in a package that is strictly heavier
      than it, so the leaf itself is taken before that package. */
  lemma {:induction false} DeeperIsFewer(source: seq<Node>, k: nat, u: nat)
    requires SourceOk(source) && k > 0 && u <= |Rounds(source, k)|
    ensures var i := TopLeaves(source, k, u); TopLeaves(source, k - 1, 2 * (u - i)) <= i
  {
    hide Merge, Rounds;
    RoundsSorted(source, k - 1);
    var inner := Rounds(source, k - 1);
    var i := TopLeaves(source, k, u);
    var p := u - i;
    if i < TopLeaves(source, k - 1, 2 * p) {
      var m := TopLeafPlace(source, k - 1, 2 * p, i);
      TakenOrder(Pairs(inner), source, u);
      PackageHeavier(inner, m, p);
    }
  }

  lemma {:induction false} CountsNested(source: seq<Node>, k: nat, u: nat)
    requires SourceOk(source) && u <= |Rounds(source, k)|
    ensures Nested(LeafCounts(source, k, u), |source|)
    decreases k
  {
    hide Rounds, TopLeaves;
    var a, top := LeafCounts(source, k, u), TopLeaves(source, k, u);
    if k == 0 {
      assert a[1..] == [];
    } else {
      CountsNested(source, k - 1, 2 * (u - top));
      DeeperIsFewer(source, k, u);
      assert a[1..] == LeafCounts(source, k - 1, 2 * (u - top));
      NestedTighter(a[1..], |source|, top);
    }
  }

  lemma {:induction false} NestedTighter(a: seq<nat>, n: nat, m: nat)
    requires Nested(a, n) && (a != [] ==> a[0] <= m)
    ensures Nested(a, m)
  {}

  // ----- The Kraft sum -----

  /** Each count at its level's worth: halves, quarters and so on, in units of 2^-|a|. */
  ghost function Scaled(a: seq<nat>): nat {
    if a == [] then 0 else Shl(a[0], |a| - 1) + Scaled(a[1..])
  }

  lemma {:induction false} ShlAdd(x: nat, y: nat, w: nat)
    ensures Shl(x, w) + Shl(y, w) == Shl(x + y, w)
  {
    MulDistributes(x, y, Pow2(w));
  }

  lemma {:induction false} ShlTwice(x: nat, w: nat)
    requires w > 0
    ensures Shl(2 * x, w - 1) == Shl(x, w) && Shl(1, w) == Pow2(w)
  {}

  /** The leaves used by the first `u` nodes are worth `u` in all. */
  lemma {:induction false} CountsWorth(source: seq<Node>, k: nat, u: nat)
    requires SourceOk(source) && u <= |Rounds(source, k)|
    ensures Scaled(LeafCounts(source, k, u)) == Shl(u, k)
    decreases k
  {
    hide Rounds, TopLeaves, Shl;
    var a, top := LeafCounts(source, k, u), TopLeaves(source, k, u);
    if k == 0 {
      TopOfNone(source, u);
      assert a == [u] && a[1..] == [];
      assert Scaled([]) == 0;
    } else {
      CountsWorth(source, k - 1, 2 * (u - top));
      assert a[1..] == LeafCounts(source, k - 1, 2 * (u - top));
      ShlTwice(u - top, k);
      ShlAdd(top, u - top, k);
    }
  }

  /** The Kraft sum of leaves 0 to m-1 with these level counts, in units of 2^-|a|. */
  ghost function RankKraft(a: seq<nat>, m: nat): nat {
    if m == 0 then 0 else RankKraft(a, m - 1) + Pow2(|a| - WidthAt(a, m - 1))
  }

  lemma {:induction false} WidthBeyond(a: seq<nat>, n: nat, i: nat)
    requires Nested(a, n) && (a != [] ==> i >= a[0])
    ensures WidthAt(a, i) == 0
  {
    if a != [] { WidthBeyond(a[1..], a[0], i); }
  }

  lemma {:induction false} RankKraftInside(a: seq<nat>, m: nat)
    requires a != [] && m <= a[0]
    ensures RankKraft(a, m) == RankKraft(a[1..], m)
  {
    if m > 0 { RankKraftInside(a, m - 1); }
  }

  lemma {:induction false} RankKraftOutside(a: seq<nat>, n: nat, m: nat)
    requires a != [] && Nested(a, n) && a[0] <= m
    ensures RankKraft(a, m) == RankKraft(a, a[0]) + Shl(m - a[0], |a|)
    decreases m
  {
    hide Shl;
    if m > a[0] {
      RankKraftOutside(a, n, m - 1);
      WidthBeyond(a, n, m - 1);
      ShlTwice(1, |a|);
      ShlAdd(m - 1 - a[0], 1, |a|);
    } else {
      assert Shl(0, |a|) == 0 by { ShlAdd(0, 0, |a|); }
    }
  }

  /** Every leaf is worth one: what its codeword takes up and what its levels account for. */
  lemma {:induction false} KraftAccount(a: seq<nat>, m: nat)
    requires Nested(a, m)
    ensures RankKraft(a, m) + Scaled(a) == Shl(m, |a|)
  {
    hide Shl;
    if a == [] {
      EmptyAccount(m);
    } else {
      var c, rest := a[0], a[1..];
      KraftAccount(rest, c);
      RankKraftInside(a, c);
      RankKraftOutside(a, m, m);
      ShlTwice(c, |a|);
      ShlAdd(c, c, |a| - 1);
      ShlAdd(c, m - c, |a|);
    }
  }

  lemma {:induction false} EmptyAccount(m: nat)
    ensures RankKraft([], m) == m == Shl(m, 0)
  {
    if m > 0 { EmptyAccount(m - 1); }
  }

  lemma {:induction false} RankKraftPositive(a: seq<nat>, m: nat)
    requires m > 0
    ensures RankKraft(a, m) > 0
  {}

  /** The counts when `n` leaves share `n - 1` final packages over `k + 1` levels. */
  lemma {:induction false} FullCounts(a: seq<nat>, n: nat)
    requires n >= 2 && a != [] && Nested(a, n) && Scaled(a) == Shl(n - 1, |a|)
    ensures a[0] == n && RankKraft(a, n) == Pow2(|a|)
    ensures forall i :: 0 <= i < n ==> 1 <= WidthAt(a, i)
  {
    hide Shl;
    KraftAccount(a, n);
    ShlAdd(n - 1, 1, |a|);
    ShlTwice(1, |a|);
    var fewer: nat := n - 1;
    RankKraftPositive(a, fewer);
    if a[0] < n {
      NestedTighter(a, n, fewer);
      KraftAccount(a, fewer);
    }
  }

  // ----- How long the lists get -----

  /** After `k` rounds the list misses 2n-1 nodes by at most (n-1) / 2^k. */
  lemma {:induction false} RoundsLength(source: seq<Node>, k: nat)
    requires SourceOk(source)
    ensures var n := |source|;
            |Rounds(source, k)| <= 2 * n - 1 && Shl(2 * n - 1 - |Rounds(source, k)|, k) <= n - 1
  {
    hide Shl, Merge, Pairs;
    var n := |source|;
    if k == 0 {
      ShlNone(n - 1);
    } else {
      RoundsSorted(source, k - 1);
      RoundsLength(source, k - 1);
      var d, d' := 2 * n - 1 - |Rounds(source, k - 1)|, 2 * n - 1 - |Rounds(source, k)|;
      assert 2 * d' <= d;
      ShlTwice(d', k);
      ShlMono(2 * d', d, k - 1);
    }
  }

  lemma {:induction false} ShlNone(x: nat)
    ensures Shl(x, 0) == x
  {}

  lemma {:induction false} ShlMono(x: nat, y: nat, w: nat)
    requires x <= y
    ensures Shl(x, w) <= Shl(y, w)
  {
    MulMono(Pow2(w), x, y);
  }

  /** With n <= 2^L leaves, L levels are enough for n - 1 final packages. */
  lemma {:induction false} EnoughPackages(source: seq<Node>, L: nat)
    requires SourceOk(source) && 1 <= L && |source| <= Pow2(L)
    ensures 2 * |source| - 2 <= |Rounds(source, L - 1)| <= 2 * |source| - 1
  {
    RoundsLength(source, L - 1);
    var d := 2 * |source| - 1 - |Rounds(source, L - 1)|;
    if d >= 2 {
      MulMono(Pow2(L - 1), 2, d);
    }
  }

  // ----- From leaves to symbols -----

  /** Single symbols, all different. */
  ghost predicate LeavesOk(source: seq<Node>) {
    (forall i :: 0 <= i < |source| ==> |source[i].symbols| == 1)
    && forall i, j :: 0 <= i < j < |source| ==> source[i].symbols[0] != source[j].symbols[0]
  }

  lemma {:induction false} FrontSorted(nodes: seq<Node>)
    requires nodes != [] && ByWeight(nodes) && Positive(nodes)
    ensures var n := |nodes| - 1;
            nodes == nodes[..n] + [nodes[n]] && ByWeight(nodes[..n]) && Positive(nodes[..n]) && nodes[n].weight > 0
            && (n > 0 ==> nodes[..n][n - 1].weight <= nodes[n].weight)
  {}

  lemma {:induction false} InsertNodeFacts(nodes: seq<Node>, x: Node)
    requires ByWeight(nodes) && Positive(nodes) && x.weight > 0
    ensures ByWeight(InsertNode(nodes, x)) && Positive(InsertNode(nodes, x))
    ensures var r := InsertNode(nodes, x);
            r[|r| - 1].weight == if nodes == [] || nodes[|nodes| - 1].weight <= x.weight then x.weight
                                 else nodes[|nodes| - 1].weight
  {
    hide ByWeight, Positive;
    if !(nodes == [] || nodes[|nodes| - 1].weight <= x.weight) {
      var front, last := nodes[..|nodes| - 1], nodes[|nodes| - 1];
      FrontSorted(nodes);
      InsertNodeFacts(front, x);
      SnocSorted(InsertNode(front, x), last);
    } else {
      SnocSorted(nodes, x);
    }
  }

  lemma {:induction false} SnocSorted(nodes: seq<Node>, x: Node)
    requires ByWeight(nodes) && Positive(nodes) && x.weight > 0
    requires nodes != [] ==> nodes[|nodes| - 1].weight <= x.weight
    ensures ByWeight(nodes + [x]) && Positive(nodes + [x])
  {}

  lemma {:induction false} InsertNodeLeaves(nodes: seq<Node>, x: Node)
    requires LeavesOk(nodes) && |x.symbols| == 1
    requires forall i :: 0 <= i < |nodes| ==> nodes[i].symbols[0] != x.symbols[0]
    ensures LeavesOk(InsertNode(nodes, x))
    ensures forall y :: y in InsertNode(nodes, x) <==> y in nodes || y == x
  {
    if !(nodes == [] || nodes[|nodes| - 1].weight <= x.weight) {
      var front, last := nodes[..|nodes| - 1], nodes[|nodes| - 1];
      assert nodes == front + [last];
      InsertNodeLeaves(front, x);
      var r := InsertNode(front, x);
      forall i | 0 <= i < |r| ensures r[i].symbols[0] != last.symbols[0] {
        assert r[i] in r;
      }
    }
  }

  ghost predicate LeafFor(frequencies: seq<nat>, n: nat, x: Node) {
    |x.symbols| == 1 && x.symbols[0] < n <= |frequencies| && frequencies[x.symbols[0]] == x.weight
  }

  lemma {:induction false} LeavesFor(frequencies: seq<nat>, n: nat, x: Node)
    requires n <= |frequencies| && x in Leaves(frequencies, n)
    ensures LeafFor(frequencies, n, x)
  {
    hide InsertNode;
    if frequencies[n - 1] > 0 {
      InsertMembers(Leaves(frequencies, n - 1), Node([n - 1], frequencies[n - 1]), x);
    }
    if x in Leaves(frequencies, n - 1) {
      LeavesFor(frequencies, n - 1, x);
    }
  }

  lemma {:induction false} InsertMembers(nodes: seq<Node>, x: Node, y: Node)
    ensures y in InsertNode(nodes, x) <==> y in nodes || y == x
  {
    if !(nodes == [] || nodes[|nodes| - 1].weight <= x.weight) {
      assert nodes == nodes[..|nodes| - 1] + [nodes[|nodes| - 1]];
      InsertMembers(nodes[..|nodes| - 1], x, y);
    }
  }

  lemma {:induction false} LeavesFacts(frequencies: seq<nat>, n: nat)
    requires n <= |frequencies|
    ensures ByWeight(Leaves(frequencies, n)) && Positive(Leaves(frequencies, n)) && LeavesOk(Leaves(frequencies, n))
    ensures forall x :: x in Leaves(frequencies, n) ==> LeafFor(frequencies, n, x)
  {
    forall x | x in Leaves(frequencies, n) ensures LeafFor(frequencies, n, x) {
      LeavesFor(frequencies, n, x);
    }
    if n > 0 {
      LeavesFacts(frequencies, n - 1);
      if frequencies[n - 1] > 0 {
        hide InsertNode, ByWeight, Positive, LeavesOk;
        var nodes, x := Leaves(frequencies, n - 1), Node([n - 1], frequencies[n - 1]);
        forall i | 0 <= i < |nodes| ensures nodes[i].symbols[0] != n - 1 {
          assert nodes[i] in nodes && LeafFor(frequencies, n - 1, nodes[i]);
        }
        InsertNodeFacts(nodes, x);
        InsertNodeLeaves(nodes, x);
      }
    }
  }

  lemma {:induction false} LeafOf(frequencies: seq<nat>, n: nat, s: nat)
    requires s < n <= |frequencies| && frequencies[s] > 0
    ensures Node([s], frequencies[s]) in Leaves(frequencies, n)
  {
    hide InsertNode;
    if frequencies[n - 1] > 0 {
      InsertMembers(Leaves(frequencies, n - 1), Node([n - 1], frequencies[n - 1]), Node([s], frequencies[s]));
    }
    if s < n - 1 { LeafOf(frequencies, n - 1, s); }
  }

  /** In the sorted source, a symbol occurs once, at its own rank. */
  lemma {:induction false} CountPrefix(source: seq<Node>, a: nat, i: nat)
    requires LeavesOk(source) && a <= |source| && i < |source|
    ensures Count(source[..a], source[i].symbols[0]) == if i < a then 1 else 0
  {
    var s := source[i].symbols[0];
    if a > 0 {
      CountPrefix(source, a - 1, i);
      assert source[..a] == source[..a - 1] + [source[a - 1]];
      SumSnoc(Occurrences(s), source[..a - 1], source[a - 1]);
      assert source[a - 1].symbols == [source[a - 1].symbols[0]];
    } else {
      assert source[..a] == [];
    }
  }

  lemma {:induction false} LevelsAreWidth(source: seq<Node>, a: seq<nat>, i: nat)
    requires LeavesOk(source) && i < |source| && forall j :: 0 <= j < |a| ==> a[j] <= |source|
    ensures SumLevels(Occurrences(source[i].symbols[0]), source, a) == WidthAt(a, i)
  {
    if a != [] {
      CountPrefix(source, a[0], i);
      LevelsAreWidth(source, a[1..], i);
    }
  }

  lemma {:induction false} LevelsAreNone(source: seq<Node>, a: seq<nat>, s: nat)
    requires (forall j :: 0 <= j < |a| ==> a[j] <= |source|) && forall x :: x in source ==> s !in x.symbols
    ensures SumLevels(Occurrences(s), source, a) == 0
  {
    if a != [] {
      NoOccurrence(source[..a[0]], s);
      LevelsAreNone(source, a[1..], s);
    }
  }

  lemma {:induction false} NoOccurrence(nodes: seq<Node>, s: nat)
    requires forall x :: x in nodes ==> s !in x.symbols
    ensures Count(nodes, s) == 0
  {
    if nodes != [] { NoOccurrence(nodes[1..], s); }
  }

  // ----- The resulting lengths -----

  ghost function Tally(nodes: seq<Node>, n: nat): (w: seq<nat>)
    ensures |w| == n && forall s :: 0 <= s < n ==> w[s] == Count(nodes, s)
  {
    if n == 0 then [] else Tally(nodes, n - 1) + [Count(nodes, n - 1)]
  }

  /** The code lengths package-merge gives, with at most `L` levels. */
  ghost function MergedLengths(frequencies: seq<nat>, L: nat): (w: seq<nat>)
    ensures |w| == |frequencies|
  {
    Tally(Package(Rounds(Leaves(frequencies, |frequencies|), if L == 0 then 0 else L - 1)), |frequencies|)
  }

  /** Level counts of the final selection: `n - 1` packages out of `L` levels. */
  ghost function FinalCounts(source: seq<Node>, L: nat): (a: seq<nat>)
    requires SourceOk(source) && 1 <= L && |source| <= Pow2(L)
    ensures |a| == L
  {
    EnoughPackages(source, L);
    LeafCounts(source, L - 1, 2 * |source| - 2)
  }

  lemma {:induction false} FinalCountsFull(source: seq<Node>, L: nat)
    requires SourceOk(source) && 1 <= L && |source| <= Pow2(L)
    ensures var a := FinalCounts(source, L);
            Nested(a, |source|) && a[0] == |source| && RankKraft(a, |source|) == Pow2(L)
                && Scaled(a) == Shl(|source| - 1, L)
            && forall i :: 0 <= i < |source| ==> 1 <= WidthAt(a, i) <= L
  {
    hide Shl, RankKraft, WidthAt, Rounds, Nested, Scaled;
    EnoughPackages(source, L);
    CountsNested(source, L - 1, 2 * |source| - 2);
    CountsWorth(source, L - 1, 2 * |source| - 2);
    ShlTwice(|source| - 1, L);
    FullCounts(FinalCounts(source, L), |source|);
  }

  /** Any measure of the packaged list is the measure of the selected levels. */
  lemma {:induction false} PackagedByLevels(m: Measure, source: seq<Node>, L: nat)
    requires SourceOk(source) && 1 <= L && |source| <= Pow2(L)
    ensures forall j :: 0 <= j < L ==> FinalCounts(source, L)[j] <= |source|
    ensures Sum(m, Package(Rounds(source, L - 1))) == SumLevels(m, source, FinalCounts(source, L))
  {
    hide Sum, SumLevels, Rounds, LeafCounts, Pairs;
    EnoughPackages(source, L);
    RoundsSorted(source, L - 1);
    var nodes, p := Rounds(source, L - 1), |source| - 1;
    RoundsByLevels(m, source, L - 1, 2 * p);
    SumPairs(m, nodes, p);
    assert Pairs(nodes)[..p] == Pairs(nodes);
  }

  /** Leaf `i` gets as many bits as levels use it; an unused symbol gets none. */
  lemma {:induction false} LengthIsWidth(frequencies: seq<nat>, L: nat, i: nat)
    requires var source := Leaves(frequencies, |frequencies|);
             SourceOk(source) && 1 <= L && |source| <= Pow2(L) && i < |source|
    ensures var source := Leaves(frequencies, |frequencies|);
            |source[i].symbols| == 1 && source[i].symbols[0] < |frequencies|
            && MergedLengths(frequencies, L)[source[i].symbols[0]] == WidthAt(FinalCounts(source, L), i)
  {
    hide SumLevels, Rounds, WidthAt, Leaves;
    var source := Leaves(frequencies, |frequencies|);
    LeavesFacts(frequencies, |frequencies|);
    assert source[i] in source;
    var s := source[i].symbols[0];
    PackagedByLevels(Occurrences(s), source, L);
    LevelsAreWidth(source, FinalCounts(source, L), i);
  }

  lemma {:induction false} UnusedGetsNone(frequencies: seq<nat>, L: nat, s: nat)
    requires var source := Leaves(frequencies, |frequencies|);
             SourceOk(source) && 1 <= L && |source| <= Pow2(L)
    requires s < |frequencies| && frequencies[s] == 0
    ensures MergedLengths(frequencies, L)[s] == 0
  {
    hide SumLevels, Rounds, WidthAt, Leaves;
    var source := Leaves(frequencies, |frequencies|);
    LeavesFacts(frequencies, |frequencies|);
    PackagedByLevels(Occurrences(s), source, L);
    LevelsAreNone(source, FinalCounts(source, L), s);
  }

  ghost predicate Singles(nodes: seq<Node>, n: nat) {
    forall i :: 0 <= i < |nodes| ==> |nodes[i].symbols| == 1 && nodes[i].symbols[0] < n
  }

  ghost predicate AtMostMax(lengths: seq<nat>) {
    forall s :: 0 <= s < |lengths| ==> lengths[s] <= MAX_BITS
  }

  /** The Kraft sum over a list of leaves. */
  ghost function LeafKraft(nodes: seq<Node>, lengths: seq<nat>): nat
    requires Singles(nodes, |lengths|) && AtMostMax(lengths)
  {
    if nodes == [] then 0
    else LeafKraft(nodes[..|nodes| - 1], lengths) + Pow2(MAX_BITS - lengths[nodes[|nodes| - 1].symbols[0]])
  }

  lemma {:induction false} LeafKraftInsert(nodes: seq<Node>, x: Node, lengths: seq<nat>)
    requires Singles(nodes, |lengths|) && Singles([x], |lengths|) && AtMostMax(lengths)
    ensures Singles(InsertNode(nodes, x), |lengths|)
    ensures LeafKraft(InsertNode(nodes, x), lengths) == LeafKraft(nodes,
        lengths) + Pow2(MAX_BITS - lengths[[x][0].symbols[0]])
  {
    hide AtMostMax, Pow2;
    var r := InsertNode(nodes, x);
    assert [x][0] == x;
    if nodes == [] || nodes[|nodes| - 1].weight <= x.weight {
      assert r[..|r| - 1] == nodes;
    } else {
      var front := nodes[..|nodes| - 1];
      LeafKraftInsert(front, x, lengths);
      assert r[..|r| - 1] == InsertNode(front, x);
    }
  }

  lemma {:induction false} LeavesSingle(frequencies: seq<nat>, n: nat)
    requires n <= |frequencies|
    ensures Singles(Leaves(frequencies, n), |frequencies|)
  {
    var nodes := Leaves(frequencies, n);
    forall i | 0 <= i < |nodes| ensures |nodes[i].symbols| == 1 && nodes[i].symbols[0] < |frequencies| {
      LeavesFor(frequencies, n, nodes[i]);
    }
  }

  /** Summing over symbols in order or over leaves by weight is the same. */
  lemma {:induction false} KraftOverLeaves(frequencies: seq<nat>, lengths: seq<nat>, n: nat)
    requires n <= |frequencies| == |lengths| && AtMostMax(lengths)
    requires forall s :: 0 <= s < |lengths| ==> (lengths[s] == 0 <==> frequencies[s] == 0)
    ensures Singles(Leaves(frequencies, n), |lengths|)
    ensures Kraft(lengths, n) == LeafKraft(Leaves(frequencies, n), lengths)
  {
    hide InsertNode, Singles, Pow2;
    LeavesSingle(frequencies, n);
    if n > 0 {
      KraftOverLeaves(frequencies, lengths, n - 1);
      if frequencies[n - 1] > 0 {
        SingleLeaf(n - 1, frequencies[n - 1], |lengths|);
        LeafKraftInsert(Leaves(frequencies, n - 1), Node([n - 1], frequencies[n - 1]), lengths);
      }
    }
  }

  lemma {:induction false} SingleLeaf(s: nat, w: nat, n: nat)
    requires s < n
    ensures Singles([Node([s], w)], n)
  {}

  /** The lengths of the leaves by rank are the level counts'. */
  ghost predicate ByRank(source: seq<Node>, lengths: seq<nat>, a: seq<nat>, i: nat) {
    i < |source| && |source[i].symbols| == 1 && source[i].symbols[0] < |lengths|
    && lengths[source[i].symbols[0]] == WidthAt(a, i)
  }

  /** The Kraft sum over leaves by rank, rescaled from 2^-L to 2^-15. */
  lemma {:induction false} LeafKraftByRank(source: seq<Node>, lengths: seq<nat>, a: seq<nat>, m: nat)
    requires m <= |source| && |a| <= MAX_BITS && Singles(source, |lengths|) && AtMostMax(lengths)
    requires forall i :: 0 <= i < |source| ==> ByRank(source, lengths, a, i)
    ensures Singles(source[..m], |lengths|)
    ensures LeafKraft(source[..m], lengths) == Shl(RankKraft(a, m), MAX_BITS - |a|)
  {
    hide Shl, AtMostMax;
    if m > 0 {
      LeafKraftByRank(source, lengths, a, m - 1);
      assert source[..m][..m - 1] == source[..m - 1];
      assert ByRank(source, lengths, a, m - 1);
      var w := WidthAt(a, m - 1);
      ShlPow(|a| - w, MAX_BITS - |a|);
      ShlAdd(RankKraft(a, m - 1), Pow2(|a| - w), MAX_BITS - |a|);
    } else {
      assert source[..0] == [];
      ShlAdd(0, 0, MAX_BITS - |a|);
    }
  }

  lemma {:induction false} ShlPow(a: nat, b: nat)
    ensures Shl(Pow2(a), b) == Pow2(a + b)
  {
    Pow2Add(a, b);
  }

  /** Package-merge is valid: with n >= 2 used symbols and n <= 2^L, every used symbol gets a length in
      1..=L, every unused one gets 0, and the Kraft sum is exactly one. */
  lemma {:induction false} MergedLengthsValid(frequencies: seq<nat>, L: nat)
    requires 1 <= L <= MAX_BITS && 2 <= |Leaves(frequencies, |frequencies|)| <= Pow2(L)
    ensures forall s :: 0 <= s < |frequencies| ==>
              if frequencies[s] > 0 then 1 <= MergedLengths(frequencies, L)[s] <= L
              else MergedLengths(frequencies, L)[s] == 0
    ensures Kraft(MergedLengths(frequencies, L), |frequencies|) == Pow2(MAX_BITS)
  {
    hide Rounds, WidthAt, Leaves, MergedLengths, RankKraft, Shl, LeafKraft, FinalCounts, Singles, Kraft;
    var source, lengths := Leaves(frequencies, |frequencies|), MergedLengths(frequencies, L);
    LeavesFacts(frequencies, |frequencies|);
    LeavesSingle(frequencies, |frequencies|);
    var a := FinalCounts(source, L);
    FinalCountsFull(source, L);
    forall i | 0 <= i < |source| ensures ByRank(source, lengths, a, i) {
      LengthIsWidth(frequencies, L, i);
    }
    forall s | 0 <= s < |frequencies|
      ensures if frequencies[s] > 0 then 1 <= lengths[s] <= L else lengths[s] == 0
    {
      UsedLength(frequencies, L, s);
    }
    KraftOverLeaves(frequencies, lengths, |frequencies|);
    LeafKraftByRank(source, lengths, a, |source|);
    assert source[..|source|] == source;
    ShlPow(L, MAX_BITS - L);
  }

  lemma {:induction false} UsedLength(frequencies: seq<nat>, L: nat, s: nat)
    requires 1 <= L && 2 <= |Leaves(frequencies, |frequencies|)| <= Pow2(L) && s < |frequencies|
    ensures if frequencies[s] > 0 then 1 <= MergedLengths(frequencies, L)[s] <= L
            else MergedLengths(frequencies, L)[s] == 0
  {
    hide Rounds, WidthAt, Leaves, MergedLengths, RankKraft, FinalCounts;
    var source := Leaves(frequencies, |frequencies|);
    LeavesFacts(frequencies, |frequencies|);
    if frequencies[s] > 0 {
      LeafOf(frequencies, |frequencies|, s);
      var i :| 0 <= i < |source| && source[i] == Node([s], frequencies[s]);
      LengthIsWidth(frequencies, L, i);
      FinalCountsFull(source, L);
    } else {
      UnusedGetsNone(frequencies, L, s);
    }
  }
}
