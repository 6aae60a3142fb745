/** Length-limited code lengths (src/huffman.rs): the depth of the ordinary Huffman tree, found with a
    heap of weights and heights, and package-merge capped by it.

    The heap loop is Huffman's algorithm with the tree forgotten.  Its total is a lower bound on the
    cost of any prefix code, and lengths no longer than its final height reach that total; so lowering
    the cap to that height costs nothing. */
module CodeLengths {
  import opened Bits
  import opened BitIo
  import opened Canonical
  import opened Huffman
  import opened PackageMerge
  import opened Optimality

  // ----- The heap -----

  datatype HeapItem = HeapItem(weight: nat, width: nat)

  /** Lighter items are popped first, and the taller one among equals. */
  predicate PopsFirst(a: HeapItem, b: HeapItem) {
    a.weight < b.weight || (a.weight == b.weight && a.width >= b.width)
  }

  /** Where an item goes in a heap kept in popping order. */
  function Place(heap: seq<HeapItem>, x: HeapItem): (k: nat)
    ensures k <= |heap|
  {
    if heap == [] || PopsFirst(heap[|heap| - 1], x) then |heap| else Place(heap[..|heap| - 1], x)
  }

  function Push(heap: seq<HeapItem>, x: HeapItem): (r: seq<HeapItem>)
    ensures |r| == |heap| + 1
  {
    var k := Place(heap, x);
    heap[..k] + [x] + heap[k..]
  }

  /** The first two items joined. */
  function Joined(heap: seq<HeapItem>): HeapItem
    requires |heap| >= 2
  {
    HeapItem(heap[0].weight + heap[1].weight, 1 + Max(heap[0].width, heap[1].width))
  }

  function JoinStep(heap: seq<HeapItem>): (r: seq<HeapItem>)
    requires |heap| >= 2
    ensures |r| == |heap| - 1
  {
    Push(heap[2..], Joined(heap))
  }

  /** The height left at the end. */
  ghost function Depth(heap: seq<HeapItem>): nat
    decreases |heap|
  {
    if heap == [] then 0 else if |heap| == 1 then heap[0].width else Depth(JoinStep(heap))
  }

  /** The total weight of all the joins: what the Huffman tree costs. */
  ghost function JoinCost(heap: seq<HeapItem>): nat
    decreases |heap|
  {
    if |heap| < 2 then 0 else Joined(heap).weight + JoinCost(JoinStep(heap))
  }

  /** The heap after the frequencies below `n` are pushed. */
  ghost function HeapOf(frequencies: seq<nat>, n: nat): seq<HeapItem>
    requires n <= |frequencies|
  {
    if n == 0 then []
    else if frequencies[n - 1] == 0 then HeapOf(frequencies, n - 1)
    else Push(HeapOf(frequencies, n - 1), HeapItem(frequencies[n - 1], 0))
  }

  ghost function OrdinaryDepth(frequencies: seq<nat>): (d: nat)
    ensures d >= 1
  {
    Max(1, Depth(HeapOf(frequencies, |frequencies|)))
  }

  method OrdinaryHuffmanOptimalMaxBitwidth(frequencies: seq<nat>) returns (depth: nat)
    ensures depth == OrdinaryDepth(frequencies)
  {
    hide Push, Joined;
    var heap: seq<HeapItem> := [];
    for i := 0 to |frequencies|
      invariant heap == HeapOf(frequencies, i)
    {
      if frequencies[i] > 0 {
        heap := Push(heap, HeapItem(frequencies[i], 0));
      }
    }
    while |heap| > 1
      invariant Depth(heap) == Depth(HeapOf(frequencies, |frequencies|))
      decreases |heap|
    {
      heap := Push(heap[2..], Joined(heap));
    }
    depth := Max(1, if heap == [] then 0 else heap[0].width);
  }

  ghost predicate Lightest(heap: seq<HeapItem>) {
    forall i, j :: 0 <= i <= j < |heap| ==> heap[i].weight <= heap[j].weight
  }

  lemma {:induction false} PlaceSplits(heap: seq<HeapItem>, x: HeapItem)
    requires Lightest(heap)
    ensures var k := Place(heap, x);
            (forall i :: 0 <= i < k ==> heap[i].weight <= x.weight)
            && forall i :: k <= i < |heap| ==> x.weight <= heap[i].weight
  {
    if !(heap == [] || PopsFirst(heap[|heap| - 1], x)) {
      PlaceSplits(heap[..|heap| - 1], x);
    }
  }

  lemma {:induction false} PushSorted(heap: seq<HeapItem>, x: HeapItem)
    requires Lightest(heap)
    ensures Lightest(Push(heap, x))
  {
    hide Place;
    PlaceSplits(heap, x);
    var k, r := Place(heap, x), Push(heap, x);
    forall i, j | 0 <= i <= j < |r| ensures r[i].weight <= r[j].weight {
      assert r[i] == if i < k then heap[i] else if i == k then x else heap[i - 1];
      assert r[j] == if j < k then heap[j] else if j == k then x else heap[j - 1];
    }
  }

  /** Lighter first, and taller first among equals. */
  ghost predicate Ordered(heap: seq<HeapItem>) {
    forall i, j :: 0 <= i < j < |heap| ==>
      heap[i].weight < heap[j].weight || (heap[i].weight == heap[j].weight && heap[i].width >= heap[j].width)
  }

  /** Pushing keeps the popping order and adds just the item. */
  lemma {:induction false} PushOrdered(heap: seq<HeapItem>, x: HeapItem)
    requires Ordered(heap)
    ensures Ordered(Push(heap, x)) && multiset(Push(heap, x)) == multiset(heap) + multiset{x}
  {
    hide Place, Ordered;
    PlaceOrders(heap, x);
    var k := Place(heap, x);
    PutBetween(heap, x, k);
    assert heap == heap[..k] + heap[k..];
  }

  lemma {:induction false} PutBetween(heap: seq<HeapItem>, x: HeapItem, k: nat)
    requires Ordered(heap) && k <= |heap|
    requires forall i :: 0 <= i < k ==> PopsFirst(heap[i], x)
    requires forall i :: k <= i < |heap| ==> PopsFirst(x, heap[i])
    ensures Ordered(heap[..k] + [x] + heap[k..])
  {
    var r := heap[..k] + [x] + heap[k..];
    forall i, j | 0 <= i < j < |r|
      ensures r[i].weight < r[j].weight || (r[i].weight == r[j].weight && r[i].width >= r[j].width)
    {
      assert r[i] == if i < k then heap[i] else if i == k then x else heap[i - 1];
      assert r[j] == if j < k then heap[j] else if j == k then x else heap[j - 1];
    }
  }

  lemma {:induction false} PlaceOrders(heap: seq<HeapItem>, x: HeapItem)
    requires Ordered(heap)
    ensures var k := Place(heap, x);
            (forall i :: 0 <= i < k ==> PopsFirst(heap[i], x))
            && forall i :: k <= i < |heap| ==> PopsFirst(x, heap[i])
  {
    if !(heap == [] || PopsFirst(heap[|heap| - 1], x)) {
      PlaceOrders(heap[..|heap| - 1], x);
    }
  }

  // ----- Costs -----

  /** Weight times length, summed. */
  ghost function HeapCost(heap: seq<HeapItem>, l: seq<nat>): nat
    requires |l| == |heap|
  {
    if heap == [] then 0
    else HeapCost(heap[..|heap| - 1], l[..|l| - 1]) + Times(heap[|heap| - 1].weight, l[|l| - 1])
  }

  /** The Kraft sum in units of 2^-L. */
  ghost function Share(l: seq<nat>, L: nat): nat
    requires Within(l, L)
  {
    if l == [] then 0 else Share(l[..|l| - 1], L) + Pow2(L - l[|l| - 1])
  }

  ghost predicate Within(l: seq<nat>, L: nat) {
    forall i :: 0 <= i < |l| ==> l[i] <= L
  }

  lemma {:induction false} HeapCostConcat(a: seq<HeapItem>, b: seq<HeapItem>, l: seq<nat>, m: seq<nat>)
    requires |l| == |a| && |m| == |b|
    ensures HeapCost(a + b, l + m) == HeapCost(a, l) + HeapCost(b, m)
  {
    hide Times;
    if b == [] {
      assert a + b == a && l + m == l;
    } else {
      HeapCostConcat(a, b[..|b| - 1], l, m[..|m| - 1]);
      assert (a + b)[..|a + b| - 1] == a + b[..|b| - 1];
      assert (l + m)[..|l + m| - 1] == l + m[..|m| - 1];
    }
  }

  lemma {:induction false} ShareConcat(l: seq<nat>, m: seq<nat>, L: nat)
    requires Within(l, L) && Within(m, L)
    ensures Within(l + m, L) && Share(l + m, L) == Share(l, L) + Share(m, L)
  {
    if m == [] {
      assert l + m == l;
    } else {
      ShareConcat(l, m[..|m| - 1], L);
      assert (l + m)[..|l + m| - 1] == l + m[..|m| - 1];
    }
  }

  lemma {:induction false} CostOne(x: HeapItem, n: nat)
    ensures HeapCost([x], [n]) == Times(x.weight, n)
  {
    assert HeapCost([x][..0], [n][..0]) == 0;
  }

  lemma {:induction false} ShareOne(n: nat, L: nat)
    requires n <= L
    ensures Within([n], L) && Share([n], L) == Pow2(L - n)
  {
    assert [n][..0] == [] && Share([], L) == 0;
  }

  lemma {:induction false} CostTwo(x: HeapItem, y: HeapItem, n: nat)
    ensures HeapCost([x, y], [n, n]) == Times(x.weight, n) + Times(y.weight, n)
  {
    assert [x, y] == [x] + [y] && [n, n] == [n] + [n];
    HeapCostConcat([x], [y], [n], [n]);
    CostOne(x, n);
    CostOne(y, n);
  }

  lemma {:induction false} ShareTwo(n: nat, L: nat)
    requires n <= L
    ensures Within([n, n], L) && Share([n, n], L) == 2 * Pow2(L - n)
  {
    assert [n, n] == [n] + [n];
    ShareConcat([n], [n], L);
    ShareOne(n, L);
  }

  // ----- Joining and splitting the two lightest -----

  /** Lengths for the items before a join, from lengths after it: both parts are one longer. */
  ghost function Split(l: seq<nat>, k: nat): (r: seq<nat>)
    requires k < |l|
    ensures |r| == |l| + 1
  {
    [l[k] + 1, l[k] + 1] + (l[..k] + l[k + 1..])
  }

  lemma {:induction false} TimesJoin(a: nat, b: nat, n: nat)
    ensures Times(a, n + 1) + Times(b, n + 1) == Times(a + b, n) + (a + b)
  {
    MulDistributes(a, b, n);
  }

  lemma {:induction false} SplitCost(heap: seq<HeapItem>, l: seq<nat>)
    requires |heap| >= 2 && |l| == |heap| - 1
    ensures var k := Place(heap[2..], Joined(heap));
            k < |l| && HeapCost(heap, Split(l, k)) == HeapCost(JoinStep(heap), l) + Joined(heap).weight
  {
    hide Place, HeapCost, Times;
    var rest, x := heap[2..], Joined(heap);
    var k := Place(rest, x);
    var n := l[k];
    assert heap == [heap[0], heap[1]] + (rest[..k] + rest[k..]);
    HeapCostConcat([heap[0], heap[1]], rest[..k] + rest[k..], [n + 1, n + 1], l[..k] + l[k + 1..]);
    HeapCostConcat(rest[..k], rest[k..], l[..k], l[k + 1..]);
    CostTwo(heap[0], heap[1], n + 1);
    TimesJoin(heap[0].weight, heap[1].weight, n);
    assert l == (l[..k] + [n]) + l[k + 1..];
    HeapCostConcat(rest[..k] + [x], rest[k..], l[..k] + [n], l[k + 1..]);
    HeapCostConcat(rest[..k], [x], l[..k], [n]);
    CostOne(x, n);
  }

  lemma {:induction false} SplitShare(l: seq<nat>, k: nat, L: nat)
    requires k < |l| && Within(l, L) && l[k] < L
    ensures Within(Split(l, k), L) && Share(Split(l, k), L) == Share(l, L)
  {
    hide Share;
    var n := l[k];
    assert l == (l[..k] + [n]) + l[k + 1..];
    ShareTwo(n + 1, L);
    ShareOne(n, L);
    ShareConcat(l[..k], l[k + 1..], L);
    ShareConcat([n + 1, n + 1], l[..k] + l[k + 1..], L);
    ShareConcat(l[..k], [n], L);
    ShareConcat(l[..k] + [n], l[k + 1..], L);
  }

  /** Every item's height still fits above its codeword. */
  ghost predicate Fits(heap: seq<HeapItem>, l: seq<nat>, L: nat) {
    |l| == |heap| && forall i :: 0 <= i < |heap| ==> l[i] + heap[i].width <= L
  }

  lemma {:induction false} SplitFits(heap: seq<HeapItem>, l: seq<nat>, L: nat)
    requires |heap| >= 2 && Fits(JoinStep(heap), l, L)
    ensures var k := Place(heap[2..], Joined(heap));
            k < |l| && l[k] < L && Fits(heap, Split(l, k), L)
  {
    hide Place;
    var rest, x := heap[2..], Joined(heap);
    var k, next := Place(rest, x), JoinStep(heap);
    assert next[k] == x && l[k] + x.width <= L;
    var r := Split(l, k);
    forall i | 0 <= i < |heap| ensures r[i] + heap[i].width <= L {
      if i >= 2 {
        var j := if i - 2 < k then i - 2 else i - 1;
        assert next[j] == heap[i] && r[i] == l[j];
      }
    }
  }

  /** The joins can be undone into lengths that cost as much as the joins weigh, fill a Kraft sum of
      one, and are no longer than the final height. */
  lemma {:induction false} DepthIsEnough(heap: seq<HeapItem>) returns (l: seq<nat>)
    requires heap != []
    ensures Fits(heap, l, Depth(heap)) && HeapCost(heap, l) == JoinCost(heap)
    ensures Within(l, Depth(heap)) && Share(l, Depth(heap)) == Pow2(Depth(heap))
    ensures exists i :: 0 <= i < |l| && l[i] + heap[i].width == Depth(heap)
    decreases |heap|
  {
    hide Times, JoinStep, Joined, Split;
    if |heap| == 1 {
      l := [0];
      assert heap == [heap[0]];
      assert l[0] + heap[0].width == Depth(heap);
      CostOne(heap[0], 0);
      TimesMore(heap[0].weight, 0);
      ShareOne(0, heap[0].width);
    } else {
      var next := DepthIsEnough(JoinStep(heap));
      var k := Place(heap[2..], Joined(heap));
      SplitCost(heap, next);
      SplitFits(heap, next, Depth(heap));
      SplitShare(next, k, Depth(heap));
      l := Split(next, k);
      SplitReaches(heap, next, Depth(heap));
    }
  }

  /** The tallest part stays as tall when the join it belongs to is undone. */
  lemma {:induction false} SplitReaches(heap: seq<HeapItem>, l: seq<nat>, d: nat)
    requires |heap| >= 2 && |l| == |heap| - 1 && Place(heap[2..], Joined(heap)) < |l|
    requires exists j :: 0 <= j < |l| && l[j] + JoinStep(heap)[j].width == d
    ensures var r := Split(l, Place(heap[2..], Joined(heap)));
            exists i :: 0 <= i < |r| && r[i] + heap[i].width == d
  {
    hide Place;
    var rest, x := heap[2..], Joined(heap);
    var k, next := Place(rest, x), JoinStep(heap);
    var r := Split(l, k);
    var j :| 0 <= j < |l| && l[j] + next[j].width == d;
    var i := if j < k then j + 2 else if j > k then j + 1 else if heap[0].width >= heap[1].width then 0 else 1;
    if j == k {
      assert next[j] == x;
    } else {
      assert next[j] == heap[i] && r[i] == l[j];
    }
    assert r[i] + heap[i].width == d;
  }

  // ----- No code costs less than the joins -----

  lemma {:induction false} ShareUpdate(l: seq<nat>, L: nat, i: nat, v: nat)
    requires Within(l, L) && i < |l| && v <= L
    ensures Within(l[i := v], L) && Share(l[i := v], L) + Pow2(L - l[i]) == Share(l, L) + Pow2(L - v)
  {
    hide Share;
    var a, b := l[..i], l[i + 1..];
    assert l == (a + [l[i]]) + b && l[i := v] == (a + [v]) + b;
    ShareOne(l[i], L);
    ShareOne(v, L);
    ShareConcat(a, [l[i]], L);
    ShareConcat(a + [l[i]], b, L);
    ShareConcat(a, [v], L);
    ShareConcat(a + [v], b, L);
  }

  lemma {:induction false} CostUpdate(heap: seq<HeapItem>, l: seq<nat>, i: nat, v: nat)
    requires |l| == |heap| && i < |l|
    ensures HeapCost(heap, l[i := v]) + Times(heap[i].weight, l[i]) == HeapCost(heap, l) + Times(heap[i].weight, v)
  {
    hide HeapCost, Times;
    var a, b := l[..i], l[i + 1..];
    assert l == (a + [l[i]]) + b && l[i := v] == (a + [v]) + b;
    var x, y := heap[..i], heap[i + 1..];
    assert heap == (x + [heap[i]]) + y;
    HeapCostConcat(x, [heap[i]], a, [l[i]]);
    HeapCostConcat(x + [heap[i]], y, a + [l[i]], b);
    HeapCostConcat(x, [heap[i]], a, [v]);
    HeapCostConcat(x + [heap[i]], y, a + [v], b);
    CostOne(heap[i], l[i]);
    CostOne(heap[i], v);
  }

  lemma {:induction false} TimesMono(a: nat, m: nat, n: nat)
    requires m <= n
    ensures Times(a, m) <= Times(a, n)
  {
    Canonical.MulMono(a, m, n);
  }

  /** Giving the lighter of two items the longer codeword. */
  lemma {:induction false} TimesSwap(a: nat, b: nat, m: nat, n: nat)
    requires a <= b && m <= n
    ensures Times(a, n) + Times(b, m) <= Times(a, m) + Times(b, n)
  {
    SwapGain(b - a, n - m);
    MulDistributes(a, b - a, m);
    MulDistributes(a, b - a, n);
    MulDistributes(m, n - m, b - a);
  }

  lemma {:induction false} SwapGain(d: nat, e: nat)
    ensures d * e >= 0
  {}

  lemma {:induction false} SwapKeeps(heap: seq<HeapItem>, l: seq<nat>, L: nat, p: nat, q: nat) returns (r: seq<nat>)
    requires Lightest(heap) && |l| == |heap| && Within(l, L) && p <= q < |l| && l[p] <= l[q]
    ensures |r| == |l| && Within(r, L) && Share(r, L) == Share(l, L) && HeapCost(heap, r) <= HeapCost(heap, l)
    ensures r[p] == l[q] && forall i :: 0 <= i < |l| && i != p && i != q ==> r[i] == l[i]
  {
    hide Share, HeapCost, Times;
    var mid := l[p := l[q]];
    r := mid[q := l[p]];
    if p == q {
      assert r == l;
    } else {
      ShareUpdate(l, L, p, l[q]);
      ShareUpdate(mid, L, q, l[p]);
      CostUpdate(heap, l, p, l[q]);
      CostUpdate(heap, mid, q, l[p]);
      TimesSwap(heap[p].weight, heap[q].weight, l[p], l[q]);
    }
  }

  /** If no length reaches the cap, the cap can be lowered. */
  lemma {:induction false} LowerCap(l: seq<nat>, L: nat)
    requires L > 0 && Within(l, L - 1)
    ensures Within(l, L) && Share(l, L) == 2 * Share(l, L - 1)
  {
    if l != [] { LowerCap(l[..|l| - 1], L); }
  }

  /** A length of `L` is worth one unit, any other an even number of them. */
  lemma {:induction false} ShareParity(l: seq<nat>, L: nat, i: nat)
    requires L > 0 && Within(l, L) && i < |l| && l[i] == L && forall j :: 0 <= j < |l| && j != i ==> l[j] < L
    ensures Share(l, L) % 2 == 1
  {
    hide Share;
    var r := l[i := L - 1];
    ShareUpdate(l, L, i, L - 1);
    LowerCap(r, L);
  }

  lemma {:induction false} ShareAtLeast(l: seq<nat>, L: nat)
    requires Within(l, L)
    ensures Share(l, L) >= |l|
  {
    if l != [] { ShareAtLeast(l[..|l| - 1], L); }
  }

  /** Huffman's lower bound: lengths with a Kraft sum of at most one cost at least the joins. */
  lemma {:induction false} JoinCostLeast(heap: seq<HeapItem>, l: seq<nat>, L: nat)
    requires Lightest(heap) && |l| == |heap| && Within(l, L) && Share(l, L) <= Pow2(L)
    ensures JoinCost(heap) <= HeapCost(heap, l)
    decreases |heap|, L
  {
    hide Share, HeapCost, JoinStep, Joined;
    if |heap| >= 2 {
      ShareAtLeast(l, L);
      if i, j :| 0 <= i < j < |l| && l[i] == L && l[j] == L {
        TwoLongest(heap, l, L, i, j);
      } else if i :| 0 <= i < |l| && l[i] == L {
        ShareParity(l, L, i);
        ShareUpdate(l, L, i, L - 1);
        CostUpdate(heap, l, i, L - 1);
        TimesMono(heap[i].weight, L - 1, L);
        LowerCap(l[i := L - 1], L);
        JoinCostLeast(heap, l[i := L - 1], L - 1);
      } else {
        LowerCap(l, L);
        JoinCostLeast(heap, l, L - 1);
      }
    }
  }

  /** Two longest codewords can go to the two lightest items, and join. */
  lemma {:induction false} TwoLongest(heap: seq<HeapItem>, l: seq<nat>, L: nat, i: nat, j: nat)
    requires Lightest(heap) && |l| == |heap| >= 2 && Within(l, L) && Share(l, L) <= Pow2(L)
    requires L > 0 && i < j < |l| && l[i] == L && l[j] == L
    ensures JoinCost(heap) <= HeapCost(heap, l)
    decreases |heap|, L, 0
  {
    hide Share, HeapCost, JoinStep, Split, Place;
    var l1 := SwapKeeps(heap, l, L, 0, i);
    var l2 := SwapKeeps(heap, l1, L, 1, j);
    assert l2[0] == L && l2[1] == L;
    var k := Place(heap[2..], Joined(heap));
    var next := l2[2..][..k] + [L - 1] + l2[2..][k..];
    SplitOf(l2, k, L, next);
    SplitShare(next, k, L);
    SplitCost(heap, next);
    PushSorted(heap[2..], Joined(heap));
    StepSorted(heap);
    JoinCostLeast(JoinStep(heap), next, L);
  }

  lemma {:induction false} StepSorted(heap: seq<HeapItem>)
    requires |heap| >= 2 && Lightest(heap)
    ensures Lightest(JoinStep(heap))
  {
    hide Push;
    PushSorted(heap[2..], Joined(heap));
  }

  lemma {:induction false} SplitOf(l: seq<nat>, k: nat, L: nat, next: seq<nat>)
    requires |l| >= 2 && k <= |l| - 2 && l[0] == L && l[1] == L && L > 0 && Within(l, L)
    requires next == l[2..][..k] + [L - 1] + l[2..][k..]
    ensures Split(next, k) == l && next[k] == L - 1 && Within(next, L)
  {
    assert next[..k] + next[k + 1..] == l[2..];
    assert Split(next, k) == [L, L] + l[2..];
  }

  // ----- From the heap to the leaves -----

  /** The heap holds the leaves' weights in order. */
  ghost predicate HeapIs(heap: seq<HeapItem>, source: seq<Node>) {
    |heap| == |source| && forall i :: 0 <= i < |heap| ==> heap[i] == HeapItem(source[i].weight, 0)
  }

  lemma {:induction false} PushOnTop(heap: seq<HeapItem>, y: HeapItem)
    requires heap == [] || PopsFirst(heap[|heap| - 1], y)
    ensures Push(heap, y) == heap + [y]
  {}

  lemma {:induction false} PushUnder(heap: seq<HeapItem>, y: HeapItem)
    requires heap != [] && !PopsFirst(heap[|heap| - 1], y)
    ensures Push(heap, y) == Push(heap[..|heap| - 1], y) + [heap[|heap| - 1]]
  {
    var front, last := heap[..|heap| - 1], heap[|heap| - 1];
    var k := Place(front, y);
    assert heap == front + [last];
    assert heap[..k] == front[..k] && heap[k..] == front[k..] + [last];
  }

  lemma {:induction false} PushIsInsert(heap: seq<HeapItem>, source: seq<Node>, x: Node)
    requires HeapIs(heap, source)
    ensures HeapIs(Push(heap, HeapItem(x.weight, 0)), InsertNode(source, x))
  {
    hide Push;
    var y := HeapItem(x.weight, 0);
    if !(source == [] || source[|source| - 1].weight <= x.weight) {
      PushIsInsert(heap[..|heap| - 1], source[..|source| - 1], x);
      PushUnder(heap, y);
    } else {
      PushOnTop(heap, y);
    }
  }

  lemma {:induction false} HeapIsLeaves(frequencies: seq<nat>, n: nat)
    requires n <= |frequencies|
    ensures HeapIs(HeapOf(frequencies, n), Leaves(frequencies, n))
  {
    hide Push, InsertNode;
    if n > 0 {
      HeapIsLeaves(frequencies, n - 1);
      if frequencies[n - 1] > 0 {
        PushIsInsert(HeapOf(frequencies, n - 1), Leaves(frequencies, n - 1), Node([n - 1], frequencies[n - 1]));
      }
    }
  }

  lemma {:induction false} CostIsRankCost(heap: seq<HeapItem>, source: seq<Node>, l: seq<nat>, m: nat)
    requires HeapIs(heap, source) && |l| == |source| && m <= |l|
    ensures HeapCost(heap[..m], l[..m]) == RankCost(source, l, m)
  {
    hide Times;
    if m > 0 {
      CostIsRankCost(heap, source, l, m - 1);
      assert heap[..m][..m - 1] == heap[..m - 1] && l[..m][..m - 1] == l[..m - 1];
    }
  }

  lemma {:induction false} ShareIsKraft(l: seq<nat>, L: nat, m: nat)
    requires Within(l, L) && m <= |l|
    ensures Within(l[..m], L) && Share(l[..m], L) == CappedKraft(l, L, m)
  {
    if m > 0 {
      ShareIsKraft(l, L, m - 1);
      assert l[..m][..m - 1] == l[..m - 1];
    }
  }

  /** The tree's height leaves room for every leaf, and lengths within it cost no more than any others
      with a Kraft sum of at most one, whatever their cap. */
  lemma {:induction false} DepthSuffices(source: seq<Node>, heap: seq<HeapItem>) returns (l: seq<nat>)
    requires SourceOk(source) && HeapIs(heap, source)
    ensures |l| == |source| <= Pow2(Depth(heap)) && Depth(heap) >= 1
    ensures (forall i :: 0 <= i < |l| ==> l[i] <= Depth(heap)) && CappedKraft(l, Depth(heap), |l|) <= Pow2(Depth(heap))
    ensures RankCost(source, l, |source|) == JoinCost(heap)
    ensures exists i :: 0 <= i < |l| && l[i] + heap[i].width == Depth(heap)
  {
    hide Share, HeapCost, RankCost, CappedKraft, JoinCost, Depth;
    l := DepthIsEnough(heap);
    var d := Depth(heap);
    ShareAtLeast(l, d);
    ShareIsKraft(l, d, |l|);
    CostIsRankCost(heap, source, l, |l|);
    assert l[..|l|] == l && heap[..|l|] == heap;
    assert Pow2(0) == 1;
  }

  lemma {:induction false} JoinCostBounds(source: seq<Node>, heap: seq<HeapItem>, l: seq<nat>, L: nat)
    requires SourceOk(source) && HeapIs(heap, source) && |l| == |source|
    requires (forall i :: 0 <= i < |l| ==> l[i] <= L) && CappedKraft(l, L, |l|) <= Pow2(L)
    ensures JoinCost(heap) <= RankCost(source, l, |source|)
  {
    hide Share, HeapCost, RankCost, CappedKraft, JoinCost;
    ShareIsKraft(l, L, |l|);
    CostIsRankCost(heap, source, l, |l|);
    assert l[..|l|] == l && heap[..|l|] == heap;
    JoinCostLeast(heap, l, L);
  }

  // ----- Length-limited code lengths -----

  function Used(frequencies: seq<nat>): seq<Node> {
    Leaves(frequencies, |frequencies|)
  }

  ghost function LimitedLengths(frequencies: seq<nat>, maxBitwidth: nat): (w: seq<nat>)
    ensures |w| == |frequencies|
  {
    MergedLengths(frequencies, Min(maxBitwidth, OrdinaryDepth(frequencies)))
  }

  lemma {:induction false} JoinSymbols(source: seq<Node>, k: nat, n: nat)
    requires SymbolsIn(source, n)
    ensures SymbolsIn(Rounds(source, k), n) && SymbolsIn(Package(Rounds(source, k)), n)
  {
    if k > 0 {
      JoinSymbols(source, k - 1, n);
      MergeSymbols(Package(Rounds(source, k - 1)), source, n);
    }
    PairsSymbols(Rounds(source, k), n);
  }

  lemma {:induction false} MergeSymbols(left: seq<Node>, right: seq<Node>, n: nat)
    requires SymbolsIn(left, n) && SymbolsIn(right, n)
    ensures SymbolsIn(Merge(left, right), n)
    decreases |left| + |right|
  {
    if left != [] && right != [] {
      if left[0].weight < right[0].weight {
        MergeSymbols(left[1..], right, n);
      } else {
        MergeSymbols(left, right[1..], n);
      }
    }
  }

  lemma {:induction false} PairsSymbols(nodes: seq<Node>, n: nat)
    requires SymbolsIn(nodes, n)
    ensures SymbolsIn(Pairs(nodes), n)
  {
    forall i, j | 0 <= i < |Pairs(nodes)| && 0 <= j < |Pairs(nodes)[i].symbols| ensures Pairs(nodes)[i].symbols[j] < n {
      PairsAt(nodes, i);
    }
  }

  lemma {:induction false} UsedSymbols(frequencies: seq<nat>)
    ensures SymbolsIn(Used(frequencies), |frequencies|)
  {
    var source := Used(frequencies);
    LeavesSingle(frequencies, |frequencies|);
  }

  method PackageMergeCodeLengths(frequencies: seq<nat>, maxBitwidth: nat) returns (widths: seq<nat>)
    ensures widths == MergedLengths(frequencies, maxBitwidth)
  {
    hide Rounds, Leaves, Package, SymbolsIn;
    var source := Used(frequencies);
    var weighted := source;
    var rounds := if maxBitwidth == 0 then 0 else maxBitwidth - 1;
    RoundsStart(source);
    for k := 0 to rounds
      invariant weighted == Rounds(source, k)
    {
      RoundsNext(source, k);
      var packaged := PackageNodes(weighted);
      weighted := MergeNodes(packaged, source);
    }
    var packaged := PackageNodes(weighted);
    UsedSymbols(frequencies);
    JoinSymbols(source, rounds, |frequencies|);
    widths := TallyWidths(packaged, |frequencies|);
  }

  lemma {:induction false} RoundsStart(source: seq<Node>)
    ensures Rounds(source, 0) == source
  {}

  lemma {:induction false} RoundsNext(source: seq<Node>, k: nat)
    ensures Rounds(source, k + 1) == Merge(Package(Rounds(source, k)), source)
  {}

  method LengthLimitedCodeLengths(frequencies: seq<nat>, maxBitwidth: nat) returns (widths: seq<nat>)
    ensures widths == LimitedLengths(frequencies, maxBitwidth)
  {
    var depth := OrdinaryHuffmanOptimalMaxBitwidth(frequencies);
    widths := PackageMergeCodeLengths(frequencies, Min(maxBitwidth, depth));
  }

  lemma {:induction false} CapLeavesRoom(frequencies: seq<nat>, maxBitwidth: nat)
    requires 1 <= maxBitwidth <= MAX_BITS && 2 <= |Used(frequencies)| <= Pow2(maxBitwidth)
    ensures var L := Min(maxBitwidth, OrdinaryDepth(frequencies)); 1 <= L <= MAX_BITS && |Used(frequencies)| <= Pow2(L)
  {
    hide Leaves, Depth, HeapOf;
    var heap := HeapOf(frequencies, |frequencies|);
    LeavesFacts(frequencies, |frequencies|);
    HeapIsLeaves(frequencies, |frequencies|);
    var l := DepthSuffices(Used(frequencies), heap);
  }

  /** With two or more used symbols, the lengths are admissible, fill a Kraft sum of exactly one, and no
      admissible lengths up to `maxBitwidth` make the data shorter. */
  lemma {:induction false} LimitedLengthsOptimal(frequencies: seq<nat>, maxBitwidth: nat, lengths: seq<nat>)
    requires 1 <= maxBitwidth <= MAX_BITS && 2 <= |Used(frequencies)| <= Pow2(maxBitwidth)
    requires Admissible(frequencies, maxBitwidth, lengths)
    ensures Cost(frequencies, LimitedLengths(frequencies, maxBitwidth), |frequencies|)
        <= Cost(frequencies, lengths, |frequencies|)
  {
    hide Leaves, Depth, HeapOf, MergedLengths, Cost, RankCost, CappedKraft, JoinCost, Admissible, Widths, FinalCounts;
    var heap, source := HeapOf(frequencies, |frequencies|), Used(frequencies);
    LeavesFacts(frequencies, |frequencies|);
    HeapIsLeaves(frequencies, |frequencies|);
    CapLeavesRoom(frequencies, maxBitwidth);
    var least := DepthSuffices(source, heap);
    var d := Depth(heap);
    if maxBitwidth <= d {
      MergedLengthsOptimal(frequencies, maxBitwidth, lengths);
    } else {
      SelectionLeast(source, d, least);
      MergedCost(frequencies, d);
      var l := ByRankAdmissible(frequencies, maxBitwidth, lengths);
      JoinCostBounds(source, heap, l, maxBitwidth);
    }
  }

  /** Admissible lengths, by rank. */
  lemma {:induction false} ByRankAdmissible(frequencies: seq<nat>, L: nat, lengths: seq<nat>) returns (l: seq<nat>)
    requires 1 <= L <= MAX_BITS && Admissible(frequencies, L, lengths)
    ensures |l| == |Used(frequencies)| && (forall i :: 0 <= i < |l| ==> l[i] <= L)
    ensures CappedKraft(l, L, |l|) <= Pow2(L)
    ensures RankCost(Used(frequencies), l, |l|) == Cost(frequencies, lengths, |frequencies|)
  {
    hide Leaves, Rounds, Kraft, LeafKraft, Shl, RankCost, LeafCost, Cost, CappedKraft, Pow2, Singles;
    var n, source := |frequencies|, Used(frequencies);
    LeavesSingle(frequencies, n);
    assert source[..|source|] == source;
    l := RankLengths(source, lengths, |source|);
    RankWithin(source, lengths, L);
    LeavesShare(frequencies, lengths, n);
    LeafKraftScaled(source, lengths, l, L, |source|);
    ShlPow(L, MAX_BITS - L);
    ShlCancel(CappedKraft(l, L, |source|), Pow2(L), MAX_BITS - L);
    CostOverLeaves(frequencies, lengths, n);
    LeafCostByRank(source, lengths, l, |source|);
  }

  /** What the code lengths are good for, whatever the frequencies: exactly the used symbols get a
      codeword, of at most `maxBitwidth` bits, and the Kraft sum is at most one -- exactly one as soon
      as two symbols are used. */
  lemma {:induction false} LimitedLengthsValid(frequencies: seq<nat>, maxBitwidth: nat)
    requires 1 <= maxBitwidth <= MAX_BITS && |Used(frequencies)| <= Pow2(maxBitwidth)
    ensures var w := LimitedLengths(frequencies, maxBitwidth);
            (forall s :: 0 <= s < |w| ==> w[s] <= maxBitwidth && (w[s] > 0 <==> frequencies[s] > 0))
            && Kraft(w, |w|) <= Pow2(MAX_BITS)
            && (|Used(frequencies)| >= 2 ==> Kraft(w, |w|) == Pow2(MAX_BITS))
            && (|Used(frequencies)| == 1 ==> forall s :: 0 <= s < |w| && w[s] > 0 ==> w[s] == 1)
  {
    hide Leaves, Depth, HeapOf, MergedLengths, Kraft;
    if |Used(frequencies)| >= 2 {
      CapLeavesRoom(frequencies, maxBitwidth);
      MergedLengthsValid(frequencies, Min(maxBitwidth, OrdinaryDepth(frequencies)));
    } else {
      FewSymbols(frequencies, maxBitwidth);
    }
  }

  /** No codeword is longer than the longest of some code for the same frequencies that has no limit and that
      no other code beats. */
  lemma {:induction false} LimitedWithinOptimal(frequencies: seq<nat>, maxBitwidth: nat)
    returns (l: seq<nat>, longest: nat)
    requires 1 <= maxBitwidth <= MAX_BITS && 2 <= |Used(frequencies)| <= Pow2(maxBitwidth)
    ensures longest < |l| == |Used(frequencies)| && Capped(l, l[longest])
    ensures forall m, L :: |m| == |l| && Capped(m, L) ==>
              RankCost(Used(frequencies), l, |l|) <= RankCost(Used(frequencies), m, |l|)
    ensures forall s :: 0 <= s < |frequencies| ==> LimitedLengths(frequencies, maxBitwidth)[s] <= l[longest]
  {
    hide Leaves, Depth, HeapOf, MergedLengths, Kraft, RankCost, CappedKraft, JoinCost;
    var heap, source := HeapOf(frequencies, |frequencies|), Used(frequencies);
    LeavesFacts(frequencies, |frequencies|);
    HeapIsLeaves(frequencies, |frequencies|);
    CapLeavesRoom(frequencies, maxBitwidth);
    MergedLengthsValid(frequencies, Min(maxBitwidth, OrdinaryDepth(frequencies)));
    l := DepthSuffices(source, heap);
    longest :| 0 <= longest < |l| && l[longest] + heap[longest].width == Depth(heap);
    forall m: seq<nat>, L: nat | |m| == |l| && Capped(m, L)
      ensures RankCost(source, l, |l|) <= RankCost(source, m, |l|)
    {
      JoinCostBounds(source, heap, m, L);
    }
  }

  /** Lengths of at most `L` whose Kraft sum is at most one. */
  ghost predicate Capped(l: seq<nat>, L: nat) {
    (forall i :: 0 <= i < |l| ==> l[i] <= L) && CappedKraft(l, L, |l|) <= Pow2(L)
  }

  /** At most one used symbol: no joins, a cap of one, and a length of one. */
  lemma {:induction false} FewSymbols(frequencies: seq<nat>, maxBitwidth: nat)
    requires 1 <= maxBitwidth && |Used(frequencies)| <= 1
    ensures var w := LimitedLengths(frequencies, maxBitwidth);
            (forall s :: 0 <= s < |w| ==> w[s] == if frequencies[s] > 0 then 1 else 0)
            && Kraft(w, |w|) <= Pow2(MAX_BITS)
  {
    hide Leaves, HeapOf;
    var n, source, heap := |frequencies|, Used(frequencies), HeapOf(frequencies, |frequencies|);
    HeapIsLeaves(frequencies, n);
    LeavesFacts(frequencies, n);
    assert OrdinaryDepth(frequencies) == 1;
    assert Package(Rounds(source, 0)) == source;
    var w := LimitedLengths(frequencies, maxBitwidth);
    forall s | 0 <= s < n ensures w[s] == if frequencies[s] > 0 then 1 else 0 {
      LeafCount(frequencies, s);
    }
    AtMostOneUsed(frequencies, w, n);
  }

  /** A used symbol is one leaf, an unused one none. */
  lemma {:induction false} LeafCount(frequencies: seq<nat>, s: nat)
    requires s < |frequencies|
    ensures Count(Used(frequencies), s) == if frequencies[s] > 0 then 1 else 0
  {
    hide Leaves;
    var n, source := |frequencies|, Used(frequencies);
    LeavesFacts(frequencies, n);
    if frequencies[s] > 0 {
      LeafOf(frequencies, n, s);
      var i :| 0 <= i < |source| && source[i] == Node([s], frequencies[s]);
      CountPrefix(source, |source|, i);
      assert source[..|source|] == source;
    } else {
      NoOccurrence(source, s);
    }
  }

  lemma {:induction false} AtMostOneUsed(frequencies: seq<nat>, w: seq<nat>, n: nat)
    requires n <= |w| == |frequencies| && |Used(frequencies)| <= 1
    requires forall s :: 0 <= s < |w| ==> w[s] == if frequencies[s] > 0 then 1 else 0
    ensures Kraft(w, n) == Pow2(MAX_BITS - 1) * |Leaves(frequencies, n)| && |Leaves(frequencies, n)| <= 1
  {
    hide InsertNode;
    LeavesGrow(frequencies, n, |frequencies|);
    if n > 0 {
      AtMostOneUsed(frequencies, w, n - 1);
    }
  }

  lemma {:induction false} LeavesGrow(frequencies: seq<nat>, m: nat, n: nat)
    requires m <= n <= |frequencies|
    ensures |Leaves(frequencies, m)| <= |Leaves(frequencies, n)|
    decreases n
  {
    if m < n { LeavesGrow(frequencies, m, n - 1); }
  }

  lemma {:induction false} LeavesAtMost(frequencies: seq<nat>, n: nat)
    requires n <= |frequencies|
    ensures |Leaves(frequencies, n)| <= n
  {
    if n > 0 { LeavesAtMost(frequencies, n - 1); }
  }
}
