/** What the match finder's tokens are, said of the input alone: no chains, no tables, no search.

    The candidates at a position are the 32 latest positions inside the window whose next three bytes have
    the same hash.  A token is a pointer to the nearest candidate that shares the most bytes, as long as
    some candidate shares three, and a literal otherwise. */
module Greedy {
  import opened Bits
  import opened Lz77

  // ----- Candidates -----

  /** How many positions strictly between `q` and `p` have hash `h`. */
  ghost function Between(input: seq<byte>, h: nat, q: nat, p: nat): nat
    requires q < p && p + 2 <= |input|
    decreases p
  {
    if q + 1 == p then 0
    else Between(input, h, q, p - 1) + if Hash3(input, p - 1) == h then 1 else 0
  }

  /** One of the 32 latest positions with the hash at `p`, at most 32768 bytes back. */
  ghost predicate Candidate(input: seq<byte>, p: nat, q: nat) {
    q < p && p + 3 <= |input| && p - q <= 32768 && Hash3(input, q) == Hash3(input, p)
    && Between(input, Hash3(input, p), q, p) < 32
  }

  /** No position between `c` and `p` has the hash. */
  ghost predicate NoneBetween(input: seq<byte>, h: nat, c: nat, p: nat) {
    p + 2 <= |input| && forall r :: c < r < p ==> Hash3(input, r) != h
  }

  /** `PrevSame` is the last position before `p` with the hash; there is none if it is `NIL`. */
  lemma {:induction false} PrevIsLast(input: seq<byte>, h: nat, p: nat)
    requires p + 2 <= |input| && p <= NIL
    ensures var c := PrevSame(input, h, p);
            if c == NIL then forall r :: 0 <= r < p ==> Hash3(input, r) != h
            else c < p && Hash3(input, c) == h && NoneBetween(input, h, c, p)
    decreases p
  {
    hide Hash3;
    if p > 0 && Hash3(input, p - 1) != h {
      PrevIsLast(input, h, p - 1);
    }
  }

  /** Skipping positions of other hashes does not change the count. */
  lemma {:induction false} BetweenSkips(input: seq<byte>, h: nat, q: nat, c: nat, p: nat)
    requires q <= c < p && NoneBetween(input, h, c, p)
    ensures Between(input, h, q, p) == if q == c then 0
                                       else Between(input, h, q, c) + if Hash3(input, c) == h then 1 else 0
    decreases p
  {
    hide Hash3;
    if c + 1 < p {
      assert Hash3(input, p - 1) != h;
      BetweenSkips(input, h, q, c, p - 1);
    }
  }

  /** The chain holds exactly the candidates, nearest first. */
  lemma {:induction false} ChainExact(input: seq<byte>, h: nat, p: nat, lo: nat, count: nat, q: nat)
    requires p + 2 <= |input| && p <= NIL
    ensures q in ChainFrom(input, PrevSame(input, h, p), lo, count) <==>
              lo <= q < p && Hash3(input, q) == h && Between(input, h, q, p) < count
    decreases count
  {
    hide Hash3, PrevSame;
    var c := PrevSame(input, h, p);
    PrevIsLast(input, h, p);
    if c == NIL {
    } else if count == 0 || c < lo {
      if lo <= q < p && Hash3(input, q) == h { assert !(c < q < p); }
    } else {
      ChainExact(input, h, c, lo, count - 1, q);
      if q <= c { BetweenSkips(input, h, q, c, p); }
      var rest := ChainFrom(input, PrevSame(input, h, c), lo, count - 1);
      assert ChainFrom(input, c, lo, count) == [c] + rest;
      if q in [c] + rest { assert q == c || q in rest; }
    }
  }

  /** The chain at `p` is the candidates, each once, nearest first. */
  lemma {:induction false} ChainIsCandidates(input: seq<byte>, p: nat)
    requires p + 3 <= |input| && p <= NIL
    ensures forall q: nat :: q in Chain(input, p) <==> Candidate(input, p, q)
    ensures forall k :: 0 < k < |Chain(input, p)| ==> Chain(input, p)[k] < Chain(input, p)[k - 1]
  {
    hide Hash3, ChainFrom, PrevSame, Between;
    var h := Hash3(input, p);
    forall q: nat ensures q in Chain(input, p) <==> Candidate(input, p, q) {
      ChainExact(input, h, p, WindowStart(p), MAX_CHAIN_LEN, q);
    }
    var c := PrevSame(input, h, p);
    PrevIsLast(input, h, p);
    if c == NIL {
      NoChain(input, WindowStart(p));
    } else {
      ChainDecreases(input, c, WindowStart(p), MAX_CHAIN_LEN);
    }
  }

  lemma {:induction false} NoChain(input: seq<byte>, lo: nat)
    ensures ChainFrom(input, NIL, lo, MAX_CHAIN_LEN) == []
  {}

  // ----- Greedy tokens -----

  /** Exactly `n` bytes at `p` are the ones at `q`, counting no more than 258. */
  ghost predicate Shares(input: seq<byte>, q: nat, p: nat, n: nat) {
    q < p && n <= 258 && p + n <= |input| && input[q..q + n] == input[p..p + n]
    && (n < 258 && p + n < |input| ==> input[q + n] != input[p + n])
  }

  /** The token the greedy matcher has at `p`. */
  ghost predicate IsGreedy(input: seq<byte>, p: nat, t: Token) {
    p < |input| &&
    match t
    case Pointer(n, distance) =>
      3 <= n && 1 <= distance <= p && Candidate(input, p, p - distance) && Shares(input, p - distance, p, n)
      && forall q: nat, m: nat :: Candidate(input, p, q) && Shares(input, q, p, m) ==>
           m <= n && (p - distance < q ==> m < n)
    case Literal(b) =>
      b == input[p] && forall q: nat, m: nat :: Candidate(input, p, q) && Shares(input, q, p, m) ==> m < 3
  }

  lemma {:induction false} SharesLcp(input: seq<byte>, q: nat, p: nat, m: nat)
    requires q < p <= |input|
    ensures Shares(input, q, p, m) <==> m == Lcp(input, q, p, MaxLength(input, p))
  {
    hide Lcp;
    var max := MaxLength(input, p);
    LcpStops(input, q, p, max);
    SharesStops(input, q, p, Lcp(input, q, p, max));
    if Shares(input, q, p, m) {
      SharesStops(input, q, p, m);
      StopUnique(input, q, p, max, m);
    }
  }

  lemma {:induction false} SharesStops(input: seq<byte>, q: nat, p: nat, m: nat)
    requires q < p <= |input|
    ensures Shares(input, q, p, m) <==> StopsAt(input, q, p, MaxLength(input, p), m)
  {
    if q + m <= |input| && p + m <= |input| {
      SlicesSame(input, q, p, m);
    }
  }

  lemma {:induction false} SlicesSame(input: seq<byte>, q: nat, p: nat, m: nat)
    requires q < p && p + m <= |input|
    ensures input[q..q + m] == input[p..p + m] <==> SameBytes(input, q, p, m)
  {
    var a, b := input[q..q + m], input[p..p + m];
    if a == b {
      forall k | p <= k < p + m ensures input[k] == input[k - (p - q)] {
        assert a[k - p] == b[k - p];
      }
    }
    if SameBytes(input, q, p, m) {
      forall k | 0 <= k < m ensures a[k] == b[k] {
        assert input[p + k] == input[(p + k) - (p - q)];
      }
    }
  }

  lemma {:induction false} TokenIsGreedy(input: seq<byte>, p: nat)
    requires p < |input| <= NIL
    ensures IsGreedy(input, p, TokenAt(input, p))
  {
    hide Hash3, Lcp, Chain, BestMatch, Candidate, Shares;
    if p + 3 <= |input| {
      MatchIsGreedy(input, p);
    } else {
      forall q: nat, m: nat | Candidate(input, p, q) && Shares(input, q, p, m) ensures m < 3 {
        ShareFits(input, q, p, m);
      }
    }
  }

  lemma {:induction false} ShareFits(input: seq<byte>, q: nat, p: nat, m: nat)
    requires Shares(input, q, p, m)
    ensures p + m <= |input| && q < p
  {}

  lemma {:induction false} MatchIsGreedy(input: seq<byte>, p: nat)
    requires p + 3 <= |input| <= NIL
    ensures var best := BestMatch(input, p);
            IsGreedy(input, p, if best.length >= 3 then Pointer(best.length, best.distance) else Literal(input[p]))
  {
    hide Hash3, Lcp, Chain, BestMatch, Candidate, Shares, MaxLength;
    var chain, best, max := Chain(input, p), BestMatch(input, p), MaxLength(input, p);
    ChainIsCandidates(input, p);
    BestIsFirstLongest(input, p);
    forall q: nat, m: nat | Candidate(input, p, q) && Shares(input, q, p, m)
      ensures if best.length == 0 then m < 3 else m <= best.length && (p - best.distance < q ==> m < best.length)
    {
      var k :| 0 <= k < |chain| && chain[k] == q;
      SharesLcp(input, q, p, m);
      if best.length > 0 {
        var i: nat :| FirstAt(input, p, chain, best, i);
        if i < k { Descends(chain, i, k); }
      }
    }
    if best.length > 0 {
      var i: nat :| FirstAt(input, p, chain, best, i);
      assert chain[i] in chain;
      SharesLcp(input, chain[i], p, best.length);
    }
  }

  lemma {:induction false} Descends(chain: seq<nat>, i: nat, k: nat)
    requires i < k < |chain| && forall j :: 0 < j < |chain| ==> chain[j] < chain[j - 1]
    ensures chain[k] < chain[i]
    decreases k
  {
    if i + 1 < k { Descends(chain, i, k - 1); }
  }

  /** There is one greedy token at each position. */
  lemma {:induction false} GreedyUnique(input: seq<byte>, p: nat, t: Token, u: Token)
    requires IsGreedy(input, p, t) && IsGreedy(input, p, u)
    ensures t == u
  {
    hide Candidate, Shares;
  }

  /** Every token of `ts` is the greedy one where it stands, `start` bytes having come before. */
  ghost predicate AllGreedy(input: seq<byte>, ts: seq<Token>, start: nat) {
    forall i :: 0 <= i < |ts| ==> IsGreedy(input, start + TotalSize(ts[..i]), ts[i])
  }

  lemma {:induction false} TokensFromGreedy(input: seq<byte>, p: nat)
    requires p <= |input| <= NIL
    ensures AllGreedy(input, TokensFrom(input, p), p) && p + TotalSize(TokensFrom(input, p)) == |input|
    decreases |input| - p
  {
    hide IsGreedy, TokenAt, TokensFrom, AllGreedy, TotalSize, Size, Reproduces;
    TokensFromNext(input, p);
    if p == |input| {
      NoneGreedy(input, p);
    } else {
      var t := TokenAt(input, p);
      TokenReproduces(input, p);
      ReproducesFits(input, p, t);
      TokenIsGreedy(input, p);
      var rest := TokensFrom(input, p + Size(t));
      TokensFromGreedy(input, p + Size(t));
      OneMoreGreedy(input, t, rest, p);
    }
  }

  lemma {:induction false} TokensFromNext(input: seq<byte>, p: nat)
    requires p <= |input| <= NIL
    ensures p == |input| ==> TokensFrom(input, p) == []
    ensures p < |input| ==>
              p + Size(TokenAt(input, p)) <= |input|
              && TokensFrom(input, p) == [TokenAt(input, p)] + TokensFrom(input, p + Size(TokenAt(input, p)))
  {
    hide TokenAt;
    if p < |input| {
      TokenReproduces(input, p);
      ReproducesFits(input, p, TokenAt(input, p));
    }
  }

  lemma {:induction false} NoneGreedy(input: seq<byte>, p: nat)
    ensures AllGreedy(input, [], p) && TotalSize([]) == 0
  {}

  lemma {:induction false} OneMoreGreedy(input: seq<byte>, t: Token, rest: seq<Token>, p: nat)
    requires IsGreedy(input, p, t) && AllGreedy(input, rest, p + Size(t))
    ensures AllGreedy(input, [t] + rest, p) && TotalSize([t] + rest) == Size(t) + TotalSize(rest)
  {
    hide IsGreedy, TotalSize;
    var all := [t] + rest;
    SizeFront(t, rest);
    forall i | 0 <= i < |all| ensures IsGreedy(input, p + TotalSize(all[..i]), all[i]) {
      if i == 0 {
        NoSize();
        assert all[..0] == [];
      } else {
        assert all[..i] == [t] + rest[..i - 1];
        SizeFront(t, rest[..i - 1]);
      }
    }
  }

  lemma {:induction false} NoSize()
    ensures TotalSize([]) == 0
  {}

  lemma {:induction false} SizeFront(t: Token, rest: seq<Token>)
    ensures TotalSize([t] + rest) == Size(t) + TotalSize(rest)
  {
    ExpandFront(t, rest, []);
  }

  /** The tokens are the greedy ones, and no others are: token `i` stands behind the sizes of those before it. */
  lemma {:induction false} TokensAreGreedy(input: seq<byte>, ts: seq<Token>)
    requires |input| <= NIL
    ensures ts == Tokens(input) <==> AllGreedy(input, ts, 0) && TotalSize(ts) == |input|
  {
    hide AllGreedy, TotalSize;
    TokensFromGreedy(input, 0);
    if AllGreedy(input, ts, 0) && TotalSize(ts) == |input| {
      SameGreedy(input, ts, Tokens(input), 0);
    }
  }

  lemma {:induction false} SameGreedy(input: seq<byte>, ts: seq<Token>, us: seq<Token>, p: nat)
    requires AllGreedy(input, ts, p) && AllGreedy(input, us, p)
    requires p + TotalSize(ts) == |input| == p + TotalSize(us)
    ensures ts == us
    decreases |ts|
  {
    hide IsGreedy, AllGreedy, TotalSize;
    if ts == [] || us == [] {
      NoSize();
      AtEnd(input, ts, p);
      AtEnd(input, us, p);
    } else {
      HeadGreedy(input, ts, p);
      HeadGreedy(input, us, p);
      GreedyUnique(input, p, ts[0], us[0]);
      TailGreedy(input, ts, p);
      TailGreedy(input, us, p);
      SameGreedy(input, ts[1..], us[1..], p + Size(ts[0]));
      assert ts == [ts[0]] + ts[1..] && us == [us[0]] + us[1..];
    }
  }

  lemma {:induction false} HeadGreedy(input: seq<byte>, ts: seq<Token>, p: nat)
    requires ts != [] && AllGreedy(input, ts, p)
    ensures IsGreedy(input, p, ts[0])
  {
    hide IsGreedy;
    assert ts[..0] == [];
  }

  lemma {:induction false} AtEnd(input: seq<byte>, ts: seq<Token>, p: nat)
    requires AllGreedy(input, ts, p) && p == |input|
    ensures ts == []
  {
    if ts != [] { HeadGreedy(input, ts, p); }
  }

  lemma {:induction false} TailGreedy(input: seq<byte>, ts: seq<Token>, p: nat)
    requires ts != [] && AllGreedy(input, ts, p)
    ensures AllGreedy(input, ts[1..], p + Size(ts[0])) && TotalSize(ts) == Size(ts[0]) + TotalSize(ts[1..])
  {
    hide IsGreedy, TotalSize;
    var t, rest := ts[0], ts[1..];
    assert ts == [t] + rest;
    SizeFront(t, rest);
    forall i | 0 <= i < |rest| ensures IsGreedy(input, p + Size(t) + TotalSize(rest[..i]), rest[i]) {
      assert ts[..i + 1] == [t] + rest[..i];
      SizeFront(t, rest[..i]);
    }
  }
}
