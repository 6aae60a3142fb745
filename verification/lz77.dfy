/** The LZ77 match finder (src/lz77.rs).

    `Tokens` says, without tables, what the greedy matcher produces; `FillSymbols` runs the hash
    chains and produces exactly that, whatever earlier calls left in the tables. */
module Lz77 {
  import opened Bits
  import opened Symbols
  import opened Window

  const HASH_BITS: nat := 15
  const HASH_SIZE: nat := 32768
  const MAX_CHAIN_LEN: nat := 32
  const NIL: nat := 0xFFFF_FFFF

  datatype Token = Literal(b: byte) | Pointer(length: nat, distance: nat)

  // ----- What tokens mean -----

  /** A token that can follow `produced` bytes of output. */
  predicate Usable(t: Token, produced: nat) {
    t.Pointer? ==> MIN_MATCH <= t.length <= MAX_MATCH && 1 <= t.distance <= WINDOW_SIZE && t.distance <= produced
  }

  function Apply(out: seq<byte>, t: Token): (r: seq<byte>)
    requires Usable(t, |out|)
    ensures |r| == |out| + Size(t) && out <= r
  {
    match t
    case Literal(b) => out + [b]
    case Pointer(length, distance) => CopyBytewise(out, distance, length)
  }

  function Size(t: Token): (n: nat)
  {
    if t.Literal? then 1 else t.length
  }

  function TotalSize(ts: seq<Token>): nat {
    if ts == [] then 0 else TotalSize(ts[..|ts| - 1]) + Size(ts[|ts| - 1])
  }

  /** Every token is usable where it stands, `start` bytes having come before. */
  predicate Sound(ts: seq<Token>, start: nat) {
    ts == [] || (Sound(ts[..|ts| - 1], start) && Usable(ts[|ts| - 1], start + TotalSize(ts[..|ts| - 1])))
  }

  function Expand(ts: seq<Token>, out: seq<byte>): (r: seq<byte>)
    requires Sound(ts, |out|)
    ensures |r| == |out| + TotalSize(ts) && out <= r
  {
    if ts == [] then out else Apply(Expand(ts[..|ts| - 1], out), ts[|ts| - 1])
  }

  /** Peeling tokens off the front. */
  lemma {:induction false} ExpandFront(t: Token, ts: seq<Token>, out: seq<byte>)
    ensures Sound([t] + ts, |out|) <==> Usable(t, |out|) && Sound(ts, |out| + Size(t))
    ensures TotalSize([t] + ts) == Size(t) + TotalSize(ts)
    ensures Sound([t] + ts, |out|) ==> Expand([t] + ts, out) == Expand(ts, Apply(out, t))
  {
    var all := [t] + ts;
    if ts == [] {
      assert all[..0] == [] && all[0] == t;
    } else {
      var front, last := ts[..|ts| - 1], ts[|ts| - 1];
      assert all[..|all| - 1] == [t] + front && all[|all| - 1] == last;
      ExpandFront(t, front, out);
    }
  }

  /** What came before the tokens' own output makes no difference. */
  lemma {:induction false} ExpandAfter(ts: seq<Token>, before: seq<byte>, out: seq<byte>)
    requires Sound(ts, |out|)
    ensures Sound(ts, |before + out|) && Expand(ts, before + out) == before + Expand(ts, out)
  {
    if ts != [] {
      var front, last := ts[..|ts| - 1], ts[|ts| - 1];
      ExpandAfter(front, before, out);
      var mid := Expand(front, out);
      if last.Pointer? {
        WindowCopy(before, mid, last.distance, last.length);
      } else {
        assert (before + mid) + [last.b] == before + (mid + [last.b]);
      }
    }
  }

  // ----- Common prefixes -----

  /** The `n` bytes at `b` repeat the ones at `a`. */
  ghost predicate SameBytes(input: seq<byte>, a: nat, b: nat, n: nat) {
    a <= b && b + n <= |input| && forall k :: b <= k < b + n ==> input[k] == input[k - (b - a)]
  }

  /** Length of the common prefix of `input[a..]` and `input[b..]`, at most `max` bytes. */
  ghost function Lcp(input: seq<byte>, a: nat, b: nat, max: nat): (n: nat)
    requires a < b <= |input|
    decreases max
  {
    if max == 0 || b == |input| || input[a] != input[b] then 0
    else 1 + Lcp(input, a + 1, b + 1, max - 1)
  }

  /** `n` is where the comparison of `a` and `b` stops. */
  ghost predicate StopsAt(input: seq<byte>, a: nat, b: nat, max: nat, n: nat) {
    SameBytes(input, a, b, n) && n <= max && (n < max && b + n < |input| ==> input[a + n] != input[b + n])
  }

  lemma {:induction false} LcpStops(input: seq<byte>, a: nat, b: nat, max: nat)
    requires a < b <= |input|
    ensures StopsAt(input, a, b, max, Lcp(input, a, b, max))
    decreases max
  {
    if !(max == 0 || b == |input| || input[a] != input[b]) {
      LcpStops(input, a + 1, b + 1, max - 1);
    }
  }

  lemma {:induction false} StopUnique(input: seq<byte>, a: nat, b: nat, max: nat, n: nat)
    requires a < b <= |input| && StopsAt(input, a, b, max, n)
    ensures n == Lcp(input, a, b, max)
  {
    LcpStops(input, a, b, max);
    var m := Lcp(input, a, b, max);
    SameByteAt(input, a, b, m, n);
    SameByteAt(input, a, b, n, m);
  }

  lemma {:induction false} SameByteAt(input: seq<byte>, a: nat, b: nat, n: nat, j: nat)
    requires SameBytes(input, a, b, n)
    ensures j < n ==> input[a + j] == input[b + j]
  {
    if j < n {
      assert input[b + j] == input[b + j - (b - a)];
    }
  }

  /** `u64::from_le_bytes`, for any number of bytes */
  function LeVal(bytes: seq<byte>): nat {
    if bytes == [] then 0 else bytes[0] as int + Shl(LeVal(bytes[1..]), 8)
  }

  function TrailingZeros(v: nat): nat
    requires v > 0
  {
    if v % 2 == 1 then 0 else 1 + TrailingZeros(v / 2)
  }

  lemma {:induction false} XorStep(x: nat, y: nat)
    ensures Xor(x, y) == (if x % 2 != y % 2 then 1 else 0) + 2 * Xor(x / 2, y / 2)
  {}

  lemma {:induction false} XorSplit(a: nat, b: nat, r: nat, q: nat, w: nat)
    requires a < Pow2(w) && b < Pow2(w)
    ensures Xor(a + Shl(r, w), b + Shl(q, w)) == Xor(a, b) + Shl(Xor(r, q), w)
  {
    hide Xor;
    if w == 0 {
      XorZero(0, 0);
    } else {
      XorSplit(a / 2, b / 2, r, q, w - 1);
      var x, y := a + Shl(r, w), b + Shl(q, w);
      ShlDouble(r, w);
      ShlDouble(q, w);
      ShlDouble(Xor(r, q), w);
      hide Shl;
      HalfSum(x, a, Shl(r, w - 1));
      HalfSum(y, b, Shl(q, w - 1));
      XorStep(x, y);
      XorStep(a, b);
    }
  }

  lemma {:induction false} ShlDouble(v: nat, w: nat)
    requires w > 0
    ensures Shl(v, w) == 2 * Shl(v, w - 1)
  {}

  lemma {:induction false} XorZero(x: nat, y: nat)
    ensures Xor(x, y) == 0 <==> x == y
  {
    if x > 0 || y > 0 { XorZero(x / 2, y / 2); }
  }

  lemma {:induction false} XorBound(x: nat, y: nat, w: nat)
    requires x < Pow2(w) && y < Pow2(w)
    ensures Xor(x, y) < Pow2(w)
  {
    if w > 0 { XorBound(x / 2, y / 2, w - 1); }
  }

  /** Trailing zeros pass over a zero low part and stop inside a non-zero one. */
  lemma {:induction false} TrailingZerosSplit(lo: nat, hi: nat, w: nat)
    requires lo < Pow2(w) && (lo > 0 || hi > 0)
    ensures lo + Shl(hi, w) > 0
    ensures lo > 0 ==> TrailingZeros(lo + Shl(hi, w)) < w
    ensures lo == 0 ==> TrailingZeros(lo + Shl(hi, w)) == w + TrailingZeros(hi)
  {
    if w > 0 {
      var v := lo + Shl(hi, w);
      ShlDouble(hi, w);
      HalfSum(v, lo, Shl(hi, w - 1));
      if lo % 2 == 0 {
        TrailingZerosSplit(lo / 2, hi, w - 1);
      }
    }
  }

  /** One byte of two words: if the bytes differ the xor has a bit in them, else look further. */
  lemma {:induction false} WordStep(a: nat, b: nat, r: nat, q: nat)
    requires a < 256 && b < 256
    ensures Xor(a + Shl(r, 8), b + Shl(q, 8)) == 0 <==> a == b && r == q
    ensures a != b ==> TrailingZeros(Xor(a + Shl(r, 8), b + Shl(q, 8))) < 8
    ensures a == b && r != q ==>
              Xor(r, q) != 0 && TrailingZeros(Xor(a + Shl(r, 8), b + Shl(q, 8))) == 8 + TrailingZeros(Xor(r, q))
  {
    hide Xor, TrailingZeros, Shl;
    Pow2Values();
    XorSplit(a, b, r, q, 8);
    XorZero(a, b);
    XorZero(r, q);
    XorBound(a, b, 8);
    if a != b || r != q {
      TrailingZerosSplit(Xor(a, b), Xor(r, q), 8);
    } else {
      assert Shl(0, 8) == 0 by { ShlZero(8); }
    }
  }

  lemma {:induction false} ShlZero(w: nat)
    ensures Shl(0, w) == 0
  {}

  lemma {:induction false} DiffersBehind(b: byte, x: seq<byte>, y: seq<byte>, k: nat)
    requires |x| == |y| && k < |x| && x[..k] == y[..k] && x[k] != y[k]
    ensures ([b] + x)[..1 + k] == ([b] + y)[..1 + k] && ([b] + x)[1 + k] != ([b] + y)[1 + k]
  {
    assert ([b] + x)[..1 + k] == [b] + x[..k] && ([b] + y)[..1 + k] == [b] + y[..k];
  }

  /** The first set bit of the xor of two words is inside their first differing byte. */
  lemma {:induction false} FirstDifference(x: seq<byte>, y: seq<byte>)
    requires |x| == |y|
    ensures Xor(LeVal(x), LeVal(y)) == 0 <==> x == y
    ensures x != y ==>
              var k := TrailingZeros(Xor(LeVal(x), LeVal(y))) / 8;
              k < |x| && x[..k] == y[..k] && x[k] != y[k]
  {
    hide Xor, TrailingZeros, Shl;
    if x == [] {
      XorZero(0, 0);
    } else {
      var r, q := LeVal(x[1..]), LeVal(y[1..]);
      assert x == [x[0]] + x[1..] && y == [y[0]] + y[1..];
      FirstDifference(x[1..], y[1..]);
      WordStep(x[0] as int, y[0] as int, r, q);
      XorZero(r, q);
      if x[0] == y[0] && x != y {
        var t := TrailingZeros(Xor(r, q));
        var k := t / 8;
        assert (8 + t) / 8 == 1 + k;
        DiffersBehind(x[0], x[1..], y[1..], k);
      } else if x != y {
        assert x[..0] == y[..0] && TrailingZeros(Xor(LeVal(x), LeVal(y))) / 8 == 0;
      }
    }
  }

  /** Eight bytes at a time, then one at a time: the same length as comparing bytes. */
  method LongestCommonPrefix(input: seq<byte>, a: nat, b: nat, max: nat) returns (n: nat)
    requires a < b <= |input|
    ensures n == Lcp(input, a, b, max)
  {
    hide Lcp, LeVal, Xor, TrailingZeros;
    var bounded := if max <= |input| - b then max else |input| - b;
    var i := 0;
    while i + 8 <= bounded
      invariant i <= bounded && SameBytes(input, a, b, i)
    {
      var av, bv := input[a + i..a + i + 8], input[b + i..b + i + 8];
      FirstDifference(av, bv);
      var diff := Xor(LeVal(av), LeVal(bv));
      if diff != 0 {
        n := i + TrailingZeros(diff) / 8;
        SameWord(input, a, b, i, n - i, av, bv);
        StopUnique(input, a, b, max, n);
        return;
      }
      SameWord(input, a, b, i, 8, av, bv);
      i := i + 8;
    }
    while i < bounded && input[a + i] == input[b + i]
      invariant i <= bounded && SameBytes(input, a, b, i)
    {
      i := i + 1;
    }
    StopUnique(input, a, b, max, i);
    return i;
  }

  /** `k` equal bytes of a word extend the common prefix by `k`. */
  lemma {:induction false} SameWord(input: seq<byte>, a: nat, b: nat, i: nat, k: nat, av: seq<byte>, bv: seq<byte>)
    requires a < b && b + i + 8 <= |input| && k <= 8 && SameBytes(input, a, b, i)
    requires av == input[a + i..a + i + 8] && bv == input[b + i..b + i + 8] && av[..k] == bv[..k]
    ensures SameBytes(input, a, b, i + k)
    ensures k < 8 && av[k] != bv[k] ==> input[a + (i + k)] != input[b + (i + k)]
  {
    forall j | b + i <= j < b + i + k ensures input[j] == input[j - (b - a)] {
      var m := j - b - i;
      assert input[j] == bv[..k][m] && input[a + i + m] == av[..k][m];
    }
  }

  /** Copying a match from its distance reproduces the input. */
  lemma {:induction false} MatchCopies(input: seq<byte>, a: nat, b: nat, n: nat)
    requires a < b && SameBytes(input, a, b, n)
    ensures CopyBytewise(input[..b], b - a, n) == input[..b + n]
    decreases n
  {
    if n == 0 {
    } else {
      assert SameBytes(input, a + 1, b + 1, n - 1);
      assert input[b] == input[b - (b - a)];
      assert input[..b + 1] == input[..b] + [input[b]];
      MatchCopies(input, a + 1, b + 1, n - 1);
    }
  }

  // ----- The chains -----

  function Hash3(input: seq<byte>, pos: nat): (h: nat)
    requires pos + 3 <= |input|
    ensures h < HASH_SIZE
  {
    Pow2Values();
    Mask(Xor(Xor(Shl(input[pos] as int, 10), Shl(input[pos + 1] as int, 5)), input[pos + 2] as int), HASH_BITS)
  }

  /** The last position before `p` with hash `h`, or `NIL`. */
  ghost function PrevSame(input: seq<byte>, h: nat, p: nat): (q: nat)
    requires p + 2 <= |input|
    ensures q == NIL || (q < p && Hash3(input, q) == h)
    decreases p
  {
    if p == 0 then NIL
    else if Hash3(input, p - 1) == h then p - 1
    else PrevSame(input, h, p - 1)
  }

  /** A hash chain: positions with the same hash as `c`, each the last one before the one it
      follows, down to `lo` and at most `count` of them. */
  ghost function ChainFrom(input: seq<byte>, c: nat, lo: nat, count: nat): (chain: seq<nat>)
    requires c == NIL || c + 3 <= |input|
    ensures |chain| <= count
    ensures forall k :: 0 <= k < |chain| ==> lo <= chain[k] && chain[k] + 3 <= |input|
    decreases count
  {
    if count == 0 || c == NIL || c < lo then []
    else [c] + ChainFrom(input, PrevSame(input, Hash3(input, c), c), lo, count - 1)
  }

  /** The candidates for a match at `cursor`: up to 32 chain positions inside the window. */
  ghost function Chain(input: seq<byte>, cursor: nat): seq<nat>
    requires cursor + 3 <= |input|
  {
    ChainFrom(input, PrevSame(input, Hash3(input, cursor), cursor), WindowStart(cursor), MAX_CHAIN_LEN)
  }

  function WindowStart(cursor: nat): nat {
    if cursor < WINDOW_SIZE then 0 else cursor - WINDOW_SIZE
  }

  function MaxLength(input: seq<byte>, cursor: nat): nat
    requires cursor <= |input|
  {
    if |input| - cursor < MAX_MATCH then |input| - cursor else MAX_MATCH
  }

  datatype Best = Best(length: nat, distance: nat)

  /** Keep the first candidate that is longer than every earlier one. */
  ghost function Better(input: seq<byte>, cursor: nat, best: Best, c: nat): Best
    requires c < cursor <= |input|
  {
    var length := Lcp(input, c, cursor, MaxLength(input, cursor));
    if length >= MIN_MATCH && length > best.length then Best(length, cursor - c) else best
  }

  ghost function BestFrom(input: seq<byte>, cursor: nat, best: Best, chain: seq<nat>): Best
    requires cursor <= |input| && forall k :: 0 <= k < |chain| ==> chain[k] < cursor
    decreases |chain|
  {
    if chain == [] then best
    else BestFrom(input, cursor, Better(input, cursor, best, chain[0]), chain[1..])
  }

  lemma {:induction false} ChainBelow(input: seq<byte>, c: nat, lo: nat, count: nat, cursor: nat)
    requires c == NIL || (c + 3 <= |input| && c < cursor)
    ensures forall k :: 0 <= k < |ChainFrom(input, c, lo, count)| ==> ChainFrom(input, c, lo, count)[k] < cursor
    decreases count
  {
    if !(count == 0 || c == NIL || c < lo) {
      ChainBelow(input, PrevSame(input, Hash3(input, c), c), lo, count - 1, cursor);
    }
  }

  ghost predicate OneChain(input: seq<byte>, h: nat, chain: seq<nat>) {
    (forall k :: 0 < k < |chain| ==> chain[k] < chain[k - 1])
    && (forall k :: 0 <= k < |chain| ==> chain[k] + 3 <= |input| && Hash3(input, chain[k]) == h)
  }

  /** Chains strictly decrease and stay on one hash. */
  lemma {:induction false} ChainDecreases(input: seq<byte>, c: nat, lo: nat, count: nat)
    requires c != NIL && c + 3 <= |input|
    ensures OneChain(input, Hash3(input, c), ChainFrom(input, c, lo, count))
    decreases count
  {
    hide Hash3;
    var next := PrevSame(input, Hash3(input, c), c);
    if count > 0 && c >= lo && next != NIL {
      ChainDecreases(input, next, lo, count - 1);
      OneMore(input, c, next, ChainFrom(input, next, lo, count - 1));
    }
  }

  lemma {:induction false} OneMore(input: seq<byte>, c: nat, next: nat, rest: seq<nat>)
    requires c + 3 <= |input| && next < c && Hash3(input, next) == Hash3(input, c)
    requires OneChain(input, Hash3(input, next), rest) && (rest != [] ==> rest[0] == next)
    ensures OneChain(input, Hash3(input, c), [c] + rest)
  {
    hide Hash3;
  }

  /** The match the greedy matcher takes at `cursor`. */
  ghost function BestMatch(input: seq<byte>, cursor: nat): Best
    requires cursor + 3 <= |input|
  {
    ChainBelow(input, PrevSame(input, Hash3(input, cursor), cursor), WindowStart(cursor), MAX_CHAIN_LEN, cursor);
    BestFrom(input, cursor, Best(0, 0), Chain(input, cursor))
  }

  /** Nothing on the chain is longer, nothing before the choice is as long, and only matches of three
      bytes or more count. */
  lemma {:induction false} BestIsFirstLongest(input: seq<byte>, cursor: nat)
    requires cursor + 3 <= |input|
    ensures (forall k :: 0 <= k < |Chain(input, cursor)| ==> Chain(input, cursor)[k] < cursor)
    ensures FirstLongest(input, cursor, Chain(input, cursor), BestMatch(input, cursor))
  {
    hide Hash3, Lcp;
    ChainBelow(input, PrevSame(input, Hash3(input, cursor), cursor), WindowStart(cursor), MAX_CHAIN_LEN, cursor);
    BestSoFar(input, cursor, [], Best(0, 0), Chain(input, cursor));
    assert [] + Chain(input, cursor) == Chain(input, cursor);
  }

  lemma {:induction false} BestSoFar(input: seq<byte>, cursor: nat, done: seq<nat>, best: Best, rest: seq<nat>)
    requires cursor <= |input| && (forall k :: 0 <= k < |done| ==> done[k] < cursor)
    requires (forall k :: 0 <= k < |rest| ==> rest[k] < cursor) && FirstLongest(input, cursor, done, best)
    ensures FirstLongest(input, cursor, done + rest, BestFrom(input, cursor, best, rest))
    decreases |rest|
  {
    if rest == [] {
      assert done + rest == done;
    } else {
      BestNext(input, cursor, done, best, rest[0]);
      BestSoFar(input, cursor, done + [rest[0]], Better(input, cursor, best, rest[0]), rest[1..]);
      assert done + rest == done + [rest[0]] + rest[1..];
    }
  }

  lemma {:induction false} BestNext(input: seq<byte>, cursor: nat, done: seq<nat>, best: Best, c: nat)
    requires cursor <= |input| && (forall k :: 0 <= k < |done| ==> done[k] < cursor) && c < cursor
    requires FirstLongest(input, cursor, done, best)
    ensures FirstLongest(input, cursor, done + [c], Better(input, cursor, best, c))
  {
    hide Lcp, MaxLength;
    var all, max := done + [c], MaxLength(input, cursor);
    assert all[|done|] == c && forall k :: 0 <= k < |done| ==> all[k] == done[k];
    var next := Better(input, cursor, best, c);
    if next != best {
      assert FirstAt(input, cursor, all, next, |done|);
    } else if best.length > 0 {
      var i: nat :| FirstAt(input, cursor, done, best, i);
      assert FirstAt(input, cursor, all, best, i);
    }
  }

  ghost predicate FirstLongest(input: seq<byte>, cursor: nat, chain: seq<nat>, best: Best)
    requires cursor <= |input| && forall k :: 0 <= k < |chain| ==> chain[k] < cursor
  {
    var max := MaxLength(input, cursor);
    if best.length == 0 then
      best.distance == 0 && forall k :: 0 <= k < |chain| ==> Lcp(input, chain[k], cursor, max) < MIN_MATCH
    else
      best.length >= MIN_MATCH && exists i: nat :: FirstAt(input, cursor, chain, best, i)
  }

  /** The match is the one at the chain's position `i`, longer than those before and not shorter than those
      behind. */
  ghost predicate FirstAt(input: seq<byte>, cursor: nat, chain: seq<nat>, best: Best, i: nat)
    requires cursor <= |input| && forall k :: 0 <= k < |chain| ==> chain[k] < cursor
  {
    var max := MaxLength(input, cursor);
    i < |chain| && best == Best(Lcp(input, chain[i], cursor, max), cursor - chain[i])
    && (forall k :: 0 <= k < i ==> Lcp(input, chain[k], cursor, max) < best.length)
    && (forall k :: i < k < |chain| ==> Lcp(input, chain[k], cursor, max) <= best.length)
  }

  // ----- Searching -----

  /** `prev` answers for every position inside the window before `k`. */
  ghost predicate PrevOk(input: seq<byte>, prev: seq<nat>, k: nat) {
    (if |input| < WINDOW_SIZE then |input| else WINDOW_SIZE) <= |prev|
    && forall q :: WindowStart(k) <= q < k && q + 3 <= |input| ==>
         prev[q % WINDOW_SIZE] == PrevSame(input, Hash3(input, q), q)
  }

  /** A usable match, or none. */
  ghost predicate MatchOk(input: seq<byte>, cursor: nat, best: Best) {
    cursor <= |input| &&
    if best.length == 0 then best.distance == 0
    else MIN_MATCH <= best.length <= MaxLength(input, cursor) && 1 <= best.distance <= WINDOW_SIZE
         && best.distance <= cursor && SameBytes(input, cursor - best.distance, cursor, best.length)
  }

  lemma {:induction false} BetterOk(input: seq<byte>, cursor: nat, best: Best, c: nat)
    requires MatchOk(input, cursor, best) && c < cursor && WindowStart(cursor) <= c
    ensures MatchOk(input, cursor, Better(input, cursor, best, c))
    ensures Lcp(input, c, cursor, MaxLength(input, cursor)) <= MaxLength(input, cursor)
  {
    LcpStops(input, c, cursor, MaxLength(input, cursor));
  }

  /** The pre-check only skips candidates that cannot win. */
  lemma {:induction false} SkipIsSafe(input: seq<byte>, cursor: nat, best: Best, c: nat)
    requires c < cursor && cursor + best.length < |input| && best.length > 0
    requires input[c + best.length] != input[cursor + best.length] || input[c] != input[cursor]
    ensures Better(input, cursor, best, c) == best
  {
    var max := MaxLength(input, cursor);
    LcpStops(input, c, cursor, max);
    SameByteAt(input, c, cursor, Lcp(input, c, cursor, max), best.length);
    SameByteAt(input, c, cursor, Lcp(input, c, cursor, max), 0);
  }

  /** Once a match is as long as any match can be, the rest of the chain cannot win. */
  lemma {:induction false} FullIsFinal(input: seq<byte>, cursor: nat, best: Best, chain: seq<nat>)
    requires cursor <= |input| && (forall k :: 0 <= k < |chain| ==> chain[k] < cursor)
    requires best.length == MaxLength(input, cursor)
    ensures BestFrom(input, cursor, best, chain) == best
    decreases |chain|
  {
    if chain != [] {
      LcpStops(input, chain[0], cursor, MaxLength(input, cursor));
      FullIsFinal(input, cursor, best, chain[1..]);
    }
  }

  /** What is left of the search gives the greedy matcher's choice. */
  ghost predicate OnCourse(input: seq<byte>, cursor: nat, c: nat, count: nat, best: Best) {
    cursor + 3 <= |input| && (c == NIL || c < cursor) &&
    var rest := ChainFrom(input, c, WindowStart(cursor), count);
    (forall k :: 0 <= k < |rest| ==> rest[k] < cursor)
        && BestFrom(input, cursor, best, rest) == BestMatch(input, cursor)
  }

  lemma {:induction false} CourseStarts(input: seq<byte>, cursor: nat)
    requires cursor + 3 <= |input|
    ensures OnCourse(input, cursor, PrevSame(input, Hash3(input, cursor), cursor), MAX_CHAIN_LEN, Best(0, 0))
  {
    hide Hash3;
    ChainBelow(input, PrevSame(input, Hash3(input, cursor), cursor), WindowStart(cursor), MAX_CHAIN_LEN, cursor);
  }

  lemma {:induction false} CourseSteps(input: seq<byte>, cursor: nat, c: nat, count: nat, best: Best)
    requires OnCourse(input, cursor, c, count, best) && count > 0 && c != NIL && WindowStart(cursor) <= c < cursor
    ensures OnCourse(input, cursor, PrevSame(input, Hash3(input, c), c), count - 1, Better(input, cursor, best, c))
    ensures Better(input, cursor, best, c).length == MaxLength(input, cursor) ==>
              Better(input, cursor, best, c) == BestMatch(input, cursor)
  {
    hide Hash3, Lcp, BestMatch, Better;
    var next := PrevSame(input, Hash3(input, c), c);
    ChainBelow(input, next, WindowStart(cursor), count - 1, cursor);
    var rest := ChainFrom(input, next, WindowStart(cursor), count - 1);
    var chain := ChainFrom(input, c, WindowStart(cursor), count);
    assert chain == [c] + rest;
    BestFromFront(input, cursor, best, c, rest);
    if Better(input, cursor, best, c).length == MaxLength(input, cursor) {
      FullIsFinal(input, cursor, Better(input, cursor, best, c), rest);
    }
  }

  lemma {:induction false} BestFromFront(input: seq<byte>, cursor: nat, best: Best, c: nat, rest: seq<nat>)
    requires cursor <= |input| && c < cursor && forall k :: 0 <= k < |rest| ==> rest[k] < cursor
    ensures forall k :: 0 <= k < |[c] + rest| ==> ([c] + rest)[k] < cursor
    ensures BestFrom(input, cursor, best, [c] + rest) == BestFrom(input, cursor, Better(input, cursor, best, c), rest)
  {
    hide Better;
    assert ([c] + rest)[1..] == rest;
  }

  lemma {:induction false} CourseEnds(input: seq<byte>, cursor: nat, c: nat, count: nat, best: Best)
    requires OnCourse(input, cursor, c, count, best) && (count == 0 || c == NIL || c < WindowStart(cursor))
    ensures best == BestMatch(input, cursor)
  {
    hide BestMatch;
  }

  /** Walk a hash chain.  The result is a usable match whatever the tables hold; when they hold the
      chains, it is the greedy matcher's choice. */
  method FindMatch(input: seq<byte>, cursor: nat, first: nat, prev: seq<nat>) returns (best: Best)
    requires cursor + 3 <= |input|
    requires (if |input| < WINDOW_SIZE then |input| else WINDOW_SIZE) <= |prev|
    ensures MatchOk(input, cursor, best)
    ensures first == PrevSame(input, Hash3(input, cursor), cursor) && PrevOk(input, prev, cursor) ==>
              best == BestMatch(input, cursor)
  {
    hide Lcp, BestMatch, Hash3, ChainFrom, BestFrom, PrevSame, SameBytes;
    var maxLength, searchStart := MaxLength(input, cursor), WindowStart(cursor);
    ghost var exact := first == PrevSame(input, Hash3(input, cursor), cursor) && PrevOk(input, prev, cursor);
    CourseStarts(input, cursor);
    best := Best(0, 0);
    var chainPos: nat, chainCount: nat := first, 0;
    while chainPos != NIL && chainPos >= searchStart && chainPos < cursor && chainCount < MAX_CHAIN_LEN
      invariant chainCount <= MAX_CHAIN_LEN && MatchOk(input, cursor, best) && best.length < maxLength
      invariant exact ==> OnCourse(input, cursor, chainPos, MAX_CHAIN_LEN - chainCount, best)
      decreases MAX_CHAIN_LEN - chainCount
    {
      var candidate := chainPos;
      ghost var better := Better(input, cursor, best, candidate);
      if exact { CourseSteps(input, cursor, candidate, MAX_CHAIN_LEN - chainCount, best); }
      BetterOk(input, cursor, best, candidate);
      if best.length == 0 || (input[candidate + best.length] == input[cursor + best.length]
          && input[candidate] == input[cursor]) {
        var length := LongestCommonPrefix(input, candidate, cursor, maxLength);
        if length >= MIN_MATCH && length > best.length {
          best := Best(length, cursor - candidate);
          if length == maxLength {
            return;
          }
        }
      } else {
        SkipIsSafe(input, cursor, best, candidate);
      }
      assert best == better;
      chainPos := prev[candidate % WINDOW_SIZE];
      chainCount := chainCount + 1;
    }
    if exact { CourseEnds(input, cursor, chainPos, MAX_CHAIN_LEN - chainCount, best); }
  }

  // ----- The greedy matcher, without tables -----

  /** The token at `cursor`: the best match if there is one, else the byte itself. */
  ghost function TokenAt(input: seq<byte>, cursor: nat): Token
    requires cursor < |input|
  {
    if cursor + MIN_MATCH > |input| then Literal(input[cursor])
    else
      var best := BestMatch(input, cursor);
      if best.length >= MIN_MATCH then Pointer(best.length, best.distance) else Literal(input[cursor])
  }

  lemma {:induction false} BestMatchOk(input: seq<byte>, cursor: nat)
    requires cursor + 3 <= |input|
    ensures MatchOk(input, cursor, BestMatch(input, cursor))
  {
    hide Hash3, Lcp;
    ChainBelow(input, PrevSame(input, Hash3(input, cursor), cursor), WindowStart(cursor), MAX_CHAIN_LEN, cursor);
    BestFromOk(input, cursor, Best(0, 0), Chain(input, cursor));
  }

  lemma {:induction false} BestFromOk(input: seq<byte>, cursor: nat, best: Best, chain: seq<nat>)
    requires MatchOk(input, cursor, best)
    requires forall k :: 0 <= k < |chain| ==> WindowStart(cursor) <= chain[k] < cursor
    ensures MatchOk(input, cursor, BestFrom(input, cursor, best, chain))
    decreases |chain|
  {
    hide Lcp, MatchOk, Better;
    if chain != [] {
      BetterOk(input, cursor, best, chain[0]);
      BestFromOk(input, cursor, Better(input, cursor, best, chain[0]), chain[1..]);
    }
  }

  /** A token that reproduces the input from `cursor`. */
  ghost predicate Reproduces(input: seq<byte>, cursor: nat, t: Token) {
    Usable(t, cursor) && cursor + Size(t) <= |input| && Apply(input[..cursor], t) == input[..cursor + Size(t)]
  }

  lemma {:induction false} LiteralReproduces(input: seq<byte>, cursor: nat)
    requires cursor < |input|
    ensures Reproduces(input, cursor, Literal(input[cursor]))
  {
    assert input[..cursor + 1] == input[..cursor] + [input[cursor]];
  }

  lemma {:induction false} MatchReproduces(input: seq<byte>, cursor: nat, best: Best)
    requires MatchOk(input, cursor, best) && best.length > 0
    ensures Reproduces(input, cursor, Pointer(best.length, best.distance))
  {
    MatchCopies(input, cursor - best.distance, cursor, best.length);
  }

  lemma {:induction false} TokenReproduces(input: seq<byte>, cursor: nat)
    requires cursor < |input|
    ensures Reproduces(input, cursor, TokenAt(input, cursor))
  {
    hide BestMatch, Reproduces;
    LiteralReproduces(input, cursor);
    if cursor + MIN_MATCH <= |input| {
      BestMatchOk(input, cursor);
      if BestMatch(input, cursor).length > 0 {
        MatchReproduces(input, cursor, BestMatch(input, cursor));
      }
    }
  }

  ghost function TokensFrom(input: seq<byte>, cursor: nat): (ts: seq<Token>)
    requires cursor <= |input|
    decreases |input| - cursor
  {
    if cursor == |input| then []
    else
      TokenReproduces(input, cursor);
      [TokenAt(input, cursor)] + TokensFrom(input, cursor + Size(TokenAt(input, cursor)))
  }

  /** The tokens of `input`. */
  ghost function Tokens(input: seq<byte>): seq<Token> {
    TokensFrom(input, 0)
  }

  /** `ts` expands to the first `n` bytes of `input`. */
  ghost predicate ExpandsTo(ts: seq<Token>, input: seq<byte>, n: nat) {
    n <= |input| && Sound(ts, 0) && Expand(ts, []) == input[..n]
  }

  lemma {:induction false} ExpandsOneMore(ts: seq<Token>, input: seq<byte>, n: nat, t: Token)
    requires ExpandsTo(ts, input, n) && Reproduces(input, n, t)
    ensures ExpandsTo(ts + [t], input, n + Size(t))
  {
    var all := ts + [t];
    assert all[..|all| - 1] == ts && all[|all| - 1] == t;
  }

  /** Expanding the tokens gives the input back, and every token is well-formed where it stands. */
  lemma {:induction false} TokensExpand(input: seq<byte>)
    ensures Sound(Tokens(input), 0) && Expand(Tokens(input), []) == input
  {
    TokensExpandFrom(input, 0, []);
    assert [] + Tokens(input) == Tokens(input);
    assert input[..|input|] == input;
  }

  lemma {:induction false} TokensExpandFrom(input: seq<byte>, cursor: nat, done: seq<Token>)
    requires ExpandsTo(done, input, cursor)
    ensures ExpandsTo(done + TokensFrom(input, cursor), input, |input|)
    decreases |input| - cursor
  {
    hide TokenAt, ExpandsTo, Reproduces, TokensFrom, Size;
    ExpandsBound(done, input, cursor);
    TokensStep(input, cursor, done);
    if cursor < |input| {
      var t := TokenAt(input, cursor);
      TokenReproduces(input, cursor);
      ExpandsOneMore(done, input, cursor, t);
      TokensExpandFrom(input, cursor + Size(t), done + [t]);
    }
  }

  lemma {:induction false} TokensStep(input: seq<byte>, cursor: nat, done: seq<Token>)
    requires cursor <= |input|
    ensures cursor == |input| ==> done + TokensFrom(input, cursor) == done
    ensures cursor < |input| ==>
              var t := TokenAt(input, cursor);
              cursor < cursor + Size(t) <= |input|
              && done + TokensFrom(input, cursor) == (done + [t]) + TokensFrom(input, cursor + Size(t))
  {
    hide TokenAt, Reproduces;
    if cursor < |input| {
      TokenReproduces(input, cursor);
      ReproducesFits(input, cursor, TokenAt(input, cursor));
    }
  }

  lemma {:induction false} ExpandsBound(ts: seq<Token>, input: seq<byte>, n: nat)
    requires ExpandsTo(ts, input, n)
    ensures n <= |input|
  {}

  lemma {:induction false} ReproducesFits(input: seq<byte>, cursor: nat, t: Token)
    requires Reproduces(input, cursor, t)
    ensures cursor < cursor + Size(t) <= |input|
  {}

  // ----- The tables -----

  /** Table contents after positions below `k` are inserted: every head answers, and every `prev`
      slot still inside the window does. */
  ghost predicate TablesOk(input: seq<byte>, head: seq<nat>, prev: seq<nat>, k: nat) {
    |head| == HASH_SIZE && k + 2 <= |input| && PrevOk(input, prev, k)
    && forall h :: 0 <= h < HASH_SIZE ==> head[h] == PrevSame(input, h, k)
  }

  /** `cursor as u32` */
  function AsU32(n: nat): (r: nat)
    ensures n <= NIL ==> r == n
  {
    n % 0x1_0000_0000
  }

  lemma {:induction false} SlotInRange(input: seq<byte>, prev: seq<nat>, k: nat)
    requires (if |input| < WINDOW_SIZE then |input| else WINDOW_SIZE) <= |prev| && k < |input|
    ensures k % WINDOW_SIZE < |prev|
  {}

  lemma {:induction false} InsertOk(input: seq<byte>, head: seq<nat>, prev: seq<nat>, k: nat)
    requires TablesOk(input, head, prev, k) && k + 3 <= |input| && k < NIL && k % WINDOW_SIZE < |prev|
    ensures var h := Hash3(input, k);
            TablesOk(input, head[h := k], prev[k % WINDOW_SIZE := head[h]], k + 1)
  {
    hide Hash3, PrevOk;
    var h := Hash3(input, k);
    InsertPrev(input, prev, k, head[h]);
    var head' := head[h := k];
    forall g | 0 <= g < HASH_SIZE ensures head'[g] == PrevSame(input, g, k + 1) {}
  }

  lemma {:induction false} InsertPrev(input: seq<byte>, prev: seq<nat>, k: nat, c: nat)
    requires PrevOk(input, prev, k) && k + 3 <= |input| && k % WINDOW_SIZE < |prev|
    requires c == PrevSame(input, Hash3(input, k), k)
    ensures PrevOk(input, prev[k % WINDOW_SIZE := c], k + 1)
  {
    hide Hash3, PrevSame;
    var prev' := prev[k % WINDOW_SIZE := c];
    forall q | WindowStart(k + 1) <= q < k + 1 && q + 3 <= |input|
      ensures prev'[q % WINDOW_SIZE] == PrevSame(input, Hash3(input, q), q)
    {
      if q < k {
        SlotsDiffer(q, k);
        assert WindowStart(k) <= q;
      }
    }
  }

  /** Positions less than a window apart use different slots. */
  lemma {:induction false} SlotsDiffer(q: nat, k: nat)
    requires q < k < q + WINDOW_SIZE
    ensures q % WINDOW_SIZE != k % WINDOW_SIZE
  {}

  /** Positions below `cursor` at which three bytes remain. */
  function Inserted(input: seq<byte>, cursor: nat): (k: nat)
    requires |input| >= MIN_MATCH
    ensures k + 2 <= |input|
  {
    if cursor + 2 <= |input| then cursor else |input| - 2
  }

  class MatchFinder {
    var head: seq<nat>
    var prev: seq<nat>
    var headDirty: bool

    predicate Valid()
      reads this
    {
      (head == [] || |head| == HASH_SIZE) && (head != [] ==> headDirty)
    }

    /** Tables are large enough for `input`. */
    predicate Sized(input: seq<byte>)
      reads this
    {
      |head| == HASH_SIZE && headDirty && (if |input| < WINDOW_SIZE then |input| else WINDOW_SIZE) <= |prev|
    }

    constructor ()
      ensures Valid()
    {
      head, prev, headDirty := [], [], false;
    }

    /** Link position `pos` in front of its chain. */
    method Insert(input: seq<byte>, pos: nat)
      requires Sized(input) && pos + 3 <= |input|
      modifies this`head, this`prev
      ensures Sized(input) && |prev| == old(|prev|)
      ensures |input| < NIL && TablesOk(input, old(head), old(prev), pos) ==> TablesOk(input, head, prev, pos + 1)
    {
      hide Hash3, TablesOk;
      var h := Hash3(input, pos);
      SlotInRange(input, prev, pos);
      if |input| < NIL && TablesOk(input, head, prev, pos) {
        InsertOk(input, head, prev, pos);
      }
      prev := prev[pos % WINDOW_SIZE := head[h]];
      head := head[h := AsU32(pos)];
    }

    /** Link the positions a match covers. */
    method InsertMatch(input: seq<byte>, start: nat, end: nat)
      requires Sized(input) && |input| >= MIN_MATCH && start <= end <= |input|
      modifies this`head, this`prev
      ensures Sized(input) && |prev| == old(|prev|)
      ensures |input| < NIL && TablesOk(input, old(head), old(prev), Inserted(input, start)) ==>
                TablesOk(input, head, prev, Inserted(input, end))
    {
      hide TablesOk, Hash3;
      for p := start to end
        invariant Sized(input) && |prev| == old(|prev|)
        invariant |input| < NIL && TablesOk(input, old(head), old(prev), Inserted(input, start)) ==>
                    TablesOk(input, head, prev, Inserted(input, p))
      {
        if p + MIN_MATCH <= |input| {
          Insert(input, p);
        }
      }
    }

    /** Clear the heads a previous call left; `prev` is only grown, never cleared. */
    method Prepare(input: seq<byte>)
      requires Valid() && |input| >= MIN_MATCH
      modifies this
      ensures Sized(input) && TablesOk(input, head, prev, 0)
    {
      if head == [] {
        head := Fresh(HASH_SIZE);
      } else if headDirty {
        head := Fresh(|head|);
      }
      headDirty := true;
      var needed := if |input| < WINDOW_SIZE then |input| else WINDOW_SIZE;
      if |prev| < needed {
        prev := prev + Fresh(needed - |prev|);
      }
    }

    /** Produce the tokens of `input`.  They always expand to the input; and below 2^32 - 1 bytes they
        are exactly the greedy matcher's, so nothing an earlier call left in the tables shows. */
    method FillSymbols(input: seq<byte>) returns (symbols: seq<Token>)
      requires Valid()
      modifies this
      ensures Valid()
      ensures Sound(symbols, 0) && Expand(symbols, []) == input
      ensures |input| < NIL ==> symbols == Tokens(input)
    {
      hide TablesOk, Sound, Expand, TokensFrom, BestMatch, MatchOk, Hash3, PrevSame;
      symbols := [];
      if |input| < MIN_MATCH {
        symbols := AllLiterals(input);
        return;
      }
      Prepare(input);
      var cursor := 0;
      NothingYet(input);
      while cursor < |input|
        invariant Sized(input) && ExpandsTo(symbols, input, cursor)
        invariant |input| < NIL ==> TablesOk(input, head, prev, Inserted(input, cursor))
        invariant |input| < NIL ==> symbols + TokensFrom(input, cursor) == Tokens(input)
        decreases |input| - cursor
      {
        ghost var before := symbols;
        var token := NextToken(input, cursor);
        ExpandsOneMore(symbols, input, cursor, token);
        TokensStep(input, cursor, before);
        symbols := symbols + [token];
        cursor := cursor + Size(token);
      }
      AllDone(symbols, input);
      TokensStep(input, cursor, symbols);
    }

    /** One turn of the main loop: search, link, and emit. */
    method NextToken(input: seq<byte>, cursor: nat) returns (t: Token)
      requires Sized(input) && MIN_MATCH <= |input| && cursor < |input|
      modifies this`head, this`prev
      ensures Sized(input) && Reproduces(input, cursor, t) && cursor + Size(t) <= |input| && Size(t) >= 1
      ensures |input| < NIL && TablesOk(input, old(head), old(prev), Inserted(input, cursor)) ==>
                t == TokenAt(input, cursor) && TablesOk(input, head, prev, Inserted(input, cursor + Size(t)))
    {
      hide PrevOk, PrevSame, Hash3, BestMatch, Reproduces;
      LiteralReproduces(input, cursor);
      if cursor + MIN_MATCH > |input| {
        return Literal(input[cursor]);
      }
      var best := FindMatch(input, cursor, head[Hash3(input, cursor)], prev);
      Insert(input, cursor);
      if best.length >= MIN_MATCH {
        MatchReproduces(input, cursor, best);
        InsertMatch(input, cursor + 1, cursor + best.length);
        return Pointer(best.length, best.distance);
      }
      return Literal(input[cursor]);
    }
  }

  function Fresh(n: nat): (s: seq<nat>)
    ensures |s| == n && forall i :: 0 <= i < n ==> s[i] == NIL
  {
    seq(n, _ => NIL)
  }

  lemma {:induction false} NothingYet(input: seq<byte>)
    ensures ExpandsTo([], input, 0) && [] + TokensFrom(input, 0) == Tokens(input)
  {
    assert input[..0] == [];
  }

  lemma {:induction false} AllDone(ts: seq<Token>, input: seq<byte>)
    requires ExpandsTo(ts, input, |input|)
    ensures Sound(ts, 0) && Expand(ts, []) == input
  {
    assert input[..|input|] == input;
  }

  /** Inputs too short to match. */
  method AllLiterals(input: seq<byte>) returns (symbols: seq<Token>)
    requires |input| < MIN_MATCH
    ensures Sound(symbols, 0) && Expand(symbols, []) == input && symbols == Tokens(input)
  {
    hide Sound, Expand, TokensFrom;
    symbols := [];
    NothingYet(input);
    for cursor := 0 to |input|
      invariant ExpandsTo(symbols, input, cursor) && symbols + TokensFrom(input, cursor) == Tokens(input)
    {
      LiteralReproduces(input, cursor);
      ExpandsOneMore(symbols, input, cursor, Literal(input[cursor]));
      TokensStep(input, cursor, symbols);
      symbols := symbols + [Literal(input[cursor])];
    }
    AllDone(symbols, input);
    TokensStep(input, |input|, symbols);
  }
}
