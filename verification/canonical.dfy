/** Canonical Huffman codes, independent of any table (section 3.2.2 of RFC 1951).

    Scale every codeword to 15 bits: a codeword of width `w` then covers an interval of
    `2^(15-w)` positions.  Taken in the order (width, symbol), a canonical code lays these
    intervals end to end from 0.  Everything about prefix codes that the decoder relies on --
    unique decoding, and that short look-ahead can only underestimate a width -- is read off
    this picture. */
module Canonical {
  import opened Bits

  const MAX_BITS: nat := 15

  datatype Entry = Entry(symbol: nat, width: nat)

  // ----- The used symbols in canonical order -----

  /** Insert after every entry that is not wider: the step of a stable sort by width. */
  function Insert(es: seq<Entry>, e: Entry): (r: seq<Entry>)
    ensures |r| == |es| + 1
    ensures forall x :: x in r <==> x in es || x == e
  {
    if es == [] || es[|es| - 1].width <= e.width then
      es + [e]
    else
      var r := Insert(es[..|es| - 1], e);
      assert es == es[..|es| - 1] + [es[|es| - 1]];
      r + [es[|es| - 1]]
  }

  /** The symbols below `n` with a non-zero length, stably sorted by length. */
  function Collect(lengths: seq<nat>, n: nat): (es: seq<Entry>)
    requires n <= |lengths|
  {
    if n == 0 then []
    else if lengths[n - 1] == 0 then Collect(lengths, n - 1)
    else Insert(Collect(lengths, n - 1), Entry(n - 1, lengths[n - 1]))
  }

  function SortedEntries(lengths: seq<nat>): seq<Entry> {
    Collect(lengths, |lengths|)
  }

  ghost predicate Before(a: Entry, b: Entry) {
    a.width < b.width || (a.width == b.width && a.symbol < b.symbol)
  }

  ghost predicate Sorted(es: seq<Entry>) {
    forall i, j :: 0 <= i < j < |es| ==> Before(es[i], es[j])
  }

  lemma {:induction false} CollectMembers(lengths: seq<nat>, n: nat, e: Entry)
    requires n <= |lengths|
    ensures e in Collect(lengths, n) <==> e.symbol < n && lengths[e.symbol] == e.width > 0
  {
    if n > 0 { CollectMembers(lengths, n - 1, e); }
  }

  lemma {:induction false} InsertSorted(es: seq<Entry>, e: Entry)
    requires Sorted(es) && forall x :: x in es ==> x.symbol < e.symbol
    ensures Sorted(Insert(es, e))
  {
    if es != [] && es[|es| - 1].width > e.width {
      var front, last := es[..|es| - 1], es[|es| - 1];
      InsertSorted(front, e);
      var r := Insert(front, e);
      forall i | 0 <= i < |r| ensures Before(r[i], last) {
        assert r[i] in r;
      }
    }
  }

  lemma {:induction false} CollectSorted(lengths: seq<nat>, n: nat)
    requires n <= |lengths|
    ensures Sorted(Collect(lengths, n))
  {
    if n > 0 {
      CollectSorted(lengths, n - 1);
      if lengths[n - 1] > 0 {
        forall x | x in Collect(lengths, n - 1) ensures x.symbol < n - 1 {
          CollectMembers(lengths, n - 1, x);
        }
        InsertSorted(Collect(lengths, n - 1), Entry(n - 1, lengths[n - 1]));
      }
    }
  }

  /** Unused symbols at the end of the alphabet do not matter. */
  lemma {:induction false} CollectTrim(lengths: seq<nat>, k: nat, n: nat)
    requires k <= n <= |lengths|
    requires forall i :: k <= i < n ==> lengths[i] == 0
    ensures Collect(lengths, n) == Collect(lengths[..k], k)
  {
    if n > k {
      CollectTrim(lengths, k, n - 1);
    } else {
      CollectPrefix(lengths, lengths[..k], k);
    }
  }

  lemma {:induction false} CollectPrefix(a: seq<nat>, b: seq<nat>, n: nat)
    requires n <= |a| && n <= |b| && a[..n] == b[..n]
    ensures Collect(a, n) == Collect(b, n)
  {
    if n > 0 {
      assert a[n - 1] == a[..n][n - 1] == b[..n][n - 1] == b[n - 1];
      assert a[..n - 1] == a[..n][..n - 1] == b[..n][..n - 1] == b[..n - 1];
      CollectPrefix(a, b, n - 1);
    }
  }

  // ----- Codewords -----

  ghost predicate WidthsOk(es: seq<Entry>) {
    forall i :: 0 <= i < |es| ==> 1 <= es[i].width <= MAX_BITS
  }

  ghost predicate ByWidth(es: seq<Entry>) {
    forall i, j :: 0 <= i < j < |es| ==> es[i].width <= es[j].width
  }

  /** Where the interval of entry `i` begins; also the Kraft sum of the entries before it. */
  ghost function Start(es: seq<Entry>, i: nat): nat
    requires WidthsOk(es) && i <= |es|
  {
    if i == 0 then 0 else Start(es, i - 1) + Pow2(MAX_BITS - es[i - 1].width)
  }

  ghost function Total(es: seq<Entry>): nat
    requires WidthsOk(es)
  {
    Start(es, |es|)
  }

  /** The codeword of entry `i` as a number: count up, shifting left as widths grow. */
  ghost function CodeVal(es: seq<Entry>, i: nat): nat
    requires WidthsOk(es) && ByWidth(es) && i < |es|
  {
    if i == 0 then 0
    else Shl(CodeVal(es, i - 1) + 1, es[i].width - es[i - 1].width)
  }

  ghost function CodeBits(es: seq<Entry>, i: nat): (b: BitString)
    requires WidthsOk(es) && ByWidth(es) && i < |es|
    ensures |b| == es[i].width
  {
    MsbBits(CodeVal(es, i), es[i].width)
  }

  lemma {:induction false} StartMono(es: seq<Entry>, i: nat, j: nat)
    requires WidthsOk(es) && i <= j <= |es|
    ensures Start(es, i) <= Start(es, j)
    ensures i < j ==> Start(es, i) + Pow2(MAX_BITS - es[i].width) <= Start(es, j)
    decreases j
  {
    if i < j {
      StartMono(es, i, j - 1);
    }
  }

  lemma {:induction false} StartPrefix(a: seq<Entry>, b: seq<Entry>, n: nat)
    requires WidthsOk(a) && WidthsOk(b) && n <= |a| && n <= |b| && a[..n] == b[..n]
    ensures Start(a, n) == Start(b, n)
  {
    if n > 0 {
      assert a[n - 1] == a[..n][n - 1] == b[..n][n - 1] == b[n - 1];
      assert a[..n - 1] == a[..n][..n - 1] == b[..n][..n - 1] == b[..n - 1];
      StartPrefix(a, b, n - 1);
    }
  }

  lemma {:induction false} TotalInsert(es: seq<Entry>, e: Entry)
    requires WidthsOk(es) && 1 <= e.width <= MAX_BITS
    ensures WidthsOk(Insert(es, e)) && Total(Insert(es, e)) == Total(es) + Pow2(MAX_BITS - e.width)
  {
    hide Pow2;
    var r := Insert(es, e);
    forall i | 0 <= i < |r| ensures 1 <= r[i].width <= MAX_BITS { assert r[i] in r; }
    if es == [] || es[|es| - 1].width <= e.width {
      StartPrefix(es, r, |es|);
    } else {
      var front := es[..|es| - 1];
      TotalInsert(front, e);
      StartPrefix(front, es, |front|);
      StartPrefix(Insert(front, e), r, |es|);
    }
  }

  /** The Kraft sum of the first `n` lengths, in units of 2^-15. */
  ghost function Kraft(lengths: seq<nat>, n: nat): nat
    requires n <= |lengths| && forall i :: 0 <= i < |lengths| ==> lengths[i] <= MAX_BITS
  {
    if n == 0 then 0
    else Kraft(lengths, n - 1) + if lengths[n - 1] == 0 then 0 else Pow2(MAX_BITS - lengths[n - 1])
  }

  lemma {:induction false} TotalIsKraft(lengths: seq<nat>, n: nat)
    requires n <= |lengths| && forall i :: 0 <= i < |lengths| ==> lengths[i] <= MAX_BITS
    ensures WidthsOk(Collect(lengths, n)) && Total(Collect(lengths, n)) == Kraft(lengths, n)
  {
    if n > 0 {
      TotalIsKraft(lengths, n - 1);
      if lengths[n - 1] > 0 {
        TotalInsert(Collect(lengths, n - 1), Entry(n - 1, lengths[n - 1]));
      }
    }
  }

  /** A codeword is its interval's start, cut to its width. */
  lemma {:induction false} StartIsCode(es: seq<Entry>, i: nat)
    requires WidthsOk(es) && ByWidth(es) && i < |es|
    ensures Start(es, i) == CodeVal(es, i) * Pow2(MAX_BITS - es[i].width)
  {
    if i > 0 {
      StartIsCode(es, i - 1);
      var c, d, r := CodeVal(es, i - 1) + 1, es[i].width - es[i - 1].width, MAX_BITS - es[i].width;
      Pow2Add(d, r);
      MulAssoc(c, Pow2(d), Pow2(r));
      MulDistributes(CodeVal(es, i - 1), 1, Pow2(d + r));
    }
  }

  lemma {:induction false} CodeFits(es: seq<Entry>, i: nat)
    requires WidthsOk(es) && ByWidth(es) && i < |es|
    ensures CodeVal(es, i) < Pow2(es[i].width) <==> Start(es, i) < Pow2(MAX_BITS)
    ensures CodeVal(es, i) < Pow2(es[i].width) ==> Start(es, i + 1) <= Pow2(MAX_BITS)
  {
    hide CodeVal, Pow2;
    StartIsCode(es, i);
    var c, w, q := CodeVal(es, i), Pow2(es[i].width), Pow2(MAX_BITS - es[i].width);
    Pow2Add(es[i].width, MAX_BITS - es[i].width);
    if c < w {
      MulMono(q, c + 1, w);
      MulDistributes(c, 1, q);
    } else {
      MulMono(q, w, c);
    }
  }

  lemma {:induction false} MulMono(k: nat, x: nat, y: nat)
    requires x <= y
    ensures k * x <= k * y && x * k <= y * k
  {}

  // ----- Positions -----

  /** The position of the first 15-bit string that starts with `b`. */
  ghost function Pos(b: BitString): nat
    requires |b| <= MAX_BITS
  {
    Shl(MsbVal(b), MAX_BITS - |b|)
  }

  lemma {:induction false} PosExtends(a: BitString, r: BitString)
    requires |a| + |r| <= MAX_BITS
    ensures Pos(a) <= Pos(a + r) < Pos(a) + Pow2(MAX_BITS - |a|)
  {
    MsbValConcat(a, r);
    ShlSum(MsbVal(a), |r|, MAX_BITS - |a| - |r|, MsbVal(r));
  }

  lemma {:induction false} ShlSum(v: nat, k: nat, rest: nat, m: nat)
    requires m < Pow2(k)
    ensures Shl(v, k + rest) <= Shl(v * Pow2(k) + m, rest) < Shl(v, k + rest) + Pow2(k + rest)
  {
    Pow2Add(k, rest);
    ScaledSum(v, Pow2(k), Pow2(rest), m);
  }

  lemma {:induction false} ScaledSum(v: nat, q: nat, t: nat, m: nat)
    requires m < q && t > 0
    ensures v * (q * t) <= (v * q + m) * t < v * (q * t) + q * t
  {
    MulDistributes(v * q, m, t);
    MulAssoc(v, q, t);
    MulMono(t, m + 1, q);
    MulDistributes(m, 1, t);
  }

  lemma {:induction false} SameCell(c: nat, a: nat, q: nat, x: nat)
    requires q > 0 && a * q <= x < a * q + q
    ensures a == c <==> c * q <= x < c * q + q
  {
    if a < c {
      MulMono(q, a + 1, c);
      MulDistributes(a, 1, q);
    } else if a > c {
      MulMono(q, c + 1, a);
      MulDistributes(c, 1, q);
    }
  }

  /** `b` starts with codeword `i` exactly when its position is inside interval `i`. */
  lemma {:induction false} PrefixIffInterval(es: seq<Entry>, i: nat, b: BitString)
    requires WidthsOk(es) && ByWidth(es) && i < |es| && Total(es) <= Pow2(MAX_BITS)
    requires es[i].width <= |b| <= MAX_BITS
    ensures CodeBits(es, i) <= b <==> Start(es, i) <= Pos(b) < Start(es, i + 1)
  {
    StartMono(es, i, |es|);
    PrefixInCell(es, i, b);
  }

  lemma {:induction false} PrefixInCell(es: seq<Entry>, i: nat, b: BitString)
    requires WidthsOk(es) && ByWidth(es) && i < |es| && Start(es, i) < Pow2(MAX_BITS)
    requires es[i].width <= |b| <= MAX_BITS
    ensures CodeBits(es, i) <= b <==> Start(es, i) <= Pos(b) < Start(es, i + 1)
  {
    hide MsbVal, MsbBits, CodeVal, Pow2;
    var w := es[i].width;
    var a, r := b[..w], b[w..];
    assert b == a + r;
    PosExtends(a, r);
    StartIsCode(es, i);
    CodeFits(es, i);
    var c := CodeVal(es, i);
    SameCell(c, MsbVal(a), Pow2(MAX_BITS - w), Pos(b));
    MsbValBits(c, w);
    MsbBitsVal(a);
    assert CodeBits(es, i) <= b <==> CodeBits(es, i) == a;
  }

  /** The entry whose interval holds `x`, searching below `n`. */
  ghost function Find(es: seq<Entry>, x: nat, n: nat): (i: nat)
    requires WidthsOk(es) && n <= |es| && x < Start(es, n)
    ensures i < n && Start(es, i) <= x < Start(es, i + 1)
  {
    if Start(es, n - 1) <= x then n - 1 else Find(es, x, n - 1)
  }

  lemma {:induction false} FindUnique(es: seq<Entry>, x: nat, i: nat)
    requires WidthsOk(es) && i < |es| && Start(es, i) <= x < Start(es, i + 1)
    ensures x < Total(es) && Find(es, x, |es|) == i
  {
    StartMono(es, i + 1, |es|);
    var j := Find(es, x, |es|);
    if j < i { StartMono(es, j + 1, i); }
    if i < j { StartMono(es, i + 1, j); }
  }

  // ----- Decoding by look-ahead -----

  /** An accepted code: canonical order, Kraft sum at most one, and the first look-ahead width. */
  datatype RawCode = RawCode(entries: seq<Entry>, peek: nat)

  ghost predicate CodeOk(c: RawCode) {
    WidthsOk(c.entries) && Sorted(c.entries) && ByWidth(c.entries)
    && Total(c.entries) <= Pow2(MAX_BITS) && 1 <= c.peek <= MAX_BITS
  }

  type Code = c: RawCode | CodeOk(c) ghost witness EmptyCode()

  ghost function EmptyCode(): (c: RawCode)
    ensures CodeOk(c)
  {
    Pow2Values();
    RawCode([], 1)
  }

  datatype Decoded = Symbol(symbol: nat, width: nat) | NeedBits | BadCode

  /** Look ahead `p` bits; if the codeword there is wider, look ahead that far instead. */
  ghost function PeekDecode(code: Code, p: nat, s: BitString, pos: nat): (d: Decoded)
    requires pos <= |s| && 1 <= p <= MAX_BITS
    ensures d.Symbol? ==> 1 <= d.width <= MAX_BITS && pos + d.width <= |s|
    decreases MAX_BITS - p
  {
    if pos + p > |s| then NeedBits
    else
      var x := Pos(s[pos..pos + p]);
      if x >= Total(code.entries) then BadCode
      else
        var e := code.entries[Find(code.entries, x, |code.entries|)];
        if e.width <= p then Symbol(e.symbol, e.width)
        else PeekDecode(code, e.width, s, pos)
  }

  ghost function Decode(code: Code, s: BitString, pos: nat): (d: Decoded)
    requires pos <= |s|
    ensures d.Symbol? ==> 1 <= d.width <= MAX_BITS && pos + d.width <= |s|
  {
    PeekDecode(code, code.peek, s, pos)
  }

  /** Codeword `i` of the code starts the remaining bits. */
  ghost predicate Starts(code: Code, i: nat, s: BitString, pos: nat) {
    i < |code.entries| && At(s, pos, CodeBits(code.entries, i))
  }

  /** Reading `p` bits where a codeword of at most `p` bits starts lands on it. */
  lemma {:induction false} PeekFits(code: Code, p: nat, s: BitString, pos: nat, i: nat)
    requires p <= MAX_BITS && pos + p <= |s| && Starts(code, i, s, pos) && code.entries[i].width <= p
    ensures Pos(s[pos..pos + p]) < Total(code.entries)
    ensures Find(code.entries, Pos(s[pos..pos + p]), |code.entries|) == i
  {
    hide Pos, MsbVal, MsbBits, CodeVal, Pow2, Start, Shl;
    var w, b := code.entries[i].width, s[pos..pos + p];
    assert s[pos..pos + w] == b[..w];
    PrefixIffInterval(code.entries, i, b);
    FindUnique(code.entries, Pos(b), i);
  }

  /** When the codeword is wider, the look-ahead lands on an entry that is itself wider than the
      look-ahead, but no wider than the codeword. */
  lemma {:induction false} PeekShort(es: seq<Entry>, b: BitString, r: BitString, i: nat)
    requires WidthsOk(es) && ByWidth(es) && Total(es) <= Pow2(MAX_BITS)
    requires i < |es| && CodeBits(es, i) == b + r && r != []
    ensures Pos(b) < Total(es) && |b| < es[Find(es, Pos(b), |es|)].width <= es[i].width
  {
    hide Pos, MsbVal, MsbBits, CodeVal, Pow2, Start, Find, Shl;
    var c := CodeBits(es, i);
    PosExtends(b, r);
    PrefixIffInterval(es, i, c);
    StartMono(es, i + 1, |es|);
    var j := Find(es, Pos(b), |es|);
    if i < j { StartMono(es, i + 1, j); }
    if es[j].width <= |b| {
      PrefixIffInterval(es, j, b);
      assert CodeBits(es, j) <= c;
      PrefixIffInterval(es, j, c);
      FindUnique(es, Pos(c), j);
      FindUnique(es, Pos(c), i);
    }
  }

  /** Look-ahead decoding finds the codeword that is there, asking for no more than
      max(look-ahead, width) bits. */
  lemma {:induction false} PeekComplete(code: Code, p: nat, s: BitString, pos: nat, i: nat)
    requires 1 <= p <= MAX_BITS && Starts(code, i, s, pos)
    requires pos + p <= |s|
    ensures PeekDecode(code, p, s, pos) == Symbol(code.entries[i].symbol, code.entries[i].width)
    decreases MAX_BITS - p
  {
    hide Pos, MsbVal, MsbBits, CodeVal, Pow2, Start, Find, Shl;
    var w := code.entries[i].width;
    if w <= p {
      PeekFits(code, p, s, pos, i);
    } else {
      var b, c := s[pos..pos + p], CodeBits(code.entries, i);
      assert c[..p] == s[pos..pos + w][..p] == b;
      assert c == b + c[p..];
      PeekShort(code.entries, b, c[p..], i);
      PeekComplete(code, code.entries[Find(code.entries, Pos(b), |code.entries|)].width, s, pos, i);
    }
  }

  /** What it finds is there, and no accepted look-ahead was shorter than `p`. */
  lemma {:induction false} PeekSound(code: Code, p: nat, s: BitString, pos: nat) returns (i: nat)
    requires pos <= |s| && 1 <= p <= MAX_BITS && PeekDecode(code, p, s, pos).Symbol?
    ensures pos + p <= |s| && Starts(code, i, s, pos)
    ensures PeekDecode(code, p, s, pos) == Symbol(code.entries[i].symbol, code.entries[i].width)
    decreases MAX_BITS - p
  {
    hide Pos, MsbVal, MsbBits, CodeVal, Pow2, Start, Find, Shl;
    var b := s[pos..pos + p];
    i := Find(code.entries, Pos(b), |code.entries|);
    if code.entries[i].width <= p {
      PrefixIffInterval(code.entries, i, b);
      assert s[pos..pos + code.entries[i].width] == b[..code.entries[i].width];
    } else {
      i := PeekSound(code, code.entries[i].width, s, pos);
    }
  }

  lemma {:induction false} DecodeSound(code: Code, s: BitString, pos: nat) returns (i: nat)
    requires pos <= |s| && Decode(code, s, pos).Symbol?
    ensures pos + code.peek <= |s| && Starts(code, i, s, pos)
    ensures Decode(code, s, pos) == Symbol(code.entries[i].symbol, code.entries[i].width)
  {
    i := PeekSound(code, code.peek, s, pos);
  }

  lemma {:induction false} SliceStable(s: BitString, t: BitString, pos: nat, n: nat)
    requires s <= t && pos + n <= |s|
    ensures pos + n <= |t| && s[pos..pos + n] == t[pos..pos + n]
  {}

  /** More input never changes an answer. */
  lemma {:induction false} PeekStable(code: Code, p: nat, s: BitString, t: BitString, pos: nat)
    requires pos <= |s| && 1 <= p <= MAX_BITS && s <= t
    requires PeekDecode(code, p, s, pos) != NeedBits
    ensures PeekDecode(code, p, t, pos) == PeekDecode(code, p, s, pos)
    decreases MAX_BITS - p
  {
    hide Pos, Pow2, Start, Find;
    SliceStable(s, t, pos, p);
    var x := Pos(s[pos..pos + p]);
    if x < Total(code.entries) {
      var e := code.entries[Find(code.entries, x, |code.entries|)];
      if e.width > p {
        PeekStable(code, e.width, s, t, pos);
      }
    }
  }

  /** The whole contract of short look-ahead decoding, for every accepted code, incomplete ones
      included: it answers with a symbol exactly when that symbol's codeword is next and
      max(look-ahead, width) bits are present; it rejects only when no continuation of the input
      could start with a codeword; and it asks for more only when every codeword that could still
      come needs them. */
  lemma {:induction false} ShortPeekDecode(code: Code, s: BitString, pos: nat)
    requires pos <= |s|
    ensures forall i: nat :: Starts(code, i, s, pos) && pos + code.peek <= |s|
              ==> Decode(code, s, pos) == Symbol(code.entries[i].symbol, code.entries[i].width)
    ensures Decode(code, s, pos).Symbol? ==> pos + code.peek <= |s|
    ensures Decode(code, s, pos).Symbol? ==>
              (exists i: nat :: Starts(code, i, s, pos)
                           && Decode(code, s, pos) == Symbol(code.entries[i].symbol, code.entries[i].width))
    ensures Decode(code, s, pos).BadCode? ==> (forall t, i: nat :: s <= t ==> !Starts(code, i, t, pos))
    ensures Decode(code, s, pos).NeedBits? ==>
              (forall t, i: nat :: s <= t && Starts(code, i, t, pos)
                                   ==> |s| < pos + code.peek || |s| < pos + code.entries[i].width)
  {
    forall i: nat | Starts(code, i, s, pos) && pos + code.peek <= |s|
      ensures Decode(code, s, pos) == Symbol(code.entries[i].symbol, code.entries[i].width)
    {
      PeekComplete(code, code.peek, s, pos, i);
    }
    match Decode(code, s, pos) {
      case Symbol(_, _) => var i := PeekSound(code, code.peek, s, pos);
      case BadCode => forall t, i: nat | s <= t { PeekRejects(code, s, t, pos, i); }
      case NeedBits => forall t, i: nat | s <= t && Starts(code, i, t, pos) { PeekWaits(code, s, t, pos, i); }
    }
  }

  lemma {:induction false} PeekRejects(code: Code, s: BitString, t: BitString, pos: nat, i: nat)
    requires pos <= |s| && s <= t && Decode(code, s, pos).BadCode?
    ensures !Starts(code, i, t, pos)
  {
    PeekStable(code, code.peek, s, t, pos);
    if Starts(code, i, t, pos) {
      PeekComplete(code, code.peek, t, pos, i);
    }
  }

  lemma {:induction false} PeekWaits(code: Code, s: BitString, t: BitString, pos: nat, i: nat)
    requires pos <= |s| && s <= t && Decode(code, s, pos).NeedBits? && Starts(code, i, t, pos)
    ensures |s| < pos + code.peek || |s| < pos + code.entries[i].width
  {
    var w := code.entries[i].width;
    if pos + code.peek <= |s| && pos + w <= |s| {
      assert s[pos..pos + w] == t[pos..pos + w];
      assert Starts(code, i, s, pos);
      PeekComplete(code, code.peek, s, pos, i);
    }
  }

  /** At most one codeword starts the remaining bits. */
  lemma {:induction false} PrefixFree(code: Code, s: BitString, pos: nat, i: nat, j: nat)
    requires Starts(code, i, s, pos) && Starts(code, j, s, pos)
    ensures i == j
  {
    hide Pow2, Start, CodeBits, Find, Pos;
    var es := code.entries;
    var w := if es[i].width >= es[j].width then es[i].width else es[j].width;
    var b := s[pos..pos + w];
    AtWithin(s, pos, CodeBits(es, i), w);
    AtWithin(s, pos, CodeBits(es, j), w);
    PrefixIffInterval(es, i, b);
    PrefixIffInterval(es, j, b);
    FindUnique(es, Pos(b), i);
    FindUnique(es, Pos(b), j);
  }
}
