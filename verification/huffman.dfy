/** Huffman tables (src/huffman.rs): the flat decoding table with short look-ahead, and the
    encoder's codeword list, both proved against the canonical code they are built from. */
module Huffman {
  import opened Bits
  import opened BitIo
  import opened Errors
  import opened Canonical

  /** Move the low `width` bits of `bits` over one by one, reversing their order. */
  method ReverseBits(bits: nat, width: nat) returns (to: nat)
    ensures to < Pow2(width) && ToBits(to, width) == MsbBits(bits, width)
  {
    var from := bits;
    to := 0;
    for k := 0 to width
      invariant from == Shifted(bits, k) && to == FromBits(MsbBits(bits, k))
    {
      MsbBitsGrow(bits, k);
      assert MsbBits(bits, k + 1)[1..] == MsbBits(bits, k);
      OrDisjoint(from % 2, to, 1);
      to := Or(Shl(to, 1), from % 2);
      from := from / 2;
      ShiftedStep(bits, k);
    }
    ToFromBits(MsbBits(bits, width));
  }

  ghost function Shifted(v: nat, k: nat): nat {
    if k == 0 then v else Shifted(v / 2, k - 1)
  }

  lemma {:induction false} ShiftedStep(v: nat, k: nat)
    ensures Shifted(v, k + 1) == Shifted(v, k) / 2
  {
    if k > 0 { ShiftedStep(v / 2, k - 1); }
  }

  lemma {:induction false} MsbBitsGrow(v: nat, k: nat)
    ensures MsbBits(v, k + 1) == [Shifted(v, k) % 2 == 1] + MsbBits(v, k)
  {
    if k > 0 {
      MsbBitsGrow(v / 2, k - 1);
      assert MsbBits(v, k + 1) == MsbBits(v / 2, k) + [v % 2 == 1];
    }
  }

  // ----- Which codes are accepted -----

  function GetOr(o: Option<nat>, d: nat): nat {
    match o case None => d case Some(v) => v
  }

  function Min(a: int, b: int): int {
    if a <= b then a else b
  }

  /** The first look-ahead: the end-of-block width if there is such a codeword, else the caller's
      choice, else the longest width; never above the longest width. */
  function SafePeek(es: seq<Entry>, peek: Option<nat>, eob: Option<nat>): (p: nat)
    requires es != []
  {
    var maxBits := es[|es| - 1].width;
    Min(maxBits, Max(1, PeekAfter(es, |es|, GetOr(peek, maxBits), eob)))
  }

  function PeekAfter(es: seq<Entry>, n: nat, initial: nat, eob: Option<nat>): nat
    requires n <= |es|
  {
    if n == 0 then initial
    else if eob == Some(es[n - 1].symbol) then es[n - 1].width
    else PeekAfter(es, n - 1, initial, eob)
  }

  /** The code of a vector of code lengths: some length is non-zero, none exceeds 15 bits, and
      the Kraft sum is at most one.  Incomplete codes are accepted. */
  ghost predicate Acceptable(lengths: seq<nat>) {
    var es := SortedEntries(lengths);
    es != [] && WidthsOk(es) && Total(es) <= Pow2(MAX_BITS)
  }

  /** Acceptance read off the lengths themselves. */
  lemma {:induction false} AcceptableIff(lengths: seq<nat>)
    ensures Acceptable(lengths) <==>
              (exists s :: 0 <= s < |lengths| && lengths[s] > 0)
              && (forall s :: 0 <= s < |lengths| ==> lengths[s] <= MAX_BITS)
              && Kraft(lengths, |lengths|) <= Pow2(MAX_BITS)
  {
    var es := SortedEntries(lengths);
    EntriesShape(lengths);
    forall s | 0 <= s < |lengths| && lengths[s] > 0 ensures Entry(s, lengths[s]) in es {
      CollectMembers(lengths, |lengths|, Entry(s, lengths[s]));
    }
    if es != [] {
      assert lengths[es[0].symbol] > 0;
    }
    if WidthsOk(es) {
      forall s | 0 <= s < |lengths| ensures lengths[s] <= MAX_BITS {
        assert lengths[s] == 0 || Entry(s, lengths[s]) in es;
      }
    }
    if forall s :: 0 <= s < |lengths| ==> lengths[s] <= MAX_BITS {
      TotalIsKraft(lengths, |lengths|);
    }
  }

  lemma {:induction false} EntriesShape(lengths: seq<nat>)
    ensures Sorted(SortedEntries(lengths)) && ByWidth(SortedEntries(lengths))
    ensures forall i :: 0 <= i < |SortedEntries(lengths)| ==>
              var e := SortedEntries(lengths)[i];
              1 <= e.width && e.symbol < |lengths| && lengths[e.symbol] == e.width
  {
    CollectSorted(lengths, |lengths|);
    var es := SortedEntries(lengths);
    forall i | 0 <= i < |es|
      ensures 1 <= es[i].width && es[i].symbol < |lengths| && lengths[es[i].symbol] == es[i].width
    {
      CollectMembers(lengths, |lengths|, es[i]);
    }
    assert forall i, j :: 0 <= i < j < |es| ==> Before(es[i], es[j]);
  }

  ghost function MakeCode(lengths: seq<nat>, peek: Option<nat>, eob: Option<nat>): (c: Option<Code>)
    ensures c.Some? <==> Acceptable(lengths)
  {
    EntriesShape(lengths);
    var es := SortedEntries(lengths);
    if Acceptable(lengths) then
      assert CodeOk(RawCode(es, SafePeek(es, peek, eob)));
      Some(RawCode(es, SafePeek(es, peek, eob)))
    else None
  }

  lemma {:induction false} PeekAfterNone(es: seq<Entry>, n: nat, initial: nat)
    requires n <= |es|
    ensures PeekAfter(es, n, initial, None) == initial
  {
    if n > 0 { PeekAfterNone(es, n - 1, initial); }
  }

  lemma {:induction false} PeekAfterEob(es: seq<Entry>, n: nat, initial: nat, eob: nat, i: nat)
    requires i < n <= |es| && es[i].symbol == eob
    requires forall j :: i < j < n ==> es[j].symbol != eob
    ensures PeekAfter(es, n, initial, Some(eob)) == es[i].width
  {
    if i < n - 1 { PeekAfterEob(es, n - 1, initial, eob, i); }
  }

  /** Without an end-of-block symbol the look-ahead is the requested one, capped by the longest width ... */
  lemma {:induction false} PeekAsAsked(lengths: seq<nat>, peek: nat)
    requires Acceptable(lengths)
    ensures 1 <= MakeCode(lengths, Some(peek), None).value.peek <= Max(1, peek)
  {
    var es := SortedEntries(lengths);
    PeekAfterNone(es, |es|, GetOr(Some(peek), es[|es| - 1].width));
  }

  /** ... and with one, it is exactly the end-of-block width. */
  lemma {:induction false} PeekIsEobWidth(lengths: seq<nat>, peek: Option<nat>, eob: nat)
    requires Acceptable(lengths)
    ensures var c := MakeCode(lengths, peek, Some(eob)).value;
            forall i :: 0 <= i < |c.entries| && c.entries[i].symbol == eob ==> c.entries[i].width == c.peek
  {
    var es := SortedEntries(lengths);
    EntriesShape(lengths);
    forall i | 0 <= i < |es| && es[i].symbol == eob
      ensures es[i].width == SafePeek(es, peek, Some(eob))
    {
      forall j | i < j < |es| ensures es[j].symbol != eob {
        assert Before(es[i], es[j]);
      }
      PeekAfterEob(es, |es|, GetOr(peek, es[|es| - 1].width), eob, i);
    }
  }

  // ----- The decoding table -----

  const EMPTY_SLOT: nat := 0xFFFF

  /** `(symbol << 5) | width`; 16 bits as long as symbols stay below 2047. */
  function Pack(e: Entry): nat {
    Or(Shl(e.symbol, 5), e.width)
  }

  lemma {:induction false} PackParts(e: Entry)
    requires e.width < 32 && e.symbol < 2047
    ensures Pack(e) == 32 * e.symbol + e.width < EMPTY_SLOT
    ensures Mask(Pack(e), 5) == e.width && Shr(Pack(e), 5) == e.symbol
  {
    Pow2Values();
    OrDisjoint(e.width, e.symbol, 5);
    DivModUnique(Pack(e), 32, e.symbol, e.width);
  }

  lemma {:induction false} EmptyParts()
    ensures Mask(EMPTY_SLOT, 5) == 31
  {
    Pow2Values();
  }

  /** What a slot whose index bits are `b` holds once the first `n` entries are in. */
  ghost function Slot(es: seq<Entry>, n: nat, b: BitString): nat
    requires WidthsOk(es) && n <= |es| && |b| <= MAX_BITS
  {
    if Pos(b) < Start(es, n) then Pack(es[Find(es, Pos(b), n)]) else EMPTY_SLOT
  }

  ghost predicate Filled(table: seq<nat>, es: seq<Entry>, n: nat, m: nat) {
    WidthsOk(es) && n <= |es| && m <= MAX_BITS && |table| == Pow2(m)
    && forall k :: 0 <= k < |table| ==> table[k] == Slot(es, n, ToBits(k, m))
  }

  datatype HuffmanDecoder = HuffmanDecoder(table: seq<nat>, safelyPeekBits: nat, maxBits: nat)

  ghost predicate Implements(d: HuffmanDecoder, c: Code) {
    Filled(d.table, c.entries, |c.entries|, d.maxBits)
    && d.safelyPeekBits == c.peek <= d.maxBits
    && (forall i :: 0 <= i < |c.entries| ==> c.entries[i].width <= d.maxBits && c.entries[i].symbol < 2047)
  }

  /** Index `padding << w | reversed` spells the codeword followed by the padding. */
  lemma {:induction false} SlotIndex(es: seq<Entry>, i: nat, m: nat, reversed: nat, padding: nat)
    requires WidthsOk(es) && ByWidth(es) && i < |es| && es[i].width <= m <= MAX_BITS
    requires reversed < Pow2(es[i].width) && ToBits(reversed, es[i].width) == CodeBits(es, i)
    requires padding < Pow2(m - es[i].width)
    ensures var k := Or(Shl(padding, es[i].width), reversed);
            k < Pow2(m) && CodeBits(es, i) <= ToBits(k, m)
            && Mask(k, es[i].width) == reversed && Shr(k, es[i].width) == padding
  {
    hide Or, ToBits, Pow2, CodeBits, FromBits;
    var w := es[i].width;
    var k := Or(Shl(padding, w), reversed);
    OrDisjoint(reversed, padding, w);
    FieldBound(reversed, w, padding, m - w);
    ToBitsConcat(reversed, w, padding, m - w);
    assert ToBits(k, m) == CodeBits(es, i) + ToBits(padding, m - w) by {
      assert k == reversed + Pow2(w) * padding && m == w + (m - w);
    }
    DivModUnique(k, Pow2(w), padding, reversed);
  }

  /** Conversely, the slots that spell the codeword are the ones with those low bits. */
  lemma {:induction false} SlotOfIndex(es: seq<Entry>, i: nat, m: nat, reversed: nat, k: nat)
    requires WidthsOk(es) && ByWidth(es) && i < |es| && es[i].width <= m <= MAX_BITS
    requires reversed < Pow2(es[i].width) && ToBits(reversed, es[i].width) == CodeBits(es, i)
    requires k < Pow2(m)
    ensures Shr(k, es[i].width) < Pow2(m - es[i].width)
    ensures CodeBits(es, i) <= ToBits(k, m) ==> k == Or(Shl(Shr(k, es[i].width), es[i].width), reversed)
  {
    var w := es[i].width;
    var lo, hi := Mask(k, w), Shr(k, w);
    ToBitsSplit(k, w, m - w);
    ShrBound(k, w, m - w);
    if CodeBits(es, i) <= ToBits(k, m) {
      assert ToBits(lo, w) == ToBits(k, m)[..w] == CodeBits(es, i);
      FromToBits(lo, w);
      FromToBits(reversed, w);
      OrDisjoint(reversed, hi, w);
      DivMod(k, Pow2(w));
    }
  }

  /** Table contents while entry `i` is being spread: paddings below `done` are in. */
  ghost predicate PartlyFilled(table: seq<nat>, es: seq<Entry>, i: nat, m: nat, done: nat) {
    WidthsOk(es) && ByWidth(es)
    && i < |es| && es[i].width <= m <= MAX_BITS && |table| == Pow2(m)
    && forall k :: 0 <= k < |table| ==>
         table[k] == if CodeBits(es, i) <= ToBits(k, m) && Shr(k, es[i].width) < done then Pack(es[i])
                     else Slot(es, i, ToBits(k, m))
  }

  lemma {:induction false} SpreadDone(table: seq<nat>, es: seq<Entry>, i: nat, m: nat, done: nat)
    requires PartlyFilled(table, es, i, m, done) && done == Pow2(m - es[i].width)
    requires Start(es, i) < Pow2(MAX_BITS)
    ensures Filled(table, es, i + 1, m)
  {
    hide CodeBits, Pos, ToBits, Pow2, Pack;
    forall k | 0 <= k < |table| ensures table[k] == Slot(es, i + 1, ToBits(k, m)) {
      var b := ToBits(k, m);
      PrefixInCell(es, i, b);
      ShrBound(k, es[i].width, m - es[i].width);
    }
  }

  /** Slots of a codeword beyond the ones already placed are still empty ... */
  lemma {:induction false} SlotFree(es: seq<Entry>, i: nat, b: BitString)
    requires WidthsOk(es) && ByWidth(es) && i < |es| && Start(es, i) < Pow2(MAX_BITS)
    requires es[i].width <= |b| <= MAX_BITS && CodeBits(es, i) <= b
    ensures Slot(es, i, b) == EMPTY_SLOT
  {
    PrefixInCell(es, i, b);
  }

  /** ... and once the intervals fill all 15-bit positions, the next codeword wraps to zero and
      meets the very first slot. */
  lemma {:induction false} SlotTaken(es: seq<Entry>, i: nat, m: nat)
    requires WidthsOk(es) && ByWidth(es) && i < |es| && es[i].width <= m <= MAX_BITS
    requires Start(es, i) == Pow2(MAX_BITS) && forall j :: 0 <= j < |es| ==> es[j].symbol < 2047
    ensures CodeBits(es, i) == ToBits(0, es[i].width)
    ensures Slot(es, i, ToBits(0, m)) != EMPTY_SLOT
  {
    hide MsbVal, MsbBits, Pack, ToBits, Find;
    var w := es[i].width;
    StartIsCode(es, i);
    Pow2Add(w, MAX_BITS - w);
    var q := Pow2(MAX_BITS - w);
    MulCancel(CodeVal(es, i), Pow2(w), q);
    MsbZero(w);
    MsbValZero(m);
    assert Pos(ToBits(0, m)) == 0 by { assert Shl(0, MAX_BITS - m) == 0; }
    PackParts(es[Find(es, 0, i)]);
  }

  lemma {:induction false} MulCancel(a: nat, b: nat, q: nat)
    requires q > 0 && a * q == b * q
    ensures a == b
  {}

  lemma {:induction false} MsbZero(w: nat)
    ensures MsbBits(Pow2(w), w) == ToBits(0, w) == MsbBits(0, w)
  {
    if w > 0 {
      MsbZero(w - 1);
      ZerosSnoc(w - 1);
    }
  }

  lemma {:induction false} ZerosSnoc(w: nat)
    ensures ToBits(0, w) + [false] == ToBits(0, w + 1)
  {
    if w > 0 { ZerosSnoc(w - 1); }
  }

  lemma {:induction false} MsbValZero(m: nat)
    ensures MsbVal(ToBits(0, m)) == 0
  {
    MsbZero(m);
    MsbValBits(0, m);
  }

  /** Write one codeword into every slot whose index it is a low-order prefix of; a slot that is
      already taken is a conflict. */
  method SpreadCodeword(table: seq<nat>, es: seq<Entry>, i: nat, m: nat, code: nat)
    returns (t: seq<nat>, conflict: bool)
    requires PartlyFilled(table, es, i, m, 0) && code == CodeVal(es, i)
    requires Start(es, i) <= Pow2(MAX_BITS) && forall j :: 0 <= j < |es| ==> es[j].symbol < 2047
    ensures conflict <==> Start(es, i) == Pow2(MAX_BITS)
    ensures !conflict ==> Filled(t, es, i + 1, m)
  {
    var w := es[i].width;
    var reversed := ReverseBits(code, w);
    var value := Pack(es[i]);
    var fillCount := Pow2(m - w);
    t := table;
    for padding := 0 to fillCount
      invariant PartlyFilled(t, es, i, m, padding)
      invariant padding > 0 ==> Start(es, i) < Pow2(MAX_BITS)
    {
      var index := Or(Shl(padding, w), reversed);
      SlotIndex(es, i, m, reversed, padding);
      if Start(es, i) < Pow2(MAX_BITS) {
        SlotFree(es, i, ToBits(index, m));
      } else {
        SlotTaken(es, i, m);
        FirstSlot(reversed, w);
      }
      if t[index] != EMPTY_SLOT {
        return t, true;
      }
      PlaceSlot(t, es, i, m, reversed, padding);
      t := t[index := value];
    }
    SpreadDone(t, es, i, m, fillCount);
    return t, false;
  }

  lemma {:induction false} FirstSlot(reversed: nat, w: nat)
    requires reversed < Pow2(w) && ToBits(reversed, w) == ToBits(0, w)
    ensures Or(Shl(0, w), reversed) == 0
  {
    FromToBits(reversed, w);
    FromToBits(0, w);
    OrZero(0);
  }

  lemma {:induction false} PlaceSlot(t: seq<nat>, es: seq<Entry>, i: nat, m: nat, reversed: nat, padding: nat)
    requires PartlyFilled(t, es, i, m, padding) && padding < Pow2(m - es[i].width)
    requires reversed < Pow2(es[i].width) && ToBits(reversed, es[i].width) == CodeBits(es, i)
    ensures var index := Or(Shl(padding, es[i].width), reversed);
            index < |t| && PartlyFilled(t[index := Pack(es[i])], es, i, m, padding + 1)
  {
    hide CodeBits, ToBits, Pow2, Slot, Pack, Or;
    var w := es[i].width;
    var index := Or(Shl(padding, w), reversed);
    SlotIndex(es, i, m, reversed, padding);
    var t' := t[index := Pack(es[i])];
    forall k | 0 <= k < |t'|
      ensures t'[k] == if CodeBits(es, i) <= ToBits(k, m) && Shr(k, w) < padding + 1 then Pack(es[i])
                       else Slot(es, i, ToBits(k, m))
    {
      SlotOfIndex(es, i, m, reversed, k);
      PlacedOrNot(t, es, i, m, reversed, padding, k);
    }
  }

  lemma {:induction false} PlacedOrNot(t: seq<nat>, es: seq<Entry>, i: nat, m: nat, reversed: nat, padding: nat, k: nat)
    requires PartlyFilled(t, es, i, m, padding) && padding < Pow2(m - es[i].width) && k < |t|
    requires reversed < Pow2(es[i].width) && ToBits(reversed, es[i].width) == CodeBits(es, i)
    ensures var w := es[i].width;
            k == Or(Shl(padding, w), reversed) <==> CodeBits(es, i) <= ToBits(k, m) && Shr(k, w) == padding
  {
    SlotIndex(es, i, m, reversed, padding);
    SlotOfIndex(es, i, m, reversed, k);
  }

  lemma {:induction false} NothingFilled(table: seq<nat>, es: seq<Entry>, m: nat)
    requires WidthsOk(es) && m <= MAX_BITS && |table| == Pow2(m)
    requires forall k :: 0 <= k < |table| ==> table[k] == EMPTY_SLOT
    ensures Filled(table, es, 0, m)
  {}

  /** A code whose intervals overrun is rejected at the first entry that starts at the end. */
  lemma {:induction false} Overrun(es: seq<Entry>, i: nat)
    requires WidthsOk(es) && i < |es| && Start(es, i) == Pow2(MAX_BITS)
    ensures Total(es) > Pow2(MAX_BITS)
  {
    StartMono(es, i, |es|);
  }

  lemma {:induction false} StartPartly(table: seq<nat>, es: seq<Entry>, i: nat, m: nat)
    requires Filled(table, es, i, m) && ByWidth(es) && i < |es| && es[i].width <= m
    ensures PartlyFilled(table, es, i, m, 0)
  {}

  lemma {:induction false} BuildDone(lengths: seq<nat>, es: seq<Entry>, peek: Option<nat>, eob: Option<nat>,
      actual: nat, d: HuffmanDecoder)
    requires |lengths| <= 2047 && es == SortedEntries(lengths) && es != []
    requires d.maxBits == es[|es| - 1].width && d.safelyPeekBits == Min(d.maxBits, Max(1, actual))
    requires actual == PeekAfter(es, |es|, GetOr(peek, d.maxBits), eob)
    requires Filled(d.table, es, |es|, d.maxBits) && Total(es) <= Pow2(MAX_BITS)
    ensures Acceptable(lengths) && Implements(d, MakeCode(lengths, peek, eob).value)
  {
    hide PeekAfter, Collect, Slot, Pow2, ToBits;
    EntriesShape(lengths);
  }

  /** The loop state `code`, `previous_width` before entry `i`. */
  ghost predicate Counting(es: seq<Entry>, i: nat, code: nat, previousWidth: nat) {
    WidthsOk(es) && ByWidth(es) && i <= |es| &&
    if i == 0 then code == 0 && previousWidth == 0
    else code == CodeVal(es, i - 1) + 1 && previousWidth == es[i - 1].width
  }

  lemma {:induction false} CountStep(es: seq<Entry>, i: nat, code: nat, previousWidth: nat)
    requires Counting(es, i, code, previousWidth) && i < |es|
    ensures previousWidth <= es[i].width && Shl(code, es[i].width - previousWidth) == CodeVal(es, i)
    ensures Counting(es, i + 1, CodeVal(es, i) + 1, es[i].width)
    ensures Start(es, i) < Pow2(MAX_BITS) ==> Start(es, i + 1) <= Pow2(MAX_BITS)
  {
    CodeFits(es, i);
    if i == 0 {
      assert Shl(0, es[i].width) == 0;
    }
  }

  /** Assign codewords in order and spread each over the table, noting the end-of-block width. */
  method FillTable(es: seq<Entry>, maxBits: nat, initial: nat, eob: Option<nat>)
    returns (table: seq<nat>, actual: nat, conflict: bool)
    requires WidthsOk(es) && ByWidth(es) && maxBits <= MAX_BITS
    requires forall j :: 0 <= j < |es| ==> es[j].symbol < 2047 && es[j].width <= maxBits
    ensures conflict <==> Total(es) > Pow2(MAX_BITS)
    ensures !conflict ==> Filled(table, es, |es|, maxBits) && actual == PeekAfter(es, |es|, initial, eob)
  {
    hide Filled, SortedEntries, CodeVal;
    table := seq(Pow2(maxBits), _ => EMPTY_SLOT);
    NothingFilled(table, es, maxBits);
    var code, previousWidth := 0, 0;
    actual := initial;
    for i := 0 to |es|
      invariant Filled(table, es, i, maxBits) && Start(es, i) <= Pow2(MAX_BITS)
      invariant Counting(es, i, code, previousWidth)
      invariant actual == PeekAfter(es, i, initial, eob)
    {
      CountStep(es, i, code, previousWidth);
      code := Shl(code, es[i].width - previousWidth);
      StartPartly(table, es, i, maxBits);
      table, conflict := SpreadCodeword(table, es, i, maxBits, code);
      if conflict {
        Overrun(es, i);
        return;
      }
      if Some(es[i].symbol) == eob {
        actual := es[i].width;
      }
      code := code + 1;
      previousWidth := es[i].width;
    }
    conflict := false;
  }

  /** `from_code_lengths` accepts exactly the vectors that make a code, and builds its table. */
  method BuildDecoder(lengths: seq<nat>, peek: Option<nat>, eob: Option<nat>) returns (r: Result<HuffmanDecoder>)
    requires |lengths| <= 2047
    ensures r.Ok? <==> MakeCode(lengths, peek, eob).Some?
    ensures r.Ok? ==> Implements(r.value, MakeCode(lengths, peek, eob).value)
    ensures r.Err? ==> r.error == BadCodeLengths
  {
    hide Filled, Collect, PeekAfter, SafePeek, Implements, MakeCode, SortedEntries, CodeOk, Pow2, Start;
    var es := SortedEntries(lengths);
    EntriesShape(lengths);
    if es == [] {
      return Err(BadCodeLengths);
    }
    var maxBits := es[|es| - 1].width;
    if maxBits > MAX_BITS {
      return Err(BadCodeLengths);
    }
    var table, actual, conflict := FillTable(es, maxBits, GetOr(peek, maxBits), eob);
    if conflict {
      return Err(BadCodeLengths);
    }
    var decoder := HuffmanDecoder(table, Min(maxBits, Max(1, actual)), maxBits);
    BuildDone(lengths, es, peek, eob, actual, decoder);
    return Ok(decoder);
  }

  // ----- Decoding -----

  /** Looking up `p` look-ahead bits is asking where they fall on the line of intervals. */
  lemma {:induction false} LookupAt(d: HuffmanDecoder, c: Code, b: BitString)
    requires Implements(d, c) && 1 <= |b| <= d.maxBits
    ensures FromBits(b) < |d.table|
    ensures d.table[FromBits(b)] == Slot(c.entries, |c.entries|, b)
  {
    hide MsbVal, Pow2, ToBits, FromBits, Start, Find, Pos, Pack, CodeOk;
    var k := FromBits(b);
    Pow2Mono(|b|, d.maxBits);
    ToFromBits(b);
    ToBitsPad(k, |b|, d.maxBits - |b|);
    PosPad(b, d.maxBits - |b|);
  }

  lemma {:induction false} ToBitsPad(v: nat, a: nat, pad: nat)
    requires v < Pow2(a)
    ensures ToBits(v, a + pad) == ToBits(v, a) + ToBits(0, pad)
  {
    ToBitsConcat(v, a, 0, pad);
  }

  /** Zero bits after a look-ahead do not move its position. */
  lemma {:induction false} PosPad(b: BitString, pad: nat)
    requires |b| + pad <= MAX_BITS
    ensures Pos(b + ToBits(0, pad)) == Pos(b)
  {
    MsbValConcat(b, ToBits(0, pad));
    MsbValZero(pad);
    ShlCompose(MsbVal(b), pad, MAX_BITS - |b| - pad);
  }

  lemma {:induction false} ShlCompose(v: nat, a: nat, b: nat)
    ensures Shl(v * Pow2(a), b) == Shl(v, a + b)
  {
    Pow2Add(a, b);
    MulAssoc(v, Pow2(a), Pow2(b));
  }

  /** The width found by a longer look-ahead is at least the width found by a shorter one. */
  lemma {:induction false} PeekGrows(c: Code, s: BitString, pos: nat, p: nat, q: nat)
    requires p <= q <= MAX_BITS && pos + q <= |s|
    requires Pos(s[pos..pos + q]) < Total(c.entries)
    ensures Pos(s[pos..pos + p]) < Total(c.entries)
    ensures c.entries[Find(c.entries, Pos(s[pos..pos + p]), |c.entries|)].width
            <= c.entries[Find(c.entries, Pos(s[pos..pos + q]), |c.entries|)].width
  {
    hide Pos, MsbVal, Pow2, Start, Find, Shl;
    var a, b := s[pos..pos + p], s[pos..pos + q];
    assert b == a + s[pos + p..pos + q];
    PosExtends(a, s[pos + p..pos + q]);
    var es := c.entries;
    var i, j := Find(es, Pos(a), |es|), Find(es, Pos(b), |es|);
    if j < i { StartMono(es, j + 1, i); }
  }

  /** Where a decode can leave off: nothing but the codeword is consumed, and no more than the
      larger of the first look-ahead and the codeword was ever asked for. */
  ghost predicate DecodesAs(c: Code, s: BitString, pos: nat, before: nat, after: nat, rest: BitString, r: Result<nat>)
    requires pos <= |s|
  {
    match Decode(c, s, pos)
    case Symbol(symbol, width) =>
      r == Ok(symbol) && rest == From(s, pos + width) && after <= Max(before, Max(c.peek, width) + 7) - width
    case NeedBits => r == Err(UnexpectedEof)
    case BadCode => r == Err(InvalidCode)
  }

  lemma {:induction false} SlotParts(d: HuffmanDecoder, c: Code, b: BitString, value: nat)
    requires Implements(d, c) && |b| <= MAX_BITS && value == Slot(c.entries, |c.entries|, b)
    ensures SlotSays(d, c, b, value)
  {
    EmptyParts();
    if Pos(b) < Total(c.entries) {
      PackParts(c.entries[Find(c.entries, Pos(b), |c.entries|)]);
    }
  }

  lemma {:induction false} DecodeDone(c: Code, s: BitString, pos: nat, p: nat, before: nat, mid: nat, after: nat,
      rest: BitString)
    requires 1 <= p <= MAX_BITS && pos + p <= |s| && PeekDecode(c, p, s, pos) == Decode(c, s, pos)
    requires var x := Pos(s[pos..pos + p]);
             x < Total(c.entries) &&
             var w := c.entries[Find(c.entries, x, |c.entries|)].width;
             w <= p && (p == c.peek || p <= w)
             && mid <= Max(before, p + 7) && after <= Max(mid - w, 7) && rest == From(s, pos)[w..]
    ensures var e := c.entries[Find(c.entries, Pos(s[pos..pos + p]), |c.entries|)];
            DecodesAs(c, s, pos, before, after, rest, Ok(e.symbol))
  {
    hide Pos, Find, Pow2;
    var e := c.entries[Find(c.entries, Pos(s[pos..pos + p]), |c.entries|)];
    assert Decode(c, s, pos) == Symbol(e.symbol, e.width);
    FromSlices(s, pos, e.width);
  }

  /** Peek and look up. */
  method PeekSlot(d: HuffmanDecoder, reader: BitReader, p: nat, ghost c: Code, ghost s: BitString, ghost pos: nat)
    returns (r: Result<nat>)
    requires Implements(d, c) && reader.Valid() && pos <= |s| && reader.Remaining() == From(s, pos)
    requires 1 <= p <= d.maxBits
    modifies reader
    ensures reader.Valid() && reader.Remaining() == From(s, pos) && reader.bitCount <= Max(old(reader.bitCount), p + 7)
    ensures r.Err? ==> pos + p > |s| && r.error == UnexpectedEof
    ensures r.Ok? ==> pos + p <= |s| && SlotSays(d, c, s[pos..pos + p], r.value)
  {
    var peeked := reader.PeekBits(p);
    if peeked.Err? {
      return peeked;
    }
    ghost var b := s[pos..pos + p];
    FromSlices(s, pos, p);
    LookupAt(d, c, b);
    SlotParts(d, c, b, d.table[peeked.value]);
    return Ok(d.table[peeked.value]);
  }

  ghost predicate SlotSays(d: HuffmanDecoder, c: Code, b: BitString, value: nat)
    requires |b| <= MAX_BITS
  {
    if Pos(b) < Total(c.entries) then
      var e := c.entries[Find(c.entries, Pos(b), |c.entries|)];
      value != EMPTY_SLOT && Mask(value, 5) == e.width <= d.maxBits && Shr(value, 5) == e.symbol
    else
      value == EMPTY_SLOT && Mask(value, 5) == 31
  }

  lemma {:induction false} LooksFirst(d: HuffmanDecoder, c: Code)
    requires Implements(d, c)
    ensures 1 <= d.safelyPeekBits == c.peek <= d.maxBits <= MAX_BITS
  {}

  /** Look up as few bits as may be needed, then again as many as the slot found says. */
  method DecodeSymbol(d: HuffmanDecoder, reader: BitReader, ghost c: Code, ghost s: BitString, ghost pos: nat)
    returns (r: Result<nat>)
    requires Implements(d, c) && reader.Valid() && pos <= |s| && reader.Remaining() == From(s, pos)
    modifies reader
    ensures reader.Valid()
    ensures DecodesAs(c, s, pos, old(reader.bitCount), reader.bitCount, reader.Remaining(), r)
  {
    hide Implements, Pos, Find, Start, Total, Pow2, ToBits, FromBits, BytesToBits, Mask, Shr, CodeOk, From;
    LooksFirst(d, c);
    var peekBits := d.safelyPeekBits;
    while true
      invariant 1 <= peekBits <= d.maxBits
      invariant reader.Valid() && reader.Remaining() == From(s, pos)
      invariant reader.bitCount <= Max(old(reader.bitCount), peekBits + 7)
      invariant PeekDecode(c, peekBits, s, pos) == Decode(c, s, pos)
      invariant peekBits == c.peek || WidthsAtLeast(c, s, pos, peekBits)
      decreases d.maxBits - peekBits
    {
      var slot := PeekSlot(d, reader, peekBits, c, s, pos);
      if slot.Err? {
        return slot;
      }
      var value := slot.value;
      var width := Mask(value, 5);
      if width <= peekBits && value != EMPTY_SLOT {
        ghost var mid := reader.bitCount;
        var _ := reader.SkipBits(width);
        DecodeDone(c, s, pos, peekBits, old(reader.bitCount), mid, reader.bitCount, reader.Remaining());
        return Ok(Shr(value, 5));
      }
      if width > d.maxBits || value == EMPTY_SLOT {
        return Err(InvalidCode);
      }
      WiderLook(c, s, pos, peekBits, width);
      peekBits := width;
    }
  }

  /** Every codeword that a look-ahead of `q` bits can land on has at least `q` bits. */
  ghost predicate WidthsAtLeast(c: Code, s: BitString, pos: nat, q: nat) {
    pos + q <= |s| && q <= MAX_BITS && Pos(s[pos..pos + q]) < Total(c.entries) ==>
      q <= c.entries[Find(c.entries, Pos(s[pos..pos + q]), |c.entries|)].width
  }

  lemma {:induction false} WiderLook(c: Code, s: BitString, pos: nat, p: nat, q: nat)
    requires p <= q <= MAX_BITS && pos + p <= |s| && Pos(s[pos..pos + p]) < Total(c.entries)
    requires c.entries[Find(c.entries, Pos(s[pos..pos + p]), |c.entries|)].width == q
    ensures WidthsAtLeast(c, s, pos, q)
  {
    if pos + q <= |s| && Pos(s[pos..pos + q]) < Total(c.entries) {
      PeekGrows(c, s, pos, p, q);
    }
  }

  // ----- What the table holds -----

  /** Slot `k` holds a symbol exactly when that symbol's codeword is the low-order part of `k`
      (its bits reversed), and is empty exactly when no codeword is. */
  lemma {:induction false} TableExact(d: HuffmanDecoder, c: Code, k: nat)
    requires Implements(d, c) && k < |d.table|
    ensures forall i :: 0 <= i < |c.entries| ==>
              (d.table[k] == Pack(c.entries[i]) <==> CodeBits(c.entries, i) <= ToBits(k, d.maxBits))
    ensures d.table[k] == EMPTY_SLOT <==>
              (forall i :: 0 <= i < |c.entries| ==> !(CodeBits(c.entries, i) <= ToBits(k, d.maxBits)))
  {
    hide CodeBits, Pos, ToBits, Pow2, Start, Find, Pack;
    var es, b := c.entries, ToBits(k, d.maxBits);
    forall i | 0 <= i < |es|
      ensures d.table[k] == Pack(es[i]) <==> CodeBits(es, i) <= b
      ensures CodeBits(es, i) <= b ==> d.table[k] != EMPTY_SLOT
    {
      SlotOwner(es, i, b);
    }
    if Pos(b) < Total(es) {
      SlotOwner(es, Find(es, Pos(b), |es|), b);
    }
  }

  lemma {:induction false} SortedDistinct(es: seq<Entry>, i: nat, j: nat)
    requires Sorted(es) && i < |es| && j < |es|
    ensures es[i].symbol == es[j].symbol && es[i].width == es[j].width ==> i == j
  {
    if i < j {
      assert Before(es[i], es[j]);
    } else if j < i {
      assert Before(es[j], es[i]);
    }
  }

  lemma {:induction false} SlotOwner(es: seq<Entry>, i: nat, b: BitString)
    requires WidthsOk(es) && ByWidth(es) && Sorted(es) && Total(es) <= Pow2(MAX_BITS)
    requires forall j :: 0 <= j < |es| ==> es[j].symbol < 2047
    requires i < |es| && es[i].width <= |b| <= MAX_BITS
    ensures Slot(es, |es|, b) == Pack(es[i]) <==> CodeBits(es, i) <= b
    ensures CodeBits(es, i) <= b ==> Slot(es, |es|, b) != EMPTY_SLOT
    ensures Start(es, i) <= Pos(b) < Start(es, i + 1) ==> CodeBits(es, i) <= b
  {
    hide CodeBits, Pos, Pow2, Start, Find, Pack;
    PrefixIffInterval(es, i, b);
    PackParts(es[i]);
    if Pos(b) < Total(es) {
      var j := Find(es, Pos(b), |es|);
      PackParts(es[j]);
      SortedDistinct(es, i, j);
      if Start(es, i) <= Pos(b) < Start(es, i + 1) {
        FindUnique(es, Pos(b), i);
      }
    } else if CodeBits(es, i) <= b {
      FindUnique(es, Pos(b), i);
    }
  }

  // ----- The encoder's codewords -----

  /** A codeword as the encoder stores it: `bits` is already reversed. */
  datatype CodeWord = CodeWord(width: nat, bits: nat)

  const NO_CODE := CodeWord(0, 0)

  datatype HuffmanEncoder = HuffmanEncoder(codes: seq<CodeWord>) {
    function CodeWidth(symbol: nat): nat {
      if symbol < |codes| then codes[symbol].width else 0
    }
  }

  /** The position of symbol `s` in canonical order. */
  ghost function IndexOf(lengths: seq<nat>, s: nat): (i: nat)
    requires s < |lengths| && lengths[s] > 0
    ensures i < |SortedEntries(lengths)| && SortedEntries(lengths)[i] == Entry(s, lengths[s])
  {
    CollectMembers(lengths, |lengths|, Entry(s, lengths[s]));
    var i :| 0 <= i < |SortedEntries(lengths)| && SortedEntries(lengths)[i] == Entry(s, lengths[s]);
    i
  }

  /** The bits sent for symbol `s`; a symbol without a codeword sends nothing. */
  ghost function Word(lengths: seq<nat>, s: nat): (b: BitString)
    requires WidthsOk(SortedEntries(lengths)) && s < |lengths|
    ensures |b| == lengths[s]
  {
    EntriesShape(lengths);
    if lengths[s] == 0 then [] else CodeBits(SortedEntries(lengths), IndexOf(lengths, s))
  }

  /** The encoder holds the canonical codeword of every symbol. */
  ghost predicate Encodes(e: HuffmanEncoder, lengths: seq<nat>) {
    WidthsOk(SortedEntries(lengths)) && |e.codes| == |lengths|
    && forall s :: 0 <= s < |lengths| ==>
         e.codes[s].width == lengths[s] && e.codes[s].bits < Pow2(lengths[s])
         && ToBits(e.codes[s].bits, lengths[s]) == Word(lengths, s)
  }

  /** Codewords are in place for the symbols of the first `i` entries. */
  ghost predicate EncodesTo(codes: seq<CodeWord>, es: seq<Entry>, i: nat) {
    WidthsOk(es) && ByWidth(es) && i <= |es|
    && (forall j :: 0 <= j < |es| ==> es[j].symbol < |codes|)
    && (forall j :: 0 <= j < i ==> IsWord(codes[es[j].symbol], es, j))
  }

  ghost predicate IsWord(c: CodeWord, es: seq<Entry>, j: nat)
    requires WidthsOk(es) && ByWidth(es) && j < |es|
  {
    c.width == es[j].width && c.bits < Pow2(c.width) && ToBits(c.bits, c.width) == CodeBits(es, j)
  }

  ghost predicate UnusedEmpty(codes: seq<CodeWord>, lengths: seq<nat>) {
    |codes| == |lengths| && forall s :: 0 <= s < |lengths| && lengths[s] == 0 ==> codes[s] == NO_CODE
  }

  lemma {:induction false} EncodesAll(codes: seq<CodeWord>, lengths: seq<nat>, es: seq<Entry>)
    requires es == SortedEntries(lengths) && EncodesTo(codes, es, |es|) && UnusedEmpty(codes, lengths)
    ensures Encodes(HuffmanEncoder(codes), lengths)
  {
    forall s | 0 <= s < |lengths|
      ensures codes[s].width == lengths[s] && codes[s].bits < Pow2(lengths[s])
      ensures ToBits(codes[s].bits, lengths[s]) == Word(lengths, s)
    {
      if lengths[s] > 0 {
        var i := IndexOf(lengths, s);
        assert es[i] == Entry(s, lengths[s]) && IsWord(codes[s], es, i);
      }
    }
  }

  lemma {:induction false} EncodesNext(codes: seq<CodeWord>, es: seq<Entry>, i: nat, w: CodeWord)
    requires EncodesTo(codes, es, i) && i < |es| && IsWord(w, es, i)
    requires forall j :: 0 <= j < i ==> es[j].symbol != es[i].symbol
    ensures EncodesTo(codes[es[i].symbol := w], es, i + 1)
  {}

  /** No symbol appears twice. */
  lemma {:induction false} SymbolsDistinct(lengths: seq<nat>, es: seq<Entry>, i: nat)
    requires es == SortedEntries(lengths) && i < |es|
    ensures es[i].symbol < |lengths| && lengths[es[i].symbol] > 0
    ensures forall j :: 0 <= j < i ==> es[j].symbol != es[i].symbol
  {
    EntriesShape(lengths);
    forall j | 0 <= j < i ensures es[j].symbol != es[i].symbol {
      assert Before(es[j], es[i]);
    }
  }

  /** `from_code_lengths` of the encoder: it rejects lengths above 15 (the widest entry comes last)
      and numbers the rest canonically.  Whatever the Kraft sum, a codeword is the low bits of its number. */
  method BuildEncoder(lengths: seq<nat>) returns (r: Result<HuffmanEncoder>)
    ensures r.Ok? <==> forall s :: 0 <= s < |lengths| ==> lengths[s] <= MAX_BITS
    ensures r.Ok? ==> Encodes(r.value, lengths)
    ensures r.Err? ==> r.error == BadCodeLengths
  {
    var es := SortedEntries(lengths);
    EntriesShape(lengths);
    if es != [] && es[|es| - 1].width > MAX_BITS {
      assert lengths[es[|es| - 1].symbol] > MAX_BITS;
      return Err(BadCodeLengths);
    }
    LengthsFromWidths(lengths);
    var codes := AssignWords(lengths, es);
    EncodesAll(codes, lengths, es);
    return Ok(HuffmanEncoder(codes));
  }

  method AssignWords(lengths: seq<nat>, es: seq<Entry>) returns (codes: seq<CodeWord>)
    requires es == SortedEntries(lengths) && WidthsOk(es) && ByWidth(es)
    requires forall j :: 0 <= j < |es| ==> es[j].symbol < |lengths|
    ensures EncodesTo(codes, es, |es|) && UnusedEmpty(codes, lengths)
  {
    hide CodeVal, MsbBits, ToBits, Pow2, Shl;
    codes := seq(|lengths|, _ => NO_CODE);
    var code, previousWidth := 0, 0;
    for i := 0 to |es|
      invariant EncodesTo(codes, es, i) && UnusedEmpty(codes, lengths) && Counting(es, i, code, previousWidth)
    {
      CountStep(es, i, code, previousWidth);
      code := Shl(code, es[i].width - previousWidth);
      var reversed := ReverseBits(code, es[i].width);
      SymbolsDistinct(lengths, es, i);
      EncodesNext(codes, es, i, CodeWord(es[i].width, reversed));
      codes := codes[es[i].symbol := CodeWord(es[i].width, reversed)];
      code := code + 1;
      previousWidth := es[i].width;
    }
  }

  lemma {:induction false} LengthsFromWidths(lengths: seq<nat>)
    requires WidthsOk(SortedEntries(lengths))
    ensures forall s :: 0 <= s < |lengths| ==> lengths[s] <= MAX_BITS
  {
    forall s | 0 <= s < |lengths| && lengths[s] > 0 ensures lengths[s] <= MAX_BITS {
      var i := IndexOf(lengths, s);
    }
  }

  method EncodeSymbol(e: HuffmanEncoder, writer: BitWriter, symbol: nat, ghost lengths: seq<nat>)
    requires Encodes(e, lengths) && symbol < |lengths| && writer.Valid()
    modifies writer
    ensures writer.Valid() && writer.Stream() == old(writer.Stream()) + Word(lengths, symbol)
  {
    LengthsFromWidths(lengths);
    writer.WriteBits(e.codes[symbol].width, e.codes[symbol].bits);
  }

  /** The encoder's codeword is read back by the decoder: `decode` inverts `encode`. */
  lemma {:induction false} DecodeInvertsEncode(lengths: seq<nat>, c: Code, symbol: nat, s: BitString, pos: nat)
    requires Acceptable(lengths) && c.entries == SortedEntries(lengths)
    requires symbol < |lengths| && lengths[symbol] > 0
    requires At(s, pos, Word(lengths, symbol)) && pos + c.peek <= |s|
    ensures Decode(c, s, pos) == Symbol(symbol, lengths[symbol])
  {
    PeekComplete(c, c.peek, s, pos, IndexOf(lengths, symbol));
  }
}
