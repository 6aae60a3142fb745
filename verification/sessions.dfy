/** What an encoder session amounts to (src/encode.rs), as a function of its options and calls.

    A session's state is the bits emitted and the bytes still pending.  Two things are proved about it,
    for every block kind, block size limit and sequence of calls: the decoder recovers what was fed, and
    the bits depend only on the bytes between flush points. */
module Sessions {
  import opened Bits
  import opened BitIo
  import opened Errors
  import opened Symbols
  import opened Lz77
  import opened Blocks
  import opened DynamicBlocks
  import I = Inflate

  datatype BlockKind = Stored | Fixed | Dynamic

  datatype EncodeOptions = EncodeOptions(kind: BlockKind, limit: Option<nat>) {
    /** A limit of zero bytes is refused. */
    predicate Ok() { limit.Some? ==> limit.value > 0 }
  }

  // ----- One block -----

  /** Tokens that stand for `chunk`. */
  ghost predicate TokensFor(ts: seq<Token>, chunk: seq<byte>) {
    Sound(ts, 0) && Expand(ts, []) == chunk
  }

  /** A chunk as a block, given its tokens; stored blocks do not need any. */
  ghost function BlockBits(kind: BlockKind, pos: nat, ts: seq<Token>, chunk: seq<byte>, isFinal: bool): BitString
    requires TokensFor(ts, chunk)
  {
    SoundInRange(ts, 0);
    match kind
    case Stored => StoredBits(pos, chunk, isFinal)
    case Fixed => FixedBits(ts, isFinal)
    case Dynamic => DynamicBits(ts, isFinal)
  }

  lemma {:induction false} BlockLeads(bits: BitString, kind: BlockKind, ts: seq<Token>, chunk: seq<byte>,
      isFinal: bool, out: seq<byte>)
    requires TokensFor(ts, chunk)
    ensures var all := bits + BlockBits(kind, |bits|, ts, chunk, isFinal);
            Leads(all, I.Config(I.BlockHeader, out, |bits|), I.Config(After(isFinal), out + chunk, |all|))
  {
    hide StoredBits, FixedBits, DynamicBits, Leads, Sound, Expand, At, InRange;
    SoundInRange(ts, 0);
    var b := BlockBits(kind, |bits|, ts, chunk, isFinal);
    AtConcat(bits, b);
    match kind
    case Stored => StoredLeads(bits + b, |bits|, out, chunk, isFinal);
    case Fixed => FixedLeads(bits + b, |bits|, out, ts, chunk, isFinal);
    case Dynamic => DynamicLeads(bits + b, |bits|, out, ts, chunk, isFinal);
  }

  /** The decoder has made `out` of these bits, consumed them all, and waits for another block. */
  ghost predicate Recovered(bits: BitString, out: seq<byte>) {
    I.Run(bits, I.Init) == I.Stuck(I.Config(I.BlockHeader, out, |bits|))
  }

  /** The decoder has made `out` of these bits and met the final block's end, `pad` bits before theirs. */
  ghost predicate Ended(bits: BitString, out: seq<byte>, pad: nat) {
    pad <= |bits| && I.Run(bits, I.Init) == I.Complete(I.Config(I.Finished, out, |bits| - pad))
  }

  lemma {:induction false} NothingRecovered()
    ensures Recovered([], [])
  {}

  lemma {:induction false} EndOfBits(s: BitString, isFinal: bool, out: seq<byte>)
    ensures I.Run(s, I.Config(After(isFinal), out, |s|))
            == if isFinal then I.Complete(I.Config(I.Finished, out, |s|))
               else I.Stuck(I.Config(I.BlockHeader, out, |s|))
  {
    hide I.Run, I.Step;
    var c := I.Config(After(isFinal), out, |s|);
    if isFinal {
      I.RunCompletes(s, c);
    } else {
      I.BlockHeaderCase(s, c);
      I.RunSticks(s, c);
    }
  }

  /** A further block is recovered after whatever was recovered before. */
  lemma {:induction false} BlockRecovers(bits: BitString, kind: BlockKind, ts: seq<Token>, chunk: seq<byte>,
      isFinal: bool, out: seq<byte>)
    requires TokensFor(ts, chunk) && Recovered(bits, out)
    ensures var all := bits + BlockBits(kind, |bits|, ts, chunk, isFinal);
            if isFinal then Ended(all, out + chunk, 0) else Recovered(all, out + chunk)
  {
    hide BlockBits, TokensFor, I.Run, I.ValidState;
    var all := bits + BlockBits(kind, |bits|, ts, chunk, isFinal);
    I.RunExtends(bits, all, I.Init);
    BlockLeads(bits, kind, ts, chunk, isFinal, out);
    EndOfBits(all, isFinal, out + chunk);
  }

  /** Padding after the final block changes nothing. */
  lemma {:induction false} PaddingIgnored(bits: BitString, out: seq<byte>, pad: BitString)
    requires Ended(bits, out, 0)
    ensures Ended(bits + pad, out, |pad|)
  {
    hide I.Run, I.ValidState;
    assert bits <= bits + pad;
    I.RunExtends(bits, bits + pad, I.Init);
  }

  // ----- The kind of a block -----

  /** Three header bits: whether this is the last block, and its kind, least significant bit first. */
  ghost predicate BeginsAs(s: BitString, pos: nat, kind: BlockKind, isFinal: bool) {
    pos + 3 <= |s| && s[pos] == isFinal
    && match kind
       case Stored => !s[pos + 1] && !s[pos + 2]
       case Fixed => s[pos + 1] && !s[pos + 2]
       case Dynamic => !s[pos + 1] && s[pos + 2]
  }

  /** A block of this kind stands at `pos`.  A compressed one carries the tokens `ts`: with the fixed codes, or
      with the codes whose lengths were chosen for just these tokens. */
  ghost predicate ShownAs(s: BitString, pos: nat, kind: BlockKind, ts: seq<Token>, isFinal: bool) {
    BeginsAs(s, pos, kind, isFinal)
    && (kind.Fixed? ==>
          forall out :: Carries(s, pos, out, isFinal, FixedLiteralLengths(), FixedDistanceLengths(), ts))
    && (kind.Dynamic? ==>
          AllInRange(ts)
          && forall out :: Carries(s, pos, out, isFinal, LiteralLengthsFor(ts), DistanceLengthsFor(ts), ts))
  }

  lemma {:induction false} HeaderShown(s: BitString, pos: nat, kind: BlockKind, isFinal: bool)
    requires At(s, pos, HeaderBits(isFinal, match kind case Stored => 0 case Fixed => 1 case Dynamic => 2))
    ensures BeginsAs(s, pos, kind, isFinal)
  {
    var b := HeaderBits(isFinal, match kind case Stored => 0 case Fixed => 1 case Dynamic => 2);
    assert b[0] == s[pos] && b[1] == s[pos + 1] && b[2] == s[pos + 2];
  }

  /** A stored chunk of more than 65535 bytes takes several blocks, and the first is not the last. */
  ghost predicate FirstIsLast(kind: BlockKind, chunk: seq<byte>, isFinal: bool) {
    isFinal && (kind.Stored? ==> |chunk| <= 65535)
  }

  lemma {:induction false} StoredShown(s: BitString, pos: nat, chunk: seq<byte>, isFinal: bool)
    requires At(s, pos, StoredBits(pos, chunk, isFinal))
    ensures BeginsAs(s, pos, Stored, isFinal && |chunk| <= 65535)
  {
    hide At, HeaderBits, ToBits, BytesToBits;
    var first, flag := if |chunk| <= 65535 then chunk else chunk[..65535], isFinal && |chunk| <= 65535;
    var b := StoredBlockBits(pos, first, flag);
    if |chunk| > 65535 {
      AtSplit(s, pos, b, StoredBits(pos + |b|, chunk[65535..], isFinal));
    }
    AtThree(s, pos, HeaderBits(flag, 0), ToBits(0, PadTo8(pos + 3)),
            ToBits(|first|, 16) + ToBits(0xFFFF - |first|, 16) + BytesToBits(first));
    HeaderShown(s, pos, Stored, flag);
  }

  /** The block asked for is the block emitted. */
  lemma {:induction false} BlockShown(kind: BlockKind, s: BitString, pos: nat, ts: seq<Token>, chunk: seq<byte>,
      isFinal: bool)
    requires TokensFor(ts, chunk) && At(s, pos, BlockBits(kind, pos, ts, chunk, isFinal))
    ensures ShownAs(s, pos, kind, ts, FirstIsLast(kind, chunk, isFinal))
  {
    hide At, StoredBits, TokensFor, Carries, LiteralLengthsFor, DistanceLengthsFor, HeaderBits, TokensBits,
         DynamicBits, FixedBits, BeginsAs;
    InRangeFor(ts, chunk);
    match kind {
      case Stored => StoredShown(s, pos, chunk, isFinal);
      case Fixed =>
        FixedHeader(s, pos, ts, isFinal);
        forall out { FixedCarries(s, pos, out, ts, isFinal); }
      case Dynamic =>
        DynamicHeader(s, pos, ts, isFinal);
        forall out { DynamicCarries(s, pos, out, ts, isFinal); }
    }
  }

  lemma {:induction false} InRangeFor(ts: seq<Token>, chunk: seq<byte>)
    requires TokensFor(ts, chunk)
    ensures AllInRange(ts)
  {
    SoundInRange(ts, 0);
  }

  lemma {:induction false} FixedHeader(s: BitString, pos: nat, ts: seq<Token>, isFinal: bool)
    requires AllInRange(ts) && At(s, pos, FixedBits(ts, isFinal))
    ensures BeginsAs(s, pos, Fixed, isFinal)
  {
    hide At, HeaderBits, TokensBits, BeginsAs;
    FixedLengths();
    AtSplit(s, pos, HeaderBits(isFinal, 1), TokensBits(FixedLiteralLengths(), FixedDistanceLengths(), ts));
    HeaderShown(s, pos, Fixed, isFinal);
  }

  lemma {:induction false} DynamicHeader(s: BitString, pos: nat, ts: seq<Token>, isFinal: bool)
    requires AllInRange(ts) && At(s, pos, DynamicBits(ts, isFinal))
    ensures BeginsAs(s, pos, Dynamic, isFinal)
  {
    hide At, HeaderBits, TokensBits, BeginsAs, LiteralLengthsFor, DistanceLengthsFor, Describes, TablesBits;
    ChosenDescribes(ts);
    var lit, dist := LiteralLengthsFor(ts), DistanceLengthsFor(ts);
    DynamicHeaderFront(s, pos, lit, dist, WidthLengthsFor(lit, dist), ts, isFinal);
    HeaderShown(s, pos, Dynamic, isFinal);
  }

  // ----- Sessions -----

  datatype EncState = EncState(bits: BitString, pending: seq<byte>)

  const START := EncState([], [])

  /** The block for a chunk when the matcher finds its greedy tokens. */
  ghost function Block(kind: BlockKind, pos: nat, chunk: seq<byte>, isFinal: bool): BitString {
    TokensExpand(chunk);
    BlockBits(kind, pos, Tokens(chunk), chunk, isFinal)
  }

  ghost function Emit(o: EncodeOptions, bits: BitString, chunk: seq<byte>): BitString {
    bits + Block(o.kind, |bits|, chunk, false)
  }

  /** Emit full blocks while there is enough input for one. */
  ghost function SplitOff(o: EncodeOptions, st: EncState): EncState
    requires o.Ok()
    decreases |st.pending|
  {
    if o.limit.None? || |st.pending| < o.limit.value then st
    else SplitOff(o, EncState(Emit(o, st.bits, st.pending[..o.limit.value]), st.pending[o.limit.value..]))
  }

  ghost function AfterFeed(o: EncodeOptions, st: EncState, data: seq<byte>): EncState
    requires o.Ok()
  {
    SplitOff(o, EncState(st.bits, st.pending + data))
  }

  /** Pending input as a block, then an empty stored block. */
  ghost function AfterFlush(o: EncodeOptions, st: EncState): EncState
    requires o.Ok()
  {
    var bits := if st.pending == [] then st.bits else Emit(o, st.bits, st.pending);
    EncState(bits + StoredBits(|bits|, [], false), [])
  }

  ghost function Padded(bits: BitString): BitString {
    bits + ToBits(0, PadTo8(|bits|))
  }

  /** The whole stream once `finish` is called. */
  ghost function AfterFinish(o: EncodeOptions, st: EncState): BitString
    requires o.Ok()
  {
    Padded(st.bits + Block(o.kind, |st.bits|, st.pending, true))
  }

  datatype Call = Feed(data: seq<byte>) | SyncFlush | ResetHistory

  ghost function AfterCall(o: EncodeOptions, st: EncState, call: Call): EncState
    requires o.Ok()
  {
    match call
    case Feed(data) => AfterFeed(o, st, data)
    case SyncFlush => AfterFlush(o, st)
    case ResetHistory => st
  }

  ghost function Session(o: EncodeOptions, calls: seq<Call>): EncState
    requires o.Ok()
  {
    if calls == [] then START
    else AfterCall(o, Session(o, calls[..|calls| - 1]), calls[|calls| - 1])
  }

  ghost function Bytes(call: Call): seq<byte> {
    if call.Feed? then call.data else []
  }

  ghost function Fed(calls: seq<Call>): seq<byte> {
    if calls == [] then []
    else Fed(calls[..|calls| - 1]) + Bytes(calls[|calls| - 1])
  }

  // ----- What a session emits -----

  /** `all` goes on from `before` with a block of the kind asked for, for exactly the pending bytes. */
  ghost predicate BlockFor(o: EncodeOptions, before: EncState, all: BitString, isFinal: bool) {
    before.bits <= all
    && exists ts :: TokensFor(ts, before.pending) && (|before.pending| < NIL ==> ts == Tokens(before.pending))
                    && ShownAs(all, |before.bits|, o.kind, ts, FirstIsLast(o.kind, before.pending, isFinal))
  }

  lemma {:induction false} BlockStands(o: EncodeOptions, before: EncState, ts: seq<Token>, isFinal: bool,
      more: BitString)
    requires TokensFor(ts, before.pending) && (|before.pending| < NIL ==> ts == Tokens(before.pending))
    ensures BlockFor(o, before, before.bits + BlockBits(o.kind, |before.bits|, ts, before.pending, isFinal) + more,
                     isFinal)
  {
    hide BlockBits, TokensFor, ShownAs, At, Tokens, FirstIsLast;
    var b := BlockBits(o.kind, |before.bits|, ts, before.pending, isFinal);
    AtConcat(before.bits, b + more);
    assert before.bits + (b + more) == before.bits + b + more;
    AtSplit(before.bits + b + more, |before.bits|, b, more);
    BlockShown(o.kind, before.bits + b + more, |before.bits|, ts, before.pending, isFinal);
  }

  lemma {:induction false} EmitShown(o: EncodeOptions, bits: BitString, chunk: seq<byte>)
    ensures BlockFor(o, EncState(bits, chunk), Emit(o, bits, chunk), false)
  {
    hide BlockBits, TokensFor, Tokens, BlockFor;
    TokensStandFor(chunk);
    BlockStands(o, EncState(bits, chunk), Tokens(chunk), false, []);
    assert Emit(o, bits, chunk) + [] == Emit(o, bits, chunk);
  }

  /** The final block is one of the kind asked for, for exactly what was pending. */
  lemma {:induction false} FinishShown(o: EncodeOptions, st: EncState)
    requires o.Ok()
    ensures BlockFor(o, st, AfterFinish(o, st), true)
  {
    hide BlockBits, TokensFor, Tokens, BlockFor;
    TokensStandFor(st.pending);
    var all := st.bits + Block(o.kind, |st.bits|, st.pending, true);
    BlockStands(o, st, Tokens(st.pending), true, ToBits(0, PadTo8(|all|)));
  }

  ghost function EmitAll(o: EncodeOptions, bits: BitString, chunks: seq<seq<byte>>): BitString
    decreases |chunks|
  {
    if chunks == [] then bits else EmitAll(o, Emit(o, bits, chunks[0]), chunks[1..])
  }

  ghost function Flat(chunks: seq<seq<byte>>): seq<byte> {
    if chunks == [] then [] else chunks[0] + Flat(chunks[1..])
  }

  /** With a limit, what is fed goes out in blocks of exactly that many bytes, in order, and less than one
      block stays behind. */
  lemma {:induction false} SplitIsChunks(o: EncodeOptions, st: EncState) returns (chunks: seq<seq<byte>>)
    requires o.Ok() && o.limit.Some?
    ensures forall k :: 0 <= k < |chunks| ==> |chunks[k]| == o.limit.value
    ensures |SplitOff(o, st).pending| < o.limit.value
    ensures Flat(chunks) + SplitOff(o, st).pending == st.pending
    ensures SplitOff(o, st).bits == EmitAll(o, st.bits, chunks)
    decreases |st.pending|
  {
    hide Emit, EmitAll, Flat;
    chunks := [];
    NoChunks(o, st);
    if |st.pending| >= o.limit.value {
      var first, rest := st.pending[..o.limit.value], st.pending[o.limit.value..];
      var tail := SplitIsChunks(o, EncState(Emit(o, st.bits, first), rest));
      assert st.pending == first + rest;
      chunks := [first] + tail;
      FirstChunk(o, st.bits, first, tail, SplitOff(o, st).pending);
    }
  }

  lemma {:induction false} NoChunks(o: EncodeOptions, st: EncState)
    ensures Flat([]) + st.pending == st.pending && EmitAll(o, st.bits, []) == st.bits
  {}

  lemma {:induction false} FirstChunk(o: EncodeOptions, bits: BitString, first: seq<byte>, tail: seq<seq<byte>>,
      left: seq<byte>)
    ensures Flat([first] + tail) + left == first + (Flat(tail) + left)
    ensures EmitAll(o, bits, [first] + tail) == EmitAll(o, Emit(o, bits, first), tail)
  {
    hide Emit;
    assert ([first] + tail)[1..] == tail;
  }

  /** Block `k` of a row of blocks stands where the ones before it end. */
  lemma {:induction false} EmitAllShown(o: EncodeOptions, bits: BitString, chunks: seq<seq<byte>>, k: nat)
    requires k < |chunks|
    ensures BlockFor(o, EncState(EmitAll(o, bits, chunks[..k]), chunks[k]), EmitAll(o, bits, chunks[..k + 1]), false)
    ensures EmitAll(o, bits, chunks[..k + 1]) <= EmitAll(o, bits, chunks)
    decreases |chunks|
  {
    hide Emit, BlockFor;
    var first, rest := chunks[0], chunks[1..];
    assert chunks[..k + 1][0] == first && chunks[..k + 1][1..] == rest[..k];
    if k == 0 {
      assert chunks[..0] == [] && rest[..0] == [];
      EmitShown(o, bits, first);
      EmitAllGrows(o, Emit(o, bits, first), rest);
    } else {
      assert chunks[..k][1..] == rest[..k - 1];
      EmitAllShown(o, Emit(o, bits, first), rest, k - 1);
    }
  }

  lemma {:induction false} EmitAllGrows(o: EncodeOptions, bits: BitString, chunks: seq<seq<byte>>)
    ensures bits <= EmitAll(o, bits, chunks)
    decreases |chunks|
  {
    hide Block;
    if chunks != [] { EmitAllGrows(o, Emit(o, bits, chunks[0]), chunks[1..]); }
  }

  /** A flush emits what is pending as one block, if there is anything, and then exactly the marker: an empty
      stored block that is not the last. */
  lemma {:induction false} FlushShown(o: EncodeOptions, st: EncState)
    requires o.Ok()
    ensures var mid := if st.pending == [] then st.bits else Emit(o, st.bits, st.pending);
            (st.pending != [] ==> BlockFor(o, st, mid, false))
            && mid <= AfterFlush(o, st).bits && BeginsAs(AfterFlush(o, st).bits, |mid|, Stored, false)
            && |AfterFlush(o, st).bits| == |mid| + 3 + PadTo8(|mid| + 3) + 32
  {
    hide BlockFor, Emit, ToBits, At, BeginsAs, BytesToBits;
    EmitShown(o, st.bits, st.pending);
    assert EncState(st.bits, st.pending) == st;
    var mid := if st.pending == [] then st.bits else Emit(o, st.bits, st.pending);
    AtConcat(mid, StoredBits(|mid|, [], false));
    StoredShown(mid + StoredBits(|mid|, [], false), |mid|, [], false);
    NoBytes();
  }

  lemma {:induction false} NoBytes()
    ensures |BytesToBits([])| == 0
  {}

  /** Stored blocks are as few as can be: 65535 bytes in each but the last, and four bytes of lengths each. */
  lemma {:induction false} StoredLength(pos: nat, chunk: seq<byte>, isFinal: bool)
    ensures var blocks := if chunk == [] then 1 else (|chunk| + 65534) / 65535;
            |StoredBits(pos, chunk, isFinal)| == 3 + PadTo8(pos + 3) + 32 * blocks + 8 * (blocks - 1) + 8 * |chunk|
    decreases |chunk|
  {
    hide ToBits, BytesToBits, HeaderBits, StoredBlockBits, PadTo8, StoredBits;
    if |chunk| <= 65535 {
      OneStored(pos, chunk, isFinal);
    } else {
      var first, rest := chunk[..65535], chunk[65535..];
      var b := StoredBlockBits(pos, first, false);
      StoredLength(pos + |b|, rest, isFinal);
      WholeAfter(pos, b, first);
      FirstStored(pos, chunk, isFinal);
    }
  }

  lemma {:induction false} OneStored(pos: nat, chunk: seq<byte>, isFinal: bool)
    requires |chunk| <= 65535
    ensures |StoredBits(pos, chunk, isFinal)| == 3 + PadTo8(pos + 3) + 32 + 8 * |chunk|
  {
    hide ToBits, BytesToBits, HeaderBits, PadTo8;
  }

  lemma {:induction false} FirstStored(pos: nat, chunk: seq<byte>, isFinal: bool)
    requires |chunk| > 65535
    ensures var b := StoredBlockBits(pos, chunk[..65535], false);
            StoredBits(pos, chunk, isFinal) == b + StoredBits(pos + |b|, chunk[65535..], isFinal)
  {
    hide StoredBlockBits;
  }

  lemma {:induction false} WholeAfter(pos: nat, b: BitString, data: seq<byte>)
    requires |data| <= 65535 && b == StoredBlockBits(pos, data, false)
    ensures |b| == 3 + PadTo8(pos + 3) + 32 + 8 * |data| && PadTo8(pos + |b| + 3) == 5
  {
    hide ToBits, BytesToBits, HeaderBits;
  }

  // ----- The decoder recovers a session -----

  /** The decoder has recovered everything fed but the pending bytes. */
  ghost predicate Keeps(st: EncState, fed: seq<byte>) {
    |st.pending| <= |fed| && fed == fed[..|fed| - |st.pending|] + st.pending
    && Recovered(st.bits, fed[..|fed| - |st.pending|])
  }

  /** Moving pending bytes into a block, whatever tokens it is made of. */
  lemma {:induction false} BlockKeeps(kind: BlockKind, st: EncState, fed: seq<byte>, n: nat, ts: seq<Token>)
    requires Keeps(st, fed) && n <= |st.pending| && TokensFor(ts, st.pending[..n])
    ensures Keeps(EncState(st.bits + BlockBits(kind, |st.bits|, ts, st.pending[..n], false), st.pending[n..]), fed)
  {
    hide Recovered, BlockBits, TokensFor;
    var k := |fed| - |st.pending|;
    PendingFront(fed, st.pending, n);
    BlockRecovers(st.bits, kind, ts, st.pending[..n], false, fed[..k]);
  }

  lemma {:induction false} PendingFront(fed: seq<byte>, pending: seq<byte>, n: nat)
    requires n <= |pending| <= |fed| && fed == fed[..|fed| - |pending|] + pending
    ensures var k := |fed| - |pending|; fed[..k] + pending[..n] == fed[..k + n] && fed == fed[..k + n] + pending[n..]
  {}

  /** The final block takes all that is pending. */
  lemma {:induction false} FinalEnds(kind: BlockKind, st: EncState, fed: seq<byte>, ts: seq<Token>)
    requires Keeps(st, fed) && TokensFor(ts, st.pending)
    ensures var bits := st.bits + BlockBits(kind, |st.bits|, ts, st.pending, true);
            Ended(Padded(bits), fed, PadTo8(|bits|)) && |Padded(bits)| % 8 == 0
  {
    hide Recovered, BlockBits, TokensFor, Ended;
    var k := |fed| - |st.pending|;
    BlockRecovers(st.bits, kind, ts, st.pending, true, fed[..k]);
    assert fed[..k] + st.pending == fed;
    var bits := st.bits + BlockBits(kind, |st.bits|, ts, st.pending, true);
    PaddingIgnored(bits, fed, ToBits(0, PadTo8(|bits|)));
  }

  lemma {:induction false} EmitKeeps(o: EncodeOptions, st: EncState, fed: seq<byte>, n: nat)
    requires o.Ok() && Keeps(st, fed) && n <= |st.pending|
    ensures Keeps(EncState(Emit(o, st.bits, st.pending[..n]), st.pending[n..]), fed)
  {
    hide Keeps, BlockBits, TokensFor;
    TokensStandFor(st.pending[..n]);
    BlockKeeps(o.kind, st, fed, n, Tokens(st.pending[..n]));
  }

  lemma {:induction false} TokensStandFor(chunk: seq<byte>)
    ensures TokensFor(Tokens(chunk), chunk)
  {
    TokensExpand(chunk);
  }

  lemma {:induction false} SplitKeeps(o: EncodeOptions, st: EncState, fed: seq<byte>)
    requires o.Ok() && Keeps(st, fed)
    ensures Keeps(SplitOff(o, st), fed)
    decreases |st.pending|
  {
    hide Keeps, Emit;
    if o.limit.Some? && |st.pending| >= o.limit.value {
      var n := o.limit.value;
      EmitKeeps(o, st, fed, n);
      SplitKeeps(o, EncState(Emit(o, st.bits, st.pending[..n]), st.pending[n..]), fed);
    }
  }

  lemma {:induction false} FeedKeeps(o: EncodeOptions, st: EncState, fed: seq<byte>, data: seq<byte>)
    requires o.Ok() && Keeps(st, fed)
    ensures Keeps(AfterFeed(o, st, data), fed + data)
  {
    hide Recovered, SplitOff;
    var k, all := |fed| - |st.pending|, fed + data;
    assert all[..k] == fed[..k] && all == all[..k] + (st.pending + data);
    SplitKeeps(o, EncState(st.bits, st.pending + data), all);
  }

  /** An empty stored block: what a sync flush appends. */
  lemma {:induction false} EmptyStored(bits: BitString, fed: seq<byte>)
    requires Recovered(bits, fed)
    ensures var all := bits + StoredBits(|bits|, [], false);
            Recovered(all, fed) && |all| % 8 == 0 && |all| >= 32 && all[|all| - 32..] == BytesToBits([0, 0, 0xFF, 0xFF])
  {
    hide Recovered, BlockBits, StoredBits, TokensFor, BytesToBits;
    NoTokensForNothing();
    BlockRecovers(bits, Stored, [], [], false, fed);
    StoredIsBlock(|bits|);
    assert fed + [] == fed;
    FlushTail(bits);
  }

  lemma {:induction false} NoTokensForNothing()
    ensures TokensFor([], [])
  {}

  lemma {:induction false} StoredIsBlock(pos: nat)
    requires TokensFor([], [])
    ensures BlockBits(Stored, pos, [], [], false) == StoredBits(pos, [], false)
  {}

  /** The flush marker ends on a byte boundary, with the bytes 00 00 FF FF. */
  lemma {:induction false} FlushTail(bits: BitString)
    ensures var all := bits + StoredBits(|bits|, [], false);
            |all| % 8 == 0 && |all| >= 32 && all[|all| - 32..] == BytesToBits([0, 0, 0xFF, 0xFF])
  {
    hide ToBits, BytesToBits;
    var head, tail := HeaderBits(false, 0) + ToBits(0, PadTo8(|bits| + 3)),
        ToBits(0, 16) + ToBits(0xFFFF, 16) + BytesToBits([]);
    assert StoredBits(|bits|, [], false) == head + tail;
    MarkerBytes();
    assert |BytesToBits([])| == 0;
    assert tail == ToBits(0, 16) + ToBits(0xFFFF, 16);
    BitIo.Associative(bits, head, tail);
    EndsWith(bits + head, tail);
  }

  lemma {:induction false} EndsWith(front: BitString, tail: BitString)
    ensures (front + tail)[|front + tail| - |tail|..] == tail
  {}

  lemma {:induction false} MarkerBytes()
    ensures BytesToBits([0, 0, 0xFF, 0xFF]) == ToBits(0, 16) + ToBits(0xFFFF, 16)
  {
    hide ToBits;
    Pow2Values();
    ToBitsConcat(0, 8, 0, 8);
    ToBitsConcat(0xFF, 8, 0xFF, 8);
    BytesOfFour(0, 0, 0xFF, 0xFF);
  }

  lemma {:induction false} BytesOfFour(a: byte, b: byte, c: byte, d: byte)
    ensures BytesToBits([a, b, c, d]) == (ToBits(a, 8) + ToBits(b, 8)) + (ToBits(c, 8) + ToBits(d, 8))
  {
    hide ToBits;
    PushBits([], a);
    PushBits([a], b);
    PushBits([a, b], c);
    PushBits([a, b, c], d);
    assert [] + [a] == [a] && [a] + [b] == [a, b] && [a, b] + [c] == [a, b, c] && [a, b, c] + [d] == [a, b, c, d];
  }

  /** Everything fed is recovered at a flush, on a byte boundary, and the stream goes on. */
  lemma {:induction false} FlushRecovers(o: EncodeOptions, st: EncState, fed: seq<byte>)
    requires o.Ok() && Keeps(st, fed)
    ensures var after := AfterFlush(o, st);
            Keeps(after, fed) && after.pending == [] && Recovered(after.bits, fed) && |after.bits| % 8 == 0
            && |after.bits| >= 32 && after.bits[|after.bits| - 32..] == BytesToBits([0, 0, 0xFF, 0xFF])
  {
    hide Recovered, Emit, StoredBits;
    var n := |st.pending|;
    assert st.pending[..n] == st.pending && st.pending[n..] == [];
    if n > 0 {
      EmitKeeps(o, st, fed, n);
    }
    var bits := if st.pending == [] then st.bits else Emit(o, st.bits, st.pending);
    assert fed[..|fed|] == fed;
    EmptyStored(bits, fed);
  }

  lemma {:induction false} CallKeeps(o: EncodeOptions, st: EncState, fed: seq<byte>, call: Call)
    requires o.Ok() && Keeps(st, fed)
    ensures Keeps(AfterCall(o, st, call), fed + Bytes(call))
  {
    hide AfterFeed, AfterFlush, Recovered, Keeps;
    match call {
      case Feed(data) => FeedKeeps(o, st, fed, data);
      case SyncFlush =>
        FlushRecovers(o, st, fed);
        assert fed + [] == fed;
      case ResetHistory => assert fed + [] == fed;
    }
  }

  lemma {:induction false} SessionKeeps(o: EncodeOptions, calls: seq<Call>)
    requires o.Ok()
    ensures Keeps(Session(o, calls), Fed(calls))
  {
    hide AfterCall, Recovered, Bytes, Keeps;
    if calls == [] {
      NothingKept();
    } else {
      var front := calls[..|calls| - 1];
      SessionKeeps(o, front);
      CallKeeps(o, Session(o, front), Fed(front), calls[|calls| - 1]);
    }
  }

  lemma {:induction false} NothingKept()
    ensures Keeps(START, [])
  {
    hide Recovered, I.Run, I.Step, I.ValidState;
    NothingRecovered();
  }

  /** Round trip of whole sessions: for every block kind, block size limit and sequence of feeds, flushes
      and resets, the finished stream is whole bytes and decodes to exactly the bytes fed, ending in its
      last byte. */
  lemma {:induction false} SessionRoundTrip(o: EncodeOptions, calls: seq<Call>)
    requires o.Ok()
    ensures var all := AfterFinish(o, Session(o, calls));
            |all| % 8 == 0 && exists pad: nat :: pad < 8 && Ended(all, Fed(calls), pad)
  {
    hide Ended, Keeps, BlockBits, TokensFor, Session;
    SessionKeeps(o, calls);
    var st := Session(o, calls);
    TokensStandFor(st.pending);
    FinalEnds(o.kind, st, Fed(calls), Tokens(st.pending));
  }

  lemma {:induction false} LastFlush(o: EncodeOptions, calls: seq<Call>)
    requires o.Ok()
    ensures Session(o, calls + [SyncFlush]) == AfterFlush(o, Session(o, calls))
  {
    hide AfterFlush;
    assert (calls + [SyncFlush])[..|calls|] == calls;
  }

  /** At a flush the decoder already has everything fed, is at a byte boundary and is not finished. */
  lemma {:induction false} FlushedSession(o: EncodeOptions, calls: seq<Call>)
    requires o.Ok()
    ensures var st := Session(o, calls + [SyncFlush]);
            st.pending == [] && Recovered(st.bits, Fed(calls)) && |st.bits| % 8 == 0
            && |st.bits| >= 32 && st.bits[|st.bits| - 32..] == BytesToBits([0, 0, 0xFF, 0xFF])
  {
    hide AfterFlush, Recovered, Keeps, Session, Fed, BytesToBits;
    SessionKeeps(o, calls);
    FlushRecovers(o, Session(o, calls), Fed(calls));
    LastFlush(o, calls);
  }

  // ----- What a session depends on -----

  /** Feeding in two pieces is feeding once. */
  lemma {:induction false} SplitTwice(o: EncodeOptions, st: EncState, more: seq<byte>)
    requires o.Ok()
    ensures AfterFeed(o, SplitOff(o, st), more) == SplitOff(o, EncState(st.bits, st.pending + more))
    decreases |st.pending|
  {
    hide Emit;
    if o.limit.Some? && |st.pending| >= o.limit.value {
      var n := o.limit.value;
      var next := EncState(Emit(o, st.bits, st.pending[..n]), st.pending[n..]);
      SplitTwice(o, next, more);
      assert (st.pending + more)[..n] == st.pending[..n];
      assert (st.pending + more)[n..] == st.pending[n..] + more;
    }
  }

  lemma {:induction false} FeedsJoin(o: EncodeOptions, st: EncState, a: seq<byte>, b: seq<byte>)
    requires o.Ok()
    ensures AfterFeed(o, AfterFeed(o, st, a), b) == AfterFeed(o, st, a + b)
  {
    hide SplitOff;
    SplitTwice(o, EncState(st.bits, st.pending + a), b);
    assert (st.pending + a) + b == st.pending + (a + b);
  }

  /** The bytes between flush points: one string per flush, and those since the last one. */
  datatype Segments = Segments(flushed: seq<seq<byte>>, current: seq<byte>)

  ghost function SegmentsOf(calls: seq<Call>): Segments {
    if calls == [] then Segments([], [])
    else
      var g := SegmentsOf(calls[..|calls| - 1]);
      match calls[|calls| - 1]
      case Feed(data) => g.(current := g.current + data)
      case SyncFlush => Segments(g.flushed + [g.current], [])
      case ResetHistory => g
  }

  ghost function FlushedState(o: EncodeOptions, flushed: seq<seq<byte>>): EncState
    requires o.Ok()
  {
    if flushed == [] then START
    else AfterFlush(o, AfterFeed(o, FlushedState(o, flushed[..|flushed| - 1]), flushed[|flushed| - 1]))
  }

  lemma {:induction false} FeedNothing(o: EncodeOptions, bits: BitString)
    requires o.Ok()
    ensures AfterFeed(o, EncState(bits, []), []) == EncState(bits, [])
  {}

  lemma {:induction false} FlushedPending(o: EncodeOptions, flushed: seq<seq<byte>>)
    requires o.Ok()
    ensures FlushedState(o, flushed).pending == []
  {}

  /** Determinism: a session is a function of the bytes between flush points and nothing else.  Where
      feeds were split, what earlier calls left in the matcher, and resets of it make no difference. */
  lemma {:induction false} SessionBySegments(o: EncodeOptions, calls: seq<Call>)
    requires o.Ok()
    ensures var g := SegmentsOf(calls);
            Session(o, calls) == AfterFeed(o, FlushedState(o, g.flushed), g.current)
  {
    hide AfterFeed, AfterFlush;
    if calls == [] {
      FeedNothing(o, []);
    } else {
      var front := calls[..|calls| - 1];
      SessionBySegments(o, front);
      var g := SegmentsOf(front);
      match calls[|calls| - 1] {
        case Feed(data) => FeedsJoin(o, FlushedState(o, g.flushed), g.current, data);
        case SyncFlush =>
          var flushed := g.flushed + [g.current];
          assert flushed[..|flushed| - 1] == g.flushed;
          FlushedPending(o, flushed);
          FeedNothing(o, FlushedState(o, flushed).bits);
        case ResetHistory =>
      }
    }
  }

  lemma {:induction false} SameSegmentsSameBits(o: EncodeOptions, a: seq<Call>, b: seq<Call>)
    requires o.Ok() && SegmentsOf(a) == SegmentsOf(b)
    ensures Session(o, a) == Session(o, b)
  {
    SessionBySegments(o, a);
    SessionBySegments(o, b);
  }
}
