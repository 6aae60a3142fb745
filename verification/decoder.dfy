/** The streaming decoder (src/decode.rs).

    `Decoder` keeps, besides the source's fields, the whole stream it was fed, everything it ever
    produced, and where it is on the abstract machine.  Its invariant says that the machine started
    at bit 0 and the machine started where the decoder stands have the same run: nothing is lost by
    waiting for input, by yielding, or by discarding output. */
module Decode {
  import opened Bits
  import opened BitIo
  import opened Errors
  import opened Canonical
  import opened Huffman
  import opened Symbols
  import opened Window
  import I = Inflate

  const COMPACT_THRESHOLD: nat := 1024 * 1024
  const MAX_INTERNAL_BUFFER: nat := 64 * 1024

  /** Unread output stays below 64 KiB and one match, but for what was unread already and one byte for each
      eight bits taken: stored blocks are not held back. */
  ghost predicate Bounded(unread0: int, unread1: int, taken: int) {
    8 * (unread1 - if unread0 > 0xFFFF + 258 then unread0 else 0xFFFF + 258) <= taken
  }

  lemma {:induction false} BoundedOn(unread0: int, unread1: int, unread2: int, taken1: int, taken2: int)
    requires Bounded(unread0, unread1, taken1) && Bounded(unread1, unread2, taken2) && taken1 >= 0
    ensures Bounded(unread0, unread2, taken1 + taken2)
  {}

  /** A pointer's length is a match length. */
  lemma {:induction false} PointerSize(code: Code, i: nat, s: BitString, pos: nat)
    requires i < 29 && pos <= |s| && I.ReadPointer(code, LENGTH_TABLE[i], s, pos).Pointer?
    ensures I.ReadPointer(code, LENGTH_TABLE[i], s, pos).length <= 258
  {
    hide Decode;
    var n := LENGTH_TABLE[i].1;
    ToFromBits(s[pos..pos + n]);
    LengthAtMostMatch(i, I.Field(s, pos, n));
  }

  datatype DecodeState =
    | BlockHeader
    | StoredAlignAndLen(isFinal: bool)
    | StoredBody(remaining: nat, isFinal: bool)
    | DynamicHeader(isFinal: bool)
    | DynamicBitwidthTable(isFinal: bool, hlit: nat, hdist: nat, hclen: nat, orderIdx: nat, codeLengths: seq<nat>)
    | DynamicCodeLengths(isFinal: bool, hlit: nat, hdist: nat, bitwidthDecoder: HuffmanDecoder,
                         allCodeLengths: seq<nat>, targetLen: nat)
    | SymbolLoop(isFinal: bool, literal: HuffmanDecoder, distance: HuffmanDecoder)
    | Finished
    | Transient

  datatype StepOutcome = Progress | NeedMoreBytes | Yield | Ended

  /** The concrete state holds tables for the abstract state's codes. */
  ghost predicate Matches(st: DecodeState, m: I.State) {
    match st
    case BlockHeader => m == I.BlockHeader
    case StoredAlignAndLen(f) => m == I.StoredAlignAndLen(f)
    case StoredBody(n, f) => m == I.StoredBody(n, f)
    case DynamicHeader(f) => m == I.DynamicHeader(f)
    case DynamicBitwidthTable(f, hlit, hdist, hclen, i, l) => m == I.DynamicBitwidthTable(f, hlit, hdist, hclen, i, l)
    case DynamicCodeLengths(f, hlit, hdist, d, l, t) =>
      m.DynamicCodeLengths? && m.isFinal == f && m.hlit == hlit && m.hdist == hdist
      && m.allCodeLengths == l && t == hlit + hdist && Implements(d, m.bitwidthCode)
    case SymbolLoop(f, literal, distance) =>
      m.SymbolLoop? && m.isFinal == f && Implements(literal, m.literal) && Implements(distance, m.distance)
    case Finished => m == I.Finished
    case Transient => false
  }

  /** How many bits may be buffered in each state: less than a byte between elements everywhere but
      inside the symbol loop, none at all inside a stored body. */
  ghost predicate BufferOk(bitCount: nat, m: I.State) {
    match m
    case StoredBody(_, _) => bitCount == 0
    case SymbolLoop(_, literal, _) => bitCount <= literal.peek + 7
    case _ => bitCount <= 7
  }

  /** Read a field of the stream. */
  method ReadField(reader: BitReader, n: nat, ghost s: BitString, ghost pos: nat) returns (r: Result<nat>)
    requires reader.Valid() && pos <= |s| && reader.Remaining() == From(s, pos) && n <= 16
    modifies reader
    ensures reader.Valid()
    ensures r == if pos + n <= |s| then Ok(I.Field(s, pos, n)) else Err(UnexpectedEof)
    ensures r.Ok? ==> reader.Remaining() == From(s, pos + n) && reader.bitCount <= Max(old(reader.bitCount) - n, 7)
  {
    if pos + n <= |s| { FromSlices(s, pos, n); }
    r := reader.ReadBits(n);
  }

  // ----- Where the decoder stands on the abstract machine -----

  /** Everything fed so far, and the configuration reached. */
  datatype Track = Track(fed: seq<byte>, place: I.Config) {
    ghost function Stream(): BitString { BytesToBits(fed) }

    ghost function Rest(): BitString
      requires place.pos <= |Stream()|
    {
      From(Stream(), place.pos)
    }
  }

  /** The run from here is the run from the start: one comes to `f` exactly when the other does. */
  ghost predicate OnTrack(t: Track) {
    I.ValidConfig(t.Stream(), t.place)
    && forall f :: RunsTo(t.Stream(), I.Init, f) <==> RunsTo(t.Stream(), t.place, f)
  }

  ghost predicate RunsTo(s: BitString, c: I.Config, f: I.Final) {
    I.ValidConfig(s, c) && I.Run(s, c) == f
  }

  lemma {:induction false} OnTrackIff(t: Track)
    requires I.ValidConfig(t.Stream(), t.place)
    ensures OnTrack(t) <==> I.Run(t.Stream(), I.Init) == I.Run(t.Stream(), t.place)
  {
    hide I.Run, I.Step, BytesToBits;
    if OnTrack(t) {
      assert RunsTo(t.Stream(), I.Init, I.Run(t.Stream(), I.Init));
    }
  }

  /** The machine cannot go on without more input. */
  ghost predicate Starving(t: Track) {
    I.ValidConfig(t.Stream(), t.place) && forall o :: StepsTo(t.Stream(), t.place, o) ==> o.NeedMore?
  }

  ghost predicate StepsTo(s: BitString, c: I.Config, o: I.Outcome) {
    I.ValidConfig(s, c) && I.Step(s, c) == o
  }

  lemma {:induction false} StarvingIff(t: Track)
    requires I.ValidConfig(t.Stream(), t.place)
    ensures Starving(t) <==> I.Step(t.Stream(), t.place).NeedMore?
  {
    hide I.Step, BytesToBits;
    assert StepsTo(t.Stream(), t.place, I.Step(t.Stream(), t.place));
  }

  lemma {:induction false} OnTrackValid(t: Track)
    requires OnTrack(t)
    ensures I.ValidConfig(t.Stream(), t.place)
  {}

  /** `output` is the tail of the history; only more than a window's worth may be missing. */
  ghost predicate WindowOk(output: seq<byte>, drained: nat, history: seq<byte>) {
    drained <= |output| <= |history|
    && (forall i :: 0 <= i < |output| ==> output[i] == history[|history| - |output| + i])
    && (|output| < |history| ==> |output| >= WINDOW_SIZE)
  }

  /** Taking an abstract step stays on the run. */
  lemma {:induction false} StepsOn(t: Track, c: I.Config)
    requires OnTrack(t) && I.Step(t.Stream(), t.place) == I.Next(c)
    ensures OnTrack(t.(place := c))
    ensures t.place.pos < c.pos || (t.place.pos == c.pos && I.Rank(c.state) < I.Rank(t.place.state))
  {
    hide I.Run, I.Step, I.ValidState, OnTrack;
    OnTrackValid(t);
    I.RunNext(t.Stream(), t.place, c);
    OnTrackIff(t);
    OnTrackIff(t.(place := c));
    I.StepAdvances(t.Stream(), t.place);
  }

  /** What any concrete step does: it moves forward on the run, only ever appends output, and touches
      the input only if it consumes bits. */
  ghost predicate MovesOn(t0: Track, t1: Track, missing0: int, missing1: int, byteIndex0: nat, byteIndex1: nat) {
    t1.fed == t0.fed && t0.place.out <= t1.place.out && missing0 == missing1
    && t0.place.pos <= t1.place.pos
    && (t0.place.pos == t1.place.pos ==> t0.place.out == t1.place.out && byteIndex0 == byteIndex1)
  }

  /** What the outcome of a step says. */
  ghost predicate Tells(outcome: StepOutcome, t0: Track, t1: Track, st: DecodeState, unread: int) {
    match outcome
    case Progress =>
      !st.Finished? && (t0.place.pos < t1.place.pos || I.Rank(t1.place.state) < I.Rank(t0.place.state))
    case NeedMoreBytes =>
      !st.Finished? && Starving(t1)
    case Yield => unread >= MAX_INTERNAL_BUFFER && !st.Finished?
    case Ended => st.Finished?
  }

  /** What an error means: the whole run fails, with this error. */
  ghost predicate Fails(t: Track, r: Result<StepOutcome>) {
    r.Err? ==> FailsWith(t.fed, r.error)
  }

  ghost predicate FailsWith(fed: seq<byte>, e: Error) {
    forall f :: RunsTo(BytesToBits(fed), I.Init, f) ==> f == I.Failed(e)
  }

  lemma {:induction false} FailsWithIff(fed: seq<byte>, e: Error)
    ensures FailsWith(fed, e) <==> I.Run(BytesToBits(fed), I.Init) == I.Failed(e)
  {
    hide I.Run, I.Step, BytesToBits;
    assert RunsTo(BytesToBits(fed), I.Init, I.Run(BytesToBits(fed), I.Init));
  }

  lemma {:induction false} FailsAt(t: Track, e: Error)
    requires OnTrack(t) && I.Step(t.Stream(), t.place) == I.Fail(e)
    ensures Fails(t, Err(e))
  {
    hide I.Run, I.Step, OnTrack;
    OnTrackValid(t);
    OnTrackIff(t);
    FailsWithIff(t.fed, e);
    I.RunFails(t.Stream(), t.place, e);
  }

  lemma {:induction false} NothingFed()
    ensures OnTrack(Track([], I.Init)) && WindowOk([], 0, I.Init.out)
    ensures ToBits(0, 0) + BytesToBits([]) == Track([], I.Init).Rest()
    ensures Matches(BlockHeader, I.Init.state) && BufferOk(0, I.Init.state)
  {
    hide I.Run, I.Step;
  }

  class Decoder {
    var input: seq<byte>
    var output: seq<byte>
    var drained: nat
    var state: DecodeState
    var pendingBitBuffer: nat
    var pendingBitCount: nat
    var finished: bool

    /** The stream fed, and how far along its run the decoder is. */
    ghost var track: Track

    /** The reader stands at the tracked position, and `st` is the state there. */
    ghost predicate At(reader: BitReader, st: DecodeState)
      reads this, reader
    {
      OnTrack(track) && WindowOk(output, drained, track.place.out) && Matches(st, track.place.state)
      && reader.Valid() && reader.input == input && reader.Remaining() == track.Rest()
      && BufferOk(reader.bitCount, track.place.state)
    }

    ghost predicate Valid()
      reads this
    {
      OnTrack(track) && WindowOk(output, drained, track.place.out) && Matches(state, track.place.state)
      && BufferOk(pendingBitCount, track.place.state)
      && pendingBitBuffer < Pow2(pendingBitCount) && pendingBitCount <= 64
      && ToBits(pendingBitBuffer, pendingBitCount) + BytesToBits(input) == track.Rest()
      && (finished <==> state.Finished?)
    }

    twostate predicate Effect(reader: BitReader, outcome: StepOutcome)
      reads this, reader
    {
      At(reader, state)
      && MovesOn(old(track), track, old(|track.place.out| - |output|), |track.place.out| - |output|,
                 old(reader.byteIndex), reader.byteIndex)
      && Tells(outcome, old(track), track, state, |output| - drained)
      && Bounded(old(|output| - drained), |output| - drained, track.place.pos - old(track.place.pos))
    }

    constructor ()
      ensures Valid() && track == Track([], I.Init) && output == [] && drained == 0 && !finished
    {
      hide From, OnTrack, WindowOk, BytesToBits, ToBits, Matches, BufferOk, Pow2, I.ValidState, I.Run, I.Step,
           Track.Rest, Track.Stream;
      input, output, drained, state := [], [], 0, BlockHeader;
      pendingBitBuffer, pendingBitCount, finished := 0, 0, false;
      track := Track([], I.Init);
      new;
      NothingFed();
    }

    /** One abstract step is taken: record where it leads. */
    ghost method Move(c: I.Config)
      requires OnTrack(track) && I.Step(track.Stream(), track.place) == I.Next(c)
      modifies this`track
      ensures track == old(track).(place := c) && OnTrack(track)
      ensures old(track).place.pos < c.pos
              || (old(track).place.pos == c.pos && I.Rank(c.state) < I.Rank(old(track).place.state))
    {
      StepsOn(track, c);
      track := track.(place := c);
    }

    // ----- The steps -----

    method StepBlockHeader(reader: BitReader) returns (r: Result<StepOutcome>)
      requires At(reader, BlockHeader)
      modifies this`state, this`track, reader
      ensures r.Ok? ==> Effect(reader, r.value)
      ensures Fails(old(track), r) && (r.Err? ==> state == old(state))
    {
      hide From, I.Step, I.Field, I.ValidState, I.FixedLiteralCode, I.FixedDistanceCode, BytesToBits, FromBits,
           CodeOk, MakeCode, Implements, ToBits, Pow2, WindowOk, OnTrack, Starving, FailsWith, I.Run,
           I.StepStoredHeader, I.StepStoredBody, I.StepDynamicHeader, I.StepBitwidth, I.StepCodeLengths,
           I.StepSymbol, I.ReadLengthRun, I.EnterSymbolLoop, I.ReadPointer;
      OnTrackValid(track);
      I.BlockHeaderCase(track.Stream(), track.place);
      ghost var s, p := track.Stream(), track.place.pos;
      var snap := reader.Snapshot();
      if reader.AvailableBits() < 3 {
        state := BlockHeader;
        StarvingIff(track);
        reader.Restore(snap);
        return Ok(NeedMoreBytes);
      }
      var isFinal, blockType := ReadHeader(reader, s, p);
      r := EnterBlock(reader, isFinal, blockType);
    }

    /** The reader stands behind a block header, up to which the track has not moved yet. */
    ghost predicate BehindHeader(reader: BitReader)
      reads this, reader
    {
      OnTrack(track) && WindowOk(output, drained, track.place.out) && track.place.state == I.BlockHeader
      && track.place.pos + 3 <= |track.Stream()|
      && reader.Valid() && reader.input == input && reader.Remaining() == From(track.Stream(), track.place.pos + 3)
      && reader.bitCount <= 7
    }

    method EnterBlock(reader: BitReader, isFinal: bool, blockType: nat) returns (r: Result<StepOutcome>)
      requires BehindHeader(reader) && isFinal == track.Stream()[track.place.pos]
      requires blockType == I.Field(track.Stream(), track.place.pos + 1, 2)
      modifies this`state, this`track
      ensures r.Ok? ==>
                r.value == Progress && At(reader, state) && !state.Finished? && track.fed == old(track).fed
                && track.place.out == old(track).place.out && old(track).place.pos < track.place.pos
      ensures r.Err? ==> FailsWith(old(track).fed, r.error) && state == old(state)
    {
      hide From, I.Step, I.Field, I.ValidState, I.FixedLiteralCode, I.FixedDistanceCode, BytesToBits, FromBits,
           CodeOk, MakeCode, Implements, ToBits, Pow2, WindowOk, OnTrack, FailsWith, I.Run;
      OnTrackValid(track);
      I.BlockHeaderCase(track.Stream(), track.place);
      ghost var p, history := track.place.pos, track.place.out;
      match blockType {
        case 0 =>
          Move(I.Config(I.StoredAlignAndLen(isFinal), history, p + 3));
          state := StoredAlignAndLen(isFinal);
        case 1 =>
          var literal, distance := BuildFixedDecoders();
          if literal.Err? || distance.Err? {
            FailsAt(track, BadCodeLengths);
            return Err(BadCodeLengths);
          }
          Move(I.Config(I.SymbolLoop(isFinal, I.FixedLiteralCode().value, I.FixedDistanceCode().value), history,
                        p + 3));
          state := SymbolLoop(isFinal, literal.value, distance.value);
        case 2 =>
          Move(I.Config(I.DynamicHeader(isFinal), history, p + 3));
          state := DynamicHeader(isFinal);
        case _ =>
          FailsAt(track, ReservedBlockType);
          return Err(ReservedBlockType);
      }
      return Ok(Progress);
    }

    method StepStoredAlignAndLen(reader: BitReader, isFinal: bool) returns (r: Result<StepOutcome>)
      requires At(reader, StoredAlignAndLen(isFinal))
      modifies this`state, this`track, reader
      ensures r.Ok? ==> Effect(reader, r.value)
      ensures Fails(old(track), r) && (r.Err? ==> state == old(state))
    {
      hide From, I.Step, I.ValidState, BytesToBits, FromBits, ToBits, Pow2, WindowOk, OnTrack, Starving, FailsWith,
           I.Run, I.StepBlockHeader, I.StepStoredBody, I.StepDynamicHeader, I.StepBitwidth, I.StepCodeLengths,
           I.StepSymbol, I.ReadLengthRun, I.EnterSymbolLoop, I.ReadPointer;
      OnTrackValid(track);
      I.StoredHeaderCase(track.Stream(), track.place);
      ghost var s, p, history := track.Stream(), track.place.pos, track.place.out;
      ghost var start := p + PadTo8(p);
      var snap := reader.Snapshot();
      var residual := reader.bitCount % 8;
      ResidualIsPad(|track.fed|, p, reader.bitCount, |reader.input| - reader.byteIndex);
      if reader.AvailableBits() < residual + 32 {
        state := StoredAlignAndLen(isFinal);
        StarvingIff(track);
        reader.Restore(snap);
        return Ok(NeedMoreBytes);
      }
      AlignReader(reader, s, p);
      var len, nlen := ReadLengths(reader, s, start);
      if 0xFFFF - len != nlen {
        FailsAt(track, StoredLengthMismatch);
        return Err(StoredLengthMismatch);
      }
      Move(I.Config(I.StoredBody(len, isFinal), history, start + 32));
      state := StoredBody(len, isFinal);
      return Ok(Progress);
    }

    method StepStoredBody(reader: BitReader, remaining: nat, isFinal: bool) returns (r: Result<StepOutcome>)
      requires At(reader, StoredBody(remaining, isFinal))
      modifies this`state, this`output, this`track, reader
      ensures r.Ok? ==> Effect(reader, r.value)
      ensures Fails(old(track), r) && (r.Err? ==> state == old(state))
    {
      hide From, I.Step, I.ValidState, BytesToBits, FromBits, ToBits, Pow2, WindowOk, OnTrack, Starving, FailsWith,
           I.Run, I.StepBlockHeader, I.StepStoredHeader, I.StepDynamicHeader, I.StepBitwidth, I.StepCodeLengths,
           I.StepSymbol, I.ReadLengthRun, I.EnterSymbolLoop, I.ReadPointer;
      OnTrackValid(track);
      I.StoredBodyCase(track.Stream(), track.place);
      if remaining == 0 {
        r := EndStoredBody(reader, isFinal);
        return;
      }
      var bits := reader.AvailableBits();
      var available := bits / 8;
      if available == 0 {
        StarvingIff(track);
        state := StoredBody(remaining, isFinal);
        return Ok(NeedMoreBytes);
      }
      var take := Min(available, remaining);
      TakeStored(reader, take, remaining, isFinal);
      return Ok(Progress);
    }

    /** Take whole bytes of a stored block in bulk. */
    method TakeStored(reader: BitReader, take: nat, remaining: nat, isFinal: bool)
      requires At(reader, StoredBody(remaining, isFinal)) && 0 < take <= remaining && 8 * take <= |track.Rest()|
      modifies this`state, this`output, this`track, reader
      ensures Effect(reader, Progress)
    {
      hide From, I.Step, I.ValidState, BytesToBits, FromBits, ToBits, Pow2, WindowOk, OnTrack, Starving, I.Run,
           BitReader.Remaining, BitReader.Valid, BitReader.Unwindable, Bits.At;
      OnTrackValid(track);
      ghost var s, p, history := track.Stream(), track.place.pos, track.place.out;
      var bytes := TakeBytes(reader, take, s, p);
      StoredBytes(track, bytes);
      WindowAppend(output, drained, history, bytes);
      output := output + bytes;
      track := track.(place := I.Config(I.StoredBody(remaining - take, isFinal), history + bytes, p + 8 * take));
      state := StoredBody(remaining - take, isFinal);
    }

    /** Nothing remains of the stored block. */
    method EndStoredBody(reader: BitReader, isFinal: bool) returns (r: Result<StepOutcome>)
      requires At(reader, StoredBody(0, isFinal))
      modifies this`state, this`track
      ensures r.Ok? && Effect(reader, r.value)
    {
      hide From, I.Step, I.ValidState, BytesToBits, FromBits, ToBits, Pow2, WindowOk, OnTrack, Starving, FailsWith,
           I.Run;
      OnTrackValid(track);
      I.StoredBodyCase(track.Stream(), track.place);
      Move(I.Config(if isFinal then I.Finished else I.BlockHeader, track.place.out, track.place.pos));
      if isFinal {
        state := Finished;
        return Ok(Ended);
      }
      state := BlockHeader;
      return Ok(Progress);
    }

    method StepDynamicHeader(reader: BitReader, isFinal: bool) returns (r: Result<StepOutcome>)
      requires At(reader, DynamicHeader(isFinal))
      modifies this`state, this`track, reader
      ensures r.Ok? ==> Effect(reader, r.value)
      ensures Fails(old(track), r) && (r.Err? ==> state == old(state))
    {
      hide From, I.Step, I.ValidState, BytesToBits, FromBits, ToBits, Pow2, WindowOk, OnTrack, Starving, FailsWith,
           I.Run, I.StepBlockHeader, I.StepStoredHeader, I.StepStoredBody, I.StepBitwidth, I.StepCodeLengths,
           I.StepSymbol, I.ReadLengthRun, I.EnterSymbolLoop, I.ReadPointer;
      OnTrackValid(track);
      I.DynamicHeaderCase(track.Stream(), track.place);
      ghost var s, p, history := track.Stream(), track.place.pos, track.place.out;
      var snap := reader.Snapshot();
      if reader.AvailableBits() < 14 {
        state := DynamicHeader(isFinal);
        StarvingIff(track);
        reader.Restore(snap);
        return Ok(NeedMoreBytes);
      }
      var hlit, hdist, hclen := ReadCounts(reader, s, p);
      if hdist + 1 > |DISTANCE_TABLE| {
        FailsAt(track, TooManyDistanceCodes);
        return Err(TooManyDistanceCodes);
      }
      Move(I.Config(I.DynamicBitwidthTable(isFinal, hlit + 257, hdist + 1, hclen + 4, 0, I.Repeat(0, 19)), history,
                    p + 14));
      state := DynamicBitwidthTable(isFinal, hlit + 257, hdist + 1, hclen + 4, 0, I.Repeat(0, 19));
      return Ok(Progress);
    }

    method StepDynamicBitwidthTable(reader: BitReader, isFinal: bool, hlit: nat, hdist: nat, hclen: nat,
                                    startIdx: nat, startLengths: seq<nat>)
      returns (r: Result<StepOutcome>)
      requires At(reader, DynamicBitwidthTable(isFinal, hlit, hdist, hclen, startIdx, startLengths))
      modifies this`state, this`track, reader
      ensures r.Ok? ==> Effect(reader, r.value)
      ensures Fails(old(track), r) && (r.Err? ==> state == old(state))
    {
      hide From, BytesToBits, FromBits, ToBits, Pow2, WindowOk, OnTrack, Starving, FailsWith, I.Run, MakeCode,
           Implements, OrderSlot, I.StepBlockHeader, I.StepStoredHeader, I.StepStoredBody, I.StepDynamicHeader,
           I.StepCodeLengths, I.StepSymbol, I.ReadLengthRun, I.EnterSymbolLoop, I.ReadPointer;
      var orderIdx := startIdx;
      var codeLengths: seq<nat> := startLengths;
      OnTrackValid(track);
      while orderIdx < hclen
        invariant At(reader, DynamicBitwidthTable(isFinal, hlit, hdist, hclen, orderIdx, codeLengths))
        invariant state == old(state)
        invariant I.ValidConfig(track.Stream(), track.place)
        invariant MovesOn(old(track), track, old(|track.place.out| - |output|), |track.place.out| - |output|,
                          old(reader.byteIndex), reader.byteIndex)
        decreases hclen - orderIdx
      {
        var element := WidthElement(reader, isFinal, hlit, hdist, hclen, orderIdx, codeLengths);
        if element.None? {
          return Ok(NeedMoreBytes);
        }
        codeLengths := element.value;
        orderIdx := orderIdx + 1;
        OnTrackValid(track);
      }
      r := EnterCodeLengths(reader, isFinal, hlit, hdist, hclen, codeLengths);
    }

    /** One code-length length, put in its place; `None` if its bits are not all there. */
    method WidthElement(reader: BitReader, isFinal: bool, hlit: nat, hdist: nat, hclen: nat, orderIdx: nat,
                        codeLengths: seq<nat>)
      returns (r: Option<seq<nat>>)
      requires At(reader, DynamicBitwidthTable(isFinal, hlit, hdist, hclen, orderIdx, codeLengths)) && orderIdx < hclen
      modifies this`state, this`track, reader
      ensures r.None? ==>
                state == DynamicBitwidthTable(isFinal, hlit, hdist, hclen, orderIdx, codeLengths) && At(reader, state)
                && track == old(track) && reader.Snapshot() == old(reader.Snapshot()) && Starving(track)
      ensures r.Some? ==>
                At(reader, DynamicBitwidthTable(isFinal, hlit, hdist, hclen, orderIdx + 1, r.value))
                && track.fed == old(track).fed && track.place.out == old(track).place.out
                && old(track).place.pos < track.place.pos && state == old(state)
    {
      hide From, BytesToBits, FromBits, ToBits, Pow2, WindowOk, OnTrack, Starving, I.Run, I.Step, I.Field, OrderSlot;
      OnTrackValid(track);
      I.BitwidthCase(track.Stream(), track.place);
      ghost var s, p, history := track.Stream(), track.place.pos, track.place.out;
      var snap := reader.Snapshot();
      if reader.AvailableBits() < 3 {
        state := DynamicBitwidthTable(isFinal, hlit, hdist, hclen, orderIdx, codeLengths);
        StarvingIff(track);
        reader.Restore(snap);
        return None;
      }
      var width := ReadField(reader, 3, s, p);
      var next := codeLengths[OrderSlot(orderIdx) := width.value];
      Move(I.Config(I.DynamicBitwidthTable(isFinal, hlit, hdist, hclen, orderIdx + 1, next), history, p + 3));
      return Some(next);
    }

    method EnterCodeLengths(reader: BitReader, isFinal: bool, hlit: nat, hdist: nat, hclen: nat, codeLengths: seq<nat>)
      returns (r: Result<StepOutcome>)
      requires At(reader, DynamicBitwidthTable(isFinal, hlit, hdist, hclen, hclen, codeLengths))
      modifies this`state, this`track
      ensures r.Ok? ==> Effect(reader, r.value)
      ensures Fails(old(track), r) && (r.Err? ==> state == old(state))
      ensures r.Ok? ==> r.value.Progress? && track.place.pos == old(track.place.pos)
    {
      hide From, BytesToBits, FromBits, ToBits, Pow2, WindowOk, OnTrack, Starving, FailsWith, I.Run, MakeCode,
           Implements, OrderSlot, I.StepBlockHeader, I.StepStoredHeader, I.StepStoredBody, I.StepDynamicHeader,
           I.StepCodeLengths, I.StepSymbol, I.ReadLengthRun, I.EnterSymbolLoop, I.ReadPointer;
      OnTrackValid(track);
      var built := BuildDecoder(codeLengths, Some(1), None);
      if built.Err? {
        FailsAt(track, BadCodeLengths);
        return Err(built.error);
      }
      Move(I.Config(I.DynamicCodeLengths(isFinal, hlit, hdist, MakeCode(codeLengths, Some(1), None).value, []),
                    track.place.out, track.place.pos));
      state := DynamicCodeLengths(isFinal, hlit, hdist, built.value, [], hlit + hdist);
      return Ok(Progress);
    }

    method StepDynamicCodeLengths(reader: BitReader, isFinal: bool, hlit: nat, hdist: nat, decoder: HuffmanDecoder,
                                  start: seq<nat>, targetLen: nat)
      returns (r: Result<StepOutcome>)
      requires At(reader, DynamicCodeLengths(isFinal, hlit, hdist, decoder, start, targetLen))
      modifies this`state, this`track, reader
      ensures r.Ok? ==> Effect(reader, r.value)
      ensures Fails(old(track), r) && (r.Err? ==> state == old(state))
    {
      hide From, BytesToBits, FromBits, ToBits, Pow2, WindowOk, OnTrack, Starving, FailsWith, I.Run, MakeCode,
           Implements, I.ReadLengthRun, CodeOk, I.StepBlockHeader, I.StepStoredHeader, I.StepStoredBody,
           I.StepDynamicHeader, I.StepBitwidth, I.StepSymbol, I.EnterSymbolLoop, I.ReadPointer;
      var all: seq<nat> := start;
      ghost var code := track.place.state.bitwidthCode;
      OnTrackValid(track);
      while |all| < targetLen
        invariant At(reader, DynamicCodeLengths(isFinal, hlit, hdist, decoder, all, targetLen))
        invariant Using(code) && state == old(state)
        invariant I.ValidConfig(track.Stream(), track.place)
        invariant MovesOn(old(track), track, old(|track.place.out| - |output|), |track.place.out| - |output|,
                          old(reader.byteIndex), reader.byteIndex)
        decreases |track.Stream()| - track.place.pos
      {
        var element := LengthElement(reader, isFinal, hlit, hdist, decoder, all, targetLen, code);
        if element.Err? {
          return Err(element.error);
        }
        if element.value.None? {
          return Ok(NeedMoreBytes);
        }
        all := all + element.value.value;
        OnTrackValid(track);
      }
      r := EnterSymbolLoop(reader, isFinal, hlit, hdist, decoder, all);
    }

    /** The code lengths are read with this code. */
    ghost predicate Using(code: Code)
      reads this
    {
      track.place.state.DynamicCodeLengths? && track.place.state.bitwidthCode == code
    }

    /** One run-length element; `None` if the input ends inside it. */
    method LengthElement(reader: BitReader, isFinal: bool, hlit: nat, hdist: nat, decoder: HuffmanDecoder,
                         all: seq<nat>, targetLen: nat, ghost code: Code)
      returns (r: Result<Option<seq<nat>>>)
      requires At(reader, DynamicCodeLengths(isFinal, hlit, hdist, decoder, all, targetLen))
      requires |all| < targetLen && Using(code)
      modifies this`state, this`track, reader
      ensures r.Ok? && r.value.None? ==>
                state == DynamicCodeLengths(isFinal, hlit, hdist, decoder, all, targetLen) && At(reader, state)
                && track == old(track) && reader.Snapshot() == old(reader.Snapshot())
                && Starving(track)
      ensures r.Ok? && r.value.Some? ==>
                At(reader, DynamicCodeLengths(isFinal, hlit, hdist, decoder, all + r.value.value, targetLen))
                && Using(code) && track.fed == old(track).fed && track.place.out == old(track).place.out
                    && old(track).place.pos < track.place.pos
      ensures r.Err? ==> FailsWith(old(track).fed, r.error)
      ensures r.Err? || r.value.Some? ==> state == old(state)
    {
      hide From, BytesToBits, FromBits, ToBits, Pow2, WindowOk, OnTrack, Starving, FailsWith, I.Run, MakeCode,
           Implements, I.ReadLengthRun, CodeOk, I.StepBlockHeader, I.StepStoredHeader, I.StepStoredBody,
           I.StepDynamicHeader, I.StepBitwidth, I.StepSymbol, I.EnterSymbolLoop, I.ReadPointer;
      OnTrackValid(track);
      ghost var s, p, history := track.Stream(), track.place.pos, track.place.out;
      var snap := reader.Snapshot();
      var run := ReadRun(reader, decoder, all, code, s, p);
      if run.Err? {
        if run.error == UnexpectedEof {
          StarvingIff(track);
          reader.Restore(snap);
          state := DynamicCodeLengths(isFinal, hlit, hdist, decoder, all, targetLen);
          return Ok(None);
        }
        FailsAt(track, run.error);
        return Err(run.error);
      }
      if |all + run.value| > targetLen {
        FailsAt(track, TooManyCodeLengths);
        return Err(TooManyCodeLengths);
      }
      Move(I.Config(I.DynamicCodeLengths(isFinal, hlit, hdist, code, all + run.value), history,
                    I.ReadLengthRun(code, all, s, p).end));
      return Ok(Some(run.value));
    }

    method EnterSymbolLoop(reader: BitReader, isFinal: bool, hlit: nat, hdist: nat, decoder: HuffmanDecoder,
        all: seq<nat>)
      returns (r: Result<StepOutcome>)
      requires At(reader, DynamicCodeLengths(isFinal, hlit, hdist, decoder, all, hlit + hdist)) && |all| == hlit + hdist
      modifies this`state, this`track
      ensures r.Ok? ==> Effect(reader, r.value)
      ensures Fails(old(track), r) && (r.Err? ==> state == old(state))
      ensures r.Ok? ==> r.value.Progress? && track.place.pos == old(track.place.pos)
    {
      hide From, BytesToBits, FromBits, ToBits, Pow2, WindowOk, OnTrack, Starving, FailsWith, I.Run, MakeCode,
           Implements, I.LoopCodes, CodeOk, I.StepBlockHeader, I.StepStoredHeader, I.StepStoredBody,
           I.StepDynamicHeader, I.StepBitwidth, I.StepSymbol, I.ReadLengthRun, I.ReadPointer;
      OnTrackValid(track);
      var literal := BuildDecoder(all[..hlit], None, Some(END_OF_BLOCK));
      if literal.Err? {
        FailsAt(track, BadCodeLengths);
        return Err(literal.error);
      }
      ghost var lit := MakeCode(all[..hlit], None, Some(END_OF_BLOCK)).value;
      SamePeek(literal.value, lit);
      var distance := BuildDecoder(all[hlit..], Some(literal.value.safelyPeekBits), None);
      if distance.Err? {
        FailsAt(track, BadCodeLengths);
        return Err(distance.error);
      }
      ghost var dist := MakeCode(all[hlit..], Some(lit.peek), None).value;
      Move(I.Config(I.SymbolLoop(isFinal, lit, dist), track.place.out, track.place.pos));
      state := SymbolLoop(isFinal, literal.value, distance.value);
      return Ok(Progress);
    }

    /** Decode symbols until the block ends, the output cap is reached, or the input runs out. */
    method StepSymbolLoop(reader: BitReader, isFinal: bool, literal: HuffmanDecoder, distance: HuffmanDecoder)
      returns (r: Result<StepOutcome>)
      requires At(reader, SymbolLoop(isFinal, literal, distance))
      modifies this`state, this`output, this`track, reader
      ensures r.Ok? ==> Effect(reader, r.value)
      ensures Fails(old(track), r) && (r.Err? ==> state == old(state))
      ensures old(|output| - drained) >= 0x1_0000 ==> r == Ok(Yield) && output == old(output) && track == old(track)
      ensures r.Ok? ==> |output| == old(|output|) || |output| - drained < 0x1_0000 + 258
    {
      hide From, BytesToBits, FromBits, ToBits, Pow2, WindowOk, OnTrack, Starving, FailsWith, I.Run, I.Step,
           Implements, CodeOk, I.LoopCodes;
      OnTrackValid(track);
      while true
        invariant At(reader, SymbolLoop(isFinal, literal, distance)) && state == old(state)
        invariant (output == old(output) && track == old(track)) || |output| - drained < 0x1_0000 + 258
        invariant old(|output| - drained) >= 0x1_0000 ==> output == old(output) && track == old(track)
        invariant I.ValidConfig(track.Stream(), track.place)
        invariant MovesOn(old(track), track, old(|track.place.out| - |output|), |track.place.out| - |output|,
                          old(reader.byteIndex), reader.byteIndex)
        decreases |track.Stream()| - track.place.pos
      {
        if |output| - drained >= MAX_INTERNAL_BUFFER {
          state := SymbolLoop(isFinal, literal, distance);
          return Ok(Yield);
        }
        var element := SymbolElement(reader, isFinal, literal, distance);
        if element.Err? {
          return Err(element.error);
        }
        if element.value.Some? {
          return Ok(element.value.value);
        }
        OnTrackValid(track);
      }
    }

    /** One pass through the symbol loop: `None` means the loop goes on. */
    method SymbolElement(reader: BitReader, isFinal: bool, literal: HuffmanDecoder, distance: HuffmanDecoder)
      returns (r: Result<Option<StepOutcome>>)
      requires At(reader, SymbolLoop(isFinal, literal, distance))
      modifies this`state, this`output, this`track, reader
      ensures r.Ok? && r.value.Some? ==> Effect(reader, r.value.value)
      ensures r.Ok? && r.value.None? ==>
                At(reader, SymbolLoop(isFinal, literal, distance)) && old(track).place.pos < track.place.pos
                && MovesOn(old(track), track, old(|track.place.out| - |output|), |track.place.out| - |output|,
                           old(reader.byteIndex), reader.byteIndex)
      ensures r.Ok? ==> |output| <= old(|output|) + if r.value.None? then 258 else 0
      ensures r.Err? ==> FailsWith(old(track).fed, r.error)
      ensures r.Err? || r.value.None? ==> state == old(state)
    {
      hide From, I.Step, BytesToBits, FromBits, ToBits, Pow2, WindowOk, OnTrack, Starving, FailsWith, I.Run,
           Implements, Decode, I.ReadPointer, CopyBytewise, CodeOk, I.LoopCodes, I.StepBlockHeader,
           I.StepStoredHeader, I.StepStoredBody, I.StepDynamicHeader, I.StepBitwidth, I.StepCodeLengths,
           I.ReadLengthRun, I.EnterSymbolLoop;
      OnTrackValid(track);
      I.SymbolCase(track.Stream(), track.place);
      ghost var s, p, history, m := track.Stream(), track.place.pos, track.place.out, track.place.state;
      var snap := reader.Snapshot();
      var symbol := DecodeLiteral(reader, literal, m, s, p);
      if symbol.Err? {
        if symbol.error == UnexpectedEof {
          StarvingIff(track);
          reader.Restore(snap);
          state := SymbolLoop(isFinal, literal, distance);
          return Ok(Some(NeedMoreBytes));
        }
        FailsAt(track, symbol.error);
        return Err(symbol.error);
      }
      r := ActOnSymbol(reader, symbol.value, isFinal, literal, distance, snap, p + Decode(m.literal, s, p).width);
    }

    /** A literal, the end of the block, or the beginning of a pointer. */
    method ActOnSymbol(reader: BitReader, symbol: nat, isFinal: bool, literal: HuffmanDecoder,
                       distance: HuffmanDecoder, snap: BitReaderState, ghost next: nat)
      returns (r: Result<Option<StepOutcome>>)
      requires BehindSymbol(reader, SymbolLoop(isFinal, literal, distance), symbol, next) && Resumable(reader, snap)
      requires symbol == END_OF_BLOCK ==> reader.bitCount <= 7
      requires track.place.pos < next
      modifies this`state, this`output, this`track, reader
      ensures r.Ok? && r.value == Some(NeedMoreBytes) ==>
                At(reader, state) && state == SymbolLoop(isFinal, literal, distance) && track == old(track)
                && output == old(output) && reader.Snapshot() == snap && Starving(track)
      ensures r.Ok? && r.value != Some(NeedMoreBytes) ==>
                At(reader, if r.value.Some? then state else SymbolLoop(isFinal, literal, distance))
                && old(track).place.pos < track.place.pos && track.fed == old(track).fed
                && old(track).place.out <= track.place.out
                && |track.place.out| - |output| == old(|track.place.out| - |output|)
      ensures r.Ok? ==> |output| <= old(|output|) + if r.value.None? then 258 else 0
      ensures r.Ok? && r.value.Some? && r.value != Some(NeedMoreBytes) ==>
                r.value.value == if state.Finished? then Ended else Progress
      ensures r.Err? ==> FailsWith(old(track).fed, r.error)
      ensures r.Err? || r.value.None? ==> state == old(state)
    {
      hide From, I.Step, BytesToBits, FromBits, ToBits, Pow2, WindowOk, OnTrack, Starving, FailsWith, I.Run,
           Implements, Decode, I.ReadPointer, CopyBytewise, CodeOk, I.LoopCodes;
      OnTrackValid(track);
      I.SymbolCase(track.Stream(), track.place);
      ghost var history, m := track.place.out, track.place.state;
      if symbol <= 255 {
        WindowAppend(output, drained, history, [symbol]);
        output := output + [symbol];
        Move(I.Config(m, history + [symbol], next));
        return Ok(None);
      } else if symbol == END_OF_BLOCK {
        Move(I.Config(if isFinal then I.Finished else I.BlockHeader, history, next));
        state := if isFinal then Finished else BlockHeader;
        return Ok(Some(if isFinal then Ended else Progress));
      } else if symbol <= 285 {
        r := PointerElement(reader, symbol, isFinal, literal, distance, snap, next);
      } else {
        FailsAt(track, InvalidLiteralLengthSymbol);
        return Err(InvalidLiteralLengthSymbol);
      }
    }

    /** The reader stands behind a symbol, up to which the track has not moved yet. */
    ghost predicate BehindSymbol(reader: BitReader, st: DecodeState, symbol: nat, next: nat)
      reads this, reader
    {
      OnTrack(track) && WindowOk(output, drained, track.place.out) && st.SymbolLoop? && Matches(st, track.place.state)
      && track.place.pos <= next <= |track.Stream()|
      && DecodesTo(track.Stream(), track.place.state, track.place.pos, symbol, next - track.place.pos)
      && reader.Valid() && reader.input == input && reader.Remaining() == From(track.Stream(), next)
      && reader.bitCount <= track.place.state.literal.peek + 7
    }

    /** The pointer case: roll back to `snap` if the input ends inside the pointer. */
    method PointerElement(reader: BitReader, symbol: nat, isFinal: bool, literal: HuffmanDecoder,
        distance: HuffmanDecoder,
                          snap: BitReaderState, ghost next: nat)
      returns (r: Result<Option<StepOutcome>>)
      requires BehindSymbol(reader, SymbolLoop(isFinal, literal, distance), symbol, next) && 257 <= symbol <= 285
      requires Resumable(reader, snap)
      modifies this`state, this`output, this`track, reader
      ensures r.Ok? && r.value.Some? ==>
                r.value.value == NeedMoreBytes && At(reader, state) && state == SymbolLoop(isFinal, literal, distance)
                && track == old(track) && output == old(output) && reader.Snapshot() == snap && Starving(track)
      ensures r.Ok? && r.value.None? ==>
                At(reader, SymbolLoop(isFinal, literal, distance)) && old(track).place.pos < track.place.pos
                && track.fed == old(track).fed && old(track).place.out <= track.place.out
                && |track.place.out| - |output| == old(|track.place.out| - |output|)
      ensures r.Ok? ==> |output| <= old(|output|) + 258
      ensures r.Err? ==> FailsWith(old(track).fed, r.error)
      ensures r.Err? || r.value.None? ==> state == old(state)
    {
      hide From, I.Step, BytesToBits, FromBits, ToBits, Pow2, WindowOk, OnTrack, Starving, FailsWith, I.Run,
           Implements, Decode, I.ReadPointer, CopyBytewise, CodeOk, I.LoopCodes, I.StepBlockHeader,
           I.StepStoredHeader, I.StepStoredBody, I.StepDynamicHeader, I.StepBitwidth, I.StepCodeLengths,
           I.ReadLengthRun, I.EnterSymbolLoop, I.ReadDistance, I.Field;
      OnTrackValid(track);
      I.SymbolCase(track.Stream(), track.place);
      ghost var s, history, m := track.Stream(), track.place.out, track.place.state;
      LoopPeeks(m);
      var row := LENGTH_TABLE[symbol - 257];
      ExtraBitsBound(symbol - 257);
      var pointer := ReadPointerBits(reader, distance, row, m, s, next);
      if pointer.Err? {
        if pointer.error == UnexpectedEof {
          StarvingIff(track);
          reader.Restore(snap);
          state := SymbolLoop(isFinal, literal, distance);
          return Ok(Some(NeedMoreBytes));
        }
        FailsAt(track, pointer.error);
        return Err(pointer.error);
      }
      var (length, back) := pointer.value;
      PointerSize(m.distance, symbol - 257, s, next);
      WindowCopies(output, drained, history, back, length);
      var copied := CopyFromDistance(output, back, length);
      if copied.Err? {
        FailsAt(track, TooLongBackReference);
        return Err(copied.error);
      }
      output := copied.value;
      Move(I.Config(m, CopyBytewise(history, back, length), I.ReadPointer(m.distance, row, s, next).end));
      return Ok(None);
    }

    /** `snap` is a reader position from which the tracked place can be resumed. */
    ghost predicate Resumable(reader: BitReader, snap: BitReaderState)
      reads this, reader
    {
      snap.byteIndex <= |reader.input| && snap.bitCount <= 64 && snap.bitBuffer < Pow2(snap.bitCount)
      && track.place.pos <= |track.Stream()|
      && ToBits(snap.bitBuffer, snap.bitCount) + BytesToBits(reader.input[snap.byteIndex..]) == track.Rest()
      && BufferOk(snap.bitCount, track.place.state)
    }

    method Step(reader: BitReader) returns (r: Result<StepOutcome>)
      requires At(reader, state)
      modifies this`state, this`output, this`track, reader
      ensures r.Ok? ==> Effect(reader, r.value)
      ensures Fails(old(track), r) && (r.Err? ==> state == Transient)
    {
      hide From, BytesToBits, FromBits, ToBits, Pow2, WindowOk, OnTrack, Starving, FailsWith, I.Run, I.Step,
           Implements, CodeOk, I.LoopCodes;
      OnTrackValid(track);
      var current := state;
      state := Transient;
      match current
      case BlockHeader => r := StepBlockHeader(reader);
      case StoredAlignAndLen(isFinal) => r := StepStoredAlignAndLen(reader, isFinal);
      case StoredBody(remaining, isFinal) => r := StepStoredBody(reader, remaining, isFinal);
      case DynamicHeader(isFinal) => r := StepDynamicHeader(reader, isFinal);
      case DynamicBitwidthTable(isFinal, hlit, hdist, hclen, orderIdx, codeLengths) =>
        r := StepDynamicBitwidthTable(reader, isFinal, hlit, hdist, hclen, orderIdx, codeLengths);
      case DynamicCodeLengths(isFinal, hlit, hdist, decoder, all, targetLen) =>
        r := StepDynamicCodeLengths(reader, isFinal, hlit, hdist, decoder, all, targetLen);
      case SymbolLoop(isFinal, literal, distance) => r := StepSymbolLoop(reader, isFinal, literal, distance);
      case Finished =>
        state := Finished;
        return Ok(Ended);
    }

    // ----- Feeding and draining -----

    /** Bytes the caller has acknowledged so far. */
    ghost function Delivered(): int
      reads this
    {
      |track.place.out| - |output| + drained
    }

    /** Run the machine until it ends, starves or has enough unread output. */
    method Drive() returns (r: Result<()>)
      requires Valid()
      modifies this
      ensures r.Ok? ==> Valid() && track.fed == old(track).fed && drained == old(drained)
      ensures r.Ok? ==> old(track).place.out <= track.place.out && Delivered() == old(Delivered())
      ensures r.Ok? ==> old(track).place.pos <= track.place.pos
      ensures r.Ok? && track.place.pos == old(track).place.pos ==>
                track.place.out == old(track).place.out && input == old(input)
      ensures r.Ok? ==> finished || Starving(track) || |output| - drained >= MAX_INTERNAL_BUFFER
      ensures r.Ok? ==> Bounded(old(|output| - drained), |output| - drained, track.place.pos - old(track.place.pos))
      ensures r.Err? ==> FailsWith(old(track).fed, r.error) && state == Transient
    {
      hide From, BytesToBits, FromBits, ToBits, Pow2, WindowOk, OnTrack, I.Run, I.Step, Matches, I.ValidState,
           I.LoopCodes, CodeOk, BufferOk, Starving, FailsWith, Track.Rest;
      var reader := new BitReader(input, pendingBitBuffer, pendingBitCount);
      OnTrackValid(track);
      assert input[0..] == input;
      var ended := false;
      while true
        invariant At(reader, state) && track.fed == old(track).fed
        invariant drained == old(drained) && finished == old(finished) && input == old(input)
        invariant MovesOn(old(track), track, old(|track.place.out| - |output|), |track.place.out| - |output|, 0,
                          reader.byteIndex)
        invariant I.ValidConfig(track.Stream(), track.place)
        invariant Bounded(old(|output| - drained), |output| - drained, track.place.pos - old(track.place.pos))
        decreases |track.Stream()| - track.place.pos, I.Rank(track.place.state)
      {
        var outcome := Step(reader);
        if outcome.Err? {
          return Err(outcome.error);
        }
        OnTrackValid(track);
        if outcome.value != Progress {
          ended := outcome.value.Ended?;
          break;
        }
      }
      input := input[reader.byteIndex..];
      pendingBitBuffer, pendingBitCount := reader.bitBuffer, reader.bitCount;
      finished := ended;
      return Ok(());
    }

    /** Append compressed bytes and decode as far as possible.  Whatever the split, the decoder is
        then either finished at the end of the whole stream's run, or starved exactly where that run
        stops, or holding back because the caller has 64 KiB to drain; and an error means the whole
        stream's run fails with it, unless bytes came after the end.  That one error changes nothing;
        every other one leaves the placeholder state behind. */
    method Feed(data: seq<byte>) returns (r: Result<()>)
      requires Valid()
      modifies this
      ensures r.Ok? ==> Valid() && track.fed == old(track).fed + data && drained == old(drained)
      ensures r.Ok? ==> old(track).place.out <= track.place.out && Delivered() == old(Delivered())
      ensures r.Ok? && finished ==> I.Run(track.Stream(), I.Init) == I.Complete(track.place)
      ensures r.Ok? && finished ==> input == track.fed[(track.place.pos + 7) / 8..]
      ensures r.Ok? ==> Bounded(old(|output| - drained), |output| - drained, track.place.pos - old(track.place.pos))
      ensures r.Ok? && !finished && |output| - drained < 0x1_0000 ==>
                I.Run(track.Stream(), I.Init) == I.Stuck(track.place)
      ensures r.Ok? && track.place.pos == old(track).place.pos ==>
                track.place.out == old(track).place.out && input == old(input) + data
      ensures r.Ok? ==> old(track).place.pos <= track.place.pos
      ensures old(finished) && data != [] ==> r == Err(FedAfterEnd) && unchanged(this)
      ensures r.Err? && !(old(finished) && data != []) ==>
                I.Run(BytesToBits(old(track).fed + data), I.Init) == I.Failed(r.error)
      ensures state == Transient <==> r.Err? && !(old(finished) && data != [])
    {
      hide From, BytesToBits, FromBits, ToBits, Pow2, WindowOk, OnTrack, I.Run, I.Step, I.ValidState, Matches,
           BufferOk, Starving;
      InSomeState(this);
      if finished && data != [] {
        return Err(FedAfterEnd);
      }
      OnTrackValid(track);
      FedMore(track, data, ToBits(pendingBitBuffer, pendingBitCount), input);
      track := track.(fed := track.fed + data);
      input := input + data;
      r := Drive();
      if r.Err? {
        FailsWithIff(old(track).fed + data, r.error);
      } else {
        InSomeState(this);
        if finished {
          FinishedHere(this);
        } else if Starving(track) {
          RunStarves(track);
        }
      }
    }

    /** Decompressed bytes not yet acknowledged: the history after what was delivered. */
    function Output(): (out: seq<byte>)
      requires Valid()
      reads this
      ensures 0 <= Delivered() <= |track.place.out| && track.place.out == track.place.out[..Delivered()] + out
    {
      WindowDrained(output, drained, track.place.out);
      output[drained..]
    }

    /** Acknowledge `n` bytes; the stream position and the history are untouched, and the window
        that later back-references need is kept.  Of a megabyte or more, only the window or the unread bytes
        are kept. */
    method Advance(n: nat)
      requires Valid() && n <= |output| - drained
      modifies this`drained, this`output
      ensures Valid() && Delivered() == old(Delivered()) + n
      ensures |output| - drained == old(|output| - drained) - n
      ensures |output| < 0x10_0000 || |output| == 0x8000 || drained == 0
    {
      hide From, OnTrack, BytesToBits, ToBits, Pow2, Matches, BufferOk, Track.Rest, Track.Stream;
      drained := drained + n;
      MaybeCompact();
    }

    method MaybeCompact()
      requires Valid()
      modifies this`drained, this`output
      ensures Valid() && Delivered() == old(Delivered()) && |output| - drained == old(|output| - drained)
      ensures |output| < 0x10_0000 || |output| == 0x8000 || drained == 0
    {
      hide From, OnTrack, BytesToBits, ToBits, Pow2, Matches, BufferOk;
      if |output| < COMPACT_THRESHOLD {
        return;
      }
      var windowStart := if |output| < WINDOW_SIZE then 0 else |output| - WINDOW_SIZE;
      var keepFrom := Min(drained, windowStart);
      if keepFrom == 0 {
        return;
      }
      WindowTrimmed(output, drained, keepFrom, track.place.out);
      output := output[keepFrom..];
      drained := drained - keepFrom;
    }
  }

  /** A usable decoder is not left in the placeholder state. */
  lemma {:induction false} InSomeState(d: Decoder)
    requires d.Valid()
    ensures d.state != Transient
  {}

  /** A finished decoder stands at the end of the run, and its unread input starts with the next byte. */
  lemma {:induction false} FinishedHere(d: Decoder)
    requires d.Valid() && d.finished
    ensures I.Run(d.track.Stream(), I.Init) == I.Complete(d.track.place)
    ensures (d.track.place.pos + 7) / 8 <= |d.track.fed|
    ensures d.input == d.track.fed[(d.track.place.pos + 7) / 8..]
  {
    hide BytesToBits, ToBits, Pow2, WindowOk, OnTrack, I.Run, I.Step, I.ValidState, From;
    OnTrackValid(d.track);
    RunEnds(d.track);
    RemainingBytes(d.track, d.pendingBitBuffer, d.pendingBitCount, d.input);
  }

  lemma {:induction false} OneBitField(s: BitString, pos: nat)
    requires pos < |s|
    ensures I.Field(s, pos, 1) != 0 <==> s[pos]
  {
    assert s[pos..pos + 1] == [s[pos]];
    assert FromBits([s[pos]]) == BitVal(s[pos]);
  }

  method BuildFixedDecoders() returns (literal: Result<HuffmanDecoder>, distance: Result<HuffmanDecoder>)
    ensures literal.Ok? <==> I.FixedLiteralCode().Some?
    ensures distance.Ok? <==> I.FixedDistanceCode().Some?
    ensures literal.Ok? ==> Implements(literal.value, I.FixedLiteralCode().value)
    ensures distance.Ok? ==> Implements(distance.value, I.FixedDistanceCode().value)
  {
    hide From, MakeCode;
    var lengths := FixedLiteralCodeLengths();
    literal := BuildDecoder(lengths[..], None, Some(END_OF_BLOCK));
    distance := BuildDecoder(FixedDistanceLengths(), Some(7), None);
  }

  lemma {:induction false} SamePeek(d: HuffmanDecoder, c: Code)
    requires Implements(d, c)
    ensures d.safelyPeekBits == c.peek
  {}

  /** Read the three bits of a block header. */
  method ReadHeader(reader: BitReader, ghost s: BitString, ghost pos: nat) returns (isFinal: bool, blockType: nat)
    requires reader.Valid() && pos + 3 <= |s| && reader.Remaining() == From(s, pos)
    modifies reader
    ensures reader.Valid() && reader.Remaining() == From(s, pos + 3)
    ensures reader.bitCount <= Max(old(reader.bitCount) - 3, 7)
    ensures isFinal == s[pos] && blockType == I.Field(s, pos + 1, 2)
  {
    hide From, BytesToBits, FromBits, ToBits, Pow2, I.Field;
    var finalBit := ReadField(reader, 1, s, pos);
    var typeField := ReadField(reader, 2, s, pos + 1);
    OneBitField(s, pos);
    isFinal, blockType := finalBit.value != 0, typeField.value;
  }

  /** Read the three counts of a dynamic header. */
  method ReadCounts(reader: BitReader, ghost s: BitString, ghost pos: nat)
    returns (hlit: nat, hdist: nat, hclen: nat)
    requires reader.Valid() && pos + 14 <= |s| && reader.Remaining() == From(s, pos)
    modifies reader
    ensures reader.Valid() && reader.Remaining() == From(s, pos + 14)
    ensures reader.bitCount <= Max(old(reader.bitCount) - 14, 7)
    ensures hlit == I.Field(s, pos, 5) && hdist == I.Field(s, pos + 5, 5) && hclen == I.Field(s, pos + 10, 4)
  {
    hide From, BytesToBits, FromBits, ToBits, Pow2, I.Field;
    var first := ReadField(reader, 5, s, pos);
    var second := ReadField(reader, 5, s, pos + 5);
    var third := ReadField(reader, 4, s, pos + 10);
    hlit, hdist, hclen := first.value, second.value, third.value;
  }

  /** Drop the bits left of the current byte. */
  method AlignReader(reader: BitReader, ghost s: BitString, ghost pos: nat)
    requires reader.Valid() && reader.bitCount <= 7 && pos + reader.bitCount <= |s|
    requires reader.Remaining() == From(s, pos)
    modifies reader
    ensures reader.Valid() && reader.bitCount == 0 && reader.Remaining() == From(s, pos + old(reader.bitCount))
  {
    hide BytesToBits, ToBits, Pow2;
    FromSlices(s, pos, reader.bitCount);
    reader.AlignToByte();
  }

  /** Read whole bytes, with nothing buffered. */
  method TakeBytes(reader: BitReader, n: nat, ghost s: BitString, ghost pos: nat) returns (bytes: seq<byte>)
    requires reader.Valid() && reader.bitCount == 0 && pos + 8 * n <= |s| && reader.Remaining() == From(s, pos)
    modifies reader
    ensures reader.Valid() && reader.bitCount == 0 && reader.Remaining() == From(s, pos + 8 * n)
    ensures |bytes| == n && Bits.At(s, pos, BytesToBits(bytes))
  {
    hide BytesToBits, ToBits, Pow2;
    FromSlices(s, pos, 8 * n);
    NothingBuffered(reader);
    var read := reader.ReadBytes(n);
    bytes := read.value;
  }

  /** Read a stored block's length and its complement, four whole bytes. */
  method ReadLengths(reader: BitReader, ghost s: BitString, ghost start: nat) returns (len: nat, nlen: nat)
    requires reader.Valid() && reader.bitCount == 0 && start + 32 <= |s| && reader.Remaining() == From(s, start)
    modifies reader
    ensures reader.Valid() && reader.bitCount == 0 && reader.Remaining() == From(s, start + 32)
    ensures len == I.Field(s, start, 16) <= 0xFFFF && nlen == I.Field(s, start + 16, 16)
  {
    hide From, BytesToBits, FromBits, ToBits, Pow2, I.Field, Bits.At;
    var bytes := TakeBytes(reader, 4, s, start);
    len, nlen := U16(bytes[0], bytes[1]), U16(bytes[2], bytes[3]);
    LengthFields(s, start, bytes);
  }

  /** Read one run-length element of the code lengths. */
  method ReadRun(reader: BitReader, decoder: HuffmanDecoder, sofar: seq<nat>, ghost code: Code, ghost s: BitString,
      ghost pos: nat)
    returns (r: Result<seq<nat>>)
    requires Implements(decoder, code) && code.peek == 1
    requires reader.Valid() && pos <= |s| && reader.Remaining() == From(s, pos) && reader.bitCount <= 7
    modifies reader
    ensures reader.Valid()
    ensures match I.ReadLengthRun(code, sofar, s, pos)
            case LengthRun(more, end) => r == Ok(more) && reader.Remaining() == From(s, end) && reader.bitCount <= 7
            case RunNeedsBits => r == Err(UnexpectedEof)
            case RunError(e) => r == Err(e) && e != UnexpectedEof
  {
    hide From, Implements, FromBits, ToBits, BytesToBits, Decode, CodeOk, I.Repeat;
    var decoded := DecodeSymbol(decoder, reader, code, s, pos);
    if decoded.Err? {
      return Err(decoded.error);
    }
    var symbol := decoded.value;
    ghost var p := pos + Decode(code, s, pos).width;
    if symbol <= 15 {
      return Ok([symbol]);
    } else if symbol == 16 {
      var extra := ReadField(reader, 2, s, p);
      if extra.Err? {
        return Err(extra.error);
      }
      if sofar == [] {
        return Err(RepeatWithoutPrevious);
      }
      return Ok(I.Repeat(sofar[|sofar| - 1], extra.value + 3));
    } else if symbol == 17 {
      var extra := ReadField(reader, 3, s, p);
      return if extra.Err? then Err(extra.error) else Ok(I.Repeat(0, extra.value + 3));
    } else if symbol == 18 {
      var extra := ReadField(reader, 7, s, p);
      return if extra.Err? then Err(extra.error) else Ok(I.Repeat(0, extra.value + 11));
    } else {
      return Err(InvalidCodeLengthSymbol);
    }
  }

  /** Decode a literal/length symbol.  Asking for the end-of-block width first keeps the buffer below
      a byte once the end-of-block codeword is taken. */
  method DecodeLiteral(reader: BitReader, d: HuffmanDecoder, ghost m: I.State, ghost s: BitString, ghost pos: nat)
    returns (r: Result<nat>)
    requires m.SymbolLoop? && Implements(d, m.literal) && I.LoopCodes(m.literal, m.distance)
    requires reader.Valid() && pos <= |s| && reader.Remaining() == From(s, pos) && reader.bitCount <= m.literal.peek + 7
    modifies reader
    ensures reader.Valid()
    ensures match Decode(m.literal, s, pos)
            case Symbol(symbol, width) =>
              r == Ok(symbol) && symbol < 288 && reader.Remaining() == From(s, pos + width)
              && reader.bitCount <= m.literal.peek + 7 && (symbol == END_OF_BLOCK ==> reader.bitCount <= 7)
            case NeedBits => r == Err(UnexpectedEof)
            case BadCode => r == Err(InvalidCode)
  {
    hide From, Implements, FromBits, ToBits, BytesToBits, Decode, CodeOk;
    r := DecodeSymbol(d, reader, m.literal, s, pos);
    if Decode(m.literal, s, pos).Symbol? {
      ghost var i := DecodeSound(m.literal, s, pos);
    }
  }

  /** Read the rest of a pointer: extra length bits, distance symbol, extra distance bits. */
  method ReadPointerBits(reader: BitReader, d: HuffmanDecoder, row: (nat, nat), ghost m: I.State, ghost s: BitString,
      ghost pos: nat)
    returns (r: Result<(nat, nat)>)
    requires m.SymbolLoop? && Implements(d, m.distance) && m.distance.peek <= m.literal.peek && row.1 <= 13
    requires reader.Valid() && pos <= |s| && reader.Remaining() == From(s, pos) && reader.bitCount <= m.literal.peek + 7
    modifies reader
    ensures reader.Valid() && PointerAs(I.ReadPointer(m.distance, row, s, pos), r, s, reader.Remaining())
    ensures r.Ok? ==> reader.bitCount <= m.literal.peek + 7
  {
    hide From, Implements, ToBits, BytesToBits, FromBits, CodeOk, I.ReadDistance;
    var lengthExtra := ReadField(reader, row.1, s, pos);
    if lengthExtra.Err? {
      return Err(lengthExtra.error);
    }
    r := ReadDistanceBits(reader, d, row.0 + lengthExtra.value, m, s, pos + row.1);
  }

  ghost predicate PointerAs(p: I.Pointer, r: Result<(nat, nat)>, s: BitString, rest: BitString) {
    match p
    case Pointer(length, distance, end) =>
      r == Ok((length, distance)) && end <= |s| && rest == From(s, end) && 1 <= distance <= WINDOW_SIZE
    case PointerNeedsBits => r == Err(UnexpectedEof)
    case PointerError(e) => r == Err(e) && e != UnexpectedEof
  }

  method ReadDistanceBits(reader: BitReader, d: HuffmanDecoder, length: nat, ghost m: I.State, ghost s: BitString,
      ghost pos: nat)
    returns (r: Result<(nat, nat)>)
    requires m.SymbolLoop? && Implements(d, m.distance) && m.distance.peek <= m.literal.peek
    requires reader.Valid() && pos <= |s| && reader.Remaining() == From(s, pos) && reader.bitCount <= m.literal.peek + 7
    modifies reader
    ensures reader.Valid() && PointerAs(I.ReadDistance(m.distance, length, s, pos), r, s, reader.Remaining())
    ensures r.Ok? ==> reader.bitCount <= m.literal.peek + 7
  {
    hide From, Implements, ToBits, BytesToBits, FromBits, Decode, CodeOk, Pow2;
    var symbol := DecodeSymbol(d, reader, m.distance, s, pos);
    if symbol.Err? {
      return Err(symbol.error);
    }
    ghost var q := pos + Decode(m.distance, s, pos).width;
    if symbol.value >= |DISTANCE_TABLE| {
      return Err(InvalidDistanceSymbol);
    }
    r := ReadDistanceExtraBits(reader, symbol.value, length, s, q);
  }

  method ReadDistanceExtraBits(reader: BitReader, symbol: nat, length: nat, ghost s: BitString, ghost pos: nat)
    returns (r: Result<(nat, nat)>)
    requires symbol < 30
    requires reader.Valid() && pos <= |s| && reader.Remaining() == From(s, pos)
    modifies reader
    ensures reader.Valid()
    ensures PointerAs(I.ReadDistanceExtra(length, DISTANCE_TABLE[symbol], s, pos), r, s, reader.Remaining())
    ensures r.Ok? ==> reader.bitCount <= Max(old(reader.bitCount), 7)
  {
    hide From, ToBits, BytesToBits, Pow2;
    var row := DISTANCE_TABLE[symbol];
    ExtraFits(symbol);
    var extra := ReadField(reader, row.1, s, pos);
    if extra.Err? {
      return Err(extra.error);
    }
    DistanceAtMostWindow(symbol, extra.value);
    return Ok((length, row.0 + extra.value));
  }

  lemma {:induction false} ExtraFits(symbol: nat)
    requires symbol < 30
    ensures DISTANCE_TABLE[symbol].1 <= 13
  {
    DistanceAtMostWindow(symbol, 0);
  }

  /** A copy out of the window is the same copy out of the whole history, check included. */
  lemma {:induction false} WindowCopies(output: seq<byte>, drained: nat, history: seq<byte>, distance: nat, length: nat)
    requires WindowOk(output, drained, history) && 1 <= distance <= WINDOW_SIZE
    ensures distance <= |output| <==> distance <= |history|
    ensures distance <= |output| ==>
              WindowOk(CopyBytewise(output, distance, length), drained, CopyBytewise(history, distance, length))
  {
    if distance <= |output| {
      var dropped := history[..|history| - |output|];
      assert history == dropped + output by { WindowDrained(output, 0, history); }
      WindowCopy(dropped, output, distance, length);
    }
  }

  lemma {:induction false} LoopPeeks(m: I.State)
    requires I.ValidState(m) && m.SymbolLoop?
    ensures m.distance.peek <= m.literal.peek && I.LoopCodes(m.literal, m.distance)
  {}

  /** A symbol of the loop's literal code is at `pos`. */
  ghost predicate DecodesTo(s: BitString, m: I.State, pos: nat, symbol: nat, width: nat) {
    m.SymbolLoop? && pos <= |s| && Decode(m.literal, s, pos) == Symbol(symbol, width)
  }

  /** Bytes appended to the stream are appended to what is left of it, and the decoder is still on
      the run from the start. */
  lemma {:induction false} FedMore(t: Track, data: seq<byte>, buffered: BitString, input: seq<byte>)
    requires OnTrack(t) && I.ValidConfig(t.Stream(), t.place) && buffered + BytesToBits(input) == t.Rest()
    ensures OnTrack(t.(fed := t.fed + data))
    ensures buffered + BytesToBits(input + data) == t.(fed := t.fed + data).Rest()
  {
    hide BytesToBits, I.Run, I.ValidState, OnTrack;
    var s, more := t.Stream(), BytesToBits(data);
    OnTrackIff(t);
    BytesToBitsConcat(t.fed, data);
    BytesToBitsConcat(input, data);
    assert s <= s + more;
    I.RunExtends(s, s + more, I.Init);
    I.SameRunExtends(s, s + more, I.Init, t.place);
    OnTrackIff(t.(fed := t.fed + data));
    assert From(s + more, t.place.pos) == From(s, t.place.pos) + more;
    assert buffered + (BytesToBits(input) + more) == (buffered + BytesToBits(input)) + more;
  }

  lemma {:induction false} RunEnds(t: Track)
    requires OnTrack(t) && t.place.state == I.Finished
    ensures I.Run(t.Stream(), I.Init) == I.Complete(t.place)
  {
    hide I.Run, I.Step, OnTrack;
    OnTrackValid(t);
    OnTrackIff(t);
    I.RunCompletes(t.Stream(), t.place);
  }

  lemma {:induction false} RunStarves(t: Track)
    requires OnTrack(t) && Starving(t)
    ensures I.Run(t.Stream(), I.Init) == I.Stuck(t.place)
  {
    hide I.Run, I.Step, OnTrack, Starving;
    OnTrackValid(t);
    StarvingIff(t);
    OnTrackIff(t);
    I.RunSticks(t.Stream(), t.place);
  }

  /** With less than a byte buffered, the unread input starts right after the last byte holding
      consumed bits. */
  lemma {:induction false} RemainingBytes(t: Track, bitBuffer: nat, bitCount: nat, input: seq<byte>)
    requires OnTrack(t) && I.ValidConfig(t.Stream(), t.place) && bitCount <= 7
    requires ToBits(bitBuffer, bitCount) + BytesToBits(input) == t.Rest()
    ensures (t.place.pos + 7) / 8 <= |t.fed| && input == t.fed[(t.place.pos + 7) / 8..]
  {
    hide BytesToBits, ToBits, OnTrack, I.ValidState, I.StepBlockHeader, I.StepStoredHeader, I.StepDynamicHeader,
         I.StepBitwidth, I.StepCodeLengths, I.StepSymbol, I.StepStoredBody, I.Step;
    var k := (t.place.pos + 7) / 8;
    var s := t.Stream();
    assert bitCount + 8 * |input| == 8 * |t.fed| - t.place.pos;
    assert 8 * k == t.place.pos + bitCount;
    assert t.fed == t.fed[..k] + t.fed[k..];
    BytesToBitsConcat(t.fed[..k], t.fed[k..]);
    FromSlices(s, t.place.pos, bitCount);
    assert BytesToBits(input) == From(s, 8 * k) == BytesToBits(t.fed[k..]);
    BytesInjective(input, t.fed[k..]);
  }

  /** A stream of whole bytes: the buffered bits above a byte boundary are the padding to it. */
  lemma {:induction false} ResidualIsPad(bytes: nat, pos: nat, bitCount: nat, unread: nat)
    requires 8 * bytes - pos == bitCount + 8 * unread
    ensures bitCount % 8 == PadTo8(pos)
  {}

  lemma {:induction false} NothingBuffered(reader: BitReader)
    requires reader.Valid() && reader.bitCount == 0
    ensures reader.Unwindable()
  {
    assert reader.input[reader.byteIndex..reader.byteIndex] == [];
  }

  /** `u16::from_le_bytes` */
  function U16(lo: byte, hi: byte): (v: nat)
    ensures v <= 0xFFFF
  {
    lo as int + 256 * (hi as int)
  }

  /** Little-endian 16-bit fields are two bytes each. */
  lemma {:induction false} LengthFields(s: BitString, start: nat, bytes: seq<byte>)
    requires |bytes| == 4 && start + 32 <= |s| && Bits.At(s, start, BytesToBits(bytes))
    ensures I.Field(s, start, 16) == U16(bytes[0], bytes[1])
    ensures I.Field(s, start + 16, 16) == U16(bytes[2], bytes[3])
  {
    hide BytesToBits, ToBits, FromBits;
    assert s[start..start + 16] == s[start..start + 32][..16];
    assert s[start + 16..start + 32] == s[start..start + 32][16..];
    TwoBytes(bytes, 0);
    TwoBytes(bytes, 2);
    assert BytesToBits(bytes)[0..16] == BytesToBits(bytes)[..16];
    assert BytesToBits(bytes)[16..32] == BytesToBits(bytes)[16..];
  }

  lemma {:induction false} TwoBytes(bytes: seq<byte>, i: nat)
    requires i + 2 <= |bytes|
    ensures FromBits(BytesToBits(bytes)[8 * i..8 * i + 16]) == U16(bytes[i], bytes[i + 1])
  {
    hide BytesToBits, ToBits, FromBits;
    var b := BytesToBits(bytes);
    ByteAt(bytes, i);
    ByteAt(bytes, i + 1);
    assert b[8 * i..8 * i + 16] == b[8 * i..8 * i + 8] + b[8 * (i + 1)..8 * (i + 1) + 8];
    FromBitsConcat(b[8 * i..8 * i + 8], b[8 * (i + 1)..8 * (i + 1) + 8]);
    Pow2Values();
  }

  /** Taking stored bytes in bulk is taking them one by one. */
  lemma {:induction false} StoredBytes(t: Track, bytes: seq<byte>)
    requires OnTrack(t) && t.place.state.StoredBody? && |bytes| <= t.place.state.remaining
    requires t.place.pos + 8 * |bytes| <= |t.Stream()|
    requires Bits.At(t.Stream(), t.place.pos, BytesToBits(bytes))
    ensures OnTrack(t.(place := I.Config(I.StoredBody(t.place.state.remaining - |bytes|, t.place.state.isFinal),
                                         t.place.out + bytes, t.place.pos + 8 * |bytes|)))
    decreases |bytes|
  {
    hide I.StepBlockHeader, I.StepStoredHeader, I.StepDynamicHeader, I.StepBitwidth, I.StepCodeLengths, I.StepSymbol,
         BytesToBits, I.Run, OnTrack, I.ByteOf;
    var p, st := t.place.pos, t.place.state;
    if bytes == [] {
      assert t.place.out + bytes == t.place.out;
    } else {
      var s, rest := t.Stream(), bytes[1..];
      FirstStoredByte(s, p, bytes);
      var c := I.Config(I.StoredBody(st.remaining - 1, st.isFinal), t.place.out + [bytes[0]], p + 8);
      OnTrackValid(t);
      StepsOn(t, c);
      StoredBytes(t.(place := c), rest);
      assert t.place.out + bytes == c.out + rest by { assert bytes == [bytes[0]] + rest; }
    }
  }

  lemma {:induction false} FirstStoredByte(s: BitString, p: nat, bytes: seq<byte>)
    requires bytes != [] && Bits.At(s, p, BytesToBits(bytes))
    ensures I.ByteOf(s, p) == bytes[0]
    ensures Bits.At(s, p + 8, BytesToBits(bytes[1..]))
  {
    var b := BytesToBits(bytes);
    assert b == ToBits(bytes[0], 8) + BytesToBits(bytes[1..]);
    assert s[p..p + 8] == b[..8];
    assert s[p + 8..p + 8 * |bytes|] == b[8..];
    Pow2Values();
    FromToBits(bytes[0], 8);
  }

  /** The unread part of the window is the unread part of the history. */
  lemma {:induction false} WindowDrained(output: seq<byte>, drained: nat, history: seq<byte>)
    requires WindowOk(output, drained, history)
    ensures history == history[..|history| - |output| + drained] + output[drained..]
  {}

  lemma {:induction false} WindowTrimmed(output: seq<byte>, drained: nat, k: nat, history: seq<byte>)
    requires WindowOk(output, drained, history) && k <= drained && k + WINDOW_SIZE <= |output|
    ensures WindowOk(output[k..], drained - k, history)
  {}

  lemma {:induction false} WindowAppend(output: seq<byte>, drained: nat, history: seq<byte>, more: seq<byte>)
    requires WindowOk(output, drained, history)
    ensures WindowOk(output + more, drained, history + more)
    ensures history <= history + more
  {
  }
}
