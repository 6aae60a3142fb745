/** Encoder sessions carried out by the encoder, and read back by the decoder (src/encode.rs, src/decode.rs).

    `Sessions` says what a sequence of calls amounts to; here the `Encoder` object is driven through the
    calls, its output handed over in any portions, and the bytes are decoded again in any pieces. */
module RoundTrips {
  import opened Bits
  import opened Errors
  import opened Huffman
  import opened Lz77
  import opened Sessions
  import opened Streaming
  import I = Inflate
  import Decode
  import Deflate
  import Encode

  /** No block is as long as what wraps the matcher's 32-bit positions. */
  ghost predicate Tame(o: EncodeOptions, calls: seq<Call>) {
    if o.limit.Some? then o.limit.value < NIL else |Fed(calls)| < NIL
  }

  lemma {:induction false} FedNext(calls: seq<Call>, k: nat)
    requires k < |calls|
    ensures Fed(calls[..k + 1]) == Fed(calls[..k]) + Sessions.Bytes(calls[k])
  {
    assert calls[..k + 1][..k] == calls[..k];
  }

  lemma {:induction false} SessionNext(o: EncodeOptions, calls: seq<Call>, k: nat)
    requires o.Ok() && k < |calls|
    ensures Session(o, calls[..k + 1]) == AfterCall(o, Session(o, calls[..k]), calls[k])
  {
    hide AfterCall;
    assert calls[..k + 1][..k] == calls[..k];
  }

  lemma {:induction false} TamePrefix(o: EncodeOptions, calls: seq<Call>, k: nat)
    requires k <= |calls| && Tame(o, calls)
    ensures Tame(o, calls[..k])
    decreases |calls| - k
  {
    if k < |calls| {
      TamePrefix(o, calls, k + 1);
      FedNext(calls, k);
    } else {
      assert calls[..k] == calls;
    }
  }

  lemma {:induction false} SplitPending(o: EncodeOptions, st: EncState)
    requires o.Ok() && o.limit.Some?
    ensures |SplitOff(o, st).pending| < o.limit.value
    decreases |st.pending|
  {
    hide Emit;
    if |st.pending| >= o.limit.value {
      SplitPending(o, EncState(Emit(o, st.bits, st.pending[..o.limit.value]), st.pending[o.limit.value..]));
    }
  }

  /** With a limit, less than a block is ever pending. */
  lemma {:induction false} LessThanBlock(o: EncodeOptions, calls: seq<Call>)
    requires o.Ok() && o.limit.Some?
    ensures |Session(o, calls).pending| < o.limit.value
  {
    hide SplitOff, Emit;
    if calls != [] {
      var front := calls[..|calls| - 1];
      LessThanBlock(o, front);
      match calls[|calls| - 1]
      case Feed(data) =>
        var st := Session(o, front);
        SplitPending(o, EncState(st.bits, st.pending + data));
      case _ =>
    }
  }

  lemma {:induction false} PendingTame(o: EncodeOptions, calls: seq<Call>)
    requires o.Ok() && Tame(o, calls)
    ensures |Session(o, calls).pending| < NIL && Encode.Greedy(o)
  {
    hide Session, Recovered;
    if o.limit.Some? {
      LessThanBlock(o, calls);
    } else {
      SessionKeeps(o, calls);
    }
  }

  /** A flushed stream: the decoder has recovered everything from it, and it ends with the marker. */
  ghost predicate Flushed(emitted: seq<byte>, fed: seq<byte>) {
    Recovered(BytesToBits(emitted), fed) && |emitted| >= 4 && emitted[|emitted| - 4..] == [0, 0, 0xFF, 0xFF]
  }

  lemma {:induction false} MarkerLast(sent: seq<byte>, output: seq<byte>, fed: seq<byte>)
    requires |output| >= 4 && output[|output| - 4..] == [0, 0, 0xFF, 0xFF]
    requires Recovered(BytesToBits(sent + output), fed)
    ensures Flushed(sent + output, fed)
  {
    hide Recovered, BytesToBits;
    assert (sent + output)[|sent + output| - 4..] == output[|output| - 4..];
  }

  /** One call on the encoder. */
  method Perform(e: Encode.Encoder, call: Call)
    requires e.Valid() && !e.finishing
    modifies e, e.matcher
    ensures e.Valid() && !e.finishing && (e.matcher == old(e.matcher) || fresh(e.matcher))
    ensures e.fed == old(e.fed) + Sessions.Bytes(call)
    ensures e.Delivered() == old(e.Delivered())
    ensures call.SyncFlush? ==> Flushed(e.sent + e.output, e.fed)
    ensures Encode.Greedy(e.options) && old(|e.input|) < NIL ==>
              e.State() == AfterCall(e.options, old(e.State()), call)
  {
    hide BytesToBits, ToBits, Keeps, Recovered, AfterFeed, AfterFlush, Encode.Closed, Flushed, Pow2;
    match call {
      case Feed(data) => var fed := e.Feed(data);
      case SyncFlush =>
        var flushed := e.Flush();
        MarkerLast(e.sent, e.output, e.fed);
      case ResetHistory => e.ResetHistory();
    }
  }

  /** Hand over up to `n` bytes of output. */
  method HandOver(e: Encode.Encoder, n: nat, out: seq<byte>) returns (more: seq<byte>)
    requires e.Valid() && out == e.Delivered()
    modifies e
    ensures e.Valid() && more == e.Delivered() && e.State() == old(e.State())
    ensures e.sent + e.output == old(e.sent + e.output)
    ensures e.fed == old(e.fed) && e.finishing == old(e.finishing) && e.matcher == old(e.matcher)
    ensures n >= old(|e.Output()|) ==> e.Output() == []
  {
    hide BytesToBits, ToBits, Keeps, Encode.Closed, Pow2;
    var k := Min(n, |e.Output()|);
    more := out + e.Output()[..k];
    e.Advance(k);
  }

  lemma {:induction false} NothingCalled(o: EncodeOptions, calls: seq<Call>)
    requires o.Ok()
    ensures Session(o, calls[..0]) == START && Fed(calls[..0]) == []
  {}

  /** Drive an encoder through the calls, taking some of its output after each. */
  method Replay(o: EncodeOptions, calls: seq<Call>, portion: nat -> nat) returns (e: Encode.Encoder, out: seq<byte>)
    requires o.Ok()
    ensures fresh(e) && fresh(e.matcher) && e.Valid() && !e.finishing && e.options == o
    ensures e.fed == Fed(calls) && out == e.Delivered()
    ensures Tame(o, calls) ==> e.State() == Session(o, calls)
    ensures calls != [] && calls[|calls| - 1].SyncFlush? ==> Flushed(e.sent + e.output, Fed(calls))
  {
    hide BytesToBits, ToBits, Keeps, Recovered, Session, AfterCall, Encode.Closed, Pow2, Tame, Flushed;
    e := new Encode.Encoder(o);
    out := [];
    NothingCalled(o, calls);
    for k := 0 to |calls|
      invariant fresh(e) && fresh(e.matcher) && e.Valid() && !e.finishing && e.options == o
      invariant e.fed == Fed(calls[..k]) && out == e.Delivered()
      invariant Tame(o, calls) ==> e.State() == Session(o, calls[..k])
      invariant k > 0 && calls[k - 1].SyncFlush? ==> Flushed(e.sent + e.output, Fed(calls[..k]))
    {
      FedNext(calls, k);
      SessionNext(o, calls, k);
      if Tame(o, calls) {
        TamePrefix(o, calls, k);
        PendingTame(o, calls[..k]);
      }
      Perform(e, calls[k]);
      out := HandOver(e, portion(k), out);
    }
    assert calls[..|calls|] == calls;
  }

  /** The bits a session has emitted in whole bytes, or all of them once it is closed. */
  ghost function Emission(o: EncodeOptions, calls: seq<Call>, close: bool): BitString
    requires o.Ok()
  {
    var bits := Session(o, calls).bits;
    if close then AfterFinish(o, Session(o, calls)) else bits[..8 * (|bits| / 8)]
  }

  lemma {:induction false} WholeBytesOf(out: seq<byte>, partial: BitString, bits: BitString)
    requires |partial| < 8 && bits == BytesToBits(out) + partial
    ensures BytesToBits(out) == bits[..8 * (|bits| / 8)]
  {
    hide BytesToBits;
    assert |bits| / 8 == |out|;
  }

  /** Carry out a session and collect every byte it emits, in whatever portions. */
  method EncodeSession(o: EncodeOptions, calls: seq<Call>, portion: nat -> nat, close: bool) returns (out: seq<byte>)
    requires o.Ok()
    ensures close ==> Encode.Closed(BytesToBits(out), Fed(calls))
    ensures Tame(o, calls) ==> BytesToBits(out) == Emission(o, calls, close)
    ensures !close && calls != [] && calls[|calls| - 1].SyncFlush? ==> Flushed(out, Fed(calls))
  {
    hide BytesToBits, ToBits, Keeps, Recovered, Session, AfterCall, Encode.Closed, Pow2, Tame, Flushed, AfterFinish;
    var e, handed := Replay(o, calls, portion);
    if close {
      if Tame(o, calls) {
        PendingTame(o, calls);
      }
      e.Finish();
      FinishedWhole(e);
    } else {
      WholeBytesOf(e.sent + e.output, ToBits(e.bitBuffer, e.bitCount), e.Bits());
    }
    out := HandOver(e, |e.Output()|, handed);
    assert out == e.sent + e.output;
  }

  lemma {:induction false} FinishedWhole(e: Encode.Encoder)
    requires e.Valid() && e.finishing
    ensures e.Bits() == BytesToBits(e.sent + e.output)
  {
    hide BytesToBits, Encode.Closed, Keeps, Pow2;
    Encode.NoBits(e.bitBuffer);
    Deflate.AppendNothing(BytesToBits(e.sent + e.output));
  }

  /** Determinism: two encoders with the same options, given the same bytes between flush points, emit the
      same bytes.  How the feeds were split, how the output was taken, what the match finders' tables held
      and when they were reset make no difference. */
  method SameBytes(o: EncodeOptions, a: seq<Call>, b: seq<Call>, portionA: nat -> nat, portionB: nat -> nat,
                   close: bool)
    returns (outA: seq<byte>, outB: seq<byte>)
    requires o.Ok() && SegmentsOf(a) == SegmentsOf(b) && Tame(o, a)
    ensures outA == outB
  {
    hide BytesToBits, Emission, Tame, Encode.Closed, Flushed, SegmentsOf;
    outA := EncodeSession(o, a, portionA, close);
    outB := EncodeSession(o, b, portionB, close);
    SameSegmentsTame(o, a, b);
    SameEmission(o, a, b, close);
    BytesInjective(outA, outB);
  }

  ghost function AllOf(g: Segments): seq<byte> {
    Joined(g.flushed) + g.current
  }

  lemma {:induction false} FedIsSegments(calls: seq<Call>)
    ensures Fed(calls) == AllOf(SegmentsOf(calls))
  {
    if calls != [] {
      var front := calls[..|calls| - 1];
      FedIsSegments(front);
      var g := SegmentsOf(front);
      if calls[|calls| - 1].SyncFlush? {
        JoinedMore(g.flushed, g.current);
      }
    }
  }

  lemma {:induction false} SameSegmentsTame(o: EncodeOptions, a: seq<Call>, b: seq<Call>)
    requires SegmentsOf(a) == SegmentsOf(b) && Tame(o, a)
    ensures Tame(o, b)
  {
    FedIsSegments(a);
    FedIsSegments(b);
  }

  lemma {:induction false} SameEmission(o: EncodeOptions, a: seq<Call>, b: seq<Call>, close: bool)
    requires o.Ok() && SegmentsOf(a) == SegmentsOf(b)
    ensures Emission(o, a, close) == Emission(o, b, close)
  {
    hide AfterFinish;
    SameSegmentsSameBits(o, a, b);
  }

  /** The whole codec: for all options, feeds, flushes and resets, however the encoder's output is taken,
      cut into pieces and fed to a decoder, and however that is drained, the bytes fed come back. */
  method RoundTrip(o: EncodeOptions, calls: seq<Call>, portion: nat -> nat, sizes: seq<nat>, drain: nat -> nat)
    returns (r: Result<seq<byte>>)
    requires o.Ok() && forall turn: nat :: drain(turn) > 0
    ensures r == Ok(Fed(calls))
  {
    hide BytesToBits, Tame, Emission, Flushed, RunOf, Late, Encode.Closed;
    var packed := EncodeSession(o, calls, portion, true);
    var pieces := Cut(packed, sizes);
    ClosedIsTight(packed, Fed(calls), pieces);
    r := DecodePieces(pieces, drain);
  }

  lemma {:induction false} ClosedIsTight(packed: seq<byte>, fed: seq<byte>, pieces: seq<seq<byte>>)
    requires Encode.Closed(BytesToBits(packed), fed) && Joined(pieces) == packed
    ensures !Late(pieces) && OneShotResult(RunOf(packed)) == Ok(fed)
  {
    hide I.Run, Late;
    AllPieces(pieces);
    TightIsNotLate(pieces, |pieces|, RunOf(packed).config);
  }

  /** At a flush: the decoder given what has been emitted, in any pieces, has made exactly the bytes fed,
      has nothing left to make, and is not finished. */
  method FlushReaches(o: EncodeOptions, calls: seq<Call>, portion: nat -> nat, sizes: seq<nat>, drain: nat -> nat)
    returns (emitted: seq<byte>, d: Decode.Decoder, r: Result<seq<byte>>)
    requires o.Ok() && forall turn: nat :: drain(turn) > 0
    ensures |emitted| >= 4 && emitted[|emitted| - 4..] == [0, 0, 0xFF, 0xFF]
    ensures r == Ok(Fed(calls)) && AtRest(d, emitted, Fed(calls)) && !d.finished
  {
    hide BytesToBits, Tame, Emission, RunOf, Late, Encode.Closed, Recovered, Underway, Fed;
    emitted := EncodeSession(o, calls + [SyncFlush], portion, false);
    FlushFed(calls);
    var pieces := Cut(emitted, sizes);
    FlushedIsStuck(emitted, Fed(calls), pieces);
    d, r := FeedPieces(pieces, drain);
  }

  lemma {:induction false} FlushFed(calls: seq<Call>)
    ensures Fed(calls + [SyncFlush]) == Fed(calls)
  {
    assert (calls + [SyncFlush])[..|calls|] == calls;
  }

  lemma {:induction false} FlushedIsStuck(emitted: seq<byte>, fed: seq<byte>, pieces: seq<seq<byte>>)
    requires Recovered(BytesToBits(emitted), fed) && Joined(pieces) == emitted
    ensures RunOf(emitted) == I.Stuck(I.Config(I.BlockHeader, fed, |BytesToBits(emitted)|)) && !Late(pieces)
  {
    hide I.Run, Late;
    if Late(pieces) {
      LateIsComplete(pieces);
    }
  }
}
