/** One-shot compression and decompression (src/deflate.rs). */
module Deflate {
  import opened Bits
  import opened Errors
  import opened Lz77
  import opened Sessions
  import opened Streaming
  import I = Inflate
  import Decode
  import Encode

  /** Dynamic blocks, no splitting. */
  function OneShot(): EncodeOptions {
    EncodeOptions(Dynamic, None)
  }

  /** The stream begins with its last block, a dynamic one with the codes chosen for the tokens of all of `data`. */
  ghost predicate OneDynamicBlock(bits: BitString, data: seq<byte>) {
    exists ts :: TokensFor(ts, data) && (|data| < NIL ==> ts == Tokens(data)) && ShownAs(bits, 0, Dynamic, ts, true)
  }

  lemma {:induction false} DynamicShown(bits: BitString, data: seq<byte>)
    requires BlockFor(OneShot(), EncState([], data), bits, true)
    ensures OneDynamicBlock(bits, data)
  {
    hide ShownAs, TokensFor, Tokens;
  }

  method Compress(data: seq<byte>) returns (out: seq<byte>)
    ensures Encode.Closed(BytesToBits(out), data)
    ensures |data| < NIL ==> BytesToBits(out) == AfterFinish(OneShot(), EncState([], data))
    ensures OneDynamicBlock(BytesToBits(out), data)
  {
    hide BytesToBits, ToBits, Keeps, AfterFinish, Encode.Closed, BlockFor, OneDynamicBlock;
    var encoder := new Encode.Encoder(OneShot());
    FeedsNothing(data);
    var fed := encoder.Feed(data);
    encoder.Finish();
    DynamicShown(encoder.Bits(), data);
    out := encoder.Output();
    assert out == encoder.sent + encoder.output;
    Encode.NoBits(encoder.bitBuffer);
    Encode.BehindBytes(encoder.sent, encoder.output, []);
    Encode.BehindBytes([], encoder.output, []);
    AppendNothing(BytesToBits(out));
    encoder.Advance(|out|);
  }

  lemma {:induction false} AppendNothing(b: BitString)
    ensures b + [] == b
  {}

  /** Without a limit, feeding only buffers. */
  lemma {:induction false} FeedsNothing(data: seq<byte>)
    ensures AfterFeed(OneShot(), START, data) == EncState([], data)
  {
    assert [] + data == data;
  }

  /** Drain everything unread and resume once.  `more` says whether the loop goes on; if it does not, `r` is
      the answer. */
  method DrainTurn(decoder: Decode.Decoder, ghost data: seq<byte>, taken: seq<byte>)
    returns (r: Result<seq<byte>>, more: bool)
    requires Underway(decoder, data, taken)
    modifies decoder
    ensures !more ==> r == OneShotResult(RunOf(data))
    ensures more ==> r.Ok? && Underway(decoder, data, r.value)
    ensures more ==> old(decoder.track.place.pos) < decoder.track.place.pos
                     || (old(decoder.track.place.pos) == decoder.track.place.pos
                         && decoder.finished && !old(decoder.finished))
  {
    hide BytesToBits, Underway, RunOf, Decode.Decoder.Valid;
    PlaceBound(decoder, data, taken);
    var out := Take(decoder, |decoder.Output()|, data, taken);
    PlaceBound(decoder, data, out);
    if decoder.finished {
      FinishedAtRest(decoder, data, out);
      RestIsResult(decoder, data, out);
      return Ok(out), false;
    }
    var moved := Resume(decoder, data, out);
    if moved.Err? {
      return Err(moved.error), false;
    }
    if !moved.value {
      RestIsResult(decoder, data, out);
      return Err(Truncated), false;
    }
    return Ok(out), true;
  }

  /** Feed everything, then drain and resume with empty feeds until the stream ends or an empty feed
      gets nowhere.  However often the decoder yields, the loop ends and never mistakes a yield for a
      truncated stream. */
  method Decompress(data: seq<byte>) returns (r: Result<seq<byte>>)
    ensures r == OneShotResult(RunOf(data))
  {
    hide BytesToBits, Underway, RunOf, AtRest, Decode.Decoder.Valid;
    var decoder := Start();
    assert [] + data == data;
    RestIsUnderway(decoder, [], []);
    var fed := Give(decoder, data, [], []);
    if fed.Err? {
      return Err(fed.error);
    }
    var out: seq<byte> := [];
    PlaceBound(decoder, data, out);
    while true
      invariant fresh(decoder) && Underway(decoder, data, out)
      invariant decoder.track.place.pos <= |BytesToBits(data)|
      decreases |BytesToBits(data)| - decoder.track.place.pos, if decoder.finished then 0 else 1
    {
      var taken, more := DrainTurn(decoder, data, out);
      if !more {
        return taken;
      }
      out := taken.value;
      PlaceBound(decoder, data, out);
    }
  }

  /** Whatever is compressed is recovered. */
  method RoundTrip(data: seq<byte>) returns (r: Result<seq<byte>>)
    ensures r == Ok(data)
  {
    hide BytesToBits, I.Run;
    var packed := Compress(data);
    r := Decompress(packed);
  }
}
