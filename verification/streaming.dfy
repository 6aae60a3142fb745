/** The streaming decoder under a caller's schedule of feeds and drains (src/decode.rs).

    The documentation of `Decoder::feed` has callers feed and drain until the stream is finished; the methods
    here are such callers.  However a stream is split, and however its output is drained, the pieces come to
    what one whole feed comes to, with one exception, which is exactly the case of bytes fed after the end. */
module Streaming {
  import opened Bits
  import opened Errors
  import opened Huffman
  import I = Inflate
  import Decode

  /** The whole run of a byte string. */
  ghost function RunOf(data: seq<byte>): I.Final {
    I.Run(BytesToBits(data), I.Init)
  }

  /** What decoding a whole stream comes to: the run's output, its error, or a complaint about a missing
      final block. */
  ghost function OneShotResult(f: I.Final): Result<seq<byte>> {
    match f
    case Complete(c) => Ok(c.out)
    case Failed(e) => Err(e)
    case Stuck(_) => Err(Truncated)
  }

  // ----- A decoder under way -----

  /** The decoder stands on the run of `fed`, and `out` is what has been taken from it so far. */
  ghost predicate Underway(d: Decode.Decoder, fed: seq<byte>, out: seq<byte>)
    reads d
  {
    d.Valid() && d.track.fed == fed && I.ValidConfig(BytesToBits(fed), d.track.place)
    && d.Delivered() == |out| && out + d.Output() == d.track.place.out
    && (d.finished ==> EndsAs(fed, I.Complete(d.track.place)))
  }

  /** Everything made has been taken, and nothing more can be made of `fed`. */
  ghost predicate AtRest(d: Decode.Decoder, fed: seq<byte>, out: seq<byte>)
    reads d
  {
    Underway(d, fed, out) && d.Output() == [] && out == d.track.place.out
    && EndsAs(fed, if d.finished then I.Complete(d.track.place) else I.Stuck(d.track.place))
  }

  ghost predicate EndsAs(fed: seq<byte>, f: I.Final) {
    RunOf(fed) == f
  }

  lemma {:induction false} NothingGiven()
    ensures RunOf([]) == I.Stuck(I.Init)
  {}

  /** A new decoder, given nothing. */
  method Start() returns (d: Decode.Decoder)
    ensures fresh(d) && AtRest(d, [], []) && !d.finished
  {
    hide BytesToBits, ToBits, Decode.OnTrack, I.Run, I.Step, Decode.WindowOk, Decode.Matches, Decode.BufferOk;
    d := new Decode.Decoder();
    Decode.OnTrackValid(d.track);
    NothingGiven();
  }

  /** Feed more bytes. */
  method Give(d: Decode.Decoder, data: seq<byte>, ghost fed: seq<byte>, ghost out: seq<byte>)
    returns (r: Result<()>)
    requires Underway(d, fed, out)
    modifies d
    ensures old(d.finished) && data != [] ==> r == Err(FedAfterEnd)
    ensures r.Err? && !(old(d.finished) && data != []) ==> RunOf(fed + data) == I.Failed(r.error)
    ensures r.Ok? ==> Underway(d, fed + data, out) && old(d.track.place.pos) <= d.track.place.pos
    ensures r.Ok? && !d.finished && d.Output() == [] ==> RunOf(fed + data) == I.Stuck(d.track.place)
    ensures r.Ok? && data == [] && d.track.place.pos == old(d.track.place.pos) ==>
              d.Output() == old(d.Output()) && d.input == old(d.input)
  {
    hide BytesToBits, ToBits, Decode.OnTrack, I.Run, Decode.WindowOk, Decode.Matches, I.ValidState, Decode.BufferOk;
    r := d.Feed(data);
    if r.Ok? {
      Decode.OnTrackValid(d.track);
    }
  }

  /** Take the next `n` unread bytes. */
  method Take(d: Decode.Decoder, n: nat, ghost fed: seq<byte>, out: seq<byte>) returns (taken: seq<byte>)
    requires Underway(d, fed, out) && n <= |d.Output()|
    modifies d
    ensures Underway(d, fed, taken) && taken == out + old(d.Output())[..n] && d.Output() == old(d.Output())[n..]
    ensures d.track == old(d.track) && d.finished == old(d.finished) && d.input == old(d.input)
  {
    hide BytesToBits, ToBits, Decode.OnTrack, I.Run, Decode.WindowOk, Decode.Matches, I.ValidState, Decode.BufferOk;
    ghost var unread := d.Output();
    taken := out + d.Output()[..n];
    d.Advance(n);
    TakenFront(d.track.place.out, out, unread, n, d.Output());
  }

  lemma {:induction false} TakenFront(history: seq<byte>, out: seq<byte>, unread: seq<byte>, n: nat, rest: seq<byte>)
    requires n <= |unread| && out + unread == history
    requires |out| + n <= |history| && history == history[..|out| + n] + rest
    ensures rest == unread[n..] && (out + unread[..n]) + rest == history
  {
    assert history[..|out| + n] == out + unread[..n];
    assert history[|out| + n..] == rest;
    assert history[|out| + n..] == unread[n..];
  }

  /** Resume with an empty feed.  The answer is whether that got anywhere; if not, the decoder is at rest. */
  method Resume(d: Decode.Decoder, ghost fed: seq<byte>, ghost out: seq<byte>) returns (r: Result<bool>)
    requires Underway(d, fed, out) && !d.finished
    modifies d
    ensures r.Err? ==> RunOf(fed) == I.Failed(r.error)
    ensures r.Ok? ==> Underway(d, fed, out) && old(d.track.place.pos) <= d.track.place.pos
    ensures r.Ok? && !r.value ==> AtRest(d, fed, out) && !d.finished
    ensures r.Ok? && r.value ==>
              old(d.track.place.pos) < d.track.place.pos || d.finished || d.Output() == old(d.Output()) != []
  {
    hide BytesToBits, ToBits, Decode.OnTrack, I.Run, Decode.WindowOk, Decode.Matches, I.ValidState, Decode.BufferOk;
    var beforeRemaining := |d.input|;
    assert fed + [] == fed;
    var given := Give(d, [], fed, out);
    if given.Err? {
      return Err(given.error);
    }
    return Ok(!(d.Output() == [] && |d.input| == beforeRemaining && !d.finished));
  }

  /** Drain in portions, resuming after each, until nothing is unread and nothing more comes. */
  method Drain(d: Decode.Decoder, portion: nat -> nat, ghost fed: seq<byte>, start: seq<byte>)
    returns (r: Result<seq<byte>>)
    requires Underway(d, fed, start) && forall turn: nat :: portion(turn) > 0
    modifies d
    ensures r.Err? ==> RunOf(fed) == I.Failed(r.error)
    ensures r.Ok? ==> AtRest(d, fed, r.value)
  {
    hide BytesToBits, ToBits, Underway, AtRest, RunOf, Decode.Decoder.Valid;
    var out, turn: nat := start, 0;
    PlaceBound(d, fed, out);
    while true
      invariant d.Valid() && Underway(d, fed, out) && d.track.place.pos <= |BytesToBits(fed)|
      decreases |BytesToBits(fed)| - d.track.place.pos, if d.finished then 0 else 1, |d.Output()|
    {
      PlaceBound(d, fed, out);
      ghost var unread := d.Output();
      out := Take(d, Min(portion(turn), |d.Output()|), fed, out);
      turn := turn + 1;
      PlaceBound(d, fed, out);
      if d.finished {
        if d.Output() == [] {
          FinishedAtRest(d, fed, out);
          return Ok(out);
        }
      } else {
        var moved := Resume(d, fed, out);
        if moved.Err? {
          return Err(moved.error);
        }
        if !moved.value {
          return Ok(out);
        }
        PlaceBound(d, fed, out);
      }
    }
  }

  lemma {:induction false} PlaceBound(d: Decode.Decoder, fed: seq<byte>, out: seq<byte>)
    requires Underway(d, fed, out)
    ensures d.Valid() && d.track.place.pos <= |BytesToBits(fed)|
  {
    hide BytesToBits, RunOf, Decode.OnTrack, Decode.WindowOk, Decode.Matches, I.ValidState, Decode.BufferOk;
  }

  lemma {:induction false} FinishedAtRest(d: Decode.Decoder, fed: seq<byte>, out: seq<byte>)
    requires Underway(d, fed, out) && d.Valid() && d.finished && d.Output() == []
    ensures AtRest(d, fed, out)
  {
    hide BytesToBits, RunOf, Decode.OnTrack, Decode.WindowOk, Decode.Matches, I.ValidState, Decode.BufferOk;
  }

  // ----- Splits -----

  ghost function Joined(pieces: seq<seq<byte>>): seq<byte> {
    if pieces == [] then [] else Joined(pieces[..|pieces| - 1]) + pieces[|pieces| - 1]
  }

  /** Some non-empty piece comes after the bytes before it already made a complete stream. */
  ghost predicate Late(pieces: seq<seq<byte>>) {
    pieces != []
    && (Late(pieces[..|pieces| - 1])
        || (pieces[|pieces| - 1] != [] && RunOf(Joined(pieces[..|pieces| - 1])).Complete?))
  }

  lemma {:induction false} JoinedNext(pieces: seq<seq<byte>>, k: nat)
    requires k < |pieces|
    ensures Joined(pieces[..k + 1]) == Joined(pieces[..k]) + pieces[k]
    ensures Late(pieces[..k + 1]) <==>
              Late(pieces[..k]) || (pieces[k] != [] && RunOf(Joined(pieces[..k])).Complete?)
  {
    hide RunOf;
    var front := pieces[..k + 1];
    assert front[..k] == pieces[..k];
  }

  /** A run that has ended, well or badly, is not changed by what follows. */
  lemma {:induction false} EndStands(pieces: seq<seq<byte>>, k: nat)
    requires k <= |pieces| && !RunOf(Joined(pieces[..k])).Stuck?
    ensures RunOf(Joined(pieces)) == RunOf(Joined(pieces[..k]))
    decreases |pieces| - k
  {
    hide I.Run, BytesToBits;
    if k == |pieces| {
      assert pieces[..k] == pieces;
    } else {
      JoinedNext(pieces, k);
      RunGrows(Joined(pieces[..k]), pieces[k]);
      EndStands(pieces, k + 1);
    }
  }

  lemma {:induction false} RunGrows(fed: seq<byte>, more: seq<byte>)
    ensures !RunOf(fed).Stuck? ==> RunOf(fed + more) == RunOf(fed)
  {
    hide I.Run, BytesToBits;
    BytesToBitsConcat(fed, more);
    var s, t := BytesToBits(fed), BytesToBits(fed + more);
    assert s <= t;
    I.RunExtends(s, t, I.Init);
  }

  /** Late bytes come only behind a complete stream. */
  lemma {:induction false} LateIsComplete(pieces: seq<seq<byte>>)
    requires Late(pieces)
    ensures RunOf(Joined(pieces)).Complete?
  {
    hide RunOf;
    var k := |pieces| - 1;
    if Late(pieces[..k]) {
      LateIsComplete(pieces[..k]);
    }
    EndStands(pieces, k);
  }

  /** Once late is late for good. */
  lemma {:induction false} LateStands(pieces: seq<seq<byte>>, k: nat)
    requires k <= |pieces| && Late(pieces[..k])
    ensures Late(pieces)
    decreases |pieces| - k
  {
    hide RunOf;
    if k < |pieces| {
      JoinedNext(pieces, k);
      LateStands(pieces, k + 1);
    } else {
      assert pieces[..k] == pieces;
    }
  }

  /** Feed one more piece to a decoder at rest, and drain in portions until it is at rest again. */
  method GivePiece(d: Decode.Decoder, piece: seq<byte>, portion: nat -> nat, ghost fed: seq<byte>, out: seq<byte>)
    returns (r: Result<seq<byte>>)
    requires AtRest(d, fed, out) && forall turn: nat :: portion(turn) > 0
    modifies d
    ensures RunOf(fed).Complete? && piece != [] ==> r == Err(FedAfterEnd)
    ensures !(RunOf(fed).Complete? && piece != []) && r.Err? ==> RunOf(fed + piece) == I.Failed(r.error)
    ensures r.Ok? ==> AtRest(d, fed + piece, r.value)
  {
    hide BytesToBits, RunOf, Underway;
    var given := Give(d, piece, fed, out);
    if given.Err? {
      return Err(given.error);
    }
    r := Drain(d, portion, fed + piece, out);
  }

  /** Feed the pieces in turn, draining each to the end in portions. */
  method FeedPieces(pieces: seq<seq<byte>>, portion: nat -> nat) returns (d: Decode.Decoder, r: Result<seq<byte>>)
    requires forall turn: nat :: portion(turn) > 0
    ensures fresh(d)
    ensures r.Ok? ==> !Late(pieces) && AtRest(d, Joined(pieces), r.value)
    ensures r.Err? ==>
              if Late(pieces) then r.error == FedAfterEnd else RunOf(Joined(pieces)) == I.Failed(r.error)
  {
    hide BytesToBits, RunOf, AtRest, Late;
    d := Start();
    var out: seq<byte> := [];
    NoPieces(pieces);
    for k := 0 to |pieces|
      invariant fresh(d) && AtRest(d, Joined(pieces[..k]), out) && !Late(pieces[..k])
    {
      JoinedNext(pieces, k);
      var given := GivePiece(d, pieces[k], portion, Joined(pieces[..k]), out);
      if given.Err? {
        PieceFails(pieces, k, given.error);
        return d, Err(given.error);
      }
      out := given.value;
    }
    AllPieces(pieces);
    return d, Ok(out);
  }

  /** Decoding piece by piece differs from one whole feed exactly when a non-empty piece comes after the
      stream is already complete. */
  method DecodePieces(pieces: seq<seq<byte>>, portion: nat -> nat) returns (r: Result<seq<byte>>)
    requires forall turn: nat :: portion(turn) > 0
    ensures r == if Late(pieces) then Err(FedAfterEnd) else OneShotResult(RunOf(Joined(pieces)))
    ensures r == OneShotResult(RunOf(Joined(pieces))) <==> !Late(pieces)
  {
    hide BytesToBits, RunOf, AtRest, Late;
    var d, fed := FeedPieces(pieces, portion);
    LateOutcome(pieces);
    if fed.Err? {
      return fed;
    }
    RestIsResult(d, Joined(pieces), fed.value);
    return if d.finished then fed else Err(Truncated);
  }

  lemma {:induction false} LateOutcome(pieces: seq<seq<byte>>)
    ensures Late(pieces) ==> OneShotResult(RunOf(Joined(pieces))).Ok?
  {
    hide RunOf, Late;
    if Late(pieces) {
      LateIsComplete(pieces);
    }
  }

  lemma {:induction false} NoPieces(pieces: seq<seq<byte>>)
    ensures Joined(pieces[..0]) == [] && !Late(pieces[..0])
  {}

  lemma {:induction false} AllPieces(pieces: seq<seq<byte>>)
    ensures pieces[..|pieces|] == pieces
  {}

  lemma {:induction false} PieceFails(pieces: seq<seq<byte>>, k: nat, e: Error)
    requires k < |pieces|
    requires Late(pieces[..k + 1]) || RunOf(Joined(pieces[..k + 1])) == I.Failed(e)
    ensures Late(pieces) <==> Late(pieces[..k + 1])
    ensures !Late(pieces) ==> RunOf(Joined(pieces)) == I.Failed(e)
  {
    hide RunOf, Late;
    if Late(pieces[..k + 1]) {
      LateStands(pieces, k + 1);
    } else {
      EndStands(pieces, k + 1);
    }
    if Late(pieces) {
      LateIsComplete(pieces);
    }
  }

  lemma {:induction false} RestIsResult(d: Decode.Decoder, fed: seq<byte>, out: seq<byte>)
    requires AtRest(d, fed, out)
    ensures OneShotResult(RunOf(fed)) == if d.finished then Ok(out) else Err(Truncated)
  {
    hide RunOf, Underway;
  }

  /** A stream that ends in its last byte leaves no room for late bytes. */
  lemma {:induction false} TightIsNotLate(pieces: seq<seq<byte>>, k: nat, c: I.Config)
    requires k <= |pieces| && RunOf(Joined(pieces)) == I.Complete(c) && c.pos + 8 > 8 * |Joined(pieces)|
    ensures !Late(pieces[..k])
  {
    hide RunOf, Late;
    if k == 0 {
      NoPieces(pieces);
    } else {
      TightIsNotLate(pieces, k - 1, c);
      JoinedNext(pieces, k - 1);
      var before := Joined(pieces[..k - 1]);
      if pieces[k - 1] != [] && RunOf(before).Complete? {
        EndStands(pieces, k - 1);
        EndsWithin(before);
        JoinedPrefix(pieces, k);
      }
    }
  }

  lemma {:induction false} EndsWithin(fed: seq<byte>)
    requires RunOf(fed).Complete?
    ensures RunOf(fed).config.pos <= 8 * |fed|
  {
    hide I.Run, I.Step;
    I.RunValid(BytesToBits(fed), I.Init);
  }

  lemma {:induction false} JoinedPrefix(pieces: seq<seq<byte>>, k: nat)
    requires k <= |pieces|
    ensures |Joined(pieces[..k])| <= |Joined(pieces)|
    decreases |pieces| - k
  {
    if k < |pieces| {
      JoinedNext(pieces, k);
      JoinedPrefix(pieces, k + 1);
    } else {
      AllPieces(pieces);
    }
  }

  /** Cut a string at any sizes; what remains is the last piece. */
  method Cut(data: seq<byte>, sizes: seq<nat>) returns (pieces: seq<seq<byte>>)
    ensures Joined(pieces) == data && |pieces| == |sizes| + 1
    ensures forall k :: 0 <= k < |sizes| ==> |pieces[k]| <= sizes[k]
  {
    pieces := [];
    var rest := data;
    for k := 0 to |sizes|
      invariant Joined(pieces) + rest == data && |pieces| == k
      invariant forall j :: 0 <= j < k ==> |pieces[j]| <= sizes[j]
    {
      var n := Min(sizes[k], |rest|);
      JoinedMore(pieces, rest[..n]);
      assert (Joined(pieces) + rest[..n]) + rest[n..] == Joined(pieces) + rest;
      pieces := pieces + [rest[..n]];
      rest := rest[n..];
    }
    JoinedMore(pieces, rest);
    pieces := pieces + [rest];
  }

  lemma {:induction false} JoinedMore(pieces: seq<seq<byte>>, piece: seq<byte>)
    ensures Joined(pieces + [piece]) == Joined(pieces) + piece
  {
    assert (pieces + [piece])[..|pieces|] == pieces;
  }

  // ----- Any interleaving -----

  datatype DecodeCall = Feed(data: seq<byte>) | Advance(n: nat)

  ghost function Pieces(calls: seq<DecodeCall>): seq<seq<byte>> {
    if calls == [] then []
    else Pieces(calls[..|calls| - 1]) + if calls[|calls| - 1].Feed? then [calls[|calls| - 1].data] else []
  }

  lemma {:induction false} PiecesNext(calls: seq<DecodeCall>, k: nat)
    requires k < |calls|
    ensures Pieces(calls[..k + 1]) ==
              if calls[k].Feed? then Pieces(calls[..k]) + [calls[k].data] else Pieces(calls[..k])
    ensures Joined(Pieces(calls[..k + 1])) == Joined(Pieces(calls[..k])) + Bytes(calls[k])
  {
    assert calls[..k + 1][..k] == calls[..k];
    var before := Pieces(calls[..k]);
    if calls[k].Feed? {
      assert (before + [calls[k].data])[..|before|] == before;
    }
  }

  lemma {:induction false} NoCalls(calls: seq<DecodeCall>)
    ensures Joined(Pieces(calls[..0])) == []
  {}

  lemma {:induction false} PiecesPrefix(calls: seq<DecodeCall>, k: nat)
    requires k <= |calls|
    ensures Pieces(calls[..k]) <= Pieces(calls)
    decreases |calls| - k
  {
    if k == |calls| {
      assert calls[..k] == calls;
    } else {
      PiecesNext(calls, k);
      PiecesPrefix(calls, k + 1);
    }
  }

  lemma {:induction false} CallFails(calls: seq<DecodeCall>, k: nat, e: Error)
    requires k < |calls| && calls[k].Feed?
    ensures RunOf(Joined(Pieces(calls[..k])) + calls[k].data) == I.Failed(e) ==>
              OneShotResult(RunOf(Joined(Pieces(calls)))) == Err(e)
    ensures calls[k].data != [] && RunOf(Joined(Pieces(calls[..k]))).Complete? ==> Late(Pieces(calls))
  {
    hide RunOf;
    var before, all := Pieces(calls[..k]), Pieces(calls);
    PiecesNext(calls, k);
    PiecesPrefix(calls, k + 1);
    assert all[..|before| + 1] == before + [calls[k].data];
    assert all[..|before|] == before;
    JoinedNext(all, |before|);
    if RunOf(Joined(before) + calls[k].data) == I.Failed(e) {
      EndStands(all, |before| + 1);
    }
    if calls[k].data != [] && RunOf(Joined(before)).Complete? {
      LateStands(all, |before| + 1);
    }
  }

  lemma {:induction false} StillUnderway(d: Decode.Decoder, fed: seq<byte>, out: seq<byte>)
    requires Underway(d, fed, out)
    ensures d.Valid() && (d.finished ==> RunOf(fed).Complete?)
  {
    hide BytesToBits, RunOf, Decode.OnTrack, Decode.WindowOk, Decode.Matches, I.ValidState, Decode.BufferOk;
  }

  function Bytes(call: DecodeCall): seq<byte> {
    if call.Feed? then call.data else []
  }

  /** One call. */
  method Perform(d: Decode.Decoder, call: DecodeCall, ghost fed: seq<byte>, out: seq<byte>)
    returns (r: Result<seq<byte>>)
    requires Underway(d, fed, out)
    modifies d
    ensures r.Ok? ==> Underway(d, fed + Bytes(call), r.value)
    ensures r.Err? ==> call.Feed?
    ensures r.Err? && !(RunOf(fed).Complete? && call.data != [] && r.error == FedAfterEnd) ==>
              RunOf(fed + call.data) == I.Failed(r.error)
  {
    hide BytesToBits, RunOf, Underway;
    StillUnderway(d, fed, out);
    match call {
      case Feed(data) =>
        var given := Give(d, data, fed, out);
        return if given.Err? then Err(given.error) else Ok(out);
      case Advance(n) =>
        var more := Take(d, Min(n, |d.Output()|), fed, out);
        assert fed + [] == fed;
        return Ok(more);
    }
  }

  /** Any interleaving of feeds and partial drains, nothing drained in between if the caller does not care
      to, then a drain to the end: what comes out is what one whole feed comes to, unless a feed found the
      decoder finished. */
  method DecodeCalls(calls: seq<DecodeCall>, portion: nat -> nat) returns (r: Result<seq<byte>>)
    requires forall turn: nat :: portion(turn) > 0
    ensures r == OneShotResult(RunOf(Joined(Pieces(calls)))) || (r == Err(FedAfterEnd) && Late(Pieces(calls)))
  {
    hide BytesToBits, RunOf, Underway, AtRest, Late, Joined, Pieces, OneShotResult;
    var d := Start();
    var out: seq<byte> := [];
    NoCalls(calls);
    RestIsUnderway(d, [], out);
    for k := 0 to |calls|
      invariant fresh(d) && Underway(d, Joined(Pieces(calls[..k])), out)
    {
      PiecesNext(calls, k);
      var performed := Perform(d, calls[k], Joined(Pieces(calls[..k])), out);
      if performed.Err? {
        CallFails(calls, k, performed.error);
        return performed;
      }
      out := performed.value;
    }
    AllCalls(calls);
    r := Drain(d, portion, Joined(Pieces(calls)), out);
    if r.Err? {
      FailedResult(Joined(Pieces(calls)), r.error);
      return;
    }
    RestIsResult(d, Joined(Pieces(calls)), r.value);
    if !d.finished {
      return Err(Truncated);
    }
  }

  lemma {:induction false} AllCalls(calls: seq<DecodeCall>)
    ensures calls[..|calls|] == calls
  {}

  lemma {:induction false} FailedResult(fed: seq<byte>, e: Error)
    requires RunOf(fed) == I.Failed(e)
    ensures OneShotResult(RunOf(fed)) == Err(e)
  {}

  lemma {:induction false} RestIsUnderway(d: Decode.Decoder, fed: seq<byte>, out: seq<byte>)
    requires AtRest(d, fed, out)
    ensures Underway(d, fed, out)
  {
    hide Underway, RunOf;
  }
}
