/** The gzip container (RFC 1952; src/gzip.rs).

    `Verdict` says, for a whole byte string, whether it is one gzip member, an unfinished one, or
    neither.  The streaming decoder reaches that verdict for every way of cutting the string up. */
module Gzip {
  import opened Bits
  import opened Errors
  import opened Huffman
  import opened Sessions
  import opened Streaming
  import Deflate
  import Crc
  import Decode
  import Encode
  import I = Inflate

  const MAGIC1: byte := 0x1F
  const MAGIC2: byte := 0x8B
  const METHOD_DEFLATE: byte := 8
  const TRAILER_BYTES: nat := 8

  function HasExtra(flags: byte): bool { flags / 4 % 2 == 1 }
  function HasName(flags: byte): bool { flags / 8 % 2 == 1 }
  function HasComment(flags: byte): bool { flags / 16 % 2 == 1 }
  function HasHcrc(flags: byte): bool { flags / 2 % 2 == 1 }

  // ----- The header, byte by byte -----

  datatype Head =
    | FixedPart(got: seq<byte>)
    | ExtraSize(flags: byte, got: seq<byte>)
    | ExtraSkip(flags: byte, left: nat)
    | Name(flags: byte)
    | Comment(flags: byte)
    | Hcrc(skipped: nat)
    | HeadDone
    | HeadBad(error: Error)

  ghost function PastComment(flags: byte): Head {
    if HasHcrc(flags) then Hcrc(0) else HeadDone
  }

  ghost function PastName(flags: byte): Head {
    if HasComment(flags) then Comment(flags) else PastComment(flags)
  }

  ghost function PastExtra(flags: byte): Head {
    if HasName(flags) then Name(flags) else PastName(flags)
  }

  /** The ten fixed bytes: magic, method, flags, and six that are ignored. */
  ghost function Parsed(h: seq<byte>): Head
    requires |h| == 10
  {
    if h[0] != MAGIC1 || h[1] != MAGIC2 then HeadBad(BadMagic)
    else if h[2] != METHOD_DEFLATE then HeadBad(UnsupportedMethod)
    else if HasExtra(h[3]) then ExtraSize(h[3], [])
    else PastExtra(h[3])
  }

  ghost function Skip(flags: byte, left: nat): Head {
    if left == 0 then PastExtra(flags) else ExtraSkip(flags, left)
  }

  ghost function HeadStep(h: Head, b: byte): Head {
    match h
    case FixedPart(got) => if |got| == 9 then Parsed(got + [b]) else FixedPart(got + [b])
    case ExtraSize(flags, got) => if |got| == 1 then Skip(flags, Decode.U16(got[0], b)) else ExtraSize(flags, got + [b])
    case ExtraSkip(flags, left) => if left <= 1 then PastExtra(flags) else ExtraSkip(flags, left - 1)
    case Name(flags) => if b == 0 then PastName(flags) else h
    case Comment(flags) => if b == 0 then PastComment(flags) else h
    case Hcrc(skipped) => if skipped >= 1 then HeadDone else Hcrc(skipped + 1)
    case _ => h
  }

  datatype Scanned = More(head: Head) | BodyAt(start: nat) | Bad(error: Error)

  ghost function Settled(h: Head, n: nat): Scanned {
    if h.HeadDone? then BodyAt(n) else if h.HeadBad? then Bad(h.error) else More(h)
  }

  ghost function Scan(d: seq<byte>): (r: Scanned)
    ensures r.BodyAt? ==> r.start <= |d|
  {
    if d == [] then More(FixedPart([]))
    else
      var r := Scan(d[..|d| - 1]);
      if r.More? then Settled(HeadStep(r.head, d[|d| - 1]), |d|) else r
  }

  lemma {:induction false} ScanNext(d: seq<byte>, b: byte)
    ensures Scan(d + [b]) == var r := Scan(d); if r.More? then Settled(HeadStep(r.head, b), |d| + 1) else r
  {
    hide HeadStep;
    assert (d + [b])[..|d|] == d;
  }

  lemma {:induction false} ScanStable(d: seq<byte>, more: seq<byte>)
    requires !Scan(d).More?
    ensures Scan(d + more) == Scan(d)
  {
    if more == [] {
      assert d + more == d;
    } else {
      var front, last := more[..|more| - 1], more[|more| - 1];
      ScanStable(d, front);
      ScanNext(d + front, last);
      assert (d + front) + [last] == d + more;
    }
  }

  // ----- The verdict -----

  datatype Judgement = Waiting | Rejected(error: Error) | Accepted(out: seq<byte>)

  function SizeOf(b: seq<byte>): nat
    requires |b| == 4
  {
    b[0] as int + 256 * (b[1] as int + 256 * (b[2] as int + 256 * b[3] as int))
  }

  function Mod32(n: nat): nat {
    n % 0x1_0000_0000
  }

  /** The trailer: CRC-32 of the output, its length modulo 2^32, and nothing behind. */
  ghost function TailVerdict(out: seq<byte>, tail: seq<byte>): Judgement {
    if |tail| < TRAILER_BYTES then Waiting
    else if Crc.U32(tail[0], tail[1], tail[2], tail[3]) != Crc.Checksum(out) then Rejected(ChecksumMismatch)
    else if SizeOf(tail[4..8]) != Mod32(|out|) then Rejected(SizeMismatch)
    else if |tail| > TRAILER_BYTES then Rejected(FedAfterEnd)
    else Accepted(out)
  }

  /** What is left of a body behind the byte that holds its last DEFLATE bit. */
  ghost function TailOf(body: seq<byte>, pos: nat): seq<byte>
    requires pos <= 8 * |body|
  {
    body[(pos + 7) / 8..]
  }

  lemma {:induction false} CompleteWithin(body: seq<byte>)
    ensures RunOf(body).Complete? ==> RunOf(body).config.pos <= 8 * |body|
  {
    hide BytesToBits, I.Run, I.Step;
    I.RunValid(BytesToBits(body), I.Init);
  }

  ghost function BodyVerdict(body: seq<byte>): Judgement {
    CompleteWithin(body);
    match RunOf(body)
    case Stuck(_) => Waiting
    case Failed(e) => Rejected(e)
    case Complete(c) => TailVerdict(c.out, TailOf(body, c.pos))
  }

  ghost function Verdict(d: seq<byte>): Judgement {
    match Scan(d)
    case More(_) => Waiting
    case Bad(e) => Rejected(e)
    case BodyAt(start) => BodyVerdict(d[start..])
  }

  lemma {:induction false} RunOfExtends(body: seq<byte>, more: seq<byte>)
    requires !RunOf(body).Stuck?
    ensures RunOf(body + more) == RunOf(body)
  {
    hide I.Run, BytesToBits;
    BytesToBitsConcat(body, more);
    I.RunExtends(BytesToBits(body), BytesToBits(body + more), I.Init);
  }

  lemma {:induction false} TailExtends(body: seq<byte>, more: seq<byte>, pos: nat)
    requires pos <= 8 * |body|
    ensures TailOf(body + more, pos) == TailOf(body, pos) + more
  {}

  lemma {:induction false} TailRejects(out: seq<byte>, tail: seq<byte>, more: seq<byte>)
    requires TailVerdict(out, tail).Rejected?
    ensures TailVerdict(out, tail + more) == TailVerdict(out, tail)
  {
    hide Crc.U32, Crc.Checksum, SizeOf;
    assert (tail + more)[4..8] == tail[4..8];
  }

  /** A rejection stands, whatever follows. */
  lemma {:induction false} RejectionStands(d: seq<byte>, more: seq<byte>)
    requires Verdict(d).Rejected?
    ensures Verdict(d + more) == Verdict(d)
  {
    hide RunOf, TailVerdict, TailOf, Scan;
    ScanStable(d, more);
    if Scan(d).BodyAt? {
      var body := d[Scan(d).start..];
      assert (d + more)[Scan(d).start..] == body + more;
      RunOfExtends(body, more);
      CompleteWithin(body);
      CompleteWithin(body + more);
      if RunOf(body).Complete? {
        var c := RunOf(body).config;
        TailExtends(body, more, c.pos);
        TailRejects(c.out, TailOf(body, c.pos), more);
      }
    }
  }

  /** An accepted member with anything behind it is rejected. */
  lemma {:induction false} NothingBehind(d: seq<byte>, more: seq<byte>)
    requires Verdict(d).Accepted? && more != []
    ensures Verdict(d + more) == Rejected(FedAfterEnd)
  {
    hide RunOf, TailOf, Scan, Crc.U32, Crc.Checksum, SizeOf;
    ScanStable(d, more);
    var body := d[Scan(d).start..];
    assert (d + more)[Scan(d).start..] == body + more;
    RunOfExtends(body, more);
    CompleteWithin(body);
    CompleteWithin(body + more);
    var c := RunOf(body).config;
    TailExtends(body, more, c.pos);
    var tail := TailOf(body, c.pos);
    assert (tail + more)[4..8] == tail[4..8];
  }

  // ----- Optional header fields -----

  ghost predicate NoZero(s: seq<byte>) {
    forall i :: 0 <= i < |s| ==> s[i] != 0
  }

  lemma {:induction false} ScanFixed(d: seq<byte>, got: seq<byte>, chunk: seq<byte>)
    requires Scan(d) == More(FixedPart(got)) && |got| + |chunk| <= 10 && |got| < 10
    ensures Scan(d + chunk) == if |got| + |chunk| < 10 then More(FixedPart(got + chunk)) else Settled(Parsed(got
        + chunk), |d + chunk|)
  {
    hide Scan, Parsed;
    if chunk == [] {
      assert d + chunk == d && got + chunk == got;
    } else {
      var front, last := chunk[..|chunk| - 1], chunk[|chunk| - 1];
      ScanFixed(d, got, front);
      ScanNext(d + front, last);
      assert (d + front) + [last] == d + chunk && (got + front) + [last] == got + chunk;
    }
  }

  lemma {:induction false} ScanSize(d: seq<byte>, flags: byte, got: seq<byte>, chunk: seq<byte>)
    requires Scan(d) == More(ExtraSize(flags, got)) && |got| + |chunk| <= 2 && |got| < 2
    ensures Scan(d + chunk) == if |got| + |chunk| < 2 then More(ExtraSize(flags, got + chunk))
                               else Settled(Skip(flags, Decode.U16((got + chunk)[0], (got + chunk)[1])), |d + chunk|)
  {
    hide Scan, Skip, Decode.U16;
    if chunk == [] {
      assert d + chunk == d && got + chunk == got;
    } else {
      var front, last := chunk[..|chunk| - 1], chunk[|chunk| - 1];
      ScanSize(d, flags, got, front);
      ScanNext(d + front, last);
      assert (d + front) + [last] == d + chunk && (got + front) + [last] == got + chunk;
    }
  }

  lemma {:induction false} ScanSkip(d: seq<byte>, flags: byte, left: nat, chunk: seq<byte>)
    requires left > 0 && Scan(d) == More(ExtraSkip(flags, left)) && |chunk| <= left
    ensures Scan(d + chunk) == Settled(Skip(flags, left - |chunk|), |d + chunk|)
  {
    hide Scan, PastExtra;
    if chunk == [] {
      assert d + chunk == d;
    } else {
      var front, last := chunk[..|chunk| - 1], chunk[|chunk| - 1];
      ScanSkip(d, flags, left, front);
      ScanNext(d + front, last);
      assert (d + front) + [last] == d + chunk;
    }
  }

  lemma {:induction false} ScanText(d: seq<byte>, h: Head, text: seq<byte>)
    requires (h.Name? || h.Comment?) && Scan(d) == More(h) && NoZero(text)
    ensures Scan(d + text) == More(h)
    ensures Scan(d + text + [0]) == Settled(if h.Name? then PastName(h.flags) else PastComment(h.flags), |d + text| + 1)
  {
    hide Scan, PastName, PastComment;
    if text == [] {
      assert d + text == d;
    } else {
      var front, last := text[..|text| - 1], text[|text| - 1];
      ScanText(d, h, front);
      ScanNext(d + front, last);
      assert (d + front) + [last] == d + text;
    }
    ScanNext(d + text, 0);
  }

  lemma {:induction false} ScanHcrc(d: seq<byte>, skipped: nat, chunk: seq<byte>)
    requires skipped < 2 && Scan(d) == More(Hcrc(skipped)) && skipped + |chunk| <= 2
    ensures Scan(d + chunk) == if skipped + |chunk| < 2 then More(Hcrc(skipped + |chunk|)) else BodyAt(|d + chunk|)
  {
    hide Scan;
    if chunk == [] {
      assert d + chunk == d;
    } else {
      var front, last := chunk[..|chunk| - 1], chunk[|chunk| - 1];
      ScanHcrc(d, skipped, front);
      ScanNext(d + front, last);
      assert (d + front) + [last] == d + chunk;
    }
  }

  /** The optional parts of a header. */
  datatype Fields = Fields(extra: Option<seq<byte>>, name: Option<seq<byte>>, comment: Option<seq<byte>>,
      hcrc: Option<seq<byte>>) {
    ghost predicate Ok() {
      (extra.Some? ==> |extra.value| <= 0xFFFF) && (name.Some? ==> NoZero(name.value)) && (comment.Some?
          ==> NoZero(comment.value))
      && (hcrc.Some? ==> |hcrc.value| == 2)
    }

    ghost function Flags(): byte {
      (if hcrc.Some? then 2 else 0) + (if extra.Some? then 4 else 0) + (if name.Some? then 8 else 0)
          + if comment.Some? then 16 else 0
    }

    ghost function ExtraBytes(): seq<byte>
      requires Ok()
    {
      if extra.Some? then [|extra.value| % 256, |extra.value| / 256] + extra.value else []
    }

    ghost function NameBytes(): seq<byte> { if name.Some? then name.value + [0] else [] }

    ghost function CommentBytes(): seq<byte> { if comment.Some? then comment.value + [0] else [] }

    ghost function HcrcBytes(): seq<byte> { if hcrc.Some? then hcrc.value else [] }
  }

  /** A header with any combination of optional fields; `rest` is time, extra flags and system. */
  ghost function HeaderBytes(f: Fields, rest: seq<byte>): seq<byte>
    requires f.Ok() && |rest| == 6
  {
    [MAGIC1, MAGIC2, METHOD_DEFLATE,
        f.Flags()] + rest + f.ExtraBytes() + f.NameBytes() + f.CommentBytes() + f.HcrcBytes()
  }

  lemma {:induction false} FlagsRead(f: Fields)
    ensures HasHcrc(f.Flags()) == f.hcrc.Some? && HasExtra(f.Flags()) == f.extra.Some?
    ensures HasName(f.Flags()) == f.name.Some? && HasComment(f.Flags()) == f.comment.Some?
  {}

  /** Every optional field is skipped exactly: the body starts right behind them. */
  lemma {:induction false} OptionalFieldsSkipped(f: Fields, rest: seq<byte>)
    requires f.Ok() && |rest| == 6
    ensures Scan(HeaderBytes(f, rest)) == BodyAt(|HeaderBytes(f, rest)|)
  {
    hide Scan, HasHcrc, HasExtra, HasName, HasComment, PastExtra;
    FlagsRead(f);
    var start := [MAGIC1, MAGIC2, METHOD_DEFLATE, f.Flags()] + rest;
    NothingScanned();
    ScanFixed([], [], start);
    assert [] + start == start;
    SkipExtra(f, start);
    SkipName(f, start + f.ExtraBytes());
    SkipComment(f, start + f.ExtraBytes() + f.NameBytes());
    SkipHcrc(f, start + f.ExtraBytes() + f.NameBytes() + f.CommentBytes());
  }

  lemma {:induction false} NothingScanned()
    ensures Scan([]) == More(FixedPart([]))
  {}

  lemma {:induction false} SkipExtra(f: Fields, d: seq<byte>)
    requires f.Ok() && Scan(d) == Settled(if f.extra.Some? then ExtraSize(f.Flags(), []) else PastExtra(f.Flags()), |d|)
    ensures Scan(d + f.ExtraBytes()) == Settled(PastExtra(f.Flags()), |d + f.ExtraBytes()|)
  {
    hide Scan, PastExtra;
    if f.extra.Some? {
      var n := |f.extra.value|;
      var size := [n % 256, n / 256];
      ScanSize(d, f.Flags(), [], size);
      assert [] + size == size;
      assert Decode.U16(n % 256, n / 256) == n;
      if n > 0 {
        ScanSkip(d + size, f.Flags(), n, f.extra.value);
      } else {
        assert f.extra.value == [] && size + f.extra.value == size;
      }
      assert (d + size) + f.extra.value == d + f.ExtraBytes();
    } else {
      assert d + [] == d;
    }
  }

  lemma {:induction false} SkipName(f: Fields, d: seq<byte>)
    requires f.Ok() && Scan(d) == Settled(PastExtra(f.Flags()), |d|)
    ensures Scan(d + f.NameBytes()) == Settled(PastName(f.Flags()), |d + f.NameBytes()|)
  {
    hide Scan, PastName;
    FlagsRead(f);
    if f.name.Some? {
      ScanText(d, Name(f.Flags()), f.name.value);
      assert (d + f.name.value) + [0] == d + f.NameBytes();
    } else {
      assert d + [] == d;
    }
  }

  lemma {:induction false} SkipComment(f: Fields, d: seq<byte>)
    requires f.Ok() && Scan(d) == Settled(PastName(f.Flags()), |d|)
    ensures Scan(d + f.CommentBytes()) == Settled(PastComment(f.Flags()), |d + f.CommentBytes()|)
  {
    hide Scan, PastComment;
    FlagsRead(f);
    if f.comment.Some? {
      ScanText(d, Comment(f.Flags()), f.comment.value);
      assert (d + f.comment.value) + [0] == d + f.CommentBytes();
    } else {
      assert d + [] == d;
    }
  }

  lemma {:induction false} SkipHcrc(f: Fields, d: seq<byte>)
    requires f.Ok() && Scan(d) == Settled(PastComment(f.Flags()), |d|)
    ensures Scan(d + f.HcrcBytes()) == BodyAt(|d + f.HcrcBytes()|)
  {
    hide Scan;
    FlagsRead(f);
    if f.hcrc.Some? {
      ScanHcrc(d, 0, f.hcrc.value);
    } else {
      assert d + [] == d;
    }
  }

  // ----- The decoder -----

  datatype State = FixedHeader | Extra | ExtraLen | NameText | CommentText | HeaderCrc | Body | Trailer | Done

  lemma {:induction false} EmptyRun()
    ensures RunOf([]) == I.Stuck(I.Init)
  {}

  lemma {:induction false} TailStep(body: seq<byte>, b: byte)
    requires RunOf(body).Complete?
    ensures RunOf(body + [b]) == RunOf(body) && RunOf(body).config.pos <= 8 * |body|
    ensures TailOf(body + [b], RunOf(body).config.pos) == TailOf(body, RunOf(body).config.pos) + [b]
  {
    hide RunOf;
    CompleteWithin(body);
    RunOfExtends(body, [b]);
    TailExtends(body, [b], RunOf(body).config.pos);
  }

  lemma {:induction false} BodyWaits(d: seq<byte>, start: nat)
    requires Scan(d) == BodyAt(start) && RunOf(d[start..]).Stuck?
    ensures Verdict(d) == Waiting
  {
    hide Scan, RunOf;
  }

  lemma {:induction false} HeaderWaits(d: seq<byte>)
    requires Scan(d).More? || Scan(d) == BodyAt(|d|)
    ensures Verdict(d) == Waiting
  {
    hide Scan, RunOf;
    EmptyRun();
    assert d[|d|..] == [];
  }

  class Decoder {
    var state: State
    var flags: byte
    var header: seq<byte>
    var extraRemaining: nat
    var extraLenBytesFilled: nat
    var extraLen: seq<byte>
    const deflate: Decode.Decoder
    const crc: Crc.Crc32
    var size: nat
    var trailer: seq<byte>
    var finished: bool
    var output: seq<byte>

    /** Everything fed, everything produced and handed over, and where the body began. */
    ghost var fed: seq<byte>
    ghost var produced: seq<byte>
    ghost var handed: seq<byte>
    ghost var bodyStart: nat

    /** Where in the header the decoder is. */
    ghost var head: Head

    /** The fields stand for this point of the header. */
    ghost predicate Shows(h: Head)
      reads this
    {
      match h
      case FixedPart(got) => state == FixedHeader && header == got && |got| < 10
      case ExtraSize(f, got) => state == Extra && flags == f && extraLen == got && |got| < 2
          && extraLenBytesFilled == |got|
      case ExtraSkip(f, left) => state == ExtraLen && flags == f && extraRemaining == left && left > 0
      case Name(f) => state == NameText && flags == f
      case Comment(f) => state == CommentText && flags == f
      case Hcrc(n) => state == HeaderCrc && extraLenBytesFilled == n && n < 2
      case HeadDone => state == Body
      case HeadBad(_) => false
    }

    ghost predicate Idle()
      reads deflate, crc
    {
      deflate.Valid() && deflate.track == Decode.Track([], I.Init) && !deflate.finished && deflate.Delivered() == 0
      && crc.Valid() && crc.seen == []
    }

    /** Nothing has reached the body yet. */
    ghost predicate Untouched()
      reads this, deflate, crc
    {
      Idle() && size == 0 && produced == [] && trailer == [] && !finished && output == [] && handed == []
    }

    /** Inside the header; an extra field whose last byte is in may not have been left yet. */
    ghost predicate InHeader(h: Head)
      reads this
    {
      Scan(fed) == Settled(h, |fed|) && (Shows(h) || (state == ExtraLen && extraRemaining == 0
          && h == PastExtra(flags)))
    }

    /** What was produced is accounted for. */
    ghost predicate Counted()
      reads this, crc
    {
      crc.Valid() && crc.seen == produced && size == Mod32(|produced|)
    }

    /** The unread part of it is in `output`. */
    ghost predicate Unread()
      reads this
    {
      produced == handed + output
    }

    ghost function BodyBytes(): seq<byte>
      requires bodyStart <= |fed|
      reads this
    {
      fed[bodyStart..]
    }

    ghost predicate InBody()
      reads this, deflate, crc
    {
      Scan(fed) == BodyAt(bodyStart) && Counted() && trailer == [] && !finished
      && deflate.Valid() && deflate.track.fed == BodyBytes() && !deflate.finished
      && RunOf(BodyBytes()) == I.Stuck(deflate.track.place)
      && deflate.Delivered() == |produced| && produced == deflate.track.place.out
    }

    ghost predicate InTrailer()
      reads this, crc
    {
      Scan(fed) == BodyAt(bodyStart) && Counted() && |trailer| < TRAILER_BYTES && !finished
      && TrailerIs(BodyBytes(), produced, trailer)
    }

    ghost predicate Valid()
      reads this, deflate, crc
    {
      OnCourse() && Unread()
    }

    /** Everything but the unread output. */
    ghost predicate OnCourse()
      reads this, deflate, crc
    {
      match state
      case Body => InBody()
      case Trailer => InTrailer()
      case Done => finished && Verdict(fed) == Accepted(produced) && Counted()
      case _ => Untouched() && InHeader(head)
    }

    constructor ()
      ensures Valid() && fed == [] && produced == [] && handed == [] && !finished && fresh(deflate) && fresh(crc)
    {
      hide Decode.Decoder.Valid, Crc.Crc32.Valid, Scan, InBody, InTrailer, Verdict, RunOf, OnCourse, Unread,
           BytesToBits, I.Run;
      state, flags, header, extraRemaining, extraLenBytesFilled, extraLen := FixedHeader, 0, [], 0, 0, [];
      deflate := new Decode.Decoder();
      crc := new Crc.Crc32();
      size, trailer, finished, output := 0, [], false, [];
      fed, produced, handed, bodyStart, head := [], [], [], 0, FixedPart([]);
      new;
      NothingScanned();
      Settle(FixedPart([]));
    }

    // ----- Header -----

    method AdvancePastComment()
      modifies this`state, this`extraLenBytesFilled
      ensures Shows(PastComment(flags))
    {
      if HasHcrc(flags) {
        state := HeaderCrc;
        extraLenBytesFilled := 0;
      } else {
        state := Body;
      }
    }

    method AdvancePastName()
      modifies this`state, this`extraLenBytesFilled
      ensures Shows(PastName(flags))
    {
      if HasComment(flags) {
        state := CommentText;
      } else {
        AdvancePastComment();
      }
    }

    method AdvancePastExtra()
      modifies this`state, this`extraLenBytesFilled
      ensures Shows(PastExtra(flags))
    {
      if HasName(flags) {
        state := NameText;
      } else {
        AdvancePastName();
      }
    }

    method ParseFixedHeader() returns (r: Result<()>)
      requires |header| == 10
      modifies this`flags
      ensures r == if Parsed(header).HeadBad? then Err(Parsed(header).error) else Ok(())
      ensures r.Ok? ==> flags == header[3]
    {
      if header[0] != MAGIC1 || header[1] != MAGIC2 {
        return Err(BadMagic);
      }
      if header[2] != METHOD_DEFLATE {
        return Err(UnsupportedMethod);
      }
      flags := header[3];
      return Ok(());
    }

    method AdvanceToNextHeaderState()
      requires |header| == 10 && flags == header[3] && !Parsed(header).HeadBad?
      modifies this`state, this`extraLenBytesFilled, this`extraLen
      ensures Shows(Parsed(header))
    {
      if HasExtra(flags) {
        state := Extra;
        extraLenBytesFilled := 0;
        extraLen := [];
      } else {
        AdvancePastExtra();
      }
    }

    /** Where the header ends the body begins. */
    ghost method Settle(h: Head)
      requires Untouched() && InHeader(h)
      modifies this`bodyStart, this`head
      ensures Valid()
    {
      hide Scan, BytesToBits, I.Run, Idle, InBody, InTrailer, Verdict, PastExtra;
      head := h;
      if state == Body {
        EnterBody();
      }
    }

    ghost method EnterBody()
      requires Untouched() && state == Body && Scan(fed) == BodyAt(|fed|)
      modifies this`bodyStart
      ensures Valid() && state == Body
    {
      hide Scan, BytesToBits, I.Run, RunOf, Decode.Decoder.Valid, Crc.Crc32.Valid;
      bodyStart := |fed|;
      EmptyRun();
      assert fed[bodyStart..] == [];
    }

    method FeedFixedHeader(data: seq<byte>, i: nat) returns (n: nat, r: Result<()>)
      requires state == FixedHeader && Valid() && i < |data|
      modifies this
      ensures i < n <= |data| && fed == old(fed) + data[i..n] && produced == old(produced) && handed == old(handed)
      ensures r.Ok? ==> Valid()
      ensures r.Err? ==> Verdict(fed) == Rejected(r.error)
    {
      hide Scan, Parsed, PastExtra, BytesToBits, I.Run, Idle, InBody, InTrailer, Verdict, Counted, Unread;
      var take := Min(10 - |header|, |data| - i);
      ghost var got := header;
      ScanFixed(fed, header, data[i..i + take]);
      header := header + data[i..i + take];
      fed := fed + data[i..i + take];
      n := i + take;
      r := Ok(());
      if |header| == 10 {
        r := ParseFixedHeader();
        if r.Err? {
          HeaderRejects(fed);
          return;
        }
        AdvanceToNextHeaderState();
        Settle(Parsed(header));
      } else {
        Settle(FixedPart(header));
      }
    }

    method FeedExtra(data: seq<byte>, i: nat) returns (n: nat)
      requires state == Extra && Valid() && i < |data|
      modifies this
      ensures i < n <= |data| && fed == old(fed) + data[i..n] && produced == old(produced)
          && handed == old(handed) && Valid()
    {
      hide Scan, Parsed, PastExtra, BytesToBits, I.Run, Idle, InBody, InTrailer, Verdict, Counted, Unread;
      if extraLenBytesFilled < 2 {
        var take := Min(2 - extraLenBytesFilled, |data| - i);
        ScanSize(fed, flags, extraLen, data[i..i + take]);
        extraLen := extraLen + data[i..i + take];
        extraLenBytesFilled := extraLenBytesFilled + take;
        fed := fed + data[i..i + take];
        n := i + take;
        if extraLenBytesFilled == 2 {
          extraRemaining := Decode.U16(extraLen[0], extraLen[1]);
          state := ExtraLen;
          Settle(Skip(flags, extraRemaining));
        } else {
          Settle(ExtraSize(flags, extraLen));
        }
      } else {
        assert false;
      }
    }

    /** Skip extra bytes; an empty or used-up field is left without consuming anything. */
    method FeedExtraLen(data: seq<byte>, i: nat) returns (n: nat)
      requires state == ExtraLen && Valid() && i < |data|
      modifies this
      ensures i <= n <= |data| && fed == old(fed) + data[i..n] && produced == old(produced)
          && handed == old(handed) && Valid()
      ensures n > i || state != ExtraLen
    {
      hide Scan, Parsed, PastExtra, BytesToBits, I.Run, Idle, InBody, InTrailer, Verdict, Counted, Unread;
      var take := Min(extraRemaining, |data| - i);
      if extraRemaining > 0 {
        ScanSkip(fed, flags, extraRemaining, data[i..i + take]);
      } else {
        assert fed + data[i..i] == fed;
      }
      n := i + take;
      fed := fed + data[i..n];
      extraRemaining := extraRemaining - take;
      if extraRemaining == 0 {
        AdvancePastExtra();
        Settle(PastExtra(flags));
      } else {
        Settle(ExtraSkip(flags, extraRemaining));
      }
    }

    /** Skip to the zero byte that ends the name or comment. */
    method FeedText(data: seq<byte>, i: nat) returns (n: nat)
      requires (state == NameText || state == CommentText) && Valid() && i < |data|
      modifies this
      ensures i < n <= |data| && fed == old(fed) + data[i..n] && produced == old(produced)
          && handed == old(handed) && Valid()
    {
      hide Scan, Parsed, PastName, PastComment, BytesToBits, I.Run, Idle, InBody, InTrailer, Verdict, Counted, Unread;
      ghost var h := head;
      ghost var start := fed;
      n := i;
      assert start + data[i..i] == start;
      while n < |data|
        invariant i <= n <= |data| && Untouched() && Scan(start + data[i..n]) == More(h) && Shows(h)
        invariant fed == start && flags == old(flags) && state == old(state)
      {
        var b := data[n];
        ScanNext(start + data[i..n], b);
        assert (start + data[i..n]) + [b] == start + data[i..n + 1];
        n := n + 1;
        if b == 0 {
          fed := start + data[i..n];
          if state == NameText {
            AdvancePastName();
            Settle(PastName(flags));
          } else {
            AdvancePastComment();
            Settle(PastComment(flags));
          }
          return;
        }
      }
      fed := start + data[i..n];
      Settle(h);
    }

    method FeedHcrc(data: seq<byte>, i: nat) returns (n: nat)
      requires state == HeaderCrc && Valid() && i < |data|
      modifies this
      ensures i < n <= |data| && fed == old(fed) + data[i..n] && produced == old(produced)
          && handed == old(handed) && Valid()
    {
      hide Scan, Parsed, PastExtra, BytesToBits, I.Run, Idle, InBody, InTrailer, Verdict, Counted, Unread;
      var skip := Min(2 - extraLenBytesFilled, |data| - i);
      ScanHcrc(fed, extraLenBytesFilled, data[i..i + skip]);
      n := i + skip;
      fed := fed + data[i..n];
      extraLenBytesFilled := extraLenBytesFilled + skip;
      if extraLenBytesFilled == 2 {
        state := Body;
        extraLenBytesFilled := 0;
        Settle(HeadDone);
      } else {
        Settle(Hcrc(extraLenBytesFilled));
      }
    }

    // ----- Trailer -----

    /** Take a trailer byte; the eighth settles the matter. */
    method FeedTrailerByte(b: byte) returns (r: Result<()>)
      requires Counted() && |trailer| < TRAILER_BYTES && !finished && state == Trailer
      modifies this`trailer, this`state, this`finished
      ensures trailer == old(trailer) + [b]
      ensures |trailer| < TRAILER_BYTES ==> r == Ok(()) && state == Trailer && !finished
      ensures |trailer| == TRAILER_BYTES ==>
                match TailVerdict(produced, trailer)
                case Accepted(out) => out == produced && r == Ok(()) && state == Done && finished
                case Rejected(e) => r == Err(e)
                case Waiting => false
    {
      hide Crc.U32, Crc.Checksum;
      trailer := trailer + [b];
      if |trailer| == TRAILER_BYTES {
        var expectedCrc := Crc.U32(trailer[0], trailer[1], trailer[2], trailer[3]);
        var expectedSize := SizeOf(trailer[4..8]);
        if expectedCrc != crc.Value() {
          return Err(ChecksumMismatch);
        }
        if expectedSize != size {
          return Err(SizeMismatch);
        }
        state := Done;
        finished := true;
      }
      return Ok(());
    }

    method FeedTrailer(data: seq<byte>, i: nat) returns (n: nat, r: Result<()>)
      requires state == Trailer && Valid() && i < |data|
      modifies this
      ensures i < n <= |data| && fed == old(fed) + data[i..n] && produced == old(produced) && handed == old(handed)
      ensures r.Ok? ==> Valid()
      ensures r.Err? ==> Verdict(fed) == Rejected(r.error)
    {
      hide Scan, TailVerdict, RunOf, TailOf, TrailerIs, Verdict, Idle, InBody, Crc.Crc32.Valid, Shows;
      n := i;
      ghost var start := fed;
      assert start + data[i..i] == start;
      while n < |data| && |trailer| < TRAILER_BYTES
        invariant i <= n <= |data| && fed == start + data[i..n] && produced == old(produced) && handed == old(handed)
        invariant Valid() && (|trailer| < TRAILER_BYTES ==> state == Trailer) && (n == i ==> |trailer| < TRAILER_BYTES)
      {
        ghost var before := BodyBytes();
        r := FeedTrailerByte(data[n]);
        TrailerGrows(before, produced, trailer, data[n]);
        ScanStable(fed, [data[n]]);
        assert fed + [data[n]] == start + data[i..n + 1];
        fed := fed + [data[n]];
        assert BodyBytes() == before + [data[n]];
        n := n + 1;
        TrailerDecides(fed, bodyStart, produced, trailer);
        if r.Err? {
          return;
        }
      }
      r := Ok(());
    }

    // ----- Body -----

    /** Take over what the sub-stream has produced. */
    method Collect()
      requires deflate.Valid() && Counted() && Unread() && deflate.Delivered() == |produced|
          && produced <= deflate.track.place.out
      modifies this`size, this`output, this`produced, crc, deflate`drained, deflate`output
      ensures deflate.Valid() && Counted() && Unread() && produced == deflate.track.place.out
          && deflate.Delivered() == |produced|
      ensures deflate.Output() == []
      ensures handed == old(handed) && old(produced) <= produced
    {
      hide Decode.Decoder.Valid, Crc.Crc32.Valid, BytesToBits, I.Run;
      var newBytes := deflate.Output();
      crc.Update(newBytes);
      SizeAdds(|produced|, |newBytes|);
      size := Mod32(size + Mod32(|newBytes|));
      JoinAssoc(handed, output, newBytes);
      output := output + newBytes;
      produced := produced + newBytes;
      deflate.Advance(|newBytes|);
    }

    /** Bytes behind the body that arrived with it: the trailer, and nothing more. */
    method ConsumeDeflateTail() returns (r: Result<()>)
      requires state == Trailer && Counted() && Unread() && trailer == [] && !finished && Scan(fed) == BodyAt(bodyStart)
      requires TrailerIs(BodyBytes(), produced, deflate.input)
      modifies this`trailer, this`state, this`finished
      ensures r.Ok? ==> Valid()
      ensures r.Err? ==> Verdict(fed) == Rejected(r.error)
    {
      hide Scan, TailVerdict, RunOf, TailOf, TrailerIs, Verdict, Idle, InBody, Crc.Crc32.Valid;
      var tail := deflate.input;
      TrailerDecides(fed, bodyStart, produced, tail);
      var copied := Min(|tail|, TRAILER_BYTES);
      ghost var rest := tail[copied..];
      assert tail[..0] == [];
      for k := 0 to copied
        invariant trailer == tail[..k] && Counted()
        invariant k < TRAILER_BYTES ==> state == Trailer && !finished
        invariant k == TRAILER_BYTES ==>
                    state == Done && finished && TailVerdict(produced, trailer) == Accepted(produced)
      {
        r := FeedTrailerByte(tail[k]);
        assert tail[..k + 1] == tail[..k] + [tail[k]];
        if r.Err? {
          ShortTail(produced, trailer);
          assert tail == trailer + tail[k + 1..];
          TailRejects(produced, trailer, tail[k + 1..]);
          return;
        }
      }
      assert tail == tail[..copied] + rest;
      if |tail| > TRAILER_BYTES {
        TailBehind(produced, trailer, rest);
        return Err(FedAfterEnd);
      }
      assert tail[..|tail|] == tail;
      return Ok(());
    }

    /** Feed the sub-stream. */
    method FeedSub(data: seq<byte>, ghost body: seq<byte>) returns (r: Result<()>)
      requires deflate.Valid() && !deflate.finished && body == deflate.track.fed + data
      modifies deflate
      ensures r.Err? ==> RunOf(body) == I.Failed(r.error)
      ensures r.Ok? ==> deflate.Valid() && deflate.track.fed == body && deflate.Delivered() == old(deflate.Delivered())
      ensures r.Ok? ==> old(deflate.track).place.out <= deflate.track.place.out
      ensures r.Ok? ==> old(deflate.track).place.pos <= deflate.track.place.pos <= 8 * |body|
      ensures r.Ok? && deflate.track.place.pos == old(deflate.track).place.pos ==>
                deflate.track.place.out == old(deflate.track).place.out
                    && |deflate.input| == old(|deflate.input|) + |data|
      ensures r.Ok? && deflate.finished ==> TrailerIs(body, deflate.track.place.out, deflate.input)
      ensures r.Ok? && !deflate.finished && deflate.Output() == [] ==> RunOf(body) == I.Stuck(deflate.track.place)
    {
      hide Decode.Decoder.Valid, BytesToBits, I.Run, TrailerIs;
      r := deflate.Feed(data);
      if r.Ok? {
        DecoderStands(deflate);
        FinishedTail(deflate);
      }
    }

    /** The sub-stream has been given all of the body so far, and what was taken from it is accounted for. */
    ghost predicate Inflating(body: seq<byte>)
      reads this, deflate, crc
    {
      state == Body && trailer == [] && !finished && Counted() && Unread()
      && deflate.Valid() && deflate.track.fed == body && deflate.Delivered() == |produced|
      && produced <= deflate.track.place.out && deflate.track.place.pos <= 8 * |body|
      && (deflate.finished ==> TrailerIs(body, deflate.track.place.out, deflate.input))
    }

    /** Drain the sub-stream and resume it once.  `more` says whether that is worth repeating; if not, the
        sub-stream is finished or starved, never merely full. */
    method BodyTurn(ghost body: seq<byte>) returns (r: Result<()>, more: bool)
      requires Inflating(body) && Scan(fed) == BodyAt(bodyStart) && body == BodyBytes()
      modifies this, deflate, crc
      ensures fed == old(fed) && bodyStart == old(bodyStart) && handed == old(handed) && old(produced) <= produced
      ensures r.Ok? && !more ==> Valid()
      ensures r.Err? ==> Verdict(fed) == Rejected(r.error)
      ensures r.Ok? && more ==>
                Inflating(body)
                && (old(deflate.track.place.pos) < deflate.track.place.pos
                    || (old(deflate.track.place.pos) == deflate.track.place.pos
                        && deflate.finished && !old(deflate.finished)))
    {
      hide Scan, TailVerdict, TailOf, Verdict, Idle, Crc.Crc32.Valid, Decode.Decoder.Valid, BytesToBits, I.Run,
           TrailerIs, RunOf;
      Collect();
      if deflate.finished {
        state := Trailer;
        r := ConsumeDeflateTail();
        return r, false;
      }
      var beforeRemaining := |deflate.input|;
      assert body + [] == body;
      r := FeedSub([], body);
      if r.Err? {
        BodyFails(fed, bodyStart, r.error);
        return r, false;
      }
      more := !(deflate.Output() == [] && |deflate.input| == beforeRemaining && !deflate.finished);
    }

    /** Feed the body and drain it to the end of what it has to give. */
    method FeedBody(data: seq<byte>, i: nat) returns (r: Result<()>)
      requires state == Body && Valid() && i < |data|
      modifies this, deflate, crc
      ensures fed == old(fed) + data[i..]
      ensures old(produced) <= produced && handed == old(handed)
      ensures r.Ok? ==> Valid()
      ensures r.Err? ==> Verdict(fed) == Rejected(r.error)
    {
      hide Scan, TailVerdict, TailOf, Verdict, Idle, Crc.Crc32.Valid, Decode.Decoder.Valid, BytesToBits, I.Run,
           TrailerIs, RunOf;
      ghost var body := BodyBytes() + data[i..];
      BodyGrows(fed, bodyStart, data[i..]);
      r := FeedSub(data[i..], body);
      fed := fed + data[i..];
      if r.Err? {
        BodyFails(fed, bodyStart, r.error);
        return;
      }
      var more := true;
      while more
        invariant fed == old(fed) + data[i..] && bodyStart == old(bodyStart)
        invariant old(produced) <= produced && handed == old(handed)
        invariant r.Ok? && if more then Inflating(body) else Valid()
        decreases more, 8 * |body| - deflate.track.place.pos, if deflate.finished then 0 else 1
      {
        r, more := BodyTurn(body);
        if r.Err? {
          return;
        }
      }
    }

    // ----- Feeding -----

    /** Where the decoder stands says what the bytes fed so far amount to. */
    lemma {:induction false} Stands()
      requires Valid()
      ensures Verdict(fed) == if finished then Accepted(produced) else Waiting
      ensures finished <==> state == Done
    {
      hide Decode.Decoder.Valid, Crc.Crc32.Valid, Scan, RunOf, Unread, Verdict, Shows, TrailerIs, PastExtra;
      match state {
        case Body => BodyWaits(fed, bodyStart);
        case Trailer =>
          TrailerDecides(fed, bodyStart, produced, trailer);
          ShortTail(produced, trailer);
        case Done =>
        case _ => HeaderStands();
      }
    }

    /** Nothing is lost between what was produced and what is still unread. */
    lemma {:induction false} AllUnread()
      requires Valid()
      ensures produced == handed + output
    {
      hide OnCourse;
    }

    lemma {:induction false} HeaderStands()
      requires InHeader(head) && state != Body
      ensures Verdict(fed) == Waiting
    {
      hide Decode.Decoder.Valid, Crc.Crc32.Valid, Scan, RunOf, Unread, Verdict;
      HeaderWaits(fed);
    }

    /** Append compressed bytes.  However a string is cut up, the decoder accepts it exactly when it is one
        gzip member, waits exactly when it is the beginning of one, and rejects it otherwise -- bytes behind
        the member included, whether they arrive with it or later. */
    method Feed(data: seq<byte>) returns (r: Result<()>)
      requires Valid()
      modifies this, deflate, crc
      ensures old(produced) <= produced && handed == old(handed)
      ensures r.Ok? ==> Valid() && fed == old(fed) + data
      ensures r.Ok? ==> Verdict(fed) == if finished then Accepted(produced) else Waiting
      ensures r.Err? ==> Verdict(old(fed) + data) == Rejected(r.error)
    {
      hide Scan, Verdict, OnCourse, Unread, Crc.Crc32.Valid, Decode.Decoder.Valid, BytesToBits;
      var i := 0;
      ghost var start := fed;
      assert start + data[..0] == start;
      while i < |data|
        invariant i <= |data| && Valid() && fed == start + data[..i]
        invariant old(produced) <= produced && handed == old(handed)
        decreases |data| - i, if state == ExtraLen then 1 else 0
      {
        ghost var before := fed;
        var next := |data|;
        r := Ok(());
        match state {
          case FixedHeader => next, r := FeedFixedHeader(data, i);
          case Extra => next := FeedExtra(data, i);
          case ExtraLen => next := FeedExtraLen(data, i);
          case NameText => next := FeedText(data, i);
          case CommentText => next := FeedText(data, i);
          case HeaderCrc => next := FeedHcrc(data, i);
          case Body => r := FeedBody(data, i);
          case Trailer => next, r := FeedTrailer(data, i);
          case Done =>
            AllOf(start, data, i);
            Stands();
            NothingBehind(fed, data[i..]);
            return Err(FedAfterEnd);
        }
        UpTo(start, data, i, next);
        if r.Err? {
          AllOf(start, data, next);
          RejectionStands(fed, data[next..]);
          return;
        }
        i := next;
      }
      assert data[..|data|] == data;
      Stands();
      r := Ok(());
    }

    function Output(): seq<byte>
      reads this
    {
      output
    }

    method Advance(n: nat)
      requires Valid() && n <= |output|
      modifies this`output, this`handed
      ensures Valid() && old(output) == old(output)[..n] + output && handed == old(handed) + old(output)[..n]
    {
      hide Scan, Verdict, Idle, RunOf, TrailerIs, PastExtra, Crc.Crc32.Valid, Decode.Decoder.Valid, BytesToBits;
      TakeFront(handed, output, n);
      handed := handed + output[..n];
      output := output[n..];
    }
  }

  /** The trailer collected so far is what follows the body's last byte. */
  ghost predicate TrailerIs(body: seq<byte>, out: seq<byte>, trailer: seq<byte>) {
    CompleteWithin(body);
    RunOf(body).Complete? && RunOf(body).config.out == out && TailOf(body, RunOf(body).config.pos) == trailer
  }

  lemma {:induction false} TrailerGrows(body: seq<byte>, out: seq<byte>, trailer: seq<byte>, b: byte)
    requires trailer != [] && trailer[|trailer| - 1] == b && TrailerIs(body, out, trailer[..|trailer| - 1])
    ensures TrailerIs(body + [b], out, trailer)
  {
    hide RunOf, TailOf;
    TailStep(body, b);
    assert trailer == trailer[..|trailer| - 1] + [b];
  }

  /** The verdict on a body whose trailer has come this far. */
  lemma {:induction false} TrailerDecides(d: seq<byte>, start: nat, out: seq<byte>, trailer: seq<byte>)
    requires Scan(d) == BodyAt(start) && TrailerIs(d[start..], out, trailer)
    ensures Verdict(d) == TailVerdict(out, trailer)
  {
    hide RunOf, TailOf, Scan, TailVerdict;
  }

  lemma {:induction false} HeaderRejects(d: seq<byte>)
    requires Scan(d).Bad?
    ensures Verdict(d) == Rejected(Scan(d).error)
  {
    hide Scan;
  }

  lemma {:induction false} SizeAdds(a: nat, b: nat)
    ensures Mod32(Mod32(a) + Mod32(b)) == Mod32(a + b)
  {}

  lemma {:induction false} ShortTail(out: seq<byte>, tail: seq<byte>)
    requires |tail| <= TRAILER_BYTES
    ensures |tail| < TRAILER_BYTES ==> TailVerdict(out, tail) == Waiting
  {}

  lemma {:induction false} TailBehind(out: seq<byte>, tail: seq<byte>, more: seq<byte>)
    requires TailVerdict(out, tail).Accepted? && more != []
    ensures TailVerdict(out, tail + more) == Rejected(FedAfterEnd)
  {
    hide Crc.U32, Crc.Checksum, SizeOf;
    assert (tail + more)[4..8] == tail[4..8];
  }

  lemma {:induction false} BodyGrows(d: seq<byte>, start: nat, more: seq<byte>)
    requires Scan(d) == BodyAt(start)
    ensures Scan(d + more) == BodyAt(start) && (d + more)[start..] == d[start..] + more
  {
    hide Scan;
    ScanStable(d, more);
  }

  lemma {:induction false} BodyFails(d: seq<byte>, start: nat, e: Error)
    requires Scan(d) == BodyAt(start) && RunOf(d[start..]) == I.Failed(e)
    ensures Verdict(d) == Rejected(e)
  {
    hide Scan, RunOf;
  }

  lemma {:induction false} DecoderStands(d: Decode.Decoder)
    requires d.Valid()
    ensures d.track.place.pos <= |d.track.Stream()|
  {
    Decode.OnTrackValid(d.track);
  }

  /** A finished decoder's unread input is the tail behind the body. */
  lemma {:induction false} FinishedTail(d: Decode.Decoder)
    ensures var body, place := d.track.fed, d.track.place;
            RunOf(body) == I.Complete(place) && (place.pos + 7) / 8 <= |body|
                && d.input == body[(place.pos + 7) / 8..] ==>
              TrailerIs(body, place.out, d.input)
  {
    hide RunOf;
    CompleteWithin(d.track.fed);
  }

  lemma {:induction false} UpTo(start: seq<byte>, data: seq<byte>, i: nat, next: nat)
    requires i <= next <= |data|
    ensures (start + data[..i]) + data[i..next] == start + data[..next] && data[i..|data|] == data[i..]
  {}

  lemma {:induction false} AllOf(start: seq<byte>, data: seq<byte>, i: nat)
    requires i <= |data|
    ensures (start + data[..i]) + data[i..] == start + data
  {}

  // ----- The encoder -----

  /** `to_le_bytes` of a size. */
  function SizeBytes(n: nat): (b: seq<byte>)
    requires n <= 0xFFFF_FFFF
    ensures |b| == 4 && SizeOf(b) == n
  {
    [n % 256, n / 256 % 256, n / 256 / 256 % 256, n / 256 / 256 / 256]
  }

  /** Magic, method, no flags, no time, unknown system. */
  function EmptyHeader(): seq<byte> {
    [MAGIC1, MAGIC2, METHOD_DEFLATE, 0, 0, 0, 0, 0, 0, 255]
  }

  lemma {:induction false} HeaderTen()
    ensures EmptyHeader() == [0x1F, 0x8B, 8, 0, 0, 0, 0, 0, 0, 255]
  {}

  lemma {:induction false} MinimalHeader()
    ensures Scan(EmptyHeader()) == BodyAt(10)
  {
    var none := Fields(None, None, None, None);
    var rest: seq<byte> := [0, 0, 0, 0, 0, 255];
    OptionalFieldsSkipped(none, rest);
    assert EmptyHeader() == HeaderBytes(none, rest);
  }

  ghost function TrailerBytes(data: seq<byte>): (t: seq<byte>)
    ensures |t| == TRAILER_BYTES
  {
    Crc.LeBytes(Crc.Checksum(data)) + SizeBytes(Mod32(|data|))
  }

  lemma {:induction false} TrailerAccepted(data: seq<byte>)
    ensures TailVerdict(data, TrailerBytes(data)) == Accepted(data)
  {
    hide Crc.U32, Crc.Checksum, SizeOf, SizeBytes, Crc.LeBytes;
    var c := Crc.Checksum(data);
    Crc.LeRoundTrip(c);
    var t := TrailerBytes(data);
    assert t[0] == Crc.LeBytes(c)[0] && t[1] == Crc.LeBytes(c)[1] && t[2] == Crc.LeBytes(c)[2]
        && t[3] == Crc.LeBytes(c)[3];
    assert t[4..8] == SizeBytes(Mod32(|data|));
  }

  /** Header, a complete DEFLATE stream for `data`, and its trailer: one gzip member. */
  lemma {:induction false} MemberAccepted(body: seq<byte>, data: seq<byte>)
    requires Encode.Closed(BytesToBits(body), data)
    ensures Verdict(EmptyHeader() + body + TrailerBytes(data)) == Accepted(data)
  {
    hide Scan, TailVerdict, I.Run, BytesToBits, TrailerBytes, EmptyHeader;
    MinimalHeader();
    HeaderTen();
    var trailer := TrailerBytes(data);
    var d := EmptyHeader() + (body + trailer);
    assert d == EmptyHeader() + body + trailer;
    ScanStable(EmptyHeader(), body + trailer);
    assert d[10..] == body + trailer;
    var pad: nat :| pad < 8 && Ended(BytesToBits(body), data, pad);
    RunOfExtends(body, trailer);
    var pos := 8 * |body| - pad;
    TailExtends(body, trailer, pos);
    assert (pos + 7) / 8 == |body|;
    assert TailOf(body, pos) == [];
    assert [] + trailer == trailer;
    TrailerAccepted(data);
  }

  /** A header without optional fields, time, extra flags or known system; the DEFLATE stream; its trailer. */
  ghost predicate PartsOf(member: seq<byte>, body: seq<byte>, data: seq<byte>) {
    member == [0x1F, 0x8B, 8, 0, 0, 0, 0, 0, 0, 255] + body + TrailerBytes(data)
  }

  class Encoder {
    const deflate: Encode.Encoder
    const crc: Crc.Crc32
    var output: seq<byte>
    var drained: nat
    var headerEmitted: bool
    var finishing: bool
    var size: nat

    /** Output dropped after it was acknowledged, and everything fed. */
    ghost var sent: seq<byte>
    ghost var fed: seq<byte>

    /** Everything the sub-stream produced has been moved over. */
    ghost predicate Moved()
      reads this, deflate
    {
      MovedInto(sent + output)
    }

    ghost predicate MovedInto(emitted: seq<byte>)
      reads this`finishing, this`headerEmitted, this`fed, deflate
    {
      deflate.drained == |deflate.output|
      && (!finishing ==>
            emitted == (if headerEmitted then EmptyHeader() else []) + (deflate.sent + deflate.output))
      && (!headerEmitted ==> deflate.sent == [] && deflate.output == [] && fed == [])
    }

    ghost predicate Valid()
      reads this, deflate, deflate.matcher, crc
    {
      deflate.Valid() && crc.Valid() && Moved() && drained <= |output|
      && deflate.fed == fed && crc.seen == fed && size == Mod32(|fed|) && deflate.finishing == finishing
      && (finishing ==> Verdict(sent + output) == Accepted(fed) && Wrapped())
    }

    /** Ten fixed bytes, the sub-stream, and its trailer. */
    ghost predicate Wrapped()
      reads this`sent, this`output, this`fed, deflate
    {
      sent + output == EmptyHeader() + (deflate.sent + deflate.output) + TrailerBytes(fed)
    }

    constructor (options: EncodeOptions)
      requires options.Ok()
      ensures Valid() && fresh(deflate) && fresh(deflate.matcher) && fresh(crc) && fed == [] && !finishing
          && output == [] && sent == [] && drained == 0
      ensures deflate.options == options && deflate.State() == START
    {
      hide EmptyHeader, Encode.Encoder.Valid, Encode.Encoder.State, Crc.Crc32.Valid, Verdict, Moved, Mod32,
           BytesToBits, Encode.Encoder.Bits;
      deflate := new Encode.Encoder(options);
      crc := new Crc.Crc32();
      output, drained, headerEmitted, finishing, size := [], 0, false, false, 0;
      sent, fed := [], [];
      new;
      NothingMoved();
      NoSize();
    }

    lemma {:induction false} NothingMoved()
      requires deflate.sent == [] && deflate.output == [] && deflate.drained == 0 && sent == [] && output == []
          && !headerEmitted && fed == []
      ensures Moved()
    {
      hide EmptyHeader;
    }

    method EnsureHeader()
      requires Valid() && !finishing
      modifies this`output, this`headerEmitted
      ensures Valid() && headerEmitted && old(output) <= output
    {
      hide EmptyHeader, Encode.Encoder.Valid, Crc.Crc32.Valid, Verdict;
      if headerEmitted {
        return;
      }
      assert sent + output == [] && output == [];
      assert EmptyHeader() + [] == EmptyHeader();
      output := output + EmptyHeader();
      headerEmitted := true;
    }

    /** Move over what the sub-stream has produced. */
    method MoveOver()
      requires deflate.Valid() && deflate.drained <= |deflate.output|
          && sent + output == EmptyHeader() + deflate.Delivered()
      modifies this`output, deflate`output, deflate`drained, deflate`sent
      ensures deflate.Valid() && deflate.drained == |deflate.output|
      ensures deflate.sent + deflate.output == old(deflate.sent + deflate.output)
      ensures deflate.State() == old(deflate.State()) && deflate.Bits() == old(deflate.Bits())
      ensures sent + output == EmptyHeader() + (deflate.sent + deflate.output) && old(output) <= output
    {
      hide Encode.Encoder.Valid, Encode.Encoder.Delivered, Encode.Encoder.State, EmptyHeader, BytesToBits,
           Encode.Encoder.Bits;
      AllBytes(deflate);
      SameBits(deflate);
      var produced := deflate.Output();
      MoveBytes(sent, output, EmptyHeader(), deflate.Delivered(), produced);
      output := output + produced;
      deflate.Advance(|produced|);
      DrainedWithin(deflate);
      SameBits(deflate);
    }

    method Feed(data: seq<byte>) returns (r: Result<()>)
      requires Valid()
      modifies this, deflate, deflate.matcher, crc
      ensures Valid() && deflate.matcher == old(deflate.matcher) && finishing == old(finishing)
          && sent == old(sent) && drained == old(drained)
      ensures r == if finishing then Err(FedAfterEnd) else Ok(())
      ensures fed == if r.Ok? then old(fed) + data else old(fed)
      ensures old(output) <= output
      ensures r.Ok? && Encode.Greedy(deflate.options) ==>
                deflate.State() == Sessions.AfterFeed(deflate.options, old(deflate.State()), data)
    {
      hide EmptyHeader, Encode.Encoder.Valid, Encode.Encoder.Delivered, Encode.Encoder.State, Crc.Crc32.Valid,
           Verdict, Sessions.AfterFeed, Encode.Greedy, Wrapped, Mod32;
      if finishing {
        return Err(FedAfterEnd);
      }
      EnsureHeader();
      crc.Update(data);
      SizeAdds(|fed|, |data|);
      size := Mod32(size + Mod32(|data|));
      ghost var before := deflate.output;
      var given := deflate.Feed(data);
      fed := fed + data;
      StillDelivered(deflate, before);
      if |deflate.Output()| > 0 {
        MoveOver();
      }
      return Ok(());
    }

    /** End the sub-stream and move over its last bytes. */
    method FinishSub()
      requires Valid() && headerEmitted && !finishing
      modifies this`output, deflate, deflate.matcher
      ensures deflate.Valid() && deflate.finishing && deflate.fed == fed && deflate.matcher == old(deflate.matcher)
      ensures deflate.drained == |deflate.output|
      ensures sent + output == EmptyHeader() + (deflate.sent + deflate.output) && old(output) <= output
      ensures Encode.Closed(BytesToBits(deflate.sent + deflate.output), fed)
      ensures Sessions.BlockFor(deflate.options, old(deflate.State()), deflate.Bits(), true)
    {
      hide EmptyHeader, Encode.Encoder.Valid, Encode.Encoder.Delivered, Encode.Encoder.State, Crc.Crc32.Valid,
           Verdict, Encode.Closed, BytesToBits, Sessions.BlockFor, Sessions.AfterFinish, Encode.Encoder.Bits, Wrapped,
           Mod32;
      ghost var before := deflate.output;
      deflate.Finish();
      StillDelivered(deflate, before);
      MoveOver();
    }

    method AppendTrailer()
      requires crc.Valid() && crc.seen == fed && size == Mod32(|fed|)
      modifies this`output
      ensures output == old(output) + TrailerBytes(fed)
    {
      hide Crc.Crc32.Valid, Crc.LeBytes, SizeBytes, SizeOf;
      var value := crc.Value();
      output := output + Crc.LeBytes(value);
      output := output + SizeBytes(size);
    }

    /** Emit the final block and the trailer: what has been emitted is then one gzip member that decodes to
        the bytes fed. */
    method Finish()
      requires Valid()
      modifies this, deflate, deflate.matcher, crc
      ensures Valid() && deflate.matcher == old(deflate.matcher) && finishing && fed == old(fed)
          && sent == old(sent) && drained == old(drained)
      ensures Verdict(sent + output) == Accepted(fed) && old(output) <= output
      ensures old(finishing) ==> output == old(output)
      ensures PartsOf(sent + output, deflate.sent + deflate.output, fed)
      ensures !old(finishing) ==> Sessions.BlockFor(deflate.options, old(deflate.State()), deflate.Bits(), true)
      ensures deflate.Bits() == BytesToBits(deflate.sent + deflate.output)
    {
      hide EmptyHeader, TrailerBytes, Encode.Encoder.Valid, Crc.Crc32.Valid, Verdict, Encode.Closed, BytesToBits,
           Sessions.BlockFor, Encode.Encoder.Bits, Encode.Encoder.State, Mod32, Valid, PartsOf, Wrapped;
      Kept();
      if finishing {
        WholeBytes(deflate);
        InParts();
        return;
      }
      EnsureHeader();
      Kept();
      FinishSub();
      WholeBytes(deflate);
      ghost var body, moved := deflate.sent + deflate.output, output;
      MemberAccepted(body, fed);
      AppendTrailer();
      WrapUp(sent, moved, output, EmptyHeader(), body, TrailerBytes(fed));
      finishing := true;
      WrappedUp(body);
      Whole();
      InParts();
    }

    lemma {:induction false} WrappedUp(body: seq<byte>)
      requires body == deflate.sent + deflate.output && sent + output == EmptyHeader() + body + TrailerBytes(fed)
      ensures Wrapped()
    {}

    lemma {:induction false} InParts()
      requires Wrapped()
      ensures PartsOf(sent + output, deflate.sent + deflate.output, fed)
    {
      hide EmptyHeader, TrailerBytes;
      HeaderTen();
    }

    lemma {:induction false} Kept()
      requires Valid()
      ensures crc.Valid() && crc.seen == fed && size == Mod32(|fed|) && drained <= |output|
      ensures finishing ==>
                deflate.Valid() && deflate.finishing && Wrapped() && Verdict(sent + output) == Accepted(fed)
    {
      hide EmptyHeader, TrailerBytes, Encode.Encoder.Valid, Crc.Crc32.Valid, Verdict, Wrapped, Moved, Mod32;
    }

    lemma {:induction false} Whole()
      requires deflate.Valid() && crc.Valid() && crc.seen == deflate.fed == fed && size == Mod32(|fed|)
      requires drained <= |output| && deflate.drained == |deflate.output|
      requires finishing && headerEmitted && deflate.finishing && Wrapped() && Verdict(sent + output) == Accepted(fed)
      ensures Valid()
    {
      hide EmptyHeader, TrailerBytes, Encode.Encoder.Valid, Crc.Crc32.Valid, Verdict, Wrapped, Mod32;
    }

    function Output(): seq<byte>
      requires drained <= |output|
      reads this
    {
      output[drained..]
    }

    method Advance(n: nat)
      requires Valid() && n <= |Output()|
      modifies this`output, this`drained, this`sent
      ensures Valid() && old(Output()) == old(Output())[..n] + Output() && sent + output == old(sent + output)
      ensures drained < 0x10_0000
    {
      hide EmptyHeader, Encode.Encoder.Valid, Crc.Crc32.Valid, Verdict, MovedInto, Mod32;
      Encode.TakeFront(sent, output, drained, n);
      drained := drained + n;
      if drained >= Encode.COMPACT_THRESHOLD {
        Encode.DropFront(sent, output, drained);
        sent := sent + output[..drained];
        output := output[drained..];
        drained := 0;
      }
    }
  }

  lemma {:induction false} NoSize()
    ensures Mod32(0) == 0
  {}

  /** What was handed over and what was not is everything. */
  lemma {:induction false} AllBytes(e: Encode.Encoder)
    requires e.drained <= |e.output|
    ensures e.Delivered() + e.Output() == e.sent + e.output
  {
    hide Encode.Encoder.Valid;
  }

  /** Bytes emitted later do not change what was handed over. */
  lemma {:induction false} StillDelivered(e: Encode.Encoder, before: seq<byte>)
    requires e.Valid() && before <= e.output && e.drained == |before|
    ensures e.drained <= |e.output| && e.Delivered() == e.sent + before
    ensures |e.Output()| == |e.output| - |before|
    ensures |e.output| == |before| ==> e.output == before
  {
    hide BytesToBits, Keeps, Encode.Closed;
  }

  lemma {:induction false} SameBits(e: Encode.Encoder)
    ensures e.State().bits == e.Bits()
  {}

  lemma {:induction false} WholeBytes(e: Encode.Encoder)
    requires e.Valid() && e.finishing
    ensures e.Bits() == BytesToBits(e.sent + e.output)
  {
    Encode.NoBits(e.bitBuffer);
    Deflate.AppendNothing(BytesToBits(e.sent + e.output));
  }

  lemma {:induction false} DrainedWithin(e: Encode.Encoder)
    requires e.Valid()
    ensures e.drained <= |e.output|
  {}

  lemma {:induction false} TakeFront(a: seq<byte>, b: seq<byte>, n: nat)
    requires n <= |b|
    ensures (a + b[..n]) + b[n..] == a + b && (b == [] ==> b[n..] == [] && b[..n] == [])
    ensures b == b[..n] + b[n..]
  {}

  lemma {:induction false} JoinAssoc(a: seq<byte>, b: seq<byte>, c: seq<byte>)
    ensures a + (b + c) == a + b + c
  {}

  lemma {:induction false} WrapUp(sent: seq<byte>, moved: seq<byte>, output: seq<byte>, header: seq<byte>,
      body: seq<byte>, trailer: seq<byte>)
    requires sent + moved == header + body && output == moved + trailer
    ensures sent + output == header + body + trailer && moved <= output
  {
    MoveBytes(sent, moved, header, body, trailer);
    JoinAssoc(header, body, trailer);
  }

  lemma {:induction false} MoveBytes(sent: seq<byte>, output: seq<byte>, header: seq<byte>, delivered: seq<byte>,
      more: seq<byte>)
    requires sent + output == header + delivered
    ensures sent + (output + more) == header + (delivered + more)
  {
    assert sent + (output + more) == (sent + output) + more;
    assert header + (delivered + more) == (header + delivered) + more;
  }
  // ----- One shot -----

  /** One member whose stream begins with its last block, a dynamic one for all the data. */
  ghost predicate Packed(out: seq<byte>, data: seq<byte>) {
    exists body :: PartsOf(out, body, data) && Deflate.OneDynamicBlock(BytesToBits(body), data)
  }

  method Compress(data: seq<byte>) returns (out: seq<byte>)
    ensures Verdict(out) == Accepted(data) && Packed(out, data)
  {
    hide EmptyHeader, Encode.Encoder.Valid, Crc.Crc32.Valid, Verdict, Sessions.BlockFor, Encode.Encoder.Bits,
         Encode.Encoder.State, Mod32, TrailerBytes, Encoder.Moved, Sessions.AfterFeed, Encoder.Wrapped,
         BytesToBits, Deflate.OneDynamicBlock, PartsOf;
    var e := new Encoder(Deflate.OneShot());
    Deflate.FeedsNothing(data);
    var fed := e.Feed(data);
    assert [] + data == data;
    e.Finish();
    ghost var body := e.deflate.sent + e.deflate.output;
    Deflate.DynamicShown(BytesToBits(body), data);
    out := e.Output();
    assert out == e.sent + e.output;
    e.Advance(|out|);
  }

  /** Accept exactly one member: the output if the verdict is acceptance, its error if it is rejection, and a
      complaint about a missing trailer if more bytes would be needed. */
  method Decompress(data: seq<byte>) returns (r: Result<seq<byte>>)
    ensures r == match Verdict(data)
                 case Accepted(out) => Ok(out)
                 case Rejected(e) => Err(e)
                 case Waiting => Err(Truncated)
  {
    hide Verdict, Decode.Decoder.Valid, Crc.Crc32.Valid, Decoder.OnCourse, Decoder.Unread;
    var d := new Decoder();
    assert [] + data == data;
    var fed := d.Feed(data);
    if fed.Err? {
      return Err(fed.error);
    }
    if !d.finished {
      return Err(Truncated);
    }
    d.AllUnread();
    var out := d.Output();
    assert [] + out == out;
    d.Advance(|out|);
    return Ok(out);
  }

  /** Whatever is compressed is recovered. */
  method RoundTrip(data: seq<byte>) returns (r: Result<seq<byte>>)
    ensures r == Ok(data)
  {
    hide Verdict;
    var packed := Compress(data);
    r := Decompress(packed);
  }
}
