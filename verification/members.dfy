/** What a gzip member is (section 2.3 of RFC 1952), said of whole byte strings without the decoder's states,
    and the proof that exactly these are accepted. */
module Members {
  import opened Bits
  import opened Errors
  import opened Streaming
  import Crc
  import Decode
  import I = Inflate
  import G = Gzip

  /** The parts of a header: ten fixed bytes, then whatever fields the flags announce. */
  datatype Header = Header(fixed: seq<byte>, extra: seq<byte>, name: seq<byte>, comment: seq<byte>, hcrc: seq<byte>) {
    ghost function Bytes(): seq<byte> { fixed + (extra + (name + (comment + hcrc))) }
  }

  ghost predicate Flag(h: Header, weight: nat)
    requires |h.fixed| == 10 && weight > 0
  {
    h.fixed[3] as int / weight % 2 == 1
  }

  /** A two-byte length, then that many bytes. */
  ghost predicate Counted(field: seq<byte>) {
    |field| >= 2 && |field| == 2 + field[0] as int + 256 * field[1] as int
  }

  ghost predicate Terminated(field: seq<byte>) {
    field != [] && field[|field| - 1] == 0 && G.NoZero(field[..|field| - 1])
  }

  ghost predicate Begun(h: Header) {
    |h.fixed| == 10 && h.fixed[0] == 0x1F && h.fixed[1] == 0x8B && h.fixed[2] == 8
  }

  ghost predicate ExtraOk(h: Header) {
    Begun(h) && if Flag(h, 4) then Counted(h.extra) else h.extra == []
  }

  ghost predicate NameOk(h: Header) {
    ExtraOk(h) && if Flag(h, 8) then Terminated(h.name) else h.name == []
  }

  ghost predicate CommentOk(h: Header) {
    NameOk(h) && if Flag(h, 16) then Terminated(h.comment) else h.comment == []
  }

  /** Reserved flag bits, time, extra flags and system may be anything. */
  ghost predicate HeaderOk(h: Header) {
    CommentOk(h) && |h.hcrc| == if Flag(h, 2) then 2 else 0
  }

  /** A whole number of bytes whose last one holds the end of a complete DEFLATE stream for `out`. */
  ghost predicate BodyFor(body: seq<byte>, out: seq<byte>) {
    RunOf(body).Complete? && RunOf(body).config.out == out && (RunOf(body).config.pos + 7) / 8 == |body|
  }

  /** CRC-32 and size modulo 2^32, least significant byte first. */
  ghost predicate TrailerFor(trailer: seq<byte>, out: seq<byte>) {
    |trailer| == 8 && trailer[..4] == Crc.LeBytes(Crc.Checksum(out)) && Little(trailer[4..]) == |out| % 0x1_0000_0000
  }

  ghost function Little(b: seq<byte>): nat {
    if b == [] then 0 else b[0] as int + 256 * Little(b[1..])
  }

  ghost predicate IsMember(d: seq<byte>, out: seq<byte>, h: Header, body: seq<byte>, trailer: seq<byte>) {
    HeaderOk(h) && BodyFor(body, out) && TrailerFor(trailer, out) && d == h.Bytes() + (body + trailer)
  }

  // ----- Headers -----

  /** What the bytes so far are when the scan stands at `head`. */
  ghost predicate Along(h: Header, head: G.Head) {
    match head
    case FixedPart(got) => h == Header(got, [], [], [], []) && |got| < 10
    case ExtraSize(flags, got) =>
      Begun(h) && flags == h.fixed[3] && Flag(h, 4) && h == Header(h.fixed, got, [], [], []) && |got| < 2
    case ExtraSkip(flags, left) =>
      Begun(h) && flags == h.fixed[3] && Flag(h, 4) && h == Header(h.fixed, h.extra, [], [], []) && left > 0
      && |h.extra| >= 2 && |h.extra| + left == 2 + h.extra[0] as int + 256 * h.extra[1] as int
    case Name(flags) =>
      ExtraOk(h) && flags == h.fixed[3] && Flag(h, 8) && h == Header(h.fixed, h.extra, h.name, [], [])
      && G.NoZero(h.name)
    case Comment(flags) =>
      NameOk(h) && flags == h.fixed[3] && Flag(h, 16) && h.hcrc == [] && G.NoZero(h.comment)
    case Hcrc(skipped) => CommentOk(h) && Flag(h, 2) && |h.hcrc| == skipped < 2
    case HeadDone => HeaderOk(h)
    case HeadBad(e) =>
      h == Header(h.fixed, [], [], [], []) && |h.fixed| == 10
      && if h.fixed[0] != 0x1F || h.fixed[1] != 0x8B then e == BadMagic
         else h.fixed[2] != 8 && e == UnsupportedMethod
  }

  /** One more header byte goes where the scan stands. */
  ghost function With(h: Header, head: G.Head, b: byte): Header {
    match head
    case FixedPart(_) => h.(fixed := h.fixed + [b])
    case ExtraSize(_, _) => h.(extra := h.extra + [b])
    case ExtraSkip(_, _) => h.(extra := h.extra + [b])
    case Name(_) => h.(name := h.name + [b])
    case Comment(_) => h.(comment := h.comment + [b])
    case _ => h.(hcrc := h.hcrc + [b])
  }

  lemma {:induction false} WithBytes(h: Header, head: G.Head, b: byte)
    requires Along(h, head) && !head.HeadDone? && !head.HeadBad?
    ensures With(h, head, b).Bytes() == h.Bytes() + [b]
  {
    hide Begun, ExtraOk, NameOk, CommentOk, Flag, G.NoZero;
    var x := [b];
    NoFields([]);
    match head {
      case FixedPart(_) => LastField(h.fixed, x);
      case ExtraSize(_, _) => LastField(h.extra, x); Join(h.fixed, h.extra, x);
      case ExtraSkip(_, _) => LastField(h.extra, x); Join(h.fixed, h.extra, x);
      case Name(_) =>
        LastField(h.name, x); Join(h.extra, h.name, x); Join(h.fixed, h.extra + h.name, x);
      case Comment(_) =>
        LastField(h.comment, x); LastFour(h.fixed, h.extra, h.name, h.comment, x);
      case _ =>
        Join(h.comment, h.hcrc, x); LastFour(h.fixed, h.extra, h.name, h.comment + h.hcrc, x);
    }
  }

  lemma {:induction false} NoFields(none: seq<byte>)
    requires none == []
    ensures none + (none + (none + none)) == none && none + (none + none) == none && none + none == none
  {}

  lemma {:induction false} LastField(field: seq<byte>, x: seq<byte>)
    ensures (field + x) + [] == field + x && field + [] == field
  {}

  lemma {:induction false} Join(a: seq<byte>, b: seq<byte>, c: seq<byte>)
    ensures a + (b + c) == (a + b) + c
  {}

  lemma {:induction false} LastFour(a: seq<byte>, b: seq<byte>, c: seq<byte>, d: seq<byte>, x: seq<byte>)
    ensures a + (b + (c + (d + x))) == (a + (b + (c + d))) + x
  {
    Join(c, d, x);
    Join(b, c + d, x);
    Join(a, b + (c + d), x);
  }

  lemma {:induction false} PastFixed(h: Header)
    requires |h.fixed| == 10 && h == Header(h.fixed, [], [], [], [])
    ensures Along(h, G.Parsed(h.fixed))
  {
    if Begun(h) && !Flag(h, 4) {
      PastExtra(h);
    }
  }

  lemma {:induction false} PastExtra(h: Header)
    requires ExtraOk(h) && h == Header(h.fixed, h.extra, [], [], [])
    ensures Along(h, G.PastExtra(h.fixed[3]))
  {
    if !Flag(h, 8) { PastName(h); }
  }

  lemma {:induction false} PastName(h: Header)
    requires NameOk(h) && h.comment == [] && h.hcrc == []
    ensures Along(h, G.PastName(h.fixed[3]))
  {
    hide ExtraOk;
    NameBegun(h);
    if !Flag(h, 16) { PastComment(h); }
  }

  lemma {:induction false} NameBegun(h: Header)
    requires NameOk(h)
    ensures |h.fixed| == 10
  {}

  lemma {:induction false} PastComment(h: Header)
    requires CommentOk(h) && h.hcrc == []
    ensures Along(h, G.PastComment(h.fixed[3]))
  {}

  lemma {:induction false} StepAlong(h: Header, head: G.Head, b: byte)
    requires Along(h, head) && !head.HeadDone? && !head.HeadBad?
    ensures Along(With(h, head, b), G.HeadStep(head, b))
  {
    hide Along, With, G.HeadStep;
    match head {
      case FixedPart(_) => StepFixed(h, head, b);
      case ExtraSize(_, _) => StepSize(h, head, b);
      case ExtraSkip(_, _) => StepSkip(h, head, b);
      case Name(_) => StepName(h, head, b);
      case Comment(_) => StepComment(h, head, b);
      case Hcrc(_) => StepHcrc(h, head, b);
    }
  }

  lemma {:induction false} StepFixed(h: Header, head: G.Head, b: byte)
    requires Along(h, head) && head.FixedPart?
    ensures Along(With(h, head, b), G.HeadStep(head, b))
  {
    hide Begun, ExtraOk, NameOk, CommentOk, HeaderOk, Flag, G.Parsed;
    if |head.got| == 9 { PastFixed(With(h, head, b)); }
  }

  lemma {:induction false} StepSize(h: Header, head: G.Head, b: byte)
    requires Along(h, head) && head.ExtraSize?
    ensures Along(With(h, head, b), G.HeadStep(head, b))
  {
    hide ExtraOk, NameOk, CommentOk, HeaderOk, G.Skip, G.NoZero, Counted, Terminated;
    assert |head.got| == 1 ==> head.got == [head.got[0]];
    if |head.got| == 1 { SizeKnown(h, head.got[0], b); }
  }

  lemma {:induction false} StepSkip(h: Header, head: G.Head, b: byte)
    requires Along(h, head) && head.ExtraSkip?
    ensures Along(With(h, head, b), G.HeadStep(head, b))
  {
    hide NameOk, CommentOk, HeaderOk, G.PastExtra, G.NoZero, Terminated;
    if head.left <= 1 { PastExtra(With(h, head, b)); }
  }

  lemma {:induction false} StepName(h: Header, head: G.Head, b: byte)
    requires Along(h, head) && head.Name?
    ensures Along(With(h, head, b), G.HeadStep(head, b))
  {
    hide CommentOk, HeaderOk, G.PastName, Counted;
    var next := With(h, head, b);
    if b == 0 {
      assert next.name[..|next.name| - 1] == h.name;
      PastName(next);
    }
  }

  lemma {:induction false} StepComment(h: Header, head: G.Head, b: byte)
    requires Along(h, head) && head.Comment?
    ensures Along(With(h, head, b), G.HeadStep(head, b))
  {
    hide HeaderOk, G.PastComment, Counted;
    var next := With(h, head, b);
    if b == 0 {
      assert next.comment[..|next.comment| - 1] == h.comment;
      PastComment(next);
    }
  }

  lemma {:induction false} StepHcrc(h: Header, head: G.Head, b: byte)
    requires Along(h, head) && head.Hcrc?
    ensures Along(With(h, head, b), G.HeadStep(head, b))
  {
    hide Counted, Terminated, G.NoZero;
  }

  lemma {:induction false} SizeKnown(h: Header, lo: byte, hi: byte)
    requires Begun(h) && Flag(h, 4) && h == Header(h.fixed, [lo], [], [], [])
    ensures Along(h.(extra := [lo] + [hi]), G.Skip(h.fixed[3], lo as int + 256 * hi as int))
  {
    var next := h.(extra := [lo] + [hi]);
    if lo as int + 256 * hi as int == 0 { PastExtra(next); }
  }

  /** The scan of any bytes takes them apart. */
  lemma {:induction false} ScanParts(d: seq<byte>) returns (h: Header)
    ensures match G.Scan(d)
            case More(head) => Along(h, head) && h.Bytes() == d
            case BodyAt(start) => HeaderOk(h) && start <= |d| && h.Bytes() == d[..start]
            case Bad(e) => Along(h, G.HeadBad(e)) && h.fixed <= d
  {
    hide Along, With, G.HeadStep, HeaderOk;
    if d == [] {
      h := Header([], [], [], [], []);
      NothingYet();
    } else {
      var front, b := d[..|d| - 1], d[|d| - 1];
      assert d == front + [b];
      G.ScanNext(front, b);
      h := ScanParts(front);
      if G.Scan(front).More? {
        var head := G.Scan(front).head;
        ScanHasMore(front);
        StepAlong(h, head, b);
        WithBytes(h, head, b);
        h := With(h, head, b);
        assert d[..|d|] == d;
        SettledAlong(h, G.HeadStep(head, b));
      } else if G.Scan(front).BodyAt? {
        assert front[..G.Scan(front).start] == d[..G.Scan(front).start];
      }
    }
  }

  lemma {:induction false} NothingYet()
    ensures G.Scan([]) == G.More(G.FixedPart([])) && Along(Header([], [], [], [], []), G.FixedPart([]))
    ensures Header([], [], [], [], []).Bytes() == []
  {}

  lemma {:induction false} ScanHasMore(d: seq<byte>)
    requires G.Scan(d).More?
    ensures !G.Scan(d).head.HeadDone? && !G.Scan(d).head.HeadBad?
  {}

  lemma {:induction false} SettledAlong(h: Header, head: G.Head)
    requires Along(h, head)
    ensures head.HeadDone? ==> HeaderOk(h)
    ensures head.HeadBad? ==> h.Bytes() == h.fixed
  {}

  // ----- Every header is scanned as one -----

  lemma {:induction false} FixedScanned(h: Header)
    requires Begun(h)
    ensures G.Scan(h.fixed) == G.Settled(G.Parsed(h.fixed), 10)
    ensures G.Parsed(h.fixed) == if Flag(h, 4) then G.ExtraSize(h.fixed[3], []) else G.PastExtra(h.fixed[3])
  {
    hide G.Scan, G.PastExtra;
    G.NothingScanned();
    G.ScanFixed([], [], h.fixed);
    assert [] + h.fixed == h.fixed;
  }

  lemma {:induction false} ExtraScanned(h: Header, d: seq<byte>)
    requires ExtraOk(h)
    requires G.Scan(d) == G.Settled(if Flag(h, 4) then G.ExtraSize(h.fixed[3], []) else G.PastExtra(h.fixed[3]), |d|)
    ensures G.Scan(d + h.extra) == G.Settled(G.PastExtra(h.fixed[3]), |d + h.extra|)
  {
    hide G.Scan, G.PastExtra;
    if Flag(h, 4) {
      var size, rest := h.extra[..2], h.extra[2..];
      G.ScanSize(d, h.fixed[3], [], size);
      assert [] + size == size;
      assert Decode.U16(size[0], size[1]) == |rest|;
      assert h.extra == size + rest && (d + size) + rest == d + h.extra;
      if rest == [] {
        assert (d + size) + rest == d + size;
      } else {
        G.ScanSkip(d + size, h.fixed[3], |rest|, rest);
      }
    } else {
      assert d + [] == d;
    }
  }

  lemma {:induction false} TextScanned(d: seq<byte>, head: G.Head, field: seq<byte>)
    requires (head.Name? || head.Comment?) && G.Scan(d) == G.More(head) && Terminated(field)
    ensures G.Scan(d + field) ==
            G.Settled(if head.Name? then G.PastName(head.flags) else G.PastComment(head.flags), |d + field|)
  {
    hide G.Scan, G.PastName, G.PastComment;
    var text := field[..|field| - 1];
    G.ScanText(d, head, text);
    assert (d + text) + [0] == d + field;
  }

  lemma {:induction false} NameScanned(h: Header, d: seq<byte>)
    requires NameOk(h) && G.Scan(d) == G.Settled(G.PastExtra(h.fixed[3]), |d|)
    ensures G.Scan(d + h.name) == G.Settled(G.PastName(h.fixed[3]), |d + h.name|)
  {
    hide G.Scan, G.PastName, Counted, Terminated;
    if Flag(h, 8) {
      TextScanned(d, G.Name(h.fixed[3]), h.name);
    } else {
      assert d + [] == d;
    }
  }

  lemma {:induction false} CommentScanned(h: Header, d: seq<byte>)
    requires CommentOk(h) && G.Scan(d) == G.Settled(G.PastName(h.fixed[3]), |d|)
    ensures G.Scan(d + h.comment) == G.Settled(G.PastComment(h.fixed[3]), |d + h.comment|)
  {
    hide G.Scan, G.PastComment, Counted, Terminated;
    if Flag(h, 16) {
      TextScanned(d, G.Comment(h.fixed[3]), h.comment);
    } else {
      assert d + [] == d;
    }
  }

  /** Any combination of fields, whatever the ignored bytes and flag bits: the body starts right behind. */
  lemma {:induction false} HeaderScanned(h: Header)
    requires HeaderOk(h)
    ensures G.Scan(h.Bytes()) == G.BodyAt(|h.Bytes()|)
  {
    hide G.Scan, G.PastExtra, G.PastName, Counted, Terminated;
    FixedScanned(h);
    ExtraScanned(h, h.fixed);
    NameScanned(h, h.fixed + h.extra);
    CommentScanned(h, h.fixed + h.extra + h.name);
    var d := h.fixed + h.extra + h.name + h.comment;
    if Flag(h, 2) {
      G.ScanHcrc(d, 0, h.hcrc);
    } else {
      assert d + [] == d;
    }
    assert d + h.hcrc == h.Bytes();
  }

  // ----- Exactly the members are accepted -----

  lemma {:induction false} LittleFour(b: seq<byte>)
    requires |b| == 4
    ensures Little(b) == G.SizeOf(b)
  {
    var c := b[1..];
    var d := c[1..];
    var e := d[1..];
    assert c[0] == b[1] && d[0] == b[2] && e[0] == b[3] && e[1..] == [];
    assert Little(e) == b[3] as int && Little(d) == b[2] as int + 256 * Little(e);
    assert Little(c) == b[1] as int + 256 * Little(d);
  }

  lemma {:induction false} TrailerIff(trailer: seq<byte>, out: seq<byte>)
    ensures G.TailVerdict(out, trailer) == G.Accepted(out) <==> TrailerFor(trailer, out)
    ensures |trailer| == 8 && !TrailerFor(trailer, out) ==> G.TailVerdict(out, trailer).Rejected?
  {
    hide Crc.U32, Crc.LeBytes, Crc.Checksum, G.SizeOf, Little;
    if |trailer| == 8 {
      Crc.BytesRoundTrip(trailer[0], trailer[1], trailer[2], trailer[3]);
      Crc.LeRoundTrip(Crc.Checksum(out));
      assert trailer[..4] == [trailer[0], trailer[1], trailer[2], trailer[3]];
      LittleFour(trailer[4..]);
      assert trailer[4..] == trailer[4..8];
    }
  }

  /** A body is complete in itself: what follows it is not looked at. */
  lemma {:induction false} BodyCut(rest: seq<byte>)
    requires RunOf(rest).Complete?
    ensures var n := (RunOf(rest).config.pos + 7) / 8;
            n <= |rest| && RunOf(rest[..n]) == RunOf(rest) && G.TailOf(rest, RunOf(rest).config.pos) == rest[n..]
  {
    hide I.Run, BytesToBits;
    G.CompleteWithin(rest);
    var n := (RunOf(rest).config.pos + 7) / 8;
    assert rest == rest[..n] + rest[n..];
    BytesToBitsConcat(rest[..n], rest[n..]);
    I.RunWithin(BytesToBits(rest[..n]), BytesToBits(rest), I.Init);
  }

  /** A member with its parts in place. */
  ghost predicate Member(d: seq<byte>, out: seq<byte>) {
    exists h, body, trailer :: IsMember(d, out, h, body, trailer)
  }

  lemma {:induction false} MemberIsAccepted(d: seq<byte>, out: seq<byte>, h: Header, body: seq<byte>, tail: seq<byte>)
    requires HeaderOk(h) && BodyFor(body, out) && d == h.Bytes() + (body + tail)
    ensures G.Verdict(d) == G.TailVerdict(out, tail)
  {
    hide G.Scan, G.TailVerdict, RunOf, HeaderOk;
    HeaderScanned(h);
    var start := |h.Bytes()|;
    G.ScanStable(h.Bytes(), body + tail);
    assert d[start..] == body + tail;
    G.RunOfExtends(body, tail);
    G.CompleteWithin(body);
    G.TailExtends(body, tail, RunOf(body).config.pos);
    assert G.TailOf(body, RunOf(body).config.pos) == [];
    assert [] + tail == tail;
  }

  /** Bytes whose verdict is acceptance scan as a header, and what follows is accepted as body and trailer. */
  lemma {:induction false} AcceptedScan(d: seq<byte>, out: seq<byte>) returns (h: Header, rest: seq<byte>)
    requires G.Verdict(d) == G.Accepted(out)
    ensures HeaderOk(h) && d == h.Bytes() + rest && G.BodyVerdict(rest) == G.Accepted(out)
  {
    hide G.Scan, RunOf, HeaderOk, Header.Bytes, G.BodyVerdict;
    h := ScanParts(d);
    var start := G.Scan(d).start;
    rest := d[start..];
    assert d == d[..start] + d[start..];
  }

  lemma {:induction false} AcceptedBody(rest: seq<byte>, out: seq<byte>) returns (body: seq<byte>, trailer: seq<byte>)
    requires G.BodyVerdict(rest) == G.Accepted(out)
    ensures BodyFor(body, out) && G.TailVerdict(out, trailer) == G.Accepted(out) && rest == body + trailer
  {
    hide RunOf, G.TailVerdict, G.TailOf;
    AcceptedOut(rest);
    BodyCut(rest);
    var n := (RunOf(rest).config.pos + 7) / 8;
    body, trailer := rest[..n], rest[n..];
    assert rest == rest[..n] + rest[n..];
  }

  lemma {:induction false} AcceptedOut(rest: seq<byte>)
    requires G.BodyVerdict(rest).Accepted?
    ensures RunOf(rest).Complete? && RunOf(rest).config.pos <= 8 * |rest|
    ensures G.BodyVerdict(rest).out == RunOf(rest).config.out
    ensures G.BodyVerdict(rest) == G.TailVerdict(RunOf(rest).config.out, G.TailOf(rest, RunOf(rest).config.pos))
  {
    hide RunOf, G.TailOf, Crc.U32, Crc.Checksum, G.SizeOf;
    G.CompleteWithin(rest);
  }

  lemma {:induction false} AcceptedIsMember(d: seq<byte>, out: seq<byte>)
    requires G.Verdict(d) == G.Accepted(out)
    ensures Member(d, out)
  {
    hide G.Verdict, HeaderOk, BodyFor, TrailerFor, Header.Bytes, G.BodyVerdict, G.TailVerdict;
    var h, rest := AcceptedScan(d, out);
    var body, trailer := AcceptedBody(rest, out);
    TrailerIff(trailer, out);
    assert IsMember(d, out, h, body, trailer);
  }

  /** The decoder's verdict is acceptance exactly on the members: a header with its announced fields, one
      complete DEFLATE stream, the CRC-32 and the size of its output, and nothing else. */
  lemma {:induction false} AcceptedIff(d: seq<byte>, out: seq<byte>)
    ensures G.Verdict(d) == G.Accepted(out) <==> Member(d, out)
  {
    hide G.Verdict, IsMember;
    if G.Verdict(d) == G.Accepted(out) {
      AcceptedIsMember(d, out);
    }
    if Member(d, out) {
      var h, body, trailer :| IsMember(d, out, h, body, trailer);
      MemberParts(d, out, h, body, trailer);
      MemberIsAccepted(d, out, h, body, trailer);
      TrailerIff(trailer, out);
    }
  }

  lemma {:induction false} MemberParts(d: seq<byte>, out: seq<byte>, h: Header, body: seq<byte>, trailer: seq<byte>)
    requires IsMember(d, out, h, body, trailer)
    ensures HeaderOk(h) && BodyFor(body, out) && TrailerFor(trailer, out) && d == h.Bytes() + (body + trailer)
  {}

  /** A header and a complete body followed by any other eight bytes are rejected. */
  lemma {:induction false} OtherTrailerRejected(h: Header, body: seq<byte>, out: seq<byte>, trailer: seq<byte>)
    requires HeaderOk(h) && BodyFor(body, out) && |trailer| == 8 && !TrailerFor(trailer, out)
    ensures G.Verdict(h.Bytes() + (body + trailer)) ==
            G.Rejected(if trailer[..4] != Crc.LeBytes(Crc.Checksum(out)) then ChecksumMismatch else SizeMismatch)
  {
    hide G.Scan, RunOf, HeaderOk, BodyFor, Crc.U32, Crc.LeBytes, Crc.Checksum, Little, G.SizeOf, G.Verdict;
    MemberIsAccepted(h.Bytes() + (body + trailer), out, h, body, trailer);
    Crc.BytesRoundTrip(trailer[0], trailer[1], trailer[2], trailer[3]);
    Crc.LeRoundTrip(Crc.Checksum(out));
    assert trailer[..4] == [trailer[0], trailer[1], trailer[2], trailer[3]];
    LittleFour(trailer[4..]);
    assert trailer[4..] == trailer[4..8];
  }

  /** Ten bytes that do not begin like a member are rejected, whatever follows. */
  lemma {:induction false} OtherMagicRejected(d: seq<byte>)
    requires |d| >= 10 && !(d[0] == 0x1F && d[1] == 0x8B && d[2] == 8)
    ensures G.Verdict(d) == G.Rejected(if d[0] != 0x1F || d[1] != 0x8B then BadMagic else UnsupportedMethod)
  {
    hide G.Scan, HeaderOk, G.Verdict;
    var first, rest := d[..10], d[10..];
    OtherBeginning(first);
    assert d == first + rest;
    G.ScanStable(first, rest);
    G.HeaderRejects(d);
  }

  lemma {:induction false} OtherBeginning(first: seq<byte>)
    requires |first| == 10 && !(first[0] == 0x1F && first[1] == 0x8B && first[2] == 8)
    ensures G.Scan(first) ==
            G.Bad(if first[0] != 0x1F || first[1] != 0x8B then BadMagic else UnsupportedMethod)
  {
    hide G.Scan, HeaderOk;
    G.NothingScanned();
    G.ScanFixed([], [], first);
    assert [] + first == first;
  }
}
