/** Numbers as bit strings.

    A DEFLATE stream is read least significant bit first, except that Huffman codewords are
    packed starting with their most significant bit (section 3.1.1 of RFC 1951).  `ToBits` and
    `FromBits` give the first reading, `MsbBits` and `MsbVal` the second.  Unsigned shifts and
    low-bit masks are written as multiplication, division and remainder by powers of two; the
    bitwise operators that are not arithmetic (`Or`, `Xor`) are spelled out bit by bit. */
module Bits {
  type byte = x: int | 0 <= x < 256
  type BitString = seq<bool>

  function Pow2(n: nat): (p: nat)
    ensures p >= 1
  {
    if n == 0 then 1 else 2 * Pow2(n - 1)
  }

  lemma {:induction false} Pow2Add(a: nat, b: nat)
    ensures Pow2(a + b) == Pow2(a) * Pow2(b)
  {
    if a == 0 {
    } else {
      Pow2Add(a - 1, b);
      assert Pow2(a + b) == 2 * Pow2(a - 1 + b);
      assert 2 * (Pow2(a - 1) * Pow2(b)) == (2 * Pow2(a - 1)) * Pow2(b);
    }
  }

  lemma {:induction false} Pow2Mono(a: nat, b: nat)
    requires a <= b
    ensures Pow2(a) <= Pow2(b)
    decreases b
  {
    if a < b { Pow2Mono(a, b - 1); }
  }

  lemma {:induction false} Pow2Values()
    ensures Pow2(1) == 2 && Pow2(2) == 4 && Pow2(3) == 8 && Pow2(4) == 16 && Pow2(5) == 32
    ensures Pow2(6) == 64 && Pow2(7) == 128 && Pow2(8) == 256 && Pow2(9) == 512 && Pow2(10) == 1024
    ensures Pow2(11) == 2048 && Pow2(12) == 4096 && Pow2(13) == 8192 && Pow2(14) == 16384 && Pow2(15) == 32768
    ensures Pow2(16) == 65536
  {
    assert Pow2(4) == 16;
    assert Pow2(8) == 256;
    assert Pow2(12) == 4096;
  }

  // ----- Least significant bit first -----

  function BitVal(b: bool): (r: nat)
    ensures r < 2
  {
    if b then 1 else 0
  }

  /** The low `w` bits of `v`, least significant first. */
  function ToBits(v: nat, w: nat): (r: BitString)
    ensures |r| == w
  {
    if w == 0 then [] else [v % 2 == 1] + ToBits(v / 2, w - 1)
  }

  function FromBits(b: BitString): (v: nat)
    ensures v < Pow2(|b|)
  {
    if b == [] then 0 else BitVal(b[0]) + 2 * FromBits(b[1..])
  }

  lemma {:induction false} FromToBits(v: nat, w: nat)
    requires v < Pow2(w)
    ensures FromBits(ToBits(v, w)) == v
  {
    if w == 0 {
    } else {
      FromToBits(v / 2, w - 1);
      assert ToBits(v, w)[1..] == ToBits(v / 2, w - 1);
    }
  }

  lemma {:induction false} ToFromBits(b: BitString)
    ensures ToBits(FromBits(b), |b|) == b
  {
    if b == [] {
    } else {
      ToFromBits(b[1..]);
      var h := FromBits(b[1..]);
      assert FromBits(b) / 2 == h && FromBits(b) % 2 == BitVal(b[0]);
      assert b == [b[0]] + b[1..];
    }
  }

  /** Appending high bits above a value that fits is addition. */
  lemma {:induction false} ToBitsConcat(lo: nat, a: nat, hi: nat, b: nat)
    requires lo < Pow2(a)
    ensures ToBits(lo + Pow2(a) * hi, a + b) == ToBits(lo, a) + ToBits(hi, b)
  {
    if a > 0 {
      var p := Pow2(a - 1);
      ToBitsConcat(lo / 2, a - 1, hi, b);
      MulAssoc(2, p, hi);
      var v := lo + Pow2(a) * hi;
      HalfSum(v, lo, p * hi);
      assert ToBits(v, a + b) == [v % 2 == 1] + ToBits(v / 2, a - 1 + b);
      assert ToBits(lo, a) == [lo % 2 == 1] + ToBits(lo / 2, a - 1);
    }
  }

  lemma {:induction false} HalfSum(v: nat, lo: nat, m: nat)
    requires v == lo + 2 * m
    ensures v % 2 == lo % 2 && v / 2 == lo / 2 + m
  {}

  lemma {:induction false} DivMod(v: nat, d: nat)
    requires d > 0
    ensures 0 <= v % d < d && v / d >= 0 && v == v % d + d * (v / d)
  {}

  /** `v & ((1 << w) - 1)` */
  function Mask(v: nat, w: nat): (r: nat)
    ensures r < Pow2(w)
  {
    v % Pow2(w)
  }

  /** `v >> w` */
  function Shr(v: nat, w: nat): nat {
    DivMod(v, Pow2(w));
    v / Pow2(w)
  }

  /** `v << w`, wide enough not to overflow */
  function Shl(v: nat, w: nat): nat {
    v * Pow2(w)
  }

  /** Splitting a field: the low `a` bits are the mask, the rest the shift. */
  lemma {:induction false} ToBitsSplit(v: nat, a: nat, b: nat)
    ensures ToBits(v, a + b) == ToBits(Mask(v, a), a) + ToBits(Shr(v, a), b)
  {
    DivMod(v, Pow2(a));
    ToBitsConcat(Mask(v, a), a, Shr(v, a), b);
  }

  lemma {:induction false} DivModUnique(v: nat, d: nat, q: nat, r: nat)
    requires d > 0 && r < d && v == q * d + r
    ensures v / d == q && v % d == r
  {
    var q', r' := v / d, v % d;
    assert v == q' * d + r' && 0 <= r' < d;
    if q' < q {
      MulAtLeast(q - q', d);
      MulDistributes(q', q - q', d);
    } else if q' > q {
      MulAtLeast(q' - q, d);
      MulDistributes(q, q' - q, d);
    }
  }

  lemma {:induction false} MulAtLeast(k: nat, d: nat)
    requires k >= 1
    ensures k * d >= d
  {}

  lemma {:induction false} MulDistributes(a: int, b: int, d: int)
    ensures (a + b) * d == a * d + b * d
  {}

  lemma {:induction false} FromBitsConcat(a: BitString, b: BitString)
    ensures FromBits(a + b) == FromBits(a) + Pow2(|a|) * FromBits(b)
  {
    if a == [] {
      assert a + b == b;
    } else {
      assert (a + b)[1..] == a[1..] + b;
      FromBitsConcat(a[1..], b);
      MulAssoc(2, Pow2(|a| - 1), FromBits(b));
    }
  }

  lemma {:induction false} MulAssoc(a: int, b: int, c: int)
    ensures a * (b * c) == (a * b) * c
  {}

  // ----- Bitwise operators -----

  function Or(x: nat, y: nat): nat {
    if x == 0 && y == 0 then 0
    else (if x % 2 == 1 || y % 2 == 1 then 1 else 0) + 2 * Or(x / 2, y / 2)
  }

  function Xor(x: nat, y: nat): nat {
    if x == 0 && y == 0 then 0
    else (if x % 2 != y % 2 then 1 else 0) + 2 * Xor(x / 2, y / 2)
  }

  lemma {:induction false} OrZero(x: nat)
    ensures Or(x, 0) == x && Or(0, x) == x
  {
    if x > 0 { OrZero(x / 2); }
  }

  /** `lo | (hi << w)` is `lo + (hi << w)` when `lo` fits in `w` bits. */
  lemma {:induction false} OrDisjoint(lo: nat, hi: nat, w: nat)
    requires lo < Pow2(w)
    ensures Or(lo, Shl(hi, w)) == lo + Shl(hi, w)
    ensures Or(Shl(hi, w), lo) == lo + Shl(hi, w)
  {
    if w == 0 {
      OrZero(hi);
    } else {
      var y := Shl(hi, w);
      assert y == 2 * Shl(hi, w - 1);
      OrDisjoint(lo / 2, hi, w - 1);
    }
  }

  // ----- Most significant bit first -----

  /** The low `w` bits of `v`, most significant first: how a codeword is packed. */
  function MsbBits(v: nat, w: nat): (r: BitString)
    ensures |r| == w
  {
    if w == 0 then [] else MsbBits(v / 2, w - 1) + [v % 2 == 1]
  }

  function MsbVal(b: BitString): (v: nat)
    ensures v < Pow2(|b|)
  {
    if b == [] then 0 else 2 * MsbVal(b[..|b| - 1]) + BitVal(b[|b| - 1])
  }

  /** A number is twice its half and its lowest bit. */
  lemma {:induction false} Halves(v: nat, w: nat)
    requires w > 0 && v < Pow2(w)
    ensures v / 2 < Pow2(w - 1) && v == 2 * (v / 2) + BitVal(v % 2 == 1)
  {}

  lemma {:induction false} NothingBelow()
    ensures Pow2(0) == 1
  {}

  lemma {:induction false} MsbValBits(v: nat, w: nat)
    requires v < Pow2(w)
    ensures MsbVal(MsbBits(v, w)) == v
  {
    hide Pow2;
    NothingBelow();
    if w > 0 {
      Halves(v, w);
      MsbValBits(v / 2, w - 1);
      assert MsbBits(v, w)[..w - 1] == MsbBits(v / 2, w - 1);
    }
  }

  lemma {:induction false} MsbBitsVal(b: BitString)
    ensures MsbBits(MsbVal(b), |b|) == b
  {
    if b != [] {
      var front, last := b[..|b| - 1], b[|b| - 1];
      MsbBitsVal(front);
      assert MsbVal(b) / 2 == MsbVal(front) && MsbVal(b) % 2 == BitVal(last);
      assert b == front + [last];
    }
  }

  lemma {:induction false} MsbStep(m: nat, p: nat, x: nat, c: nat)
    ensures 2 * (m * p + x) + c == m * (2 * p) + (2 * x + c)
  {}

  lemma {:induction false} MsbValConcat(a: BitString, b: BitString)
    ensures MsbVal(a + b) == MsbVal(a) * Pow2(|b|) + MsbVal(b)
  {
    if b == [] {
      assert a + b == a;
    } else {
      var b' := b[..|b| - 1];
      assert (a + b)[..|a + b| - 1] == a + b';
      MsbValConcat(a, b');
      MsbStep(MsbVal(a), Pow2(|b'|), MsbVal(b'), BitVal(b[|b| - 1]));
    }
  }

  // ----- Bytes -----

  function BytesToBits(bs: seq<byte>): (r: BitString)
    ensures |r| == 8 * |bs|
  {
    if bs == [] then [] else ToBits(bs[0], 8) + BytesToBits(bs[1..])
  }

  lemma {:induction false} BytesToBitsConcat(a: seq<byte>, b: seq<byte>)
    ensures BytesToBits(a + b) == BytesToBits(a) + BytesToBits(b)
  {
    if a == [] {
      assert a + b == b;
    } else {
      assert (a + b)[1..] == a[1..] + b;
      BytesToBitsConcat(a[1..], b);
    }
  }

  /** Byte `i` of a byte string is the field at bit `8 * i`. */
  lemma {:induction false} ByteAt(bs: seq<byte>, i: nat)
    requires i < |bs|
    ensures BytesToBits(bs)[8 * i..8 * i + 8] == ToBits(bs[i], 8)
    ensures FromBits(BytesToBits(bs)[8 * i..8 * i + 8]) == bs[i]
  {
    var before, from := bs[..i], bs[i..];
    assert bs == before + from;
    BytesToBitsConcat(before, from);
    assert BytesToBits(from) == ToBits(from[0], 8) + BytesToBits(from[1..]);
    assert BytesToBits(bs)[8 * i..8 * i + 8] == BytesToBits(from)[..8] == ToBits(bs[i], 8);
    Pow2Values();
    FromToBits(bs[i], 8);
  }

  /** Different bytes give different bits. */
  lemma {:induction false} BytesInjective(a: seq<byte>, b: seq<byte>)
    requires BytesToBits(a) == BytesToBits(b)
    ensures a == b
  {
    hide BytesToBits, ToBits, FromBits;
    assert |a| == |b|;
    forall i | 0 <= i < |a| ensures a[i] == b[i] {
      ByteAt(a, i);
      ByteAt(b, i);
    }
  }

  /** Whole bytes at the front of a bit string are at the front of its bytes. */
  lemma {:induction false} BytesPrefix(a: seq<byte>, b: seq<byte>, partial: BitString)
    requires |a| <= |b| && BytesToBits(a) <= BytesToBits(b) + partial
    ensures a <= b
  {
    hide BytesToBits;
    var n := |a|;
    assert b == b[..n] + b[n..];
    BytesToBitsConcat(b[..n], b[n..]);
    assert BytesToBits(b[..n]) == (BytesToBits(b) + partial)[..8 * n];
    BytesInjective(a, b[..n]);
  }

  /** Bits as bytes, eight at a time. */
  ghost function ToBytes(b: BitString): (bs: seq<byte>)
    requires |b| % 8 == 0
  {
    if b == [] then [] else [ByteFrom(b[..8])] + ToBytes(b[8..])
  }

  ghost function ByteFrom(b: BitString): (v: byte)
    requires |b| == 8
    ensures ToBits(v, 8) == b
  {
    ToFromBits(b);
    Pow2Values();
    FromBits(b)
  }

  lemma {:induction false} FromToBytes(b: BitString)
    requires |b| % 8 == 0
    ensures BytesToBits(ToBytes(b)) == b
  {
    hide ToBits, ByteFrom;
    if b != [] {
      FromToBytes(b[8..]);
      var first, rest := ByteFrom(b[..8]), ToBytes(b[8..]);
      assert BytesToBits([first] + rest) == ToBits(first, 8) + BytesToBits(rest);
      assert b == b[..8] + b[8..];
    }
  }

  // ----- Pieces of a stream -----

  /** The stream from bit `pos` on. */
  ghost function From(s: BitString, pos: nat): (rest: BitString)
    requires pos <= |s|
    ensures |rest| == |s| - pos
  {
    s[pos..]
  }

  lemma {:induction false} FromSlices(s: BitString, pos: nat, n: nat)
    requires pos + n <= |s|
    ensures From(s, pos)[..n] == s[pos..pos + n] && From(s, pos)[n..] == From(s, pos + n)
  {}

  /** `piece` occurs in `s` at bit `pos`. */
  ghost predicate At(s: BitString, pos: nat, piece: BitString) {
    pos + |piece| <= |s| && s[pos..pos + |piece|] == piece
  }

  lemma {:induction false} AtSplit(s: BitString, pos: nat, a: BitString, b: BitString)
    ensures At(s, pos, a + b) <==> At(s, pos, a) && At(s, pos + |a|, b)
  {
    if pos + |a| + |b| <= |s| {
      assert s[pos..pos + |a + b|] == s[pos..pos + |a|] + s[pos + |a|..pos + |a| + |b|];
      assert (a + b)[..|a|] == a && (a + b)[|a|..] == b;
      if At(s, pos, a + b) {
        assert s[pos..pos + |a|] == (a + b)[..|a|];
        assert s[pos + |a|..pos + |a| + |b|] == (a + b)[|a|..];
      }
    }
  }

  lemma {:induction false} AtWithin(s: BitString, pos: nat, piece: BitString, w: nat)
    requires At(s, pos, piece) && |piece| <= w && pos + w <= |s|
    ensures s[pos..pos + w][..|piece|] == piece
  {}

  lemma {:induction false} AtWhole(s: BitString)
    ensures At(s, 0, s)
  {}

  lemma {:induction false} AtConcat(s: BitString, t: BitString)
    ensures At(s + t, |s|, t)
  {}
}
