/** LSB-first bit writer and reader (src/bit.rs).

    Both are specified by the bit string they stand for: everything written so far, and
    everything still to be read.  How the bits are spread over bytes and the bit buffer is
    visible only in `bitCount`, which the byte-exactness argument of the decoder needs. */
module BitIo {
  import opened Bits
  import opened Errors

  class BitWriter {
    var output: seq<byte>
    var bitBuffer: nat
    var bitCount: nat

    ghost predicate Valid()
      reads this
    {
      bitCount < 8 && bitBuffer < Pow2(bitCount)
    }

    /** Every bit written so far, the partial byte included. */
    ghost function Stream(): BitString
      reads this
    {
      BytesToBits(output) + ToBits(bitBuffer, bitCount)
    }

    constructor (output: seq<byte>, bitBuffer: nat, bitCount: nat)
      requires bitCount < 8 && bitBuffer < Pow2(bitCount)
      ensures Valid() && Stream() == BytesToBits(output) + ToBits(bitBuffer, bitCount)
    {
      this.output, this.bitBuffer, this.bitCount := output, bitBuffer, bitCount;
    }

    method WriteBit(bit: bool)
      requires Valid()
      modifies this
      ensures Valid() && Stream() == old(Stream()) + [bit]
    {
      Pow2Values();
      WriteBits(1, BitVal(bit));
      assert ToBits(BitVal(bit), 1) == [bit];
    }

    /** Push the low byte of the bit buffer. */
    method PushByte()
      requires 8 <= bitCount && bitBuffer < Pow2(bitCount)
      modifies this
      ensures bitCount == old(bitCount) - 8 && bitBuffer < Pow2(bitCount)
      ensures Stream() == old(Stream())
    {
      hide Mask, Shr, BytesToBits, ToBits, Pow2;
      ghost var rest := bitCount - 8;
      Pow2Values();
      ToBitsSplit(bitBuffer, 8, rest);
      ShrBound(bitBuffer, 8, rest);
      PushBits(output, Mask(bitBuffer, 8));
      output := output + [Mask(bitBuffer, 8)];
      bitBuffer := Shr(bitBuffer, 8);
      bitCount := bitCount - 8;
    }

    /** The caller keeps `bits` within `count` bits; higher bits would be or-ed into later fields. */
    method WriteBits(count: nat, bits: nat)
      requires Valid() && count <= 16 && bits < Pow2(count)
      modifies this
      ensures Valid() && Stream() == old(Stream()) + ToBits(bits, count)
    {
      hide Or, Shl, Pow2, ToBits, BytesToBits;
      AppendField(bitBuffer, bitCount, bits, count);
      ghost var all := Stream() + ToBits(bits, count);
      Associative(BytesToBits(output), ToBits(bitBuffer, bitCount), ToBits(bits, count));
      bitBuffer := Or(bitBuffer, Shl(bits, bitCount));
      bitCount := bitCount + count;
      while bitCount >= 8
        invariant bitBuffer < Pow2(bitCount) && Stream() == all
      {
        PushByte();
      }
    }

    /** Zero-pad the partial byte, if there is one. */
    method AlignToByte()
      requires Valid()
      modifies this
      ensures Valid() && bitCount == 0
      ensures Stream() == old(Stream()) + ToBits(0, PadTo8(old(|Stream()|)))
      ensures Stream() == BytesToBits(output)
    {
      AlignedStream(output, bitBuffer, bitCount);
      if bitCount > 0 {
        output := output + [bitBuffer];
        bitBuffer := 0;
        bitCount := 0;
      }
    }
  }

  /** A field or-ed in above the buffered bits. */
  lemma {:induction false} AppendField(buffer: nat, a: nat, field: nat, b: nat)
    requires buffer < Pow2(a) && field < Pow2(b)
    ensures Or(buffer, Shl(field, a)) < Pow2(a + b)
    ensures ToBits(Or(buffer, Shl(field, a)), a + b) == ToBits(buffer, a) + ToBits(field, b)
  {
    hide Or, ToBits;
    OrDisjoint(buffer, field, a);
    FieldBound(buffer, a, field, b);
    ToBitsConcat(buffer, a, field, b);
  }

  /** Bits needed to reach the next multiple of eight. */
  function PadTo8(n: nat): (p: nat)
    ensures p < 8 && (n + p) % 8 == 0
  {
    (8 - n % 8) % 8
  }

  lemma {:induction false} PadOfPartial(bytes: nat, count: nat)
    requires count < 8
    ensures PadTo8(8 * bytes + count) == if count == 0 then 0 else 8 - count
  {}

  lemma {:induction false} PadPartial(v: nat, count: nat)
    requires 0 < count < 8 && v < Pow2(count)
    ensures v < 256 && ToBits(v, 8) == ToBits(v, count) + ToBits(0, 8 - count)
  {
    hide ToBits;
    Pow2Values();
    Pow2Mono(count, 8);
    ToBitsConcat(v, count, 0, 8 - count);
  }

  /** The byte pushed by alignment is the partial byte followed by zero padding. */
  lemma {:induction false} AlignedStream(output: seq<byte>, v: nat, count: nat)
    requires count < 8 && v < Pow2(count)
    ensures count > 0 ==> v < 256
    ensures (BytesToBits(output) + ToBits(v, count)) + ToBits(0, PadTo8(|BytesToBits(output) + ToBits(v, count)|))
            == if count > 0 then BytesToBits(output + [v]) else BytesToBits(output)
  {
    var all, partial := BytesToBits(output), ToBits(v, count);
    PadOfPartial(|output|, count);
    assert |all + partial| == 8 * |output| + count;
    if count > 0 {
      PadPartial(v, count);
      PushBits(output, v);
      Associative(all, partial, ToBits(0, 8 - count));
    } else {
      Associative(all, [], []);
    }
  }

  lemma {:induction false} Associative(a: BitString, b: BitString, c: BitString)
    ensures (a + b) + c == a + (b + c)
    ensures b == [] && c == [] ==> (a + b) + c == a
  {}

  lemma {:induction false} PushBits(output: seq<byte>, b: byte)
    ensures BytesToBits(output + [b]) == BytesToBits(output) + ToBits(b, 8)
  {
    BytesToBitsConcat(output, [b]);
    assert BytesToBits([b]) == ToBits(b, 8);
  }

  lemma {:induction false} ShrBound(v: nat, a: nat, b: nat)
    requires v < Pow2(a + b)
    ensures Shr(v, a) < Pow2(b)
  {
    DivMod(v, Pow2(a));
    Pow2Add(a, b);
    if Shr(v, a) >= Pow2(b) {
      MulMono(Pow2(a), Pow2(b), Shr(v, a));
    }
  }

  lemma {:induction false} MulMono(k: nat, x: nat, y: nat)
    requires x <= y
    ensures k * x <= k * y
  {}

  lemma {:induction false} FieldBound(lo: nat, a: nat, hi: nat, b: nat)
    requires lo < Pow2(a) && hi < Pow2(b)
    ensures lo + Shl(hi, a) < Pow2(a + b)
  {
    Pow2Add(a, b);
    MulMono(Pow2(a), hi + 1, Pow2(b));
    MulDistributes(hi, 1, Pow2(a));
  }

  datatype BitReaderState = BitReaderState(byteIndex: nat, bitBuffer: nat, bitCount: nat)

  class BitReader {
    const input: seq<byte>
    var byteIndex: nat
    var bitBuffer: nat
    var bitCount: nat

    ghost predicate Valid()
      reads this
    {
      byteIndex <= |input| && bitCount <= 64 && bitBuffer < Pow2(bitCount)
    }

    /** Every bit still to be read. */
    ghost function Remaining(): BitString
      requires Valid()
      reads this
    {
      ToBits(bitBuffer, bitCount) + BytesToBits(input[byteIndex..])
    }

    constructor (input: seq<byte>, bitBuffer: nat, bitCount: nat)
      requires bitCount <= 64 && bitBuffer < Pow2(bitCount)
      ensures Valid() && this.input == input
      ensures byteIndex == 0 && this.bitBuffer == bitBuffer && this.bitCount == bitCount
    {
      this.input, this.byteIndex, this.bitBuffer, this.bitCount := input, 0, bitBuffer, bitCount;
    }

    function AvailableBits(): (n: nat)
      requires Valid()
      reads this
      ensures n == |Remaining()|
    {
      bitCount + (|input| - byteIndex) * 8
    }

    /** Move one input byte into the bit buffer. */
    method LoadByte()
      requires Valid() && bitCount < 16 && byteIndex < |input|
      modifies this
      ensures Valid() && Remaining() == old(Remaining())
      ensures bitCount == old(bitCount) + 8 && byteIndex == old(byteIndex) + 1
    {
      hide Or, Shl, Pow2, ToBits;
      var next := input[byteIndex];
      Pow2Values();
      AppendField(bitBuffer, bitCount, next, 8);
      assert input[byteIndex..] == [next] + input[byteIndex + 1..];
      assert BytesToBits(input[byteIndex..]) == ToBits(next, 8) + BytesToBits(input[byteIndex + 1..]);
      Associative(ToBits(bitBuffer, bitCount), ToBits(next, 8), BytesToBits(input[byteIndex + 1..]));
      bitBuffer := Or(bitBuffer, Shl(next, bitCount));
      bitCount := bitCount + 8;
      byteIndex := byteIndex + 1;
    }

    /** Reading ahead never loses a bit, and never buffers more than it has to. */
    method PeekBits(count: nat) returns (r: Result<nat>)
      requires Valid() && count <= 16
      modifies this
      ensures Valid() && Remaining() == old(Remaining())
      ensures bitCount <= Max(old(bitCount), count + 7)
      ensures r == if count <= |Remaining()| then Ok(FromBits(Remaining()[..count])) else Err(UnexpectedEof)
      ensures r.Ok? ==> count <= bitCount
    {
      while bitCount < count
        invariant Valid() && Remaining() == old(Remaining())
        invariant bitCount <= Max(old(bitCount), count + 7)
        decreases |input| - byteIndex
      {
        if byteIndex == |input| {
          return Err(UnexpectedEof);
        }
        LoadByte();
      }
      ToBitsSplit(bitBuffer, count, bitCount - count);
      assert Remaining()[..count] == ToBits(Mask(bitBuffer, count), count);
      FromToBits(Mask(bitBuffer, count), count);
      return Ok(Mask(bitBuffer, count));
    }

    method SkipBits(count: nat) returns (r: Result<()>)
      requires Valid() && count <= 16
      modifies this
      ensures Valid()
      ensures r.Ok? <==> count <= old(|Remaining()|)
      ensures r.Ok? ==> Remaining() == old(Remaining())[count..]
      ensures r.Err? ==> r.error == UnexpectedEof
      ensures bitCount <= Max(old(bitCount) - count, 7)  || r.Err?
    {
      if bitCount < count {
        var peeked := PeekBits(count);
        if peeked.Err? { return Err(peeked.error); }
      }
      DropBuffered(count);
      return Ok(());
    }

    method DropBuffered(count: nat)
      requires Valid() && count <= bitCount
      modifies this
      ensures Valid() && Remaining() == old(Remaining())[count..]
      ensures bitCount == old(bitCount) - count && byteIndex == old(byteIndex)
    {
      ToBitsSplit(bitBuffer, count, bitCount - count);
      ShrBound(bitBuffer, count, bitCount - count);
      bitBuffer := Shr(bitBuffer, count);
      bitCount := bitCount - count;
    }

    method ReadBits(count: nat) returns (r: Result<nat>)
      requires Valid() && count <= 16
      modifies this
      ensures Valid()
      ensures r == if count <= old(|Remaining()|) then Ok(FromBits(old(Remaining())[..count])) else Err(UnexpectedEof)
      ensures r.Ok? ==> Remaining() == old(Remaining())[count..] && bitCount <= Max(old(bitCount) - count, 7)
    {
      var bits := PeekBits(count);
      if bits.Err? { return bits; }
      var _ := SkipBits(count);
      return bits;
    }

    method AlignToByte()
      requires Valid()
      modifies this
      ensures Valid() && bitCount == old(bitCount) - old(bitCount) % 8
      ensures Remaining() == old(Remaining())[old(bitCount) % 8..]
    {
      DropBuffered(bitCount % 8);
    }

    /** The buffer holds whole bytes, and they are the ones just before `byteIndex`. */
    ghost predicate Unwindable()
      requires Valid()
      reads this
    {
      bitCount % 8 == 0 && bitCount / 8 <= byteIndex &&
      ToBits(bitBuffer, bitCount) == BytesToBits(input[byteIndex - bitCount / 8..byteIndex])
    }

    /** Read whole bytes, after un-reading the buffered ones. */
    method ReadBytes(len: nat) returns (r: Result<seq<byte>>)
      requires Valid() && Unwindable()
      modifies this
      ensures Valid() && bitCount == 0
      ensures r.Ok? <==> 8 * len <= old(|Remaining()|)
      ensures r.Err? ==> r.error == UnexpectedEof
      ensures r.Ok? ==> |r.value| == len && Remaining() == old(Remaining())[8 * len..]
                        && BytesToBits(r.value) == old(Remaining())[..8 * len]
    {
      var start := byteIndex - bitCount / 8;
      assert input[start..] == input[start..byteIndex] + input[byteIndex..];
      BytesToBitsConcat(input[start..byteIndex], input[byteIndex..]);
      bitBuffer, bitCount := 0, 0;
      var end := start + len;
      if end > |input| {
        return Err(UnexpectedEof);
      }
      var bytes := input[start..end];
      assert input[start..] == bytes + input[end..];
      BytesToBitsConcat(bytes, input[end..]);
      byteIndex := end;
      return Ok(bytes);
    }

    function Snapshot(): BitReaderState
      reads this
    {
      BitReaderState(byteIndex, bitBuffer, bitCount)
    }

    method Restore(state: BitReaderState)
      modifies this
      ensures Snapshot() == state
    {
      byteIndex, bitBuffer, bitCount := state.byteIndex, state.bitBuffer, state.bitCount;
    }
  }

  function Max(a: int, b: int): int {
    if a >= b then a else b
  }
}
