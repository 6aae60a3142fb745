/** Adler-32 (section 8.2 of RFC 1950; src/adler32.rs): the modulus taken once per 5552 bytes.

    The sums are 32-bit words that wrap around; what has to be shown is that between two reductions
    they never do. */
module Adler {
  import opened Bits

  const BASE: nat := 65521
  const NMAX: nat := 5552
  const U32_MAX: nat := 0xFFFF_FFFF

  datatype Sums = Sums(a: nat, b: nat)

  /** The recurrence of the definition: reduce after every byte. */
  function AddByte(s: Sums, x: byte): Sums {
    var a := (s.a + x) % BASE;
    Sums(a, (s.b + a) % BASE)
  }

  ghost function AddBytes(s: Sums, data: seq<byte>): Sums {
    if data == [] then s else AddByte(AddBytes(s, data[..|data| - 1]), data[|data| - 1])
  }

  ghost predicate Reduced(s: Sums) {
    s.a < BASE && s.b < BASE
  }

  lemma {:induction false} AddBytesReduced(s: Sums, data: seq<byte>)
    requires Reduced(s)
    ensures Reduced(AddBytes(s, data))
  {}

  lemma {:induction false} AddBytesConcat(s: Sums, x: seq<byte>, y: seq<byte>)
    ensures AddBytes(s, x + y) == AddBytes(AddBytes(s, x), y)
  {
    hide AddByte;
    if y == [] {
      assert x + y == x;
    } else {
      assert (x + y)[..|x + y| - 1] == x + y[..|y| - 1];
      AddBytesConcat(s, x, y[..|y| - 1]);
    }
  }

  /** The same sums without any reduction. */
  ghost function Total(data: seq<byte>): nat {
    if data == [] then 1 else Total(data[..|data| - 1]) + data[|data| - 1]
  }

  ghost function TotalOfTotals(data: seq<byte>): nat {
    if data == [] then 0 else TotalOfTotals(data[..|data| - 1]) + Total(data)
  }

  lemma {:induction false} ModAdd(x: nat, y: nat)
    ensures (x % BASE + y) % BASE == (x + y) % BASE
    ensures (x % BASE + y % BASE) % BASE == (x + y) % BASE
  {}

  /** Reducing after every byte is reducing once at the end. */
  lemma {:induction false} RecurrenceIsTotals(data: seq<byte>)
    ensures AddBytes(Sums(1, 0), data) == Sums(Total(data) % BASE, TotalOfTotals(data) % BASE)
  {
    if data != [] {
      var front, x := data[..|data| - 1], data[|data| - 1];
      RecurrenceIsTotals(front);
      ModAdd(Total(front), x);
      ModAdd(TotalOfTotals(front), Total(data));
    }
  }

  // ----- No overflow between reductions -----

  /** `wrapping_add` */
  function WrappingAdd(x: nat, y: nat): nat {
    (x + y) % 0x1_0000_0000
  }

  /** The most the second sum can be after `k` bytes from a reduced state. */
  ghost function Limit(k: nat): nat {
    if k == 0 then BASE - 1 else Limit(k - 1) + (BASE - 1) + 255 * k
  }

  lemma {:induction false} LimitMono(j: nat, k: nat)
    requires j <= k
    ensures Limit(j) <= Limit(k)
    decreases k
  {
    if j < k { LimitMono(j, k - 1); }
  }

  lemma {:induction false} LimitClosed(k: nat)
    ensures 2 * Limit(k) == 2 * (BASE - 1) * (k + 1) + 255 * (k * (k + 1))
  {
    if k > 0 {
      LimitClosed(k - 1);
      assert k * (k + 1) == (k - 1) * k + 2 * k;
    }
  }

  /** 5552 bytes fit into 32 bits, and one more might not. */
  lemma {:induction false} NmaxIsLargest()
    ensures Limit(NMAX) <= U32_MAX < Limit(NMAX + 1)
  {
    LimitClosed(NMAX);
  }

  /** Unreduced sums after `k` bytes since a reduced state, congruent to `s`. */
  ghost predicate Pending(a: nat, b: nat, k: nat, s: Sums) {
    a <= BASE - 1 + 255 * k && b <= Limit(k) && a % BASE == s.a && b % BASE == s.b
  }

  lemma {:induction false} PendingNext(a: nat, b: nat, k: nat, s: Sums, x: byte)
    requires Pending(a, b, k, s) && k < NMAX
    ensures var a' := WrappingAdd(a, x);
            Pending(a', WrappingAdd(b, a'), k + 1, AddByte(s, x))
  {
    hide WrappingAdd, Limit, AddByte;
    NmaxIsLargest();
    LimitMono(k + 1, NMAX);
    LimitNext(k);
    NoWrap(a, x);
    NoWrap(b, a + x);
    NextSums(a, b, x, s);
  }

  lemma {:induction false} LimitNext(k: nat)
    ensures Limit(k + 1) == Limit(k) + (BASE - 1) + 255 * (k + 1)
  {}

  lemma {:induction false} NoWrap(x: nat, y: nat)
    requires x + y <= U32_MAX
    ensures WrappingAdd(x, y) == x + y
  {}

  lemma {:induction false} NextSums(a: nat, b: nat, x: byte, s: Sums)
    requires a % BASE == s.a && b % BASE == s.b
    ensures AddByte(s, x) == Sums((a + x) % BASE, (b + (a + x)) % BASE)
  {
    ModAdd(a, x);
    ModAdd(b, a + x);
  }

  class Adler32 {
    var a: nat
    var b: nat

    /** Everything added. */
    ghost var seen: seq<byte>

    ghost predicate Valid()
      reads this
    {
      Reduced(Sums(a, b)) && Sums(a, b) == AddBytes(Sums(1, 0), seen)
    }

    constructor ()
      ensures Valid() && seen == []
    {
      a, b := 1, 0;
      seen := [];
    }

    /** One byte, unreduced and wrapping. */
    static method Accumulate(a: nat, b: nat, x: byte, ghost k: nat, ghost s: Sums) returns (a': nat, b': nat)
      requires Pending(a, b, k, s) && k < NMAX
      ensures Pending(a', b', k + 1, AddByte(s, x))
    {
      PendingNext(a, b, k, s, x);
      a' := WrappingAdd(a, x);
      b' := WrappingAdd(b, a');
    }

    /** A chunk of at most 5552 bytes, sixteen at a time and then one by one. */
    static method AccumulateChunk(a0: nat, b0: nat, chunk: seq<byte>, ghost s: Sums) returns (a: nat, b: nat)
      requires |chunk| <= NMAX && Pending(a0, b0, 0, s)
      ensures Pending(a, b, |chunk|, AddBytes(s, chunk))
    {
      hide Pending, AddByte, AddBytes;
      a, b := a0, b0;
      var i := 0;
      AddNone(s);
      assert chunk[..0] == [];
      while i + 16 <= |chunk|
        invariant i <= |chunk| && Pending(a, b, i, AddBytes(s, chunk[..i]))
      {
        for j := 0 to 16
          invariant Pending(a, b, i + j, AddBytes(s, chunk[..i + j]))
        {
          AddOne(s, chunk, i + j);
          a, b := Accumulate(a, b, chunk[i + j], i + j, AddBytes(s, chunk[..i + j]));
        }
        i := i + 16;
      }
      while i < |chunk|
        invariant i <= |chunk| && Pending(a, b, i, AddBytes(s, chunk[..i]))
      {
        AddOne(s, chunk, i);
        a, b := Accumulate(a, b, chunk[i], i, AddBytes(s, chunk[..i]));
        i := i + 1;
      }
      assert chunk[..|chunk|] == chunk;
    }

    /** For every length and every split into updates the sums are the recurrence's. */
    method Update(data: seq<byte>)
      requires Valid()
      modifies this
      ensures Valid() && seen == old(seen) + data
    {
      hide AddByte, AddBytes, Limit;
      var a: nat, b: nat := this.a, this.b;
      var offset := 0;
      ghost var start := Sums(1, 0);
      assert seen + data[..0] == seen;
      while offset < |data|
        invariant offset <= |data| && Sums(a, b) == AddBytes(start, seen + data[..offset]) && Reduced(Sums(a, b))
        invariant seen == old(seen)
      {
        var chunkEnd := if offset + NMAX <= |data| then offset + NMAX else |data|;
        var chunk := data[offset..chunkEnd];
        ReducedIsPending(a, b);
        ghost var s := Sums(a, b);
        a, b := AccumulateChunk(a, b, chunk, s);
        AddBytesReduced(s, chunk);
        AddBytesConcat(start, seen + data[..offset], chunk);
        assert (seen + data[..offset]) + chunk == seen + data[..chunkEnd];
        a := a % BASE;
        b := b % BASE;
        offset := chunkEnd;
      }
      assert seen + data[..|data|] == seen + data;
      this.a, this.b := a, b;
      seen := seen + data;
    }

    /** `(b << 16) | a`: the two sums side by side. */
    function Value(): (v: nat)
      requires Valid()
      reads this
      ensures v == 65536 * (TotalOfTotals(seen) % BASE) + Total(seen) % BASE
    {
      Pow2Values();
      OrDisjoint(a, b, 16);
      RecurrenceIsTotals(seen);
      Or(Shl(b, 16), a)
    }
  }

  lemma {:induction false} AddNone(s: Sums)
    ensures AddBytes(s, []) == s
  {}

  lemma {:induction false} AddOne(s: Sums, data: seq<byte>, i: nat)
    requires i < |data|
    ensures AddBytes(s, data[..i + 1]) == AddByte(AddBytes(s, data[..i]), data[i])
  {
    hide AddByte;
    assert data[..i + 1][..i] == data[..i];
  }

  lemma {:induction false} ReducedIsPending(a: nat, b: nat)
    requires Reduced(Sums(a, b))
    ensures Pending(a, b, 0, Sums(a, b))
  {}
}
