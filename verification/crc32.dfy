/** CRC-32 (section 8 of RFC 1952; src/crc32.rs): slicing by 16 against the definition bit by bit.

    One step divides by x modulo the polynomial, so steps are linear over xor.  A table entry is a byte
    followed by so many zero bytes; a word of data is a sum of such entries. */
module Crc {
  import opened Bits

  const POLYNOMIAL: bv32 := 0xEDB8_8320
  const SLICE: nat := 16

  // ----- Words -----

  // Operations on words go by name, so that proofs about sequences of steps need not look at bits.

  function Plus(a: bv32, b: bv32): bv32 { a ^ b }

  function Half(c: bv32): bv32 { c >> 1 }

  predicate Odd(c: bv32) { c & 1 != 0 }

  function LowByte(c: bv32): bv32 { c & 0xFF }

  function DropByte(c: bv32): bv32 { c >> 8 }

  function HighBytes(c: bv32): bv32 { c & 0xFFFF_FF00 }

  function Word(b: byte): bv32 { b as bv32 }

  lemma {:induction false} PlusAssoc(a: bv32, b: bv32, c: bv32)
    ensures Plus(a, Plus(b, c)) == Plus(Plus(a, b), c)
  {}

  lemma {:induction false} PlusSame(a: bv32, b: bv32)
    ensures Plus(Plus(a, b), b) == a
  {}

  lemma {:induction false} PlusSwap(a: bv32, b: bv32)
    ensures Plus(a, b) == Plus(b, a)
  {}

  lemma {:induction false} PlusLaws(a: bv32, b: bv32, c: bv32)
    ensures Plus(a, Plus(b, c)) == Plus(Plus(a, b), c)
    ensures Plus(a, b) == Plus(b, a)
    ensures Plus(Plus(a, b), b) == a
  {
    hide Plus;
    PlusAssoc(a, b, c);
    PlusSame(a, b);
    PlusSwap(a, b);
  }

  lemma {:induction false} HalfPlus(a: bv32, b: bv32)
    ensures Half(Plus(a, b)) == Plus(Half(a), Half(b))
  {}

  lemma {:induction false} OddPlus(a: bv32, b: bv32)
    ensures Odd(Plus(a, b)) <==> (Odd(a) <==> !Odd(b))
  {}

  lemma {:induction false} SplitLow(c: bv32)
    ensures c == Plus(LowByte(c), HighBytes(c))
  {}

  // ----- Bit by bit -----

  function Step(c: bv32): bv32 {
    if Odd(c) then Plus(Half(c), POLYNOMIAL) else Half(c)
  }

  function Steps(c: bv32, n: nat): bv32
    decreases n
  {
    if n == 0 then c else Steps(Step(c), n - 1)
  }

  /** The register after a byte: eight steps once the byte is mixed in. */
  function AddByte(c: bv32, b: byte): bv32 {
    Steps(Plus(c, Word(b)), 8)
  }

  /** The register after `data`. */
  ghost function AddBytes(c: bv32, data: seq<byte>): bv32 {
    if data == [] then c else AddByte(AddBytes(c, data[..|data| - 1]), data[|data| - 1])
  }

  /** The checksum of a byte string. */
  ghost function Checksum(data: seq<byte>): bv32 {
    !AddBytes(0xFFFF_FFFF, data)
  }

  lemma {:induction false} AddBytesConcat(c: bv32, a: seq<byte>, b: seq<byte>)
    ensures AddBytes(c, a + b) == AddBytes(AddBytes(c, a), b)
  {
    hide AddByte;
    if b == [] {
      assert a + b == a;
    } else {
      assert (a + b)[..|a + b| - 1] == a + b[..|b| - 1];
      AddBytesConcat(c, a, b[..|b| - 1]);
    }
  }

  // ----- Linearity -----

  lemma {:induction false} StepLinear(a: bv32, b: bv32)
    ensures Step(Plus(a, b)) == Plus(Step(a), Step(b))
  {
    hide Plus, Half, Odd;
    var p, q := Half(a), Half(b);
    HalfPlus(a, b);
    OddPlus(a, b);
    PlusLaws(p, q, POLYNOMIAL);
    PlusLaws(p, POLYNOMIAL, q);
    PlusLaws(Plus(p, POLYNOMIAL), q, POLYNOMIAL);
    PlusLaws(Plus(p, q), POLYNOMIAL, POLYNOMIAL);
    PlusLaws(q, POLYNOMIAL, p);
  }

  lemma {:induction false} StepsLinear(a: bv32, b: bv32, n: nat)
    ensures Steps(Plus(a, b), n) == Plus(Steps(a, n), Steps(b, n))
    decreases n
  {
    hide Step, Plus;
    if n > 0 {
      StepLinear(a, b);
      StepsLinear(Step(a), Step(b), n - 1);
    }
  }

  lemma {:induction false} StepsAdd(c: bv32, m: nat, n: nat)
    ensures Steps(c, m + n) == Steps(Steps(c, m), n)
    decreases m
  {
    hide Step;
    if m > 0 { StepsAdd(Step(c), m - 1, n); }
  }

  /** The lowest `k` bits are zero. */
  predicate LowZero(x: bv32, k: nat)
    requires k <= 8
  {
    match k
    case 0 => true
    case 1 => x & 0x01 == 0
    case 2 => x & 0x03 == 0
    case 3 => x & 0x07 == 0
    case 4 => x & 0x0F == 0
    case 5 => x & 0x1F == 0
    case 6 => x & 0x3F == 0
    case 7 => x & 0x7F == 0
    case _ => x & 0xFF == 0
  }

  lemma {:induction false} LowZeroHalf(x: bv32, k: nat)
    requires 0 < k <= 8 && LowZero(x, k)
    ensures !Odd(x) && LowZero(Half(x), k - 1)
  {
    match k {
      case 1 => case 2 => case 3 => case 4 => case 5 => case 6 => case 7 => case _ =>
    }
  }

  function Halves(x: bv32, k: nat): bv32 {
    if k == 0 then x else Halves(Half(x), k - 1)
  }

  /** Steps on a word whose low bits are zero just shift it down. */
  lemma {:induction false} StepsHalve(x: bv32, k: nat)
    requires k <= 8 && LowZero(x, k)
    ensures Steps(x, k) == Halves(x, k)
    decreases k
  {
    hide Half, Odd, Plus, LowZero;
    if k > 0 {
      LowZeroHalf(x, k);
      StepsHalve(Half(x), k - 1);
    }
  }

  lemma {:induction false} EightHalves(c: bv32)
    ensures LowZero(HighBytes(c), 8) && Halves(HighBytes(c), 8) == DropByte(c)
  {
    hide HighBytes, DropByte, Half, LowZero;
    HighLowZero(c);
    ShiftEight(c);
    HalvesFour(HighBytes(c), 8);
    HalvesFour(Half(Half(Half(Half(HighBytes(c))))), 4);
  }

  lemma {:induction false} HighLowZero(c: bv32)
    ensures LowZero(HighBytes(c), 8)
  {}

  lemma {:induction false} ShiftEight(c: bv32)
    ensures Half(Half(Half(Half(Half(Half(Half(Half(HighBytes(c))))))))) == DropByte(c)
  {}

  lemma {:induction false} HalvesFour(x: bv32, k: nat)
    requires k >= 4
    ensures Halves(x, k) == Halves(Half(Half(Half(Half(x)))), k - 4)
  {
    hide Half;
    assert Halves(x, k) == Halves(Half(Half(x)), k - 2);
    assert Halves(Half(Half(x)), k - 2) == Halves(Half(Half(Half(Half(x)))), k - 4);
  }

  /** The low byte takes all the steps, the rest eight fewer. */
  lemma {:induction false} PeelByte(c: bv32, n: nat)
    requires n >= 8
    ensures Steps(c, n) == Plus(Steps(LowByte(c), n), Steps(DropByte(c), n - 8))
  {
    hide Steps, Plus, LowByte, DropByte, HighBytes, LowZero, Halves;
    SplitLow(c);
    StepsLinear(LowByte(c), HighBytes(c), n);
    StepsAdd(HighBytes(c), 8, n - 8);
    EightHalves(c);
    StepsHalve(HighBytes(c), 8);
  }

  // ----- The table -----

  /** Entry `b` of table `k`: byte `b` followed by `k` zero bytes. */
  ghost predicate TableOk(table: seq<seq<bv32>>) {
    |table| == SLICE && forall k :: 0 <= k < SLICE ==> RowOk(table[k], k)
  }

  ghost predicate RowOk(row: seq<bv32>, k: nat) {
    |row| == 256 && forall b: byte {:trigger row[b]} :: row[b] == Steps(Word(b), 8 * k + 8)
  }

  function Index(x: bv32): (b: byte) {
    LowByteSmall(x);
    ByteIndex(LowByte(x));
    LowByte(x) as byte
  }

  lemma {:induction false} ByteIndex(x: bv32)
    requires x <= 0xFF
    ensures 0 <= x as int < 256 && Word(x as byte) == x
  {}

  lemma {:induction false} LowByteSmall(x: bv32)
    ensures LowByte(x) <= 0xFF
  {}

  lemma {:induction false} WordIndex(x: bv32)
    ensures Word(Index(x)) == LowByte(x)
  {
    hide LowByte;
    LowByteSmall(x);
    ByteIndex(LowByte(x));
  }

  lemma {:induction false} RowAt(row: seq<bv32>, k: nat, x: bv32)
    requires RowOk(row, k)
    ensures |row| == 256 && row[Index(x)] == Steps(LowByte(x), 8 * k + 8)
  {
    hide Index, LowByte, Word, Steps;
    WordIndex(x);
  }

  /** One more zero byte behind. */
  lemma {:induction false} NextEntry(prev: bv32, b: byte, k: nat)
    requires prev == Steps(Word(b), 8 * k + 8)
    ensures Plus(DropByte(prev), Steps(LowByte(prev), 8)) == Steps(Word(b), 8 * (k + 1) + 8)
  {
    hide Plus, DropByte, LowByte, Word, Steps;
    StepsAdd(Word(b), 8 * k + 8, 8);
    DropIsSteps(prev);
  }

  /** A byte step by table: shift down, add the entry of the low byte. */
  lemma {:induction false} DropIsSteps(c: bv32)
    ensures Steps(c, 8) == Plus(DropByte(c), Steps(LowByte(c), 8))
  {
    hide Plus, DropByte, LowByte, Step;
    PeelByte(c, 8);
    PlusSwap(Steps(LowByte(c), 8), DropByte(c));
  }

  method MakeByteRow() returns (row: seq<bv32>)
    ensures RowOk(row, 0)
  {
    hide Step, Word;
    row := [];
    for i := 0 to 256
      invariant |row| == i && forall b: byte {:trigger row[b]} :: b < i ==> row[b] == Steps(Word(b), 8)
    {
      var c := Word(i);
      for j := 0 to 8
        invariant Steps(c, 8 - j) == Steps(Word(i), 8)
      {
        c := Step(c);
      }
      row := row + [c];
    }
  }

  method MakeTable() returns (table: seq<seq<bv32>>)
    ensures TableOk(table)
  {
    hide Plus, DropByte, LowByte, Steps, Word, Index;
    var first := MakeByteRow();
    table := [first];
    for k := 1 to SLICE
      invariant |table| == k && table[0] == first && forall j :: 0 <= j < k ==> RowOk(table[j], j)
    {
      var row: seq<bv32> := [];
      for i := 0 to 256
        invariant |row| == i && forall b: byte {:trigger row[b]} :: b < i ==> row[b] == Steps(Word(b), 8 * k + 8)
      {
        var prev := table[k - 1][i];
        RowAt(first, 0, prev);
        NextEntry(prev, i, k - 1);
        row := row + [Plus(DropByte(prev), first[Index(prev)])];
      }
      table := table + [row];
    }
  }

  // ----- Four bytes at a time -----

  /** `w >> 8 * k` */
  function Drop(w: bv32, k: nat): bv32 {
    match k case 0 => w case 1 => w >> 8 case 2 => w >> 16 case _ => w >> 24
  }

  /** `x << 8 * k` */
  function Up(x: bv32, k: nat): bv32 {
    match k case 0 => x case 1 => x << 8 case 2 => x << 16 case _ => x << 24
  }

  function Lift(b: byte, k: nat): bv32 {
    Up(Word(b), k)
  }

  /** `u32::from_le_bytes` */
  function U32(a: byte, b: byte, c: byte, d: byte): bv32 {
    OrAll(Lift(a, 0), Lift(b, 1), Lift(c, 2), Lift(d, 3))
  }

  function LeBytes(v: bv32): (b: seq<byte>)
    ensures |b| == 4
  {
    [Index(Drop(v, 0)), Index(Drop(v, 1)), Index(Drop(v, 2)), Index(Drop(v, 3))]
  }

  lemma {:induction false} DropNext(w: bv32)
    ensures DropByte(Drop(w, 0)) == Drop(w, 1)
    ensures DropByte(Drop(w, 1)) == Drop(w, 2)
    ensures DropByte(Drop(w, 2)) == Drop(w, 3)
  {
    hide Drop, DropByte;
    DropShifts(w);
    ShiftsInTurn(w);
  }

  lemma {:induction false} DropShifts(w: bv32)
    ensures Drop(w, 0) == w && Drop(w, 1) == w >> 8 && Drop(w, 2) == w >> 16 && Drop(w, 3) == w >> 24
  {}

  lemma {:induction false} ShiftsInTurn(w: bv32)
    ensures DropByte(w) == w >> 8 && DropByte(w >> 8) == w >> 16 && DropByte(w >> 16) == w >> 24
  {}

  lemma {:induction false} DropLast(w: bv32)
    ensures LowByte(Drop(w, 3)) == Drop(w, 3) && Drop(w, 0) == w
  {}

  lemma {:induction false} WordSmall(b: byte)
    ensures Word(b) <= 0xFF
  {}

  function OrAll(a: bv32, b: bv32, c: bv32, d: bv32): bv32 {
    a | b | c | d
  }

  lemma {:induction false} OrIsXor(a: bv32, b: bv32, c: bv32, d: bv32)
    requires a <= 0xFF && b <= 0xFF && c <= 0xFF && d <= 0xFF
    ensures a | (b << 8) | (c << 16) | (d << 24) == a ^ (b << 8) ^ (c << 16) ^ (d << 24)
  {}

  lemma {:induction false} OrIsPlus(a: bv32, b: bv32, c: bv32, d: bv32)
    requires a <= 0xFF && b <= 0xFF && c <= 0xFF && d <= 0xFF
    ensures OrAll(a, b << 8, c << 16, d << 24) == Plus(Plus(Plus(a, b << 8), c << 16), d << 24)
  {
    OrIsXor(a, b, c, d);
  }

  lemma {:induction false} UpShifts(x: bv32)
    ensures Up(x, 0) == x && Up(x, 1) == x << 8 && Up(x, 2) == x << 16 && Up(x, 3) == x << 24
  {}

  lemma {:induction false} UpsArePlus(a: bv32, b: bv32, c: bv32, d: bv32)
    requires a <= 0xFF && b <= 0xFF && c <= 0xFF && d <= 0xFF
    ensures OrAll(Up(a, 0), Up(b, 1), Up(c, 2), Up(d, 3)) == Plus(Plus(Plus(Up(a, 0), Up(b, 1)), Up(c, 2)), Up(d, 3))
  {
    hide Plus, OrAll, Up;
    UpShifts(a);
    UpShifts(b);
    UpShifts(c);
    UpShifts(d);
    OrIsPlus(a, b, c, d);
  }

  lemma {:induction false} U32Sum(a: byte, b: byte, c: byte, d: byte)
    ensures U32(a, b, c, d) == Plus(Plus(Plus(Lift(a, 0), Lift(b, 1)), Lift(c, 2)), Lift(d, 3))
  {
    hide Word, Up, Plus, OrAll;
    WordSmall(a);
    WordSmall(b);
    WordSmall(c);
    WordSmall(d);
    UpsArePlus(Word(a), Word(b), Word(c), Word(d));
  }

  /** Byte `k` of a word, left in place. */
  function Part(v: bv32, k: nat): bv32 {
    match k case 0 => v & 0xFF case 1 => v & 0xFF00 case 2 => v & 0xFF_0000 case _ => v & 0xFF00_0000
  }

  lemma {:induction false} PartZero(v: bv32)
    ensures Up(LowByte(Drop(v, 0)), 0) == Part(v, 0)
  {}

  lemma {:induction false} PartOne(v: bv32)
    ensures Up(LowByte(Drop(v, 1)), 1) == Part(v, 1)
  {}

  lemma {:induction false} PartTwo(v: bv32)
    ensures Up(LowByte(Drop(v, 2)), 2) == Part(v, 2)
  {}

  lemma {:induction false} PartThree(v: bv32)
    ensures Up(LowByte(Drop(v, 3)), 3) == Part(v, 3)
  {}

  lemma {:induction false} JoinMasked(v: bv32)
    ensures (v & 0xFF) | (v & 0xFF00) | (v & 0xFF_0000) | (v & 0xFF00_0000) == v
  {}

  lemma {:induction false} JoinParts(v: bv32)
    ensures OrAll(Part(v, 0), Part(v, 1), Part(v, 2), Part(v, 3)) == v
  {
    JoinMasked(v);
  }

  lemma {:induction false} JoinBytes(v: bv32)
    ensures OrAll(Up(LowByte(Drop(v, 0)), 0), Up(LowByte(Drop(v, 1)), 1), Up(LowByte(Drop(v, 2)), 2),
        Up(LowByte(Drop(v, 3)), 3)) == v
  {
    hide Drop, Up, OrAll, LowByte, Part;
    PartZero(v);
    PartOne(v);
    PartTwo(v);
    PartThree(v);
    JoinParts(v);
  }

  /** Little-endian bytes read back as the word they came from. */
  lemma {:induction false} LeRoundTrip(v: bv32)
    ensures var b := LeBytes(v); U32(b[0], b[1], b[2], b[3]) == v
  {
    hide Word, Index, Up, Drop, LowByte, OrAll;
    WordIndex(Drop(v, 0));
    WordIndex(Drop(v, 1));
    WordIndex(Drop(v, 2));
    WordIndex(Drop(v, 3));
    JoinBytes(v);
  }

  lemma {:induction false} SplitMasked(a: bv32, b: bv32, c: bv32, d: bv32)
    requires a <= 0xFF && b <= 0xFF && c <= 0xFF && d <= 0xFF
    ensures (a | (b << 8) | (c << 16) | (d << 24)) & 0xFF == a
    ensures ((a | (b << 8) | (c << 16) | (d << 24)) >> 8) & 0xFF == b
    ensures ((a | (b << 8) | (c << 16) | (d << 24)) >> 16) & 0xFF == c
    ensures ((a | (b << 8) | (c << 16) | (d << 24)) >> 24) & 0xFF == d
  {}

  lemma {:induction false} SplitWords(a: bv32, b: bv32, c: bv32, d: bv32)
    requires a <= 0xFF && b <= 0xFF && c <= 0xFF && d <= 0xFF
    ensures var v := OrAll(Up(a, 0), Up(b, 1), Up(c, 2), Up(d, 3));
            LowByte(Drop(v, 0)) == a && LowByte(Drop(v, 1)) == b && LowByte(Drop(v, 2)) == c && LowByte(Drop(v, 3)) == d
  {
    SplitMasked(a, b, c, d);
  }

  lemma {:induction false} IndexIs(x: bv32, b: byte)
    requires LowByte(x) == Word(b)
    ensures Index(x) == b
  {
    hide LowByte, Word;
    IndexWord(b);
  }

  lemma {:induction false} OneMoreIs(x: bv32)
    requires x < 0xFF
    ensures (x + 1) as int == x as int + 1
  {}

  lemma {:induction false} CountTo(b: byte) returns (x: bv32)
    ensures x <= 0xFF && x as int == b
  {
    x := 0;
    if b > 0 {
      x := CountTo(b - 1);
      if x == 0xFF {
        assert false;
      }
      OneMoreIs(x);
      x := x + 1;
    }
  }

  lemma {:induction false} IndexWord(b: byte)
    ensures Word(b) as int == b
  {
    hide Word;
    var x := CountTo(b);
    ByteIndex(x);
  }

  /** ... and a word put together from bytes is those bytes. */
  lemma {:induction false} BytesRoundTrip(a: byte, b: byte, c: byte, d: byte)
    ensures LeBytes(U32(a, b, c, d)) == [a, b, c, d]
  {
    hide Word, Index, Up, Drop, LowByte, OrAll;
    WordSmall(a);
    WordSmall(b);
    WordSmall(c);
    WordSmall(d);
    SplitWords(Word(a), Word(b), Word(c), Word(d));
    var v := U32(a, b, c, d);
    WordIndex(Drop(v, 0));
    WordIndex(Drop(v, 1));
    WordIndex(Drop(v, 2));
    WordIndex(Drop(v, 3));
    IndexIs(Drop(v, 0), a);
    IndexIs(Drop(v, 1), b);
    IndexIs(Drop(v, 2), c);
    IndexIs(Drop(v, 3), d);
  }

  lemma {:induction false} LiftDown(x: bv32)
    requires x <= 0xFF
    ensures LowByte(x << 8) == 0 && LowByte(x << 16) == 0 && LowByte(x << 24) == 0
    ensures DropByte(x << 8) == x && DropByte(x << 16) == x << 8 && DropByte(x << 24) == x << 16
  {}

  lemma {:induction false} LiftStep(b: byte, k: nat)
    requires 0 < k <= 3
    ensures LowByte(Lift(b, k)) == 0 && DropByte(Lift(b, k)) == Lift(b, k - 1)
  {
    hide Word, LowByte, DropByte, Up;
    WordSmall(b);
    UpShifts(Word(b));
    LiftDown(Word(b));
  }

  lemma {:induction false} NoLift(b: byte)
    ensures Lift(b, 0) == Word(b)
  {}

  lemma {:induction false} StepsOfZero(n: nat)
    ensures Steps(0, n) == 0
    decreases n
  {
    if n > 0 { StepsOfZero(n - 1); }
  }

  lemma {:induction false} PlusZero(x: bv32)
    ensures Plus(0, x) == x
  {}

  /** A byte lifted `k` places comes down in `8 * k` steps. */
  lemma {:induction false} LiftSteps(b: byte, k: nat)
    requires k <= 3
    ensures Steps(Lift(b, k), 8 * k) == Word(b)
    decreases k
  {
    hide Step, Plus, LowByte, DropByte, Lift, Word;
    NoLift(b);
    if k > 0 {
      LiftStep(b, k);
      PeelByte(Lift(b, k), 8 * k);
      StepsOfZero(8 * k);
      PlusZero(Steps(Lift(b, k - 1), 8 * (k - 1)));
      LiftSteps(b, k - 1);
    }
  }

  /** A byte mixed in later is the same byte mixed in higher up, earlier. */
  lemma {:induction false} MixEarlier(x: bv32, b: byte, k: nat)
    requires k <= 3
    ensures AddByte(Steps(x, 8 * k), b) == Steps(Plus(x, Lift(b, k)), 8 * k + 8)
  {
    hide Steps, Plus, Word, Lift;
    LiftSteps(b, k);
    StepsLinear(x, Lift(b, k), 8 * k);
    StepsAdd(Plus(x, Lift(b, k)), 8 * k, 8);
  }

  lemma {:induction false} AddOne(c: bv32, done: seq<byte>, b: byte)
    ensures AddBytes(c, done + [b]) == AddByte(AddBytes(c, done), b)
  {
    hide AddByte;
    assert (done + [b])[..|done|] == done;
  }

  /** Four bytes are one little-endian word and 32 steps. */
  lemma {:induction false} FourBytes(c: bv32, data: seq<byte>)
    requires |data| == 4
    ensures AddBytes(c, data) == Steps(Plus(c, U32(data[0], data[1], data[2], data[3])), 32)
  {
    hide Steps, Plus, Word, Lift, AddByte, AddBytes, U32;
    var a, b, d, e := data[0], data[1], data[2], data[3];
    assert [] + [a] == [a] && [a] + [b] == [a, b] && [a, b] + [d] == [a, b, d] && [a, b, d] + [e] == data;
    AddNone(c);
    AddOne(c, [], a);
    AddOne(c, [a], b);
    AddOne(c, [a, b], d);
    AddOne(c, [a, b, d], e);
    NoSteps(c);
    var x0 := Plus(c, Lift(a, 0));
    var x1 := Plus(x0, Lift(b, 1));
    var x2 := Plus(x1, Lift(d, 2));
    MixEarlier(c, a, 0);
    MixEarlier(x0, b, 1);
    MixEarlier(x1, d, 2);
    MixEarlier(x2, e, 3);
    U32Sum(a, b, d, e);
    Regroup(c, Lift(a, 0), Lift(b, 1), Lift(d, 2), Lift(e, 3));
  }

  lemma {:induction false} AddNone(c: bv32)
    ensures AddBytes(c, []) == c
  {}

  lemma {:induction false} NoSteps(c: bv32)
    ensures Steps(c, 0) == c
  {}

  lemma {:induction false} Regroup(x: bv32, a: bv32, b: bv32, c: bv32, d: bv32)
    ensures Plus(x, Plus(Plus(Plus(a, b), c), d)) == Plus(Plus(Plus(Plus(x, a), b), c), d)
  {
    hide Plus;
    PlusAssoc(x, Plus(Plus(a, b), c), d);
    PlusAssoc(x, Plus(a, b), c);
    PlusAssoc(x, a, b);
  }

  // ----- Sixteen bytes at a time -----

  /** Four table entries: the bytes of `w`, followed by `m` zero bytes after the last. */
  function Lookup(table: seq<seq<bv32>>, w: bv32, m: nat): bv32
    requires |table| == SLICE && (forall k :: 0 <= k < SLICE ==> |table[k]| == 256) && m + 3 < SLICE
  {
    Plus(Plus(Plus(table[m + 3][Index(Drop(w, 0))], table[m + 2][Index(Drop(w, 1))]),
              table[m + 1][Index(Drop(w, 2))]), table[m][Index(Drop(w, 3))])
  }

  lemma {:induction false} TableRows(table: seq<seq<bv32>>)
    requires TableOk(table)
    ensures |table| == SLICE && forall k :: 0 <= k < SLICE ==> |table[k]| == 256
  {
    assert forall k :: 0 <= k < SLICE ==> RowOk(table[k], k);
  }

  lemma {:induction false} LookupSteps(table: seq<seq<bv32>>, w: bv32, m: nat)
    requires TableOk(table) && m + 3 < SLICE
    ensures |table| == SLICE && (forall k :: 0 <= k < SLICE ==> |table[k]| == 256)
    ensures Lookup(table, w, m) == Steps(w, 8 * m + 32)
  {
    hide Steps, Plus, LowByte, DropByte, Drop, Index, RowOk;
    TableRows(table);
    var n := 8 * m + 32;
    RowAt(table[m + 3], m + 3, Drop(w, 0));
    RowAt(table[m + 2], m + 2, Drop(w, 1));
    RowAt(table[m + 1], m + 1, Drop(w, 2));
    RowAt(table[m], m, Drop(w, 3));
    DropLast(w);
    DropNext(w);
    PeelByte(w, n);
    PeelByte(Drop(w, 1), n - 8);
    PeelByte(Drop(w, 2), n - 16);
    var a, b, c, d := Steps(LowByte(w), n), Steps(LowByte(Drop(w, 1)), n - 8), Steps(LowByte(Drop(w, 2)), n - 16),
        Steps(Drop(w, 3), n - 24);
    PlusAssoc(a, b, Plus(c, d));
    PlusAssoc(Plus(a, b), c, d);
  }

  function WordAt(data: seq<byte>, i: nat): bv32
    requires i + 4 <= |data|
  {
    U32(data[i], data[i + 1], data[i + 2], data[i + 3])
  }

  lemma {:induction false} NextWord(c: bv32, data: seq<byte>, i: nat)
    requires i + 4 <= |data|
    ensures AddBytes(c, data[..i + 4]) == Steps(Plus(AddBytes(c, data[..i]), WordAt(data, i)), 32)
  {
    hide AddBytes, Steps, Plus, U32;
    assert data[..i + 4] == data[..i] + data[i..i + 4];
    AddBytesConcat(c, data[..i], data[i..i + 4]);
    FourBytes(AddBytes(c, data[..i]), data[i..i + 4]);
  }

  /** Mixing a later word in front of the steps that come before it. */
  lemma {:induction false} StepsThen(x: bv32, w: bv32, n: nat)
    ensures Steps(Plus(Steps(x, 32), w), n) == Plus(Steps(x, n + 32), Steps(w, n))
  {
    hide Steps, Plus;
    StepsLinear(Steps(x, 32), w, n);
    StepsAdd(x, 32, n);
  }

  /** Sixteen bytes are four words, each with its share of the 128 steps. */
  lemma {:induction false} SixteenBytes(c: bv32, data: seq<byte>, i: nat)
    requires i + 16 <= |data|
    ensures AddBytes(c, data[..i + 16])
            == Plus(Plus(Plus(Steps(Plus(AddBytes(c, data[..i]), WordAt(data, i)), 128),
                              Steps(WordAt(data, i + 4), 96)),
                         Steps(WordAt(data, i + 8), 64)),
                    Steps(WordAt(data, i + 12), 32))
  {
    hide AddBytes, Steps, Plus, WordAt;
    NextWord(c, data, i);
    NextWord(c, data, i + 4);
    NextWord(c, data, i + 8);
    NextWord(c, data, i + 12);
    var x0 := Plus(AddBytes(c, data[..i]), WordAt(data, i));
    var w1, w2, w3 := WordAt(data, i + 4), WordAt(data, i + 8), WordAt(data, i + 12);
    var x1 := Plus(Steps(x0, 32), w1);
    var x2 := Plus(Steps(x1, 32), w2);
    StepsThen(x2, w3, 32);
    StepsThen(x1, w2, 64);
    StepsThen(x0, w1, 96);
    assert Steps(x2, 64) == Plus(Steps(x1, 96), Steps(w2, 64));
    assert Steps(x1, 96) == Plus(Steps(x0, 128), Steps(w1, 96));
    assert AddBytes(c, data[..i + 16]) == Plus(Steps(x2, 64), Steps(w3, 32)) by { StepsLast(x2, w3); }
  }

  lemma {:induction false} StepsLast(x: bv32, w: bv32)
    ensures Steps(Plus(Steps(x, 32), w), 32) == Plus(Steps(x, 64), Steps(w, 32))
  {
    hide Steps, Plus;
    StepsThen(x, w, 32);
  }

  // ----- The checksum object -----

  class Crc32 {
    /** The register, kept inverted. */
    var state: bv32
    const table: seq<seq<bv32>>

    /** Everything added. */
    ghost var seen: seq<byte>

    ghost predicate Valid()
      reads this
    {
      TableOk(table) && state == AddBytes(0xFFFF_FFFF, seen)
    }

    constructor ()
      ensures Valid() && seen == []
    {
      state := 0xFFFF_FFFF;
      seen := [];
      var made := MakeTable();
      table := made;
    }

    /** Sixteen bytes per turn, then the rest one by one: for every length and every split into updates
        the register is the bit-by-bit one. */
    method Update(data: seq<byte>)
      requires Valid()
      modifies this
      ensures Valid() && seen == old(seen) + data
    {
      hide AddBytes, Steps, Plus, TableOk, Lookup, WordAt, AddByte, Index, DropByte;
      var crc := state;
      var i := 0;
      TableRows(table);
      AddNone(state);
      assert data[..0] == [];
      while i + SLICE <= |data|
        invariant i <= |data| && Valid() && seen == old(seen) && state == old(state)
            && crc == AddBytes(state, data[..i])
      {
        SixteenBytes(state, data, i);
        var w0 := Plus(WordAt(data, i), crc);
        var w1, w2, w3 := WordAt(data, i + 4), WordAt(data, i + 8), WordAt(data, i + 12);
        PlusSwap(WordAt(data, i), crc);
        LookupSteps(table, w0, 12);
        LookupSteps(table, w1, 8);
        LookupSteps(table, w2, 4);
        LookupSteps(table, w3, 0);
        crc := Plus(Plus(Plus(Lookup(table, w0, 12), Lookup(table, w1, 8)), Lookup(table, w2, 4)),
                    Lookup(table, w3, 0));
        i := i + SLICE;
      }
      while i < |data|
        invariant i <= |data| && Valid() && seen == old(seen) && state == old(state)
            && crc == AddBytes(state, data[..i])
      {
        ByteByTable(table, crc, data[i]);
        AddOne(state, data[..i], data[i]);
        assert data[..i] + [data[i]] == data[..i + 1];
        crc := Plus(DropByte(crc), table[0][Index(Plus(crc, Word(data[i])))]);
        i := i + 1;
      }
      assert data[..|data|] == data;
      AddBytesConcat(0xFFFF_FFFF, seen, data);
      state := crc;
      seen := seen + data;
    }

    function Value(): (v: bv32)
      requires Valid()
      reads this
      ensures v == Checksum(seen)
    {
      !state
    }
  }

  lemma {:induction false} HighSame(c: bv32, w: bv32)
    requires w <= 0xFF
    ensures DropByte(Plus(c, w)) == DropByte(c)
  {}

  /** One byte by table. */
  lemma {:induction false} ByteByTable(table: seq<seq<bv32>>, c: bv32, b: byte)
    requires TableOk(table)
    ensures |table| == SLICE && |table[0]| == 256
    ensures Plus(DropByte(c), table[0][Index(Plus(c, Word(b)))]) == AddByte(c, b)
  {
    hide Steps, Plus, LowByte, DropByte, Word, Index, RowOk;
    assert RowOk(table[0], 0);
    RowAt(table[0], 0, Plus(c, Word(b)));
    WordSmall(b);
    HighSame(c, Word(b));
    DropIsSteps(Plus(c, Word(b)));
  }
}
