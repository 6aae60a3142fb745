/** Run-length coding of the code lengths in a dynamic block header (section 3.2.7 of RFC 1951;
    `build_bitwidth_codes` in src/encode.rs).

    The literal/length and distance code lengths are coded as one sequence, so runs may cross from one
    to the other.  Expanding the codes the way the decoder does gives back exactly those lengths. */
module RunLengths {
  import opened Bits
  import opened Huffman
  import I = Inflate

  datatype RunLength = RunLength(value: nat, count: nat)

  /** A code-length symbol and the extra bits that follow it. */
  datatype WidthCode = WidthCode(code: nat, extraBits: nat, extra: nat)

  // ----- Runs -----

  /** One more width: it extends the last run or starts a new one. */
  function AddWidth(runs: seq<RunLength>, width: nat): seq<RunLength> {
    if runs != [] && runs[|runs| - 1].value == width then
      runs[..|runs| - 1] + [RunLength(width, runs[|runs| - 1].count + 1)]
    else
      runs + [RunLength(width, 1)]
  }

  ghost function Runs(widths: seq<nat>): seq<RunLength> {
    if widths == [] then [] else AddWidth(Runs(widths[..|widths| - 1]), widths[|widths| - 1])
  }

  ghost function Plain(value: nat, count: nat): (codes: seq<WidthCode>)
    ensures |codes| == count && forall i :: 0 <= i < count ==> codes[i] == WidthCode(value, 0, 0)
  {
    if count == 0 then [] else [WidthCode(value, 0, 0)] + Plain(value, count - 1)
  }

  ghost function ZeroCodes(count: nat): seq<WidthCode> {
    if count >= 11 then
      [WidthCode(18, 7, Min(138, count) - 11)] + ZeroCodes(count - Min(138, count))
    else if count >= 3 then [WidthCode(17, 3, count - 3)]
    else Plain(0, count)
  }

  ghost function RepeatCodes(value: nat, count: nat): seq<WidthCode> {
    if count >= 3 then [WidthCode(16, 2, Min(6, count) - 3)] + RepeatCodes(value, count - Min(6, count))
    else Plain(value, count)
  }

  ghost function RunCodes(run: RunLength): seq<WidthCode>
    requires run.count >= 1
  {
    if run.value == 0 then ZeroCodes(run.count)
    else [WidthCode(run.value, 0, 0)] + RepeatCodes(run.value, run.count - 1)
  }

  ghost predicate NonEmpty(runs: seq<RunLength>) {
    forall i :: 0 <= i < |runs| ==> runs[i].count >= 1
  }

  ghost function AllCodes(runs: seq<RunLength>): seq<WidthCode>
    requires NonEmpty(runs)
  {
    if runs == [] then [] else AllCodes(runs[..|runs| - 1]) + RunCodes(runs[|runs| - 1])
  }

  lemma {:induction false} RunsNonEmpty(widths: seq<nat>)
    ensures NonEmpty(Runs(widths))
  {
    if widths != [] { RunsNonEmpty(widths[..|widths| - 1]); }
  }

  /** The codes sent for a sequence of widths. */
  ghost function WidthCodes(widths: seq<nat>): seq<WidthCode> {
    RunsNonEmpty(widths);
    AllCodes(Runs(widths))
  }

  // ----- What the codes mean -----

  /** The widths one code adds after `sofar`; symbol 16 needs a width to repeat. */
  ghost function Piece(c: WidthCode, sofar: seq<nat>): seq<nat> {
    if c.code <= 15 then [c.code]
    else if c.code == 16 then if sofar == [] then [] else I.Repeat(sofar[|sofar| - 1], c.extra + 3)
    else if c.code == 17 then I.Repeat(0, c.extra + 3)
    else I.Repeat(0, c.extra + 11)
  }

  ghost function Unpack(codes: seq<WidthCode>, sofar: seq<nat>): seq<nat>
    decreases |codes|
  {
    if codes == [] then sofar else Unpack(codes[1..], sofar + Piece(codes[0], sofar))
  }

  /** The code fits its field and can be read after `sofar`. */
  ghost predicate Readable(c: WidthCode, sofar: seq<nat>) {
    c.code < 19 && c.extra < Pow2(c.extraBits) && (c.code == 16 ==> sofar != [])
    && c.extraBits == if c.code == 16 then 2 else if c.code == 17 then 3 else if c.code == 18 then 7 else 0
  }

  ghost predicate AllReadable(codes: seq<WidthCode>, sofar: seq<nat>)
    decreases |codes|
  {
    codes == [] || (Readable(codes[0], sofar) && AllReadable(codes[1..], sofar + Piece(codes[0], sofar)))
  }

  /** `codes` are read after `sofar` and add exactly `more`. */
  ghost predicate Adds(codes: seq<WidthCode>, sofar: seq<nat>, more: seq<nat>) {
    AllReadable(codes, sofar) && Unpack(codes, sofar) == sofar + more
  }

  lemma {:induction false} AddsConcat(a: seq<WidthCode>, b: seq<WidthCode>, sofar: seq<nat>)
    requires AllReadable(a, sofar) && AllReadable(b, Unpack(a, sofar))
    ensures AllReadable(a + b, sofar) && Unpack(a + b, sofar) == Unpack(b, Unpack(a, sofar))
    decreases |a|
  {
    if a == [] {
      assert a + b == b;
    } else {
      assert (a + b)[1..] == a[1..] + b;
      AddsConcat(a[1..], b, sofar + Piece(a[0], sofar));
    }
  }

  lemma {:induction false} AddsThen(a: seq<WidthCode>, b: seq<WidthCode>, sofar: seq<nat>, x: seq<nat>, y: seq<nat>)
    requires Adds(a, sofar, x) && Adds(b, sofar + x, y)
    ensures Adds(a + b, sofar, x + y)
  {
    hide AllReadable, Unpack;
    AddsConcat(a, b, sofar);
    assert (sofar + x) + y == sofar + (x + y) by { SumAssoc(sofar, x, y); }
  }

  lemma {:induction false} SumAssoc(a: seq<nat>, b: seq<nat>, c: seq<nat>)
    ensures (a + b) + c == a + (b + c)
  {}

  lemma {:induction false} AddsOne(c: WidthCode, sofar: seq<nat>)
    requires Readable(c, sofar)
    ensures Adds([c], sofar, Piece(c, sofar))
  {
    assert [c][1..] == [];
  }

  lemma {:induction false} PlainAdds(value: nat, count: nat, sofar: seq<nat>)
    requires value <= 15
    ensures Adds(Plain(value, count), sofar, I.Repeat(value, count))
    decreases count
  {
    if count > 0 {
      AddsOne(WidthCode(value, 0, 0), sofar);
      PlainAdds(value, count - 1, sofar + [value]);
      AddsThen([WidthCode(value, 0, 0)], Plain(value, count - 1), sofar, [value], I.Repeat(value, count - 1));
    } else {
      assert sofar + [] == sofar;
    }
  }

  lemma {:induction false} RepeatSum(v: nat, a: nat, b: nat)
    ensures I.Repeat(v, a) + I.Repeat(v, b) == I.Repeat(v, a + b)
  {}

  lemma {:induction false} ZeroAdds(count: nat, sofar: seq<nat>)
    ensures Adds(ZeroCodes(count), sofar, I.Repeat(0, count))
    decreases count
  {
    hide Adds, I.Repeat;
    Pow2Values();
    if count >= 11 {
      var amount := Min(138, count);
      var c := WidthCode(18, 7, amount - 11);
      AddsOne(c, sofar);
      ZeroAdds(count - amount, sofar + I.Repeat(0, amount));
      AddsThen([c], ZeroCodes(count - amount), sofar, I.Repeat(0, amount), I.Repeat(0, count - amount));
      RepeatSum(0, amount, count - amount);
    } else if count >= 3 {
      AddsOne(WidthCode(17, 3, count - 3), sofar);
    } else {
      PlainAdds(0, count, sofar);
    }
  }

  lemma {:induction false} RepeatAdds(value: nat, count: nat, sofar: seq<nat>)
    requires value <= 15 && sofar != [] && sofar[|sofar| - 1] == value
    ensures Adds(RepeatCodes(value, count), sofar, I.Repeat(value, count))
    decreases count
  {
    hide Adds;
    Pow2Values();
    if count >= 3 {
      var amount := Min(6, count);
      var c := WidthCode(16, 2, amount - 3);
      AddsOne(c, sofar);
      RepeatAdds(value, count - amount, sofar + I.Repeat(value, amount));
      AddsThen([c], RepeatCodes(value, count - amount), sofar, I.Repeat(value, amount),
               I.Repeat(value, count - amount));
      RepeatSum(value, amount, count - amount);
    } else {
      PlainAdds(value, count, sofar);
    }
  }

  lemma {:induction false} RunAdds(run: RunLength, sofar: seq<nat>)
    requires run.value <= 15 && run.count >= 1
    ensures Adds(RunCodes(run), sofar, I.Repeat(run.value, run.count))
  {
    hide Adds;
    if run.value == 0 {
      ZeroAdds(run.count, sofar);
    } else {
      var c := WidthCode(run.value, 0, 0);
      AddsOne(c, sofar);
      RepeatAdds(run.value, run.count - 1, sofar + [run.value]);
      AddsThen([c], RepeatCodes(run.value, run.count - 1), sofar, [run.value], I.Repeat(run.value, run.count - 1));
    }
  }

  /** The widths a list of runs stands for. */
  ghost function Spread(runs: seq<RunLength>): seq<nat> {
    if runs == [] then [] else Spread(runs[..|runs| - 1]) + I.Repeat(runs[|runs| - 1].value, runs[|runs| - 1].count)
  }

  ghost predicate ValuesOk(runs: seq<RunLength>) {
    forall i :: 0 <= i < |runs| ==> runs[i].value <= 15
  }

  lemma {:induction false} NothingSpread()
    ensures Spread([]) == [] && ValuesOk([])
  {}

  lemma {:induction false} ValuesAdd(runs: seq<RunLength>, w: nat)
    requires ValuesOk(runs) && w <= 15
    ensures ValuesOk(AddWidth(runs, w))
  {}

  lemma {:induction false} RunsSpread(widths: seq<nat>)
    requires forall i :: 0 <= i < |widths| ==> widths[i] <= 15
    ensures Spread(Runs(widths)) == widths && ValuesOk(Runs(widths))
  {
    hide Spread, AddWidth, ValuesOk;
    if widths == [] {
      NothingSpread();
    } else {
      var front, w := widths[..|widths| - 1], widths[|widths| - 1];
      RunsSpread(front);
      SpreadAdd(Runs(front), w);
      ValuesAdd(Runs(front), w);
      assert widths == front + [w];
    }
  }

  lemma {:induction false} SpreadAdd(runs: seq<RunLength>, w: nat)
    ensures Spread(AddWidth(runs, w)) == Spread(runs) + [w]
  {
    var r := AddWidth(runs, w);
    if runs != [] && runs[|runs| - 1].value == w {
      assert r[..|r| - 1] == runs[..|runs| - 1];
      RepeatSum(w, runs[|runs| - 1].count, 1);
      assert I.Repeat(w, 1) == [w];
    } else {
      assert r[..|r| - 1] == runs;
      assert I.Repeat(w, 1) == [w];
    }
  }

  lemma {:induction false} AllAdds(runs: seq<RunLength>)
    requires NonEmpty(runs) && ValuesOk(runs)
    ensures Adds(AllCodes(runs), [], Spread(runs))
  {
    hide RunCodes, I.Repeat;
    if runs != [] {
      var front, last := runs[..|runs| - 1], runs[|runs| - 1];
      AllAdds(front);
      RunAdds(last, [] + Spread(front));
      AddsThen(AllCodes(front), RunCodes(last), [], Spread(front), I.Repeat(last.value, last.count));
    }
  }

  /** Expanding the codes restores the widths, whatever the widths are. */
  lemma {:induction false} WidthCodesRoundTrip(widths: seq<nat>)
    requires forall i :: 0 <= i < |widths| ==> widths[i] <= 15
    ensures AllReadable(WidthCodes(widths), []) && Unpack(WidthCodes(widths), []) == widths
  {
    RunsNonEmpty(widths);
    RunsSpread(widths);
    AllAdds(Runs(widths));
    assert [] + widths == widths;
  }

  // ----- The loops -----

  /** The widths of the first `n` symbols of an encoder. */
  ghost function WidthsTo(e: HuffmanEncoder, n: nat): (w: seq<nat>)
    ensures |w| == n && forall i :: 0 <= i < n ==> w[i] == e.CodeWidth(i)
  {
    if n == 0 then [] else WidthsTo(e, n - 1) + [e.CodeWidth(n - 1)]
  }

  method CollectRuns(literal: HuffmanEncoder, literalCount: nat, distance: HuffmanEncoder, distanceCount: nat)
    returns (runs: seq<RunLength>)
    ensures runs == Runs(WidthsTo(literal, literalCount) + WidthsTo(distance, distanceCount))
  {
    hide AddWidth, WidthsTo;
    runs := [];
    ghost var lit := WidthsTo(literal, literalCount);
    ghost var all := lit + WidthsTo(distance, distanceCount);
    assert all[..0] == [];
    for symbol := 0 to literalCount
      invariant runs == Runs(all[..symbol])
    {
      assert all[..symbol + 1] == all[..symbol] + [literal.CodeWidth(symbol)];
      runs := AddWidth(runs, literal.CodeWidth(symbol));
    }
    for symbol := 0 to distanceCount
      invariant runs == Runs(all[..literalCount + symbol])
    {
      assert all[..literalCount + symbol + 1] == all[..literalCount + symbol] + [distance.CodeWidth(symbol)];
      runs := AddWidth(runs, distance.CodeWidth(symbol));
    }
    assert all[..literalCount + distanceCount] == all;
  }

  method PushPlain(codes: seq<WidthCode>, value: nat, count: nat) returns (r: seq<WidthCode>)
    ensures r == codes + Plain(value, count)
  {
    r := codes;
    for i := 0 to count
      invariant r == codes + Plain(value, i)
    {
      r := r + [WidthCode(value, 0, 0)];
    }
  }

  method PushRun(codes: seq<WidthCode>, run: RunLength) returns (r: seq<WidthCode>)
    requires run.count >= 1
    ensures r == codes + RunCodes(run)
  {
    hide Plain;
    if run.value == 0 {
      var count: nat := run.count;
      r := codes;
      while count >= 11
        invariant r + ZeroCodes(count) == codes + ZeroCodes(run.count)
      {
        var amount := Min(138, count);
        ghost var before := r;
        r := r + [WidthCode(18, 7, amount - 11)];
        assert before + ([WidthCode(18, 7, amount - 11)] + ZeroCodes(count - amount)) == r + ZeroCodes(count - amount);
        count := count - amount;
      }
      if count >= 3 {
        r := r + [WidthCode(17, 3, count - 3)];
      } else {
        r := PushPlain(r, 0, count);
      }
    } else {
      var count: nat := run.count - 1;
      r := codes + [WidthCode(run.value, 0, 0)];
      assert r + RepeatCodes(run.value, count)
          == codes + ([WidthCode(run.value, 0, 0)] + RepeatCodes(run.value, count));
      while count >= 3
        invariant r + RepeatCodes(run.value, count) == codes + RunCodes(run)
      {
        var amount := Min(6, count);
        ghost var before := r;
        r := r + [WidthCode(16, 2, amount - 3)];
        assert before + ([WidthCode(16, 2, amount - 3)] + RepeatCodes(run.value, count - amount))
            == r + RepeatCodes(run.value, count - amount);
        count := count - amount;
      }
      r := PushPlain(r, run.value, count);
    }
  }

  method BuildBitwidthCodes(literal: HuffmanEncoder, literalCount: nat, distance: HuffmanEncoder, distanceCount: nat)
    returns (codes: seq<WidthCode>)
    ensures codes == WidthCodes(WidthsTo(literal, literalCount) + WidthsTo(distance, distanceCount))
  {
    hide RunCodes, WidthsTo, Runs;
    var runs := CollectRuns(literal, literalCount, distance, distanceCount);
    RunsNonEmpty(WidthsTo(literal, literalCount) + WidthsTo(distance, distanceCount));
    codes := [];
    for i := 0 to |runs|
      invariant codes == AllCodes(runs[..i])
    {
      codes := PushRun(codes, runs[i]);
      assert runs[..i + 1] == runs[..i] + [runs[i]];
    }
    assert runs[..|runs|] == runs;
  }

  // ----- Runs are sent as runs -----

  /** How far the value at `p` goes on. */
  ghost function RunAt(widths: seq<nat>, p: nat): (r: nat)
    requires p < |widths|
    ensures 1 <= r <= |widths| - p
    decreases |widths| - p
  {
    if p + 1 < |widths| && widths[p + 1] == widths[p] then 1 + RunAt(widths, p + 1) else 1
  }

  /** The code that stands at width `p`: the one that covers the most of what is left of the run.  A plain code
      stands only at the front of a run of a non-zero value, or where fewer than three widths are left. */
  ghost predicate Taut(widths: seq<nat>, p: nat, c: WidthCode) {
    p < |widths| &&
    var value, left := widths[p], RunAt(widths, p);
    if value == 0 then
      if left >= 11 then c == WidthCode(18, 7, (if left <= 138 then left else 138) - 11)
      else if left >= 3 then c == WidthCode(17, 3, left - 3)
      else c == WidthCode(0, 0, 0)
    else if p > 0 && widths[p - 1] == value && left >= 3 then c == WidthCode(16, 2, (if left <= 6 then left else 6) - 3)
    else c == WidthCode(value, 0, 0)
  }

  /** How many widths a code stands for. */
  ghost function Span(c: WidthCode): nat {
    if c.code <= 15 then 1 else if c.code == 18 then c.extra + 11 else c.extra + 3
  }

  ghost function Spans(codes: seq<WidthCode>): nat
    decreases |codes|
  {
    if codes == [] then 0 else Span(codes[0]) + Spans(codes[1..])
  }

  ghost predicate AllTaut(widths: seq<nat>, p: nat, codes: seq<WidthCode>)
    decreases |codes|
  {
    codes == [] || (Taut(widths, p, codes[0]) && AllTaut(widths, p + Span(codes[0]), codes[1..]))
  }

  lemma {:induction false} TautConcat(widths: seq<nat>, p: nat, a: seq<WidthCode>, b: seq<WidthCode>)
    requires AllTaut(widths, p, a) && AllTaut(widths, p + Spans(a), b)
    ensures AllTaut(widths, p, a + b) && Spans(a + b) == Spans(a) + Spans(b)
    decreases |a|
  {
    hide Taut;
    if a == [] {
      assert a + b == b;
    } else {
      assert (a + b)[1..] == a[1..] + b;
      TautConcat(widths, p + Span(a[0]), a[1..], b);
    }
  }

  lemma {:induction false} RunLeft(widths: seq<nat>, p: nat, k: nat)
    requires p < |widths| && k < RunAt(widths, p)
    ensures p + k < |widths| && widths[p + k] == widths[p] && RunAt(widths, p + k) == RunAt(widths, p) - k
    ensures k > 0 ==> widths[p + k - 1] == widths[p]
    decreases k
  {
    if k > 0 { RunLeft(widths, p + 1, k - 1); }
  }

  lemma {:induction false} OneTaut(widths: seq<nat>, p: nat, c: WidthCode, rest: seq<WidthCode>, n: nat)
    requires Taut(widths, p, c) && AllTaut(widths, p + Span(c), rest) && Span(c) + Spans(rest) == n
    ensures AllTaut(widths, p, [c] + rest) && Spans([c] + rest) == n
  {
    hide Taut;
    assert ([c] + rest)[1..] == rest;
  }

  lemma {:induction false} PlainTaut(widths: seq<nat>, p: nat, value: nat, count: nat)
    requires value <= 15 && count < 3 && p + count <= |widths|
    requires count > 0 ==> widths[p] == value && RunAt(widths, p) == count
    requires count > 0 && value != 0 ==> p > 0 && widths[p - 1] == value
    ensures AllTaut(widths, p, Plain(value, count)) && Spans(Plain(value, count)) == count
    decreases count
  {
    if count > 0 {
      if count > 1 { RunLeft(widths, p, 1); }
      PlainTaut(widths, p + 1, value, count - 1);
      OneTaut(widths, p, WidthCode(value, 0, 0), Plain(value, count - 1), count);
    }
  }

  lemma {:induction false} ZeroTaut(widths: seq<nat>, p: nat, count: nat)
    requires p + count <= |widths| && (count > 0 ==> widths[p] == 0 && RunAt(widths, p) == count)
    ensures AllTaut(widths, p, ZeroCodes(count)) && Spans(ZeroCodes(count)) == count
    decreases count
  {
    if count >= 11 {
      var n := Min(138, count);
      if n < count { RunLeft(widths, p, n); }
      ZeroTaut(widths, p + n, count - n);
      OneTaut(widths, p, WidthCode(18, 7, n - 11), ZeroCodes(count - n), count);
    } else if count >= 3 {
      OneTaut(widths, p, WidthCode(17, 3, count - 3), [], count);
      assert [WidthCode(17, 3, count - 3)] + [] == [WidthCode(17, 3, count - 3)];
    } else {
      PlainTaut(widths, p, 0, count);
    }
  }

  lemma {:induction false} RepeatTaut(widths: seq<nat>, p: nat, value: nat, count: nat)
    requires 1 <= value <= 15 && 0 < p && p + count <= |widths| && widths[p - 1] == value
    requires count > 0 ==> widths[p] == value && RunAt(widths, p) == count
    ensures AllTaut(widths, p, RepeatCodes(value, count)) && Spans(RepeatCodes(value, count)) == count
    decreases count
  {
    if count >= 3 {
      var n := Min(6, count);
      RunLeft(widths, p, n - 1);
      if n < count { RunLeft(widths, p, n); }
      RepeatTaut(widths, p + n, value, count - n);
      OneTaut(widths, p, WidthCode(16, 2, n - 3), RepeatCodes(value, count - n), count);
    } else {
      PlainTaut(widths, p, value, count);
    }
  }

  /** A whole run of the widths. */
  lemma {:induction false} RunTaut(widths: seq<nat>, p: nat, run: RunLength)
    requires run.count >= 1 && run.value <= 15 && p + run.count <= |widths|
    requires widths[p] == run.value && RunAt(widths, p) == run.count && (p > 0 ==> widths[p - 1] != run.value)
    ensures AllTaut(widths, p, RunCodes(run)) && Spans(RunCodes(run)) == run.count
  {
    if run.value == 0 {
      ZeroTaut(widths, p, run.count);
    } else {
      if run.count > 1 { RunLeft(widths, p, 1); }
      RepeatTaut(widths, p + 1, run.value, run.count - 1);
      OneTaut(widths, p, WidthCode(run.value, 0, 0), RepeatCodes(run.value, run.count - 1), run.count);
    }
  }

  ghost predicate Alternate(runs: seq<RunLength>) {
    forall i :: 0 < i < |runs| ==> runs[i].value != runs[i - 1].value
  }

  lemma {:induction false} RunsAlternate(widths: seq<nat>)
    ensures Alternate(Runs(widths))
  {
    if widths != [] { RunsAlternate(widths[..|widths| - 1]); }
  }

  /** Where run `k` lies in the widths, and what stands around it. */
  lemma {:induction false} RunPlace(runs: seq<RunLength>, k: nat)
    requires k < |runs| && NonEmpty(runs)
    ensures var p, n := |Spread(runs[..k])|, runs[k].count;
            p + n <= |Spread(runs)| && |Spread(runs[..k + 1])| == p + n
            && (forall j :: p <= j < p + n ==> Spread(runs)[j] == runs[k].value)
            && (if k == 0 then p == 0 else p > 0 && Spread(runs)[p - 1] == runs[k - 1].value)
            && (if k + 1 == |runs| then p + n == |Spread(runs)|
                else p + n < |Spread(runs)| && Spread(runs)[p + n] == runs[k + 1].value)
    decreases |runs|
  {
    hide Spread, I.Repeat;
    var front, last := runs[..|runs| - 1], runs[|runs| - 1];
    SpreadLast(runs);
    if k < |runs| - 1 {
      assert front[..k] == runs[..k] && front[..k + 1] == runs[..k + 1];
      RunPlace(front, k);
    } else {
      assert runs[..k] == front && runs[..k + 1] == runs;
      if k > 0 {
        RunPlace(front, k - 1);
        assert front[..k] == front;
      } else {
        NothingSpread();
      }
    }
  }

  lemma {:induction false} SpreadLast(runs: seq<RunLength>)
    requires runs != []
    ensures var front, last := runs[..|runs| - 1], runs[|runs| - 1];
            |Spread(runs)| == |Spread(front)| + last.count
            && (forall j :: 0 <= j < |Spread(front)| ==> Spread(runs)[j] == Spread(front)[j])
            && (forall j :: |Spread(front)| <= j < |Spread(runs)| ==> Spread(runs)[j] == last.value)
  {}

  lemma {:induction false} RunAtIs(widths: seq<nat>, p: nat, n: nat)
    requires 1 <= n && p + n <= |widths| && (forall j :: p <= j < p + n ==> widths[j] == widths[p])
    requires p + n < |widths| ==> widths[p + n] != widths[p]
    ensures RunAt(widths, p) == n
    decreases n
  {
    if n > 1 { RunAtIs(widths, p + 1, n - 1); }
  }

  lemma {:induction false} RunsTaut(runs: seq<RunLength>, k: nat)
    requires k <= |runs| && NonEmpty(runs) && Alternate(runs) && ValuesOk(runs)
    ensures AllTaut(Spread(runs), 0, AllCodes(runs[..k])) && Spans(AllCodes(runs[..k])) == |Spread(runs[..k])|
    decreases k
  {
    hide Taut, RunAt, RunCodes;
    if k > 0 {
      var widths, run, front := Spread(runs), runs[k - 1], runs[..k - 1];
      assert runs[..k][..k - 1] == front;
      RunsTaut(runs, k - 1);
      RunPlace(runs, k - 1);
      var p := |Spread(front)|;
      RunAtIs(widths, p, run.count);
      RunTaut(widths, p, run);
      TautConcat(widths, 0, AllCodes(front), RunCodes(run));
    } else {
      assert runs[..0] == [];
    }
  }

  /** The codes sent for any widths are taut throughout, and cover all of them. */
  lemma {:induction false} WidthCodesTaut(widths: seq<nat>)
    requires forall i :: 0 <= i < |widths| ==> widths[i] <= 15
    ensures AllTaut(widths, 0, WidthCodes(widths)) && Spans(WidthCodes(widths)) == |widths|
  {
    hide AllTaut, Spans, Spread, Runs, AllCodes, ValuesOk, Alternate;
    var runs := Runs(widths);
    RunsNonEmpty(widths);
    RunsSpread(widths);
    RunsAlternate(widths);
    RunsTaut(runs, |runs|);
    assert runs[..|runs|] == runs;
  }

  /** No other codes are. */
  lemma {:induction false} TautUnique(widths: seq<nat>, p: nat, a: seq<WidthCode>, b: seq<WidthCode>)
    requires AllTaut(widths, p, a) && AllTaut(widths, p, b) && p + Spans(a) == |widths| == p + Spans(b)
    ensures a == b
    decreases |a|
  {
    if a != [] && b != [] {
      TautUnique(widths, p + Span(a[0]), a[1..], b[1..]);
      assert a == [a[0]] + a[1..] && b == [b[0]] + b[1..];
    }
  }
}
