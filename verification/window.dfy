/** Back-references: the overlapping copy and the bounded window (src/decode.rs). */
module Window {
  import opened Bits
  import opened Errors

  /** Copy `length` bytes one at a time from `distance` back; the source may run into bytes that
      this very copy produces (section 3.2.3 of RFC 1951). */
  function CopyBytewise(out: seq<byte>, distance: nat, length: nat): (r: seq<byte>)
    requires 1 <= distance <= |out|
    ensures |r| == |out| + length && out <= r
    decreases length
  {
    if length == 0 then out
    else CopyBytewise(out + [out[|out| - distance]], distance, length - 1)
  }

  /** The result repeats with period `distance` from `|out| - distance` on ... */
  lemma {:induction false} CopyPeriodic(out: seq<byte>, distance: nat, length: nat, k: nat)
    requires 1 <= distance <= |out| && |out| <= k < |out| + length
    ensures CopyBytewise(out, distance, length)[k] == CopyBytewise(out, distance, length)[k - distance]
    decreases length
  {
    var out' := out + [out[|out| - distance]];
    if k == |out| {
      var r := CopyBytewise(out, distance, length);
      assert r == CopyBytewise(out', distance, length - 1);
      assert r[k] == out'[k] && r[k - distance] == out[k - distance];
    } else {
      CopyPeriodic(out', distance, length - 1, k);
    }
  }

  ghost predicate IsMultiple(d: nat, n: nat) {
    d > 0 && (n == 0 || (n >= d && IsMultiple(d, n - d)))
  }

  lemma {:induction false} MultiplesAdd(d: nat, m: nat, n: nat)
    requires IsMultiple(d, m) && IsMultiple(d, n)
    ensures IsMultiple(d, m + n)
  {
    if m > 0 { MultiplesAdd(d, m - d, n); }
  }

  /** ... so also with any multiple of it. */
  lemma {:induction false} CopyMultiple(out: seq<byte>, distance: nat, length: nat, k: nat, period: nat)
    requires 1 <= distance <= |out| && k < |out| + length
    requires IsMultiple(distance, period) && period <= k && |out| - distance <= k - period
    ensures CopyBytewise(out, distance, length)[k] == CopyBytewise(out, distance, length)[k - period]
    decreases period
  {
    hide CopyBytewise;
    if period > 0 {
      CopyMultiple(out, distance, length, k, period - distance);
      CopyPeriodic(out, distance, length, k - (period - distance));
    }
  }

  /** A shorter copy is a prefix of a longer one. */
  lemma {:induction false} CopyPrefix(out: seq<byte>, distance: nat, a: nat, b: nat)
    requires 1 <= distance <= |out| && a <= b
    ensures CopyBytewise(out, distance, a) == CopyBytewise(out, distance, b)[..|out| + a]
    decreases a
  {
    if a > 0 {
      CopyPrefix(out + [out[|out| - distance]], distance, a - 1, b - 1);
    } else {
      assert out == CopyBytewise(out, distance, b)[..|out|];
    }
  }

  /** Taking `take` bytes starting a multiple of `distance` behind the end of a partial copy extends it. */
  lemma {:induction false} ChunkIsCopy(out: seq<byte>, distance: nat, emitted: nat, take: nat)
    requires 1 <= distance <= |out| && IsMultiple(distance, distance + emitted) && take <= distance + emitted
    ensures var sofar := CopyBytewise(out, distance, emitted);
            sofar + sofar[|out| - distance..|out| - distance + take] == CopyBytewise(out, distance, emitted + take)
  {
    hide CopyBytewise, IsMultiple;
    var sofar, all := CopyBytewise(out, distance, emitted), CopyBytewise(out, distance, emitted + take);
    CopyPrefix(out, distance, emitted, emitted + take);
    forall k | |sofar| <= k < |all|
      ensures all[k] == sofar[k - (distance + emitted)]
    {
      CopyMultiple(out, distance, emitted + take, k, distance + emitted);
    }
    var r := sofar + sofar[|out| - distance..|out| - distance + take];
    assert |r| == |all|;
    forall k | 0 <= k < |all| ensures r[k] == all[k] {
      if k >= |sofar| {
        assert r[k] == sofar[k - |sofar| + (|out| - distance)];
      }
    }
  }

  /** `copy_from_distance`: the doubling copy equals the byte-by-byte copy, for every distance and
      length, and the distance check is the only error. */
  method CopyFromDistance(output: seq<byte>, distance: nat, length: nat) returns (r: Result<seq<byte>>)
    ensures r.Ok? <==> 1 <= distance <= |output|
    ensures r.Ok? ==> r.value == CopyBytewise(output, distance, length)
    ensures r.Err? ==> r.error == TooLongBackReference
  {
    if distance == 0 || distance > |output| {
      return Err(TooLongBackReference);
    }
    var start := |output| - distance;
    if distance >= length {
      ChunkIsCopy(output, distance, 0, length);
      return Ok(output + output[start..start + length]);
    }
    var out := DoublingCopy(output, distance, length);
    return Ok(out);
  }

  /** The tail available to copy from is `distance` bytes at first, and doubles each time. */
  method DoublingCopy(output: seq<byte>, distance: nat, length: nat) returns (out: seq<byte>)
    requires 1 <= distance <= |output|
    ensures out == CopyBytewise(output, distance, length)
  {
    hide IsMultiple;
    var emitted := 0;
    out := output;
    OneMultiple(distance);
    while emitted < length
      invariant emitted <= length && out == CopyBytewise(output, distance, emitted)
      invariant emitted < length ==> IsMultiple(distance, distance + emitted)
    {
      var tailLen := distance + emitted;
      var take := if tailLen < length - emitted then tailLen else length - emitted;
      var srcStart := |out| - tailLen;
      ChunkIsCopy(output, distance, emitted, take);
      MultiplesAdd(distance, tailLen, tailLen);
      out := out + out[srcStart..srcStart + take];
      emitted := emitted + take;
    }
  }

  lemma {:induction false} OneMultiple(d: nat)
    requires d > 0
    ensures IsMultiple(d, d)
  {}

  /** Copying within a window is copying within the whole history, as long as the distance stays
      inside the window: dropping a prefix commutes with the copy. */
  lemma {:induction false} WindowCopy(dropped: seq<byte>, window: seq<byte>, distance: nat, length: nat)
    requires 1 <= distance <= |window|
    ensures CopyBytewise(dropped + window, distance, length) == dropped + CopyBytewise(window, distance, length)
    decreases length
  {
    if length > 0 {
      var b := window[|window| - distance];
      assert (dropped + window)[|dropped + window| - distance] == b;
      assert dropped + window + [b] == dropped + (window + [b]);
      WindowCopy(dropped, window + [b], distance, length - 1);
    }
  }
}
