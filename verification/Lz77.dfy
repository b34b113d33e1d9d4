/**
 The Brotli output buffer: a growing byte vector in place of the circular
 window of section 9.1 of RFC 7932.
 */
module Lz77 {
  import opened Bytes

  datatype RingError =
    | ZeroDistance
    | DistanceExceedsOutput(distance: nat, outputLen: nat)

  /** The byte `d` places before the write position; zero before the stream. */
  function Back(out: seq<byte>, d: nat): byte
    requires d >= 1
  {
    if d <= |out| then out[|out| - d] else 0
  }

  /** The output after copying `n` bytes from `d` places back, one at a time. */
  function Copied(out: seq<byte>, d: nat, n: nat): (r: seq<byte>)
    requires d >= 1
    ensures |r| == |out| + n
    decreases n
  {
    if n == 0 then out else Copied(out + [Back(out, d)], d, n - 1)
  }

  /** The byte `d` places before place `k`; zero before the stream. */
  function Source(r: seq<byte>, d: nat, k: nat): byte
    requires 1 <= d && k <= |r|
  {
    if k < d then 0 else r[k - d]
  }

  /** What it is to continue `out` with period `d`, with zeros before the stream. */
  ghost predicate Repeats(out: seq<byte>, d: nat, r: seq<byte>)
    requires d >= 1
  {
    && out <= r
    && forall k | |out| <= k < |r| :: r[k] == Source(r, d, k)
  }

  lemma {:induction false} CopiedRepeats(out: seq<byte>, d: nat, n: nat)
    requires d >= 1
    ensures Repeats(out, d, Copied(out, d, n))
    decreases n
  {
    if n > 0 {
      var r := Copied(out, d, n);
      CopiedRepeats(out + [Back(out, d)], d, n - 1);
      var next := out + [Back(out, d)];
      assert next == r[..|next|];
      assert out == r[..|next|][..|out|] == r[..|out|];
      assert r[|out|] == next[|out|] == Back(out, d);
      assert Source(r, d, |out|) == Back(out, d);
    }
  }

  /** Only one continuation of each length has that period. */
  lemma {:induction false} RepeatsIsCopied(out: seq<byte>, d: nat, r: seq<byte>)
    requires d >= 1 && Repeats(out, d, r)
    ensures r == Copied(out, d, |r| - |out|)
    decreases |r| - |out|
  {
    if |r| == |out| {
      assert r == out;
    } else {
      var next := out + [Back(out, d)];
      assert out == r[..|out|];
      assert Source(r, d, |out|) == Back(out, d);
      assert r[|out|] == Back(out, d);
      assert next == r[..|next|];
      RepeatsIsCopied(next, d, r);
    }
  }

  class OutputBuffer {
    var out: seq<byte>
    const windowSize: nat

    constructor (windowSize: nat)
      ensures out == [] && this.windowSize == windowSize
    {
      out := [];
      this.windowSize := windowSize;
    }

    method AppendByte(b: byte)
      modifies this
      ensures out == old(out) + [b]
    {
      out := out + [b];
    }

    method AppendSlice(s: seq<byte>)
      modifies this
      ensures out == old(out) + s
    {
      out := out + s;
    }

    method Lookback(distance: nat) returns (r: Result<byte, RingError>)
      ensures distance == 0 ==> r == Err(ZeroDistance)
      ensures distance > |out| ==> r == Err(DistanceExceedsOutput(distance, |out|))
      ensures 1 <= distance <= |out| ==> r == Ok(Back(out, distance))
    {
      if distance == 0 { return Err(ZeroDistance); }
      if distance > |out| { return Err(DistanceExceedsOutput(distance, |out|)); }
      r := Ok(out[|out| - distance]);
    }

    method CopyMatch(distance: nat, length: nat) returns (r: Result<(), RingError>)
      modifies this
      ensures distance == 0 ==> r == Err(ZeroDistance) && out == old(out)
      ensures distance > |old(out)| ==> r == Err(DistanceExceedsOutput(distance, |out|)) && out == old(out)
      ensures 1 <= distance <= |old(out)| ==> r == Ok(()) && out == Copied(old(out), distance, length)
    {
      if distance == 0 { return Err(ZeroDistance); }
      if distance > |out| { return Err(DistanceExceedsOutput(distance, |out|)); }
      for i := 0 to length
        invariant |out| == |old(out)| + i
        invariant Copied(out, distance, length - i) == Copied(old(out), distance, length)
      {
        var src := |out| - distance;
        out := out + [out[src]];
      }
      r := Ok(());
    }

    method CopyMatchWithPrestreamZeros(distance: nat, length: nat) returns (r: Result<(), RingError>)
      modifies this
      ensures distance == 0 ==> r == Err(ZeroDistance) && out == old(out)
      ensures distance >= 1 ==> r == Ok(()) && out == Copied(old(out), distance, length)
    {
      if distance == 0 { return Err(ZeroDistance); }
      for i := 0 to length
        invariant Copied(out, distance, length - i) == Copied(old(out), distance, length)
      {
        var cur := |out|;
        if distance <= cur {
          out := out + [out[cur - distance]];
        } else {
          out := out + [0];
        }
      }
      r := Ok(());
    }
  }

  // ---- the circular window ---------------------------------------------------------------

  datatype Op = Put(b: byte) | Copy(distance: nat, length: nat)

  predicate Legal(op: Op, window: nat) {
    op.Copy? ==> 1 <= op.distance <= window
  }

  predicate Legals(ops: seq<Op>, window: nat) {
    forall i | 0 <= i < |ops| :: Legal(ops[i], window)
  }

  function FlatStep(out: seq<byte>, op: Op): seq<byte>
    requires op.Copy? ==> op.distance >= 1
  {
    match op
    case Put(b) => out + [b]
    case Copy(d, n) => Copied(out, d, n)
  }

  function FlatRun(out: seq<byte>, ops: seq<Op>, window: nat): seq<byte>
    requires Legals(ops, window)
    decreases |ops|
  {
    if ops == [] then out
    else
      FlatRun(FlatStep(out, ops[0]), ops[1..], window)
  }

  /** A circular buffer of fixed size, the number of bytes written, and those bytes. */
  datatype Ring = Ring(slots: seq<byte>, written: nat, emitted: seq<byte>)

  function Fresh(window: nat): Ring {
    Ring(Repeat(0, window), 0, [])
  }

  function Slot(r: Ring, d: nat): (k: nat)
    requires 1 <= d <= |r.slots|
    ensures k < |r.slots|
  {
    (r.written + |r.slots| - d) % |r.slots|
  }

  function RingPut(r: Ring, b: byte): Ring
    requires r.slots != []
  {
    Ring(r.slots[r.written % |r.slots| := b], r.written + 1, r.emitted + [b])
  }

  function RingCopy(r: Ring, d: nat, n: nat): Ring
    requires 1 <= d <= |r.slots|
    decreases n
  {
    if n == 0 then r else RingCopy(RingPut(r, r.slots[Slot(r, d)]), d, n - 1)
  }

  function RingStep(r: Ring, op: Op): Ring
    requires r.slots != [] && Legal(op, |r.slots|)
  {
    match op
    case Put(b) => RingPut(r, b)
    case Copy(d, n) => RingCopy(r, d, n)
  }

  lemma {:induction false} RingCopyKeepsSize(r: Ring, d: nat, n: nat)
    requires 1 <= d <= |r.slots|
    ensures |RingCopy(r, d, n).slots| == |r.slots|
    decreases n
  {
    if n > 0 { RingCopyKeepsSize(RingPut(r, r.slots[Slot(r, d)]), d, n - 1); }
  }

  function RingRun(r: Ring, ops: seq<Op>, window: nat): Ring
    requires 0 < window == |r.slots|
    requires Legals(ops, window)
    decreases |ops|
  {
    if ops == [] then r
    else
      assert ops[0].Copy? ==> |RingStep(r, ops[0]).slots| == window by {
        if ops[0].Copy? { RingCopyKeepsSize(r, ops[0].distance, ops[0].length); }
      }
      RingRun(RingStep(r, ops[0]), ops[1..], window)
  }

  /** The window holds, at each legal distance, the byte that far back in the output. */
  ghost predicate Mirrors(r: Ring, out: seq<byte>) {
    && r.slots != [] && r.written == |out| && r.emitted == out
    && forall d | 1 <= d <= |r.slots| :: r.slots[Slot(r, d)] == Back(out, d)
  }

  /** Two write positions fewer than `w` apart use different slots. */
  lemma SlotsDiffer(a: nat, b: nat, w: nat)
    requires w > 0 && a < b < a + w
    ensures a % w != b % w
  {
    var q := a / w;
    ModUnique(a, w, q, a % w);
    if b - w * q < w {
      ModUnique(b, w, q, b - w * q);
    } else {
      ModUnique(b, w, q + 1, b - w * q - w);
    }
  }

  lemma AddModulus(a: nat, w: nat)
    requires w > 0
    ensures (a + w) % w == a % w
  {
    ModUnique(a + w, w, a / w + 1, a % w);
  }

  lemma PutMirrors(r: Ring, out: seq<byte>, b: byte)
    requires Mirrors(r, out)
    ensures Mirrors(RingPut(r, b), out + [b])
  {
    var r', out', w := RingPut(r, b), out + [b], |r.slots|;
    forall d | 1 <= d <= w
      ensures r'.slots[Slot(r', d)] == Back(out', d)
    {
      if d == 1 {
        AddModulus(r.written, w);
      } else {
        assert Slot(r', d) == Slot(r, d - 1);
        SlotsDiffer(r.written + w - (d - 1), r.written + w, w);
        AddModulus(r.written, w);
        assert r.slots[Slot(r, d - 1)] == Back(out, d - 1);
        assert Back(out', d) == Back(out, d - 1);
      }
    }
  }

  lemma {:induction false} CopyMirrors(r: Ring, out: seq<byte>, d: nat, n: nat)
    requires Mirrors(r, out) && 1 <= d <= |r.slots|
    ensures Mirrors(RingCopy(r, d, n), Copied(out, d, n))
    decreases n
  {
    if n > 0 {
      PutMirrors(r, out, Back(out, d));
      CopyMirrors(RingPut(r, Back(out, d)), out + [Back(out, d)], d, n - 1);
    }
  }

  lemma {:induction false} RunMirrors(r: Ring, out: seq<byte>, ops: seq<Op>, window: nat)
    requires 0 < window == |r.slots| && Mirrors(r, out) && Legals(ops, window)
    ensures RingRun(r, ops, window).emitted == FlatRun(out, ops, window)
    decreases |ops|
  {
    if ops != [] {
      var op := ops[0];
      match op {
        case Put(b) => PutMirrors(r, out, b);
        case Copy(d, n) => CopyMirrors(r, out, d, n); RingCopyKeepsSize(r, d, n);
      }
      RunMirrors(RingStep(r, op), FlatStep(out, op), ops[1..], window);
    }
  }

  /**
   The growing vector emits the same bytes as a zeroed circular window, for every
   sequence of literals and of copies that reach back no further than the window.
   */
  lemma FlatIsRing(ops: seq<Op>, window: nat)
    requires window > 0 && Legals(ops, window)
    ensures RingRun(Fresh(window), ops, window).emitted == FlatRun([], ops, window)
  {
    RunMirrors(Fresh(window), [], ops, window);
  }
}
