/**
  Two-stage capture of a scatter-gather write. A first chain of rounds measures the vector and
  decides how much of it will be captured; a second emits one segment a slot. With memory that stays
  readable and rounds that chain, the segments are exactly the announced prefix of the data.
 */
module IovecCapture {
  import opened Bytes

  const MAX_IOVECS: nat := 40
  const COMPUTE_CHUNK: nat := 8
  const EMIT_CHUNK: nat := 8
  const DATA_MAX: nat := 255

  /** The buffers of the vector. */
  type Vector = seq<ByteSeq>

  /** What the write hands over: the buffers one after the other. */
  function Concat(v: Vector): ByteSeq { if v == [] then [] else Concat(v[..|v| - 1]) + v[|v| - 1] }

  /** A bound of zero is no bound. */
  function SlotLen(v: Vector, i: nat, bound: nat, total: nat): nat
    requires i < |v|
  {
    if bound == 0 then |v[i]| else Min(|v[i]|, if bound < total then 0 else bound - total)
  }

  predicate Exhausted(v: Vector, i: nat, bound: nat, total: nat)
  {
    i >= MAX_IOVECS || i >= |v| || (bound != 0 && total >= bound)
  }

  // ----- what is to be measured -----

  function Measure(v: Vector, i: nat, bound: nat, total: nat): nat
    decreases |v| - i
  {
    if Exhausted(v, i, bound, total) then total else Measure(v, i + 1, bound, total + SlotLen(v, i, bound, total))
  }

  /** Whole slots, then part of one at most. */
  function CaptureLen(v: Vector, i: nat, bound: nat, total: nat, limit: nat, captured: nat): nat
    decreases |v| - i
  {
    if Exhausted(v, i, bound, total) then captured
    else
      var slot := SlotLen(v, i, bound, total);
      var taken := Min(Min(slot, if limit < captured then 0 else limit - captured), DATA_MAX);
      if taken == slot then CaptureLen(v, i + 1, bound, total + slot, limit, captured + taken) else captured + taken
  }

  lemma {:induction false} CaptureBounds(v: Vector, i: nat, bound: nat, total: nat, limit: nat, captured: nat)
    requires captured <= limit && captured <= total
    ensures captured <= CaptureLen(v, i, bound, total, limit, captured) <= limit
    ensures CaptureLen(v, i, bound, total, limit, captured) <= Measure(v, i, bound, total)
    decreases |v| - i
  {
    if !Exhausted(v, i, bound, total) {
      var slot := SlotLen(v, i, bound, total);
      MeasureGrows(v, i + 1, bound, total + slot);
      var taken := Min(Min(slot, limit - captured), DATA_MAX);
      if taken == slot {
        CaptureBounds(v, i + 1, bound, total + slot, limit, captured + taken);
      }
    }
  }

  lemma {:induction false} MeasureGrows(v: Vector, i: nat, bound: nat, total: nat)
    ensures total <= Measure(v, i, bound, total)
    ensures bound != 0 && total <= bound ==> Measure(v, i, bound, total) <= bound
    decreases |v| - i
  {
    if !Exhausted(v, i, bound, total) {
      MeasureGrows(v, i + 1, bound, total + SlotLen(v, i, bound, total));
    }
  }

  /** If every slot fits a segment and the limit allows it, the whole measured write is captured. */
  lemma {:induction false} CapturesAll(v: Vector, i: nat, bound: nat, total: nat, limit: nat)
    requires (forall j | 0 <= j < |v| :: |v[j]| <= DATA_MAX) && Measure(v, i, bound, total) <= limit
    ensures CaptureLen(v, i, bound, total, limit, total) == Measure(v, i, bound, total)
    decreases |v| - i
  {
    if !Exhausted(v, i, bound, total) {
      var slot := SlotLen(v, i, bound, total);
      MeasureGrows(v, i + 1, bound, total + slot);
      CapturesAll(v, i + 1, bound, total + slot, limit);
    }
  }

  // ----- the measuring rounds -----

  datatype Measured = Measured(slot: nat, total: nat, captured: nat, contiguous: bool)

  /** The round's result leads to the same totals as its start. */
  ghost predicate OnTrack(v: Vector, bound: nat, limit: nat, s: Measured)
  {
    && s.captured <= limit
    && Measure(v, 0, bound, 0) == Measure(v, s.slot, bound, s.total)
    && CaptureLen(v, 0, bound, 0, limit, 0) ==
       if s.contiguous then CaptureLen(v, s.slot, bound, s.total, limit, s.captured) else s.captured
  }

  method ComputeRound(v: Vector, bound: nat, limit: nat, start: Measured) returns (s: Measured, more: bool)
    requires OnTrack(v, bound, limit, start)
    ensures OnTrack(v, bound, limit, s) && (more <==> !Exhausted(v, s.slot, bound, s.total))
    ensures start.slot <= s.slot && (more ==> start.slot < s.slot <= |v|)
  {
    hide SlotLen;
    s := start;
    var processed := 0;
    while processed < COMPUTE_CHUNK
      invariant OnTrack(v, bound, limit, s) && 0 <= processed <= COMPUTE_CHUNK && start.slot <= s.slot
      invariant processed > 0 ==> start.slot < s.slot <= |v|
    {
      if Exhausted(v, s.slot, bound, s.total) {
        break;
      }
      var slotLen := SlotLen(v, s.slot, bound, s.total);
      var captured, contiguous := s.captured, s.contiguous;
      if s.contiguous {
        var taken := Min(Min(slotLen, limit - s.captured), DATA_MAX);
        captured := s.captured + taken;
        contiguous := taken == slotLen;
      }
      s := Measured(s.slot + 1, s.total + slotLen, captured, contiguous);
      processed := processed + 1;
    }
    more := !Exhausted(v, s.slot, bound, s.total);
  }

  // ----- the emitting rounds -----

  datatype Segment = Segment(offset: nat, bytes: ByteSeq)

  function Payload(segments: seq<Segment>): ByteSeq
  {
    if segments == [] then [] else Payload(segments[..|segments| - 1]) + segments[|segments| - 1].bytes
  }

  /** Each segment starts where the ones before it end, and none is empty or too long. */
  ghost predicate Tiles(segments: seq<Segment>)
  {
    forall i | 0 <= i < |segments| ::
      segments[i].offset == |Payload(segments[..i])| && 0 < |segments[i].bytes| <= DATA_MAX
  }

  datatype Emitting = Emitting(slot: nat, offset: nat, done: bool, segments: seq<Segment>)

  lemma {:induction false} ConcatNext(v: Vector, i: nat)
    requires i < |v|
    ensures Concat(v[..i + 1]) == Concat(v[..i]) + v[i]
  {
    assert v[..i + 1][..i] == v[..i];
  }

  lemma {:induction false} ConcatGrows(v: Vector, i: nat)
    requires i <= |v|
    ensures Concat(v[..i]) <= Concat(v)
    decreases |v| - i
  {
    hide Concat;
    if i < |v| {
      ConcatNext(v, i);
      ConcatGrows(v, i + 1);
    } else {
      assert v[..i] == v;
    }
  }

  lemma {:induction false} OneMoreSegment(segments: seq<Segment>, bytes: ByteSeq)
    requires Tiles(segments) && 0 < |bytes| <= DATA_MAX
    ensures var all := segments + [Segment(|Payload(segments)|, bytes)]; Tiles(all) && Payload(all) == Payload(segments) + bytes
  {
    var last := Segment(|Payload(segments)|, bytes);
    var all := segments + [last];
    assert all[..|segments|] == segments;
    forall i | 0 <= i < |all|
      ensures all[i].offset == |Payload(all[..i])| && 0 < |all[i].bytes| <= DATA_MAX
    {
      if i < |segments| {
        assert all[..i] == segments[..i];
      }
    }
  }

  /** Slots before the cursor are emitted whole, and from the cursor on the measure agrees. */
  ghost predicate InStep(v: Vector, bound: nat, limit: nat, captured: nat, s: Emitting)
  {
    && s.slot <= |v| && s.offset <= captured && Tiles(s.segments) && |Payload(s.segments)| == s.offset
    && Payload(s.segments) <= Concat(v)
    && if s.done then s.offset == captured
       else Payload(s.segments) == Concat(v[..s.slot]) && captured == CaptureLen(v, s.slot, bound, s.offset, limit, s.offset)
  }

  /** What the emitting side takes of a slot, compared with what was measured. */
  lemma {:induction false} SlotTaken(v: Vector, bound: nat, limit: nat, captured: nat, slot: nat, offset: nat)
    requires slot < |v| && slot < MAX_IOVECS && offset < captured <= limit
    requires captured == CaptureLen(v, slot, bound, offset, limit, offset)
    ensures var taken := Min(Min(|v[slot]|, captured - offset), DATA_MAX);
            && (taken == 0 <==> |v[slot]| == 0)
            && (taken == |v[slot]| ==> captured == CaptureLen(v, slot + 1, bound, offset + taken, limit, offset + taken))
            && (taken != |v[slot]| ==> offset + taken == captured)
  {
    hide CaptureLen;
    CaptureStep(v, slot, bound, offset, limit);
    var len := SlotLen(v, slot, bound, offset);
    var taken := Min(Min(len, limit - offset), DATA_MAX);
    if taken == len {
      CaptureBounds(v, slot + 1, bound, offset + len, limit, offset + len);
      if len < |v[slot]| {
        CaptureEnds(v, slot + 1, bound, offset + len, limit);
      }
    }
  }

  lemma {:induction false} CaptureStep(v: Vector, i: nat, bound: nat, at: nat, limit: nat)
    requires i < |v| && i < MAX_IOVECS && at < CaptureLen(v, i, bound, at, limit, at) && at <= limit
    ensures !Exhausted(v, i, bound, at)
    ensures var len := SlotLen(v, i, bound, at); var taken := Min(Min(len, limit - at), DATA_MAX);
            CaptureLen(v, i, bound, at, limit, at) ==
            if taken == len then CaptureLen(v, i + 1, bound, at + len, limit, at + len) else at + taken
  {}

  lemma {:induction false} CaptureEnds(v: Vector, i: nat, bound: nat, at: nat, limit: nat)
    requires Exhausted(v, i, bound, at)
    ensures CaptureLen(v, i, bound, at, limit, at) == at
  {}

  method EmitRound(v: Vector, bound: nat, limit: nat, captured: nat, start: Emitting) returns (s: Emitting, more: bool)
    requires InStep(v, bound, limit, captured, start) && captured <= limit
    ensures InStep(v, bound, limit, captured, s)
    ensures more <==> !s.done && s.slot < MAX_IOVECS && s.slot < |v| && s.offset < captured
    ensures start.slot <= s.slot && (more ==> start.slot < s.slot)
  {
    hide CaptureLen, Concat, Payload, Tiles;
    s := start;
    var processed := 0;
    while processed < EMIT_CHUNK && !s.done
      invariant InStep(v, bound, limit, captured, s) && 0 <= processed <= EMIT_CHUNK
      invariant start.slot <= s.slot && (processed > 0 && !s.done ==> start.slot < s.slot)
      decreases EMIT_CHUNK - processed
    {
      processed := processed + 1;
      if s.slot >= MAX_IOVECS || s.slot >= |v| || s.offset >= captured {
        if s.offset < captured {
          CaptureEnds(v, s.slot, bound, s.offset, limit);
        }
        s := s.(done := true);
        break;
      }
      var buffer := v[s.slot];
      var taken := Min(Min(|buffer|, captured - s.offset), DATA_MAX);
      SlotTaken(v, bound, limit, captured, s.slot, s.offset);
      ConcatNext(v, s.slot);
      ConcatGrows(v, s.slot + 1);
      if taken == 0 {
        assert Concat(v[..s.slot]) + buffer == Concat(v[..s.slot]);
        s := s.(slot := s.slot + 1);
        continue;
      }
      OneMoreSegment(s.segments, buffer[..taken]);
      PrefixKept(Concat(v[..s.slot]), buffer, taken, Concat(v));
      var segments := s.segments + [Segment(s.offset, buffer[..taken])];
      if taken != |buffer| {
        s := Emitting(s.slot, s.offset + taken, true, segments);
        break;
      }
      assert buffer[..taken] == buffer;
      s := Emitting(s.slot + 1, s.offset + taken, false, segments);
    }
    more := !s.done && s.slot < MAX_IOVECS && s.slot < |v| && s.offset < captured;
  }

  lemma {:induction false} PrefixKept(a: ByteSeq, b: ByteSeq, n: nat, all: ByteSeq)
    requires n <= |b| && a + b <= all
    ensures a + b[..n] <= all
  {
    assert (a + b)[..|a| + n] == a + b[..n];
  }

  /** What is announced about the write as a whole. */
  function Announced(v: Vector, bound: nat, total: nat): nat
  {
    if bound != 0 then Min(bound, U32_MAX) else if |v| > MAX_IOVECS || total > U32_MAX then U32_MAX else total
  }

  /** Both chains of rounds. The segments are the announced prefix of the data, in order and without gaps. */
  method Capture(v: Vector, bound: nat, limit: nat) returns (segments: seq<Segment>, captured: nat, announced: nat)
    requires limit <= U32_MAX
    ensures captured == CaptureLen(v, 0, bound, 0, limit, 0) && captured <= limit && captured <= announced
    ensures announced == Announced(v, bound, Measure(v, 0, bound, 0))
    ensures Tiles(segments) && |Payload(segments)| == captured && Payload(segments) <= Concat(v)
  {
    hide CaptureLen, Measure, Concat, Payload, Tiles;
    CaptureBounds(v, 0, bound, 0, limit, 0);
    MeasureGrows(v, 0, bound, 0);
    var m, more := ComputeRound(v, bound, limit, Measured(0, 0, 0, true));
    while more
      invariant OnTrack(v, bound, limit, m) && (more <==> !Exhausted(v, m.slot, bound, m.total))
      decreases |v| - m.slot, more
    {
      m, more := ComputeRound(v, bound, limit, m);
    }
    MeasuredAll(v, bound, limit, m);
    captured, announced := m.captured, Announced(v, bound, m.total);
    segments := [];
    NothingEmitted(v);
    if captured == 0 {
      return;
    }
    var s, again := EmitRound(v, bound, limit, captured, Emitting(0, 0, false, []));
    while again
      invariant InStep(v, bound, limit, captured, s)
      invariant again <==> !s.done && s.slot < MAX_IOVECS && s.slot < |v| && s.offset < captured
      decreases |v| - s.slot, again
    {
      s, again := EmitRound(v, bound, limit, captured, s);
    }
    if !s.done && s.offset < captured {
      CaptureEnds(v, s.slot, bound, s.offset, limit);
    }
    segments := s.segments;
  }

  lemma {:induction false} MeasuredAll(v: Vector, bound: nat, limit: nat, m: Measured)
    requires OnTrack(v, bound, limit, m) && Exhausted(v, m.slot, bound, m.total)
    ensures m.total == Measure(v, 0, bound, 0) && m.captured == CaptureLen(v, 0, bound, 0, limit, 0)
  {}

  lemma {:induction false} NothingEmitted(v: Vector)
    ensures Payload([]) == [] && Tiles([]) && Concat(v[..0]) == []
  {}
}
