/**
  Mutation of an outgoing socket message. The kernel's push, pull and pop may fail, and fresh room
  holds arbitrary bytes; whatever happens, a message that is passed on is either untouched or
  carries exactly the generated fields, and the event says which.
 */
module MessageMutation {
  import opened Bytes
  import opened TraceContext
  import opened Insertion
  import BpfScan
  import Tracestate

  // "tracestate: "
  const TRACESTATE_PREFIX: ByteSeq := TRACESTATE + [COLON, SP]

  /** A continuation ends at its time to live; a missing or future start gives none. */
  predicate ContextIsFresh(startedAt: nat, now: nat, ttl: nat) { startedAt != 0 && now >= startedAt && now - startedAt < ttl }

  /** A planned request of the sending thread. */
  datatype Pending = Pending(
    request: ByteSeq, totalLen: nat, insertAt: nat, context: Context, tracestate: ByteSeq, startedAt: nat)

  datatype Event = Event(pending: Pending, generated: bool)

  datatype Verdict = Pass | Drop

  /** How the kernel's message helpers turn out. */
  datatype Kernel = Kernel(pushes: bool, fill: int -> Byte, pulls: bool, exposed: nat, pops: bool)

  /** The fields a planned request gets. */
  function GeneratedFields(p: Pending): (r: ByteSeq)
    ensures |r| == TRACEPARENT_HEADER_BYTES + if p.tracestate == [] then 0 else 14 + |p.tracestate|
  {
    TraceparentHeader(p.context) + if p.tracestate == [] then [] else TRACESTATE_PREFIX + p.tracestate + CRLF
  }

  /** The message is still the one that was planned for. */
  predicate Eligible(message: ByteSeq, window: nat, p: Pending, now: nat, ttl: nat)
  {
    && ContextIsFresh(p.startedAt, now, ttl)
    && message != [] && |message| == p.totalLen && |p.request| <= BpfScan.HTTP_REQUEST_BYTES && |p.request| <= window
    && p.request <= message && p.insertAt <= |message| && |p.tracestate| <= Tracestate.MAX_TRACESTATE_BYTES
  }

  predicate Writable(k: Kernel, len: nat) { k.pulls && k.exposed >= len }

  /** A socket message and the range of it that may be accessed directly. */
  class SocketMessage {
    var bytes: ByteSeq
    var start: nat
    var end: nat

    ghost predicate Valid()
      reads this
    {
      start <= end <= |bytes|
    }

    constructor (message: ByteSeq, window: nat)
      requires window <= |message|
      ensures Valid() && bytes == message && start == 0 && end == window
    {
      bytes, start, end := message, 0, window;
    }

    method Push(at: nat, len: nat, ok: bool, fill: int -> Byte)
      requires Valid() && at <= |bytes|
      modifies this
      ensures Valid() && bytes == if ok then Insert(old(bytes), at, seq(len, i => fill(i))) else old(bytes)
    {
      if ok {
        bytes := bytes[..at] + seq(len, i => fill(i)) + bytes[at..];
      }
    }

    method Pull(at: nat, ok: bool, exposed: nat)
      requires Valid() && at <= |bytes|
      modifies `start, `end
      ensures Valid() && (ok ==> start == at && end == if at + exposed <= |bytes| then at + exposed else |bytes|)
    {
      if ok {
        start, end := at, if at + exposed <= |bytes| then at + exposed else |bytes|;
      }
    }

    method Pop(at: nat, len: nat, ok: bool)
      requires Valid() && at + len <= |bytes|
      modifies this
      ensures Valid() && bytes == if ok then old(bytes)[..at] + old(bytes)[at + len..] else old(bytes)
    {
      if ok {
        bytes := bytes[..at] + bytes[at + len..];
        start, end := 0, 0;
      }
    }

    /** A store through the window: the bounds check precedes every one. */
    method Write(offset: nat, data: ByteSeq)
      requires Valid() && start + offset + |data| <= end
      modifies `bytes
      ensures Valid() && bytes == Stored(old(bytes), start + offset, data)
    {
      bytes := Stored(bytes, start + offset, data);
    }
  }

  function Stored(bytes: ByteSeq, at: nat, data: ByteSeq): (r: ByteSeq)
    requires at + |data| <= |bytes|
    ensures |r| == |bytes|
  {
    bytes[..at] + data + bytes[at + |data|..]
  }

  /** `bytes` is the original with room for `fields`, the first `done` of which are written. */
  ghost predicate Written(bytes: ByteSeq, original: ByteSeq, at: nat, fields: ByteSeq, done: nat)
  {
    && at <= |original| && done <= |fields| && |bytes| == |original| + |fields|
    && bytes[..at] == original[..at] && bytes[at + |fields|..] == original[at..] && bytes[at..at + done] == fields[..done]
  }

  lemma {:induction false} Extended(bytes: ByteSeq, original: ByteSeq, at: nat, fields: ByteSeq, done: nat, next: nat)
    requires Written(bytes, original, at, fields, done) && done <= next <= |fields|
    ensures at + next <= |bytes| && Written(Stored(bytes, at + done, fields[done..next]), original, at, fields, next)
  {
    var stored := Stored(bytes, at + done, fields[done..next]);
    assert stored[..at] == bytes[..at];
    assert stored[at + |fields|..] == bytes[at + |fields|..];
    assert stored[at..at + next] == bytes[at..at + done] + fields[done..next];
    assert fields[..next] == fields[..done] + fields[done..next];
  }

  lemma {:induction false} RoomMade(original: ByteSeq, at: nat, fields: ByteSeq, fill: ByteSeq)
    requires at <= |original| && |fill| == |fields|
    ensures Written(Insert(original, at, fill), original, at, fields, 0)
  {}

  lemma {:induction false} FullyWritten(bytes: ByteSeq, original: ByteSeq, at: nat, fields: ByteSeq)
    requires Written(bytes, original, at, fields, |fields|)
    ensures bytes == Insert(original, at, fields)
  {
    assert bytes == bytes[..at] + bytes[at..at + |fields|] + bytes[at + |fields|..];
  }

  lemma {:induction false} RoomRemoved(bytes: ByteSeq, original: ByteSeq, at: nat, fields: ByteSeq, done: nat)
    requires Written(bytes, original, at, fields, done)
    ensures bytes[..at] + bytes[at + |fields|..] == original
  {
    assert original == original[..at] + original[at..];
  }

  /** The store of `fields[done..next]` through the window at `at`. */
  method WriteTo(m: SocketMessage, ghost original: ByteSeq, ghost at: nat, ghost fields: ByteSeq, done: nat, next: nat, data: ByteSeq)
    requires m.Valid() && m.start == at && done <= next <= |fields| && at + |fields| <= m.end && data == fields[done..next]
    requires Written(m.bytes, original, at, fields, done)
    modifies m`bytes
    ensures m.Valid() && Written(m.bytes, original, at, fields, next)
  {
    hide Written, Stored;
    Extended(m.bytes, original, at, fields, done, next);
    m.Write(done, data);
  }

  lemma {:induction false} SubSlice(s: ByteSeq, from: nat, value: ByteSeq, a: nat, b: nat)
    requires from + |value| <= |s| && s[from..from + |value|] == value && a <= b <= |value|
    ensures value[a..b] == s[from + a..from + b]
  {
    assert forall i | 0 <= i < |value| :: value[i] == s[from + i];
  }

  /** The tracestate value, in blocks of sixteen bytes and then byte by byte. */
  method CopyTracestate(m: SocketMessage, ghost original: ByteSeq, ghost at: nat, ghost fields: ByteSeq, from: nat, value: ByteSeq)
    requires m.Valid() && m.start == at && at + |fields| <= m.end && from + |value| <= |fields| && |value| <= Tracestate.MAX_TRACESTATE_BYTES
    requires fields[from..from + |value|] == value && Written(m.bytes, original, at, fields, from)
    modifies m`bytes
    ensures m.Valid() && Written(m.bytes, original, at, fields, from + |value|)
  {
    hide Written;
    var block := 0;
    while block < Tracestate.MAX_TRACESTATE_BYTES
      invariant block % 16 == 0 && m.Valid()
      invariant Written(m.bytes, original, at, fields, from + if block <= |value| then block else |value| - |value| % 16)
    {
      if |value| >= block + 16 {
        SubSlice(fields, from, value, block, block + 16);
        WriteTo(m, original, at, fields, from + block, from + block + 16, value[block..block + 16]);
      }
      block := block + 16;
    }
    var tail := |value| % 16;
    var tailStart := |value| - tail;
    var i := 0;
    while i < 15
      invariant 0 <= i <= 15 && m.Valid()
      invariant Written(m.bytes, original, at, fields, from + tailStart + if i <= tail then i else tail)
    {
      if tail > i {
        var j := tailStart + i;
        SubSlice(fields, from, value, j, j + 1);
        WriteTo(m, original, at, fields, from + j, from + j + 1, value[j..j + 1]);
      }
      i := i + 1;
    }
  }

  /** All fields, into room that a push has made and a pull has exposed. */
  method WriteFields(m: SocketMessage, ghost original: ByteSeq, ghost at: nat, p: Pending)
    requires m.Valid() && m.start == at && at + |GeneratedFields(p)| <= m.end && |p.tracestate| <= Tracestate.MAX_TRACESTATE_BYTES
    requires Written(m.bytes, original, at, GeneratedFields(p), 0)
    modifies m`bytes
    ensures m.Valid() && m.bytes == Insert(original, at, GeneratedFields(p))
  {
    hide Written, TraceparentHeader;
    var header := FormatTraceparentHeader(p.context);
    ghost var fields := GeneratedFields(p);
    assert header[..] == fields[0..70];
    WriteTo(m, original, at, fields, 0, 70, header[..]);
    if p.tracestate != [] {
      var n := |p.tracestate|;
      FieldSlices(p);
      WriteTo(m, original, at, fields, 70, 82, TRACESTATE_PREFIX);
      CopyTracestate(m, original, at, fields, 82, p.tracestate);
      WriteTo(m, original, at, fields, 82 + n, 84 + n, CRLF);
    }
    FullyWritten(m.bytes, original, at, fields);
  }

  lemma {:induction false} FieldSlices(p: Pending)
    requires p.tracestate != []
    ensures var f, n := GeneratedFields(p), |p.tracestate|;
            f[70..82] == TRACESTATE_PREFIX && f[82..82 + n] == p.tracestate && f[82 + n..84 + n] == CRLF && |f| == 84 + n
  {
    hide TraceparentHeader;
  }

  /** Byte-wise comparison of the message with what was captured of it. */
  method MatchesCapture(message: ByteSeq, captured: ByteSeq) returns (same: bool)
    requires |captured| <= |message|
    ensures same == (captured <= message)
  {
    var index := 0;
    while index < |captured|
      invariant 0 <= index <= |captured| && captured[..index] == message[..index]
    {
      if message[index] != captured[index] {
        return false;
      }
      index := index + 1;
    }
    same := true;
  }

  /** The verdict on an outgoing message, and the event for its pending request. */
  method Propagate(m: SocketMessage, enabled: bool, pending: Option<Pending>, now: nat, ttl: nat, k: Kernel)
    returns (verdict: Verdict, event: Option<Event>)
    requires m.Valid() && m.start == 0
    modifies m
    ensures event.Some? <==> enabled && pending.Some?
    ensures event.Some? ==>
              var p := pending.value; var fits := Eligible(old(m.bytes), old(m.end), p, now, ttl);
              && event.value.pending == p
              && (event.value.generated <==> fits && k.pushes && Writable(k, |GeneratedFields(p)|))
              && (verdict == Drop <==> fits && k.pushes && !Writable(k, |GeneratedFields(p)|) && !k.pops)
    ensures event.None? ==> verdict == Pass
    ensures verdict == Pass ==>
              m.bytes == if event.Some? && event.value.generated
                         then Insert(old(m.bytes), pending.value.insertAt, GeneratedFields(pending.value)) else old(m.bytes)
  {
    hide Written, TraceparentHeader;
    verdict, event := Pass, None;
    if !enabled || pending.None? {
      return;
    }
    var p := pending.value;
    event := Some(Event(p, false));
    if !ContextIsFresh(p.startedAt, now, ttl) {
      return;
    }
    var size := |m.bytes|;
    if size == 0 || size != p.totalLen || |p.request| > BpfScan.HTTP_REQUEST_BYTES || |p.request| > m.end {
      return;
    }
    var same := MatchesCapture(m.bytes, p.request);
    if !same || p.insertAt > size || |p.tracestate| > Tracestate.MAX_TRACESTATE_BYTES {
      return;
    }
    var len := TRACEPARENT_HEADER_BYTES + if p.tracestate == [] then 0 else 14 + |p.tracestate|;
    ghost var original := m.bytes;
    ghost var fields := GeneratedFields(p);
    m.Push(p.insertAt, len, k.pushes, k.fill);
    if !k.pushes {
      return;
    }
    RoomMade(original, p.insertAt, fields, seq(len, i => k.fill(i)));
    RoomBounds(m.bytes, original, p.insertAt, fields);
    m.Pull(p.insertAt, k.pulls, k.exposed);
    if !k.pulls || m.start + len > m.end {
      RoomRemoved(m.bytes, original, p.insertAt, fields, 0);
      m.Pop(p.insertAt, len, k.pops);
      return if k.pops then Pass else Drop, event;
    }
    WriteFields(m, original, p.insertAt, p);
    event := Some(Event(p, true));
  }

  lemma {:induction false} RoomBounds(bytes: ByteSeq, original: ByteSeq, at: nat, fields: ByteSeq)
    requires Written(bytes, original, at, fields, 0)
    ensures at + |fields| <= |bytes|
  {}
}
