/**
  From plan to receiver: a request that the kernel-side planner accepts and that is then given its
  generated fields still splits into the same request line, header lines and body, is framed as
  before, and hands the generated context to whoever reads it.
 */
module MutationRoundTrip {
  import opened Bytes
  import opened ChunkedBody
  import opened ChunkedStability
  import opened Http1
  import opened TraceContext
  import opened Insertion
  import opened MessageMutation
  import opened BpfScan
  import opened BpfPlan
  import opened HeaderAgreement
  import opened PlannerAgreement

  function TracestateLine(value: ByteSeq): ByteSeq { TRACESTATE_PREFIX + value }

  function GeneratedLines(p: Pending): seq<ByteSeq>
  {
    [TraceparentLine(p.context)] + if p.tracestate == [] then [] else [TracestateLine(p.tracestate)]
  }

  lemma {:induction false} TracestateLineReads(value: ByteSeq)
    requires ValidFieldValue(value)
    ensures var line := TracestateLine(value);
            && (forall i | 0 <= i < |line| :: line[i] != CR)
            && WellFormedLine(line) && FieldName(line) == TRACESTATE && FieldValue(line) == TrimOws([SP] + value)
  {
    hide FindByte, TrimOws, IsTokenByte, IsValueByte, WellFormedLine, FieldName, FieldValue;
    var line := TracestateLine(value);
    NameBytes();
    assert line[10] == COLON && line[11] == SP;
    assert forall i | 0 <= i < 10 :: line[i] == TRACESTATE[i];
    assert forall i | 12 <= i < |line| :: line[i] == value[i - 12];
    LineParts(line, 10);
    WellFormedParts(line, 10);
    assert line[..10] == TRACESTATE && line[11..] == [SP] + value;
    NoCr(value);
  }

  lemma {:induction false} NameBytes()
    ensures IsValueByte(SP) && forall i | 0 <= i < 10 :: IsTokenByte(TRACESTATE[i]) && TRACESTATE[i] !in [COLON, CR]
  {}

  lemma {:induction false} NoCr(value: ByteSeq)
    requires ValidFieldValue(value)
    ensures forall i | 0 <= i < |value| :: value[i] != CR
  {}

  lemma {:induction false} SplitAt(s: ByteSeq, k: nat)
    requires FindCrlf(s) == Some(k) && k + 2 <= |s| <= MAX_PROPAGATION_HEADER_BYTES && HeaderLines(s[k + 2..]).Some?
    ensures var section := HeaderLines(s[k + 2..]).value;
            SplitHead(s) == Ok(Head(s[..k], section.lines, k + 2 + section.end))
  {
    hide FindCrlf, HeaderLines;
  }

  lemma {:induction false} GeneratedSection(p: Pending, section: ByteSeq)
    requires ValidFieldValue(p.tracestate) && HeaderLines(section).Some?
    ensures var s := HeaderLines(section).value;
            HeaderLines(GeneratedFields(p) + section) == Some(Section(GeneratedLines(p) + s.lines, |GeneratedFields(p)| + s.end))
  {
    hide FindCrlf, HeaderLines, TraceparentLine, TracestateLine, ValidFieldValue;
    var lines := HeaderLines(section).value.lines;
    GeneratedLine(p.context);
    TracestateLineReads(p.tracestate);
    var first := TraceparentLine(p.context);
    if p.tracestate == [] {
      PrependLine(first, section);
      assert GeneratedFields(p) + section == first + CRLF + section;
      assert [first] + lines == GeneratedLines(p) + lines;
    } else {
      var second := TracestateLine(p.tracestate);
      PrependLine(second, section);
      PrependLine(first, second + CRLF + section);
      TwoLines(p, section);
      assert [first] + ([second] + lines) == GeneratedLines(p) + lines;
    }
  }

  /** The request with its fields, split: the generated lines come first, the rest is as it was. */
  lemma {:induction false} MutatedHead(s: ByteSeq, p: Pending)
    requires SplitHead(s).Ok? && ValidFieldValue(p.tracestate)
    requires |s| + |GeneratedFields(p)| <= MAX_PROPAGATION_HEADER_BYTES
    ensures var head, len := SplitHead(s).value, |GeneratedFields(p)|;
            var m := Insert(s, |head.requestLine| + 2, GeneratedFields(p));
            && SplitHead(m) == Ok(Head(head.requestLine, GeneratedLines(p) + head.lines, head.end + len))
            && m[head.end + len..] == s[head.end..]
  {
    hide FindCrlf, HeaderLines, GeneratedLines, GeneratedFields, ValidFieldValue;
    var k := FindCrlf(s).value;
    var fields := GeneratedFields(p);
    RequestLineKept(s, fields);
    var section := s[k + 2..];
    GeneratedSection(p, section);
    SplitAt(s, k);
    SplitAt(Insert(s, k + 2, fields), k);
  }

  lemma {:induction false} TwoLines(p: Pending, section: ByteSeq)
    requires p.tracestate != []
    ensures GeneratedFields(p) + section == TraceparentLine(p.context) + CRLF + (TracestateLine(p.tracestate) + CRLF + section)
  {
    hide TraceparentLine;
  }

  // ----- framing -----

  /** Equal but for the tracestate flag, which framing does not use. */
  ghost predicate SameFraming(a: Result<Fields>, b: Result<Fields>)
  {
    match a
    case Err(reason) => b == Err(reason)
    case Ok(f) => b.Ok? && b.value.contentLength == f.contentLength && b.value.chunked == f.chunked
  }

  lemma {:induction false} FieldFraming(f: Fields, g: Fields, name: ByteSeq, value: ByteSeq)
    requires SameFraming(Ok(f), Ok(g))
    ensures SameFraming(NamedField(f, name, value, true), NamedField(g, name, value, true))
  {
    hide EqIgnoreCase, ContainsUpgradeToken, ParseContentLength;
  }

  lemma {:induction false} LinesFraming(f: Fields, g: Fields, lines: seq<ByteSeq>)
    requires SameFraming(Ok(f), Ok(g))
    ensures SameFraming(ReadLines(f, lines, true), ReadLines(g, lines, true))
    decreases |lines|
  {
    hide NamedField, WellFormedLine, FieldName, FieldValue;
    if lines != [] && WellFormedLine(lines[0]) {
      ColonOfWellFormed(lines[0]);
      var name, value := FieldName(lines[0]), FieldValue(lines[0]);
      FieldFraming(f, g, name, value);
      if NamedField(f, name, value, true).Ok? {
        LinesFraming(NamedField(f, name, value, true).value, NamedField(g, name, value, true).value, lines[1..]);
      }
    }
  }

  lemma {:induction false} TracestateRecognised()
    ensures EqIgnoreCase(TRACESTATE, TRACESTATE) && !EqIgnoreCase(TRACESTATE, UPGRADE) && !EqIgnoreCase(TRACESTATE, CONNECTION)
    ensures !EqIgnoreCase(TRACESTATE, TRANSFER_ENCODING) && !EqIgnoreCase(TRACESTATE, CONTENT_LENGTH)
  {
    LowerNames();
  }

  lemma {:induction false} ReadTracestate(f: Fields, value: ByteSeq, lines: seq<ByteSeq>)
    requires ValidFieldValue(value)
    ensures ReadLines(f, [TracestateLine(value)] + lines, true) == ReadLines(f.(sawTracestate := true), lines, true)
  {
    hide TracestateLine, WellFormedLine, FieldName, FieldValue, EqIgnoreCase, ReadLines;
    TracestateLineReads(value);
    TracestateRecognised();
    ReadCons(f, TracestateLine(value), lines, true);
  }

  lemma {:induction false} GeneratedFraming(p: Pending, lines: seq<ByteSeq>)
    requires ValidFieldValue(p.tracestate)
    ensures SameFraming(ReadLines(NO_FIELDS, lines, true), ReadLines(NO_FIELDS, GeneratedLines(p) + lines, true))
  {
    hide TraceparentLine, TracestateLine, ReadLines;
    if p.tracestate == [] {
      assert GeneratedLines(p) + lines == [TraceparentLine(p.context)] + lines;
      ReadGenerated(NO_FIELDS, p.context, lines, true);
    } else {
      var rest := [TracestateLine(p.tracestate)] + lines;
      assert GeneratedLines(p) + lines == [TraceparentLine(p.context)] + rest;
      ReadGenerated(NO_FIELDS, p.context, rest, true);
      ReadTracestate(NO_FIELDS, p.tracestate, lines);
      LinesFraming(NO_FIELDS, NO_FIELDS.(sawTracestate := true), lines);
    }
  }

  /**
    What the kernel-side planner accepted and the mutation filled in, a receiver reads as the same
    request with the generated context.
   */
  lemma {:induction false} ReceiverSeesContext(total: nat, p: Pending)
    requires ScanPlan(p.request, total, false) == Some(p.insertAt) && |p.request| <= total && ValidFieldValue(p.tracestate)
    requires |p.request| + |GeneratedFields(p)| <= MAX_PROPAGATION_HEADER_BYTES
    ensures SplitHead(p.request).Ok?
    ensures var head, len := SplitHead(p.request).value, |GeneratedFields(p)|;
            var m := Insert(p.request, p.insertAt, GeneratedFields(p));
            && SplitHead(m) == Ok(Head(head.requestLine, GeneratedLines(p) + head.lines, head.end + len))
            && m[head.end + len..] == p.request[head.end..]
            && ExtractTraceparent(m) == (if Usable(p.context) then Some(p.context) else None)
            && (Plan(m, total + len, true).Inject? <==> Plan(p.request, total, true).Inject?)
  {
    hide SplitHead, ScanPlan, ValidateRequestLine, ReadLines, FrameBody, GeneratedLines, ScanLines, LengthsAgree, ChunksAllow,
      FirstTraceparent, Usable;
    var s := p.request;
    var end, f, head, g := AcceptedHead(s, total, false);
    MutatedHead(s, p);
    GeneratedFraming(p, head.lines);
    GeneratedFirst(p, head.lines);
    var before, after := ReadLines(NO_FIELDS, head.lines, true), ReadLines(NO_FIELDS, GeneratedLines(p) + head.lines, true);
    if before.Ok? {
      FrameAlike(before.value, after.value, s[head.end..], total - |s|);
    }
  }

  lemma {:induction false} FrameAlike(f: Fields, g: Fields, body: ByteSeq, unseen: nat)
    requires SameFraming(Ok(f), Ok(g))
    ensures FrameBody(f, body, unseen, true) == FrameBody(g, body, unseen, true)
  {
    hide ChunkedFrom;
  }

  lemma {:induction false} GeneratedFirst(p: Pending, lines: seq<ByteSeq>)
    ensures FirstTraceparent(GeneratedLines(p) + lines) == if Usable(p.context) then Some(p.context) else None
  {
    hide FirstTraceparent, TraceparentLine, TracestateLine, Usable;
    var rest := (if p.tracestate == [] then [] else [TracestateLine(p.tracestate)]) + lines;
    assert GeneratedLines(p) + lines == [TraceparentLine(p.context)] + rest;
    ExtractGenerated(p.context, rest);
  }
}
