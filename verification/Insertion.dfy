/**
  Inserting a generated traceparent field where the planner says: it is read back exactly, the
  message is not eligible a second time, and nothing else about the message changes.
 */
module Insertion {
  import opened Bytes
  import opened ChunkedBody
  import opened Http1
  import opened TraceContext

  // ----- reading a traceparent back -----

  function FirstTraceparent(lines: seq<ByteSeq>): (r: Option<Context>)
  {
    if lines == [] || FindByte(lines[0], COLON).None? then None
    else if EqIgnoreCase(FieldName(lines[0]), TRACEPARENT) then ParseTraceparentValue(FieldValue(lines[0]))
    else FirstTraceparent(lines[1..])
  }

  function ExtractTraceparent(message: ByteSeq): (r: Option<Context>)
  {
    match SplitHead(message)
    case Err(_) => None
    case Ok(head) =>
      if ValidateRequestLine(head.requestLine).Err? then None else FirstTraceparent(head.lines)
  }

  method ReadTraceparent(message: ByteSeq) returns (r: Option<Context>)
    ensures r == ExtractTraceparent(message)
  {
    hide FindCrlf, FindByte, SplitHead, ValidateRequestLine, HeaderLines, ParseTraceparentValue, EqIgnoreCase, TrimOws;
    var boundaries := FindBoundaries(message);
    if boundaries.Err? {
      return None;
    }
    HeadOfSplit(message);
    var (requestLineEnd, headerEnd) := boundaries.value;
    if ValidateRequestLine(message[..requestLineEnd]).Err? {
      return None;
    }
    ghost var rest := SplitHead(message).value.lines;
    var lineStart := requestLineEnd + 2;
    while lineStart + 2 <= headerEnd
      invariant lineStart <= headerEnd <= |message|
      invariant HeaderLines(message[lineStart..]) == Some(Section(rest, headerEnd - lineStart))
      invariant FirstTraceparent(rest) == ExtractTraceparent(message)
      decreases headerEnd - lineStart
    {
      SectionPrefix(message[lineStart..headerEnd], message[lineStart..]);
      NextLine(message[lineStart..]);
      var lineEnd := ScanCrlf(message[lineStart..headerEnd]);
      if lineEnd.value == 0 {
        return None;
      }
      var line := message[lineStart..lineStart + lineEnd.value];
      assert line == message[lineStart..][..lineEnd.value];
      assert message[lineStart..][lineEnd.value + 2..] == message[lineStart + lineEnd.value + 2..];
      if FindByte(line, COLON).None? {
        return None;
      }
      if EqIgnoreCase(FieldName(line), TRACEPARENT) {
        return ParseTraceparentValue(FieldValue(line));
      }
      rest := rest[1..];
      lineStart := lineStart + lineEnd.value + 2;
    }
    r := None;
  }

  // ----- a line put in front of a header section -----

  lemma {:induction false} PrependLine(line: ByteSeq, s: ByteSeq)
    requires line != [] && forall i | 0 <= i < |line| :: line[i] != CR
    ensures var t := line + CRLF + s;
            && FindCrlf(t) == Some(|line|)
            && (HeaderLines(t).Some? <==> HeaderLines(s).Some?)
            && (HeaderLines(s).Some? ==>
                  HeaderLines(t).value == Section([line] + HeaderLines(s).value.lines, |line| + 2 + HeaderLines(s).value.end))
  {
    hide FindCrlf, HeaderLines;
    var t := line + CRLF + s;
    assert t[..|line|] == line && t[|line| + 2..] == s;
    assert CrlfAt(t, |line|);
    assert forall j | 0 <= j < |line| :: t[j] == line[j];
    NextLine(t);
  }

  lemma {:induction false} TrimPadded(v: ByteSeq)
    requires v != [] && !IsOws(v[0]) && !IsOws(v[|v| - 1])
    ensures TrimOws([SP] + v) == v
  {
    assert ([SP] + v)[1..] == v;
    assert TrimLeft(v) == v;
  }

  /** The generated line is a well-formed field named traceparent that carries the context. */
  lemma {:induction false} GeneratedLine(c: Context)
    ensures var line := TraceparentLine(c);
            && (forall i | 0 <= i < |line| :: line[i] != CR)
            && WellFormedLine(line) && FieldName(line) == TRACEPARENT && FieldValue(line) == TraceparentValue(c)
  {
    hide FindByte, EncodeHex, TrimOws;
    var line, v := TraceparentLine(c), TraceparentValue(c);
    ValueBytes(c);
    assert line == TRACEPARENT + [COLON, SP] + v;
    assert forall i | 0 <= i < 11 :: line[i] == TRACEPARENT[i] && line[i] != COLON;
    assert line[11] == COLON;
    assert FindByte(line, COLON) == Some(11);
    assert line[..11] == TRACEPARENT;
    assert line[12..] == [SP] + v;
    TrimPadded(v);
  }

  lemma {:induction false} ValueBytes(c: Context)
    ensures var v := TraceparentValue(c);
            forall i | 0 <= i < |v| :: v[i] == DASH || IsHexDigit(v[i])
  {
    hide EncodeHex;
    HexInverse(c.traceId);
    HexInverse(c.spanId);
    HexInverse([c.flags]);
  }

  lemma {:induction false} DistinctNames()
    ensures !EqIgnoreCase(TRACEPARENT, TRACESTATE) && !EqIgnoreCase(TRACEPARENT, UPGRADE)
    ensures !EqIgnoreCase(TRACEPARENT, CONNECTION) && !EqIgnoreCase(TRACEPARENT, TRANSFER_ENCODING)
    ensures !EqIgnoreCase(TRACEPARENT, CONTENT_LENGTH)
  {
    assert Lower(TRACEPARENT)[5] == 112 && |Lower(TRACEPARENT)| == 11;
  }

  // ----- the round trip -----

  function Insert(message: ByteSeq, at: nat, header: ByteSeq): ByteSeq
    requires at <= |message|
  {
    message[..at] + header + message[at..]
  }

  lemma {:induction false} RequestLineKept(prefix: ByteSeq, header: ByteSeq)
    requires FindCrlf(prefix).Some?
    ensures var k := FindCrlf(prefix).value; var m := Insert(prefix, k + 2, header);
            FindCrlf(m) == Some(k) && m[..k] == prefix[..k] && m[k + 2..] == header + prefix[k + 2..]
  {
    hide FindCrlf;
    var k := FindCrlf(prefix).value;
    var m := Insert(prefix, k + 2, header);
    assert forall j | 0 <= j < k + 2 :: m[j] == prefix[j];
    assert CrlfAt(m, k);
    forall j | 0 <= j < k
      ensures !CrlfAt(m, j)
    {
      assert !CrlfAt(prefix, j);
    }
  }

  /** Inserting the field adds one line after the request line and moves nothing else. */
  lemma {:induction false} InsertedHead(prefix: ByteSeq, c: Context)
    requires SplitHead(prefix).Ok? && |prefix| + TRACEPARENT_HEADER_BYTES <= MAX_PROPAGATION_HEADER_BYTES
    ensures var head := SplitHead(prefix).value;
            var m := Insert(prefix, |head.requestLine| + 2, TraceparentHeader(c));
            && SplitHead(m) == Ok(Head(head.requestLine, [TraceparentLine(c)] + head.lines, head.end + TRACEPARENT_HEADER_BYTES))
            && m[head.end + TRACEPARENT_HEADER_BYTES..] == prefix[head.end..]
  {
    hide FindCrlf, HeaderLines, TraceparentLine;
    var k := FindCrlf(prefix).value;
    RequestLineKept(prefix, TraceparentHeader(c));
    GeneratedLine(c);
    PrependLine(TraceparentLine(c), prefix[k + 2..]);
  }

  lemma {:induction false} ReadGenerated(fields: Fields, c: Context, lines: seq<ByteSeq>, inbound: bool)
    ensures ReadLines(fields, [TraceparentLine(c)] + lines, inbound) ==
            if inbound then ReadLines(fields, lines, inbound) else Err(ExistingTraceparent)
  {
    hide TraceparentLine, WellFormedLine, FieldName, FieldValue, EqIgnoreCase;
    GeneratedLine(c);
    DistinctNames();
    assert EqIgnoreCase(TRACEPARENT, TRACEPARENT) by { SameName(TRACEPARENT); }
    var all := [TraceparentLine(c)] + lines;
    assert all[0] == TraceparentLine(c) && all[1..] == lines;
    assert fields.(sawTracestate := fields.sawTracestate) == fields;
  }

  lemma {:induction false} SameName(name: ByteSeq)
    ensures EqIgnoreCase(name, name)
  {}

  /** The planner's promise: what it allows to be inserted is read back, once, and changes nothing else. */
  lemma {:induction false} InsertionRoundTrip(prefix: ByteSeq, total: nat, c: Context)
    requires Plan(prefix, total, false).Inject?
    requires |prefix| + TRACEPARENT_HEADER_BYTES <= MAX_PROPAGATION_HEADER_BYTES
    ensures var m := Insert(prefix, Plan(prefix, total, false).insertAt, TraceparentHeader(c));
            && ExtractTraceparent(m) == (if Usable(c) then Some(c) else None)
            && Plan(m, total + TRACEPARENT_HEADER_BYTES, false) == Bypass(ExistingTraceparent)
            && Plan(m, total + TRACEPARENT_HEADER_BYTES, true) == Plan(prefix, total, true)
  {
    hide SplitHead, ValidateRequestLine, ReadLines, FrameBody, TraceparentLine, TraceparentHeader, Usable;
    var head := SplitHead(prefix).value;
    var at := |head.requestLine| + 2;
    var m := Insert(prefix, at, TraceparentHeader(c));
    InsertedHead(prefix, c);
    ReadGenerated(NO_FIELDS, c, head.lines, false);
    ReadGenerated(NO_FIELDS, c, head.lines, true);
    ExtractGenerated(c, head.lines);
  }

  lemma {:induction false} ExtractGenerated(c: Context, lines: seq<ByteSeq>)
    ensures FirstTraceparent([TraceparentLine(c)] + lines) == if Usable(c) then Some(c) else None
  {
    hide TraceparentLine, WellFormedLine, FieldName, FieldValue, EqIgnoreCase, Usable, ParseTraceparentValue;
    GeneratedLine(c);
    ParseFormatted(c);
    SameName(TRACEPARENT);
    assert ([TraceparentLine(c)] + lines)[0] == TraceparentLine(c);
    assert WellFormedLine(TraceparentLine(c));
    ColonOfWellFormed(TraceparentLine(c));
  }

  lemma {:induction false} ColonOfWellFormed(line: ByteSeq)
    requires WellFormedLine(line)
    ensures FindByte(line, COLON).Some?
  {}
}
