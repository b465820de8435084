/**
  The host library's copy of a request's tracestate: the values of all tracestate fields, in wire
  order, joined by commas, and valid as one list.
 */
module TracestateCopy {
  import opened Bytes
  import opened ChunkedBody
  import opened Http1
  import opened Tracestate

  datatype Copy = Copied(value: Option<ByteSeq>) | Failed(error: TraceStateError)

  function Join(list: Option<ByteSeq>, value: ByteSeq): ByteSeq
  {
    match list case None => value case Some(first) => first + [COMMA] + value
  }

  /** The list so far, and the tracestate fields among the remaining lines. */
  function CopyLines(lines: seq<ByteSeq>, list: Option<ByteSeq>): Copy
    decreases |lines|
  {
    if lines == [] then Copied(list)
    else if !WellFormedLine(lines[0]) then Failed(MalformedHttp1)
    else if !EqIgnoreCase(FieldName(lines[0]), TRACESTATE) then CopyLines(lines[1..], list)
    else
      var joined := Join(list, FieldValue(lines[0]));
      if |joined| > MAX_TRACESTATE_BYTES then Failed(TooLong) else CopyLines(lines[1..], Some(joined))
  }

  ghost function Validated(copy: Copy): Copy
  {
    match copy
    case Copied(Some(value)) => if Verdict(value).Some? then Failed(Verdict(value).value) else copy
    case _ => copy
  }

  ghost function TracestateOf(message: ByteSeq): Copy
  {
    match SplitHead(message)
    case Err(_) => Failed(MalformedHttp1)
    case Ok(head) =>
      if ValidateRequestLine(head.requestLine).Err? then Failed(MalformedHttp1) else Validated(CopyLines(head.lines, None))
  }

  // ----- the loops of the library -----

  /** What a call reports: a failure, no field, or the length of the list in the output buffer. */
  datatype Report = Nothing | Length(bytes: nat) | Error(error: TraceStateError)

  ghost predicate Reports(r: Report, output: ByteSeq, copy: Copy)
  {
    match copy
    case Failed(error) => r == Error(error)
    case Copied(None) => r == Nothing
    case Copied(Some(value)) => r == Length(|value|) && |value| <= |output| && output[..|value|] == value
  }

  method CopyBytes(output: array<Byte>, at: nat, value: ByteSeq)
    requires at + |value| <= output.Length
    modifies output
    ensures output[..at + |value|] == old(output[..at]) + value
  {
    for i := 0 to |value|
      invariant output[..at + i] == old(output[..at]) + value[..i]
    {
      output[at + i] := value[i];
      assert output[..at + i + 1] == output[..at + i] + [value[i]];
      assert value[..i + 1] == value[..i] + [value[i]];
    }
    assert value[..|value|] == value;
  }

  /** Appends one field value to the list in the buffer. */
  method AppendValue(output: array<Byte>, found: bool, len: nat, value: ByteSeq) returns (end: Option<nat>)
    requires output.Length == MAX_TRACESTATE_BYTES && len <= MAX_TRACESTATE_BYTES && (!found ==> len == 0)
    modifies output
    ensures var joined := Join(if found then Some(old(output[..len])) else None, value);
            if |joined| > MAX_TRACESTATE_BYTES then end.None?
            else end == Some(|joined|) && output[..|joined|] == joined
  {
    var outputLen := len;
    if found {
      if outputLen >= MAX_TRACESTATE_BYTES {
        return None;
      }
      output[outputLen] := COMMA;
      outputLen := outputLen + 1;
      assert output[..outputLen] == old(output[..len]) + [COMMA];
    }
    if outputLen + |value| > MAX_TRACESTATE_BYTES {
      return None;
    }
    CopyBytes(output, outputLen, value);
    end := Some(outputLen + |value|);
  }

  lemma {:induction false} CopyStep(lines: seq<ByteSeq>, list: Option<ByteSeq>)
    requires lines != []
    ensures CopyLines(lines, list) ==
            if !WellFormedLine(lines[0]) then Failed(MalformedHttp1)
            else if !EqIgnoreCase(FieldName(lines[0]), TRACESTATE) then CopyLines(lines[1..], list)
            else if |Join(list, FieldValue(lines[0]))| > MAX_TRACESTATE_BYTES then Failed(TooLong)
            else CopyLines(lines[1..], Some(Join(list, FieldValue(lines[0]))))
  {
    hide WellFormedLine, FieldName, FieldValue, EqIgnoreCase, Join;
  }

  method CopyFields(message: ByteSeq, start: nat, headerEnd: nat, output: array<Byte>, ghost lines: seq<ByteSeq>)
    returns (r: Report)
    requires start <= headerEnd <= |message| && output.Length == MAX_TRACESTATE_BYTES
    requires HeaderLines(message[start..]) == Some(Section(lines, headerEnd - start))
    modifies output
    ensures Reports(r, output[..], CopyLines(lines, None))
  {
    hide FindCrlf, FindByte, HeaderLines, CopyLines, Join, EqIgnoreCase, TrimOws, ValidFieldName, ValidFieldValue;
    var found, outputLen, lineStart := false, 0, start;
    ghost var rest := lines;
    ghost var list: Option<ByteSeq> := None;
    while lineStart + 2 <= headerEnd
      invariant lineStart <= headerEnd && 0 <= outputLen <= MAX_TRACESTATE_BYTES && (!found ==> outputLen == 0)
      invariant HeaderLines(message[lineStart..]) == Some(Section(rest, headerEnd - lineStart))
      invariant list == if found then Some(output[..outputLen]) else None
      invariant CopyLines(lines, None) == CopyLines(rest, list)
      decreases headerEnd - lineStart
    {
      SectionPrefix(message[lineStart..headerEnd], message[lineStart..]);
      NextLine(message[lineStart..]);
      var lineEnd := ScanCrlf(message[lineStart..headerEnd]);
      if lineEnd.value == 0 {
        break;
      }
      var line := message[lineStart..lineStart + lineEnd.value];
      assert line == message[lineStart..][..lineEnd.value];
      assert message[lineStart..][lineEnd.value + 2..] == message[lineStart + lineEnd.value + 2..];
      CopyStep(rest, list);
      var colon := FindByte(line, COLON);
      if colon.None? || !ValidFieldName(line[..colon.value]) || !ValidFieldValue(TrimOws(line[colon.value + 1..])) {
        return Error(MalformedHttp1);
      }
      if EqIgnoreCase(line[..colon.value], TRACESTATE) {
        var end := AppendValue(output, found, outputLen, TrimOws(line[colon.value + 1..]));
        if end.None? {
          return Error(TooLong);
        }
        found, outputLen := true, end.value;
        list := Some(Join(list, FieldValue(line)));
      }
      rest := rest[1..];
      lineStart := lineStart + lineEnd.value + 2;
    }
    NoLines(rest, message, lineStart, headerEnd, list);
    r := if found then Length(outputLen) else Nothing;
  }

  lemma {:induction false} NoLines(rest: seq<ByteSeq>, message: ByteSeq, at: nat, headerEnd: nat, list: Option<ByteSeq>)
    requires at <= headerEnd && at <= |message| && HeaderLines(message[at..]) == Some(Section(rest, headerEnd - at))
    requires headerEnd - at < 2 || FindCrlf(message[at..]) == Some(0)
    ensures CopyLines(rest, list) == Copied(list)
  {
    hide FindCrlf;
  }

  method CopyTracestate(message: ByteSeq, output: array<Byte>) returns (r: Report)
    requires output.Length == MAX_TRACESTATE_BYTES
    modifies output
    ensures Reports(r, output[..], TracestateOf(message))
  {
    hide SplitHead, ValidateRequestLine, CopyLines, Verdict;
    var boundaries := FindBoundaries(message);
    if boundaries.Err? {
      return Error(MalformedHttp1);
    }
    var (requestLineEnd, headerEnd) := boundaries.value;
    HeadOfSplit(message);
    ghost var head := SplitHead(message).value;
    if ValidateRequestLine(message[..requestLineEnd]).Err? {
      return Error(MalformedHttp1);
    }
    r := CopyFields(message, requestLineEnd + 2, headerEnd, output, head.lines);
    if r.Length? {
      var fault := ValidateTracestate(output[..r.bytes]);
      if fault.Some? {
        return Error(fault.value);
      }
    }
  }
}
