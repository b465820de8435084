/**
  The host library's HTTP/1 planner: where a generated trace header may be inserted into a
  captured request, and why not. The functions read the header section as a list of lines;
  the methods are the library's cursor loops, proved to compute the same decision.
 */
module Http1 {
  import opened Bytes
  import opened ChunkedBody

  const MAX_PROPAGATION_HEADER_BYTES: nat := 1024

  datatype BypassReason =
    | Empty | HeadersTooLarge | IncompleteHeaders | NotHttp1 | UnsupportedMethod
    | ExistingTraceparent | OrphanTracestate | ProtocolUpgrade | UnsupportedTransferEncoding
    | AmbiguousMessageFraming | InvalidChunkedBody | UncapturedChunkedBody
    | InvalidContentLength | AmbiguousContentLength | InconsistentLength | BytesAfterBody

  datatype Decision = Inject(insertAt: nat) | Bypass(reason: BypassReason)

  datatype Result<+T> = Ok(value: T) | Err(reason: BypassReason)

  // ----- lines -----

  /** The header lines after the request line, and the length of the section with its blank line. */
  datatype Section = Section(lines: seq<ByteSeq>, end: nat)

  function HeaderLines(s: ByteSeq): (r: Option<Section>)
    ensures r.Some? ==> 2 <= r.value.end <= |s|
    decreases |s|
  {
    match FindCrlf(s)
    case None => None
    case Some(k) =>
      if k == 0 then Some(Section([], 2))
      else
        match HeaderLines(s[k + 2..])
        case None => None
        case Some(rest) => Some(Section([s[..k]] + rest.lines, k + 2 + rest.end))
  }

  /** One step through a header section. */
  lemma {:induction false} NextLine(s: ByteSeq)
    requires FindCrlf(s).Some?
    ensures var k := FindCrlf(s).value;
            if k == 0 then HeaderLines(s) == Some(Section([], 2))
            else
              && (HeaderLines(s).Some? <==> HeaderLines(s[k + 2..]).Some?)
              && (HeaderLines(s).Some? ==>
                    var rest := HeaderLines(s[k + 2..]).value;
                    HeaderLines(s).value == Section([s[..k]] + rest.lines, k + 2 + rest.end))
  {
    hide FindCrlf;
  }

  lemma {:induction false} NoLine(s: ByteSeq)
    requires FindCrlf(s).None?
    ensures HeaderLines(s).None?
  {}

  /** A message split at its request line, its header lines and its body. */
  datatype Head = Head(requestLine: ByteSeq, lines: seq<ByteSeq>, end: nat)

  function SplitHead(message: ByteSeq): (r: Result<Head>)
    ensures r.Ok? ==> r.value.end <= |message| && |r.value.requestLine| + 2 <= r.value.end
  {
    if message == [] then Err(Empty)
    else if |message| > MAX_PROPAGATION_HEADER_BYTES then Err(HeadersTooLarge)
    else
      match FindCrlf(message)
      case None => Err(IncompleteHeaders)
      case Some(k) =>
        match HeaderLines(message[k + 2..])
        case None => Err(IncompleteHeaders)
        case Some(section) => Ok(Head(message[..k], section.lines, k + 2 + section.end))
  }

  // ----- request line (section 3 of RFC 9112) -----

  const METHOD_CONNECT: ByteSeq := [67, 79, 78, 78, 69, 67, 84]
  const METHOD_PRI: ByteSeq := [80, 82, 73]
  // "HTTP/1."
  const VERSION_PREFIX: ByteSeq := [72, 84, 84, 80, 47, 49, 46]

  predicate IsMethodByte(b: Byte) { IsUpper(b) || b == DASH }
  predicate IsTargetByte(b: Byte) { 0x21 <= b <= 0x7e }

  predicate ValidMethod(verb: ByteSeq)
  {
    1 <= |verb| <= 16 && forall i | 0 <= i < |verb| :: IsMethodByte(verb[i])
  }

  predicate ValidTarget(target: ByteSeq)
  {
    target != [] && forall i | 0 <= i < |target| :: IsTargetByte(target[i])
  }

  predicate ValidVersion(version: ByteSeq)
  {
    version == VERSION_PREFIX + [49] || version == VERSION_PREFIX + [48]
  }

  function ValidateRequestLine(line: ByteSeq): (r: Result<()>)
  {
    match FindByte(line, SP)
    case None => Err(NotHttp1)
    case Some(first) =>
      var remaining := line[first + 1..];
      match FindByte(remaining, SP)
      case None => Err(NotHttp1)
      case Some(second) =>
        var verb, target, version := line[..first], remaining[..second], remaining[second + 1..];
        if !ValidMethod(verb) || !ValidTarget(target) || FindByte(version, SP).Some? then Err(NotHttp1)
        else if verb == METHOD_CONNECT || verb == METHOD_PRI then Err(UnsupportedMethod)
        else if !ValidVersion(version) then Err(NotHttp1)
        else Ok(())
  }

  // ----- header fields -----

  predicate AllDigits(s: ByteSeq) { forall i | 0 <= i < |s| :: IsDigit(s[i]) }

  function DecimalValue(s: ByteSeq): nat
    requires AllDigits(s)
  {
    if s == [] then 0 else 10 * DecimalValue(s[..|s| - 1]) + (s[|s| - 1] - 48)
  }

  /** A decimal length that fits 32 bits. */
  function ParseContentLength(value: ByteSeq): (r: Option<nat>)
  {
    if value != [] && AllDigits(value) && DecimalValue(value) <= U32_MAX then Some(DecimalValue(value)) else None
  }

  lemma {:induction false} DecimalGrows(s: ByteSeq, k: nat)
    requires AllDigits(s) && k <= |s|
    ensures DecimalValue(s[..k]) <= DecimalValue(s)
  {
    if k < |s| {
      DecimalGrows(s[..|s| - 1], k);
      assert s[..|s| - 1][..k] == s[..k];
    } else {
      assert s[..k] == s;
    }
  }

  /** The digit loop with its overflow checks. */
  method ScanContentLength(value: ByteSeq) returns (r: Option<nat>)
    ensures r == ParseContentLength(value)
  {
    if value == [] {
      return None;
    }
    var parsed := 0;
    for i := 0 to |value|
      invariant AllDigits(value[..i]) && parsed == DecimalValue(value[..i]) <= USIZE_MAX
    {
      if !IsDigit(value[i]) {
        return None;
      }
      assert value[..i + 1][..i] == value[..i];
      parsed := parsed * 10 + (value[i] - 48);
      assert parsed == DecimalValue(value[..i + 1]);
      if parsed > USIZE_MAX {
        if AllDigits(value) {
          DecimalGrows(value, i + 1);
        }
        return None;
      }
    }
    assert value[..|value|] == value;
    r := if parsed <= U32_MAX then Some(parsed) else None;
  }

  /** Some comma-separated member of the value is the token "upgrade". */
  predicate ContainsUpgradeToken(value: ByteSeq)
    decreases |value|
  {
    match FindByte(value, COMMA)
    case None => EqIgnoreCase(TrimOws(value), UPGRADE)
    case Some(k) => EqIgnoreCase(TrimOws(value[..k]), UPGRADE) || ContainsUpgradeToken(value[k + 1..])
  }

  /** What the header section has established so far. */
  datatype Fields = Fields(contentLength: Option<nat>, chunked: bool, sawTracestate: bool)

  const NO_FIELDS := Fields(None, false, false)

  function FieldName(line: ByteSeq): ByteSeq
    requires FindByte(line, COLON).Some?
  {
    line[..FindByte(line, COLON).value]
  }

  function FieldValue(line: ByteSeq): ByteSeq
    requires FindByte(line, COLON).Some?
  {
    TrimOws(line[FindByte(line, COLON).value + 1..])
  }

  predicate WellFormedLine(line: ByteSeq)
  {
    FindByte(line, COLON).Some? && ValidFieldName(FieldName(line)) && ValidFieldValue(FieldValue(line))
  }

  function NamedField(fields: Fields, name: ByteSeq, value: ByteSeq, inbound: bool): (r: Result<Fields>)
  {
    if !inbound && EqIgnoreCase(name, TRACEPARENT) then Err(ExistingTraceparent)
    else
      var seen := fields.(sawTracestate := fields.sawTracestate || EqIgnoreCase(name, TRACESTATE));
      if EqIgnoreCase(name, UPGRADE) || (EqIgnoreCase(name, CONNECTION) && ContainsUpgradeToken(value)) then
        Err(ProtocolUpgrade)
      else if EqIgnoreCase(name, TRANSFER_ENCODING) then
        if fields.chunked || !EqIgnoreCase(value, CHUNKED) then Err(UnsupportedTransferEncoding)
        else Ok(seen.(chunked := true))
      else if EqIgnoreCase(name, CONTENT_LENGTH) then
        if fields.contentLength.Some? then Err(AmbiguousContentLength)
        else
          match ParseContentLength(value)
          case None => Err(InvalidContentLength)
          case Some(parsed) => Ok(seen.(contentLength := Some(parsed)))
      else Ok(seen)
  }

  function ReadLine(fields: Fields, line: ByteSeq, inbound: bool): (r: Result<Fields>)
  {
    if !WellFormedLine(line) then Err(NotHttp1)
    else NamedField(fields, FieldName(line), FieldValue(line), inbound)
  }

  function ReadLines(fields: Fields, lines: seq<ByteSeq>, inbound: bool): (r: Result<Fields>)
    decreases |lines|
  {
    if lines == [] then Ok(fields)
    else
      match ReadLine(fields, lines[0], inbound)
      case Err(reason) => Err(reason)
      case Ok(next) => ReadLines(next, lines[1..], inbound)
  }

  // ----- body framing (section 6.3 of RFC 9112) -----

  function FrameBody(fields: Fields, body: ByteSeq, unseen: nat, inbound: bool): (r: Result<()>)
  {
    var bodyBytes := |body| + unseen;
    if fields.chunked && fields.contentLength.Some? then Err(AmbiguousMessageFraming)
    else if fields.chunked then
      if unseen > 0 then Err(UncapturedChunkedBody)
      else
        match ChunkedBodyStatus(body)
        case Incomplete => if inbound then Err(IncompleteHeaders) else Ok(())
        case Complete => Ok(())
        case TrailingData => Err(BytesAfterBody)
        case Invalid => Err(InvalidChunkedBody)
    else
      match fields.contentLength
      case None => if bodyBytes != 0 then Err(BytesAfterBody) else Ok(())
      case Some(declared) =>
        if bodyBytes > declared || (inbound && bodyBytes != declared) then Err(BytesAfterBody) else Ok(())
  }

  function Conclude(head: Head, fields: Fields, prefix: ByteSeq, total: nat, inbound: bool): (r: Decision)
    requires head.end <= |prefix| <= total
  {
    match FrameBody(fields, prefix[head.end..], total - |prefix|, inbound)
    case Err(reason) => Bypass(reason)
    case Ok(_) =>
      if !inbound && fields.sawTracestate then Bypass(OrphanTracestate)
      else Inject(|head.requestLine| + 2)
  }

  /** The decision for a captured prefix of a message of `total` bytes. */
  function Plan(prefix: ByteSeq, total: nat, inbound: bool): (r: Decision)
    ensures r.Inject? ==> r.insertAt <= |prefix| <= total
  {
    if total < |prefix| then Bypass(InconsistentLength)
    else
      match SplitHead(prefix)
      case Err(reason) => Bypass(reason)
      case Ok(head) =>
        match ValidateRequestLine(head.requestLine)
        case Err(reason) => Bypass(reason)
        case Ok(_) =>
          match ReadLines(NO_FIELDS, head.lines, inbound)
          case Err(reason) => Bypass(reason)
          case Ok(fields) => Conclude(head, fields, prefix, total, inbound)
  }

  // ----- the cursor loops of the library -----

  lemma {:induction false} SectionPrefix(s: ByteSeq, t: ByteSeq)
    requires s <= t && HeaderLines(t).Some? && HeaderLines(t).value.end <= |s|
    ensures FindCrlf(s) == FindCrlf(t) && FindCrlf(t).Some?
  {
    hide FindCrlf;
    var k := FindCrlf(t).value;
    assert forall i | 0 <= i < |s| :: s[i] == t[i];
    assert CrlfAt(s, k);
    forall j | 0 <= j < k
      ensures !CrlfAt(s, j)
    {
      assert !CrlfAt(t, j);
    }
  }

  method FindBoundaries(message: ByteSeq) returns (r: Result<(nat, nat)>)
    ensures r.Err? <==> SplitHead(message).Err?
    ensures r.Err? ==> r.reason == SplitHead(message).reason
    ensures r.Ok? ==> var head := SplitHead(message).value;
                      r.value == (|head.requestLine|, head.end)
  {
    hide FindCrlf, HeaderLines;
    if message == [] {
      return Err(Empty);
    }
    if |message| > MAX_PROPAGATION_HEADER_BYTES {
      return Err(HeadersTooLarge);
    }
    var first := ScanCrlf(message);
    if first.None? {
      return Err(IncompleteHeaders);
    }
    var index := first.value + 2;
    ghost var whole := HeaderLines(message[index..]);
    ghost var start := index;
    while index <= |message|
      invariant start <= index <= |message|
      invariant HeaderLines(message[index..]).Some? <==> whole.Some?
      invariant whole.Some? ==> start + whole.value.end == index + HeaderLines(message[index..]).value.end
      decreases |message| - index
    {
      var remaining := message[index..];
      var lineEnd := ScanCrlf(remaining);
      if lineEnd.None? {
        NoLine(remaining);
        return Err(IncompleteHeaders);
      }
      NextLine(remaining);
      if lineEnd.value == 0 {
        return Ok((first.value, index + 2));
      }
      assert message[index + lineEnd.value + 2..] == remaining[lineEnd.value + 2..];
      index := index + lineEnd.value + 2;
    }
    r := Err(IncompleteHeaders);
  }

  /** The framing checks; only a fully captured chunked body is classified. */
  method CheckBody(fields: Fields, body: ByteSeq, unseen: nat, inbound: bool) returns (r: Result<()>)
    ensures r == FrameBody(fields, body, unseen, inbound)
  {
    hide ChunkedBodyStatus;
    if fields.chunked {
      if fields.contentLength.Some? {
        return Err(AmbiguousMessageFraming);
      }
      if unseen > 0 {
        return Err(UncapturedChunkedBody);
      }
      var status := ClassifyChunkedBody(body);
      match status
      case Complete => return Ok(());
      case Incomplete => return if inbound then Err(IncompleteHeaders) else Ok(());
      case TrailingData => return Err(BytesAfterBody);
      case Invalid => return Err(InvalidChunkedBody);
    }
    var bodyBytes := |body| + unseen;
    if fields.contentLength.None? {
      return if bodyBytes != 0 then Err(BytesAfterBody) else Ok(());
    }
    var declared := fields.contentLength.value;
    if bodyBytes > declared || (inbound && bodyBytes != declared) {
      return Err(BytesAfterBody);
    }
    r := Ok(());
  }

  method PlanRequest(prefix: ByteSeq, total: nat, inbound: bool) returns (r: Decision)
    ensures r == Plan(prefix, total, inbound)
  {
    hide FindCrlf, SplitHead, ValidateRequestLine, ReadLine, HeaderLines, FrameBody, ReadLines;
    if total < |prefix| {
      return Bypass(InconsistentLength);
    }
    var boundaries := FindBoundaries(prefix);
    if boundaries.Err? {
      return Bypass(boundaries.reason);
    }
    var (requestLineEnd, headerEnd) := boundaries.value;
    HeadOfSplit(prefix);
    ghost var head := SplitHead(prefix).value;
    var requestLine := ValidateRequestLine(prefix[..requestLineEnd]);
    if requestLine.Err? {
      return Bypass(requestLine.reason);
    }
    var fields := ReadFields(prefix, requestLineEnd + 2, headerEnd, inbound, head.lines);
    if fields.Err? {
      return Bypass(fields.reason);
    }
    var framing := CheckBody(fields.value, prefix[headerEnd..], total - |prefix|, inbound);
    if framing.Err? {
      return Bypass(framing.reason);
    }
    if !inbound && fields.value.sawTracestate {
      return Bypass(OrphanTracestate);
    }
    r := Inject(requestLineEnd + 2);
  }

  lemma {:induction false} HeadOfSplit(message: ByteSeq)
    requires SplitHead(message).Ok?
    ensures var head := SplitHead(message).value; var k := |head.requestLine|;
            && head.requestLine == message[..k]
            && HeaderLines(message[k + 2..]) == Some(Section(head.lines, head.end - k - 2))
  {
    hide FindCrlf, HeaderLines;
  }

  /** The planner's loop over the header lines. */
  method ReadFields(message: ByteSeq, start: nat, headerEnd: nat, inbound: bool, ghost lines: seq<ByteSeq>)
    returns (r: Result<Fields>)
    requires start <= headerEnd <= |message|
    requires HeaderLines(message[start..]) == Some(Section(lines, headerEnd - start))
    ensures r == ReadLines(NO_FIELDS, lines, inbound)
  {
    hide FindCrlf, ReadLine, HeaderLines;
    var fields := NO_FIELDS;
    var lineStart := start;
    ghost var rest := lines;
    while lineStart + 2 <= headerEnd
      invariant lineStart <= headerEnd
      invariant HeaderLines(message[lineStart..]) == Some(Section(rest, headerEnd - lineStart))
      invariant ReadLines(NO_FIELDS, lines, inbound) == ReadLines(fields, rest, inbound)
      decreases headerEnd - lineStart
    {
      SectionPrefix(message[lineStart..headerEnd], message[lineStart..]);
      NextLine(message[lineStart..]);
      var lineEnd := ScanCrlf(message[lineStart..headerEnd]);
      if lineEnd.value == 0 {
        break;
      }
      var line := message[lineStart..lineStart + lineEnd.value];
      assert line == message[lineStart..][..lineEnd.value];
      assert message[lineStart..][lineEnd.value + 2..] == message[lineStart + lineEnd.value + 2..];
      var step := ReadLine(fields, line, inbound);
      if step.Err? {
        return Err(step.reason);
      }
      fields := step.value;
      rest := rest[1..];
      lineStart := lineStart + lineEnd.value + 2;
    }
    r := Ok(fields);
  }
}
