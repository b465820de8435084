/**
  The context that the kernel side takes over from an inbound request. It is the host library's,
  for requests with one traceparent field. Generated fields do not change whether a request is
  acceptable, so what one kernel side inserts another takes over unchanged.
 */
module InboundContext {
  import opened Bytes
  import opened Ows
  import opened Fnv
  import opened ChunkedBody
  import opened Http1
  import opened TraceContext
  import opened Insertion
  import opened BpfScan
  import opened BpfRequestLine
  import opened BpfHeaders
  import opened BpfPlan
  import opened BpfTracestate
  import opened BpfTracestateCopy
  import opened BpfTraceparent
  import opened BpfTraceparentValue
  import opened HeaderAgreement
  import opened PlannerAgreement
  import opened ScanShift
  import opened InboundTracestate
  import opened MutationRoundTrip
  import opened MessageMutation
  import opened ThreadContexts
  import BpfChunked
  import RequestLineAgreement
  import Tracestate
  import TracestateAgreement
  import InboundLists
  import TracestateCopy

  // ----- extraction -----

  function ValueAt(s: ByteSeq, at: Option<int>): Option<Context>
  {
    if at.Some? && 0 <= at.value && at.value + VALUE_BYTES <= |s|
    then ParseTraceparentValue(s[at.value..at.value + VALUE_BYTES]) else None
  }

  /** A list that is not valid is dropped; the context is taken over without it. */
  function ListAt(s: ByteSeq, start: nat): ByteSeq
    requires start <= |s|
  {
    match ScanCopy(s, start, None) case Some(list) => if ScanTracestate(list) then list else [] case None => []
  }

  function Inbound(s: ByteSeq): Option<Remote>
  {
    if !ScanInbound(s, |s|) || ScanRequestLine(s).None? || ScanRequestLine(s).value > |s| then None
    else
      var start := ScanRequestLine(s).value;
      match ValueAt(s, ScanTraceparent(s, start, None))
      case None => None
      case Some(context) => Some(Remote(context, ListAt(s, start)))
  }

  method ExtractInbound(request: ByteSeq) returns (r: Option<Remote>)
    ensures r == Inbound(request)
  {
    hide ScanRequestLine, ScanTraceparent, ScanCopy, ScanTracestate, ParseTraceparentValue;
    var acceptable := AcceptInbound(request, |request|);
    if !acceptable {
      return None;
    }
    InboundSize(request);
    var start := RunRequestLine(request);
    if start.None? || start.value > |request| {
      return None;
    }
    var at := RunTraceparent(request, start.value);
    if at.None? || at.value < 0 {
      return None;
    }
    var context := ParseValue(request, at.value);
    if context.None? {
      return None;
    }
    var list := RunCopy(request, start.value);
    if list.Some? {
      var valid := RunTracestate(list.value);
      if valid {
        return Some(Remote(context.value, list.value));
      }
    }
    r := Some(Remote(context.value, []));
  }

  lemma {:induction false} InboundSize(s: ByteSeq)
    requires ScanInbound(s, |s|)
    ensures |s| <= HTTP_REQUEST_BYTES
  {
    hide ScanPlan;
    AcceptedSize(s, |s|, true);
  }

  // ----- the same fields as the host's -----

  function TraceparentFields(lines: seq<ByteSeq>): nat
  {
    if lines == [] then 0
    else (if FindByte(lines[0], COLON).Some? && EqIgnoreCase(FieldName(lines[0]), TRACEPARENT) then 1 else 0) + TraceparentFields(lines[1..])
  }

  ghost predicate AllWellFormed(lines: seq<ByteSeq>) { forall i | 0 <= i < |lines| :: WellFormedLine(lines[i]) }

  lemma {:induction false} NamedAlike(name: ByteSeq)
    ensures TraceparentName(name) <==> EqIgnoreCase(name, TRACEPARENT)
  {
    LowerNames();
  }

  /** One well-formed line of a section. */
  lemma {:induction false} SectionLine(s: ByteSeq, pos: nat) returns (n: nat, v: nat, rest: seq<ByteSeq>)
    requires pos <= |s| && HeaderLines(s[pos..]).Some? && HeaderLines(s[pos..]).value.lines != []
    requires AllWellFormed(HeaderLines(s[pos..]).value.lines)
    ensures pos < n < v && CrlfAt(s, v) && s[n] == COLON && TokenEnd(s, pos) == n && ValueEnd(s, n + 1) == v
    ensures HeaderLines(s[pos..]).value.lines == [s[pos..v]] + rest
    ensures HeaderLines(s[v + 2..]).Some? && HeaderLines(s[v + 2..]).value.lines == rest && AllWellFormed(rest)
    ensures FindByte(s[pos..v], COLON).Some? && FieldName(s[pos..v]) == s[pos..n] && FieldValue(s[pos..v]) == TrimOws(s[n + 1..v])
  {
    hide FindCrlf, FindByte, HeaderLines, TokenEnd, ValueEnd, WellFormedLine, FieldName, FieldValue, TrimOws, RawValue, AllWellFormed;
    SectionStarts(s[pos..]);
    NextLine(s[pos..]);
    var lines := HeaderLines(s[pos..]).value.lines;
    WellFormedFirst(lines);
    n, v := HostLine(s, pos);
    rest := HeaderLines(s[v + 2..]).value.lines;
    assert lines[1..] == rest;
  }

  lemma {:induction false} WellFormedFirst(lines: seq<ByteSeq>)
    requires lines != [] && AllWellFormed(lines)
    ensures WellFormedLine(lines[0]) && AllWellFormed(lines[1..])
  {
    hide WellFormedLine;
  }

  lemma {:induction false} SectionOver(s: ByteSeq, pos: nat)
    requires pos <= |s| && HeaderLines(s[pos..]).Some? && HeaderLines(s[pos..]).value.lines == []
    ensures CrlfAt(s, pos)
  {
    hide FindCrlf, HeaderLines;
    SectionStarts(s[pos..]);
    NextLine(s[pos..]);
    assert s[pos..][0] == s[pos] && s[pos..][1] == s[pos + 1];
  }

  lemma {:induction false} CountNext(line: ByteSeq, rest: seq<ByteSeq>)
    requires FindByte(line, COLON).Some?
    ensures TraceparentFields([line] + rest) == (if EqIgnoreCase(FieldName(line), TRACEPARENT) then 1 else 0) + TraceparentFields(rest)
    ensures FirstTraceparent([line] + rest) ==
            if EqIgnoreCase(FieldName(line), TRACEPARENT) then ParseTraceparentValue(FieldValue(line)) else FirstTraceparent(rest)
  {
    hide FindByte, FieldName, FieldValue, EqIgnoreCase, ParseTraceparentValue;
    var all := [line] + rest;
    assert all[0] == line && all[1..] == rest;
  }

  lemma {:induction false} ScanLine(s: ByteSeq, pos: nat, n: nat, v: nat, found: Option<int>)
    requires pos < n < v && CrlfAt(s, v) && s[n] == COLON && TokenEnd(s, pos) == n && ValueEnd(s, n + 1) == v
    ensures ScanTraceparent(s, pos, found) ==
            if !TraceparentName(s[pos..n]) then ScanTraceparent(s, v + 2, found)
            else if found.Some? || |TrimOws(s[n + 1..v])| != VALUE_BYTES then None
            else ScanTraceparent(s, v + 2, Some(n + 1 + Lead(s[n + 1..v])))
  {
    hide TokenEnd, ValueEnd, TraceparentName, TrimOws, Lead;
  }

  /** Once found, the field must not come again. */
  lemma {:induction false} FoundBefore(s: ByteSeq, pos: nat, at: int)
    requires pos <= |s| && HeaderLines(s[pos..]).Some? && AllWellFormed(HeaderLines(s[pos..]).value.lines)
    ensures ScanTraceparent(s, pos, Some(at)) == if TraceparentFields(HeaderLines(s[pos..]).value.lines) == 0 then Some(at) else None
    decreases |s| - pos
  {
    hide FindByte, HeaderLines, TokenEnd, ValueEnd, FieldName, FieldValue, TrimOws, ScanTraceparent, TraceparentName, EqIgnoreCase, AllWellFormed,
      TraceparentFields, FirstTraceparent;
    if HeaderLines(s[pos..]).value.lines == [] {
      SectionOver(s, pos);
      SectionEnd(s, pos, Some(at));
      NoFields();
    } else {
      var n, v, rest := SectionLine(s, pos);
      ScanLine(s, pos, n, v, Some(at));
      CountNext(s[pos..v], rest);
      NamedAlike(s[pos..n]);
      FoundBefore(s, v + 2, at);
    }
  }

  lemma {:induction false} NoFields()
    ensures TraceparentFields([]) == 0 && FirstTraceparent([]).None?
  {}

  /** The value found by position is the trimmed field value. */
  lemma {:induction false} TrimmedAt(s: ByteSeq, n: nat, v: nat)
    requires n < v <= |s| && |TrimOws(s[n + 1..v])| == VALUE_BYTES
    ensures var at := n + 1 + Lead(s[n + 1..v]);
            0 <= at && at + VALUE_BYTES <= |s| && s[at..at + VALUE_BYTES] == TrimOws(s[n + 1..v])
  {
    hide TrimLeft, TrimRight;
    var raw := s[n + 1..v];
    var k := TrimLeftFacts(raw);
    RightShorter(TrimLeft(raw));
    assert TrimOws(raw) == raw[k..][..VALUE_BYTES];
    assert raw[k..][..VALUE_BYTES] == s[n + 1 + k..n + 1 + k + VALUE_BYTES];
  }

  lemma {:induction false} WrongLength(v: ByteSeq)
    requires |v| != VALUE_BYTES
    ensures ParseTraceparentValue(v).None?
  {}

  /** The kernel side reads the field if it occurs once, and then as the host does. */
  lemma {:induction false} OneField(s: ByteSeq, pos: nat)
    requires pos <= |s| && HeaderLines(s[pos..]).Some? && AllWellFormed(HeaderLines(s[pos..]).value.lines)
    ensures var lines := HeaderLines(s[pos..]).value.lines;
            ValueAt(s, ScanTraceparent(s, pos, None)) == if TraceparentFields(lines) == 1 then FirstTraceparent(lines) else None
    decreases |s| - pos
  {
    hide FindByte, HeaderLines, TokenEnd, ValueEnd, FieldName, FieldValue, TrimOws, ScanTraceparent, TraceparentName, EqIgnoreCase, AllWellFormed,
      TraceparentFields, FirstTraceparent, ParseTraceparentValue, Lead;
    if HeaderLines(s[pos..]).value.lines == [] {
      SectionOver(s, pos);
      SectionEnd(s, pos, None);
      NoFields();
    } else {
      var n, v, rest := SectionLine(s, pos);
      ScanLine(s, pos, n, v, None);
      CountNext(s[pos..v], rest);
      NamedAlike(s[pos..n]);
      if !TraceparentName(s[pos..n]) {
        OneField(s, v + 2);
      } else if |TrimOws(s[n + 1..v])| != VALUE_BYTES {
        WrongLength(TrimOws(s[n + 1..v]));
      } else {
        TrimmedAt(s, n, v);
        FoundBefore(s, v + 2, n + 1 + Lead(s[n + 1..v]));
      }
    }
  }

  lemma {:induction false} ReadIsWellFormed(f: Fields, lines: seq<ByteSeq>, inbound: bool)
    requires ReadLines(f, lines, inbound).Ok?
    ensures AllWellFormed(lines)
    ensures !inbound ==> TraceparentFields(lines) == 0
    decreases |lines|
  {
    hide WellFormedLine, FieldName, FieldValue, FindByte, EqIgnoreCase, ContainsUpgradeToken, ParseContentLength;
    if lines != [] {
      ReadFirst(f, lines, inbound);
      ColonOfWellFormed(lines[0]);
      var next := NamedField(f, FieldName(lines[0]), FieldValue(lines[0]), inbound).value;
      ReadIsWellFormed(next, lines[1..], inbound);
      assert forall i | 0 < i < |lines| :: lines[i] == lines[1..][i - 1];
    }
  }

  /** For an acceptable request both sides take over the same context, unless the field is repeated. */
  lemma {:induction false} ExtractionAgrees(s: ByteSeq)
    requires ScanInbound(s, |s|)
    ensures SplitHead(s).Ok? && ScanRequestLine(s).Some? && ScanRequestLine(s).value <= |s|
    ensures ValueAt(s, ScanTraceparent(s, ScanRequestLine(s).value, None)) ==
            if TraceparentFields(SplitHead(s).value.lines) == 1 then ExtractTraceparent(s) else None
  {
    hide ScanPlan, SplitHead, ScanLines, ReadLines, LengthsAgree, ChunksAllow, ScanTraceparent, ValidateRequestLine, FirstTraceparent, HeaderLines,
      TraceparentFields, ValueAt, ScanRequestLine;
    var end, f, head, g := AcceptedHead(s, |s|, true);
    ReadIsWellFormed(NO_FIELDS, head.lines, true);
    HeadOfSplit(s);
    PlanLine(s, |s|, true);
    OneField(s, |head.requestLine| + 2);
  }

  /** The list that goes with it is the host's exactly if none of the four approximations strikes. */
  lemma {:induction false} ListsAgree(s: ByteSeq, list: ByteSeq)
    requires ScanInbound(s, |s|) && TracestateCopy.TracestateOf(s) == TracestateCopy.Copied(Some(list))
    ensures SplitHead(s).Ok? && ScanRequestLine(s).Some? && ScanRequestLine(s).value <= |s|
    ensures ListAt(s, ScanRequestLine(s).value) == list <==>
            && NamesFaithful(SplitHead(s).value.lines) && InboundLists.PaddedFits(SplitHead(s).value.lines, None)
            && TracestateAgreement.Plain(Tracestate.Split(list), 0)
  {
    hide ScanPlan, ScanRequestLine, SplitHead, ScanCopy, ScanTracestate, NamesFaithful, InboundLists.PaddedFits, TracestateAgreement.Plain,
      Tracestate.Split, TracestateCopy.TracestateOf, Tracestate.Verdict;
    PlanLine(s, |s|, true);
    InboundLists.HostListTaken(s, ScanRequestLine(s).value, list);
    InboundLists.HostListParts(s);
    Tracestate.AcceptedLists(list);
  }

  // ----- from one kernel side to another -----

  ghost predicate NoTracestateNames(lines: seq<ByteSeq>)
  {
    forall i | 0 <= i < |lines| :: FindByte(lines[i], COLON).Some? ==> !TracestateName(FieldName(lines[i]))
  }

  /** Outbound planning refuses every name that hashes like tracestate. */
  lemma {:induction false} PlannedNames(s: ByteSeq, pos: nat, f: Fields)
    requires pos <= |s| && ScanLines(s, pos, f, false).Some? && HeaderLines(s[pos..]).Some?
    requires AllWellFormed(HeaderLines(s[pos..]).value.lines)
    ensures NoTracestateNames(HeaderLines(s[pos..]).value.lines)
    decreases |s| - pos
  {
    hide FindByte, HeaderLines, TokenEnd, ValueEnd, FieldName, FieldValue, TrimOws, TracestateName, AllWellFormed, ScanField;
    if HeaderLines(s[pos..]).value.lines != [] {
      var n, v, rest := SectionLine(s, pos);
      LineScanned(s, pos, n, v, f, false);
      var next := ScanField(f, s[pos..n], s[n + 1..v], false).value;
      AcceptedName(f, s[pos..n], s[n + 1..v]);
      PlannedNames(s, v + 2, next);
    }
  }

  lemma {:induction false} AcceptedName(f: Fields, name: ByteSeq, raw: ByteSeq)
    requires ScanField(f, name, raw, false).Some?
    ensures !TracestateName(name)
  {
    hide FnvFold, KindOf, HasUpgradeToken, ParseContentLength, TrimOws;
  }

  /** Lines without such a name leave the list as it is. */
  lemma {:induction false} NothingCopied(s: ByteSeq, pos: nat, list: Option<ByteSeq>)
    requires pos <= |s| && HeaderLines(s[pos..]).Some?
    requires AllWellFormed(HeaderLines(s[pos..]).value.lines) && NoTracestateNames(HeaderLines(s[pos..]).value.lines)
    ensures ScanCopy(s, pos, list) == list
    decreases |s| - pos
  {
    hide FindByte, HeaderLines, TokenEnd, ValueEnd, FieldName, FieldValue, TrimOws, TracestateName, AllWellFormed, ScanCopy;
    if HeaderLines(s[pos..]).value.lines == [] {
      SectionOver(s, pos);
      CopyBlank(s, pos, list);
    } else {
      var lines := HeaderLines(s[pos..]).value.lines;
      var n, v, rest := SectionLine(s, pos);
      CopyScanLine(s, pos, n, v, list);
      assert lines[0] == s[pos..v];
      assert forall i | 0 <= i < |rest| :: rest[i] == lines[i + 1];
      NothingCopied(s, v + 2, list);
    }
  }

  lemma {:induction false} TraceparentIsNot()
    ensures !TracestateName(TRACEPARENT)
  {
    hide FnvFold;
  }

  lemma {:induction false} TracestateIs()
    ensures TracestateName(TRACESTATE) && !EqIgnoreCase(TRACESTATE, TRACEPARENT)
  {
    hide FnvFold;
    LowerNames();
    TracestateHash();
  }

  /** The two generated lines, as names. */
  lemma {:induction false} GeneratedNames(p: Pending)
    requires ValidFieldValue(p.tracestate)
    ensures AllWellFormed(GeneratedLines(p))
    ensures FindByte(TraceparentLine(p.context), COLON).Some? && FieldName(TraceparentLine(p.context)) == TRACEPARENT
    ensures FindByte(TracestateLine(p.tracestate), COLON).Some? && FieldName(TracestateLine(p.tracestate)) == TRACESTATE
    ensures EqIgnoreCase(TRACEPARENT, TRACEPARENT)
  {
    hide FindByte, TraceparentLine, TracestateLine, WellFormedLine, FieldName, FieldValue, EqIgnoreCase;
    GeneratedLine(p.context);
    TracestateLineReads(p.tracestate);
    ColonOfWellFormed(TraceparentLine(p.context));
    ColonOfWellFormed(TracestateLine(p.tracestate));
    SameName(TRACEPARENT);
  }

  lemma {:induction false} GeneratedSplit(p: Pending, lines: seq<ByteSeq>)
    ensures GeneratedLines(p) + lines ==
            [TraceparentLine(p.context)] + if p.tracestate == [] then lines else [TracestateLine(p.tracestate)] + lines
  {
    hide TraceparentLine, TracestateLine;
  }

  lemma {:induction false} OneGenerated(p: Pending, lines: seq<ByteSeq>)
    requires ValidFieldValue(p.tracestate) && TraceparentFields(lines) == 0
    ensures TraceparentFields(GeneratedLines(p) + lines) == 1
  {
    hide FindByte, TraceparentLine, TracestateLine, FieldName, EqIgnoreCase, TraceparentFields, GeneratedLines, AllWellFormed, ValidFieldValue;
    GeneratedNames(p);
    TracestateIs();
    GeneratedSplit(p, lines);
    var first, second := TraceparentLine(p.context), TracestateLine(p.tracestate);
    if p.tracestate == [] {
      CountNext(first, lines);
    } else {
      CountNext(first, [second] + lines);
      CountNext(second, lines);
    }
  }

  lemma {:induction false} WellFormedConcat(a: seq<ByteSeq>, b: seq<ByteSeq>)
    requires AllWellFormed(a) && AllWellFormed(b)
    ensures AllWellFormed(a + b)
  {
    hide WellFormedLine;
  }

  /** The inserted list is copied whole from its line. */
  lemma {:induction false} ListCopied(s: ByteSeq, pos: nat, value: ByteSeq, rest: seq<ByteSeq>)
    requires pos <= |s| && HeaderLines(s[pos..]).Some? && HeaderLines(s[pos..]).value.lines == [TracestateLine(value)] + rest
    requires AllWellFormed(HeaderLines(s[pos..]).value.lines) && NoTracestateNames(rest)
    requires value != [] && |value| <= Tracestate.MAX_TRACESTATE_BYTES && TrimOws(value) == value && ValidFieldValue(value)
    ensures ScanCopy(s, pos, None) == Some(value)
  {
    hide FindByte, HeaderLines, TokenEnd, ValueEnd, FieldName, FieldValue, TrimOws, TracestateName, AllWellFormed, ScanCopy, Fits, TracestateLine,
      NoTracestateNames, TracestateCopy.Join;
    var n, v, tail := SectionLine(s, pos);
    var lines := HeaderLines(s[pos..]).value.lines;
    assert lines[0] == s[pos..v] == TracestateLine(value) && lines[1..] == rest == tail;
    TracestateLineReads(value);
    TracestateIs();
    RawList(s[pos..v], value, n - pos);
    assert s[pos..v][n - pos + 1..] == s[n + 1..v];
    CopyScanLine(s, pos, n, v, None);
    SpacedFits(value);
    JoinNone(value);
    NothingCopied(s, v + 2, Some(value));
  }

  lemma {:induction false} RawList(line: ByteSeq, value: ByteSeq, n: nat)
    requires line == TracestateLine(value) && n < |line| && line[..n] == TRACESTATE
    ensures line[n + 1..] == [SP] + value
  {
    assert |line[..n]| == 10;
  }

  lemma {:induction false} JoinNone(value: ByteSeq)
    ensures TracestateCopy.Join(None, value) == value
  {}

  lemma {:induction false} SpacedFits(value: ByteSeq)
    requires value != [] && |value| <= Tracestate.MAX_TRACESTATE_BYTES && TrimOws(value) == value
    ensures Fits(None, [SP] + value) && TrimOws([SP] + value) == value
  {
    var lo, hi := TrimFacts(value);
    assert lo == 0 && hi == |value|;
    assert ([SP] + value)[1..] == value;
  }

  lemma {:induction false} NoneGenerated(p: Pending, lines: seq<ByteSeq>)
    requires NoTracestateNames(lines) && p.tracestate == [] && ValidFieldValue(p.tracestate)
    ensures NoTracestateNames(GeneratedLines(p) + lines)
  {
    hide FindByte, TraceparentLine, TracestateLine, FieldName, TracestateName;
    GeneratedNames(p);
    TraceparentIsNot();
    var all := GeneratedLines(p) + lines;
    assert all[0] == TraceparentLine(p.context) && forall i | 0 < i < |all| :: all[i] == lines[i - 1];
  }

  /** The list that a receiver copies from a request with its generated fields. */
  lemma {:induction false} GeneratedList(m: ByteSeq, start: nat, p: Pending, lines: seq<ByteSeq>)
    requires start <= |m| && HeaderLines(m[start..]).Some? && HeaderLines(m[start..]).value.lines == GeneratedLines(p) + lines
    requires AllWellFormed(GeneratedLines(p) + lines) && NoTracestateNames(lines)
    requires p.tracestate == [] || (ScanTracestate(p.tracestate) && TrimOws(p.tracestate) == p.tracestate)
    ensures ListAt(m, start) == p.tracestate
  {
    hide FindByte, HeaderLines, TokenEnd, ValueEnd, FieldName, FieldValue, TrimOws, TracestateName, AllWellFormed, ScanCopy, TraceparentLine,
      TracestateLine, NoTracestateNames, ScanMembers;
    if p.tracestate == [] {
      NoneGenerated(p, lines);
      NothingCopied(m, start, None);
    } else {
      AcceptedIsFieldValue(p.tracestate);
      GeneratedNames(p);
      TraceparentIsNot();
      var all, second := GeneratedLines(p) + lines, TracestateLine(p.tracestate);
      assert all == [TraceparentLine(p.context)] + ([second] + lines);
      var n, v, tail := SectionLine(m, start);
      assert all[0] == m[start..v] && all[1..] == tail == [second] + lines;
      CopyScanLine(m, start, n, v, None);
      ListCopied(m, v + 2, p.tracestate, lines);
    }
  }

  // ----- generated fields do not change what is acceptable -----

  lemma {:induction false} InertField(f: Fields, name: ByteSeq, raw: ByteSeq)
    requires name == TRACEPARENT || name == TRACESTATE
    ensures ScanField(f, name, raw, true) == Some(f)
  {
    hide FnvFold;
    LowerNames();
    TracestateHash();
  }

  lemma {:induction false} GeneratedLengths(p: Pending)
    ensures |TraceparentLine(p.context)| == 68 && |TracestateLine(p.tracestate)| == 12 + |p.tracestate|
    ensures |GeneratedFields(p)| == 70 + if p.tracestate == [] then 0 else 14 + |p.tracestate|
  {}

  /** One generated line, scanned in an inbound request. */
  lemma {:induction false} InertLine(m: ByteSeq, pos: nat, line: ByteSeq, rest: seq<ByteSeq>)
    requires pos <= |m| && HeaderLines(m[pos..]).Some? && HeaderLines(m[pos..]).value.lines == [line] + rest
    requires AllWellFormed([line] + rest) && FindByte(line, COLON).Some? && FieldName(line) in {TRACEPARENT, TRACESTATE}
    ensures var next := pos + |line| + 2;
            && next <= |m| && ScanLines(m, pos, NO_FIELDS, true) == ScanLines(m, next, NO_FIELDS, true)
            && HeaderLines(m[next..]).Some? && HeaderLines(m[next..]).value.lines == rest && AllWellFormed(rest)
  {
    hide FindByte, HeaderLines, TokenEnd, ValueEnd, FieldName, FieldValue, TrimOws, AllWellFormed, ScanField, ScanLines;
    var n, v, tail := SectionLine(m, pos);
    assert ([line] + rest)[0] == m[pos..v] && ([line] + rest)[1..] == tail;
    LineScanned(m, pos, n, v, NO_FIELDS, true);
    InertField(NO_FIELDS, m[pos..n], m[n + 1..v]);
  }

  lemma {:induction false} InertLines(m: ByteSeq, start: nat, p: Pending, lines: seq<ByteSeq>)
    requires start <= |m| && HeaderLines(m[start..]).Some? && HeaderLines(m[start..]).value.lines == GeneratedLines(p) + lines
    requires AllWellFormed(GeneratedLines(p) + lines) && ValidFieldValue(p.tracestate)
    ensures var next := start + |GeneratedFields(p)|;
            next <= |m| && ScanLines(m, start, NO_FIELDS, true) == ScanLines(m, next, NO_FIELDS, true)
  {
    hide FindByte, HeaderLines, FieldName, TraceparentLine, TracestateLine, AllWellFormed, ScanLines, GeneratedLines, GeneratedFields, ValidFieldValue;
    GeneratedNames(p);
    GeneratedLengths(p);
    GeneratedSplit(p, lines);
    var first, second := TraceparentLine(p.context), TracestateLine(p.tracestate);
    if p.tracestate == [] {
      InertLine(m, start, first, lines);
    } else {
      InertLine(m, start, first, [second] + lines);
      InertLine(m, start + 70, second, lines);
    }
  }

  lemma {:induction false} InsertShifts(s: ByteSeq, at: nat, fields: ByteSeq)
    requires at <= |s|
    ensures Shifted(s, Insert(s, at, fields), at, |fields|)
  {}

  lemma {:induction false} LengthsShift(f: Fields, end: nat, len: nat, d: nat)
    ensures LengthsAgree(f, end + d, len + d, len + d, true) <==> LengthsAgree(f, end, len, len, true)
  {}

  lemma {:induction false} AllowShift(s: ByteSeq, m: ByteSeq, k: nat, d: nat, end: nat)
    requires Shifted(s, m, k, d) && k <= end <= |s|
    ensures end + d <= |m| && (ChunksAllow(m, end + d, true) <==> ChunksAllow(s, end, true))
  {
    hide BpfChunked.ScanChunks;
    ChunksShift(s, m, k, d, end);
  }

  /** Where a section ends lies within the request. */
  lemma {:induction false} SectionEnds(s: ByteSeq, pos: nat, f: Fields, inbound: bool)
    requires pos <= |s| && ScanLines(s, pos, f, inbound).Some?
    ensures pos < ScanLines(s, pos, f, inbound).value.0 <= |s|
  {
    hide ScanLines, HeaderLines, ReadLines;
    var g := f.(sawTracestate := false);
    LinesSound(s, pos, f, g, inbound);
  }

  /** The request line of a split message, to the automaton. */
  lemma {:induction false} StartsAt(s: ByteSeq)
    requires SplitHead(s).Ok? && ValidateRequestLine(SplitHead(s).value.requestLine).Ok?
    ensures ScanRequestLine(s) == Some(|SplitHead(s).value.requestLine| + 2) && |SplitHead(s).value.requestLine| + 2 < |s|
  {
    hide SplitHead, ScanRequestLine, FindCrlf, ValidateRequestLine, HeaderLines;
    HeadOfSplit(s);
    FirstLine(s);
    RequestLineAgreement.AcceptedByHost(s);
  }

  /** A planned request with its generated fields is acceptable to a receiver exactly if it was without them. */
  lemma {:induction false} InboundKept(p: Pending)
    requires ScanPlan(p.request, |p.request|, false) == Some(p.insertAt) && ValidFieldValue(p.tracestate)
    requires p.insertAt <= |p.request| && |p.request| + |GeneratedFields(p)| <= HTTP_REQUEST_BYTES
    ensures var m := Insert(p.request, p.insertAt, GeneratedFields(p));
            ScanInbound(m, |m|) <==> ScanInbound(p.request, |p.request|)
  {
    hide ScanPlan, SplitHead, ScanLines, ReadLines, LengthsAgree, ChunksAllow, ValidateRequestLine, HeaderLines, ScanRequestLine, GeneratedLines,
      AllWellFormed, Insert, GeneratedFields, Shifted, ValidFieldValue;
    var s, d, k := p.request, |GeneratedFields(p)|, p.insertAt;
    var m := Insert(s, k, GeneratedFields(p));
    var end, f, head, g := AcceptedHead(s, |s|, false);
    ReadIsWellFormed(NO_FIELDS, head.lines, false);
    GeneratedNames(p);
    WellFormedConcat(GeneratedLines(p), head.lines);
    MutatedHead(s, p);
    HeadOfSplit(m);
    StartsAt(s);
    StartsAt(m);
    InsertShifts(s, k, GeneratedFields(p));
    ShiftLength(s, m, k, d);
    InertLines(m, k, p, head.lines);
    LinesShift(s, m, k, d, k, NO_FIELDS, true);
    PlanParts(s, |s|, true, k);
    PlanParts(m, |m|, true, k);
    if ScanLines(s, k, NO_FIELDS, true).Some? {
      var (e, h) := ScanLines(s, k, NO_FIELDS, true).value;
      SectionEnds(s, k, NO_FIELDS, true);
      LengthsShift(h, e, |s|, d);
      AllowShift(s, m, k, d, e);
    }
  }

  lemma {:induction false} ShiftLength(s: ByteSeq, m: ByteSeq, k: nat, d: nat)
    requires Shifted(s, m, k, d)
    ensures |m| == |s| + d
  {}

  /** A whole message that was planned, given its fields and received. */
  lemma {:induction false} MessageTravels(p: Pending)
    requires ScanPlan(p.request, |p.request|, false) == Some(p.insertAt) && Usable(p.context)
    requires p.tracestate == [] || (ScanTracestate(p.tracestate) && TrimOws(p.tracestate) == p.tracestate)
    requires p.insertAt <= |p.request| && |p.request| + |GeneratedFields(p)| <= HTTP_REQUEST_BYTES
    requires var m := Insert(p.request, p.insertAt, GeneratedFields(p)); ScanInbound(m, |m|)
    ensures Inbound(Insert(p.request, p.insertAt, GeneratedFields(p))) == Some(Remote(p.context, p.tracestate))
  {
    hide ScanPlan, SplitHead, ScanLines, ReadLines, LengthsAgree, ChunksAllow, ScanTraceparent, ValidateRequestLine, FirstTraceparent, HeaderLines,
      TraceparentFields, ValueAt, ScanRequestLine, ScanTracestate, ListAt, GeneratedLines, AllWellFormed, NoTracestateNames, TrimOws, Usable, Insert,
      ExtractTraceparent, GeneratedFields, ScanInbound;
    var s := p.request;
    var m := Insert(s, p.insertAt, GeneratedFields(p));
    SendableList(p);
    var end, f, head, g := AcceptedHead(s, |s|, false);
    ReadIsWellFormed(NO_FIELDS, head.lines, false);
    HeadOfSplit(s);
    PlannedNames(s, p.insertAt, NO_FIELDS);
    ReceiverSeesContext(|s|, p);
    ExtractionAgrees(m);
    OneGenerated(p, head.lines);
    GeneratedNames(p);
    WellFormedConcat(GeneratedLines(p), head.lines);
    HeadOfSplit(m);
    StartOf(m);
    GeneratedList(m, p.insertAt, p, head.lines);
  }

  /** Too large a message is not looked at. */
  lemma {:induction false} TooLarge(m: ByteSeq)
    requires |m| > HTTP_REQUEST_BYTES
    ensures Inbound(m).None?
  {
    hide ScanRequestLine, ScanHeaders, ScanTraceparent, ListAt, ValueAt;
  }

  lemma {:induction false} Unacceptable(m: ByteSeq)
    requires !ScanInbound(m, |m|)
    ensures Inbound(m).None?
  {
    hide ScanRequestLine, ScanInbound, ScanTraceparent, ListAt, ValueAt;
  }

  /**
    A message planned from its captured part and given its generated fields: a receiver takes over
    exactly the sender's context and list, unless the message without them was not acceptable or
    with them is too large.
   */
  lemma {:induction false} ContextTravels(p: Pending, message: ByteSeq)
    requires p.request <= message && ScanPlan(p.request, |message|, false) == Some(p.insertAt) && Usable(p.context)
    requires p.tracestate == [] || (ScanTracestate(p.tracestate) && TrimOws(p.tracestate) == p.tracestate)
    ensures p.insertAt <= |message|
    ensures var m := Insert(message, p.insertAt, GeneratedFields(p));
            Inbound(m) ==
            if ScanInbound(message, |message|) && |m| <= HTTP_REQUEST_BYTES then Some(Remote(p.context, p.tracestate)) else None
  {
    hide ScanPlan, ScanTracestate, TrimOws, Usable, Inbound, ScanInbound, Insert, GeneratedFields, ValidFieldValue;
    PlanLine(p.request, |message|, false);
    var q := p.(request := message);
    var fields := GeneratedFields(p);
    assert GeneratedFields(q) == fields by { SameFields(p, q); }
    InsertLength(message, p.insertAt, fields);
    if |message| + |fields| > HTTP_REQUEST_BYTES {
      TooLarge(Insert(message, p.insertAt, fields));
    } else {
      CapturedPlan(p.request, message);
      SendableList(p);
      InboundKept(q);
      if ScanInbound(message, |message|) {
        MessageTravels(q);
      } else {
        Unacceptable(Insert(message, p.insertAt, fields));
      }
    }
  }

  lemma {:induction false} SameFields(p: Pending, q: Pending)
    requires p.context == q.context && p.tracestate == q.tracestate
    ensures GeneratedFields(p) == GeneratedFields(q)
  {
    hide TraceparentHeader;
  }

  lemma {:induction false} InsertLength(s: ByteSeq, at: nat, fields: ByteSeq)
    requires at <= |s|
    ensures |Insert(s, at, fields)| == |s| + |fields|
  {}

  lemma {:induction false} SendableList(p: Pending)
    requires p.tracestate == [] || ScanTracestate(p.tracestate)
    ensures ValidFieldValue(p.tracestate)
  {
    if p.tracestate != [] {
      AcceptedIsFieldValue(p.tracestate);
    }
  }

  /** Where the header section of a split message starts. */
  lemma {:induction false} StartOf(s: ByteSeq)
    requires SplitHead(s).Ok? && ScanRequestLine(s).Some?
    ensures ScanRequestLine(s).value == |SplitHead(s).value.requestLine| + 2
  {
    hide SplitHead, ScanRequestLine, FindCrlf, ValidateRequestLine;
    RequestLineAgreement.AcceptedLine(s);
    FirstLine(s);
  }

  /** What is taken over may be sent on: a usable context, and no list or one that travels unchanged. */
  lemma {:induction false} TakenOverIsSendable(s: ByteSeq)
    requires Inbound(s).Some?
    ensures var r := Inbound(s).value;
            && Usable(r.context)
            && (r.tracestate == [] || (ScanTracestate(r.tracestate) && TrimOws(r.tracestate) == r.tracestate))
  {
    hide ScanInbound, ScanRequestLine, ScanTraceparent, ScanCopy, ScanTracestate, ParseTraceparentValue, TrimOws, Usable;
    var start := ScanRequestLine(s).value;
    var at := ScanTraceparent(s, start, None).value;
    FormatParsed(s[at..at + VALUE_BYTES]);
    if ScanCopy(s, start, None).Some? {
      CopiedNeat(s, start, None);
    }
  }
}
