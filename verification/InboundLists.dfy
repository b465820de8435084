/**
  Exactly when the kernel side takes over the host's list of an inbound request: no other name
  hashes like tracestate, every value fits the buffer together with the blanks at its end, the
  masks tell the keys apart, and no tab follows a key.
 */
module InboundLists {
  import opened Bytes
  import opened Ows
  import opened ChunkedBody
  import opened Http1
  import opened Tracestate
  import opened TracestateCopy
  import opened BpfScan
  import opened BpfTracestate
  import opened BpfTracestateCopy
  import opened RequestLineAgreement
  import opened HeaderAgreement
  import opened TracestateAgreement
  import opened InboundTracestate
  import PlannerAgreement

  predicate IsList(line: ByteSeq) { FindByte(line, COLON).Some? && EqIgnoreCase(FieldName(line), TRACESTATE) }

  /** Every value of the field, with the blanks at its end, fits behind the list so far. */
  ghost predicate PaddedFits(lines: seq<ByteSeq>, list: Option<ByteSeq>)
    decreases |lines|
  {
    if lines == [] then true
    else if !IsList(lines[0]) then PaddedFits(lines[1..], list)
    else
      && |Join(list, TrimLeft(RawValue(lines[0])))| <= MAX_TRACESTATE_BYTES
      && PaddedFits(lines[1..], Some(Join(list, FieldValue(lines[0]))))
  }

  /** Some field has nothing but blanks for a value. */
  ghost predicate HasBlankField(lines: seq<ByteSeq>)
    decreases |lines|
  {
    lines != [] && ((IsList(lines[0]) && FieldValue(lines[0]) == []) || HasBlankField(lines[1..]))
  }

  // ----- the copy is exact -----

  lemma {:induction false} BlankValue(raw: ByteSeq)
    ensures TrimLeft(raw) == [] <==> TrimOws(raw) == []
  {
    hide TrimLeft, TrimRight;
    var n := TrimLeftFacts(raw);
    var m := TrimRightFacts(TrimLeft(raw));
  }

  lemma {:induction false} FitsStep(lines: seq<ByteSeq>, list: Option<ByteSeq>)
    requires lines != [] && FindByte(lines[0], COLON).Some?
    ensures var isList := EqIgnoreCase(FieldName(lines[0]), TRACESTATE); var raw := RawValue(lines[0]);
            && FieldValue(lines[0]) == TrimOws(raw)
            && (PaddedFits(lines, list) <==>
                  if isList then |Join(list, TrimLeft(raw))| <= MAX_TRACESTATE_BYTES && PaddedFits(lines[1..], Some(Join(list, TrimOws(raw))))
                  else PaddedFits(lines[1..], list))
            && (HasBlankField(lines) <==> (isList && TrimOws(raw) == []) || HasBlankField(lines[1..]))
  {
    hide FindByte, EqIgnoreCase, TrimOws, TrimLeft, Join;
  }

  /** What the host copies, the kernel side copies, or gives up for a blank value or for want of room. */
  lemma {:induction false} CopyExact(s: ByteSeq, pos: nat, list: Option<ByteSeq>)
    requires pos <= |s| && HeaderLines(s[pos..]).Some? && NamesFaithful(HeaderLines(s[pos..]).value.lines)
    requires CopyLines(HeaderLines(s[pos..]).value.lines, list).Copied?
    ensures var lines := HeaderLines(s[pos..]).value.lines;
            ScanCopy(s, pos, list) ==
            if PaddedFits(lines, list) && !HasBlankField(lines) then CopyLines(lines, list).value else None
    decreases |s| - pos
  {
    hide FindCrlf, FindByte, HeaderLines, ScanCopy, CopyLines, WellFormedLine, FieldName, FieldValue, RawValue, TrimOws, TrimLeft,
      TracestateName, Fits, Join, EqIgnoreCase, NamesFaithful, PaddedFits, HasBlankField, TokenEnd, ValueEnd;
    SectionStarts(s[pos..]);
    NextLine(s[pos..]);
    var lines := HeaderLines(s[pos..]).value.lines;
    if FindCrlf(s[pos..]).value == 0 {
      assert s[pos..][0] == s[pos] && s[pos..][1] == s[pos + 1];
      CopyBlank(s, pos, list);
      CopiedNone(list);
      NothingToFit(list);
    } else {
      CopyStep(lines, list);
      var n, v := HostLine(s, pos);
      var name, raw := s[pos..n], s[n + 1..v];
      assert lines[0] == s[pos..v] && lines[1..] == HeaderLines(s[v + 2..]).value.lines;
      FirstFaithful(lines);
      SameRecognition(name);
      CopyScanLine(s, pos, n, v, list);
      FitsStep(lines, list);
      FitsMeans(list, raw);
      if TracestateName(name) {
        CopyExact(s, v + 2, Some(Join(list, TrimOws(raw))));
      } else {
        CopyExact(s, v + 2, list);
      }
    }
  }

  lemma {:induction false} NothingToFit(list: Option<ByteSeq>)
    ensures PaddedFits([], list) && !HasBlankField([])
  {}

  lemma {:induction false} FitsMeans(list: Option<ByteSeq>, raw: ByteSeq)
    ensures Fits(list, raw) <==> TrimOws(raw) != [] && |Join(list, TrimLeft(raw))| <= MAX_TRACESTATE_BYTES
  {
    hide TrimLeft, TrimOws, Join;
    BlankValue(raw);
  }

  // ----- an accepted list has no blank field -----

  lemma {:induction false} SplitJoined(a: ByteSeq, b: ByteSeq)
    ensures Split(a + [COMMA] + b) == Split(a) + Split(b)
    decreases |a|
  {
    hide FindByte, Split;
    var all := a + [COMMA] + b;
    var comma := FindByte(a, COMMA);
    var k := if comma.None? then |a| else comma.value;
    assert forall j | 0 <= j < |a| :: all[j] == a[j];
    assert all[|a|] == COMMA && all[0..] == all && a[0..] == a;
    SplitNext(all, 0, k);
    SplitNext(a, 0, k);
    assert all[0..k] == a[0..k];
    if comma.None? {
      assert a[0..k] == a && all[k + 1..] == b;
    } else {
      assert all[k + 1..] == a[k + 1..] + [COMMA] + b;
      SplitJoined(a[k + 1..], b);
    }
  }

  lemma {:induction false} SplitEmpty()
    ensures Split([]) == [[]]
  {}

  /** A member once empty stays one, whatever is joined. */
  lemma {:induction false} EmptyStays(list: Option<ByteSeq>, value: ByteSeq)
    requires value == [] || (list.Some? && [] in Split(list.value))
    ensures [] in Split(Join(list, value))
  {
    hide Split;
    SplitEmpty();
    if list.Some? {
      SplitJoined(list.value, value);
    }
  }

  lemma {:induction false} BlankFieldShows(lines: seq<ByteSeq>, list: Option<ByteSeq>)
    requires CopyLines(lines, list).Copied? && CopyLines(lines, list).value.Some?
    requires HasBlankField(lines) || (list.Some? && [] in Split(list.value))
    ensures [] in Split(CopyLines(lines, list).value.value)
    decreases |lines|
  {
    hide FindByte, WellFormedLine, FieldName, FieldValue, EqIgnoreCase, Split, Join;
    if lines != [] {
      CopyStep(lines, list);
      ColonOf(lines[0]);
      var value := FieldValue(lines[0]);
      if !EqIgnoreCase(FieldName(lines[0]), TRACESTATE) {
        BlankFieldShows(lines[1..], list);
      } else {
        if value == [] || (list.Some? && [] in Split(list.value)) {
          EmptyStays(list, value);
        }
        BlankFieldShows(lines[1..], Some(Join(list, value)));
      }
    }
  }

  lemma {:induction false} EmptyIsFaulty(value: ByteSeq)
    requires [] in Split(value)
    ensures Verdict(value).Some?
  {
    hide Split, Verdict;
    var members := Split(value);
    var i :| 0 <= i < |members| && members[i] == [];
    assert MemberFault([]).Some?;
    AcceptedLists(value);
  }

  // ----- the theorem -----

  lemma {:induction false} HostListParts(s: ByteSeq)
    requires TracestateOf(s).Copied?
    ensures SplitHead(s).Ok? && CopyLines(SplitHead(s).value.lines, None) == TracestateOf(s)
    ensures TracestateOf(s).value.Some? ==> Verdict(TracestateOf(s).value.value).None?
  {
    hide SplitHead, ValidateRequestLine, CopyLines, Verdict;
  }

  /**
    The kernel side copies the host's list of a request exactly if no other name hashes like
    tracestate and every value fits with the blanks at its end; and it accepts the list then exactly
    if the masks tell its keys apart and no tab follows a key.
   */
  lemma {:induction false} HostListTaken(s: ByteSeq, start: nat, list: ByteSeq)
    requires ScanRequestLine(s) == Some(start) && start <= |s| && TracestateOf(s) == Copied(Some(list))
    ensures SplitHead(s).Ok?
    ensures ScanCopy(s, start, None) == Some(list) <==>
            NamesFaithful(SplitHead(s).value.lines) && PaddedFits(SplitHead(s).value.lines, None)
    ensures ScanTracestate(list) <==> Plain(Split(list), 0)
  {
    hide SplitHead, ScanRequestLine, ScanCopy, CopyLines, ScanTracestate, Verdict, NamesFaithful, Plain, PaddedFits, HasBlankField, Split,
      HeaderLines, FindCrlf, ValidateRequestLine, TracestateOf;
    HostListParts(s);
    var lines := SplitHead(s).value.lines;
    HeadOfSplit(s);
    AcceptedLine(s);
    PlannerAgreement.FirstLine(s);
    ValidatorsAgree(list);
    if HasBlankField(lines) {
      BlankFieldShows(lines, None);
      EmptyIsFaulty(list);
    }
    if NamesFaithful(lines) {
      CopyExact(s, start, None);
    } else if ScanCopy(s, start, None).Some? {
      CopyWeighs(s, start, None, None);
    }
  }

  // ----- a padded list -----

  // "a=b"
  const SHORT_LIST: ByteSeq := [97, EQUALS, 98]

  function Blanks(n: nat): ByteSeq { seq(n, _ => SP) }

  const PADDED_LINE: ByteSeq := TRACESTATE + [COLON] + SHORT_LIST + Blanks(510)
  const PADDED_REQUEST: ByteSeq := PlannerAgreement.OneLine(PADDED_LINE)

  lemma {:induction false} PaddedValue()
    ensures TrimOws(SHORT_LIST + Blanks(510)) == SHORT_LIST && TrimLeft(SHORT_LIST + Blanks(510)) == SHORT_LIST + Blanks(510)
    ensures |SHORT_LIST + Blanks(510)| == 513
  {
    hide TrimOws;
    var raw := SHORT_LIST + Blanks(510);
    TrimIs(raw, 0, 3);
    assert raw[0..3] == SHORT_LIST;
  }

  lemma {:induction false} PaddedLine()
    ensures WellFormedLine(PADDED_LINE) && FieldName(PADDED_LINE) == TRACESTATE && RawValue(PADDED_LINE) == SHORT_LIST + Blanks(510)
    ensures FieldValue(PADDED_LINE) == SHORT_LIST && PADDED_LINE != [] && forall j | 0 <= j < |PADDED_LINE| :: PADDED_LINE[j] != CR
  {
    hide FindByte, TrimOws, Blanks, WellFormedLine, FieldName, FieldValue;
    var line, raw := PADDED_LINE, SHORT_LIST + Blanks(510);
    assert forall j | 0 <= j < 10 :: line[j] == TRACESTATE[j];
    assert forall j | 11 <= j < |line| :: line[j] == raw[j - 11];
    assert line[10] == COLON && line[..10] == TRACESTATE && line[11..] == raw;
    LineParts(line, 10);
    PaddedValue();
    PaddedBytes();
    WellFormedParts(line, 10);
  }

  lemma {:induction false} PaddedBytes()
    ensures var raw := SHORT_LIST + Blanks(510); forall j | 0 <= j < |raw| :: IsValueByte(raw[j]) && raw[j] != CR
    ensures forall j | 0 <= j < 10 :: IsTokenByte(TRACESTATE[j]) && TRACESTATE[j] != CR && TRACESTATE[j] != COLON
  {}

  lemma {:induction false} PaddedLength()
    ensures |PADDED_LINE| == 524
  {}

  lemma {:induction false} ShortListValid()
    ensures Verdict(SHORT_LIST).None?
  {
    hide FirstFault, Split, MemberFault, KeyOf;
    var list := SHORT_LIST;
    assert list[..1] == [97] && list[0..] == list && list[0..3] == list;
    LetterKey(list[..1]);
    SmallMember(list, 1);
    SplitNext(list, 0, 3);
    AcceptedLists(list);
  }

  /** A list of three bytes that the host copies and the kernel side gives up for the blanks behind it. */
  lemma {:induction false} PaddingDiffers()
    ensures |PADDED_REQUEST| <= HTTP_REQUEST_BYTES && ScanRequestLine(PADDED_REQUEST) == Some(14) && 14 <= |PADDED_REQUEST|
    ensures TracestateOf(PADDED_REQUEST) == Copied(Some(SHORT_LIST)) && ScanCopy(PADDED_REQUEST, 14, None).None?
  {
    hide FindCrlf, HeaderLines, ValidateRequestLine, ScanRequestLine, PADDED_LINE, PlannerAgreement.OneLine, SplitHead, CopyLines, ScanCopy, Verdict, SHORT_LIST,
      Blanks, WellFormedLine, FieldName, FieldValue, RawValue, PaddedFits, HasBlankField, TracestateName, EqIgnoreCase, FindByte, TrimOws, TrimLeft;
    PaddedLength();
    PaddedLine();
    PlannerAgreement.OneLineHead(PADDED_LINE);
    PlannerAgreement.SomeLineValid();
    PaddedValue();
    ShortListValid();
    var line := PADDED_LINE;
    ColonOf(line);
    CopyCons(line, [], None);
    assert [line] + [] == [line];
    CopiedNone(Some(SHORT_LIST));
    SameTracestate();
    var lines: seq<ByteSeq> := [line];
    assert lines[0] == line && lines[1..] == [];
    FirstFaithful(lines);
    NoNames();
    FitsStep(lines, None);
    CopyExact(PADDED_REQUEST, 14, None);
  }

  lemma {:induction false} SameTracestate()
    ensures EqIgnoreCase(TRACESTATE, TRACESTATE) && |SHORT_LIST| == 3
  {}
}
