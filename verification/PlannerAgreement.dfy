/**
  The two planners decide alike. A request for which the kernel-side automata give an insertion
  point is one for which the host library gives the same point, the one exception being a capital
  digit in a chunk size. Conversely a point of the host's is found exactly if no field is misread
  for its hash or for an upgrade token between blanks, and a chunked body is no dead end.
 */
module PlannerAgreement {
  import opened Bytes
  import opened Ows
  import opened Fnv
  import opened ChunkedBody
  import opened Http1
  import opened BpfScan
  import opened BpfHeaders
  import opened BpfChunked
  import opened BpfPlan
  import opened RequestLineAgreement
  import opened HeaderAgreement
  import opened ChunkedAgreement
  import Insertion

  /** The automaton's view of an accepted request: where its body starts, and its fields. */
  lemma {:induction false} AcceptedHead(s: ByteSeq, total: nat, inbound: bool) returns (end: nat, f: Fields, head: Head, g: Fields)
    requires ScanPlan(s, total, inbound).Some?
    ensures var k := ScanPlan(s, total, inbound).value;
            && 2 <= k <= end <= |s| && ScanLines(s, k, NO_FIELDS, inbound) == Some((end, f))
            && LengthsAgree(f, end, |s|, total, inbound)
            && (f.chunked ==> total == |s| && ChunksAllow(s, end, inbound))
            && SplitHead(s) == Ok(head) && ValidateRequestLine(head.requestLine).Ok?
            && |head.requestLine| == k - 2 && head.end == end
            && ReadLines(NO_FIELDS, head.lines, inbound) == Ok(g) && Similar(f, g, inbound)
  {
    hide FindCrlf, ScanLines, ReadLines, HeaderLines, ScanRequestLine, ValidateRequestLine, ScanChunks;
    var k := ScanPlan(s, total, inbound).value;
    AcceptedLine(s);
    var scanned := ScanLines(s, k, NO_FIELDS, inbound).value;
    end, f := scanned.0, scanned.1;
    LinesSound(s, k, NO_FIELDS, NO_FIELDS, inbound);
    head := SplitHead(s).value;
    g := ReadLines(NO_FIELDS, head.lines, inbound).value;
  }

  lemma {:induction false} LengthsFrame(f: Fields, g: Fields, s: ByteSeq, end: nat, total: nat, inbound: bool)
    requires Similar(f, g, inbound) && end <= |s| <= total && LengthsAgree(f, end, |s|, total, inbound) && !f.chunked
    ensures FrameBody(g, s[end..], total - |s|, inbound) == Ok(())
  {}

  lemma {:induction false} ChunksFrame(f: Fields, g: Fields, s: ByteSeq, end: nat, inbound: bool)
    requires Similar(f, g, inbound) && end <= |s| <= HTTP_REQUEST_BYTES && ChunksAllow(s, end, inbound) && f.chunked && f.contentLength.None?
    ensures FrameBody(g, s[end..], 0, inbound) == if CapitalSize(s, end) then Err(InvalidChunkedBody) else Ok(())
  {
    hide ScanChunks, ChunkedFrom, CapitalSize;
    if end == |s| {
      NothingToScan(s);
    }
    ChunksSound(s, end, end);
  }

  lemma {:induction false} NothingToScan(s: ByteSeq)
    ensures ScanChunks(s, |s|) == Pending
  {
    hide HexEnd, AnyHexValue;
    var h := HexEnd(s, |s|);
    assert s[|s|..h] == [];
    assert AnyHexValue([]) == 0 by { NoDigitsNoValue(); }
  }

  lemma {:induction false} NoDigitsNoValue()
    ensures AnyHexValue([]) == 0
  {}

  /**
    Every insertion point of the kernel-side planner is the host's, unless the body is chunked and
    one of its sizes has a capital digit: then, and only then, the host refuses the body.
   */
  lemma {:induction false} PlansAgree(s: ByteSeq, total: nat, inbound: bool)
    requires |s| <= total && ScanPlan(s, total, inbound).Some?
    ensures var k := ScanPlan(s, total, inbound).value;
            && ScanLines(s, k, NO_FIELDS, inbound).Some?
            && var (end, f) := ScanLines(s, k, NO_FIELDS, inbound).value;
               end <= |s| && Plan(s, total, inbound) ==
               if f.chunked && CapitalSize(s, end) then Bypass(InvalidChunkedBody) else Inject(k)
  {
    hide ScanPlan, ScanLines, ReadLines, SplitHead, ValidateRequestLine, FrameBody, LengthsAgree, ChunksAllow, CapitalSize;
    var end, f, head, g := AcceptedHead(s, total, inbound);
    if f.chunked {
      NoLength(f, end, |s|, total, inbound);
      AcceptedSize(s, total, inbound);
      ChunksFrame(f, g, s, end, inbound);
    } else {
      LengthsFrame(f, g, s, end, total, inbound);
    }
  }

  lemma {:induction false} NoLength(f: Fields, end: nat, len: nat, total: nat, inbound: bool)
    requires LengthsAgree(f, end, len, total, inbound) && f.chunked
    ensures f.contentLength.None?
  {}

  lemma {:induction false} AcceptedSize(s: ByteSeq, total: nat, inbound: bool)
    requires ScanPlan(s, total, inbound).Some?
    ensures |s| <= HTTP_REQUEST_BYTES
  {
    hide ScanRequestLine, ScanHeaders, ChunksAllow;
  }

  // ----- completeness -----

  /** The host's decision taken apart. */
  lemma {:induction false} InjectedHead(s: ByteSeq, total: nat, inbound: bool) returns (head: Head, g: Fields)
    requires Plan(s, total, inbound).Inject?
    ensures |s| <= total && |s| <= HTTP_REQUEST_BYTES
    ensures SplitHead(s) == Ok(head) && ValidateRequestLine(head.requestLine).Ok?
    ensures ReadLines(NO_FIELDS, head.lines, inbound) == Ok(g) && Plan(s, total, inbound) == Inject(|head.requestLine| + 2)
    ensures FrameBody(g, s[head.end..], total - |s|, inbound).Ok? && (!inbound ==> !g.sawTracestate)
  {
    hide FindCrlf, HeaderLines, ReadLines, ValidateRequestLine, FrameBody;
    head := SplitHead(s).value;
    g := ReadLines(NO_FIELDS, head.lines, inbound).value;
  }

  /** The framing that the host accepted, as the automata decide it. */
  lemma {:induction false} FrameAllows(f: Fields, g: Fields, s: ByteSeq, end: nat, total: nat, inbound: bool)
    requires Similar(f, g, inbound) && end <= |s| <= total && FrameBody(g, s[end..], total - |s|, inbound).Ok?
    ensures LengthsAgree(f, end, |s|, total, inbound) && (f.chunked ==> total == |s|)
    ensures f.chunked ==> (ChunksAllow(s, end, inbound) <==> !DeadEnd(s, end))
  {
    hide ChunkedFrom, ScanChunks, DeadEnd;
    if g.chunked {
      ChunksComplete(s, end, end);
      if end == |s| {
        NothingToScan(s);
      }
    }
  }

  lemma {:induction false} PlanParts(s: ByteSeq, total: nat, inbound: bool, k: nat)
    requires s != [] && |s| <= HTTP_REQUEST_BYTES && ScanRequestLine(s) == Some(k) && k < |s|
    ensures ScanPlan(s, total, inbound) ==
            match ScanLines(s, k, NO_FIELDS, inbound)
            case None => None
            case Some((end, f)) =>
              if && LengthsAgree(f, end, |s|, total, inbound)
                 && (f.chunked ==> total == |s| && end <= |s| && ChunksAllow(s, end, inbound))
              then Some(k) else None
  {
    hide ScanRequestLine, ScanLines, ChunksAllow, LengthsAgree;
  }

  /**
    An insertion point of the host's is the automata's exactly if none of the fields is misread and
    the body, if it is chunked, is no dead end.
   */
  lemma {:induction false} HostPlansFound(s: ByteSeq, total: nat, inbound: bool)
    requires Plan(s, total, inbound).Inject?
    ensures SplitHead(s).Ok? && ReadLines(NO_FIELDS, SplitHead(s).value.lines, inbound).Ok?
    ensures var head := SplitHead(s).value; var chunked := ReadLines(NO_FIELDS, head.lines, inbound).value.chunked;
            ScanPlan(s, total, inbound) ==
            if NoneMisread(head.lines, inbound) && (chunked ==> !DeadEnd(s, head.end))
            then Some(Plan(s, total, inbound).insertAt) else None
  {
    hide Plan, SplitHead, FindCrlf, HeaderLines, ReadLines, ValidateRequestLine, FrameBody, NoneMisread, DeadEnd, ScanRequestLine,
      ScanLines, LengthsAgree, ChunksAllow, ScanPlan;
    var head, g := InjectedHead(s, total, inbound);
    HeadOfSplit(s);
    FirstLine(s);
    AcceptedByHost(s);
    var k := |head.requestLine| + 2;
    PlanParts(s, total, inbound, k);
    LinesComplete(s, k, NO_FIELDS, NO_FIELDS, inbound);
    if ScanLines(s, k, NO_FIELDS, inbound).Some? {
      LinesSound(s, k, NO_FIELDS, NO_FIELDS, inbound);
      var (end, f) := ScanLines(s, k, NO_FIELDS, inbound).value;
      FrameAllows(f, g, s, end, total, inbound);
    }
  }

  lemma {:induction false} FirstLine(s: ByteSeq)
    requires SplitHead(s).Ok?
    ensures s != [] && FindCrlf(s) == Some(|SplitHead(s).value.requestLine|)
    ensures |SplitHead(s).value.requestLine| + 2 < SplitHead(s).value.end
  {
    hide FindCrlf, HeaderLines;
  }

  // ----- requests on which the planners differ -----

  // "G / HTTP/1.1"
  const SOME_LINE: ByteSeq := [71, SP, 47, SP] + VERSION_PREFIX + [49]
  // The head of a chunked request
  const CHUNKED_HEAD: ByteSeq := SOME_LINE + CRLF + TRANSFER_ENCODING + [COLON] + CHUNKED + CRLF + CRLF

  lemma {:induction false} SomeLineValid()
    ensures |SOME_LINE| == 12 && ValidateRequestLine(SOME_LINE).Ok?
  {
    hide FindByte;
    var line := SOME_LINE;
    SplitAtBlanks(line, 1, 3);
    assert line[4..] == VERSION_PREFIX + [49];
    VersionHasNoBlank(line[4..]);
  }

  lemma {:induction false} ChunkedField(inbound: bool)
    ensures ScanField(NO_FIELDS, TRANSFER_ENCODING, CHUNKED, inbound) == Some(NO_FIELDS.(chunked := true))
  {
    hide FnvFold, TrimOws;
    LowerNames();
    TrimIs(CHUNKED, 0, 7);
    assert CHUNKED[0..7] == CHUNKED;
  }

  lemma {:induction false} ChunkedPlaces(body: ByteSeq)
    ensures var s := CHUNKED_HEAD + body;
            && |CHUNKED_HEAD| == 43 && s[..12] == SOME_LINE && CrlfAt(s, 12) && (forall j | 0 <= j < 12 :: s[j] != CR)
            && TokenEnd(s, 14) == 31 && s[31] == COLON && ValueEnd(s, 32) == 39 && CrlfAt(s, 39)
            && s[14..31] == TRANSFER_ENCODING && s[32..39] == CHUNKED && CrlfAt(s, 41)
  {
    hide TokenEnd, ValueEnd;
    var head, s := CHUNKED_HEAD, CHUNKED_HEAD + body;
    assert |head| == 43;
    assert forall j | 0 <= j < 43 :: s[j] == head[j];
    TokenRun(s, 14, 31);
    ValueRun(s, 32, 39);
    assert s[..12] == SOME_LINE && s[14..31] == TRANSFER_ENCODING && s[32..39] == CHUNKED;
  }

  /** Both sides read the head alike, whatever the body. */
  lemma {:induction false} ChunkedRequest(body: ByteSeq, inbound: bool)
    ensures var s := CHUNKED_HEAD + body;
            && |s| == 43 + |body| && s[43..] == body && ScanRequestLine(s) == Some(14)
            && ScanLines(s, 14, NO_FIELDS, inbound) == Some((43, NO_FIELDS.(chunked := true)))
  {
    hide ScanField, TokenEnd, ValueEnd, ScanLines, CHUNKED_HEAD, SOME_LINE, FindCrlf, ValidateRequestLine, ScanRequestLine;
    var s := CHUNKED_HEAD + body;
    ChunkedPlaces(body);
    SomeLineValid();
    FirstCrlf(s, 0, 12);
    assert s[0..] == s;
    AcceptedByHost(s);
    ChunkedField(inbound);
    LineScanned(s, 14, 31, 39, NO_FIELDS, inbound);
    BlankLine(s, 41, NO_FIELDS.(chunked := true), inbound);
  }

  // A chunk size that is the letter "A" so far
  const CAPITAL_REQUEST: ByteSeq := CHUNKED_HEAD + [65]

  lemma {:induction false} CapitalChunk()
    ensures |CAPITAL_REQUEST| == 44 && ScanChunks(CAPITAL_REQUEST, 43) == Pending && CapitalSize(CAPITAL_REQUEST, 43)
  {
    hide HexEnd, AnyHexValue, ScanTrailers;
    var s := CAPITAL_REQUEST;
    HexRun(s, 43, 44);
    assert s[43..44] == [65];
    CapitalDigit();
  }

  lemma {:induction false} CapitalDigit()
    ensures AllAnyHex([65]) && AnyHexValue([65]) == 10 && !AllHex([65])
  {
    var s: ByteSeq := [65];
    assert s[..0] == [] && !IsHexDigit(s[0]);
  }

  /** A capital digit makes the planners differ: one inserts, the other calls the body invalid. */
  lemma {:induction false} CapitalSizesDiffer()
    ensures ScanPlan(CAPITAL_REQUEST, 44, false) == Some(14)
    ensures Plan(CAPITAL_REQUEST, 44, false) == Bypass(InvalidChunkedBody)
  {
    hide ScanRequestLine, ScanLines, ScanChunks, Plan, CapitalSize, CHUNKED_HEAD;
    ChunkedRequest([65], false);
    CapitalChunk();
    PlansAgree(CAPITAL_REQUEST, 44, false);
  }

  /** What the host decides about such a request while its body is incomplete. */
  lemma {:induction false} IncompleteInjects(body: ByteSeq)
    requires ChunkedBodyStatus(body) == Incomplete && 43 + |body| <= HTTP_REQUEST_BYTES
    ensures var s := CHUNKED_HEAD + body; Plan(s, |s|, false) == Inject(14)
  {
    hide ScanRequestLine, ScanLines, CHUNKED_HEAD, SplitHead, HeaderLines, ReadLines, ValidateRequestLine, ChunkedBodyStatus, FindCrlf;
    var s := CHUNKED_HEAD + body;
    ChunkedRequest(body, false);
    AcceptedLine(s);
    LinesSound(s, 14, NO_FIELDS, NO_FIELDS, false);
    SplitOf(s, 14);
  }

  lemma {:induction false} SplitOf(s: ByteSeq, k: nat)
    requires s != [] && |s| <= HTTP_REQUEST_BYTES && 2 <= k <= |s| && FindCrlf(s) == Some(k - 2) && HeaderLines(s[k..]).Some?
    ensures SplitHead(s) == Ok(Head(s[..k - 2], HeaderLines(s[k..]).value.lines, k + HeaderLines(s[k..]).value.end))
  {
    hide FindCrlf, HeaderLines;
  }

  lemma {:induction false} LoneCr()
    ensures ChunkedBodyStatus([CR]) == Incomplete && DeadSizeLine([CR]) && FindCrlf([CR]).None?
  {
    hide HexValue, FindCrlf, FindByte;
    var rem: ByteSeq := [CR];
    assert rem[0..] == rem && rem[..0] == [] && rem[0] == CR && !NoBreak(rem);
    assert forall j :: !CrlfAt(rem, j);
    assert FindCrlf(rem).None?;
    assert ValidChunkSizePrefix(rem);
  }

  // "100000000" and a line break: the size of a chunk of 2^32 bytes
  const WIDE_SIZE: ByteSeq := [49, 48, 48, 48, 48, 48, 48, 48, 48] + CRLF

  lemma {:induction false} WideSize()
    ensures |WIDE_SIZE| == 11 && FindCrlf(WIDE_SIZE) == Some(9) && ParseChunkSizeLine(WIDE_SIZE[..9]) == Some(0x1_0000_0000)
    ensures ChunkedBodyStatus(WIDE_SIZE) == Incomplete
  {
    hide FindCrlf, ParseChunkSizeLine;
    assert CrlfAt(WIDE_SIZE, 9) && forall j | 0 <= j < 9 :: !CrlfAt(WIDE_SIZE, j);
    WideDigits();
    assert WIDE_SIZE[0..] == WIDE_SIZE;
  }

  lemma {:induction false} WideDigits()
    ensures ParseChunkSizeLine(WIDE_SIZE[..9]) == Some(0x1_0000_0000)
  {
    hide FindByte, HexValue;
    var line := WIDE_SIZE[..9];
    assert FindByte(line, SEMICOLON).None?;
    HexPrefix(line, 0);
    HexPrefix(line, 1);
    HexPrefix(line, 2);
    HexPrefix(line, 3);
    HexPrefix(line, 4);
    HexPrefix(line, 5);
    HexPrefix(line, 6);
    HexPrefix(line, 7);
    HexPrefix(line, 8);
    assert line[..9] == line;
    NoHexValue(line);
  }

  lemma {:induction false} NoHexValue(s: ByteSeq)
    ensures HexValue(s[..0]) == 0
  {}

  lemma {:induction false} HexPrefix(s: ByteSeq, k: nat)
    requires k < |s| && AllHex(s)
    ensures HexValue(s[..k + 1]) == 16 * HexValue(s[..k]) + HexDigitValue(s[k])
  {
    assert s[..k + 1][..k] == s[..k];
  }

  /** Two begun bodies that the host goes along with and the automaton refuses: a lone CR, and a chunk of 2^32 bytes. */
  lemma {:induction false} DeadEndsDiffer()
    ensures var s := CHUNKED_HEAD + [CR];
            Plan(s, |s|, false) == Inject(14) && ScanPlan(s, |s|, false).None?
    ensures var s := CHUNKED_HEAD + WIDE_SIZE;
            Plan(s, |s|, false) == Inject(14) && ScanPlan(s, |s|, false).None?
  {
    hide ScanRequestLine, ScanLines, ScanPlan, Plan, CHUNKED_HEAD, ChunkedBodyStatus, WIDE_SIZE, ChunksAllow, ParseChunkSizeLine, DeadEnd, DeadSizeLine;
    LoneCr();
    DeadRefused([CR]);
    WideSize();
    DeadRefused(WIDE_SIZE);
  }

  lemma {:induction false} DeadRefused(body: ByteSeq)
    requires ChunkedBodyStatus(body) == Incomplete && 43 + |body| <= HTTP_REQUEST_BYTES
    requires FindCrlf(body).None? ==> body != [] && DeadSizeLine(body)
    requires FindCrlf(body).Some? ==>
               var size := ParseChunkSizeLine(body[..FindCrlf(body).value]); size.Some? && size.value > U32_MAX
    ensures var s := CHUNKED_HEAD + body; Plan(s, |s|, false) == Inject(14) && ScanPlan(s, |s|, false).None?
  {
    hide ScanRequestLine, ScanLines, CHUNKED_HEAD, ScanChunks, FindCrlf, ParseChunkSizeLine, DeadSizeLine, Plan, DeadTrailers;
    var s := CHUNKED_HEAD + body;
    IncompleteInjects(body);
    ChunkedRequest(body, false);
    ChunksComplete(s, 43, 43);
    PlanParts(s, |s|, false, 14);
  }

  /** A request with one header line and no body. */
  function OneLine(line: ByteSeq): ByteSeq { SOME_LINE + CRLF + line + CRLF + CRLF }

  lemma {:induction false} OneLineHead(line: ByteSeq)
    requires line != [] && |line| <= 1000 && forall i | 0 <= i < |line| :: line[i] != CR
    ensures var s := OneLine(line);
            && |s| == 18 + |line| && SplitHead(s) == Ok(Head(SOME_LINE, [line], |s|)) && ScanRequestLine(s) == Some(14)
            && HeaderLines(s[14..]).Some? && HeaderLines(s[14..]).value.lines == [line]
  {
    hide FindCrlf, HeaderLines, ValidateRequestLine, ScanRequestLine, SplitHead;
    var s := OneLine(line);
    SomeLineValid();
    NoCrInLine();
    assert s[..12] == SOME_LINE && s[0..] == s && CrlfAt(s, 12) && forall j | 0 <= j < 12 :: s[j] == SOME_LINE[j];
    FirstCrlf(s, 0, 12);
    AcceptedByHost(s);
    assert s[14..] == line + CRLF + CRLF;
    Insertion.PrependLine(line, CRLF);
    OnlyBlankLine();
    assert [line] + [] == [line];
    SplitOf(s, 14);
  }

  lemma {:induction false} NoCrInLine()
    ensures forall j | 0 <= j < |SOME_LINE| :: SOME_LINE[j] != CR
  {}

  lemma {:induction false} OnlyBlankLine()
    ensures HeaderLines(CRLF) == Some(Section([], 2))
  {
    assert CrlfAt(CRLF, 0);
  }

  // "a upgrade"
  const BLANK_SPLIT: ByteSeq := [97, SP] + UPGRADE
  const BLANK_SPLIT_LINE: ByteSeq := CONNECTION + [COLON] + BLANK_SPLIT

  lemma {:induction false} BlankSplitValue()
    ensures TrimOws(BLANK_SPLIT) == BLANK_SPLIT && !ContainsUpgradeToken(BLANK_SPLIT) && HasUpgradeToken(BLANK_SPLIT)
  {
    hide TrimOws, FindByte, UpgradeTokenAt;
    var v := BLANK_SPLIT;
    TrimIs(v, 0, 9);
    assert v[0..9] == v && v[2..9] == UPGRADE;
    assert FindByte(v, COMMA).None?;
    assert UpgradeWordAt(v, 2);
    UpgradeWordIsToken(v, 2);
  }

  lemma {:induction false} BlankSplitLine()
    ensures var line := BLANK_SPLIT_LINE;
            && WellFormedLine(line) && FieldName(line) == CONNECTION && RawValue(line) == BLANK_SPLIT && FieldValue(line) == BLANK_SPLIT
            && |line| == 20 && FindByte(line, COLON).Some? && forall i | 0 <= i < |line| :: line[i] != CR
  {
    hide FindByte, TrimOws, WellFormedLine, FieldName, FieldValue, IsTokenByte, IsValueByte, BLANK_SPLIT_LINE, BLANK_SPLIT, HasUpgradeToken;
    var line := BLANK_SPLIT_LINE;
    BlankSplitValue();
    BlankSplitBytes();
    LineParts(line, 10);
    WellFormedParts(line, 10);
  }

  lemma {:induction false} BlankSplitBytes()
    ensures var line := BLANK_SPLIT_LINE;
            && |line| == 20 && line[10] == COLON && line[..10] == CONNECTION && line[11..] == BLANK_SPLIT
            && (forall i | 0 <= i < 10 :: IsTokenByte(line[i]) && line[i] != COLON) && (forall i | 11 <= i < 20 :: IsValueByte(line[i]))
            && forall i | 0 <= i < 20 :: line[i] != CR
  {}

  lemma {:induction false} ConnectionRecognised()
    ensures EqIgnoreCase(CONNECTION, CONNECTION) && KindOf(CONNECTION) == Connection
    ensures NamedField(NO_FIELDS, CONNECTION, BLANK_SPLIT, false) == Ok(NO_FIELDS)
  {
    hide ContainsUpgradeToken, FnvFold;
    LowerNames();
    KindMeans(CONNECTION);
    BlankSplitValue();
  }

  /** An upgrade token between blanks makes the planners differ: the host inserts, the automata do not. */
  lemma {:induction false} BlankTokensDiffer()
    ensures var s := OneLine(BLANK_SPLIT_LINE); Plan(s, |s|, false) == Inject(14) && ScanPlan(s, |s|, false).None?
  {
    hide OneLine, SplitHead, ValidateRequestLine, ReadLines, ScanPlan, ScanRequestLine, HeaderLines, WellFormedLine, FieldName, FieldValue, RawValue,
      FindByte, NamedField, BLANK_SPLIT_LINE, BLANK_SPLIT, KindOf, HasUpgradeToken, NameRefused;
    var line := BLANK_SPLIT_LINE;
    var s := OneLine(line);
    BlankSplitLine();
    BlankSplitValue();
    ConnectionRecognised();
    OneLineHead(line);
    SomeLineValid();
    ReadCons(NO_FIELDS, line, [], false);
    ReadNone(NO_FIELDS, false);
    assert [line] + [] == [line];
    HostPlansFound(s, |s|, false);
    var lines: seq<ByteSeq> := [line];
    assert Misread(FieldName(lines[0]), RawValue(lines[0]), false);
  }
}
