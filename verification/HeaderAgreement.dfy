/**
  The kernel-side reading of a header section against the host's. Every section the automaton
  accepts, the host reads to the same lengths and framing. Conversely a section of the host's is
  accepted exactly if none of its fields is misread: two approximations can do that, a hash match on
  a different name, and Connection tokens split at blanks.
 */
module HeaderAgreement {
  import opened Bytes
  import opened Ows
  import opened Fnv
  import opened ChunkedBody
  import opened ChunkedStability
  import opened Http1
  import opened BpfScan
  import opened BpfHeaders
  import opened RequestLineAgreement

  // ----- names -----

  lemma {:induction false} LowerNames()
    ensures Lower(TRACEPARENT) == TRACEPARENT && Lower(TRACESTATE) == TRACESTATE && Lower(UPGRADE) == UPGRADE
    ensures Lower(CONNECTION) == CONNECTION && Lower(CHUNKED) == CHUNKED
    ensures Lower(TRANSFER_ENCODING) == TRANSFER_ENCODING && Lower(CONTENT_LENGTH) == CONTENT_LENGTH
  {}

  /** A recognised name has the length and the hash the automaton looks for. */
  lemma {:induction false} NameHashes(name: ByteSeq)
    ensures EqIgnoreCase(name, TRACEPARENT) ==> |name| == 11 && FnvFold(Lower(name)) == TRACEPARENT_HASH
    ensures EqIgnoreCase(name, TRACESTATE) ==> |name| == 10 && FnvFold(Lower(name)) == TRACESTATE_HASH
    ensures EqIgnoreCase(name, UPGRADE) ==> |name| == 7 && FnvFold(Lower(name)) == UPGRADE_HASH
    ensures EqIgnoreCase(name, CONNECTION) ==> |name| == 10 && FnvFold(Lower(name)) == CONNECTION_HASH
  {
    hide FnvFold;
    LowerNames();
    TraceparentHash();
    TracestateHash();
    UpgradeHash();
    ConnectionHash();
  }

  lemma {:induction false} KindMeans(name: ByteSeq)
    ensures EqIgnoreCase(name, CONTENT_LENGTH) <==> KindOf(name) == ContentLength
    ensures EqIgnoreCase(name, TRANSFER_ENCODING) <==> KindOf(name) == TransferEncoding
    ensures EqIgnoreCase(name, CONNECTION) ==> KindOf(name) == Connection
  {
    hide FnvFold;
    LowerNames();
    NameHashes(name);
  }

  // ----- Connection tokens -----

  /** The word "upgrade", in any case, between separators. */
  ghost predicate UpgradeWordAt(v: ByteSeq, p: int)
  {
    && 0 <= p && p + 7 <= |v|
    && (p == 0 || IsSeparator(v[p - 1])) && (p + 7 == |v| || IsSeparator(v[p + 7]))
    && EqIgnoreCase(v[p..p + 7], UPGRADE)
  }

  lemma {:induction false} UpgradeWordIsToken(v: ByteSeq, p: int)
    requires UpgradeWordAt(v, p)
    ensures UpgradeTokenAt(v, p)
  {
    hide FnvFold;
    var w := v[p..p + 7];
    NameHashes(w);
    LowerNames();
    forall i | p <= i < p + 7
      ensures !IsSeparator(v[i])
    {
      assert LowerByte(w[i - p]) == UPGRADE[i - p];
    }
  }

  /** A trimmed slice that is the word sits between separators of the slice it was trimmed from. */
  lemma {:induction false} TrimmedUpgrade(v: ByteSeq) returns (p: int)
    requires EqIgnoreCase(TrimOws(v), UPGRADE)
    ensures UpgradeWordAt(v, p)
  {
    hide TrimOws, EqIgnoreCase;
    var lo, hi := TrimFacts(v);
    assert hi - lo == 7 by { SameLength(TrimOws(v), UPGRADE); }
    p := lo;
  }

  lemma {:induction false} SameLength(a: ByteSeq, b: ByteSeq)
    requires EqIgnoreCase(a, b)
    ensures |a| == |b|
  {}

  lemma {:induction false} HostTokenFound(v: ByteSeq) returns (p: int)
    requires ContainsUpgradeToken(v)
    ensures UpgradeWordAt(v, p)
    decreases |v|
  {
    hide TrimOws, EqIgnoreCase, FindByte;
    var k := FindByte(v, COMMA);
    if k.None? {
      p := TrimmedUpgrade(v);
    } else if EqIgnoreCase(TrimOws(v[..k.value]), UPGRADE) {
      p := TrimmedUpgrade(v[..k.value]);
      assert v[..k.value][p..p + 7] == v[p..p + 7];
    } else {
      var rest := v[k.value + 1..];
      var q := HostTokenFound(rest);
      p := q + k.value + 1;
      assert rest[q..q + 7] == v[p..p + 7];
    }
  }

  /** Any upgrade token the host sees in a trimmed value, the automaton sees in the raw one. */
  lemma {:induction false} HostTokenSeen(raw: ByteSeq)
    requires ContainsUpgradeToken(TrimOws(raw))
    ensures HasUpgradeToken(raw)
  {
    hide TrimOws, EqIgnoreCase, ContainsUpgradeToken, UpgradeTokenAt;
    var p := HostTokenFound(TrimOws(raw));
    var lo, hi := TrimFacts(raw);
    var q := lo + p;
    SliceOfSlice(raw, lo, hi, p, p + 7);
    assert UpgradeWordAt(raw, q);
    UpgradeWordIsToken(raw, q);
  }

  // ----- one field -----

  /** Equal on everything the framing decision uses. */
  ghost predicate Similar(f: Fields, g: Fields, inbound: bool)
  {
    f.contentLength == g.contentLength && f.chunked == g.chunked && (!inbound ==> !g.sawTracestate)
  }

  lemma {:induction false} FieldSound(f: Fields, g: Fields, name: ByteSeq, raw: ByteSeq, inbound: bool)
    requires Similar(f, g, inbound) && ScanField(f, name, raw, inbound).Some?
    ensures NamedField(g, name, TrimOws(raw), inbound).Ok?
    ensures Similar(ScanField(f, name, raw, inbound).value, NamedField(g, name, TrimOws(raw), inbound).value, inbound)
  {
    hide FnvFold, TrimOws, EqIgnoreCase, KindOf, ContainsUpgradeToken, HasUpgradeToken, ParseContentLength;
    NameHashes(name);
    KindMeans(name);
    ChunkedMeans(TrimOws(raw));
    if ContainsUpgradeToken(TrimOws(raw)) {
      HostTokenSeen(raw);
    }
  }

  lemma {:induction false} ChunkedMeans(v: ByteSeq)
    ensures EqIgnoreCase(v, CHUNKED) <==> Lower(v) == CHUNKED
  {
    LowerNames();
  }

  /** The automaton refuses the field for the hash of its name, or for a token between separators. */
  predicate Misread(name: ByteSeq, raw: ByteSeq, inbound: bool)
  {
    NameRefused(name, inbound) || (KindOf(name) == Connection && HasUpgradeToken(raw))
  }

  /** A field the host accepts is accepted exactly if it is not misread. */
  lemma {:induction false} FieldComplete(f: Fields, g: Fields, name: ByteSeq, raw: ByteSeq, inbound: bool)
    requires Similar(f, g, inbound) && NamedField(g, name, TrimOws(raw), inbound).Ok?
    ensures ScanField(f, name, raw, inbound).Some? <==> !Misread(name, raw, inbound)
  {
    hide FnvFold, TrimOws, EqIgnoreCase, ContainsUpgradeToken, HasUpgradeToken, ParseContentLength, NameRefused;
    KindMeans(name);
    ChunkedMeans(TrimOws(raw));
  }

  /** The name has the length and the hash of a name that it is not. */
  ghost predicate Mistakable(name: ByteSeq)
  {
    var hash := FnvFold(Lower(name));
    || (|name| == 11 && hash == TRACEPARENT_HASH && !EqIgnoreCase(name, TRACEPARENT))
    || (|name| == 10 && hash == TRACESTATE_HASH && !EqIgnoreCase(name, TRACESTATE))
    || (|name| == 7 && hash == UPGRADE_HASH && !EqIgnoreCase(name, UPGRADE))
    || (|name| == 10 && hash == CONNECTION_HASH && !EqIgnoreCase(name, CONNECTION))
  }

  /** Among fields the host accepts, only colliding names and blank-split upgrade tokens are misread. */
  lemma {:induction false} WhyMisread(g: Fields, name: ByteSeq, raw: ByteSeq, inbound: bool)
    requires NamedField(g, name, TrimOws(raw), inbound).Ok? && (!inbound ==> !EqIgnoreCase(name, TRACESTATE))
    requires Misread(name, raw, inbound) && !Mistakable(name)
    ensures EqIgnoreCase(name, CONNECTION) && HasUpgradeToken(raw) && !ContainsUpgradeToken(TrimOws(raw))
  {
    hide FnvFold, TrimOws, EqIgnoreCase, ContainsUpgradeToken, HasUpgradeToken, ParseContentLength;
  }

  // ----- lines -----

  lemma {:induction false} LineParts(line: ByteSeq, c: nat)
    requires c < |line| && line[c] == COLON && forall j | 0 <= j < c :: line[j] != COLON
    ensures FindByte(line, COLON) == Some(c)
    ensures FieldName(line) == line[..c] && FieldValue(line) == TrimOws(line[c + 1..])
  {
    hide FindByte, TrimOws;
    assert FindByte(line, COLON) == Some(c);
  }

  lemma {:induction false} ScannedLine(s: ByteSeq, pos: nat, n: nat, v: nat)
    requires pos < n < v && CrlfAt(s, v) && s[n] == COLON
    requires (forall j | pos <= j < n :: IsTokenByte(s[j])) && (forall j | n < j < v :: IsValueByte(s[j]))
    ensures FindCrlf(s[pos..]) == Some(v - pos) && s[pos..][..v - pos] == s[pos..v] && s[pos..][v - pos + 2..] == s[v + 2..]
    ensures WellFormedLine(s[pos..v]) && FieldName(s[pos..v]) == s[pos..n] && FieldValue(s[pos..v]) == TrimOws(s[n + 1..v])
  {
    hide FindCrlf, FindByte, IsTokenByte, IsValueByte, TrimOws, WellFormedLine, FieldName, FieldValue;
    ColonIsNoToken();
    assert COLON != CR;
    FirstCrlf(s, pos, v);
    var line := s[pos..v];
    assert forall j | 0 <= j < |line| :: line[j] == s[pos + j];
    LineParts(line, n - pos);
    assert line[..n - pos] == s[pos..n] && line[n - pos + 1..] == s[n + 1..v];
    WellFormedParts(line, n - pos);
  }

  lemma {:induction false} WellFormedParts(line: ByteSeq, c: nat)
    requires FindByte(line, COLON) == Some(c) && 0 < c < |line|
    requires (forall j | 0 <= j < c :: IsTokenByte(line[j])) && (forall j | c < j < |line| :: IsValueByte(line[j]))
    ensures WellFormedLine(line)
  {
    hide FindByte, IsTokenByte, IsValueByte, TrimOws;
    var raw := line[c + 1..];
    assert forall j | 0 <= j < |raw| :: raw[j] == line[c + 1 + j];
    TrimKeepsValue(raw);
  }

  lemma {:induction false} TokenBytes(s: ByteSeq, i: nat)
    requires i <= |s|
    ensures i <= TokenEnd(s, i) <= |s| && forall j | i <= j < TokenEnd(s, i) :: IsTokenByte(s[j])
  {
    hide IsTokenByte;
  }

  lemma {:induction false} ValueBytesOf(s: ByteSeq, i: nat)
    requires i <= |s|
    ensures i <= ValueEnd(s, i) <= |s| && forall j | i <= j < ValueEnd(s, i) :: IsValueByte(s[j])
  {
    hide IsValueByte;
  }

  /** The end of an accepted section, or its first line and the section that follows. */
  lemma {:induction false} ScannedStep(s: ByteSeq, pos: nat, f: Fields, inbound: bool) returns (n: nat, v: nat)
    requires pos <= |s| && ScanLines(s, pos, f, inbound).Some?
    ensures v == pos ==> CrlfAt(s, pos) && ScanLines(s, pos, f, inbound) == Some((pos + 2, f))
    ensures v != pos ==>
              && pos < n < v && CrlfAt(s, v) && s[n] == COLON
              && (forall j | pos <= j < n :: IsTokenByte(s[j])) && (forall j | n < j < v :: IsValueByte(s[j]))
              && ScanField(f, s[pos..n], s[n + 1..v], inbound).Some?
              && var next := ScanField(f, s[pos..n], s[n + 1..v], inbound).value;
                 ScanLines(s, pos, f, inbound) == ScanLines(s, v + 2, next, inbound)
  {
    hide IsTokenByte, IsValueByte, ScanField, TokenEnd, ValueEnd;
    n := TokenEnd(s, pos);
    TokenBytes(s, pos);
    v := if s[n] == CR then pos else ValueEnd(s, n + 1);
    if s[n] != CR {
      ValueBytesOf(s, n + 1);
    }
  }

  /** Every header section the automaton accepts, the host reads alike. */
  lemma {:induction false} LinesSound(s: ByteSeq, pos: nat, f: Fields, g: Fields, inbound: bool)
    requires pos <= |s| && Similar(f, g, inbound) && ScanLines(s, pos, f, inbound).Some?
    ensures var (end, f') := ScanLines(s, pos, f, inbound).value;
            && HeaderLines(s[pos..]).Some? && HeaderLines(s[pos..]).value.end == end - pos
            && ReadLines(g, HeaderLines(s[pos..]).value.lines, inbound).Ok?
            && Similar(f', ReadLines(g, HeaderLines(s[pos..]).value.lines, inbound).value, inbound)
    decreases |s| - pos
  {
    hide FindCrlf, HeaderLines, IsTokenByte, IsValueByte, ScanLines, ScanField, ReadLines, NamedField, WellFormedLine,
      FieldName, FieldValue, TrimOws, Similar;
    var n, v := ScannedStep(s, pos, f, inbound);
    if v == pos {
      FirstCrlf(s, pos, pos);
      NextLine(s[pos..]);
      ReadNone(g, inbound);
    } else {
      ScannedLine(s, pos, n, v);
      NextLine(s[pos..]);
      FieldSound(f, g, s[pos..n], s[n + 1..v], inbound);
      var f' := ScanField(f, s[pos..n], s[n + 1..v], inbound).value;
      var g' := NamedField(g, s[pos..n], TrimOws(s[n + 1..v]), inbound).value;
      LinesSound(s, v + 2, f', g', inbound);
      var rest := HeaderLines(s[v + 2..]).value.lines;
      ReadCons(g, s[pos..v], rest, inbound);
    }
  }

  lemma {:induction false} ReadNone(g: Fields, inbound: bool)
    ensures ReadLines(g, [], inbound) == Ok(g)
  {}

  lemma {:induction false} ReadCons(g: Fields, line: ByteSeq, rest: seq<ByteSeq>, inbound: bool)
    requires WellFormedLine(line)
    ensures var step := NamedField(g, FieldName(line), FieldValue(line), inbound);
            ReadLines(g, [line] + rest, inbound) ==
            match step case Err(reason) => Err(reason) case Ok(next) => ReadLines(next, rest, inbound)
  {
    hide WellFormedLine, FieldName, FieldValue, NamedField;
    var all := [line] + rest;
    assert all[0] == line && all[1..] == rest;
  }

  /** The host's raw (untrimmed) value of a well-formed line. */
  ghost function RawValue(line: ByteSeq): ByteSeq
    requires FindByte(line, COLON).Some?
  {
    line[FindByte(line, COLON).value + 1..]
  }

  ghost predicate NoneMisread(lines: seq<ByteSeq>, inbound: bool)
  {
    forall i | 0 <= i < |lines| :: FindByte(lines[i], COLON).Some? ==> !Misread(FieldName(lines[i]), RawValue(lines[i]), inbound)
  }

  lemma {:induction false} HostLine(s: ByteSeq, pos: nat) returns (n: nat, v: nat)
    requires pos <= |s| && FindCrlf(s[pos..]).Some? && FindCrlf(s[pos..]).value > 0
    requires WellFormedLine(s[pos..][..FindCrlf(s[pos..]).value])
    ensures pos < n < v == pos + FindCrlf(s[pos..]).value && CrlfAt(s, v) && s[n] == COLON
    ensures s[pos..v] == s[pos..][..v - pos] && s[pos..][v - pos + 2..] == s[v + 2..]
    ensures TokenEnd(s, pos) == n && ValueEnd(s, n + 1) == v && FindByte(s[pos..v], COLON) == Some(n - pos)
    ensures FieldName(s[pos..v]) == s[pos..n] && RawValue(s[pos..v]) == s[n + 1..v]
    ensures FieldValue(s[pos..v]) == TrimOws(s[n + 1..v])
  {
    hide FindCrlf, FindByte, IsTokenByte, IsValueByte, TrimOws, TokenEnd, ValueEnd;
    v := pos + FindCrlf(s[pos..]).value;
    assert s[pos..][v - pos] == s[v] && s[pos..][v - pos + 1] == s[v + 1];
    var line := s[pos..v];
    assert line == s[pos..][..v - pos];
    var c := FindByte(line, COLON).value;
    n := pos + c;
    assert forall j | 0 <= j < |line| :: line[j] == s[pos + j];
    assert line[..c] == s[pos..n] && line[c + 1..] == s[n + 1..v];
    ColonIsNoToken();
    assert forall j | 0 <= j < c :: IsTokenByte(line[..c][j]);
    TokenRun(s, pos, n);
    TrimKeepsValue(s[n + 1..v]);
    assert forall j | n < j < v :: s[j] == s[n + 1..v][j - n - 1];
    ValueRun(s, n + 1, v);
  }

  /** One line of a section, as the automaton reads it. */
  lemma {:induction false} LineScanned(s: ByteSeq, pos: nat, n: nat, v: nat, f: Fields, inbound: bool)
    requires pos < n < v && CrlfAt(s, v) && s[n] == COLON && TokenEnd(s, pos) == n && ValueEnd(s, n + 1) == v
    ensures ScanLines(s, pos, f, inbound) ==
            match ScanField(f, s[pos..n], s[n + 1..v], inbound)
            case None => None
            case Some(next) => ScanLines(s, v + 2, next, inbound)
  {
    hide TokenEnd, ValueEnd, ScanField;
  }

  /** A section the host reads is accepted exactly if none of its fields is misread. */
  lemma {:induction false} LinesComplete(s: ByteSeq, pos: nat, f: Fields, g: Fields, inbound: bool)
    requires pos <= |s| && Similar(f, g, inbound) && HeaderLines(s[pos..]).Some?
    requires ReadLines(g, HeaderLines(s[pos..]).value.lines, inbound).Ok?
    ensures ScanLines(s, pos, f, inbound).Some? <==> NoneMisread(HeaderLines(s[pos..]).value.lines, inbound)
    decreases |s| - pos
  {
    hide FindCrlf, FindByte, HeaderLines, ReadLines, TokenEnd, ValueEnd, ScanField, ScanLines, NamedField, WellFormedLine,
      FieldName, FieldValue, RawValue, TrimOws, Misread, NoneMisread, Similar;
    SectionStarts(s[pos..]);
    NextLine(s[pos..]);
    var lines := HeaderLines(s[pos..]).value.lines;
    var k := FindCrlf(s[pos..]).value;
    if k == 0 {
      assert s[pos..][0] == s[pos] && s[pos..][1] == s[pos + 1];
      BlankLine(s, pos, f, inbound);
      NoLineMisread(inbound);
    } else {
      ReadFirst(g, lines, inbound);
      var n, v := HostLine(s, pos);
      var name, raw := s[pos..n], s[n + 1..v];
      assert lines[0] == s[pos..v] && lines[1..] == HeaderLines(s[v + 2..]).value.lines;
      LineScanned(s, pos, n, v, f, inbound);
      FirstMisread(lines, inbound);
      FieldComplete(f, g, name, raw, inbound);
      if ScanField(f, name, raw, inbound).Some? {
        FieldSound(f, g, name, raw, inbound);
        LinesComplete(s, v + 2, ScanField(f, name, raw, inbound).value, NamedField(g, name, TrimOws(raw), inbound).value, inbound);
      }
    }
  }

  lemma {:induction false} NoLineMisread(inbound: bool)
    ensures NoneMisread([], inbound)
  {}

  lemma {:induction false} FirstMisread(lines: seq<ByteSeq>, inbound: bool)
    requires lines != [] && FindByte(lines[0], COLON).Some?
    ensures NoneMisread(lines, inbound) <==> !Misread(FieldName(lines[0]), RawValue(lines[0]), inbound) && NoneMisread(lines[1..], inbound)
  {
    hide Misread, FieldName, RawValue, FindByte;
    var rest := lines[1..];
    assert forall i | 0 < i < |lines| :: lines[i] == rest[i - 1];
    assert forall i | 0 <= i < |rest| :: rest[i] == lines[i + 1];
  }

  lemma {:induction false} SectionStarts(s: ByteSeq)
    requires HeaderLines(s).Some?
    ensures FindCrlf(s).Some?
  {}

  lemma {:induction false} ReadFirst(g: Fields, lines: seq<ByteSeq>, inbound: bool)
    requires lines != [] && ReadLines(g, lines, inbound).Ok?
    ensures WellFormedLine(lines[0])
    ensures var step := NamedField(g, FieldName(lines[0]), FieldValue(lines[0]), inbound);
            step.Ok? && ReadLines(step.value, lines[1..], inbound) == ReadLines(g, lines, inbound)
  {
    hide WellFormedLine, FieldName, FieldValue, NamedField;
  }
}
