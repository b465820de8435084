/**
  The kernel-side reading of a chunked body against the host's. They agree on everything the
  automaton does not refuse, except that it also reads capital hexadecimal chunk sizes,
  which the host calls invalid. Of what the host finds nothing wrong with, the automaton refuses
  exactly the dead ends.
 */
module ChunkedAgreement {
  import opened Bytes
  import opened Fnv
  import opened ChunkedBody
  import opened ChunkedStability
  import opened Http1
  import opened BpfScan
  import opened BpfHeaders
  import opened BpfChunked
  import opened RequestLineAgreement
  import opened HeaderAgreement

  // ----- digits -----

  lemma {:induction false} SameValue(s: ByteSeq)
    requires AllHex(s)
    ensures AllAnyHex(s) && AnyHexValue(s) == HexValue(s)
  {
    if s != [] {
      SameValue(s[..|s| - 1]);
    }
  }

  // ----- chunk-size lines -----

  /** A line of digits, and an extension after a semicolon if the digits do not reach its end. */
  ghost predicate DigitsThenExtension(line: ByteSeq, h: nat)
  {
    && 0 < h <= |line| && (forall j | 0 <= j < h :: IsAnyHex(line[j]))
    && (h < |line| ==> line[h] == SEMICOLON && forall j | h < j < |line| :: IsValueByte(line[j]))
  }

  lemma {:induction false} ShapeOf(line: ByteSeq, h: nat)
    requires DigitsThenExtension(line, h)
    ensures FindByte(line, SEMICOLON) == (if h < |line| then Some(h) else None)
    ensures SizePart(line) == line[..h] && (SizeLineShape(line) <==> AllHex(line[..h])) && NoBreak(line)
  {
    hide FindByte;
    assert forall j | 0 <= j < |line[..h]| :: line[..h][j] == line[j];
    if h < |line| {
      assert FindByte(line, SEMICOLON) == Some(h);
      var extension := line[h + 1..];
      assert forall j | 0 <= j < |extension| :: extension[j] == line[h + 1 + j];
    } else {
      assert FindByte(line, SEMICOLON).None?;
      assert line[..h] == line;
    }
  }

  lemma {:induction false} ParseOf(line: ByteSeq, h: nat)
    requires DigitsThenExtension(line, h) && |line| != h + 1 && AllAnyHex(line[..h]) && AnyHexValue(line[..h]) <= U32_MAX
    ensures ParseChunkSizeLine(line) == if AllHex(line[..h]) then Some(AnyHexValue(line[..h])) else None
  {
    hide FindByte, SizeLineShape, SizePart;
    ShapeOf(line, h);
    if AllHex(line[..h]) {
      SameValue(line[..h]);
    }
  }

  lemma {:induction false} PrefixOf(line: ByteSeq, h: nat)
    requires DigitsThenExtension(line, h)
    ensures ValidChunkSizePrefix(line) <==> AllHex(line[..h])
    ensures ValidChunkSizePrefix(line + [CR]) <==> AllHex(line[..h])
  {
    hide FindByte, SizeLineShape, SizePart, AllHex;
    ShapeOf(line, h);
    var more := line + [CR];
    assert more[|line|] == CR && more[..|line|] == line;
  }

  /** The digits of the size line at `c` as the host would accept them. */
  ghost predicate SmallDigits(s: ByteSeq, c: nat)
    requires c <= |s|
  {
    AllHex(s[c..HexEnd(s, c)])
  }

  /** Up to `e`, the line at `c` consists of digits and at most an extension. */
  lemma {:induction false} SizeLineTo(s: ByteSeq, c: nat, e: nat)
    requires c <= |s| && c < HexEnd(s, c) <= e <= |s|
    requires HexEnd(s, c) < e ==> s[HexEnd(s, c)] == SEMICOLON && forall j | HexEnd(s, c) < j < e :: IsValueByte(s[j])
    ensures DigitsThenExtension(s[c..e], HexEnd(s, c) - c) && s[c..e][..HexEnd(s, c) - c] == s[c..HexEnd(s, c)]
    ensures forall j | c <= j < e :: s[j] != CR
  {
    hide HexEnd, IsValueByte;
    var h := HexEnd(s, c);
    assert forall j | c <= j < h :: s[j] == s[c..h][j - c] && IsAnyHex(s[j]);
    assert forall j | 0 <= j < e - c :: s[c..e][j] == s[c + j];
    NoCrInValues(s, h, e);
  }

  lemma {:induction false} NoCrInValues(s: ByteSeq, h: nat, e: nat)
    requires h < e ==> e <= |s| && forall j | h < j < e :: IsValueByte(s[j])
    ensures forall j | h < j < e :: s[j] != CR
  {}

  lemma {:induction false} SizeLineSound(s: ByteSeq, c: nat)
    requires c <= |s| && ScanSizeLine(s, c).Size?
    ensures var Size(bytes, next) := ScanSizeLine(s, c);
            && c + 2 < next && FindCrlf(s[c..]) == Some(next - 2 - c)
            && ParseChunkSizeLine(s[c..][..next - 2 - c]) == if SmallDigits(s, c) then Some(bytes) else None
  {
    hide FindCrlf, HexEnd, ValueEnd, IsValueByte, ParseChunkSizeLine, AllHex, AnyHexValue;
    var e := ScanSizeLine(s, c).next - 2;
    ValueBytes(s, HexEnd(s, c));
    SizeLineTo(s, c, e);
    FirstCrlf(s, c, e);
    assert s[c..][..e - c] == s[c..e];
    ParseOf(s[c..e], HexEnd(s, c) - c);
  }

  lemma {:induction false} ValueBytes(s: ByteSeq, h: nat)
    requires h <= |s|
    ensures h < |s| ==> h < ValueEnd(s, h + 1) <= |s| && forall j | h < j < ValueEnd(s, h + 1) :: IsValueByte(s[j])
  {}

  lemma {:induction false} SizeLinePending(s: ByteSeq, c: nat)
    requires c <= |s| && ScanSizeLine(s, c) == NeedMore
    ensures FindCrlf(s[c..]).None? && (ValidChunkSizePrefix(s[c..]) <==> SmallDigits(s, c))
  {
    hide FindCrlf, HexEnd, ValueEnd, IsValueByte, AllHex, AnyHexValue, ValidChunkSizePrefix;
    var h := HexEnd(s, c);
    if c == |s| {
      assert s[c..] == [] && s[c..h] == [];
      EmptyPrefix();
    } else {
      ValueBytes(s, h);
      var e := if h == |s| || s[h] == CR then h else ValueEnd(s, h + 1);
      SizeLineTo(s, c, e);
      NoCrlf(s, c);
      PrefixOf(s[c..e], h - c);
      assert s[c..] == if e == |s| then s[c..e] else s[c..e] + [CR];
    }
  }

  lemma {:induction false} EmptyPrefix()
    ensures ValidChunkSizePrefix([]) && AllHex([])
  {}

  // ----- trailers -----

  lemma {:induction false} TrailerNameHash(name: ByteSeq)
    requires !TrailerRefused(name)
    ensures !EqIgnoreCase(name, TRACEPARENT) && !EqIgnoreCase(name, TRACESTATE)
  {
    hide FnvFold, EqIgnoreCase;
    NameHashes(name);
  }

  lemma {:induction false} TrailerLineSound(s: ByteSeq, c: nat, n: nat, v: nat)
    requires c < n < v && CrlfAt(s, v) && s[n] == COLON && !TrailerRefused(s[c..n])
    requires (forall j | c <= j < n :: IsTokenByte(s[j])) && (forall j | n < j < v :: IsValueByte(s[j]))
    ensures FindCrlf(s[c..]) == Some(v - c) && ValidTrailerLine(s[c..][..v - c])
  {
    hide FindCrlf, FindByte, IsTokenByte, IsValueByte, TrimOws, EqIgnoreCase, TrailerRefused;
    ColonIsNoToken();
    FirstCrlf(s, c, v);
    var line := s[c..v];
    assert s[c..][..v - c] == line;
    assert forall j | 0 <= j < |line| :: line[j] == s[c + j];
    LineParts(line, n - c);
    assert line[..n - c] == s[c..n] && line[n - c + 1..] == s[n + 1..v];
    TrailerNameHash(s[c..n]);
    TrimKeepsValue(s[n + 1..v]);
  }

  /** A last line that is still growing: a name, or a name and a value, perhaps with its CR. */
  lemma {:induction false} TrailerLinePending(s: ByteSeq, c: nat, n: nat, v: nat)
    requires c <= n <= v <= |s| <= v + 1 && (v + 1 == |s| ==> s[v] == CR && (n == c ==> v == c))
    requires forall j | c <= j < n :: IsTokenByte(s[j])
    requires n < v ==> c < n && s[n] == COLON && forall j | n < j < v :: IsValueByte(s[j])
    requires n == v && v + 1 == |s| ==> n == c
    ensures FindCrlf(s[c..]).None? && ValidTrailerPrefix(s[c..])
  {
    hide FindCrlf, FindByte, IsTokenByte, IsValueByte, TrimOws, ValidTrailerPrefix;
    ColonIsNoToken();
    NoCrlf(s, c);
    var line := s[c..v];
    assert forall j | 0 <= j < |line| :: line[j] == s[c + j];
    TrailerShapeOf(line, n - c);
    assert s[c..] == if v == |s| then line else line + [CR];
  }

  lemma {:induction false} TrailerShapeOf(line: ByteSeq, n: nat)
    requires n <= |line| && forall j | 0 <= j < n :: IsTokenByte(line[j])
    requires n < |line| ==> 0 < n && line[n] == COLON && forall j | n < j < |line| :: IsValueByte(line[j])
    ensures ValidTrailerPrefix(line) && ValidTrailerPrefix(line + [CR])
  {
    hide FindByte, IsTokenByte, IsValueByte, TrimOws;
    ColonIsNoToken();
    assert NoBreak(line) by { BytesNoBreak(line, n); }
    if n < |line| {
      LineParts(line, n);
      var raw := line[n + 1..];
      assert forall j | 0 <= j < |raw| :: raw[j] == line[n + 1 + j];
      TrimKeepsValue(raw);
    }
    var more := line + [CR];
    assert more[..|line|] == line;
  }

  lemma {:induction false} BytesNoBreak(line: ByteSeq, n: nat)
    requires n <= |line| && forall j | 0 <= j < n :: IsTokenByte(line[j])
    requires n < |line| ==> line[n] == COLON && forall j | n < j < |line| :: IsValueByte(line[j])
    ensures NoBreak(line)
  {}

  function StatusOf(r: PlanResult): Status
  {
    match r case Pending => Incomplete case Valid => Complete case Refused => Invalid
  }

  /** The first trailer line the automaton reads, if it does not refuse the trailers. */
  lemma {:induction false} TrailerStep(s: ByteSeq, c: nat) returns (n: nat, v: nat)
    requires c <= |s| && ScanTrailers(s, c) != Refused
    ensures c <= n <= v <= |s| && forall j | c <= j < n :: IsTokenByte(s[j])
    ensures n < v ==> c < n && s[n] == COLON && !TrailerRefused(s[c..n]) && forall j | n < j < v :: IsValueByte(s[j])
    ensures n == v < |s| ==> n == c && s[c] == CR && ScanTrailers(s, c) == if c + 1 == |s| then Pending else Valid
    ensures n == v < |s| && c + 1 != |s| ==> CrlfAt(s, c) && c + 2 == |s|
    ensures v == |s| ==> ScanTrailers(s, c) == Pending
    ensures n < v < |s| ==> s[v] == CR
    ensures n < v < |s| && v + 1 == |s| ==> ScanTrailers(s, c) == Pending
    ensures n < v < |s| && v + 1 < |s| ==> CrlfAt(s, v) && ScanTrailers(s, c) == ScanTrailers(s, v + 2)
  {
    hide IsTokenByte, IsValueByte, TrailerRefused;
    n := TokenEnd(s, c);
    v := if n == |s| || s[n] == CR then n else ValueEnd(s, n + 1);
  }

  lemma {:induction false} TrailersSound(s: ByteSeq, start: nat, c: nat)
    requires start <= c <= |s| && ScanTrailers(s, c) != Refused
    ensures TrailerFrom(s[start..], c - start) == StatusOf(ScanTrailers(s, c))
    decreases |s| - c
  {
    hide FindCrlf, IsTokenByte, IsValueByte, TrailerRefused, ScanTrailers, ValidTrailerLine, ValidTrailerPrefix;
    var n, v := TrailerStep(s, c);
    var body := s[start..];
    assert body[c - start..] == s[c..];
    if n < v && v + 1 < |s| {
      TrailerLineSound(s, c, n, v);
      TrailersSound(s, start, v + 2);
    } else if v + 1 >= |s| {
      TrailerLinePending(s, c, n, v);
    } else {
      FirstCrlf(s, c, c);
    }
  }

  // ----- chunks -----

  /** Some chunk size that the automaton reads contains a capital digit. */
  ghost predicate CapitalSize(s: ByteSeq, c: nat)
    requires c <= |s|
    decreases |s| - c
  {
    || !SmallDigits(s, c)
    || match ScanSizeLine(s, c)
       case NeedMore => false
       case Bad => false
       case Size(bytes, next) => bytes != 0 && CrlfAt(s, next + bytes) && CapitalSize(s, next + bytes + 2)
  }

  /** How the host goes on after the data of a chunk, due to end at `end`. */
  ghost function AfterData(body: ByteSeq, end: nat): Status
  {
    if CrlfAt(body, end) then ChunkedFrom(body, end + 2)
    else if end >= |body| || (end + 1 == |body| && body[end] == CR) then Incomplete
    else Invalid
  }

  lemma {:induction false} HostChunk(body: ByteSeq, cursor: nat, k: nat, size: nat)
    requires cursor <= |body| && FindCrlf(body[cursor..]) == Some(k) && k + 2 <= |body| - cursor
    requires ParseChunkSizeLine(body[cursor..][..k]) == Some(size) && |body| + size <= USIZE_MAX
    ensures ChunkedFrom(body, cursor) ==
            if size == 0 then TrailerFrom(body, cursor + k + 2) else AfterData(body, cursor + k + 2 + size)
  {
    hide FindCrlf, ParseChunkSizeLine, TrailerFrom;
  }

  lemma {:induction false} HostRejects(body: ByteSeq, cursor: nat)
    requires cursor <= |body|
    requires FindCrlf(body[cursor..]).None? ==> !ValidChunkSizePrefix(body[cursor..])
    requires FindCrlf(body[cursor..]).Some? ==> ParseChunkSizeLine(body[cursor..][..FindCrlf(body[cursor..]).value]) == None
    ensures ChunkedFrom(body, cursor) == Invalid
  {
    hide FindCrlf, ParseChunkSizeLine, ValidChunkSizePrefix;
  }

  /** What the automaton does not refuse, the host classifies alike, or calls invalid for a capital digit. */
  lemma {:induction false} ChunksSound(s: ByteSeq, start: nat, c: nat)
    requires start <= c <= |s| <= HTTP_REQUEST_BYTES && ScanChunks(s, c) != Refused
    ensures ChunkedFrom(s[start..], c - start) == if CapitalSize(s, c) then Invalid else StatusOf(ScanChunks(s, c))
    decreases |s| - c
  {
    hide FindCrlf, ParseChunkSizeLine, ValidChunkSizePrefix, TrailerFrom, ScanSizeLine, SmallDigits, ScanTrailers, ChunkedFrom;
    var body := s[start..];
    var cursor := c - start;
    assert body[cursor..] == s[c..];
    assert forall j | 0 <= j < |body| :: body[j] == s[start + j];
    var line := ScanSizeLine(s, c);
    if line == NeedMore {
      SizeLinePending(s, c);
      if SmallDigits(s, c) {
        HostPending(body, cursor);
      } else {
        HostRejects(body, cursor);
      }
    } else {
      SizeLineSound(s, c);
      if !SmallDigits(s, c) {
        HostRejects(body, cursor);
      } else {
        SizeBound(s, c);
        HostChunk(body, cursor, line.next - 2 - c, line.bytes);
        var end := line.next + line.bytes;
        if line.bytes == 0 {
          TrailersSound(s, start, line.next);
        } else if CrlfAt(s, end) {
          ChunksSound(s, start, end + 2);
        }
      }
    }
  }

  lemma {:induction false} SizeBound(s: ByteSeq, c: nat)
    requires c <= |s| && ScanSizeLine(s, c).Size?
    ensures ScanSizeLine(s, c).bytes <= U32_MAX
  {
    hide HexEnd, ValueEnd, AnyHexValue;
  }

  lemma {:induction false} HostPending(body: ByteSeq, cursor: nat)
    requires cursor <= |body| && FindCrlf(body[cursor..]).None? && ValidChunkSizePrefix(body[cursor..])
    ensures ChunkedFrom(body, cursor) == Incomplete
  {
    hide FindCrlf, ValidChunkSizePrefix;
  }

  // ----- what the host tolerates and the automaton refuses -----

  function WithoutCr(line: ByteSeq): ByteSeq { if line != [] && line[|line| - 1] == CR then line[..|line| - 1] else line }

  predicate Oversized(line: ByteSeq) { AllHex(SizePart(line)) && HexValue(SizePart(line)) > U32_MAX }

  /** An unfinished size line: more than 32 bits, or a CR where a digit or an extension is due. */
  predicate DeadSizeLine(rem: ByteSeq)
  {
    var line := WithoutCr(rem);
    Oversized(line) || (rem != line && (line == [] || FindByte(line, SEMICOLON) == Some(|line| - 1)))
  }

  function WithoutCrs(line: ByteSeq): (r: ByteSeq)
    ensures r <= line && (r != [] ==> r[|r| - 1] != CR) && forall i | |r| <= i < |line| :: line[i] == CR
  {
    if line != [] && line[|line| - 1] == CR then WithoutCrs(line[..|line| - 1]) else line
  }

  /** An unfinished trailer line: a second CR, a CR after a name without a colon, or a refused name. */
  predicate DeadTrailerLine(rem: ByteSeq)
  {
    var line := WithoutCrs(rem);
    || |rem| > |line| + 1
    || match FindByte(line, COLON)
       case None => line != [] && rem != line
       case Some(colon) => TrailerRefused(line[..colon])
  }

  /** Some trailer line, or the unfinished one at the end, stops the automaton. */
  predicate DeadTrailers(s: ByteSeq, c: nat)
    requires c <= |s|
    decreases |s| - c
  {
    match FindCrlf(s[c..])
    case None => DeadTrailerLine(s[c..])
    case Some(k) =>
      var line := s[c..][..k];
      k > 0 && ((FindByte(line, COLON).Some? && TrailerRefused(FieldName(line))) || DeadTrailers(s, c + k + 2))
  }

  /**
    The automaton cannot get past this body although the host finds nothing wrong with it: a chunk
    of more than 32 bits, an unfinished last line that no line of a body begins with, or a trailer
    name refused for its hash.
   */
  predicate DeadEnd(s: ByteSeq, c: nat)
    requires c <= |s|
    decreases |s| - c
  {
    match FindCrlf(s[c..])
    case None => DeadSizeLine(s[c..])
    case Some(k) =>
      match ParseChunkSizeLine(s[c..][..k])
      case None => false
      case Some(size) =>
        var next := c + k + 2;
        || size > U32_MAX
        || if size == 0 then DeadTrailers(s, next) else CrlfAt(s, next + size) && DeadEnd(s, next + size + 2)
  }

  predicate Undisputed(status: Status) { status == Complete || status == Incomplete }

  function Answer(dead: bool, status: Status): PlanResult
  {
    if dead then Refused else if status == Complete then Valid else Pending
  }

  // ----- size lines -----

  lemma {:induction false} PunctuationIsNoHex()
    ensures !IsAnyHex(CR) && !IsAnyHex(SEMICOLON) && !IsValueByte(CR)
  {}

  /** The digits of a line of `k` bytes at `c` that has the shape of a size line. */
  lemma {:induction false} LineDigits(s: ByteSeq, c: nat, k: nat) returns (h: nat)
    requires c + k <= |s| && SizeLineShape(s[c..c + k]) && (c + k == |s| || s[c + k] == CR)
    ensures c < h <= c + k && h == HexEnd(s, c) && s[c..h] == SizePart(s[c..c + k])
    ensures AllHex(s[c..h]) && AnyHexValue(s[c..h]) == HexValue(SizePart(s[c..c + k]))
    ensures FindByte(s[c..c + k], SEMICOLON) == if h < c + k then Some(h - c) else None
    ensures h < c + k ==> s[h] == SEMICOLON && ValueEnd(s, h + 1) == c + k
  {
    hide FindByte, HexEnd, ValueEnd, IsValueByte, AnyHexValue, HexValue, IsHexDigit, IsAnyHex;
    var line := s[c..c + k];
    assert forall j | 0 <= j < k :: line[j] == s[c + j];
    h := c + |SizePart(line)|;
    assert line[..h - c] == SizePart(line) == s[c..h];
    SameValue(s[c..h]);
    assert forall j | c <= j < h :: s[j] == s[c..h][j - c];
    PunctuationIsNoHex();
    HexRun(s, c, h);
    if h < c + k {
      ExtensionRun(s, c, k, h);
    }
  }

  lemma {:induction false} ExtensionRun(s: ByteSeq, c: nat, k: nat, h: nat)
    requires c <= h < c + k <= |s| && ValidFieldValue(s[c..c + k][h - c + 1..]) && (c + k == |s| || s[c + k] == CR)
    ensures ValueEnd(s, h + 1) == c + k
  {
    hide ValueEnd, IsValueByte;
    var extension := s[c..c + k][h - c + 1..];
    assert forall j | h < j < c + k :: s[j] == extension[j - h - 1];
    PunctuationIsNoHex();
    ValueRun(s, h + 1, c + k);
  }

  lemma {:induction false} HostSize(s: ByteSeq, c: nat, k: nat, size: nat)
    requires c <= |s| && FindCrlf(s[c..]) == Some(k) && c + k + 2 <= |s| && ParseChunkSizeLine(s[c..][..k]) == Some(size)
    ensures ScanSizeLine(s, c) == if size > U32_MAX then Bad else Size(size, c + k + 2)
  {
    hide FindCrlf, FindByte, HexEnd, ValueEnd, SizeLineShape, SizePart, AnyHexValue, HexValue, AllHex;
    assert s[c..][..k] == s[c..c + k];
    assert s[c..][k] == s[c + k] && s[c..][k + 1] == s[c + k + 1];
    var h := LineDigits(s, c, k);
    if h < c + k {
      assert s[c..c + k][h - c + 1..] != [];
    }
  }

  /** The line at the end of the body, with or without its CR. */
  lemma {:induction false} LastSizeLine(s: ByteSeq, c: nat)
    requires c <= |s| && FindCrlf(s[c..]).None? && ValidChunkSizePrefix(s[c..])
    ensures ScanSizeLine(s, c) == if DeadSizeLine(s[c..]) then Bad else NeedMore
  {
    hide FindCrlf, FindByte, HexEnd, ValueEnd, SizeLineShape, SizePart, AnyHexValue, HexValue, AllHex, ScanSizeLine;
    var rem := s[c..];
    var line := WithoutCr(rem);
    if line == [] {
      NoSizeLine(s, c);
    } else {
      LastLineShape(rem);
      assert line == s[c..c + |line|];
      assert rem != line ==> s[c + |line|] == rem[|line|];
      LastDigits(s, c, |line|);
    }
  }

  lemma {:induction false} NoSizeLine(s: ByteSeq, c: nat)
    requires c <= |s| && WithoutCr(s[c..]) == []
    ensures ScanSizeLine(s, c) == if c == |s| then NeedMore else Bad
    ensures DeadSizeLine(s[c..]) <==> c < |s|
  {
    hide FindCrlf, HexEnd, ValueEnd;
    assert c < |s| ==> s[c..][0] == s[c];
    assert HexValue([]) == 0 && AnyHexValue([]) == 0;
    PunctuationIsNoHex();
    HexRun(s, c, c);
    assert s[c..c] == [];
  }

  lemma {:induction false} LastLineShape(rem: ByteSeq)
    requires ValidChunkSizePrefix(rem) && WithoutCr(rem) != []
    ensures SizeLineShape(WithoutCr(rem))
  {
    hide SizeLineShape;
    var line := WithoutCr(rem);
    if rem != line {
      assert !NoBreak(rem);
    }
  }

  lemma {:induction false} LastDigits(s: ByteSeq, c: nat, k: nat)
    requires 0 < k && c + k <= |s| <= c + k + 1 && SizeLineShape(s[c..c + k]) && (c + k < |s| ==> s[c + k] == CR)
    ensures var line := s[c..c + k];
            ScanSizeLine(s, c) ==
            if Oversized(line) || (c + k < |s| && FindByte(line, SEMICOLON) == Some(k - 1)) then Bad else NeedMore
  {
    hide FindByte, HexEnd, ValueEnd, SizeLineShape, SizePart, AnyHexValue, HexValue, AllHex;
    var h := LineDigits(s, c, k);
  }

  // ----- trailer lines -----

  lemma {:induction false} TrailerIsLine(line: ByteSeq)
    requires ValidTrailerLine(line)
    ensures WellFormedLine(line) && !EqIgnoreCase(FieldName(line), TRACEPARENT) && !EqIgnoreCase(FieldName(line), TRACESTATE)
  {
    hide FindByte, TrimOws, EqIgnoreCase;
  }

  lemma {:induction false} TrailerRead(s: ByteSeq, c: nat, n: nat, v: nat)
    requires c < n < v && CrlfAt(s, v) && s[n] == COLON && TokenEnd(s, c) == n && ValueEnd(s, n + 1) == v
    ensures ScanTrailers(s, c) == if TrailerRefused(s[c..n]) then Refused else ScanTrailers(s, v + 2)
  {
    hide TokenEnd, ValueEnd, TrailerRefused;
  }

  /** The trailer line at the end of the body, `line` being what precedes its CR or CRs. */
  lemma {:induction false} LastTrailerLine(s: ByteSeq, c: nat)
    requires c <= |s| && FindCrlf(s[c..]).None? && ValidTrailerPrefix(s[c..])
    ensures ScanTrailers(s, c) == if DeadTrailerLine(s[c..]) then Refused else Pending
  {
    hide FindCrlf, FindByte, TrailerShape, TokenEnd, ValueEnd, TrailerRefused, ScanTrailers;
    var rem := s[c..];
    var line := WithoutCrs(rem);
    LastTrailerShape(rem);
    assert forall j | 0 <= j < |rem| :: rem[j] == s[c + j];
    assert line == s[c..c + |line|];
    assert c + |line| < |s| ==> s[c + |line|] == rem[|line|];
    assert c + |line| + 1 < |s| ==> s[c + |line| + 1] == rem[|line| + 1];
    var colon := FindByte(line, COLON);
    if colon.None? {
      NameAtEnd(s, c, |line|);
    } else {
      FieldAtEnd(s, c, |line|, colon.value);
    }
  }

  lemma {:induction false} LastTrailerShape(rem: ByteSeq)
    requires ValidTrailerPrefix(rem)
    ensures var line := WithoutCrs(rem); NoBreak(line) && TrailerShape(line)
  {
    hide TrailerShape;
    if rem != [] && rem[|rem| - 1] == CR {
      LastTrailerShape(rem[..|rem| - 1]);
    } else if rem == [] {
      NoTrailer();
    }
  }

  lemma {:induction false} NoTrailer()
    ensures TrailerShape([])
  {}

  lemma {:induction false} NameAtEnd(s: ByteSeq, c: nat, k: nat)
    requires c + k <= |s| && FindByte(s[c..c + k], COLON).None? && TrailerShape(s[c..c + k])
    requires forall j | c + k <= j < |s| :: s[j] == CR
    ensures ScanTrailers(s, c) == if c + k < |s| && (k > 0 || k + 1 < |s| - c) then Refused else Pending
  {
    hide FindByte, IsTokenByte, TokenEnd, ValueEnd;
    var line := s[c..c + k];
    assert forall j | c <= j < c + k :: s[j] == line[j - c];
    ColonIsNoToken();
    TokenRun(s, c, c + k);
  }

  lemma {:induction false} FieldAtEnd(s: ByteSeq, c: nat, k: nat, colon: nat)
    requires c + k <= |s| && FindByte(s[c..c + k], COLON) == Some(colon) && TrailerShape(s[c..c + k])
    requires forall j | c + k <= j < |s| :: s[j] == CR
    ensures ScanTrailers(s, c) == if TrailerRefused(s[c..c + k][..colon]) || c + k + 1 < |s| then Refused else Pending
  {
    hide FindByte, IsTokenByte, IsValueByte, TokenEnd, ValueEnd, TrailerRefused, TrimOws, ScanTrailers;
    var line, n := s[c..c + k], c + colon;
    assert line[..colon] == s[c..n] && line[colon + 1..] == s[n + 1..c + k];
    assert forall j | c <= j < n :: s[j] == line[..colon][j - c];
    assert s[n] == line[colon];
    ColonIsNoToken();
    if TrailerRefused(s[c..n]) {
      TrailerMalformed(s, c, n);
    } else {
      TrimKeepsValue(line[colon + 1..]);
      assert forall j | n < j < c + k :: s[j] == line[colon + 1..][j - n - 1];
      TrailerValueRun(s, n, c + k);
      TrailerDecided(s, c, n);
    }
  }

  lemma {:induction false} TrailersComplete(s: ByteSeq, start: nat, c: nat)
    requires start <= c <= |s| && Undisputed(TrailerFrom(s[start..], c - start))
    ensures ScanTrailers(s, c) == Answer(DeadTrailers(s, c), TrailerFrom(s[start..], c - start))
    decreases |s| - c
  {
    hide FindCrlf, FindByte, TrailerRefused, ValidTrailerLine, ValidTrailerPrefix, DeadTrailerLine, TokenEnd, ValueEnd,
      FieldName, FieldValue, WellFormedLine, EqIgnoreCase, TrimOws, ScanTrailers, RawValue;
    assert s[start..][c - start..] == s[c..];
    if FindCrlf(s[c..]).None? {
      LastTrailerLine(s, c);
    } else if FindCrlf(s[c..]).value == 0 {
      assert s[c..][0] == s[c] && s[c..][1] == s[c + 1];
      TrailersEnd(s, c);
    } else {
      TrailerIsLine(s[c..][..FindCrlf(s[c..]).value]);
      var n, v := HostLine(s, c);
      TrailerRead(s, c, n, v);
      if !TrailerRefused(s[c..n]) {
        TrailersComplete(s, start, v + 2);
      }
    }
  }

  // ----- bodies -----

  lemma {:induction false} ReadSize(body: ByteSeq, cursor: nat) returns (k: nat, size: nat)
    requires cursor <= |body| && Undisputed(ChunkedFrom(body, cursor)) && FindCrlf(body[cursor..]).Some?
    ensures FindCrlf(body[cursor..]) == Some(k) && k + 2 <= |body| - cursor && ParseChunkSizeLine(body[cursor..][..k]) == Some(size)
    ensures size == 0 ==> ChunkedFrom(body, cursor) == TrailerFrom(body, cursor + k + 2)
    ensures size != 0 ==> ChunkedFrom(body, cursor) == AfterData(body, cursor + k + 2 + size)
  {
    hide FindCrlf, ParseChunkSizeLine, ValidChunkSizePrefix, TrailerFrom;
    k := FindCrlf(body[cursor..]).value;
    size := ParseChunkSizeLine(body[cursor..][..k]).value;
  }

  lemma {:induction false} DeadStep(s: ByteSeq, c: nat, k: nat, size: nat)
    requires c <= |s| && FindCrlf(s[c..]) == Some(k) && c + k + 2 <= |s| && ParseChunkSizeLine(s[c..][..k]) == Some(size)
    ensures DeadEnd(s, c) <==>
            || size > U32_MAX
            || if size == 0 then DeadTrailers(s, c + k + 2)
               else CrlfAt(s, c + k + 2 + size) && DeadEnd(s, c + k + 2 + size + 2)
  {
    hide FindCrlf, ParseChunkSizeLine, DeadTrailers, DeadSizeLine;
  }

  lemma {:induction false} ScanStep(s: ByteSeq, c: nat, next: nat, size: nat)
    requires c < next <= |s| && ScanSizeLine(s, c) == Size(size, next)
    ensures size == 0 ==> ScanChunks(s, c) == ScanTrailers(s, next)
    ensures size != 0 && CrlfAt(s, next + size) ==> ScanChunks(s, c) == ScanChunks(s, next + size + 2)
  {
    hide ScanSizeLine, ScanTrailers;
  }

  lemma {:induction false} ScanUnfinished(s: ByteSeq, c: nat)
    requires c <= |s| && !ScanSizeLine(s, c).Size?
    ensures ScanChunks(s, c) == if ScanSizeLine(s, c) == Bad then Refused else Pending
  {
    hide ScanSizeLine;
  }

  lemma {:induction false} DeadLine(s: ByteSeq, c: nat)
    requires c <= |s| && FindCrlf(s[c..]).None?
    ensures DeadEnd(s, c) <==> DeadSizeLine(s[c..])
  {
    hide FindCrlf, DeadSizeLine;
  }

  lemma {:induction false} LastLine(body: ByteSeq, cursor: nat)
    requires cursor <= |body| && FindCrlf(body[cursor..]).None?
    ensures ChunkedFrom(body, cursor) == if ValidChunkSizePrefix(body[cursor..]) then Incomplete else Invalid
  {
    hide FindCrlf, ValidChunkSizePrefix;
  }

  /** A chunk whose data is unfinished or ends without going on. */
  lemma {:induction false} LastData(s: ByteSeq, start: nat, c: nat, next: nat, size: nat)
    requires start <= c < next <= |s| && ScanSizeLine(s, c) == Size(size, next) && size > 0 && !CrlfAt(s, next + size)
    requires Undisputed(AfterData(s[start..], next - start + size))
    ensures ScanChunks(s, c) == Pending && AfterData(s[start..], next - start + size) == Incomplete
  {
    hide ScanSizeLine, ScanTrailers, ChunkedFrom;
    var body := s[start..];
    assert forall j | 0 <= j < |body| :: body[j] == s[start + j];
  }

  /**
    A body in which the host finds nothing wrong so far is refused exactly if it is a dead end, and
    else valid or pending as the host finds it complete or not.
   */
  lemma {:induction false} ChunksComplete(s: ByteSeq, start: nat, c: nat)
    requires start <= c <= |s| && Undisputed(ChunkedFrom(s[start..], c - start))
    ensures ScanChunks(s, c) == Answer(DeadEnd(s, c), ChunkedFrom(s[start..], c - start))
    decreases |s| - c
  {
    hide FindCrlf, ParseChunkSizeLine, ValidChunkSizePrefix, ChunkedFrom, TrailerFrom, ScanSizeLine, ScanTrailers, DeadTrailers, DeadSizeLine,
      DeadEnd, ScanChunks, AfterData, CrlfAt;
    var body := s[start..];
    assert body[c - start..] == s[c..];
    if FindCrlf(s[c..]).None? {
      LastLine(body, c - start);
      LastSizeLine(s, c);
      ScanUnfinished(s, c);
      DeadLine(s, c);
    } else {
      var k, size := ReadSize(body, c - start);
      var next := c + k + 2;
      HostSize(s, c, k, size);
      DeadStep(s, c, k, size);
      if size > U32_MAX {
        ScanUnfinished(s, c);
      } else {
        ScanStep(s, c, next, size);
        if size == 0 {
          TrailersComplete(s, start, next);
        } else if CrlfAt(s, next + size) {
          NextChunk(s, start, next + size);
          ChunksComplete(s, start, next + size + 2);
        } else {
          LastData(s, start, c, next, size);
        }
      }
    }
  }

  lemma {:induction false} NextChunk(s: ByteSeq, start: nat, end: nat)
    requires start <= end && CrlfAt(s, end)
    ensures end + 2 <= |s| && AfterData(s[start..], end - start) == ChunkedFrom(s[start..], end + 2 - start)
  {
    hide ChunkedFrom;
    assert s[start..][end - start] == s[end] && s[start..][end + 1 - start] == s[end + 1];
  }
}
