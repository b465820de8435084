/**
  The header automaton of the kernel-side planner: one mutable state, one byte per step,
  field names recognised by hash. It computes exactly `ScanHeaders`.
 */
module BpfHeaders {
  import opened Bytes
  import opened Ows
  import opened Fnv
  import opened Http1
  import opened BpfScan

  datatype Phase = HeaderName | HeaderValue | HeaderLf

  function ContentLengthNameByte(index: nat): Byte { if index < 14 then CONTENT_LENGTH[index] else 0 }
  function TransferEncodingNameByte(index: nat): Byte { if index < 17 then TRANSFER_ENCODING[index] else 0 }
  function TransferEncodingValueByte(index: nat): Byte { if index < 7 then CHUNKED[index] else 0 }

  // ----- what the automaton remembers of the name it is reading -----

  ghost predicate NameState(name: ByteSeq, len: nat, hash: Hash, isLength: bool, isEncoding: bool)
  {
    && len == |name|
    && hash == FnvFold(Lower(name))
    && (isLength <==> Lower(name) <= CONTENT_LENGTH)
    && (isEncoding <==> Lower(name) <= TRANSFER_ENCODING)
  }

  lemma {:induction false} LowerAppend(s: ByteSeq, b: Byte)
    ensures Lower(s + [b]) == Lower(s) + [LowerByte(b)]
  {}

  lemma {:induction false} PrefixAppend(s: ByteSeq, b: Byte, word: ByteSeq)
    ensures s + [b] <= word <==> s <= word && |s| < |word| && word[|s|] == b
  {
    var t := s + [b];
    assert t[..|s|] == s && t[|s|] == b;
    if s <= word && |s| < |word| && word[|s|] == b {
      assert word[..|t|] == t;
    }
    if t <= word {
      assert forall i | 0 <= i < |t| :: word[i] == t[i];
    }
  }

  lemma {:induction false} NameAppend(name: ByteSeq, b: Byte, hash: Hash, isLength: bool, isEncoding: bool)
    requires NameState(name, |name|, hash, isLength, isEncoding) && IsTokenByte(b)
    ensures NameState(name + [b], |name| + 1, FnvStep(hash, LowerByte(b)),
                      isLength && LowerByte(b) == ContentLengthNameByte(|name|),
                      isEncoding && LowerByte(b) == TransferEncodingNameByte(|name|))
  {
    hide FnvStep, FnvFold;
    LowerAppend(name, b);
    HashAppend(Lower(name), LowerByte(b));
    PrefixAppend(Lower(name), LowerByte(b), CONTENT_LENGTH);
    PrefixAppend(Lower(name), LowerByte(b), TRANSFER_ENCODING);
    assert LowerByte(b) != 0;
  }

  predicate IsTraceparent(len: nat, hash: Hash) { len == 11 && hash == TRACEPARENT_HASH }
  predicate IsTracestate(len: nat, hash: Hash) { len == 10 && hash == TRACESTATE_HASH }

  predicate RequiresBypass(len: nat, hash: Hash)
  {
    IsTraceparent(len, hash) || IsTracestate(len, hash) || (len == 7 && hash == UPGRADE_HASH)
  }

  function RecognisedKind(len: nat, hash: Hash, isLength: bool, isEncoding: bool): FieldKind
  {
    if len == 14 && isLength then ContentLength
    else if len == 17 && isEncoding then TransferEncoding
    else if len == 10 && hash == CONNECTION_HASH then Connection
    else Other
  }

  /** Length, hash and the two match bits decide whether the finished name is refused, and which field it is. */
  lemma {:induction false} NameVerdict(name: ByteSeq, len: nat, hash: Hash, isLength: bool, isEncoding: bool, inbound: bool)
    requires NameState(name, len, hash, isLength, isEncoding)
    ensures len == |name|
    ensures NameRefused(name, inbound) <==>
              RequiresBypass(len, hash) && !(inbound && (IsTraceparent(len, hash) || IsTracestate(len, hash)))
    ensures KindOf(name) == RecognisedKind(len, hash, isLength, isEncoding)
  {
    hide FnvFold;
  }

  lemma {:induction false} EmptyName()
    ensures NameState([], 0, FNV_OFFSET, true, true)
  {
    assert Lower([]) == [];
  }

  // ----- what it remembers of the value -----

  /** Where the current Connection token starts. */
  function TokenStart(raw: ByteSeq): (r: nat)
    ensures r <= |raw|
    ensures forall i | r <= i < |raw| :: !IsSeparator(raw[i])
    ensures r > 0 ==> IsSeparator(raw[r - 1])
  {
    if raw == [] then 0
    else if IsSeparator(raw[|raw| - 1]) then |raw|
    else TokenStart(raw[..|raw| - 1])
  }

  ghost predicate ConnectionState(raw: ByteSeq, len: nat, hash: Hash)
  {
    && len == |raw| - TokenStart(raw)
    && hash == FnvFold(Lower(raw[TokenStart(raw)..]))
    && forall p | 0 <= p && p + 7 < |raw| :: !UpgradeTokenAt(raw, p)
  }

  ghost predicate BlankState(raw: ByteSeq, started: bool, trailing: bool)
  {
    (started <==> TrimOws(raw) != []) && (trailing <==> EndsBlank(raw))
  }

  ghost predicate EncodingState(raw: ByteSeq, len: nat, started: bool, trailing: bool)
  {
    BlankState(raw, started, trailing) && len == |TrimOws(raw)| && Lower(TrimOws(raw)) <= CHUNKED
  }

  ghost predicate LengthState(raw: ByteSeq, n: nat, started: bool, trailing: bool)
  {
    && BlankState(raw, started, trailing)
    && AllDigits(TrimOws(raw)) && n == DecimalValue(TrimOws(raw)) <= U32_MAX
  }

  lemma {:induction false} EmptyValue()
    ensures LengthState([], 0, false, false) && EncodingState([], 0, false, false)
    ensures ConnectionState([], 0, FNV_OFFSET)
  {
    assert Lower([]) == [];
  }

  lemma {:induction false} BlankAppend(raw: ByteSeq, b: Byte, started: bool, trailing: bool)
    requires BlankState(raw, started, trailing)
    ensures IsOws(b) ==> TrimOws(raw + [b]) == TrimOws(raw) && BlankState(raw + [b], started, trailing || started)
    ensures !IsOws(b) && !trailing ==>
              TrimOws(raw + [b]) == TrimOws(raw) + [b] && BlankState(raw + [b], true, false)
    ensures !IsOws(b) && trailing ==>
              exists i :: 0 <= i < |TrimOws(raw + [b])| && IsOws(TrimOws(raw + [b])[i])
  {
    hide TrimOws;
    TrimAppend(raw, b);
  }

  /** A Content-Length byte: either the state moves on or no continuation of the value parses. */
  lemma {:induction false} LengthAppend(raw: ByteSeq, b: Byte, n: nat, started: bool, trailing: bool)
    requires LengthState(raw, n, started, trailing)
    ensures IsOws(b) ==> LengthState(raw + [b], n, started, trailing || started)
    ensures !IsOws(b) && !trailing && IsDigit(b) && 10 * n + (b - 48) <= U32_MAX ==>
              LengthState(raw + [b], 10 * n + (b - 48), true, false)
    ensures !IsOws(b) && (trailing || !IsDigit(b) || 10 * n + (b - 48) > U32_MAX) ==>
              var w := TrimOws(raw + [b]); AllDigits(w) ==> DecimalValue(w) > U32_MAX
  {
    hide TrimOws;
    BlankAppend(raw, b, started, trailing);
    var w := TrimOws(raw + [b]);
    if !IsOws(b) && !trailing {
      assert w[..|w| - 1] == TrimOws(raw) && w[|w| - 1] == b;
    } else if !IsOws(b) {
      assert exists i :: 0 <= i < |w| && !IsDigit(w[i]);
    }
  }

  lemma {:induction false} LengthRejects(p: ByteSeq, value: ByteSeq)
    requires p <= value
    requires AllDigits(TrimOws(p)) ==> DecimalValue(TrimOws(p)) > U32_MAX
    ensures ParseContentLength(TrimOws(value)).None?
  {
    hide TrimOws;
    TrimGrows(p, value);
    var w, v := TrimOws(p), TrimOws(value);
    assert v[..|w|] == w;
    if AllDigits(v) {
      assert forall i | 0 <= i < |w| :: w[i] == v[i];
      DecimalGrows(v, |w|);
    }
  }

  lemma {:induction false} EncodingAppend(raw: ByteSeq, b: Byte, len: nat, started: bool, trailing: bool)
    requires EncodingState(raw, len, started, trailing)
    ensures IsOws(b) ==> EncodingState(raw + [b], len, started, trailing || started)
    ensures !IsOws(b) && !trailing && len < 7 && LowerByte(b) == TransferEncodingValueByte(len) ==>
              EncodingState(raw + [b], len + 1, true, false)
    ensures !IsOws(b) && (trailing || len >= 7 || LowerByte(b) != TransferEncodingValueByte(len)) ==>
              !(Lower(TrimOws(raw + [b])) <= CHUNKED)
  {
    hide TrimOws;
    BlankAppend(raw, b, started, trailing);
    LowerAppend(TrimOws(raw), b);
    PrefixAppend(Lower(TrimOws(raw)), LowerByte(b), CHUNKED);
    if !IsOws(b) && trailing {
      var w := TrimOws(raw + [b]);
      var i :| 0 <= i < |w| && IsOws(w[i]);
      assert Lower(w)[i] == w[i];
      assert forall k | 0 <= k < 7 :: !IsOws(CHUNKED[k]);
    }
  }

  lemma {:induction false} EncodingRejects(p: ByteSeq, value: ByteSeq)
    requires p <= value && !(Lower(TrimOws(p)) <= CHUNKED)
    ensures Lower(TrimOws(value)) != CHUNKED
  {
    hide TrimOws;
    TrimGrows(p, value);
    var w, v := TrimOws(p), TrimOws(value);
    assert v[..|w|] == w;
    assert Lower(v)[..|w|] == Lower(w);
  }

  // ----- Connection tokens -----

  lemma {:induction false} TokenAppend(raw: ByteSeq, b: Byte)
    ensures TokenStart(raw + [b]) == if IsSeparator(b) then |raw| + 1 else TokenStart(raw)
  {
    assert (raw + [b])[..|raw|] == raw;
  }

  lemma {:induction false} UpgradeTokenStable(raw: ByteSeq, value: ByteSeq, p: int)
    requires raw <= value && p + 7 < |raw|
    ensures UpgradeTokenAt(raw, p) <==> UpgradeTokenAt(value, p)
  {
    hide FnvFold;
    if 0 <= p {
      assert raw[p..p + 7] == value[p..p + 7];
      assert forall i | 0 <= i < |raw| :: raw[i] == value[i];
    }
  }

  /** The token under construction is an upgrade token exactly when its length and hash say so. */
  lemma {:induction false} LastToken(raw: ByteSeq, len: nat, hash: Hash)
    requires ConnectionState(raw, len, hash)
    ensures len == 7 && hash == UPGRADE_HASH <==> HasUpgradeToken(raw)
    ensures len == 7 && hash == UPGRADE_HASH ==> UpgradeTokenAt(raw, |raw| - 7)
  {
    hide FnvFold, TokenStart;
    var t := TokenStart(raw);
    if len == 7 && hash == UPGRADE_HASH {
      assert raw[t..] == raw[t..t + 7];
      assert UpgradeTokenAt(raw, t);
    }
    if HasUpgradeToken(raw) {
      var p :| 0 <= p <= |raw| && UpgradeTokenAt(raw, p);
      assert p + 7 == |raw|;
      assert p == t;
      assert raw[t..] == raw[t..t + 7];
    }
  }

  /** One more byte completes at most one token: the one that ended just before it. */
  lemma {:induction false} UpgradeAppend(raw: ByteSeq, b: Byte, p: int)
    requires 0 <= p && p + 7 <= |raw|
    ensures UpgradeTokenAt(raw + [b], p) <==>
            if p + 7 < |raw| then UpgradeTokenAt(raw, p) else IsSeparator(b) && UpgradeTokenAt(raw, p)
  {
    hide FnvFold, IsSeparator;
    var s := raw + [b];
    assert raw[p..p + 7] == s[p..p + 7];
    assert forall i | 0 <= i < |raw| :: raw[i] == s[i];
  }

  lemma {:induction false} ConnectionAppend(raw: ByteSeq, b: Byte, len: nat, hash: Hash)
    requires ConnectionState(raw, len, hash)
    ensures !IsSeparator(b) ==> ConnectionState(raw + [b], len + 1, FnvStep(hash, LowerByte(b)))
    ensures IsSeparator(b) && !(len == 7 && hash == UPGRADE_HASH) ==> ConnectionState(raw + [b], 0, FNV_OFFSET)
    ensures IsSeparator(b) && len == 7 && hash == UPGRADE_HASH ==> UpgradeTokenAt(raw + [b], |raw| - 7)
  {
    hide FnvFold, FnvStep, TokenStart, HasUpgradeToken, UpgradeTokenAt, IsSeparator;
    var t, s := TokenStart(raw), raw + [b];
    TokenAppend(raw, b);
    LastToken(raw, len, hash);
    forall p | 0 <= p && p + 7 < |s|
      ensures UpgradeTokenAt(s, p) <==>
              if p + 7 < |raw| then UpgradeTokenAt(raw, p) else IsSeparator(b) && UpgradeTokenAt(raw, p)
    {
      UpgradeAppend(raw, b, p);
    }
    if IsSeparator(b) {
      assert s[|raw| + 1..] == [] && Lower([]) == [];
      HashEmpty();
      if !(len == 7 && hash == UPGRADE_HASH) {
        NoOtherUpgrade(raw, len, hash);
      }
    } else {
      assert s[t..] == raw[t..] + [b];
      LowerAppend(raw[t..], b);
      HashAppend(Lower(raw[t..]), LowerByte(b));
    }
  }

  lemma {:induction false} NoOtherUpgrade(raw: ByteSeq, len: nat, hash: Hash)
    requires ConnectionState(raw, len, hash) && !(len == 7 && hash == UPGRADE_HASH)
    ensures forall p | 0 <= p :: !UpgradeTokenAt(raw, p)
  {
    hide FnvFold, TokenStart, UpgradeTokenAt;
    LastToken(raw, len, hash);
    UpgradeTokenBound(raw);
  }

  lemma {:induction false} UpgradeTokenBound(raw: ByteSeq)
    ensures forall p :: UpgradeTokenAt(raw, p) ==> 0 <= p <= |raw|
  {
    hide FnvFold;
  }

  lemma {:induction false} ConnectionRejects(p: ByteSeq, value: ByteSeq, at: int)
    requires p <= value && at + 7 < |p| && UpgradeTokenAt(p, at)
    ensures HasUpgradeToken(value)
  {
    hide FnvFold;
    UpgradeTokenStable(p, value, at);
  }

  // ----- the automaton -----

  /** A line whose name ends at `n` is decided by its value alone. */
  lemma {:induction false} LineDecided(s: ByteSeq, pos: nat, n: nat, fields: Fields, inbound: bool)
    requires pos < n < |s| && s[n] == COLON && forall j | pos <= j < n :: IsTokenByte(s[j])
    ensures var v := ValueEnd(s, n + 1);
            ScanLines(s, pos, fields, inbound) ==
            if !CrlfAt(s, v) then None
            else
              match ScanField(fields, s[pos..n], s[n + 1..v], inbound)
              case None => None
              case Some(next) => ScanLines(s, v + 2, next, inbound)
  {
    hide IsTokenByte, ScanField, TokenEnd, ValueEnd;
    assert !IsTokenByte(COLON) by { ColonIsNoToken(); }
    TokenRun(s, pos, n);
  }

  lemma {:induction false} ColonIsNoToken()
    ensures !IsTokenByte(COLON) && !IsTokenByte(CR) && !IsValueByte(CR)
  {}

  /** The bytes read so far are a prefix of the value. */
  lemma {:induction false} ValueExtends(s: ByteSeq, n: nat, i: nat)
    requires n < i <= |s| && forall j | n < j < i :: IsValueByte(s[j])
    ensures i <= ValueEnd(s, n + 1) <= |s| && s[n + 1..i] <= s[n + 1..ValueEnd(s, n + 1)]
  {
    hide IsValueByte;
    ValueRun(s, n + 1, i);
    var v := ValueEnd(s, n + 1);
    assert s[n + 1..v][..i - n - 1] == s[n + 1..i];
  }

  lemma {:induction false} FieldRefused(s: ByteSeq, pos: nat, n: nat, fields: Fields, inbound: bool)
    requires pos < n < |s| && s[n] == COLON && forall j | pos <= j < n :: IsTokenByte(s[j])
    requires ScanField(fields, s[pos..n], s[n + 1..ValueEnd(s, n + 1)], inbound).None?
    ensures ScanLines(s, pos, fields, inbound).None?
  {
    hide IsTokenByte, ScanField, ScanLines, ValueEnd;
    LineDecided(s, pos, n, fields, inbound);
  }

  /** A field is refused for its name, or for repeating a field that must be single. */
  lemma {:induction false} FieldRefusedByName(s: ByteSeq, pos: nat, n: nat, fields: Fields, inbound: bool)
    requires pos < n < |s| && s[n] == COLON && forall j | pos <= j < n :: IsTokenByte(s[j])
    requires var name := s[pos..n];
             || NameRefused(name, inbound)
             || (KindOf(name) == ContentLength && fields.contentLength.Some?)
             || (KindOf(name) == TransferEncoding && fields.chunked)
    ensures ScanLines(s, pos, fields, inbound).None?
  {
    hide IsTokenByte, ScanLines, ValueEnd, NameRefused, KindOf, ParseContentLength, HasUpgradeToken;
    FieldRefused(s, pos, n, fields, inbound);
  }

  lemma {:induction false} NameMalformed(s: ByteSeq, pos: nat, n: nat, fields: Fields, inbound: bool)
    requires pos <= n < |s| && !IsTokenByte(s[n]) && forall j | pos <= j < n :: IsTokenByte(s[j])
    requires if s[n] == CR then n != pos else s[n] != COLON || n == pos
    ensures ScanLines(s, pos, fields, inbound).None?
  {
    hide IsTokenByte, ScanField, TokenEnd, ValueEnd;
    TokenRun(s, pos, n);
  }

  lemma {:induction false} ValueMalformed(s: ByteSeq, pos: nat, n: nat, i: nat, fields: Fields, inbound: bool)
    requires pos < n < i < |s| && s[n] == COLON && forall j | pos <= j < n :: IsTokenByte(s[j])
    requires (forall j | n < j < i :: IsValueByte(s[j])) && !IsValueByte(s[i]) && !CrlfAt(s, i)
    ensures ScanLines(s, pos, fields, inbound).None?
  {
    hide IsTokenByte, IsValueByte, ScanField, ScanLines, ValueEnd;
    LineDecided(s, pos, n, fields, inbound);
    ValueRun(s, n + 1, i);
  }

  lemma {:induction false} ValueComplete(s: ByteSeq, pos: nat, n: nat, i: nat, fields: Fields, inbound: bool)
    requires pos < n < i < |s| && s[n] == COLON && forall j | pos <= j < n :: IsTokenByte(s[j])
    requires (forall j | n < j < i :: IsValueByte(s[j])) && s[i] == CR
    ensures var field := ScanField(fields, s[pos..n], s[n + 1..i], inbound);
            ScanLines(s, pos, fields, inbound) ==
            if !CrlfAt(s, i) || field.None? then None else ScanLines(s, i + 2, field.value, inbound)
  {
    hide IsTokenByte, IsValueByte, ScanField, ScanLines, ValueEnd;
    LineDecided(s, pos, n, fields, inbound);
    ColonIsNoToken();
    ValueRun(s, n + 1, i);
  }

  lemma {:induction false} LengthRefuses(s: ByteSeq, pos: nat, n: nat, i: nat, fields: Fields, inbound: bool)
    requires pos < n < i <= |s| && s[n] == COLON && forall j | pos <= j < n :: IsTokenByte(s[j])
    requires (forall j | n < j < i :: IsValueByte(s[j])) && KindOf(s[pos..n]) == ContentLength
    requires var w := TrimOws(s[n + 1..i]); AllDigits(w) ==> DecimalValue(w) > U32_MAX
    ensures ScanLines(s, pos, fields, inbound).None?
  {
    hide IsTokenByte, IsValueByte, ScanLines, ValueEnd, NameRefused, KindOf, ParseContentLength, TrimOws, DecimalValue;
    ValueExtends(s, n, i);
    LengthRejects(s[n + 1..i], s[n + 1..ValueEnd(s, n + 1)]);
    FieldRefused(s, pos, n, fields, inbound);
  }

  lemma {:induction false} EncodingRefuses(s: ByteSeq, pos: nat, n: nat, i: nat, fields: Fields, inbound: bool)
    requires pos < n < i <= |s| && s[n] == COLON && forall j | pos <= j < n :: IsTokenByte(s[j])
    requires (forall j | n < j < i :: IsValueByte(s[j])) && KindOf(s[pos..n]) == TransferEncoding
    requires !(Lower(TrimOws(s[n + 1..i])) <= CHUNKED)
    ensures ScanLines(s, pos, fields, inbound).None?
  {
    hide IsTokenByte, IsValueByte, ScanLines, ValueEnd, NameRefused, KindOf, TrimOws;
    ValueExtends(s, n, i);
    EncodingRejects(s[n + 1..i], s[n + 1..ValueEnd(s, n + 1)]);
    FieldRefused(s, pos, n, fields, inbound);
  }

  lemma {:induction false} ConnectionRefuses(s: ByteSeq, pos: nat, n: nat, i: nat, fields: Fields, inbound: bool)
    requires pos < n < i - 1 < |s| && s[n] == COLON && forall j | pos <= j < n :: IsTokenByte(s[j])
    requires (forall j | n < j < i :: IsValueByte(s[j])) && KindOf(s[pos..n]) == Connection
    requires UpgradeTokenAt(s[n + 1..i], |s[n + 1..i]| - 8)
    ensures ScanLines(s, pos, fields, inbound).None?
  {
    hide IsTokenByte, IsValueByte, ScanLines, ValueEnd, NameRefused, KindOf, UpgradeTokenAt, HasUpgradeToken;
    ValueExtends(s, n, i);
    ConnectionRejects(s[n + 1..i], s[n + 1..ValueEnd(s, n + 1)], |s[n + 1..i]| - 8);
    FieldRefused(s, pos, n, fields, inbound);
  }

  lemma {:induction false} Consumed(s: ByteSeq, i: nat, j: nat)
    requires i <= j < |s|
    ensures s[i..j + 1] == s[i..j] + [s[j]]
  {}

  /** `BpfHttpHeaderState` without its input pointers. */
  datatype HeaderState = HeaderState(
    headerHash: Hash, componentLen: nat, contentLength: nat, headerEnd: nat,
    phase: Phase, fieldKind: FieldKind, result: PlanResult,
    contentLengthName: bool, transferEncodingName: bool, endingHeaders: bool,
    sawContentLength: bool, sawTransferEncoding: bool, valueStarted: bool, valueTrailingOws: bool)

  const INITIAL := HeaderState(
    FNV_OFFSET, 0, 0, 0, HeaderName, Other, Pending, true, true, false, false, false, false, false)

  /** Where the current line and its value start, and what the lines before it established. */
  datatype Progress = Progress(lineStart: nat, colon: nat, before: Fields)

  ghost function Seen(s: HeaderState): Fields
  {
    Fields(if s.sawContentLength then Some(s.contentLength) else None, s.sawTransferEncoding, false)
  }

  ghost predicate ValueState(s: HeaderState, raw: ByteSeq)
  {
    match s.fieldKind
    case Other => true
    case Connection => ConnectionState(raw, s.componentLen, s.headerHash)
    case TransferEncoding =>
      !s.sawTransferEncoding && EncodingState(raw, s.componentLen, s.valueStarted, s.valueTrailingOws)
    case ContentLength =>
      !s.sawContentLength && LengthState(raw, s.contentLength, s.valueStarted, s.valueTrailingOws)
  }

  ghost predicate ReadingName(request: ByteSeq, s: HeaderState, g: Progress, i: nat)
    requires g.lineStart <= i <= |request|
  {
    && g.before == Seen(s)
    && (forall j | g.lineStart <= j < i :: IsTokenByte(request[j]))
    && NameState(request[g.lineStart..i], s.componentLen, s.headerHash, s.contentLengthName, s.transferEncodingName)
  }

  ghost predicate NameRead(request: ByteSeq, g: Progress)
  {
    && g.lineStart < g.colon < |request| && request[g.colon] == COLON
    && (forall j | g.lineStart <= j < g.colon :: IsTokenByte(request[j]))
  }

  ghost predicate ReadingValue(request: ByteSeq, inbound: bool, s: HeaderState, g: Progress, i: nat)
    requires NameRead(request, g) && g.colon < i <= |request|
  {
    var raw := request[g.colon + 1..i];
    && g.before == Seen(s)
    && !NameRefused(request[g.lineStart..g.colon], inbound)
    && s.fieldKind == KindOf(request[g.lineStart..g.colon])
    && (forall j | g.colon < j < i :: IsValueByte(request[j]))
    && ValueState(s, raw)
  }

  ghost predicate LineRead(request: ByteSeq, inbound: bool, s: HeaderState, g: Progress, i: nat)
    requires g.lineStart <= i <= |request|
  {
    && i > g.lineStart && request[i - 1] == CR
    && if s.endingHeaders then i == g.lineStart + 1 && g.before == Seen(s)
       else
         && NameRead(request, g) && g.colon < i - 1
         && (forall j | g.colon < j < i - 1 :: IsValueByte(request[j]))
         && ScanField(g.before, request[g.lineStart..g.colon], request[g.colon + 1..i - 1], inbound) == Some(Seen(s))
  }

  /** Bytes before `i` have been consumed and nothing is decided yet. */
  ghost predicate Tracks(request: ByteSeq, start: nat, inbound: bool, s: HeaderState, g: Progress, i: nat)
  {
    && start <= g.lineStart <= i <= |request|
    && s.result == Pending
    && (!s.sawContentLength && !(s.phase == HeaderValue && s.fieldKind == ContentLength) ==> s.contentLength == 0)
    && ScanLines(request, start, NO_FIELDS, inbound) == ScanLines(request, g.lineStart, g.before, inbound)
    && match s.phase
       case HeaderName => ReadingName(request, s, g, i)
       case HeaderValue => NameRead(request, g) && g.colon < i && ReadingValue(request, inbound, s, g, i)
       case HeaderLf => LineRead(request, inbound, s, g, i)
  }

  ghost predicate Decides(request: ByteSeq, start: nat, total: nat, inbound: bool, s: HeaderState)
    requires start <= |request|
  {
    match s.result
    case Pending => false
    case Valid => ScanHeaders(request, start, total, inbound) == Some(HeaderPlan(s.headerEnd, s.sawTransferEncoding))
    case Refused => ScanHeaders(request, start, total, inbound) == None
  }

  lemma {:induction false} Rejects(request: ByteSeq, start: nat, total: nat, inbound: bool, s: HeaderState)
    requires start <= |request| && ScanLines(request, start, NO_FIELDS, inbound).None?
    ensures Decides(request, start, total, inbound, s.(result := Refused))
  {
    hide ScanLines;
  }

  /** Name bytes, the colon, and the blank line that ends the section. */
  method NameStep(request: ByteSeq, start: nat, total: nat, inbound: bool, s: HeaderState, ghost g: Progress, index: nat)
    returns (r: HeaderState, ghost h: Progress, stop: bool)
    requires Tracks(request, start, inbound, s, g, index) && index < |request| && s.phase == HeaderName
    ensures if stop then Decides(request, start, total, inbound, r) else Tracks(request, start, inbound, r, h, index + 1)
  {
    hide IsTokenByte, FnvStep, ScanLines, ScanField, NameState, NameRefused, KindOf, RequiresBypass, RecognisedKind, Decides, ReadingValue;
    var byte := request[index];
    h := g;
    ColonIsNoToken();
    NameVerdict(request[g.lineStart..index], s.componentLen, s.headerHash, s.contentLengthName, s.transferEncodingName, inbound);
    if byte == CR {
      if s.componentLen != 0 {
        NameMalformed(request, g.lineStart, index, g.before, inbound);
        Rejects(request, start, total, inbound, s);
        return s.(result := Refused), h, true;
      }
      return s.(endingHeaders := true, phase := HeaderLf), h, false;
    }
    if byte == COLON {
      r, h, stop := NameEnd(request, start, total, inbound, s, g, index);
      return;
    }
    if !IsTokenByte(byte) {
      NameMalformed(request, g.lineStart, index, g.before, inbound);
      Rejects(request, start, total, inbound, s);
      return s.(result := Refused), h, true;
    }
    r := NameByte(request, start, inbound, s, g, index);
    stop := false;
  }

  method NameByte(request: ByteSeq, start: nat, inbound: bool, s: HeaderState, ghost g: Progress, index: nat) returns (r: HeaderState)
    requires Tracks(request, start, inbound, s, g, index) && index < |request| && s.phase == HeaderName && IsTokenByte(request[index])
    ensures Tracks(request, start, inbound, r, g, index + 1)
  {
    hide IsTokenByte, FnvStep, ScanLines, ScanField, NameState;
    var lowercase := LowerByte(request[index]);
    Consumed(request, g.lineStart, index);
    NameLength(request[g.lineStart..index], s.componentLen, s.headerHash, s.contentLengthName, s.transferEncodingName);
    NameAppend(request[g.lineStart..index], request[index], s.headerHash, s.contentLengthName, s.transferEncodingName);
    r := s.(
      headerHash := FnvStep(s.headerHash, lowercase),
      contentLengthName := s.contentLengthName && lowercase == ContentLengthNameByte(s.componentLen),
      transferEncodingName := s.transferEncodingName && lowercase == TransferEncodingNameByte(s.componentLen),
      componentLen := s.componentLen + 1);
  }

  lemma {:induction false} NameLength(name: ByteSeq, len: nat, hash: Hash, contentLength: bool, transferEncoding: bool)
    requires NameState(name, len, hash, contentLength, transferEncoding)
    ensures len == |name|
  {}

  method NameEnd(request: ByteSeq, start: nat, total: nat, inbound: bool, s: HeaderState, ghost g: Progress, index: nat)
    returns (r: HeaderState, ghost h: Progress, stop: bool)
    requires Tracks(request, start, inbound, s, g, index) && index < |request| && s.phase == HeaderName
    requires request[index] == COLON
    ensures if stop then Decides(request, start, total, inbound, r) else Tracks(request, start, inbound, r, h, index + 1)
  {
    hide IsTokenByte, IsValueByte, ScanLines, ScanField, NameState, NameRefused, KindOf,
      RequiresBypass, IsTraceparent, IsTracestate, RecognisedKind, Decides, ReadingValue, LineRead;
    h := g;
    ghost var name := request[g.lineStart..index];
    NameVerdict(name, s.componentLen, s.headerHash, s.contentLengthName, s.transferEncodingName, inbound);
    var adoptable :=
      inbound && (IsTraceparent(s.componentLen, s.headerHash) || IsTracestate(s.componentLen, s.headerHash));
    if s.componentLen == 0 || (RequiresBypass(s.componentLen, s.headerHash) && !adoptable) {
      if s.componentLen == 0 {
        ColonIsNoToken();
        NameMalformed(request, g.lineStart, index, g.before, inbound);
      } else {
        FieldRefusedByName(request, g.lineStart, index, g.before, inbound);
      }
      Rejects(request, start, total, inbound, s);
      return s.(result := Refused), h, true;
    }
    var kind := RecognisedKind(s.componentLen, s.headerHash, s.contentLengthName, s.transferEncodingName);
    if (kind == ContentLength && s.sawContentLength) || (kind == TransferEncoding && s.sawTransferEncoding) {
      FieldRefusedByName(request, g.lineStart, index, g.before, inbound);
      Rejects(request, start, total, inbound, s);
      return s.(result := Refused), h, true;
    }
    r, h := ValueStart(request, start, inbound, s, g, index, kind);
    stop := false;
  }

  /** After the colon of an acceptable name. */
  method ValueStart(request: ByteSeq, start: nat, inbound: bool, s: HeaderState, ghost g: Progress, index: nat, kind: FieldKind)
    returns (r: HeaderState, ghost h: Progress)
    requires Tracks(request, start, inbound, s, g, index) && g.lineStart < index < |request| && s.phase == HeaderName
    requires request[index] == COLON && !NameRefused(request[g.lineStart..index], inbound) && kind == KindOf(request[g.lineStart..index])
    requires !(kind == ContentLength && s.sawContentLength) && !(kind == TransferEncoding && s.sawTransferEncoding)
    ensures Tracks(request, start, inbound, r, h, index + 1)
  {
    hide IsTokenByte, IsValueByte, ScanLines, NameState, NameRefused, KindOf, ConnectionState, EncodingState, LengthState;
    r := s.(
      fieldKind := kind, phase := HeaderValue, componentLen := 0, headerHash := FNV_OFFSET,
      valueStarted := false, valueTrailingOws := false);
    h := g.(colon := index);
    EmptyValue();
    assert request[index + 1..index + 1] == [];
  }

  /** What the finished value establishes, read off the automaton's state. */
  lemma {:induction false} ValueVerdict(s: HeaderState, name: ByteSeq, raw: ByteSeq, inbound: bool)
    requires !NameRefused(name, inbound) && s.fieldKind == KindOf(name) && ValueState(s, raw)
    ensures ScanField(Seen(s), name, raw, inbound) ==
            match s.fieldKind
            case Other => Some(Seen(s))
            case Connection => if s.componentLen == 7 && s.headerHash == UPGRADE_HASH then None else Some(Seen(s))
            case TransferEncoding =>
              if !s.valueStarted || s.componentLen != 7 then None else Some(Seen(s.(sawTransferEncoding := true)))
            case ContentLength =>
              if !s.valueStarted then None else Some(Seen(s.(sawContentLength := true)))
  {
    hide NameRefused, KindOf, HasUpgradeToken, DecimalValue, TrimOws, FnvFold, TokenStart, UpgradeTokenAt;
    match s.fieldKind
    case Connection => LastToken(raw, s.componentLen, s.headerHash);
    case _ =>
  }

  /** The CR that ends a value: is the field accepted, and what has been seen now? */
  method FinishValue(s: HeaderState, ghost name: ByteSeq, ghost raw: ByteSeq, ghost inbound: bool)
    returns (r: HeaderState)
    requires s.result == Pending && !NameRefused(name, inbound) && s.fieldKind == KindOf(name) && ValueState(s, raw)
    ensures r.result != Valid
    ensures ScanField(Seen(s), name, raw, inbound) == if r.result == Refused then None else Some(Seen(r))
    ensures r.result == Pending ==> r.phase == HeaderLf && !r.endingHeaders && r.contentLength == s.contentLength
    ensures r.result == Pending && !r.sawContentLength ==> !s.sawContentLength && s.fieldKind != ContentLength
  {
    hide ScanField, NameRefused, KindOf, ValueState;
    ValueVerdict(s, name, raw, inbound);
    r := s;
    match s.fieldKind {
      case Other =>
      case Connection =>
        if s.componentLen == 7 && s.headerHash == UPGRADE_HASH {
          return s.(result := Refused);
        }
      case ContentLength =>
        if !s.valueStarted {
          return s.(result := Refused);
        }
        r := s.(sawContentLength := true);
      case TransferEncoding =>
        if !s.valueStarted || s.componentLen != 7 {
          return s.(result := Refused);
        }
        r := s.(sawTransferEncoding := true);
    }
    r := r.(endingHeaders := false, phase := HeaderLf);
  }

  method ValueEndStep(request: ByteSeq, start: nat, total: nat, inbound: bool, s: HeaderState, ghost g: Progress, index: nat)
    returns (r: HeaderState, stop: bool)
    requires Tracks(request, start, inbound, s, g, index) && index < |request| && s.phase == HeaderValue
    requires request[index] == CR
    ensures if stop then Decides(request, start, total, inbound, r) else Tracks(request, start, inbound, r, g, index + 1)
  {
    hide IsTokenByte, IsValueByte, ScanLines, ScanField, NameRefused, KindOf, ValueState;
    r := FinishValue(s, request[g.lineStart..g.colon], request[g.colon + 1..index], inbound);
    ValueComplete(request, g.lineStart, g.colon, index, g.before, inbound);
    stop := r.result == Refused;
  }

  lemma {:induction false} ReadingFacts(request: ByteSeq, start: nat, inbound: bool, s: HeaderState, g: Progress, i: nat)
    requires Tracks(request, start, inbound, s, g, i) && s.phase == HeaderValue
    ensures g.lineStart < g.colon < i <= |request| && request[g.colon] == COLON
    ensures forall j | g.lineStart <= j < g.colon :: IsTokenByte(request[j])
    ensures forall j | g.colon < j < i :: IsValueByte(request[j])
    ensures s.fieldKind == KindOf(request[g.lineStart..g.colon]) && ValueState(s, request[g.colon + 1..i])
  {
    hide IsTokenByte, IsValueByte, ScanLines, NameRefused, KindOf, ValueState;
  }

  /** One more value byte, accepted. */
  lemma {:induction false} StillReading(request: ByteSeq, start: nat, inbound: bool, s: HeaderState, r: HeaderState, g: Progress, i: nat)
    requires Tracks(request, start, inbound, s, g, i) && i < |request| && s.phase == HeaderValue && IsValueByte(request[i])
    requires r.phase == HeaderValue && r.fieldKind == s.fieldKind && r.result == s.result && Seen(r) == Seen(s)
    requires s.fieldKind == ContentLength || r.contentLength == s.contentLength
    requires g.colon < i && ValueState(r, request[g.colon + 1..i] + [request[i]])
    ensures Tracks(request, start, inbound, r, g, i + 1)
  {
    hide IsTokenByte, IsValueByte, ScanLines, ScanField, NameRefused, KindOf, ValueState;
    Consumed(request, g.colon + 1, i);
  }

  /** A value that no continuation can save. */
  lemma {:induction false} Refusal(request: ByteSeq, start: nat, total: nat, inbound: bool, s: HeaderState, g: Progress, i: nat, r: HeaderState)
    requires Tracks(request, start, inbound, s, g, i)
    requires ScanLines(request, g.lineStart, g.before, inbound).None? && r.result == Refused
    ensures Decides(request, start, total, inbound, r)
  {
    hide IsTokenByte, IsValueByte, ScanLines, ReadingName, ReadingValue, LineRead, NameRead;
  }

  method ValueStep(request: ByteSeq, start: nat, total: nat, inbound: bool, s: HeaderState, ghost g: Progress, index: nat)
    returns (r: HeaderState, stop: bool)
    requires Tracks(request, start, inbound, s, g, index) && index < |request| && s.phase == HeaderValue
    ensures if stop then Decides(request, start, total, inbound, r) else Tracks(request, start, inbound, r, g, index + 1)
  {
    hide IsTokenByte, IsValueByte, ScanLines, ScanField, NameRefused, KindOf, ConnectionState, EncodingState, LengthState;
    var byte := request[index];
    if byte == CR {
      r, stop := ValueEndStep(request, start, total, inbound, s, g, index);
      return;
    }
    if !IsValueByte(byte) {
      ValueMalformed(request, g.lineStart, g.colon, index, g.before, inbound);
      return s.(result := Refused), true;
    }
    match s.fieldKind
    case ContentLength => r, stop := LengthByte(request, start, total, inbound, s, g, index);
    case TransferEncoding => r, stop := EncodingByte(request, start, total, inbound, s, g, index);
    case Connection => r, stop := ConnectionByte(request, start, total, inbound, s, g, index);
    case Other => r, stop := s, false;
  }

  method LengthByte(request: ByteSeq, start: nat, total: nat, inbound: bool, s: HeaderState, ghost g: Progress, index: nat)
    returns (r: HeaderState, stop: bool)
    requires Tracks(request, start, inbound, s, g, index) && index < |request| && s.phase == HeaderValue
    requires s.fieldKind == ContentLength && IsValueByte(request[index])
    ensures if stop then Decides(request, start, total, inbound, r) else Tracks(request, start, inbound, r, g, index + 1)
  {
    hide Tracks, Decides, IsTokenByte, IsValueByte, ScanLines, ScanField, NameRefused, KindOf, LengthState, DecimalValue, TrimOws;
    var byte := request[index];
    ReadingFacts(request, start, inbound, s, g, index);
    ghost var raw := request[g.colon + 1..index];
    Consumed(request, g.colon + 1, index);
    LengthAppend(raw, byte, s.contentLength, s.valueStarted, s.valueTrailingOws);
    if IsOws(byte) {
      r := if s.valueStarted then s.(valueTrailingOws := true) else s;
      StillReading(request, start, inbound, s, r, g, index);
      return r, false;
    }
    if s.valueTrailingOws || !IsDigit(byte) {
      LengthRefuses(request, g.lineStart, g.colon, index + 1, g.before, inbound);
      r := s.(result := Refused);
      Refusal(request, start, total, inbound, s, g, index, r);
      return r, true;
    }
    var length := 10 * s.contentLength + (byte - 48);
    if length > U32_MAX {
      LengthRefuses(request, g.lineStart, g.colon, index + 1, g.before, inbound);
      r := s.(valueStarted := true, result := Refused);
      Refusal(request, start, total, inbound, s, g, index, r);
      return r, true;
    }
    r, stop := s.(valueStarted := true, contentLength := length), false;
    StillReading(request, start, inbound, s, r, g, index);
  }

  method EncodingByte(request: ByteSeq, start: nat, total: nat, inbound: bool, s: HeaderState, ghost g: Progress, index: nat)
    returns (r: HeaderState, stop: bool)
    requires Tracks(request, start, inbound, s, g, index) && index < |request| && s.phase == HeaderValue
    requires s.fieldKind == TransferEncoding && IsValueByte(request[index])
    ensures if stop then Decides(request, start, total, inbound, r) else Tracks(request, start, inbound, r, g, index + 1)
  {
    hide Tracks, Decides, IsTokenByte, IsValueByte, ScanLines, ScanField, NameRefused, KindOf, EncodingState, TrimOws;
    var byte := request[index];
    ReadingFacts(request, start, inbound, s, g, index);
    ghost var raw := request[g.colon + 1..index];
    Consumed(request, g.colon + 1, index);
    EncodingAppend(raw, byte, s.componentLen, s.valueStarted, s.valueTrailingOws);
    if IsOws(byte) {
      r := if s.valueStarted then s.(valueTrailingOws := true) else s;
      StillReading(request, start, inbound, s, r, g, index);
      return r, false;
    }
    if s.valueTrailingOws || s.componentLen >= 7 || LowerByte(byte) != TransferEncodingValueByte(s.componentLen) {
      EncodingRefuses(request, g.lineStart, g.colon, index + 1, g.before, inbound);
      r := s.(result := Refused);
      Refusal(request, start, total, inbound, s, g, index, r);
      return r, true;
    }
    r, stop := s.(valueStarted := true, componentLen := s.componentLen + 1), false;
    StillReading(request, start, inbound, s, r, g, index);
  }

  method ConnectionByte(request: ByteSeq, start: nat, total: nat, inbound: bool, s: HeaderState, ghost g: Progress, index: nat)
    returns (r: HeaderState, stop: bool)
    requires Tracks(request, start, inbound, s, g, index) && index < |request| && s.phase == HeaderValue
    requires s.fieldKind == Connection && IsValueByte(request[index])
    ensures if stop then Decides(request, start, total, inbound, r) else Tracks(request, start, inbound, r, g, index + 1)
  {
    hide Tracks, Decides, IsTokenByte, IsValueByte, ScanLines, ScanField, KindOf, ConnectionState, FnvStep, UpgradeTokenAt, IsSeparator;
    var byte := request[index];
    ReadingFacts(request, start, inbound, s, g, index);
    ghost var raw := request[g.colon + 1..index];
    Consumed(request, g.colon + 1, index);
    ConnectionAppend(raw, byte, s.componentLen, s.headerHash);
    if !IsSeparator(byte) {
      r, stop := s.(componentLen := s.componentLen + 1, headerHash := FnvStep(s.headerHash, LowerByte(byte))), false;
      StillReading(request, start, inbound, s, r, g, index);
      return;
    }
    if s.componentLen == 7 && s.headerHash == UPGRADE_HASH {
      ConnectionLength(raw, s.componentLen, s.headerHash);
      ConnectionRefuses(request, g.lineStart, g.colon, index + 1, g.before, inbound);
      r, stop := s.(result := Refused), true;
      Refusal(request, start, total, inbound, s, g, index, r);
      return;
    }
    r, stop := s.(componentLen := 0, headerHash := FNV_OFFSET), false;
    StillReading(request, start, inbound, s, r, g, index);
  }

  lemma {:induction false} ConnectionLength(raw: ByteSeq, len: nat, hash: Hash)
    requires ConnectionState(raw, len, hash)
    ensures len <= |raw|
  {}

  lemma {:induction false} BlankLine(s: ByteSeq, pos: nat, fields: Fields, inbound: bool)
    requires pos < |s| && s[pos] == CR
    ensures ScanLines(s, pos, fields, inbound) == if CrlfAt(s, pos) then Some((pos + 2, fields)) else None
  {
    hide IsTokenByte, ScanField, TokenEnd, ValueEnd;
    ColonIsNoToken();
    TokenRun(s, pos, pos);
  }

  /** The line feed after a CR: the next line, or the end of the section and the length checks. */
  method LfStep(request: ByteSeq, start: nat, total: nat, inbound: bool, s: HeaderState, ghost g: Progress, index: nat)
    returns (r: HeaderState, ghost h: Progress, stop: bool)
    requires Tracks(request, start, inbound, s, g, index) && index < |request| && s.phase == HeaderLf
    ensures if stop then Decides(request, start, total, inbound, r) else Tracks(request, start, inbound, r, h, index + 1)
  {
    hide IsTokenByte, IsValueByte, ScanLines, ScanField, LengthsAgree;
    h := g;
    if s.endingHeaders {
      r := LastLf(request, start, total, inbound, s, g, index);
      return r, h, true;
    }
    ValueComplete(request, g.lineStart, g.colon, index - 1, g.before, inbound);
    if request[index] != LF {
      return s.(result := Refused), h, true;
    }
    r, h, stop := NextLineStart(request, start, inbound, s, g, index);
  }

  /** The line feed of the blank line ends the section. */
  method LastLf(request: ByteSeq, start: nat, total: nat, inbound: bool, s: HeaderState, ghost g: Progress, index: nat) returns (r: HeaderState)
    requires Tracks(request, start, inbound, s, g, index) && index < |request| && s.phase == HeaderLf && s.endingHeaders
    ensures Decides(request, start, total, inbound, r)
  {
    hide IsTokenByte, IsValueByte, ScanLines, ScanField, LengthsAgree;
    BlankLine(request, g.lineStart, g.before, inbound);
    if request[index] != LF {
      return s.(result := Refused);
    }
    var ok := LengthsOk(s, index + 1, |request|, total, inbound);
    r := s.(headerEnd := index + 1, result := if ok then Valid else Refused);
  }

  method NextLineStart(request: ByteSeq, start: nat, inbound: bool, s: HeaderState, ghost g: Progress, index: nat)
    returns (r: HeaderState, ghost h: Progress, stop: bool)
    requires Tracks(request, start, inbound, s, g, index) && index < |request| && s.phase == HeaderLf && !s.endingHeaders
    requires ScanLines(request, g.lineStart, g.before, inbound) == ScanLines(request, index + 1, Seen(s), inbound)
    ensures !stop && Tracks(request, start, inbound, r, h, index + 1)
  {
    hide IsTokenByte, IsValueByte, ScanLines, ScanField, NameState;
    r := s.(phase := HeaderName, componentLen := 0, headerHash := FNV_OFFSET, contentLengthName := true, transferEncodingName := true);
    h := Progress(index + 1, index + 1, Seen(s));
    EmptyName();
    assert request[index + 1..index + 1] == [];
    stop := false;
  }

  method LengthsOk(s: HeaderState, headerEnd: nat, len: nat, total: nat, inbound: bool) returns (ok: bool)
    ensures ok <==> LengthsAgree(Seen(s), headerEnd, len, total, inbound)
  {
    if total < headerEnd {
      return false;
    }
    if s.sawTransferEncoding {
      return !(s.sawContentLength || (total > len && headerEnd != len));
    }
    var bodyBytes := total - headerEnd;
    ok := !(|| (!s.sawContentLength && bodyBytes != 0)
            || (s.sawContentLength && bodyBytes > s.contentLength)
            || (inbound && s.sawContentLength && bodyBytes != s.contentLength));
  }

  /** Running out of bytes decides nothing, and the section is then incomplete. */
  lemma {:induction false} StillPending(request: ByteSeq, start: nat, inbound: bool, s: HeaderState, g: Progress)
    requires Tracks(request, start, inbound, s, g, |request|)
    ensures ScanLines(request, start, NO_FIELDS, inbound).None?
  {
    hide IsTokenByte, IsValueByte, ScanField, NameState, ValueState, NameRefused, KindOf, ScanLines;
    match s.phase
    case HeaderName => NameUnfinished(request, g.lineStart, g.before, inbound);
    case HeaderValue => ValueUnfinished(request, g.lineStart, g.colon, g.before, inbound);
    case HeaderLf =>
      if s.endingHeaders {
        BlankLine(request, g.lineStart, g.before, inbound);
      } else {
        ValueComplete(request, g.lineStart, g.colon, |request| - 1, g.before, inbound);
      }
  }

  lemma {:induction false} NameUnfinished(s: ByteSeq, pos: nat, fields: Fields, inbound: bool)
    requires pos <= |s| && forall j | pos <= j < |s| :: IsTokenByte(s[j])
    ensures ScanLines(s, pos, fields, inbound).None?
  {
    hide IsTokenByte, ScanField, TokenEnd, ValueEnd;
    TokenRun(s, pos, |s|);
  }

  lemma {:induction false} ValueUnfinished(s: ByteSeq, pos: nat, n: nat, fields: Fields, inbound: bool)
    requires pos < n < |s| && s[n] == COLON && forall j | pos <= j < n :: IsTokenByte(s[j])
    requires forall j | n < j < |s| :: IsValueByte(s[j])
    ensures ScanLines(s, pos, fields, inbound).None?
  {
    hide IsTokenByte, IsValueByte, ScanField, ScanLines, ValueEnd;
    LineDecided(s, pos, n, fields, inbound);
    ValueRun(s, n + 1, |s|);
  }

  /** The state `bpf_loop` hands to the callback, changed in place one byte at a time. */
  class HeaderAutomaton {
    const request: ByteSeq
    const start: nat
    const total: nat
    const inbound: bool

    var state: HeaderState
    ghost var progress: Progress

    constructor (request: ByteSeq, start: nat, total: nat, inbound: bool)
      requires start <= |request|
      ensures this.request == request && this.start == start && this.total == total && this.inbound == inbound
      ensures At(start)
    {
      this.request, this.start, this.total, this.inbound := request, start, total, inbound;
      state, progress := INITIAL, Progress(start, start, NO_FIELDS);
      EmptyName();
      assert request[start..start] == [];
    }

    /** The bytes before `i` have been consumed and nothing is decided yet. */
    ghost predicate At(i: nat)
      reads this
    {
      Tracks(request, start, inbound, state, progress, i)
    }

    method Step(index: nat) returns (stop: bool)
      requires At(index) && index < |request| && start <= |request|
      modifies this
      ensures if stop then Decides(request, start, total, inbound, state) else At(index + 1)
    {
      hide Decides;
      match state.phase
      case HeaderName => state, progress, stop := NameStep(request, start, total, inbound, state, progress, index);
      case HeaderValue => state, stop := ValueStep(request, start, total, inbound, state, progress, index);
      case HeaderLf => state, progress, stop := LfStep(request, start, total, inbound, state, progress, index);
    }
  }

  method RunHeaders(request: ByteSeq, start: nat, total: nat, inbound: bool) returns (r: Option<HeaderPlan>)
    requires start <= |request|
    ensures r == ScanHeaders(request, start, total, inbound)
  {
    hide Tracks, ScanLines;
    var automaton := new HeaderAutomaton(request, start, total, inbound);
    var stop, index := false, start;
    while index < |request| && !stop
      invariant start <= index <= |request|
      invariant automaton.request == request && automaton.start == start && automaton.total == total && automaton.inbound == inbound
      invariant if stop then Decides(request, start, total, inbound, automaton.state) else automaton.At(index)
    {
      stop := automaton.Step(index);
      index := index + 1;
    }
    if !stop {
      StillPending(request, start, inbound, automaton.state, automaton.progress);
      return None;
    }
    if automaton.state.result != Valid {
      return None;
    }
    r := Some(HeaderPlan(automaton.state.headerEnd, automaton.state.sawTransferEncoding));
  }
}
