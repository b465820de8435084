/**
  What the kernel-side byte automata accept, written over positions of the captured request:
  each component is the longest run of admissible bytes, followed by the delimiter it needs.
 */
module BpfScan {
  import opened Bytes
  import opened Fnv
  import opened Http1

  const HTTP_REQUEST_BYTES: nat := 1024

  datatype PlanResult = Pending | Valid | Refused

  /** The first position at or after `i` whose byte does not satisfy `p`. */
  function SpanEnd(p: Byte -> bool, s: ByteSeq, i: nat): (r: nat)
    requires i <= |s|
    ensures i <= r <= |s|
    ensures forall j | i <= j < r :: p(s[j])
    ensures r < |s| ==> !p(s[r])
    decreases |s| - i
  {
    if i < |s| && p(s[i]) then SpanEnd(p, s, i + 1) else i
  }

  function TokenEnd(s: ByteSeq, i: nat): nat
    requires i <= |s|
  {
    SpanEnd(IsTokenByte, s, i)
  }

  function ValueEnd(s: ByteSeq, i: nat): nat
    requires i <= |s|
  {
    SpanEnd(IsValueByte, s, i)
  }

  lemma {:induction false} TokenRun(s: ByteSeq, i: nat, n: nat)
    requires i <= n <= |s| && forall j | i <= j < n :: IsTokenByte(s[j])
    ensures TokenEnd(s, i) >= n
    ensures n == |s| || !IsTokenByte(s[n]) ==> TokenEnd(s, i) == n
  {
    hide IsTokenByte;
  }

  lemma {:induction false} ValueRun(s: ByteSeq, i: nat, n: nat)
    requires i <= n <= |s| && forall j | i <= j < n :: IsValueByte(s[j])
    ensures ValueEnd(s, i) >= n
    ensures n == |s| || !IsValueByte(s[n]) ==> ValueEnd(s, i) == n
  {
    hide IsValueByte;
  }

  // ----- request line -----

  function MethodEnd(s: ByteSeq): nat { SpanEnd(IsMethodByte, s, 0) }

  function TargetEnd(s: ByteSeq, i: nat): nat
    requires i <= |s|
  {
    SpanEnd(IsTargetByte, s, i)
  }

  /** Where the header section starts, if the request line is acceptable. */
  function ScanRequestLine(s: ByteSeq): (r: Option<nat>)
    ensures r.Some? ==> r.value <= |s|
  {
    var m := MethodEnd(s);
    if m == |s| || s[m] != SP || !(1 <= m <= 16) || s[..m] == METHOD_CONNECT || s[..m] == METHOD_PRI then None
    else
      var t := TargetEnd(s, m + 1);
      if t == |s| || s[t] != SP || t == m + 1 then None
      else if t + 11 <= |s| && ValidVersion(s[t + 1..t + 9]) && CrlfAt(s, t + 9) then Some(t + 11)
      else None
  }

  // ----- header fields -----

  datatype FieldKind = Other | ContentLength | TransferEncoding | Connection

  predicate NameRefused(name: ByteSeq, inbound: bool)
  {
    var hash := FnvFold(Lower(name));
    || (|name| == 11 && hash == TRACEPARENT_HASH && !inbound)
    || (|name| == 10 && hash == TRACESTATE_HASH && !inbound)
    || (|name| == 7 && hash == UPGRADE_HASH)
  }

  function KindOf(name: ByteSeq): FieldKind
  {
    if Lower(name) == CONTENT_LENGTH then ContentLength
    else if Lower(name) == TRANSFER_ENCODING then TransferEncoding
    else if |name| == 10 && FnvFold(Lower(name)) == CONNECTION_HASH then Connection
    else Other
  }

  /** Connection tokens are separated by commas and by blanks. */
  predicate IsSeparator(b: Byte) { b == COMMA || IsOws(b) }

  predicate UpgradeTokenAt(value: ByteSeq, p: int)
  {
    && 0 <= p && p + 7 <= |value|
    && (p == 0 || IsSeparator(value[p - 1]))
    && (p + 7 == |value| || IsSeparator(value[p + 7]))
    && (forall i | p <= i < p + 7 :: !IsSeparator(value[i]))
    && FnvFold(Lower(value[p..p + 7])) == UPGRADE_HASH
  }

  predicate HasUpgradeToken(value: ByteSeq)
  {
    exists p | 0 <= p <= |value| :: UpgradeTokenAt(value, p)
  }

  /** The kernel-side reading of one field; `value` is everything between the colon and the CR. */
  function ScanField(fields: Fields, name: ByteSeq, value: ByteSeq, inbound: bool): (r: Option<Fields>)
  {
    if NameRefused(name, inbound) then None
    else
      match KindOf(name)
      case Other => Some(fields)
      case Connection => if HasUpgradeToken(value) then None else Some(fields)
      case TransferEncoding =>
        if fields.chunked || Lower(TrimOws(value)) != CHUNKED then None else Some(fields.(chunked := true))
      case ContentLength =>
        if fields.contentLength.Some? || ParseContentLength(TrimOws(value)).None? then None
        else Some(fields.(contentLength := ParseContentLength(TrimOws(value))))
  }

  /** The header section that starts at `pos`: where it ends and what it established. */
  function ScanLines(s: ByteSeq, pos: nat, fields: Fields, inbound: bool): (r: Option<(nat, Fields)>)
    requires pos <= |s|
    decreases |s| - pos
  {
    var n := TokenEnd(s, pos);
    if n == |s| then None
    else if s[n] == CR then
      if n == pos && CrlfAt(s, n) then Some((n + 2, fields)) else None
    else if s[n] != COLON || n == pos then None
    else
      var v := ValueEnd(s, n + 1);
      if !CrlfAt(s, v) then None
      else
        match ScanField(fields, s[pos..n], s[n + 1..v], inbound)
        case None => None
        case Some(next) => ScanLines(s, v + 2, next, inbound)
  }

  /** Body framing, as far as lengths alone decide it. */
  predicate LengthsAgree(fields: Fields, headerEnd: nat, len: nat, total: nat, inbound: bool)
  {
    && headerEnd <= total
    && if fields.chunked then fields.contentLength.None? && !(total > len && headerEnd != len)
       else
         match fields.contentLength
         case None => total == headerEnd
         case Some(n) => total - headerEnd <= n && (inbound ==> total - headerEnd == n)
  }

  datatype HeaderPlan = HeaderPlan(headerEnd: nat, chunked: bool)

  function ScanHeaders(s: ByteSeq, start: nat, total: nat, inbound: bool): (r: Option<HeaderPlan>)
    requires start <= |s|
  {
    match ScanLines(s, start, NO_FIELDS, inbound)
    case None => None
    case Some((end, fields)) =>
      if LengthsAgree(fields, end, |s|, total, inbound) then Some(HeaderPlan(end, fields.chunked)) else None
  }
}
