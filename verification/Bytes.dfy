/**
  Byte strings and the pure scanners every HTTP/1 parser of the project shares.
 */
module Bytes {
  type Byte = b: int | 0 <= b < 256
  type ByteSeq = seq<Byte>

  datatype Option<+T> = None | Some(value: T)

  const TAB: Byte := 9
  const LF: Byte := 10
  const CR: Byte := 13
  const SP: Byte := 32
  const COMMA: Byte := 44
  const DASH: Byte := 45
  const COLON: Byte := 58
  const SEMICOLON: Byte := 59
  const EQUALS: Byte := 61
  const AT: Byte := 64

  const CRLF: ByteSeq := [13, 10]

  function Min(a: nat, b: nat): nat { if a < b then a else b }

  const U16_MAX: nat := 0xffff
  const U32_MAX: nat := 0xffff_ffff
  const USIZE_MAX: nat := 0xffff_ffff_ffff_ffff

  // "traceparent", "tracestate", "upgrade", "connection", "transfer-encoding", "content-length", "chunked"
  const TRACEPARENT: ByteSeq := [116, 114, 97, 99, 101, 112, 97, 114, 101, 110, 116]
  const TRACESTATE: ByteSeq := [116, 114, 97, 99, 101, 115, 116, 97, 116, 101]
  const UPGRADE: ByteSeq := [117, 112, 103, 114, 97, 100, 101]
  const CONNECTION: ByteSeq := [99, 111, 110, 110, 101, 99, 116, 105, 111, 110]
  const TRANSFER_ENCODING: ByteSeq :=
    [116, 114, 97, 110, 115, 102, 101, 114, 45, 101, 110, 99, 111, 100, 105, 110, 103]
  const CONTENT_LENGTH: ByteSeq := [99, 111, 110, 116, 101, 110, 116, 45, 108, 101, 110, 103, 116, 104]
  const CHUNKED: ByteSeq := [99, 104, 117, 110, 107, 101, 100]

  predicate IsUpper(b: Byte) { 65 <= b <= 90 }
  predicate IsLowercase(b: Byte) { 97 <= b <= 122 }
  predicate IsDigit(b: Byte) { 48 <= b <= 57 }
  predicate IsOws(b: Byte) { b == SP || b == TAB }

  /** A byte of an HTTP field name (RFC 9110 token). */
  predicate IsTokenByte(b: Byte)
  {
    || IsUpper(b) || IsLowercase(b) || IsDigit(b)
    || b == 33 || b == 35 || b == 36 || b == 37 || b == 38 || b == 39
    || b == 42 || b == 43 || b == 45 || b == 46 || b == 94 || b == 95
    || b == 96 || b == 124 || b == 126
  }

  predicate IsValueByte(b: Byte) { b == TAB || (b >= 32 && b != 127) }

  function LowerByte(b: Byte): Byte { if IsUpper(b) then b + 32 else b }

  function Lower(s: ByteSeq): (r: ByteSeq)
    ensures |r| == |s|
    ensures forall i | 0 <= i < |s| :: r[i] == LowerByte(s[i])
  {
    seq(|s|, i requires 0 <= i < |s| => LowerByte(s[i]))
  }

  predicate EqIgnoreCase(a: ByteSeq, b: ByteSeq) { Lower(a) == Lower(b) }

  /** Position of the first `b`. */
  function FindByte(s: ByteSeq, b: Byte): (r: Option<nat>)
    ensures r.Some? ==> r.value < |s| && s[r.value] == b && forall j | 0 <= j < r.value :: s[j] != b
    ensures r.None? ==> forall j | 0 <= j < |s| :: s[j] != b
  {
    if s == [] then None
    else if s[0] == b then Some(0)
    else match FindByte(s[1..], b)
      case None => None
      case Some(k) => Some(k + 1)
  }

  predicate CrlfAt(s: ByteSeq, k: int) { 0 <= k && k + 1 < |s| && s[k] == CR && s[k + 1] == LF }

  lemma {:induction false} CrlfSlice(s: ByteSeq, k: nat)
    requires k + 2 <= |s|
    ensures s[k..k + 2] == CRLF <==> CrlfAt(s, k)
  {
    assert s[k..k + 2] == [s[k], s[k + 1]];
  }

  lemma {:induction false} SliceOfSlice(s: ByteSeq, lo: nat, hi: nat, p: nat, q: nat)
    requires lo <= hi <= |s| && p <= q <= hi - lo
    ensures s[lo..hi][p..q] == s[lo + p..lo + q]
  {
    var a, b := s[lo..hi][p..q], s[lo + p..lo + q];
    assert |a| == |b| && forall i | 0 <= i < |a| :: a[i] == b[i];
  }

  /** Position of the first CRLF. */
  function FindCrlf(s: ByteSeq): (r: Option<nat>)
    ensures r.Some? ==> CrlfAt(s, r.value) && forall j | 0 <= j < r.value :: !CrlfAt(s, j)
    ensures r.None? ==> forall j :: !CrlfAt(s, j)
  {
    if |s| < 2 then None
    else if CrlfAt(s, 0) then Some(0)
    else
      assert forall j :: CrlfAt(s, j + 1) == (0 <= j + 1 && CrlfAt(s[1..], j)) || j < 0;
      match FindCrlf(s[1..])
      case None => assert forall j :: CrlfAt(s, j) ==> CrlfAt(s[1..], j - 1) || j == 0; None
      case Some(k) => assert forall j :: 1 <= j && CrlfAt(s, j) ==> CrlfAt(s[1..], j - 1); Some(k + 1)
  }

  function TrimLeft(s: ByteSeq): (r: ByteSeq)
  {
    if s != [] && IsOws(s[0]) then TrimLeft(s[1..]) else s
  }

  function TrimRight(s: ByteSeq): (r: ByteSeq)
  {
    if s != [] && IsOws(s[|s| - 1]) then TrimRight(s[..|s| - 1]) else s
  }

  /** Strips optional whitespace (blanks and tabs) from both ends. */
  function TrimOws(s: ByteSeq): (r: ByteSeq) { TrimRight(TrimLeft(s)) }

  /** The scanner of the host library: one pass, one remembered bit. */
  method ScanCrlf(value: ByteSeq) returns (r: Option<nat>)
    ensures r == FindCrlf(value)
  {
    var previousWasCr := false;
    for index := 0 to |value|
      invariant forall j | 0 <= j && j + 1 < index :: !CrlfAt(value, j)
      invariant previousWasCr <==> index > 0 && value[index - 1] == CR
    {
      if previousWasCr && value[index] == LF {
        assert CrlfAt(value, index - 1);
        return Some(index - 1);
      }
      previousWasCr := value[index] == CR;
    }
    return None;
  }
}
