/**
  The kernel-side parser of a traceparent value: fifty-five steps, one byte each.
 */
module BpfTraceparentValue {
  import opened Bytes
  import opened ChunkedBody
  import opened TraceContext

  /** What may stand at each position. */
  predicate ByteAllowed(p: nat, b: Byte)
  {
    if p < 2 then b == 48 else if p == 2 || p == 35 || p == 52 then b == DASH else IsHexDigit(b)
  }

  lemma {:induction false} AllowedValues(v: ByteSeq)
    requires |v| == 55
    ensures (forall p | 0 <= p < 55 :: ByteAllowed(p, v[p])) <==>
            v[..3] == VERSION_00 && v[35] == DASH && v[52] == DASH && AllHex(v[3..35]) && AllHex(v[36..52]) && AllHex(v[53..55])
  {
    hide IsHexDigit;
    var a, b, c, d := v[..3], v[3..35], v[36..52], v[53..55];
    assert forall i | 0 <= i < 32 :: b[i] == v[3 + i];
    assert forall i | 0 <= i < 16 :: c[i] == v[36 + i];
    assert forall i | 0 <= i < 2 :: d[i] == v[53 + i];
    assert a == [v[0], v[1], v[2]];
    if AllHex(b) && AllHex(c) && AllHex(d) {
      assert forall p | 3 <= p < 35 :: v[p] == b[p - 3];
      assert forall p | 36 <= p < 52 :: v[p] == c[p - 36];
      assert forall p | 53 <= p < 55 :: v[p] == d[p - 53];
    }
  }

  lemma {:induction false} RefusedByte(v: ByteSeq, p: nat)
    requires |v| == 55 && p < 55 && !ByteAllowed(p, v[p])
    ensures ParseTraceparentValue(v).None?
  {
    hide DecodeHex, AllHex, ByteAllowed;
    AllowedValues(v);
  }

  /** The identifier bytes whose digits lie below position `pos`, for digits that start at `from`. */
  ghost predicate Decoded(v: ByteSeq, from: nat, pos: nat, id: ByteSeq)
  {
    forall k | 0 <= k < |id| && from + 2 * k + 1 < pos ::
      from + 2 * k + 1 < |v| && IsHexDigit(v[from + 2 * k]) && IsHexDigit(v[from + 2 * k + 1])
      && id[k] == 16 * HexDigitValue(v[from + 2 * k]) + HexDigitValue(v[from + 2 * k + 1])
  }

  lemma {:induction false} DecodedIs(v: ByteSeq, from: nat, id: ByteSeq)
    requires from + 2 * |id| <= |v| && Decoded(v, from, from + 2 * |id|, id) && AllHex(v[from..from + 2 * |id|])
    ensures DecodeHex(v[from..from + 2 * |id|]) == Some(id)
  {
    hide DecodeHex, IsHexDigit, HexDigitValue;
    var digits := v[from..from + 2 * |id|];
    assert forall j | 0 <= j < |digits| :: digits[j] == v[from + j];
    var r := DecodeHex(digits).value;
    forall k | 0 <= k < |id|
      ensures r[k] == id[k]
    {
      assert digits[2 * k] == v[from + 2 * k] && digits[2 * k + 1] == v[from + 2 * k + 1];
    }
    assert |r| == |id|;
    assert r == id;
  }

  lemma {:induction false} NothingDecoded(v: ByteSeq, from: nat, id: ByteSeq)
    ensures Decoded(v, from, from, id)
  {}

  lemma {:induction false} AllowedDigit(p: nat, b: Byte)
    requires ByteAllowed(p, b)
    ensures p > 2 && p != 35 && p != 52 ==> IsHexDigit(b)
  {}

  function Clamp(p: nat, low: nat, high: nat): nat { if p < low then low else if p > high then high else p }

  /** One hexadecimal digit: an even one is remembered, an odd one completes a byte. */
  method DigitStep(v: ByteSeq, from: nat, pos: nat, high: nat, id: ByteSeq) returns (nibble: nat, r: ByteSeq)
    requires from <= pos < from + 2 * |id| && pos < |v| && IsHexDigit(v[pos]) && Decoded(v, from, pos, id)
    requires (pos - from) % 2 == 1 ==> IsHexDigit(v[pos - 1]) && high == HexDigitValue(v[pos - 1])
    ensures |r| == |id| && Decoded(v, from, pos + 1, r)
    ensures (pos + 1 - from) % 2 == 1 ==> nibble == HexDigitValue(v[pos])
  {
    var digit := pos - from;
    nibble, r := high, id;
    if digit % 2 == 0 {
      nibble := HexDigitValue(v[pos]);
    } else {
      var target := digit / 2;
      assert from + 2 * target + 1 == pos;
      r := id[target := 16 * high + HexDigitValue(v[pos])];
    }
  }

  /** The digit before `pos` waits for the one at `pos`. */
  predicate Halfway(pos: nat) { (3 < pos < 35 && pos % 2 == 0) || (36 < pos < 52 && pos % 2 == 1) || pos == 54 }

  /** The fifty-five steps; none if a byte is not allowed where it stands. */
  method ReadValue(v: ByteSeq) returns (ok: bool, traceId: ByteSeq, spanId: ByteSeq, flags: ByteSeq)
    requires |v| == 55
    ensures !ok ==> exists p | 0 <= p < 55 :: !ByteAllowed(p, v[p])
    ensures ok ==> forall p | 0 <= p < 55 :: ByteAllowed(p, v[p])
    ensures ok ==> |traceId| == 16 && |spanId| == 8 && |flags| == 1
    ensures ok ==> Decoded(v, 3, 35, traceId) && Decoded(v, 36, 52, spanId) && Decoded(v, 53, 55, flags)
  {
    hide IsHexDigit, HexDigitValue, Decoded, ByteAllowed;
    traceId, spanId, flags, ok := seq(16, _ => 0), seq(8, _ => 0), [0], false;
    var high := 0;
    NothingDecoded(v, 3, traceId);
    NothingDecoded(v, 36, spanId);
    NothingDecoded(v, 53, flags);
    for pos := 0 to 55
      invariant |traceId| == 16 && |spanId| == 8 && |flags| == 1 && high >= 0
      invariant forall p | 0 <= p < pos :: ByteAllowed(p, v[p])
      invariant Decoded(v, 3, Clamp(pos, 3, 35), traceId) && Decoded(v, 36, Clamp(pos, 36, 52), spanId)
      invariant Decoded(v, 53, Clamp(pos, 53, 55), flags)
      invariant Halfway(pos) ==> IsHexDigit(v[pos - 1]) && high == HexDigitValue(v[pos - 1])
    {
      if !ByteAllowed(pos, v[pos]) {
        return;
      }
      AllowedDigit(pos, v[pos]);
      if 3 <= pos < 35 {
        high, traceId := DigitStep(v, 3, pos, high, traceId);
      } else if 36 <= pos < 52 {
        high, spanId := DigitStep(v, 36, pos, high, spanId);
      } else if 53 <= pos {
        high, flags := DigitStep(v, 53, pos, high, flags);
      }
    }
    ok := true;
  }

  method ParseValue(request: ByteSeq, start: nat) returns (r: Option<Context>)
    ensures r == if start + 55 <= |request| then ParseTraceparentValue(request[start..start + 55]) else None
  {
    hide IsHexDigit, HexDigitValue, DecodeHex, ParseTraceparentValue, Usable, Decoded, ByteAllowed, AllHex;
    if start + 55 > |request| {
      return None;
    }
    var v := request[start..start + 55];
    var ok, traceId, spanId, flags := ReadValue(v);
    if !ok {
      ghost var p :| 0 <= p < 55 && !ByteAllowed(p, v[p]);
      RefusedByte(v, p);
      return None;
    }
    AllowedValues(v);
    DecodedIs(v, 3, traceId);
    DecodedIs(v, 36, spanId);
    DecodedIs(v, 53, flags);
    var c := Context(traceId, spanId, flags[0]);
    ParsedIs(v, c, flags);
    r := if Usable(c) then Some(c) else None;
  }

  lemma {:induction false} ParsedIs(v: ByteSeq, c: Context, flags: ByteSeq)
    requires |v| == 55 && v[..3] == VERSION_00 && v[35] == DASH && v[52] == DASH && |flags| == 1 && c.flags == flags[0]
    requires DecodeHex(v[3..35]) == Some(c.traceId) && DecodeHex(v[36..52]) == Some(c.spanId) && DecodeHex(v[53..55]) == Some(flags)
    ensures ParseTraceparentValue(v) == if Usable(c) then Some(c) else None
  {
    hide DecodeHex, Usable;
  }
}
