/**
  The traceparent codec (section 3.2 of W3C Trace Context, version 00).
 */
module TraceContext {
  import opened Bytes
  import opened ChunkedBody

  const TRACEPARENT_HEADER_BYTES: nat := 70

  type TraceId = s: ByteSeq | |s| == 16 witness seq(16, _ => 0)
  type SpanId = s: ByteSeq | |s| == 8 witness seq(8, _ => 0)

  datatype Context = Context(traceId: TraceId, spanId: SpanId, flags: Byte)

  predicate AllZero(s: ByteSeq) { forall i | 0 <= i < |s| :: s[i] == 0 }

  /** Contexts the library will construct: neither identifier is all zero. */
  predicate Usable(c: Context) { !AllZero(c.traceId) && !AllZero(c.spanId) }

  function EncodeHex(s: ByteSeq): (r: ByteSeq)
    ensures |r| == 2 * |s|
    ensures forall i | 0 <= i < |s| :: r[2 * i] == HexOf(s[i] / 16) && r[2 * i + 1] == HexOf(s[i] % 16)
  {
    if s == [] then []
    else EncodeHex(s[..|s| - 1]) + [HexOf(s[|s| - 1] / 16), HexOf(s[|s| - 1] % 16)]
  }

  function DecodeHex(s: ByteSeq): (r: Option<ByteSeq>)
    requires |s| % 2 == 0
    ensures r.Some? <==> AllHex(s)
    ensures r.Some? ==> |r.value| == |s| / 2
    ensures r.Some? ==> forall i | 0 <= i < |s| / 2 ::
              r.value[i] == 16 * HexDigitValue(s[2 * i]) + HexDigitValue(s[2 * i + 1])
  {
    if s == [] then Some([])
    else
      var n := |s| - 2;
      match DecodeHex(s[..n])
      case None => None
      case Some(init) =>
        if IsHexDigit(s[n]) && IsHexDigit(s[n + 1])
        then Some(init + [16 * HexDigitValue(s[n]) + HexDigitValue(s[n + 1])])
        else None
  }

  lemma {:induction false} HexOfDigit(n: nat)
    requires n < 16
    ensures IsHexDigit(HexOf(n)) && HexDigitValue(HexOf(n)) == n
  {}

  lemma {:induction false} DigitOfHex(high: Byte, low: Byte)
    requires IsHexDigit(high) && IsHexDigit(low)
    ensures var n := 16 * HexDigitValue(high) + HexDigitValue(low);
            n < 256 && HexOf(n / 16) == high && HexOf(n % 16) == low
  {}

  /** Writing and reading hexadecimal are inverse, both ways. */
  lemma {:induction false} HexInverse(s: ByteSeq)
    ensures DecodeHex(EncodeHex(s)) == Some(s)
  {
    hide EncodeHex, DecodeHex;
    var h := EncodeHex(s);
    forall j | 0 <= j < |h|
      ensures IsHexDigit(h[j])
    {
      var i := j / 2;
      assert h[2 * i] == HexOf(s[i] / 16) && h[2 * i + 1] == HexOf(s[i] % 16);
      HexOfDigit(s[i] / 16);
      HexOfDigit(s[i] % 16);
      assert j == 2 * i || j == 2 * i + 1;
    }
    forall i | 0 <= i < |s|
      ensures DecodeHex(h).value[i] == s[i]
    {
      HexOfDigit(s[i] / 16);
      HexOfDigit(s[i] % 16);
    }
    assert DecodeHex(h).value == s;
  }

  lemma {:induction false} PairwiseEqual(a: ByteSeq, b: ByteSeq)
    requires |a| == |b| && |a| % 2 == 0
    requires forall i | 0 <= i < |a| / 2 :: a[2 * i] == b[2 * i] && a[2 * i + 1] == b[2 * i + 1]
    ensures a == b
  {
    forall j | 0 <= j < |a|
      ensures a[j] == b[j]
    {
      assert j == 2 * (j / 2) || j == 2 * (j / 2) + 1;
    }
  }

  lemma {:induction false} HexInverseBack(h: ByteSeq)
    requires |h| % 2 == 0 && AllHex(h)
    ensures EncodeHex(DecodeHex(h).value) == h
  {
    hide EncodeHex, DecodeHex, HexOf, HexDigitValue;
    var s := DecodeHex(h).value;
    var e := EncodeHex(s);
    forall i | 0 <= i < |s|
      ensures e[2 * i] == h[2 * i] && e[2 * i + 1] == h[2 * i + 1]
    {
      assert s[i] == 16 * HexDigitValue(h[2 * i]) + HexDigitValue(h[2 * i + 1]);
      DigitOfHex(h[2 * i], h[2 * i + 1]);
    }
    PairwiseEqual(e, h);
  }

  // "00-" and "traceparent: "
  const VERSION_00: ByteSeq := [48, 48, 45]
  const TRACEPARENT_PREFIX: ByteSeq := TRACEPARENT + [COLON, SP]

  function TraceparentValue(c: Context): (r: ByteSeq)
    ensures |r| == 55
  {
    VERSION_00 + EncodeHex(c.traceId) + [DASH] + EncodeHex(c.spanId) + [DASH] + EncodeHex([c.flags])
  }

  /** The header field without its line terminator. */
  function TraceparentLine(c: Context): (r: ByteSeq)
    ensures |r| == 68
  {
    TRACEPARENT_PREFIX + TraceparentValue(c)
  }

  function TraceparentHeader(c: Context): (r: ByteSeq)
    ensures |r| == TRACEPARENT_HEADER_BYTES
  {
    TraceparentLine(c) + CRLF
  }

  function ParseTraceparentValue(v: ByteSeq): (r: Option<Context>)
  {
    if |v| != 55 || v[..3] != VERSION_00 || v[35] != DASH || v[52] != DASH then None
    else
      match (DecodeHex(v[3..35]), DecodeHex(v[36..52]), DecodeHex(v[53..55]))
      case (Some(traceId), Some(spanId), Some(flags)) =>
        var c := Context(traceId, spanId, flags[0]);
        if Usable(c) then Some(c) else None
      case _ => None
  }

  lemma {:induction false} ValueSlices(c: Context)
    ensures var v := TraceparentValue(c);
            && v[..3] == VERSION_00 && v[35] == DASH && v[52] == DASH
            && v[3..35] == EncodeHex(c.traceId) && v[36..52] == EncodeHex(c.spanId)
            && v[53..55] == EncodeHex([c.flags])
  {
    hide EncodeHex;
  }

  /** Exactly the usable contexts survive formatting. */
  lemma {:induction false} ParseFormatted(c: Context)
    ensures ParseTraceparentValue(TraceparentValue(c)) == if Usable(c) then Some(c) else None
  {
    hide EncodeHex, DecodeHex, TraceparentValue;
    ValueSlices(c);
    HexInverse(c.traceId);
    HexInverse(c.spanId);
    HexInverse([c.flags]);
  }

  /** A value has at most one reading, and formatting that reading gives the value back. */
  lemma {:induction false} FormatParsed(v: ByteSeq)
    requires ParseTraceparentValue(v).Some?
    ensures Usable(ParseTraceparentValue(v).value)
    ensures TraceparentValue(ParseTraceparentValue(v).value) == v
  {
    hide EncodeHex, DecodeHex, Usable;
    HexInverseBack(v[3..35]);
    HexInverseBack(v[36..52]);
    HexInverseBack(v[53..55]);
    var flags := DecodeHex(v[53..55]).value;
    assert flags == [flags[0]];
    assert v == v[..3] + v[3..35] + [v[35]] + v[36..52] + [v[52]] + v[53..55];
  }

  // ----- the loops over caller-owned buffers -----

  method WriteHex(input: ByteSeq, output: array<Byte>, at: nat)
    requires at + 2 * |input| <= output.Length
    modifies output
    ensures output[at..at + 2 * |input|] == EncodeHex(input)
    ensures forall j | 0 <= j < at || at + 2 * |input| <= j < output.Length :: output[j] == old(output[j])
  {
    hide EncodeHex;
    for i := 0 to |input|
      invariant forall j | 0 <= j < at :: output[j] == old(output[j])
      invariant forall j | at + 2 * i <= j < output.Length :: output[j] == old(output[j])
      invariant forall k | 0 <= k < 2 * i :: output[at + k] == EncodeHex(input)[k]
    {
      output[at + 2 * i] := HexOf(input[i] / 16);
      output[at + 2 * i + 1] := HexOf(input[i] % 16);
    }
  }

  method ReadHex(input: ByteSeq, output: array<Byte>) returns (ok: bool)
    requires |input| == 2 * output.Length
    modifies output
    ensures ok <==> DecodeHex(input).Some?
    ensures ok ==> output[..] == DecodeHex(input).value
  {
    hide DecodeHex;
    for i := 0 to output.Length
      invariant forall j | 0 <= j < 2 * i :: IsHexDigit(input[j])
      invariant forall k | 0 <= k < i :: output[k] == 16 * HexDigitValue(input[2 * k]) + HexDigitValue(input[2 * k + 1])
    {
      if !IsHexDigit(input[2 * i]) || !IsHexDigit(input[2 * i + 1]) {
        return false;
      }
      output[i] := 16 * HexDigitValue(input[2 * i]) + HexDigitValue(input[2 * i + 1]);
    }
    ok := true;
  }

  lemma {:induction false} HexOfOne(b: Byte)
    ensures EncodeHex([b]) == [HexOf(b / 16), HexOf(b % 16)]
  {}

  lemma {:induction false} HeaderFromParts(out: ByteSeq, c: Context)
    requires |out| == TRACEPARENT_HEADER_BYTES
    requires out[..16] == TRACEPARENT_PREFIX + VERSION_00
    requires out[16..48] == EncodeHex(c.traceId) && out[48] == DASH
    requires out[49..65] == EncodeHex(c.spanId) && out[65] == DASH
    requires out[66] == HexOf(c.flags / 16) && out[67] == HexOf(c.flags % 16)
    requires out[68] == CR && out[69] == LF
    ensures out == TraceparentHeader(c)
  {
    hide EncodeHex, HexOf;
    HexOfOne(c.flags);
    assert out == out[..16] + out[16..48] + [out[48]] + out[49..65] + [out[65]] + [out[66], out[67]] + [out[68], out[69]];
  }

  method FormatTraceparentHeader(c: Context) returns (output: array<Byte>)
    ensures fresh(output) && output[..] == TraceparentHeader(c)
  {
    hide EncodeHex, HexOf, TraceparentHeader;
    var prefix := TRACEPARENT_PREFIX + VERSION_00;
    output := new Byte[TRACEPARENT_HEADER_BYTES](i => if 0 <= i < 16 then prefix[i] else 0);
    assert output[..16] == prefix;
    WriteHex(c.traceId, output, 16);
    output[48] := DASH;
    WriteHex(c.spanId, output, 49);
    output[65] := DASH;
    output[66] := HexOf(c.flags / 16);
    output[67] := HexOf(c.flags % 16);
    output[68] := CR;
    output[69] := LF;
    assert output[16..48] == EncodeHex(c.traceId);
    assert output[49..65] == EncodeHex(c.spanId);
    ghost var out := output[..];
    assert out[16..48] == output[16..48] && out[49..65] == output[49..65];
    HeaderFromParts(out, c);
  }
}
