/**
  Classification of a captured chunked body (section 7.1 of RFC 9112) by the host library.
 */
module ChunkedBody {
  import opened Bytes

  datatype Status = Incomplete | Complete | TrailingData | Invalid

  predicate ValidFieldName(name: ByteSeq)
  {
    name != [] && forall i | 0 <= i < |name| :: IsTokenByte(name[i])
  }

  predicate ValidFieldValue(value: ByteSeq)
  {
    forall i | 0 <= i < |value| :: IsValueByte(value[i])
  }

  predicate IsHexDigit(b: Byte) { IsDigit(b) || 97 <= b <= 102 }

  function HexDigitValue(b: Byte): nat
    requires IsHexDigit(b)
  {
    if IsDigit(b) then b - 48 else b - 87
  }

  function HexOf(n: nat): Byte
    requires n < 16
  {
    if n < 10 then 48 + n else 87 + n
  }

  predicate AllHex(s: ByteSeq) { forall i | 0 <= i < |s| :: IsHexDigit(s[i]) }

  function HexValue(s: ByteSeq): nat
    requires AllHex(s)
  {
    if s == [] then 0 else 16 * HexValue(s[..|s| - 1]) + HexDigitValue(s[|s| - 1])
  }

  /** The part of a chunk-size line before its extension. */
  function SizePart(line: ByteSeq): ByteSeq
  {
    match FindByte(line, SEMICOLON) case None => line case Some(at) => line[..at]
  }

  /** Shared by whole and partial lines: hexadecimal size and a printable extension, if any. */
  predicate SizeLineShape(line: ByteSeq)
  {
    && SizePart(line) != [] && AllHex(SizePart(line))
    && (FindByte(line, SEMICOLON).Some? ==> ValidFieldValue(line[FindByte(line, SEMICOLON).value + 1..]))
  }

  function ParseChunkSizeLine(line: ByteSeq): (r: Option<nat>)
  {
    var extension := FindByte(line, SEMICOLON);
    if !SizeLineShape(line) || HexValue(SizePart(line)) > USIZE_MAX then None
    else if extension.Some? && line[extension.value + 1..] == [] then None
    else Some(HexValue(SizePart(line)))
  }

  predicate NoBreak(s: ByteSeq) { forall i | 0 <= i < |s| :: s[i] != CR && s[i] != LF }

  predicate ValidChunkSizePrefix(line: ByteSeq)
  {
    if line == [] then true
    else if !NoBreak(line) then
      var init := line[..|line| - 1];
      line[|line| - 1] == CR && NoBreak(init) && ValidChunkSizePrefix(init)
    else SizeLineShape(line)
  }

  predicate ValidTrailerLine(line: ByteSeq)
  {
    match FindByte(line, COLON)
    case None => false
    case Some(colon) =>
      && ValidFieldName(line[..colon])
      && ValidFieldValue(TrimOws(line[colon + 1..]))
      && !EqIgnoreCase(line[..colon], TRACEPARENT)
      && !EqIgnoreCase(line[..colon], TRACESTATE)
  }

  predicate TrailerShape(line: ByteSeq)
  {
    match FindByte(line, COLON)
    case None => forall i | 0 <= i < |line| :: IsTokenByte(line[i])
    case Some(colon) => ValidFieldName(line[..colon]) && ValidFieldValue(TrimOws(line[colon + 1..]))
  }

  predicate ValidTrailerPrefix(line: ByteSeq)
  {
    if line == [] then true
    else if line[|line| - 1] == CR then ValidTrailerPrefix(line[..|line| - 1])
    else NoBreak(line) && TrailerShape(line)
  }

  function TrailerFrom(body: ByteSeq, cursor: nat): Status
    requires cursor <= |body|
    decreases |body| - cursor
  {
    var remaining := body[cursor..];
    match FindCrlf(remaining)
    case None => if ValidTrailerPrefix(remaining) then Incomplete else Invalid
    case Some(k) =>
      if k == 0 then if cursor + 2 == |body| then Complete else TrailingData
      else if !ValidTrailerLine(remaining[..k]) then Invalid
      else TrailerFrom(body, cursor + k + 2)
  }

  function ChunkedFrom(body: ByteSeq, cursor: nat): Status
    requires cursor <= |body|
    decreases |body| - cursor
  {
    var remaining := body[cursor..];
    match FindCrlf(remaining)
    case None => if ValidChunkSizePrefix(remaining) then Incomplete else Invalid
    case Some(k) =>
      match ParseChunkSizeLine(remaining[..k])
      case None => Invalid
      case Some(size) =>
        var data := cursor + k + 2;
        var end := data + size;
        if size == 0 then TrailerFrom(body, data)
        else if end > USIZE_MAX then Invalid
        else if end > |body| then Incomplete
        else if end + 2 > |body| then if end == |body| || body[end] == CR then Incomplete else Invalid
        else if !CrlfAt(body, end) then Invalid
        else ChunkedFrom(body, end + 2)
  }

  function ChunkedBodyStatus(body: ByteSeq): Status { ChunkedFrom(body, 0) }

  // ----- the cursor loops of the library -----

  method ClassifyTrailers(body: ByteSeq, start: nat) returns (r: Status)
    requires start <= |body|
    ensures r == TrailerFrom(body, start)
  {
    hide FindCrlf, ValidTrailerPrefix, ValidTrailerLine;
    var cursor := start;
    while true
      invariant cursor <= |body| && TrailerFrom(body, cursor) == TrailerFrom(body, start)
      decreases |body| - cursor
    {
      var remaining := body[cursor..];
      var lineEnd := ScanCrlf(remaining);
      if lineEnd.None? {
        return if ValidTrailerPrefix(remaining) then Incomplete else Invalid;
      }
      if lineEnd.value == 0 {
        cursor := cursor + 2;
        return if cursor == |body| then Complete else TrailingData;
      }
      if !ValidTrailerLine(remaining[..lineEnd.value]) {
        return Invalid;
      }
      cursor := cursor + lineEnd.value + 2;
    }
  }

  method ClassifyChunkedBody(body: ByteSeq) returns (r: Status)
    ensures r == ChunkedBodyStatus(body)
  {
    hide FindCrlf, ValidChunkSizePrefix, ParseChunkSizeLine, TrailerFrom;
    var cursor := 0;
    while true
      invariant cursor <= |body| && ChunkedFrom(body, cursor) == ChunkedBodyStatus(body)
      decreases |body| - cursor
    {
      var remaining := body[cursor..];
      var lineEnd := ScanCrlf(remaining);
      if lineEnd.None? {
        return if ValidChunkSizePrefix(remaining) then Incomplete else Invalid;
      }
      var size := ParseChunkSizeLine(remaining[..lineEnd.value]);
      if size.None? {
        return Invalid;
      }
      cursor := cursor + lineEnd.value + 2;
      if size.value == 0 {
        r := ClassifyTrailers(body, cursor);
        return;
      }
      var chunkEnd := cursor + size.value;
      if chunkEnd > USIZE_MAX {
        return Invalid;
      }
      if chunkEnd > |body| {
        return Incomplete;
      }
      if chunkEnd + 2 > |body| {
        return if chunkEnd == |body| || body[chunkEnd] == CR then Incomplete else Invalid;
      }
      CrlfSlice(body, chunkEnd);
      if body[chunkEnd..chunkEnd + 2] != CRLF {
        return Invalid;
      }
      cursor := chunkEnd + 2;
    }
  }
}
