/**
  Chunked classification as a body grows: Invalid and TrailingData are final, Complete turns into
  TrailingData, so every strict prefix of a complete body is Incomplete. Encoding any list of
  chunks gives a complete body.
 */
module ChunkedStability {
  import opened Bytes
  import opened ChunkedBody

  // ----- shapes are closed under prefixes -----

  lemma {:induction false} TrimLeftKeepsValue(v: ByteSeq)
    ensures ValidFieldValue(TrimLeft(v)) <==> ValidFieldValue(v)
  {
    if v != [] && IsOws(v[0]) {
      TrimLeftKeepsValue(v[1..]);
      assert v == [v[0]] + v[1..];
    }
  }

  lemma {:induction false} TrimRightKeepsValue(v: ByteSeq)
    ensures ValidFieldValue(TrimRight(v)) <==> ValidFieldValue(v)
  {
    if v != [] && IsOws(v[|v| - 1]) {
      TrimRightKeepsValue(v[..|v| - 1]);
      assert v == v[..|v| - 1] + [v[|v| - 1]];
    }
  }

  /** Blanks are field-value bytes, so trimming never changes validity. */
  lemma {:induction false} TrimKeepsValue(v: ByteSeq)
    ensures ValidFieldValue(TrimOws(v)) <==> ValidFieldValue(v)
  {
    TrimLeftKeepsValue(v);
    TrimRightKeepsValue(TrimLeft(v));
  }

  lemma {:induction false} SizeLineShapePrefix(line: ByteSeq, p: ByteSeq)
    requires SizeLineShape(line) && p <= line && p != []
    ensures SizeLineShape(p)
  {
    hide FindByte;
    var at := FindByte(line, SEMICOLON);
    assert forall i | 0 <= i < |p| :: p[i] == line[i];
    if at.Some? && at.value < |p| {
      assert FindByte(p, SEMICOLON) == at;
      assert p[at.value + 1..] <= line[at.value + 1..];
    } else {
      assert FindByte(p, SEMICOLON).None?;
    }
  }

  lemma {:induction false} SizeLineNoBreak(line: ByteSeq)
    requires SizeLineShape(line)
    ensures NoBreak(line)
  {
    hide FindByte;
    var at := FindByte(line, SEMICOLON);
    forall i | 0 <= i < |line|
      ensures line[i] != CR && line[i] != LF
    {
      if at.Some? && i > at.value {
        assert line[at.value + 1..][i - at.value - 1] == line[i];
      } else {
        assert at.None? || i == at.value || SizePart(line)[i] == line[i];
      }
    }
  }

  lemma {:induction false} TrailerShapePrefix(line: ByteSeq, p: ByteSeq)
    requires TrailerShape(line) && p <= line
    ensures TrailerShape(p)
  {
    hide FindByte, TrimOws;
    var at := FindByte(line, COLON);
    assert forall i | 0 <= i < |p| :: p[i] == line[i];
    if at.Some? && at.value < |p| {
      assert FindByte(p, COLON) == at;
      assert p[..at.value] == line[..at.value];
      TrimKeepsValue(line[at.value + 1..]);
      TrimKeepsValue(p[at.value + 1..]);
      assert p[at.value + 1..] <= line[at.value + 1..];
    } else {
      assert FindByte(p, COLON).None?;
      assert at.Some? ==> forall i | 0 <= i < |p| :: line[..at.value][i] == p[i];
    }
  }

  lemma {:induction false} TrailerLineShape(line: ByteSeq)
    requires ValidTrailerLine(line)
    ensures TrailerShape(line) && NoBreak(line)
  {
    hide FindByte, TrimOws, EqIgnoreCase;
    var at := FindByte(line, COLON).value;
    TrimKeepsValue(line[at + 1..]);
    forall i | 0 <= i < |line|
      ensures line[i] != CR && line[i] != LF
    {
      if i < at {
        assert line[..at][i] == line[i];
      } else if i > at {
        assert line[at + 1..][i - at - 1] == line[i];
      }
    }
  }

  // ----- an unfinished line that is already wrong stays wrong -----

  /** Every prefix of an acceptable size line, up to its CR, is an acceptable unfinished line. */
  lemma {:induction false} SizePrefixAcceptable(line: ByteSeq, p: ByteSeq)
    requires line == [] || SizeLineShape(line)
    requires p <= line || p == line + [CR]
    ensures ValidChunkSizePrefix(p)
  {
    hide SizeLineShape;
    if line != [] {
      SizeLineNoBreak(line);
    }
    assert ValidChunkSizePrefix(line);
    if p == line + [CR] {
      assert p[..|p| - 1] == line && p[|p| - 1] == CR;
      assert !NoBreak(p);
    } else if p != [] {
      SizeLineShapePrefix(line, p);
      SizeLineNoBreak(p);
    }
  }

  lemma {:induction false} BrokenSizeLineStaysBroken(rem: ByteSeq, more: ByteSeq)
    requires rem <= more && FindCrlf(rem).None? && !ValidChunkSizePrefix(rem)
    ensures FindCrlf(more).None? ==> !ValidChunkSizePrefix(more)
    ensures FindCrlf(more).Some? ==> ParseChunkSizeLine(more[..FindCrlf(more).value]).None?
  {
    hide FindCrlf, SizeLineShape, HexValue, FindByte, SizePart;
    var k := FindCrlf(more);
    if k.Some? && ParseChunkSizeLine(more[..k.value]).Some? {
      var line := more[..k.value];
      assert !CrlfAt(rem, k.value);
      assert forall i | 0 <= i < |rem| :: rem[i] == more[i];
      assert rem <= line || rem == line + [CR];
      SizePrefixAcceptable(line, rem);
    } else if k.None? && ValidChunkSizePrefix(more) && more != [] {
      var init := more[..|more| - 1];
      var line := if NoBreak(more) then more else init;
      assert more == init + [more[|more| - 1]];
      assert !NoBreak(more) ==> NoBreak(init) && ValidChunkSizePrefix(init);
      assert line == [] || SizeLineShape(line);
      assert rem <= line || rem == line + [CR];
      SizePrefixAcceptable(line, rem);
    }
  }

  /** As for size lines, except that any run of CR after the line is still unfinished. */
  lemma {:induction false} TrailerPrefixClosed(line: ByteSeq, p: ByteSeq)
    requires ValidTrailerPrefix(line) && p <= line
    ensures ValidTrailerPrefix(p)
    decreases |line|
  {
    hide TrailerShape;
    if p == line || p == [] {
    } else if line[|line| - 1] == CR {
      TrailerPrefixClosed(line[..|line| - 1], p);
    } else {
      TrailerShapePrefix(line, p);
      assert forall i | 0 <= i < |p| :: p[i] == line[i];
    }
  }

  lemma {:induction false} BrokenTrailerStaysBroken(rem: ByteSeq, more: ByteSeq)
    requires rem <= more && FindCrlf(rem).None? && !ValidTrailerPrefix(rem)
    ensures FindCrlf(more).None? ==> !ValidTrailerPrefix(more)
    ensures FindCrlf(more).Some? ==> FindCrlf(more).value != 0 && !ValidTrailerLine(more[..FindCrlf(more).value])
  {
    hide FindCrlf, TrailerShape, ValidTrailerLine;
    var k := FindCrlf(more);
    if k.None? {
      if ValidTrailerPrefix(more) {
        TrailerPrefixClosed(more, rem);
      }
    } else if k.value == 0 || ValidTrailerLine(more[..k.value]) {
      var line := more[..k.value];
      assert !CrlfAt(rem, k.value);
      assert forall i | 0 <= i < |rem| :: rem[i] == more[i];
      if k.value != 0 {
        TrailerLineShape(line);
      }
      var full := line + [CR];
      assert full[..|full| - 1] == line;
      assert ValidTrailerPrefix(full);
      assert rem <= full;
      TrailerPrefixClosed(full, rem);
    }
  }

  // ----- the classification of a growing body -----

  lemma {:induction false} CrlfInExtension(b: ByteSeq, x: ByteSeq, c: nat)
    requires c <= |b| && FindCrlf(b[c..]).Some?
    ensures FindCrlf((b + x)[c..]) == FindCrlf(b[c..])
    ensures (b + x)[c..][..FindCrlf(b[c..]).value] == b[c..][..FindCrlf(b[c..]).value]
  {
    hide FindCrlf;
    var k := FindCrlf(b[c..]).value;
    var s, t := b[c..], (b + x)[c..];
    assert t == s + x;
    assert CrlfAt(t, k);
    forall j | 0 <= j < k
      ensures !CrlfAt(t, j)
    {
      assert !CrlfAt(s, j);
    }
  }

  ghost predicate Settles(before: Status, after: Status, grew: bool)
  {
    && (before == Invalid ==> after == Invalid)
    && (before == TrailingData ==> after == TrailingData)
    && (before == Complete && grew ==> after == TrailingData)
  }

  lemma {:induction false} TrailersSettle(b: ByteSeq, x: ByteSeq, c: nat)
    requires c <= |b|
    ensures Settles(TrailerFrom(b, c), TrailerFrom(b + x, c), x != [])
    decreases |b| - c
  {
    hide FindCrlf, ValidTrailerPrefix, ValidTrailerLine;
    var s, t := b[c..], (b + x)[c..];
    assert t == s + x;
    if FindCrlf(s).None? {
      if !ValidTrailerPrefix(s) {
        BrokenTrailerStaysBroken(s, t);
      }
    } else {
      CrlfInExtension(b, x, c);
      var k := FindCrlf(s).value;
      if k != 0 && ValidTrailerLine(s[..k]) {
        TrailersSettle(b, x, c + k + 2);
      }
    }
  }

  lemma {:induction false} ChunksSettle(b: ByteSeq, x: ByteSeq, c: nat)
    requires c <= |b|
    ensures Settles(ChunkedFrom(b, c), ChunkedFrom(b + x, c), x != [])
    decreases |b| - c
  {
    hide FindCrlf, ValidChunkSizePrefix, ParseChunkSizeLine, TrailerFrom;
    var s, t := b[c..], (b + x)[c..];
    assert t == s + x;
    if FindCrlf(s).None? {
      if !ValidChunkSizePrefix(s) {
        BrokenSizeLineStaysBroken(s, t);
      }
    } else {
      CrlfInExtension(b, x, c);
      var k := FindCrlf(s).value;
      var size := ParseChunkSizeLine(s[..k]);
      var data := c + k + 2;
      if size == Some(0) {
        TrailersSettle(b, x, data);
      } else if size.Some? && data + size.value + 2 <= |b| {
        assert CrlfAt(b, data + size.value) <==> CrlfAt(b + x, data + size.value);
        if CrlfAt(b, data + size.value) && data + size.value <= USIZE_MAX {
          ChunksSettle(b, x, data + size.value + 2);
        }
      }
    }
  }

  /** Appending bytes never rescues a rejected body, and never leaves a complete one complete. */
  lemma {:induction false} ClassificationSettles(body: ByteSeq, more: ByteSeq)
    ensures ChunkedBodyStatus(body) == Invalid ==> ChunkedBodyStatus(body + more) == Invalid
    ensures ChunkedBodyStatus(body) == TrailingData ==> ChunkedBodyStatus(body + more) == TrailingData
    ensures ChunkedBodyStatus(body) == Complete && more != [] ==> ChunkedBodyStatus(body + more) == TrailingData
  {
    hide ChunkedFrom;
    ChunksSettle(body, more, 0);
  }

  /** Every strict prefix of a complete body is still waiting for bytes. */
  lemma {:induction false} StrictPrefixIncomplete(body: ByteSeq, prefix: ByteSeq)
    requires ChunkedBodyStatus(body) == Complete && prefix < body
    ensures ChunkedBodyStatus(prefix) == Incomplete
  {
    hide ChunkedBodyStatus;
    var more := body[|prefix|..];
    assert body == prefix + more && more != [];
    ClassificationSettles(prefix, more);
  }

  // ----- encoding -----

  /** Lowercase hexadecimal without leading zeros. */
  function HexDigits(n: nat): (r: ByteSeq)
    ensures r != [] && AllHex(r)
  {
    if n < 16 then [HexOf(n)] else HexDigits(n / 16) + [HexOf(n % 16)]
  }

  lemma {:induction false} HexRoundTrip(n: nat)
    ensures HexValue(HexDigits(n)) == n
  {
    var d := HexDigits(n);
    if n >= 16 {
      HexRoundTrip(n / 16);
      assert d[..|d| - 1] == HexDigits(n / 16);
    } else {
      assert d[..0] == [];
    }
  }

  function EncodeChunk(chunk: ByteSeq): ByteSeq { HexDigits(|chunk|) + CRLF + chunk + CRLF }

  function EncodeChunks(chunks: seq<ByteSeq>): ByteSeq
  {
    if chunks == [] then [48] + CRLF + CRLF else EncodeChunk(chunks[0]) + EncodeChunks(chunks[1..])
  }

  lemma {:induction false} SizeLineOf(size: nat, rest: ByteSeq)
    requires size <= USIZE_MAX
    ensures var s := HexDigits(size) + CRLF + rest; var n := |HexDigits(size)|;
            FindCrlf(s) == Some(n) && s[..n] == HexDigits(size) && ParseChunkSizeLine(s[..n]) == Some(size)
  {
    hide FindCrlf, FindByte, HexValue, HexDigits;
    var d := HexDigits(size);
    var s := d + CRLF + rest;
    assert s[..|d|] == d;
    assert CrlfAt(s, |d|);
    assert forall j | 0 <= j < |d| :: s[j] == d[j] && s[j] != CR && s[j] != SEMICOLON;
    assert FindByte(d, SEMICOLON).None?;
    HexRoundTrip(size);
  }

  lemma {:induction false} ChunkThen(body: ByteSeq, cursor: nat, k: nat, size: nat)
    requires cursor <= |body| && FindCrlf(body[cursor..]) == Some(k) && k + 2 <= |body| - cursor
    requires ParseChunkSizeLine(body[cursor..][..k]) == Some(size) && 0 < size && |body| <= USIZE_MAX
    requires CrlfAt(body, cursor + k + 2 + size)
    ensures ChunkedFrom(body, cursor) == ChunkedFrom(body, cursor + k + 2 + size + 2)
  {
    hide FindCrlf, ParseChunkSizeLine, TrailerFrom;
  }

  lemma {:induction false} LastChunk(body: ByteSeq, cursor: nat, k: nat)
    requires cursor <= |body| && FindCrlf(body[cursor..]) == Some(k) && k + 2 <= |body| - cursor
    requires ParseChunkSizeLine(body[cursor..][..k]) == Some(0) && body[cursor + k + 2..] == CRLF
    ensures ChunkedFrom(body, cursor) == Complete
  {
    hide FindCrlf, ParseChunkSizeLine;
    assert CrlfAt(body[cursor + k + 2..], 0);
  }

  lemma {:induction false} EncodedSuffixComplete(before: ByteSeq, chunks: seq<ByteSeq>)
    requires forall i | 0 <= i < |chunks| :: chunks[i] != []
    requires |before + EncodeChunks(chunks)| <= USIZE_MAX
    ensures ChunkedFrom(before + EncodeChunks(chunks), |before|) == Complete
    decreases |chunks|
  {
    hide FindCrlf, ParseChunkSizeLine, HexDigits, ChunkedFrom;
    var body := before + EncodeChunks(chunks);
    var rem := body[|before|..];
    assert rem == EncodeChunks(chunks);
    if chunks == [] {
      assert rem == [48] + CRLF + CRLF;
      assert HexDigits(0) == [48] by { HexOfZero(); }
      SizeLineOf(0, CRLF);
      assert body[|before| + 3..] == CRLF;
      LastChunk(body, |before|, 1);
    } else {
      var c := chunks[0];
      var rest := EncodeChunks(chunks[1..]);
      var d := HexDigits(|c|);
      assert rem == d + CRLF + (c + CRLF + rest);
      SizeLineOf(|c|, c + CRLF + rest);
      var done := before + EncodeChunk(c);
      assert body == done + rest;
      assert CrlfAt(body, |before| + |d| + 2 + |c|);
      ChunkThen(body, |before|, |d|, |c|);
      EncodedSuffixComplete(done, chunks[1..]);
    }
  }

  lemma {:induction false} HexOfZero()
    ensures HexDigits(0) == [48]
  {}

  /** A well-formed chunked encoding of any non-empty chunks is classified Complete. */
  lemma {:induction false} EncodedBodyComplete(chunks: seq<ByteSeq>)
    requires forall i | 0 <= i < |chunks| :: chunks[i] != []
    requires |EncodeChunks(chunks)| <= USIZE_MAX
    ensures ChunkedBodyStatus(EncodeChunks(chunks)) == Complete
  {
    hide ChunkedFrom, EncodeChunks;
    assert [] + EncodeChunks(chunks) == EncodeChunks(chunks);
    EncodedSuffixComplete([], chunks);
  }
}
