/**
  What the kernel-side scans say of a request depends only on the bytes they read: a header section
  and a body that move along by some bytes are read as before, and an accepted section stays
  accepted whatever follows it.
 */
module ScanShift {
  import opened Bytes
  import opened Http1
  import opened BpfScan
  import opened BpfHeaders
  import opened BpfChunked
  import opened BpfPlan
  import opened ChunkedStability
  import opened RequestLineAgreement
  import opened HeaderAgreement
  import opened PlannerAgreement

  // ----- the same bytes, `d` places further on -----

  /** From `k` on, `s` is found in `m` moved by `d`. */
  ghost predicate Shifted(s: ByteSeq, m: ByteSeq, k: nat, d: nat)
  {
    k <= |s| && |m| == |s| + d && forall i {:trigger s[i]} | k <= i < |s| :: m[i + d] == s[i]
  }

  lemma {:induction false} SpanShifts(p: Byte -> bool, s: ByteSeq, m: ByteSeq, k: nat, d: nat, i: nat)
    requires Shifted(s, m, k, d) && k <= i <= |s|
    ensures SpanEnd(p, m, i + d) == SpanEnd(p, s, i) + d
    decreases |s| - i
  {
    if i < |s| && p(s[i]) {
      SpanShifts(p, s, m, k, d, i + 1);
    }
  }

  lemma {:induction false} SliceShifts(s: ByteSeq, m: ByteSeq, k: nat, d: nat, a: nat, b: nat)
    requires Shifted(s, m, k, d) && k <= a <= b <= |s|
    ensures m[a + d..b + d] == s[a..b]
  {
    var x, y := m[a + d..b + d], s[a..b];
    assert forall i | 0 <= i < b - a :: y[i] == s[a + i] && x[i] == m[a + i + d];
  }

  /** A token and what follows it. */
  lemma {:induction false} TokenShifts(s: ByteSeq, m: ByteSeq, k: nat, d: nat, i: nat)
    requires Shifted(s, m, k, d) && k <= i <= |s|
    ensures i <= TokenEnd(s, i) <= |s| && TokenEnd(m, i + d) == TokenEnd(s, i) + d && m[i + d..TokenEnd(s, i) + d] == s[i..TokenEnd(s, i)]
  {
    SpanShifts(IsTokenByte, s, m, k, d, i);
    SliceShifts(s, m, k, d, i, TokenEnd(s, i));
  }

  lemma {:induction false} ValueShifts(s: ByteSeq, m: ByteSeq, k: nat, d: nat, i: nat)
    requires Shifted(s, m, k, d) && k <= i <= |s|
    ensures i <= ValueEnd(s, i) <= |s| && ValueEnd(m, i + d) == ValueEnd(s, i) + d && m[i + d..ValueEnd(s, i) + d] == s[i..ValueEnd(s, i)]
  {
    SpanShifts(IsValueByte, s, m, k, d, i);
    SliceShifts(s, m, k, d, i, ValueEnd(s, i));
  }

  lemma {:induction false} ByteShifts(s: ByteSeq, m: ByteSeq, k: nat, d: nat, i: nat)
    requires Shifted(s, m, k, d) && k <= i <= |s|
    ensures |m| == |s| + d && (i < |s| ==> m[i + d] == s[i]) && (i + 1 < |s| ==> m[i + 1 + d] == s[i + 1])
    ensures CrlfAt(m, i + d) <==> CrlfAt(s, i)
  {}

  lemma {:induction false} LinesShift(s: ByteSeq, m: ByteSeq, k: nat, d: nat, pos: nat, f: Fields, inbound: bool)
    requires Shifted(s, m, k, d) && k <= pos <= |s|
    ensures ScanLines(m, pos + d, f, inbound) ==
            match ScanLines(s, pos, f, inbound) case None => None case Some((end, g)) => Some((end + d, g))
    decreases |s| - pos
  {
    hide Shifted, TokenEnd, ValueEnd, ScanField, CrlfAt;
    TokenShifts(s, m, k, d, pos);
    var n := TokenEnd(s, pos);
    ByteShifts(s, m, k, d, n);
    if n < |s| && s[n] == COLON && n != pos {
      ValueShifts(s, m, k, d, n + 1);
      var v := ValueEnd(s, n + 1);
      ByteShifts(s, m, k, d, v);
      var next := ScanField(f, s[pos..n], s[n + 1..v], inbound);
      if CrlfAt(s, v) && next.Some? {
        AfterCrlf(s, v);
        LinesShift(s, m, k, d, v + 2, next.value, inbound);
      }
    }
  }

  lemma {:induction false} AfterCrlf(s: ByteSeq, k: nat)
    requires CrlfAt(s, k)
    ensures k + 2 <= |s|
  {}

  lemma {:induction false} SizeLineShift(s: ByteSeq, m: ByteSeq, k: nat, d: nat, c: nat)
    requires Shifted(s, m, k, d) && k <= c <= |s|
    ensures ScanSizeLine(m, c + d) ==
            match ScanSizeLine(s, c) case NeedMore => NeedMore case Bad => Bad case Size(bytes, next) => Size(bytes, next + d)
  {
    hide SpanEnd, AnyHexValue, IsAnyHex, IsValueByte;
    SpanShifts(IsAnyHex, s, m, k, d, c);
    var h := HexEnd(s, c);
    SliceShifts(s, m, k, d, c, h);
    if h < |s| && s[h] == SEMICOLON {
      SpanShifts(IsValueByte, s, m, k, d, h + 1);
    }
  }

  lemma {:induction false} TrailersShift(s: ByteSeq, m: ByteSeq, k: nat, d: nat, c: nat)
    requires Shifted(s, m, k, d) && k <= c <= |s|
    ensures ScanTrailers(m, c + d) == ScanTrailers(s, c)
    decreases |s| - c
  {
    hide Shifted, TokenEnd, ValueEnd, TrailerRefused;
    TokenShifts(s, m, k, d, c);
    var n := TokenEnd(s, c);
    ByteShifts(s, m, k, d, n);
    if n < |s| && s[n] == COLON && n != c {
      ValueShifts(s, m, k, d, n + 1);
      var v := ValueEnd(s, n + 1);
      ByteShifts(s, m, k, d, v);
      if CrlfAt(s, v) {
        TrailersShift(s, m, k, d, v + 2);
      }
    }
  }

  lemma {:induction false} ChunksShift(s: ByteSeq, m: ByteSeq, k: nat, d: nat, c: nat)
    requires Shifted(s, m, k, d) && k <= c <= |s|
    ensures ScanChunks(m, c + d) == ScanChunks(s, c)
    decreases |s| - c
  {
    hide ScanSizeLine, ScanTrailers;
    SizeLineShift(s, m, k, d, c);
    var line := ScanSizeLine(s, c);
    if line.Size? {
      if line.bytes == 0 {
        TrailersShift(s, m, k, d, line.next);
      } else if CrlfAt(s, line.next + line.bytes) {
        ChunksShift(s, m, k, d, line.next + line.bytes + 2);
      }
    }
  }

  // ----- the same bytes, with more behind them -----

  lemma {:induction false} LinesExtend(s: ByteSeq, t: ByteSeq, pos: nat, f: Fields, inbound: bool)
    requires s <= t && pos <= |s| && ScanLines(s, pos, f, inbound).Some?
    ensures ScanLines(t, pos, f, inbound) == ScanLines(s, pos, f, inbound)
    decreases |s| - pos
  {
    hide TokenEnd, ValueEnd, ScanField, ScanLines, IsTokenByte, IsValueByte;
    var n, v := ScannedStep(s, pos, f, inbound);
    assert forall j | 0 <= j < |s| :: t[j] == s[j];
    if v == pos {
      BlankLine(t, pos, f, inbound);
    } else {
      assert t[pos..n] == s[pos..n] && t[n + 1..v] == s[n + 1..v];
      ColonIsNoToken();
      TokenRun(t, pos, n);
      ValueRun(t, n + 1, v);
      LineScanned(t, pos, n, v, f, inbound);
      LinesExtend(s, t, v + 2, ScanField(f, s[pos..n], s[n + 1..v], inbound).value, inbound);
    }
  }

  lemma {:induction false} RequestLineExtends(s: ByteSeq, t: ByteSeq)
    requires s <= t && ScanRequestLine(s).Some?
    ensures ScanRequestLine(t) == ScanRequestLine(s)
  {
    hide ScanRequestLine, FindCrlf, ValidateRequestLine;
    AcceptedLine(s);
    var more := t[|s|..];
    assert s + more == t && s[0..] == s && t[0..] == t;
    CrlfInExtension(s, more, 0);
    AcceptedByHost(t);
  }

  /** A point planned from the captured part of a message is the one planned from all of it. */
  lemma {:induction false} CapturedPlan(s: ByteSeq, message: ByteSeq)
    requires s <= message && |message| <= HTTP_REQUEST_BYTES && ScanPlan(s, |message|, false).Some?
    ensures ScanPlan(message, |message|, false) == ScanPlan(s, |message|, false)
  {
    hide ScanPlan, ScanRequestLine, ScanLines, ChunksAllow;
    var k := ScanPlan(s, |message|, false).value;
    PlanLine(s, |message|, false);
    RequestLineExtends(s, message);
    PlanParts(s, |message|, false, k);
    PlanParts(message, |message|, false, k);
    LinesExtend(s, message, k, NO_FIELDS, false);
    if |s| == |message| {
      assert s == message;
    }
  }

  lemma {:induction false} PlanLine(s: ByteSeq, total: nat, inbound: bool)
    requires ScanPlan(s, total, inbound).Some?
    ensures s != [] && |s| <= HTTP_REQUEST_BYTES && ScanPlan(s, total, inbound).value < |s|
    ensures ScanRequestLine(s) == ScanPlan(s, total, inbound)
  {
    hide ScanRequestLine, ScanHeaders, ChunksAllow;
  }
}
