/**
  What the kernel side copies from an inbound request and accepts as a list is what the host
  library returns for the same request, however often the field is repeated and however it is
  padded, exactly if no other ten-byte name has the hash of tracestate.
 */
module InboundTracestate {
  import opened Bytes
  import opened Ows
  import opened Fnv
  import opened ChunkedBody
  import opened Http1
  import opened Tracestate
  import opened TracestateCopy
  import opened BpfScan
  import opened BpfHeaders
  import opened BpfTracestate
  import opened BpfTracestateCopy
  import opened RequestLineAgreement
  import opened HeaderAgreement
  import opened TracestateAgreement

  /** No other name of these lines hashes like tracestate. */
  ghost predicate NamesFaithful(lines: seq<ByteSeq>)
  {
    forall i | 0 <= i < |lines| ::
      FindByte(lines[i], COLON).Some? && TracestateName(FieldName(lines[i])) ==> EqIgnoreCase(FieldName(lines[i]), TRACESTATE)
  }

  /** The end of a copied section, or its first line and the section that follows. */
  lemma {:induction false} CopiedStep(s: ByteSeq, pos: nat, list: Option<ByteSeq>) returns (n: nat, v: nat)
    requires pos <= |s| && ScanCopy(s, pos, list).Some?
    ensures v == pos ==> CrlfAt(s, pos) && ScanCopy(s, pos, list) == list
    ensures v != pos ==>
              && pos < n < v && CrlfAt(s, v) && s[n] == COLON
              && (forall j | pos <= j < n :: IsTokenByte(s[j])) && (forall j | n < j < v :: IsValueByte(s[j]))
              && (TracestateName(s[pos..n]) ==> Fits(list, s[n + 1..v]))
              && var next := if TracestateName(s[pos..n]) then Some(Join(list, TrimOws(s[n + 1..v]))) else list;
                 ScanCopy(s, pos, list) == ScanCopy(s, v + 2, next)
  {
    hide IsTokenByte, IsValueByte, TracestateName, Fits, Join, TrimOws, TokenEnd, ValueEnd;
    n := TokenEnd(s, pos);
    TokenBytes(s, pos);
    v := if s[n] == CR then pos else ValueEnd(s, n + 1);
    if s[n] != CR {
      ValueBytesOf(s, n + 1);
    }
  }

  /** One well-formed line, copied. */
  lemma {:induction false} CopyScanLine(s: ByteSeq, pos: nat, n: nat, v: nat, list: Option<ByteSeq>)
    requires pos < n < v && CrlfAt(s, v) && s[n] == COLON && TokenEnd(s, pos) == n && ValueEnd(s, n + 1) == v
    ensures ScanCopy(s, pos, list) ==
            if !TracestateName(s[pos..n]) then ScanCopy(s, v + 2, list)
            else if !Fits(list, s[n + 1..v]) then None
            else ScanCopy(s, v + 2, Some(Join(list, TrimOws(s[n + 1..v]))))
  {
    hide TokenEnd, ValueEnd, TracestateName, TrimOws, Fits, Join;
  }

  lemma {:induction false} TrimmedFits(list: Option<ByteSeq>, raw: ByteSeq)
    requires Fits(list, raw)
    ensures |Join(list, TrimOws(raw))| <= MAX_TRACESTATE_BYTES
  {
    hide TrimLeft, TrimRight;
    RightShorter(TrimLeft(raw));
  }

  lemma {:induction false} CopyCons(line: ByteSeq, rest: seq<ByteSeq>, list: Option<ByteSeq>)
    requires WellFormedLine(line)
    ensures CopyLines([line] + rest, list) ==
            if !EqIgnoreCase(FieldName(line), TRACESTATE) then CopyLines(rest, list)
            else if |Join(list, FieldValue(line))| > MAX_TRACESTATE_BYTES then Failed(TooLong)
            else CopyLines(rest, Some(Join(list, FieldValue(line))))
  {
    hide CopyLines, WellFormedLine, FieldName, FieldValue, EqIgnoreCase, Join;
    var all := [line] + rest;
    assert all[0] == line && all[1..] == rest;
    CopyStep(all, list);
  }

  lemma {:induction false} CopiedNone(list: Option<ByteSeq>)
    ensures CopyLines([], list) == Copied(list)
  {}

  /** The field is recognised by both, given faithful hashes. */
  lemma {:induction false} SameRecognition(name: ByteSeq)
    requires TracestateName(name) ==> EqIgnoreCase(name, TRACESTATE)
    ensures TracestateName(name) <==> EqIgnoreCase(name, TRACESTATE)
  {
    hide FnvFold, EqIgnoreCase;
    NameHashes(name);
  }

  lemma {:induction false} FirstFaithful(lines: seq<ByteSeq>)
    requires lines != [] && FindByte(lines[0], COLON).Some?
    ensures NamesFaithful(lines) <==>
            (TracestateName(FieldName(lines[0])) ==> EqIgnoreCase(FieldName(lines[0]), TRACESTATE)) && NamesFaithful(lines[1..])
  {
    hide FindByte, FieldName, TracestateName, EqIgnoreCase;
    var rest := lines[1..];
    assert forall i | 0 < i < |lines| :: lines[i] == rest[i - 1];
    assert forall i | 0 <= i < |rest| :: rest[i] == lines[i + 1];
  }

  /** A copied section is one the host can split into lines. */
  lemma {:induction false} CopiedSection(s: ByteSeq, pos: nat, list: Option<ByteSeq>)
    requires pos <= |s| && ScanCopy(s, pos, list).Some?
    ensures HeaderLines(s[pos..]).Some?
    decreases |s| - pos
  {
    hide FindCrlf, HeaderLines, IsTokenByte, IsValueByte, ScanCopy, WellFormedLine, FieldName, FieldValue, TrimOws, TracestateName, Fits, Join;
    var n, v := CopiedStep(s, pos, list);
    if v == pos {
      FirstCrlf(s, pos, pos);
    } else {
      ScannedLine(s, pos, n, v);
      CopiedSection(s, v + 2, if TracestateName(s[pos..n]) then Some(Join(list, TrimOws(s[n + 1..v]))) else list);
    }
    NextLine(s[pos..]);
  }

  lemma {:induction false} LinesCopied(s: ByteSeq, pos: nat, list: Option<ByteSeq>)
    requires pos <= |s| && ScanCopy(s, pos, list).Some? && HeaderLines(s[pos..]).Some? && NamesFaithful(HeaderLines(s[pos..]).value.lines)
    ensures CopyLines(HeaderLines(s[pos..]).value.lines, list) == Copied(ScanCopy(s, pos, list))
    decreases |s| - pos
  {
    hide FindCrlf, FindByte, HeaderLines, IsTokenByte, IsValueByte, ScanCopy, CopyLines, WellFormedLine, FieldName, FieldValue, TrimOws,
      TracestateName, Fits, Join, EqIgnoreCase, NamesFaithful;
    var n, v := CopiedStep(s, pos, list);
    if v == pos {
      FirstCrlf(s, pos, pos);
      NextLine(s[pos..]);
      CopiedNone(list);
    } else {
      var rest := FirstLineOf(s, pos, n, v);
      var name, value := s[pos..n], TrimOws(s[n + 1..v]);
      CopyCons(s[pos..v], rest, list);
      SameRecognition(name);
      if TracestateName(name) {
        TrimmedFits(list, s[n + 1..v]);
      }
      LinesCopied(s, v + 2, if TracestateName(name) then Some(Join(list, value)) else list);
    }
  }

  /** The first line of a scanned section, to the host. */
  lemma {:induction false} FirstLineOf(s: ByteSeq, pos: nat, n: nat, v: nat) returns (rest: seq<ByteSeq>)
    requires pos < n < v && CrlfAt(s, v) && s[n] == COLON && HeaderLines(s[pos..]).Some?
    requires (forall j | pos <= j < n :: IsTokenByte(s[j])) && (forall j | n < j < v :: IsValueByte(s[j]))
    ensures HeaderLines(s[v + 2..]).Some? && rest == HeaderLines(s[v + 2..]).value.lines
    ensures HeaderLines(s[pos..]).value.lines == [s[pos..v]] + rest
    ensures WellFormedLine(s[pos..v]) && FieldName(s[pos..v]) == s[pos..n] && FieldValue(s[pos..v]) == TrimOws(s[n + 1..v])
    ensures NamesFaithful([s[pos..v]] + rest) <==>
            (TracestateName(s[pos..n]) ==> EqIgnoreCase(s[pos..n], TRACESTATE)) && NamesFaithful(rest)
  {
    hide FindCrlf, FindByte, HeaderLines, IsTokenByte, IsValueByte, WellFormedLine, FieldName, FieldValue, TrimOws, TracestateName, EqIgnoreCase,
      NamesFaithful;
    ScannedLine(s, pos, n, v);
    NextLine(s[pos..]);
    rest := HeaderLines(s[v + 2..]).value.lines;
    var lines := [s[pos..v]] + rest;
    assert lines[0] == s[pos..v] && lines[1..] == rest;
    ColonOf(s[pos..v]);
    FirstFaithful(lines);
  }

  lemma {:induction false} ColonOf(line: ByteSeq)
    requires WellFormedLine(line)
    ensures FindByte(line, COLON).Some?
  {}

  // ----- a name that only hashes like tracestate shows -----

  /** What a list weighs: every field adds the length of its value and one. */
  function Weight(list: Option<ByteSeq>): nat { match list case None => 0 case Some(bytes) => |bytes| + 1 }

  lemma {:induction false} JoinWeighs(list: Option<ByteSeq>, value: ByteSeq)
    ensures Weight(Some(Join(list, value))) == Weight(list) + |value| + 1
  {}

  /** The kernel side copies every field the host copies, and more if a name is mistaken. */
  lemma {:induction false} CopyWeighs(s: ByteSeq, pos: nat, list: Option<ByteSeq>, host: Option<ByteSeq>)
    requires pos <= |s| && ScanCopy(s, pos, list).Some? && HeaderLines(s[pos..]).Some? && Weight(host) <= Weight(list)
    requires CopyLines(HeaderLines(s[pos..]).value.lines, host).Copied?
    ensures var copied := CopyLines(HeaderLines(s[pos..]).value.lines, host).value;
            && Weight(copied) <= Weight(ScanCopy(s, pos, list))
            && (!NamesFaithful(HeaderLines(s[pos..]).value.lines) || Weight(host) < Weight(list) ==>
                  Weight(copied) < Weight(ScanCopy(s, pos, list)))
    decreases |s| - pos
  {
    hide FindCrlf, FindByte, HeaderLines, IsTokenByte, IsValueByte, ScanCopy, CopyLines, WellFormedLine, FieldName, FieldValue, TrimOws,
      TracestateName, Fits, Join, EqIgnoreCase, NamesFaithful, Weight;
    var n, v := CopiedStep(s, pos, list);
    if v == pos {
      FirstCrlf(s, pos, pos);
      NextLine(s[pos..]);
      CopiedNone(host);
      NoNames();
    } else {
      var rest := FirstLineOf(s, pos, n, v);
      var name, value := s[pos..n], TrimOws(s[n + 1..v]);
      CopyCons(s[pos..v], rest, host);
      Recognised(name);
      JoinWeighs(list, value);
      JoinWeighs(host, value);
      CopyWeighs(s, v + 2, if TracestateName(name) then Some(Join(list, value)) else list,
                 if EqIgnoreCase(name, TRACESTATE) then Some(Join(host, value)) else host);
    }
  }

  lemma {:induction false} NoNames()
    ensures NamesFaithful([])
  {}

  lemma {:induction false} Recognised(name: ByteSeq)
    ensures EqIgnoreCase(name, TRACESTATE) ==> TracestateName(name)
  {
    hide FnvFold, EqIgnoreCase;
    NameHashes(name);
  }

  /** A copied and accepted list is the host's list for the same request exactly if no other name hashes like tracestate. */
  lemma {:induction false} CopiesAgree(s: ByteSeq, start: nat)
    requires |s| <= HTTP_REQUEST_BYTES && ScanRequestLine(s) == Some(start) && start <= |s|
    requires ScanCopy(s, start, None).Some? && ScanTracestate(ScanCopy(s, start, None).value)
    ensures SplitHead(s).Ok?
    ensures TracestateOf(s) == Copied(ScanCopy(s, start, None)) <==> NamesFaithful(SplitHead(s).value.lines)
  {
    hide FindCrlf, HeaderLines, ScanRequestLine, ValidateRequestLine, ScanCopy, CopyLines, ScanTracestate, Verdict, NamesFaithful, Plain;
    AcceptedLine(s);
    CopiedSection(s, start, None);
    var lines := HeaderLines(s[start..]).value.lines;
    if NamesFaithful(lines) {
      LinesCopied(s, start, None);
      ValidatorsAgree(ScanCopy(s, start, None).value);
    } else if CopyLines(lines, None).Copied? {
      CopyWeighs(s, start, None, None);
    }
  }

  // ----- an accepted list can be sent on -----

  lemma {:induction false} MembersAreValue(s: ByteSeq, start: nat, masks: Masks, count: nat)
    requires start <= |s| && ScanMembers(s, start, masks, count)
    ensures forall j | start <= j < |s| :: IsValueByte(s[j])
    decreases |s| - start
  {
    hide ScanMembers, AcceptableValue, AcceptableKey, Noted, FnvFold;
    var k, e, v := ScannedMember(s, start, masks, count);
    if v < |s| {
      MembersAreValue(s, v + 1, Noted(masks, FnvFold(s[k..e])), count + 1);
    }
  }

  /** Every accepted list is a field value that a header line may carry. */
  lemma {:induction false} AcceptedIsFieldValue(value: ByteSeq)
    requires ScanTracestate(value)
    ensures ValidFieldValue(value)
  {
    hide ScanMembers;
    MembersAreValue(value, 0, NO_KEYS, 0);
  }

  /** Something, with no blank at either end. */
  ghost predicate Neat(list: ByteSeq) { list != [] && !IsOws(list[0]) && !IsOws(list[|list| - 1]) }

  lemma {:induction false} JoinedNeat(list: Option<ByteSeq>, raw: ByteSeq)
    requires Fits(list, raw) && (list.Some? ==> Neat(list.value))
    ensures Neat(Join(list, TrimOws(raw)))
  {
    hide TrimOws, TrimLeft, IsOws;
    var lo, hi := TrimFacts(raw);
    var n := TrimLeftFacts(raw);
    assert !AllOws(raw);
  }

  /** A copied list begins and ends with something other than a blank, however its fields were padded. */
  lemma {:induction false} CopiedNeat(s: ByteSeq, pos: nat, list: Option<ByteSeq>)
    requires pos <= |s| && ScanCopy(s, pos, list).Some? && (list.Some? ==> Neat(list.value))
    ensures Neat(ScanCopy(s, pos, list).value) && TrimOws(ScanCopy(s, pos, list).value) == ScanCopy(s, pos, list).value
    decreases |s| - pos
  {
    hide ScanCopy, TracestateName, Fits, Join, TrimOws, IsOws, IsTokenByte, IsValueByte;
    var n, v := CopiedStep(s, pos, list);
    if v == pos {
      TrimIs(list.value, 0, |list.value|);
      assert list.value[0..|list.value|] == list.value;
    } else if TracestateName(s[pos..n]) {
      JoinedNeat(list, s[n + 1..v]);
      CopiedNeat(s, v + 2, Some(Join(list, TrimOws(s[n + 1..v]))));
    } else {
      CopiedNeat(s, v + 2, list);
    }
  }
}
