/**
  The kernel-side copy of a request's tracestate: one pass over the header section, collecting the
  values of all fields whose name hashes like tracestate. It computes exactly `ScanCopy`.
 */
module BpfTracestateCopy {
  import opened Bytes
  import opened Ows
  import opened Fnv
  import opened Tracestate
  import opened TracestateCopy
  import opened BpfScan
  import opened BpfHeaders

  predicate TracestateName(name: ByteSeq) { |name| == 10 && FnvFold(Lower(name)) == TRACESTATE_HASH }

  /** Blanks at the end of a value take up room while they are read. */
  predicate Fits(list: Option<ByteSeq>, raw: ByteSeq)
  {
    TrimLeft(raw) != [] && |Join(list, TrimLeft(raw))| <= MAX_TRACESTATE_BYTES
  }

  /** The list collected from the header section at `pos`, given the list so far. */
  function ScanCopy(s: ByteSeq, pos: nat, list: Option<ByteSeq>): Option<ByteSeq>
    requires pos <= |s|
    decreases |s| - pos
  {
    var n := TokenEnd(s, pos);
    if n == |s| then None
    else if s[n] == CR then if n == pos && CrlfAt(s, n) then list else None
    else if s[n] != COLON || n == pos then None
    else
      var v := ValueEnd(s, n + 1);
      if !CrlfAt(s, v) then None
      else if !TracestateName(s[pos..n]) then ScanCopy(s, v + 2, list)
      else if !Fits(list, s[n + 1..v]) then None
      else ScanCopy(s, v + 2, Some(Join(list, TrimOws(s[n + 1..v]))))
  }

  // ----- what a line decides -----

  lemma {:induction false} CopyLine(s: ByteSeq, pos: nat, n: nat, list: Option<ByteSeq>)
    requires pos < n < |s| && s[n] == COLON && forall j | pos <= j < n :: IsTokenByte(s[j])
    ensures var v := ValueEnd(s, n + 1);
            ScanCopy(s, pos, list) ==
            if !CrlfAt(s, v) then None
            else if !TracestateName(s[pos..n]) then ScanCopy(s, v + 2, list)
            else if !Fits(list, s[n + 1..v]) then None
            else ScanCopy(s, v + 2, Some(Join(list, TrimOws(s[n + 1..v]))))
  {
    hide IsTokenByte, TokenEnd, ValueEnd, TracestateName, Fits, Join, TrimOws;
    ColonIsNoToken();
    TokenRun(s, pos, n);
  }

  lemma {:induction false} CopyRefused(s: ByteSeq, pos: nat, i: nat, list: Option<ByteSeq>)
    requires pos <= i <= |s| && forall j | pos <= j < i :: IsTokenByte(s[j])
    requires i == |s| || (!IsTokenByte(s[i]) && s[i] != COLON && s[i] != CR) || (i == pos && s[i] == COLON) || (i != pos && s[i] == CR)
    ensures ScanCopy(s, pos, list).None?
  {
    hide IsTokenByte, TokenEnd, ValueEnd, TracestateName, Fits, Join, TrimOws;
    ColonIsNoToken();
    TokenRun(s, pos, i);
  }

  lemma {:induction false} CopyBlank(s: ByteSeq, pos: nat, list: Option<ByteSeq>)
    requires pos < |s| && s[pos] == CR
    ensures ScanCopy(s, pos, list) == if CrlfAt(s, pos) then list else None
  {
    hide IsTokenByte, TokenEnd, ValueEnd, TracestateName, Fits, Join, TrimOws;
    ColonIsNoToken();
    TokenRun(s, pos, pos);
  }

  /** A value that is unfinished or contains a byte it may not. */
  lemma {:induction false} ValueRefused(s: ByteSeq, pos: nat, n: nat, i: nat, list: Option<ByteSeq>)
    requires pos < n < i <= |s| && s[n] == COLON && forall j | pos <= j < n :: IsTokenByte(s[j])
    requires (forall j | n < j < i :: IsValueByte(s[j])) && (i == |s| || (!IsValueByte(s[i]) && s[i] != CR))
    ensures ScanCopy(s, pos, list).None?
  {
    hide IsTokenByte, IsValueByte, ValueEnd, ScanCopy, TracestateName, Fits;
    CopyLine(s, pos, n, list);
    ValueRun(s, n + 1, i);
  }

  /** A value that has grown too long stays too long. */
  lemma {:induction false} TooLongRefused(s: ByteSeq, pos: nat, n: nat, i: nat, list: Option<ByteSeq>)
    requires pos < n < i <= |s| && s[n] == COLON && forall j | pos <= j < n :: IsTokenByte(s[j])
    requires (forall j | n < j < i :: IsValueByte(s[j])) && TracestateName(s[pos..n])
    requires TrimLeft(s[n + 1..i]) != [] && |Join(list, TrimLeft(s[n + 1..i]))| > MAX_TRACESTATE_BYTES
    ensures ScanCopy(s, pos, list).None?
  {
    hide IsTokenByte, IsValueByte, ValueEnd, ScanCopy, TracestateName, TrimLeft;
    CopyLine(s, pos, n, list);
    ValueExtends(s, n, i);
    LeftGrows(s[n + 1..i], s[n + 1..ValueEnd(s, n + 1)]);
  }

  lemma {:induction false} LeftGrows(p: ByteSeq, v: ByteSeq)
    requires p <= v && TrimLeft(p) != []
    ensures |TrimLeft(p)| <= |TrimLeft(v)|
  {
    hide TrimLeft;
    var n := TrimLeftFacts(p);
    var m := TrimLeftFacts(v);
    assert forall i | 0 <= i < |p| :: v[i] == p[i];
    assert m == n;
  }

  lemma {:induction false} LeftAppend(v: ByteSeq, b: Byte)
    ensures TrimLeft(v + [b]) == if TrimLeft(v) == [] && IsOws(b) then [] else TrimLeft(v) + [b]
  {
    hide TrimLeft;
    var t := v + [b];
    var n := TrimLeftFacts(v);
    var m := TrimLeftFacts(t);
    assert forall i | 0 <= i < |v| :: t[i] == v[i];
    assert t[|v|] == b;
    if n < |v| {
      assert m == n;
      assert t[n..] == v[n..] + [b];
    } else if IsOws(b) {
      assert m == |t|;
    } else {
      assert m == |v|;
      assert t[m..] == [b];
    }
  }

  lemma {:induction false} RightAppend(v: ByteSeq, b: Byte)
    ensures TrimRight(v + [b]) == if IsOws(b) then TrimRight(v) else v + [b]
  {
    assert (v + [b])[..|v|] == v;
  }

  lemma {:induction false} RightShorter(v: ByteSeq)
    ensures |TrimRight(v)| <= |v| && TrimRight(v) == v[..|TrimRight(v)|]
  {
    hide TrimRight;
    var n := TrimRightFacts(v);
  }

  // ----- the automaton's state -----

  datatype CopyPhase = Name | Value | LineFeed

  /** `BpfInboundTracestateState`; `bytes` is the filled part of the output buffer. */
  datatype CopyState = CopyState(
    hash: Hash, componentLen: nat, bytes: ByteSeq, trailingOws: nat, phase: CopyPhase,
    endingHeaders: bool, capture: bool, valueStarted: bool, sawTracestate: bool, invalid: bool)

  const INITIAL_COPY := CopyState(FNV_OFFSET, 0, [], 0, Name, false, false, false, false, false)

  /** Where the current line starts, where its name ended, and the list before it. */
  datatype Place = Place(pos: nat, mark: nat, list: Option<ByteSeq>)

  ghost predicate HasList(a: CopyState, list: Option<ByteSeq>)
  {
    && (a.sawTracestate <==> list.Some?) && |a.bytes| <= MAX_TRACESTATE_BYTES
    && a.bytes == if list.Some? then list.value else []
  }

  ghost predicate NameDone(s: ByteSeq, g: Place)
  {
    g.pos < g.mark < |s| && s[g.mark] == COLON && forall j | g.pos <= j < g.mark :: IsTokenByte(s[j])
  }

  /** The part of a captured value read so far is in the buffer. */
  ghost predicate Capturing(a: CopyState, list: Option<ByteSeq>, raw: ByteSeq)
  {
    var v := TrimLeft(raw);
    && (a.valueStarted <==> v != [])
    && if v == [] then HasList(a, list)
       else
         && (a.sawTracestate <==> list.Some?) && a.bytes == Join(list, v) && |a.bytes| <= MAX_TRACESTATE_BYTES
         && a.trailingOws == |v| - |TrimRight(v)|
  }

  ghost predicate Tracks(s: ByteSeq, a: CopyState, g: Place, i: nat)
  {
    && g.pos <= i <= |s|
    && match a.phase
       case Name =>
         && HasList(a, g.list) && (forall j | g.pos <= j < i :: IsTokenByte(s[j]))
         && a.componentLen == i - g.pos && a.hash == FnvFold(Lower(s[g.pos..i])) && !a.capture
       case Value =>
         && NameDone(s, g) && g.mark < i && (forall j | g.mark < j < i :: IsValueByte(s[j]))
         && (a.capture <==> TracestateName(s[g.pos..g.mark]))
         && (if a.capture then Capturing(a, g.list, s[g.mark + 1..i]) else HasList(a, g.list))
       case LineFeed =>
         // The line's own list is already in place; only the line feed is missing.
         HasList(a, g.list) && 0 < i && (a.endingHeaders ==> g.pos == i - 1)
  }

  /** What is still to be decided. */
  ghost function Rest(s: ByteSeq, a: CopyState, g: Place, i: nat): Option<ByteSeq>
    requires Tracks(s, a, g, i)
  {
    if a.phase != LineFeed then ScanCopy(s, g.pos, g.list)
    else if i == |s| || s[i] != LF then None
    else if a.endingHeaders then g.list else ScanCopy(s, i + 1, g.list)
  }

  ghost predicate Follows(s: ByteSeq, start: nat, a: CopyState, g: Place, i: nat)
    requires start <= |s|
  {
    if a.invalid then i <= |s| && ScanCopy(s, start, None).None?
    else Tracks(s, a, g, i) && ScanCopy(s, start, None) == Rest(s, a, g, i)
  }

  // ----- the steps -----

  /** One byte of a captured value. */
  method CaptureByte(a: CopyState, byte: Byte, ghost list: Option<ByteSeq>, ghost raw: ByteSeq) returns (r: CopyState)
    requires Capturing(a, list, raw) && !a.invalid
    ensures r == a.(bytes := r.bytes, trailingOws := r.trailingOws, valueStarted := r.valueStarted, invalid := r.invalid)
    ensures r.invalid <==> TrimLeft(raw + [byte]) != [] && |Join(list, TrimLeft(raw + [byte]))| > MAX_TRACESTATE_BYTES
    ensures !r.invalid ==> Capturing(r, list, raw + [byte])
  {
    hide TrimLeft, TrimRight, IsOws;
    LeftAppend(raw, byte);
    ghost var v := TrimLeft(raw);
    RightAppend(v, byte);
    RightShorter(v);
    var ows := IsOws(byte);
    r := a;
    if !a.valueStarted && ows {
      return;
    }
    if !a.valueStarted {
      if a.sawTracestate {
        if |a.bytes| >= MAX_TRACESTATE_BYTES {
          r := r.(invalid := true);
          return;
        }
        r := r.(bytes := r.bytes + [COMMA]);
      }
      r := r.(valueStarted := true);
      NoRight();
    }
    if |r.bytes| >= MAX_TRACESTATE_BYTES {
      r := r.(invalid := true);
      return;
    }
    r := r.(bytes := r.bytes + [byte], trailingOws := if ows then a.trailingOws + 1 else 0);
  }

  lemma {:induction false} NoRight()
    ensures TrimRight([]) == []
  {}

  /** A byte of a name, the colon after it, or the CR of the blank line. */
  method CopyNameStep(s: ByteSeq, start: nat, a: CopyState, ghost g: Place, index: nat) returns (ok: bool, r: CopyState, ghost h: Place)
    requires start <= |s| && Follows(s, start, a, g, index) && a.phase == Name && !a.invalid && index < |s|
    ensures if ok then Follows(s, start, r, h, index + 1) else ScanCopy(s, start, None).None?
  {
    hide ScanCopy, IsTokenByte, IsValueByte, FnvFold, FnvStep, TracestateName, TrimLeft, TrimRight, Join;
    r, h, ok := a, g, true;
    var byte := s[index];
    ColonIsNoToken();
    if byte == CR {
      if a.componentLen != 0 {
        CopyRefused(s, g.pos, index, g.list);
        return false, a, g;
      }
      CopyBlank(s, index, g.list);
      r := r.(endingHeaders := true, phase := LineFeed);
    } else if byte == COLON {
      if a.componentLen == 0 {
        CopyRefused(s, g.pos, index, g.list);
        return false, a, g;
      }
      h := g.(mark := index);
      NameMatches(s[g.pos..index]);
      r := r.(capture := a.componentLen == 10 && a.hash == TRACESTATE_HASH, phase := Value, valueStarted := false, trailingOws := 0);
      assert s[index + 1..index + 1] == [];
      NothingLeft();
    } else {
      if !IsTokenByte(byte) {
        CopyRefused(s, g.pos, index, g.list);
        return false, a, g;
      }
      Consumed(s, g.pos, index);
      LowerAppend(s[g.pos..index], byte);
      HashAppend(Lower(s[g.pos..index]), LowerByte(byte));
      r := r.(hash := FnvStep(a.hash, LowerByte(byte)), componentLen := a.componentLen + 1);
    }
  }

  lemma {:induction false} NameMatches(name: ByteSeq)
    ensures TracestateName(name) <==> |name| == 10 && FnvFold(Lower(name)) == TRACESTATE_HASH
  {}

  lemma {:induction false} NothingLeft()
    ensures TrimLeft([]) == []
  {}

  /** The end of a line, seen from its CR at `v`. */
  lemma {:induction false} LineEnds(s: ByteSeq, g: Place, v: nat)
    requires NameDone(s, g) && g.mark < v < |s| && s[v] == CR && forall j | g.mark < j < v :: IsValueByte(s[j])
    ensures ScanCopy(s, g.pos, g.list) ==
            if v + 1 == |s| || s[v + 1] != LF then None
            else if !TracestateName(s[g.pos..g.mark]) then ScanCopy(s, v + 2, g.list)
            else if !Fits(g.list, s[g.mark + 1..v]) then None
            else ScanCopy(s, v + 2, Some(Join(g.list, TrimOws(s[g.mark + 1..v]))))
  {
    hide ScanCopy, IsTokenByte, IsValueByte, ValueEnd, TracestateName, Fits, Join, TrimOws;
    ColonIsNoToken();
    CopyLine(s, g.pos, g.mark, g.list);
    ValueRun(s, g.mark + 1, v);
  }

  /** Dropping the blanks at the end leaves the joined list. */
  lemma {:induction false} JoinTrimmed(list: Option<ByteSeq>, raw: ByteSeq)
    ensures var v := TrimLeft(raw); var all := Join(list, v);
            |TrimRight(v)| <= |v| <= |all| && all[..|all| - (|v| - |TrimRight(v)|)] == Join(list, TrimOws(raw))
  {
    hide TrimLeft, TrimRight;
    RightShorter(TrimLeft(raw));
  }

  method CopyValueStep(s: ByteSeq, start: nat, a: CopyState, ghost g: Place, index: nat) returns (ok: bool, r: CopyState, ghost h: Place)
    requires start <= |s| && Follows(s, start, a, g, index) && a.phase == Value && !a.invalid && index < |s|
    ensures if ok then Follows(s, start, r, h, index + 1) else ScanCopy(s, start, None).None?
  {
    hide ScanCopy, IsTokenByte, IsValueByte, FnvFold, TracestateName, TrimLeft, TrimRight, Join;
    r, h, ok := a, g, true;
    var byte := s[index];
    ghost var raw := s[g.mark + 1..index];
    ColonIsNoToken();
    if byte == CR {
      LineEnds(s, g, index);
      if a.capture {
        JoinTrimmed(g.list, raw);
        if !a.valueStarted {
          r := r.(invalid := true);
        } else {
          r := r.(bytes := a.bytes[..|a.bytes| - a.trailingOws], sawTracestate := true);
          h := g.(list := Some(Join(g.list, TrimOws(raw))));
        }
      }
      r := r.(endingHeaders := false, phase := LineFeed);
    } else {
      if !IsValueByte(byte) {
        ValueRefused(s, g.pos, g.mark, index, g.list);
        return false, a, g;
      }
      Consumed(s, g.mark + 1, index);
      if a.capture {
        r := CaptureByte(a, byte, g.list, raw);
        if r.invalid {
          TooLongRefused(s, g.pos, g.mark, index + 1, g.list);
        }
      }
    }
  }

  method CopyLineFeedStep(s: ByteSeq, start: nat, a: CopyState, ghost g: Place, index: nat) returns (result: PlanResult, r: CopyState, ghost h: Place)
    requires start <= |s| && Follows(s, start, a, g, index) && a.phase == LineFeed && !a.invalid && index < |s|
    ensures result == Pending ==> Follows(s, start, r, h, index + 1) && !r.invalid
    ensures result == Valid ==> HasList(r, ScanCopy(s, start, None)) && !r.invalid
    ensures result == Refused ==> ScanCopy(s, start, None).None?
  {
    hide ScanCopy, IsTokenByte, FnvFold;
    r, h := a, g;
    if s[index] != LF {
      return Refused, a, g;
    }
    if a.endingHeaders {
      return Valid, a, g;
    }
    h := Place(index + 1, index + 1, g.list);
    r := r.(phase := Name, componentLen := 0, hash := FNV_OFFSET, capture := false);
    assert s[index + 1..index + 1] == [];
    HashEmpty();
    result := Pending;
  }

  class CopyAutomaton {
    const request: ByteSeq
    const start: nat

    var state: CopyState
    ghost var place: Place

    constructor (request: ByteSeq, start: nat)
      requires start <= |request|
      ensures this.request == request && this.start == start && At(start)
    {
      this.request, this.start := request, start;
      state, place := INITIAL_COPY, Place(start, start, None);
      assert request[start..start] == [];
      HashEmpty();
    }

    ghost predicate At(i: nat)
      reads this
    {
      start <= |request| && Follows(request, start, state, place, i)
    }

    /** `Valid` at the end of the section: the buffer holds the list, if there is one. */
    method Step(index: nat) returns (result: PlanResult)
      requires At(index) && !state.invalid && index < |request|
      modifies this
      ensures start <= |request|
      ensures match result
              case Pending => At(index + 1)
              case Valid => HasList(state, ScanCopy(request, start, None)) && !state.invalid
              case Refused => ScanCopy(request, start, None).None?
    {
      hide Follows, ScanCopy, HasList;
      var ok;
      match state.phase
      case Name =>
        ok, state, place := CopyNameStep(request, start, state, place, index);
        result := if ok then Pending else Refused;
      case Value =>
        ok, state, place := CopyValueStep(request, start, state, place, index);
        result := if ok then Pending else Refused;
      case LineFeed => result, state, place := CopyLineFeedStep(request, start, state, place, index);
    }
  }

  lemma {:induction false} Unfinished(s: ByteSeq, start: nat, a: CopyState, g: Place)
    requires start <= |s| && Follows(s, start, a, g, |s|)
    ensures ScanCopy(s, start, None).None?
  {
    hide ScanCopy, IsTokenByte, IsValueByte, FnvFold, TracestateName, Capturing;
    if !a.invalid {
      match a.phase
      case Name => CopyRefused(s, g.pos, |s|, g.list);
      case Value => ValueRefused(s, g.pos, g.mark, |s|, g.list);
      case LineFeed =>
    }
  }

  /** The collected list, or none. Nothing clears `invalid`, so a list that is invalid once is given up. */
  method RunCopy(request: ByteSeq, start: nat) returns (list: Option<ByteSeq>)
    requires start <= |request|
    ensures list == ScanCopy(request, start, None)
  {
    hide Follows, ScanCopy;
    var automaton := new CopyAutomaton(request, start);
    var index := start;
    var result := Pending;
    while index < |request| && result == Pending && !automaton.state.invalid
      invariant start <= index <= |request|
      invariant automaton.request == request && automaton.start == start
      invariant match result
                case Pending => automaton.At(index)
                case Valid => HasList(automaton.state, ScanCopy(request, start, None)) && !automaton.state.invalid
                case Refused => ScanCopy(request, start, None).None?
    {
      result := automaton.Step(index);
      index := index + 1;
    }
    if result == Valid && automaton.state.sawTracestate {
      return Some(automaton.state.bytes);
    }
    if result == Pending {
      InvalidOrUnfinished(request, start, automaton.state, automaton.place, index);
    }
    list := None;
  }

  lemma {:induction false} InvalidOrUnfinished(s: ByteSeq, start: nat, a: CopyState, g: Place, i: nat)
    requires start <= |s| && Follows(s, start, a, g, i) && (i == |s| || a.invalid)
    ensures ScanCopy(s, start, None).None?
  {
    hide ScanCopy;
    if !a.invalid {
      Unfinished(s, start, a, g);
    }
  }
}
