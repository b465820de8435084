/**
  The kernel-side reading of an inbound request's traceparent: one pass over the header section to
  find the field, then one over its fifty-five bytes.
 */
module BpfTraceparent {
  import opened Bytes
  import opened Ows
  import opened TraceContext
  import opened BpfScan
  import opened BpfHeaders
  import opened BpfTracestateCopy

  const VALUE_BYTES: nat := 55

  predicate TraceparentName(name: ByteSeq) { Lower(name) == TRACEPARENT }

  /** Where the value proper begins within a field. */
  function Lead(raw: ByteSeq): int { |raw| - |TrimLeft(raw)| }

  /** Where the value of the only traceparent field starts, given what was found before `pos`. */
  function ScanTraceparent(s: ByteSeq, pos: nat, found: Option<int>): Option<int>
    requires pos <= |s|
    decreases |s| - pos
  {
    var n := TokenEnd(s, pos);
    if n == |s| then None
    else if s[n] == CR then if n == pos && CrlfAt(s, n) then found else None
    else if s[n] != COLON || n == pos then None
    else
      var v := ValueEnd(s, n + 1);
      if !CrlfAt(s, v) then None
      else if !TraceparentName(s[pos..n]) then ScanTraceparent(s, v + 2, found)
      else if found.Some? || |TrimOws(s[n + 1..v])| != VALUE_BYTES then None
      else ScanTraceparent(s, v + 2, Some(n + 1 + Lead(s[n + 1..v])))
  }

  // ----- what a line decides -----

  lemma {:induction false} FieldLine(s: ByteSeq, pos: nat, n: nat, found: Option<int>)
    requires pos < n < |s| && s[n] == COLON && forall j | pos <= j < n :: IsTokenByte(s[j])
    ensures var v := ValueEnd(s, n + 1);
            ScanTraceparent(s, pos, found) ==
            if !CrlfAt(s, v) then None
            else if !TraceparentName(s[pos..n]) then ScanTraceparent(s, v + 2, found)
            else if found.Some? || |TrimOws(s[n + 1..v])| != VALUE_BYTES then None
            else ScanTraceparent(s, v + 2, Some(n + 1 + Lead(s[n + 1..v])))
  {
    hide IsTokenByte, TokenEnd, ValueEnd, TraceparentName, TrimOws, Lead;
    ColonIsNoToken();
    TokenRun(s, pos, n);
  }

  lemma {:induction false} LineRefused(s: ByteSeq, pos: nat, i: nat, found: Option<int>)
    requires pos <= i <= |s| && forall j | pos <= j < i :: IsTokenByte(s[j])
    requires i == |s| || (!IsTokenByte(s[i]) && s[i] != COLON && s[i] != CR) || (i == pos && s[i] == COLON) || (i != pos && s[i] == CR)
    ensures ScanTraceparent(s, pos, found).None?
  {
    hide IsTokenByte, TokenEnd, ValueEnd, TraceparentName, TrimOws, Lead;
    ColonIsNoToken();
    TokenRun(s, pos, i);
  }

  lemma {:induction false} SectionEnd(s: ByteSeq, pos: nat, found: Option<int>)
    requires pos < |s| && s[pos] == CR
    ensures ScanTraceparent(s, pos, found) == if CrlfAt(s, pos) then found else None
  {
    hide IsTokenByte, TokenEnd, ValueEnd, TraceparentName, TrimOws, Lead;
    ColonIsNoToken();
    TokenRun(s, pos, pos);
  }

  lemma {:induction false} BadValue(s: ByteSeq, pos: nat, n: nat, i: nat, found: Option<int>)
    requires pos < n < i <= |s| && s[n] == COLON && forall j | pos <= j < n :: IsTokenByte(s[j])
    requires (forall j | n < j < i :: IsValueByte(s[j])) && (i == |s| || (!IsValueByte(s[i]) && s[i] != CR))
    ensures ScanTraceparent(s, pos, found).None?
  {
    hide IsTokenByte, IsValueByte, ValueEnd, ScanTraceparent, TraceparentName, TrimOws, Lead;
    FieldLine(s, pos, n, found);
    ValueRun(s, n + 1, i);
  }

  lemma {:induction false} Repeated(s: ByteSeq, pos: nat, n: nat, found: Option<int>)
    requires pos < n < |s| && s[n] == COLON && forall j | pos <= j < n :: IsTokenByte(s[j])
    requires TraceparentName(s[pos..n]) && found.Some?
    ensures ScanTraceparent(s, pos, found).None?
  {
    hide IsTokenByte, ValueEnd, ScanTraceparent, TraceparentName, TrimOws, Lead;
    FieldLine(s, pos, n, found);
  }

  lemma {:induction false} FieldEnds(s: ByteSeq, pos: nat, n: nat, v: nat, found: Option<int>)
    requires pos < n < v < |s| && s[n] == COLON && s[v] == CR
    requires (forall j | pos <= j < n :: IsTokenByte(s[j])) && forall j | n < j < v :: IsValueByte(s[j])
    ensures ScanTraceparent(s, pos, found) ==
            if v + 1 == |s| || s[v + 1] != LF then None
            else if !TraceparentName(s[pos..n]) then ScanTraceparent(s, v + 2, found)
            else if found.Some? || |TrimOws(s[n + 1..v])| != VALUE_BYTES then None
            else ScanTraceparent(s, v + 2, Some(n + 1 + Lead(s[n + 1..v])))
  {
    hide IsTokenByte, IsValueByte, ValueEnd, ScanTraceparent, TraceparentName, TrimOws, Lead;
    ColonIsNoToken();
    FieldLine(s, pos, n, found);
    ValueRun(s, n + 1, v);
  }

  // ----- the automaton -----

  datatype FieldPhase = InName | InValue | AtLf

  datatype FieldState = FieldState(
    componentLen: nat, valueLen: nat, significantLen: nat, valueStart: int, traceparentAt: int, phase: FieldPhase,
    endingHeaders: bool, traceparentName: bool, capture: bool, valueStarted: bool, sawTraceparent: bool, invalid: bool)

  const INITIAL_FIELD := FieldState(0, 0, 0, 0, 0, InName, false, true, false, false, false, false)

  /** Where the current line starts, where its name ended, and what was found before it. */
  datatype FieldPlace = FieldPlace(pos: nat, mark: nat, found: Option<int>)

  ghost predicate Found(a: FieldState, found: Option<int>)
  {
    (a.sawTraceparent <==> found.Some?) && (found.Some? ==> a.traceparentAt == found.value)
  }

  ghost predicate Measured(a: FieldState, g: FieldPlace, raw: ByteSeq)
  {
    var v := TrimLeft(raw);
    && (a.valueStarted <==> v != []) && a.valueLen == |v| && a.significantLen == |TrimRight(v)|
    && (v != [] ==> a.valueStart == g.mark + 1 + |raw| - |v|)
  }

  ghost predicate FieldTracks(s: ByteSeq, a: FieldState, g: FieldPlace, i: nat)
  {
    && g.pos <= i <= |s| && Found(a, g.found)
    && match a.phase
       case InName =>
         && (forall j | g.pos <= j < i :: IsTokenByte(s[j])) && a.componentLen == i - g.pos
         && (a.traceparentName <==> Lower(s[g.pos..i]) <= TRACEPARENT)
       case InValue =>
         && g.pos < g.mark < i && s[g.mark] == COLON && (forall j | g.pos <= j < g.mark :: IsTokenByte(s[j]))
         && (forall j | g.mark < j < i :: IsValueByte(s[j]))
         && (a.capture <==> TraceparentName(s[g.pos..g.mark]))
         && (a.capture ==> g.found.None? && Measured(a, g, s[g.mark + 1..i]))
       case AtLf => 0 < i && (a.endingHeaders ==> g.pos == i - 1)
  }

  ghost function FieldRest(s: ByteSeq, a: FieldState, g: FieldPlace, i: nat): Option<int>
    requires FieldTracks(s, a, g, i)
  {
    if a.phase != AtLf then ScanTraceparent(s, g.pos, g.found)
    else if i == |s| || s[i] != LF then None
    else if a.endingHeaders then g.found else ScanTraceparent(s, i + 1, g.found)
  }

  ghost predicate FieldFollows(s: ByteSeq, start: nat, a: FieldState, g: FieldPlace, i: nat)
    requires start <= |s|
  {
    if a.invalid then i <= |s| && ScanTraceparent(s, start, None).None?
    else FieldTracks(s, a, g, i) && ScanTraceparent(s, start, None) == FieldRest(s, a, g, i)
  }

  method FieldNameStep(s: ByteSeq, start: nat, a: FieldState, ghost g: FieldPlace, index: nat)
    returns (ok: bool, r: FieldState, ghost h: FieldPlace)
    requires start <= |s| && FieldFollows(s, start, a, g, index) && a.phase == InName && !a.invalid && index < |s|
    ensures if ok then FieldFollows(s, start, r, h, index + 1) else ScanTraceparent(s, start, None).None?
  {
    hide ScanTraceparent, IsTokenByte, IsValueByte, Measured, Lower, TraceparentName;
    r, h, ok := a, g, true;
    var byte := s[index];
    ColonIsNoToken();
    if byte == CR {
      if a.componentLen != 0 {
        LineRefused(s, g.pos, index, g.found);
        return false, a, g;
      }
      SectionEnd(s, index, g.found);
      r := r.(endingHeaders := true, phase := AtLf);
    } else if byte == COLON {
      if a.componentLen == 0 {
        LineRefused(s, g.pos, index, g.found);
        return false, a, g;
      }
      r, h := FieldColon(s, start, a, g, index);
    } else {
      if !IsTokenByte(byte) {
        LineRefused(s, g.pos, index, g.found);
        return false, a, g;
      }
      Consumed(s, g.pos, index);
      var named := NameByte(a.traceparentName, a.componentLen, byte, s[g.pos..index]);
      r := r.(traceparentName := named, componentLen := a.componentLen + 1);
    }
  }

  /** The colon after a name; a second traceparent field spoils the first. */
  method FieldColon(s: ByteSeq, start: nat, a: FieldState, ghost g: FieldPlace, index: nat) returns (r: FieldState, ghost h: FieldPlace)
    requires start <= |s| && FieldFollows(s, start, a, g, index) && a.phase == InName && !a.invalid && index < |s|
    requires s[index] == COLON && a.componentLen != 0
    ensures FieldFollows(s, start, r, h, index + 1)
  {
    hide ScanTraceparent, IsTokenByte, IsValueByte, TrimLeft, TrimRight, Lower, TraceparentName;
    h := g.(mark := index);
    WholeName(s[g.pos..index]);
    r := a.(capture := a.componentLen == 11 && a.traceparentName, phase := InValue, valueStarted := false, valueLen := 0, significantLen := 0);
    if r.capture && a.sawTraceparent {
      Repeated(s, g.pos, index, g.found);
      r := r.(invalid := true);
    }
    assert s[index + 1..index + 1] == [];
    NothingLeft();
    NoRight();
  }

  /** Does the name still agree with the letters of traceparent? */
  method NameByte(sofar: bool, len: nat, byte: Byte, ghost name: ByteSeq) returns (named: bool)
    requires IsTokenByte(byte) && |name| == len && (sofar <==> Lower(name) <= TRACEPARENT)
    ensures named <==> Lower(name + [byte]) <= TRACEPARENT
  {
    hide IsTokenByte, LowerByte;
    LowerAppend(name, byte);
    PrefixAppend(Lower(name), LowerByte(byte), TRACEPARENT);
    NoZeroName(byte);
    var expected := if len < 11 then TRACEPARENT[len] else 0;
    named := sofar && LowerByte(byte) == expected;
  }

  lemma {:induction false} NoZeroName(b: Byte)
    requires IsTokenByte(b)
    ensures LowerByte(b) != 0
  {}

  lemma {:induction false} WholeName(name: ByteSeq)
    ensures TraceparentName(name) <==> |name| == 11 && Lower(name) <= TRACEPARENT
  {
    assert |Lower(name)| == |name|;
    if |name| == 11 && Lower(name) <= TRACEPARENT {
      assert TRACEPARENT[..11] == TRACEPARENT;
    }
  }

  method FieldValueStep(s: ByteSeq, start: nat, a: FieldState, ghost g: FieldPlace, index: nat)
    returns (ok: bool, r: FieldState, ghost h: FieldPlace)
    requires start <= |s| && FieldFollows(s, start, a, g, index) && a.phase == InValue && !a.invalid && index < |s|
    ensures if ok then FieldFollows(s, start, r, h, index + 1) else ScanTraceparent(s, start, None).None?
  {
    hide ScanTraceparent, IsTokenByte, IsValueByte, TraceparentName, TrimLeft, TrimRight, IsOws;
    r, h, ok := a, g, true;
    var byte := s[index];
    ghost var raw := s[g.mark + 1..index];
    ColonIsNoToken();
    if byte == CR {
      FieldEnds(s, g.pos, g.mark, index, g.found);
      if a.capture {
        NoRight();
        if !a.valueStarted || a.significantLen != VALUE_BYTES {
          r := r.(invalid := true);
        } else {
          h := g.(found := Some(a.valueStart));
        }
        r := r.(traceparentAt := a.valueStart, sawTraceparent := true);
      }
      r := r.(endingHeaders := false, phase := AtLf);
    } else {
      if !IsValueByte(byte) {
        BadValue(s, g.pos, g.mark, index, g.found);
        return false, a, g;
      }
      if a.capture {
        r := FieldValueByte(s, start, a, g, index);
      }
    }
  }

  method FieldValueByte(s: ByteSeq, start: nat, a: FieldState, ghost g: FieldPlace, index: nat) returns (r: FieldState)
    requires start <= |s| && FieldFollows(s, start, a, g, index) && a.phase == InValue && !a.invalid && index < |s|
    requires a.capture && s[index] != CR && IsValueByte(s[index])
    ensures FieldFollows(s, start, r, g, index + 1)
  {
    hide ScanTraceparent, IsTokenByte, IsValueByte, TraceparentName, TrimLeft, TrimRight, IsOws;
    ghost var raw := s[g.mark + 1..index];
    Consumed(s, g.mark + 1, index);
    LeftAppend(raw, s[index]);
    RightAppend(TrimLeft(raw), s[index]);
    NoRight();
    r := a;
    var ows := IsOws(s[index]);
    if a.valueStarted || !ows {
      if !a.valueStarted {
        r := r.(valueStarted := true, valueStart := index);
      }
      r := r.(valueLen := a.valueLen + 1);
      if !ows {
        r := r.(significantLen := r.valueLen);
      }
    }
  }

  method FieldLfStep(s: ByteSeq, start: nat, a: FieldState, ghost g: FieldPlace, index: nat)
    returns (result: PlanResult, r: FieldState, ghost h: FieldPlace)
    requires start <= |s| && FieldFollows(s, start, a, g, index) && a.phase == AtLf && !a.invalid && index < |s|
    ensures result == Pending ==> FieldFollows(s, start, r, h, index + 1)
    ensures result == Valid ==> Found(r, ScanTraceparent(s, start, None)) && !r.invalid
    ensures result == Refused ==> ScanTraceparent(s, start, None).None?
  {
    hide ScanTraceparent, IsTokenByte;
    r, h := a, g;
    if s[index] != LF {
      return Refused, a, g;
    }
    if a.endingHeaders {
      return Valid, a, g;
    }
    h := FieldPlace(index + 1, index + 1, g.found);
    r := r.(phase := InName, componentLen := 0, traceparentName := true, capture := false);
    assert s[index + 1..index + 1] == [];
    assert Lower([]) <= TRACEPARENT;
    result := Pending;
  }

  class FieldAutomaton {
    const request: ByteSeq
    const start: nat

    var state: FieldState
    ghost var place: FieldPlace

    constructor (request: ByteSeq, start: nat)
      requires start <= |request|
      ensures this.request == request && this.start == start && At(start)
    {
      this.request, this.start := request, start;
      state, place := INITIAL_FIELD, FieldPlace(start, start, None);
      assert request[start..start] == [];
      assert Lower([]) <= TRACEPARENT;
    }

    ghost predicate At(i: nat)
      reads this
    {
      start <= |request| && FieldFollows(request, start, state, place, i)
    }

    method Step(index: nat) returns (result: PlanResult)
      requires At(index) && !state.invalid && index < |request|
      modifies this
      ensures start <= |request|
      ensures match result
              case Pending => At(index + 1)
              case Valid => Found(state, ScanTraceparent(request, start, None)) && !state.invalid
              case Refused => ScanTraceparent(request, start, None).None?
    {
      hide FieldFollows, ScanTraceparent, Found;
      var ok;
      match state.phase
      case InName =>
        ok, state, place := FieldNameStep(request, start, state, place, index);
        result := if ok then Pending else Refused;
      case InValue =>
        ok, state, place := FieldValueStep(request, start, state, place, index);
        result := if ok then Pending else Refused;
      case AtLf => result, state, place := FieldLfStep(request, start, state, place, index);
    }
  }

  lemma {:induction false} SectionCut(s: ByteSeq, start: nat, a: FieldState, g: FieldPlace, i: nat)
    requires start <= |s| && FieldFollows(s, start, a, g, i) && (i == |s| || a.invalid)
    ensures ScanTraceparent(s, start, None).None?
  {
    hide ScanTraceparent, IsTokenByte, IsValueByte, TraceparentName, Measured, Found;
    if !a.invalid {
      match a.phase
      case InName => LineRefused(s, g.pos, |s|, g.found);
      case InValue => BadValue(s, g.pos, g.mark, |s|, g.found);
      case AtLf =>
    }
  }

  /** Nothing clears `invalid`, so a section that is invalid once is given up. */
  method RunTraceparent(request: ByteSeq, start: nat) returns (at: Option<int>)
    requires start <= |request|
    ensures at == ScanTraceparent(request, start, None)
  {
    hide FieldFollows, ScanTraceparent;
    var automaton := new FieldAutomaton(request, start);
    var index, result := start, Pending;
    while index < |request| && result == Pending && !automaton.state.invalid
      invariant start <= index <= |request|
      invariant automaton.request == request && automaton.start == start
      invariant match result
                case Pending => automaton.At(index)
                case Valid => Found(automaton.state, ScanTraceparent(request, start, None)) && !automaton.state.invalid
                case Refused => ScanTraceparent(request, start, None).None?
    {
      result := automaton.Step(index);
      index := index + 1;
    }
    if result == Valid && automaton.state.sawTraceparent {
      return Some(automaton.state.traceparentAt);
    }
    if result == Pending {
      SectionCut(request, start, automaton.state, automaton.place, index);
    }
    at := None;
  }
}
