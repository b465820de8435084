/**
  The chunked-body automaton of the kernel-side planner. It computes exactly `ScanChunks`:
  valid at the end of the body, refused at the first byte that cannot belong to one, pending otherwise.
 */
module BpfChunked {
  import opened Bytes
  import opened Fnv
  import opened BpfScan
  import opened BpfHeaders

  // ----- what is accepted, over positions -----

  /** Unlike the host library, capital hexadecimal digits count. */
  predicate IsAnyHex(b: Byte) { IsDigit(b) || 97 <= b <= 102 || 65 <= b <= 70 }

  function AnyHexDigit(b: Byte): nat
    requires IsAnyHex(b)
  {
    if IsDigit(b) then b - 48 else if b >= 97 then b - 87 else b - 55
  }

  predicate AllAnyHex(s: ByteSeq) { forall i | 0 <= i < |s| :: IsAnyHex(s[i]) }

  function AnyHexValue(s: ByteSeq): nat
    requires AllAnyHex(s)
  {
    if s == [] then 0 else 16 * AnyHexValue(s[..|s| - 1]) + AnyHexDigit(s[|s| - 1])
  }

  function HexEnd(s: ByteSeq, i: nat): (r: nat)
    requires i <= |s|
    ensures i <= r <= |s| && AllAnyHex(s[i..r])
  {
    SpanEnd(IsAnyHex, s, i)
  }

  datatype SizeLine = NeedMore | Bad | Size(bytes: nat, next: nat)

  /** The line feed due at `e + 1`. */
  function AfterCr(s: ByteSeq, e: nat, bytes: nat): SizeLine
    requires e < |s|
  {
    if e + 1 == |s| then NeedMore else if s[e + 1] != LF then Bad else Size(bytes, e + 2)
  }

  function ScanSizeLine(s: ByteSeq, c: nat): (r: SizeLine)
    requires c <= |s|
    ensures r.Size? ==> c < r.next <= |s|
  {
    var h := HexEnd(s, c);
    var bytes := AnyHexValue(s[c..h]);
    if bytes > U32_MAX then Bad
    else if h == |s| then NeedMore
    else if h == c then Bad
    else if s[h] == CR then AfterCr(s, h, bytes)
    else if s[h] != SEMICOLON then Bad
    else
      var e := ValueEnd(s, h + 1);
      if e == |s| then NeedMore
      else if s[e] != CR || e == h + 1 then Bad
      else AfterCr(s, e, bytes)
  }

  predicate TrailerRefused(name: ByteSeq)
  {
    var hash := FnvFold(Lower(name));
    (|name| == 11 && hash == TRACEPARENT_HASH) || (|name| == 10 && hash == TRACESTATE_HASH)
  }

  function ScanTrailers(s: ByteSeq, c: nat): PlanResult
    requires c <= |s|
    decreases |s| - c
  {
    var n := TokenEnd(s, c);
    if n == |s| then Pending
    else if s[n] == CR then
      if n != c then Refused
      else if n + 1 == |s| then Pending
      else if s[n + 1] == LF && n + 2 == |s| then Valid
      else Refused
    else if s[n] != COLON || n == c || TrailerRefused(s[c..n]) then Refused
    else
      var v := ValueEnd(s, n + 1);
      if v == |s| then Pending
      else if s[v] != CR then Refused
      else if v + 1 == |s| then Pending
      else if s[v + 1] != LF then Refused
      else ScanTrailers(s, v + 2)
  }

  function ScanChunks(s: ByteSeq, c: nat): PlanResult
    requires c <= |s|
    decreases |s| - c
  {
    match ScanSizeLine(s, c)
    case NeedMore => Pending
    case Bad => Refused
    case Size(bytes, next) =>
      if bytes == 0 then ScanTrailers(s, next)
      else
        var end := next + bytes;
        if end >= |s| then Pending
        else if s[end] != CR then Refused
        else if end + 1 == |s| then Pending
        else if s[end + 1] != LF then Refused
        else ScanChunks(s, end + 2)
  }

  // ----- the automaton's state -----

  datatype ChunkPhase =
    | SizeDigits | Extension | SizeLf | Data | DataCr | DataLf | TrailerName | TrailerValue | TrailerLf

  datatype ChunkState = ChunkState(
    trailerHash: Hash, chunkSize: nat, chunkRemaining: nat, componentLen: nat, phase: ChunkPhase,
    sizeStarted: bool, extensionStarted: bool, endingTrailers: bool)

  const INITIAL_CHUNK := ChunkState(FNV_OFFSET, 0, 0, 0, SizeDigits, false, false, false)

  /** Where the current size or trailer line starts, and where its digits or its name ended. */
  datatype Place = Place(cursor: nat, mark: nat)

  ghost predicate DigitsRead(s: ByteSeq, c: nat, h: nat, bytes: nat)
  {
    && c < h < |s| && (forall j | c <= j < h :: IsAnyHex(s[j])) && !IsAnyHex(s[h])
    && AllAnyHex(s[c..h]) && bytes == AnyHexValue(s[c..h]) <= U32_MAX
  }

  /** The size line is complete up to its CR, which is at `e`. */
  ghost predicate SizeRead(s: ByteSeq, c: nat, e: nat, bytes: nat)
  {
    c <= e < |s| && ScanSizeLine(s, c) == AfterCr(s, e, bytes)
  }

  ghost predicate NameReadTo(s: ByteSeq, c: nat, n: nat)
  {
    c < n < |s| && s[n] == COLON && (forall j | c <= j < n :: IsTokenByte(s[j])) && !TrailerRefused(s[c..n])
  }

  ghost predicate InSize(s: ByteSeq, a: ChunkState, g: Place, i: nat)
    requires g.cursor <= i <= |s|
  {
    match a.phase
    case SizeDigits =>
      && (forall j | g.cursor <= j < i :: IsAnyHex(s[j])) && AllAnyHex(s[g.cursor..i])
      && a.chunkSize == AnyHexValue(s[g.cursor..i]) <= U32_MAX
      && (a.sizeStarted <==> i > g.cursor)
    case Extension =>
      && DigitsRead(s, g.cursor, g.mark, a.chunkSize) && s[g.mark] == SEMICOLON && g.mark < i
      && (forall j | g.mark < j < i :: IsValueByte(s[j]))
      && (a.extensionStarted <==> i > g.mark + 1)
    case SizeLf => i > 0 && SizeRead(s, g.cursor, i - 1, a.chunkSize)
    case _ => false
  }

  ghost predicate InData(s: ByteSeq, a: ChunkState, g: Place, i: nat)
    requires g.cursor <= i <= |s|
  {
    && a.chunkSize > 0 && ScanSizeLine(s, g.cursor) == Size(a.chunkSize, g.mark)
    && match a.phase
       case Data => g.mark <= i && a.chunkRemaining > 0 && i + a.chunkRemaining == g.mark + a.chunkSize
       case DataCr => i == g.mark + a.chunkSize
       case DataLf => i == g.mark + a.chunkSize + 1 && s[i - 1] == CR
       case _ => false
  }

  ghost predicate InTrailer(s: ByteSeq, a: ChunkState, g: Place, i: nat)
    requires g.cursor <= i <= |s|
  {
    match a.phase
    case TrailerName =>
      && (forall j | g.cursor <= j < i :: IsTokenByte(s[j]))
      && a.componentLen == i - g.cursor && a.trailerHash == FnvFold(Lower(s[g.cursor..i]))
    case TrailerValue =>
      NameReadTo(s, g.cursor, g.mark) && g.mark < i && (forall j | g.mark < j < i :: IsValueByte(s[j]))
    case TrailerLf =>
      && i > g.cursor && s[i - 1] == CR
      && if a.endingTrailers then i == g.cursor + 1
         else NameReadTo(s, g.cursor, g.mark) && g.mark < i - 1 && (forall j | g.mark < j < i - 1 :: IsValueByte(s[j]))
    case _ => false
  }

  /** Bytes from `start` to `i` have been consumed and nothing is decided yet. */
  ghost predicate Follows(s: ByteSeq, start: nat, a: ChunkState, g: Place, i: nat)
  {
    && start <= g.cursor <= i <= |s|
    && if a.phase in {SizeDigits, Extension, SizeLf} then
         ScanChunks(s, start) == ScanChunks(s, g.cursor) && InSize(s, a, g, i)
       else if a.phase in {Data, DataCr, DataLf} then
         ScanChunks(s, start) == ScanChunks(s, g.cursor) && InData(s, a, g, i)
       else ScanChunks(s, start) == ScanTrailers(s, g.cursor) && InTrailer(s, a, g, i)
  }

  // ----- facts the steps use -----

  lemma {:induction false} HexRun(s: ByteSeq, i: nat, n: nat)
    requires i <= n <= |s| && forall j | i <= j < n :: IsAnyHex(s[j])
    ensures HexEnd(s, i) >= n && (n == |s| || !IsAnyHex(s[n]) ==> HexEnd(s, i) == n)
  {
    hide IsAnyHex;
  }

  lemma {:induction false} AnyHexGrows(s: ByteSeq, k: nat)
    requires AllAnyHex(s) && k <= |s|
    ensures AnyHexValue(s[..k]) <= AnyHexValue(s)
  {
    if k < |s| {
      AnyHexGrows(s[..|s| - 1], k);
      assert s[..|s| - 1][..k] == s[..k];
    } else {
      assert s[..k] == s;
    }
  }

  lemma {:induction false} SizeAppend(s: ByteSeq, c: nat, i: nat)
    requires c <= i < |s| && AllAnyHex(s[c..i]) && IsAnyHex(s[i])
    ensures AllAnyHex(s[c..i + 1]) && AnyHexValue(s[c..i + 1]) == 16 * AnyHexValue(s[c..i]) + AnyHexDigit(s[i])
  {
    hide IsAnyHex, AnyHexDigit;
    Consumed(s, c, i);
    var t := s[c..i + 1];
    assert t[..|t| - 1] == s[c..i] && t[|t| - 1] == s[i];
  }

  lemma {:induction false} SizeOverflow(s: ByteSeq, c: nat, i: nat)
    requires c <= i <= |s| && (forall j | c <= j < i :: IsAnyHex(s[j])) && AllAnyHex(s[c..i]) && AnyHexValue(s[c..i]) > U32_MAX
    ensures ScanSizeLine(s, c) == Bad
  {
    hide IsAnyHex, HexEnd, AnyHexValue, ValueEnd;
    HexRun(s, c, i);
    var h := HexEnd(s, c);
    assert s[c..h][..i - c] == s[c..i];
    AnyHexGrows(s[c..h], i - c);
  }

  /** The byte after the digits. */
  lemma {:induction false} DigitsEnd(s: ByteSeq, c: nat, h: nat, bytes: nat)
    requires DigitsRead(s, c, h, bytes)
    ensures s[h] == CR ==> SizeRead(s, c, h, bytes)
    ensures s[h] != CR && s[h] != SEMICOLON ==> ScanSizeLine(s, c) == Bad
  {
    hide IsAnyHex, HexEnd, AnyHexValue, ValueEnd;
    HexRun(s, c, h);
  }

  lemma {:induction false} NoDigits(s: ByteSeq, c: nat)
    requires c < |s| && !IsAnyHex(s[c])
    ensures ScanSizeLine(s, c) == Bad
  {
    hide IsAnyHex, HexEnd, ValueEnd;
    HexRun(s, c, c);
    assert s[c..c] == [];
  }

  lemma {:induction false} ExtensionEnd(s: ByteSeq, c: nat, h: nat, e: nat, bytes: nat)
    requires DigitsRead(s, c, h, bytes) && s[h] == SEMICOLON && h < e < |s|
    requires (forall j | h < j < e :: IsValueByte(s[j])) && !IsValueByte(s[e])
    ensures if s[e] == CR && e > h + 1 then SizeRead(s, c, e, bytes) else ScanSizeLine(s, c) == Bad
  {
    hide IsAnyHex, IsValueByte, HexEnd, AnyHexValue, ValueEnd;
    HexRun(s, c, h);
    ValueRun(s, h + 1, e);
  }

  /** The decision on a trailer line whose name ended at `n`. */
  lemma {:induction false} TrailerDecided(s: ByteSeq, c: nat, n: nat)
    requires NameReadTo(s, c, n)
    ensures var v := ValueEnd(s, n + 1);
            ScanTrailers(s, c) ==
            if v == |s| then Pending
            else if s[v] != CR then Refused
            else if v + 1 == |s| then Pending
            else if s[v + 1] != LF then Refused
            else ScanTrailers(s, v + 2)
  {
    hide IsTokenByte, TokenEnd, ValueEnd, TrailerRefused;
    ColonIsNoToken();
    TokenRun(s, c, n);
  }

  lemma {:induction false} TrailerMalformed(s: ByteSeq, c: nat, n: nat)
    requires c <= n < |s| && (forall j | c <= j < n :: IsTokenByte(s[j])) && !IsTokenByte(s[n])
    requires if s[n] == CR then n != c else s[n] != COLON || n == c || TrailerRefused(s[c..n])
    ensures ScanTrailers(s, c) == Refused
  {
    hide IsTokenByte, TokenEnd, ValueEnd, TrailerRefused;
    TokenRun(s, c, n);
  }

  lemma {:induction false} TrailersEnd(s: ByteSeq, c: nat)
    requires c < |s| && s[c] == CR
    ensures ScanTrailers(s, c) ==
            if c + 1 == |s| then Pending else if s[c + 1] == LF && c + 2 == |s| then Valid else Refused
  {
    hide IsTokenByte, TokenEnd, ValueEnd;
    ColonIsNoToken();
    TokenRun(s, c, c);
  }

  lemma {:induction false} TrailerValueRun(s: ByteSeq, n: nat, v: nat)
    requires n < v <= |s| && (forall j | n < j < v :: IsValueByte(s[j])) && (v == |s| || !IsValueByte(s[v]))
    ensures ValueEnd(s, n + 1) == v
  {
    hide IsValueByte;
    ValueRun(s, n + 1, v);
  }

  // ----- the steps -----

  method SizeStep(s: ByteSeq, start: nat, a: ChunkState, ghost g: Place, i: nat)
    returns (r: ChunkState, ghost h: Place, result: PlanResult)
    requires Follows(s, start, a, g, i) && i < |s| && a.phase == SizeDigits
    ensures if result == Pending then Follows(s, start, r, h, i + 1) else ScanChunks(s, start) == result
  {
    hide IsAnyHex, AnyHexValue, AnyHexDigit, ScanSizeLine, SizeRead;
    var byte := s[i];
    r, h, result := a, g, Pending;
    if IsAnyHex(byte) {
      SizeAppend(s, g.cursor, i);
      var size := 16 * a.chunkSize + AnyHexDigit(byte);
      if size > U32_MAX {
        SizeOverflow(s, g.cursor, i + 1);
        result := Refused;
        return;
      }
      r := a.(chunkSize := size, sizeStarted := true);
      return;
    }
    if !a.sizeStarted {
      NoDigits(s, i);
      result := Refused;
      return;
    }
    DigitsEnd(s, g.cursor, i, a.chunkSize);
    if byte == SEMICOLON {
      r := a.(phase := Extension, extensionStarted := false);
      h := g.(mark := i);
    } else if byte == CR {
      r := a.(phase := SizeLf);
    } else {
      result := Refused;
    }
  }

  method ExtensionStep(s: ByteSeq, start: nat, a: ChunkState, ghost g: Place, i: nat)
    returns (r: ChunkState, result: PlanResult)
    requires Follows(s, start, a, g, i) && i < |s| && a.phase == Extension
    ensures if result == Pending then Follows(s, start, r, g, i + 1) else ScanChunks(s, start) == result
  {
    hide IsAnyHex, IsValueByte, AnyHexValue, ScanSizeLine, SizeRead, DigitsRead;
    r, result := a, Pending;
    if s[i] != CR && IsValueByte(s[i]) {
      r := a.(extensionStarted := true);
      return;
    }
    ColonIsNoToken();
    DigitsFacts(s, g.cursor, g.mark, a.chunkSize);
    ExtensionEnd(s, g.cursor, g.mark, i, a.chunkSize);
    if s[i] == CR && a.extensionStarted {
      r := a.(phase := SizeLf);
    } else {
      result := Refused;
    }
  }

  lemma {:induction false} DigitsFacts(s: ByteSeq, c: nat, h: nat, bytes: nat)
    requires DigitsRead(s, c, h, bytes)
    ensures c < h < |s|
  {}

  method SizeLfStep(s: ByteSeq, start: nat, a: ChunkState, ghost g: Place, i: nat)
    returns (r: ChunkState, ghost h: Place, result: PlanResult)
    requires Follows(s, start, a, g, i) && i < |s| && a.phase == SizeLf
    ensures if result == Pending then Follows(s, start, r, h, i + 1) else ScanChunks(s, start) == result
  {
    hide ScanSizeLine, ScanTrailers, IsTokenByte, FnvFold;
    r, h, result := a, g, Pending;
    if s[i] != LF {
      result := Refused;
    } else if a.chunkSize == 0 {
      r := a.(phase := TrailerName, componentLen := 0, trailerHash := FNV_OFFSET, endingTrailers := false);
      h := Place(i + 1, i + 1);
      assert s[i + 1..i + 1] == [] && Lower([]) == [];
      HashEmpty();
    } else {
      r := a.(chunkRemaining := a.chunkSize, phase := Data);
      h := g.(mark := i + 1);
    }
  }

  method DataStep(s: ByteSeq, start: nat, a: ChunkState, ghost g: Place, i: nat)
    returns (r: ChunkState, ghost h: Place, result: PlanResult)
    requires Follows(s, start, a, g, i) && i < |s| && a.phase in {Data, DataCr, DataLf}
    ensures if result == Pending then Follows(s, start, r, h, i + 1) else ScanChunks(s, start) == result
  {
    hide ScanSizeLine, ScanTrailers;
    r, h, result := a, g, Pending;
    if a.phase == Data {
      r := a.(chunkRemaining := a.chunkRemaining - 1);
      if r.chunkRemaining == 0 {
        r := r.(phase := DataCr);
      }
    } else if a.phase == DataCr {
      if s[i] != CR {
        result := Refused;
        return;
      }
      r := a.(phase := DataLf);
    } else {
      if s[i] != LF {
        result := Refused;
        return;
      }
      r := a.(phase := SizeDigits, chunkSize := 0, sizeStarted := false, extensionStarted := false);
      h := Place(i + 1, i + 1);
      assert s[i + 1..i + 1] == [];
    }
  }

  method TrailerNameStep(s: ByteSeq, start: nat, a: ChunkState, ghost g: Place, i: nat)
    returns (r: ChunkState, ghost h: Place, result: PlanResult)
    requires Follows(s, start, a, g, i) && i < |s| && a.phase == TrailerName
    ensures if result == Pending then Follows(s, start, r, h, i + 1) else ScanChunks(s, start) == result
  {
    hide IsTokenByte, IsValueByte, ScanTrailers, ScanChunks, FnvFold, FnvStep;
    var byte := s[i];
    r, h, result := a, g, Pending;
    ColonIsNoToken();
    if byte == CR {
      if a.componentLen != 0 {
        TrailerMalformed(s, g.cursor, i);
        result := Refused;
        return;
      }
      r := a.(endingTrailers := true, phase := TrailerLf);
    } else if byte == COLON {
      if || a.componentLen == 0
         || (a.componentLen == 11 && a.trailerHash == TRACEPARENT_HASH)
         || (a.componentLen == 10 && a.trailerHash == TRACESTATE_HASH) {
        TrailerMalformed(s, g.cursor, i);
        result := Refused;
        return;
      }
      r := a.(endingTrailers := false, phase := TrailerValue);
      h := g.(mark := i);
    } else if IsTokenByte(byte) {
      Consumed(s, g.cursor, i);
      LowerAppend(s[g.cursor..i], byte);
      HashAppend(Lower(s[g.cursor..i]), LowerByte(byte));
      r := a.(trailerHash := FnvStep(a.trailerHash, LowerByte(byte)), componentLen := a.componentLen + 1);
    } else {
      TrailerMalformed(s, g.cursor, i);
      result := Refused;
    }
  }

  method TrailerValueStep(s: ByteSeq, start: nat, a: ChunkState, ghost g: Place, i: nat)
    returns (r: ChunkState, result: PlanResult)
    requires Follows(s, start, a, g, i) && i < |s| && a.phase == TrailerValue
    ensures if result == Pending then Follows(s, start, r, g, i + 1) else ScanChunks(s, start) == result
  {
    hide IsTokenByte, IsValueByte, ScanTrailers, ScanChunks, TrailerRefused;
    r, result := a, Pending;
    if s[i] == CR {
      r := a.(endingTrailers := false, phase := TrailerLf);
    } else if !IsValueByte(s[i]) {
      TrailerValueRun(s, g.mark, i);
      TrailerDecided(s, g.cursor, g.mark);
      result := Refused;
    }
  }

  method TrailerLfStep(s: ByteSeq, start: nat, a: ChunkState, ghost g: Place, i: nat)
    returns (r: ChunkState, ghost h: Place, result: PlanResult)
    requires Follows(s, start, a, g, i) && i < |s| && a.phase == TrailerLf
    ensures if result == Pending then Follows(s, start, r, h, i + 1) else ScanChunks(s, start) == result
  {
    hide IsTokenByte, IsValueByte, ScanTrailers, ScanChunks, TrailerRefused, FnvFold;
    r, h, result := a, g, Pending;
    if a.endingTrailers {
      TrailersEnd(s, g.cursor);
      result := if s[i] == LF && i + 1 == |s| then Valid else Refused;
      return;
    }
    ColonIsNoToken();
    TrailerValueRun(s, g.mark, i - 1);
    TrailerDecided(s, g.cursor, g.mark);
    if s[i] != LF {
      result := Refused;
      return;
    }
    r := a.(phase := TrailerName, componentLen := 0, trailerHash := FNV_OFFSET);
    h := Place(i + 1, i + 1);
    assert s[i + 1..i + 1] == [] && Lower([]) == [];
    HashEmpty();
  }

  lemma {:induction false} SizePending(s: ByteSeq, a: ChunkState, g: Place)
    requires g.cursor <= |s| && InSize(s, a, g, |s|)
    ensures ScanChunks(s, g.cursor) == Pending
  {
    hide IsAnyHex, IsValueByte, AnyHexValue, HexEnd, ValueEnd;
    match a.phase
    case SizeDigits => HexRun(s, g.cursor, |s|);
    case Extension =>
      HexRun(s, g.cursor, g.mark);
      ValueRun(s, g.mark + 1, |s|);
    case SizeLf =>
  }

  lemma {:induction false} TrailerPending(s: ByteSeq, a: ChunkState, g: Place)
    requires g.cursor <= |s| && InTrailer(s, a, g, |s|)
    ensures ScanTrailers(s, g.cursor) == Pending
  {
    hide IsTokenByte, IsValueByte, FnvFold, ScanTrailers, TrailerRefused;
    ColonIsNoToken();
    match a.phase
    case TrailerName => TrailerNameRun(s, g.cursor);
    case TrailerValue =>
      TrailerValueRun(s, g.mark, |s|);
      TrailerDecided(s, g.cursor, g.mark);
    case TrailerLf =>
      if a.endingTrailers {
        TrailersEnd(s, g.cursor);
      } else {
        TrailerValueRun(s, g.mark, |s| - 1);
        TrailerDecided(s, g.cursor, g.mark);
      }
  }

  lemma {:induction false} TrailerNameRun(s: ByteSeq, c: nat)
    requires c <= |s| && forall j | c <= j < |s| :: IsTokenByte(s[j])
    ensures ScanTrailers(s, c) == Pending
  {
    hide IsTokenByte, TokenEnd;
    TokenRun(s, c, |s|);
  }

  /** The state the loop hands to the callback, changed in place one byte at a time. */
  class ChunkAutomaton {
    const request: ByteSeq
    const start: nat

    var state: ChunkState
    ghost var place: Place

    constructor (request: ByteSeq, start: nat)
      requires start <= |request|
      ensures this.request == request && this.start == start && At(start)
    {
      this.request, this.start := request, start;
      state, place := INITIAL_CHUNK, Place(start, start);
      assert request[start..start] == [];
    }

    /** The bytes before `i` have been consumed and nothing is decided yet. */
    ghost predicate At(i: nat)
      reads this
    {
      Follows(request, start, state, place, i)
    }

    method Step(index: nat) returns (result: PlanResult)
      requires At(index) && index < |request| && start <= |request|
      modifies this
      ensures if result == Pending then At(index + 1) else ScanChunks(request, start) == result
    {
      hide InSize, InData, InTrailer, ScanChunks, ScanTrailers;
      match state.phase
      case SizeDigits => state, place, result := SizeStep(request, start, state, place, index);
      case Extension => state, result := ExtensionStep(request, start, state, place, index);
      case SizeLf => state, place, result := SizeLfStep(request, start, state, place, index);
      case TrailerName => state, place, result := TrailerNameStep(request, start, state, place, index);
      case TrailerValue => state, result := TrailerValueStep(request, start, state, place, index);
      case TrailerLf => state, place, result := TrailerLfStep(request, start, state, place, index);
      case _ => state, place, result := DataStep(request, start, state, place, index);
    }
  }

  lemma {:induction false} BodyPending(s: ByteSeq, start: nat, a: ChunkState, g: Place)
    requires Follows(s, start, a, g, |s|)
    ensures ScanChunks(s, start) == Pending
  {
    hide InSize, InTrailer, ScanTrailers, ScanSizeLine;
    if a.phase in {SizeDigits, Extension, SizeLf} {
      SizePending(s, a, g);
    } else if a.phase !in {Data, DataCr, DataLf} {
      TrailerPending(s, a, g);
    }
  }

  method RunChunks(request: ByteSeq, start: nat) returns (result: PlanResult)
    requires start <= |request|
    ensures result == ScanChunks(request, start)
  {
    hide Follows, ScanChunks;
    var automaton := new ChunkAutomaton(request, start);
    var index := start;
    result := Pending;
    while index < |request| && result == Pending
      invariant start <= index <= |request|
      invariant automaton.request == request && automaton.start == start
      invariant if result == Pending then automaton.At(index) else ScanChunks(request, start) == result
    {
      result := automaton.Step(index);
      index := index + 1;
    }
    if result == Pending {
      BodyPending(request, start, automaton.state, automaton.place);
    }
  }
}
