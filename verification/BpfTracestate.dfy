/**
  The kernel-side tracestate validator: one pass, one byte at a time, with the keys seen so far
  summarised in two 64-bit masks. It accepts exactly `ScanTracestate`.
 */
module BpfTracestate {
  import opened Bytes
  import opened Fnv
  import opened Tracestate
  import opened BpfScan

  // ----- the summary of the keys -----

  datatype Masks = Masks(low: bv64, high: bv64)

  const NO_KEYS := Masks(0, 0)

  function LowBit(h: Hash): bv64 { 1 << (h.bits & 63) }
  function HighBit(h: Hash): bv64 { 1 << ((h.bits >> 32) & 63) }

  predicate Collides(m: Masks, h: Hash) { m.low & LowBit(h) != 0 && m.high & HighBit(h) != 0 }

  function Noted(m: Masks, h: Hash): Masks { Masks(m.low | LowBit(h), m.high | HighBit(h)) }

  // ----- what is accepted, over positions -----

  predicate IsKeySpanByte(b: Byte) { IsKeyByte(b) || b == AT }

  function OwsEnd(s: ByteSeq, i: nat): (r: nat)
    requires i <= |s|
    ensures i <= r <= |s|
  {
    SpanEnd(IsOws, s, i)
  }

  function KeyEnd(s: ByteSeq, i: nat): (r: nat)
    requires i <= |s|
    ensures i <= r <= |s|
  {
    SpanEnd(IsKeySpanByte, s, i)
  }

  function MemberEnd(s: ByteSeq, i: nat): (r: nat)
    requires i <= |s|
    ensures i <= r <= |s|
  {
    SpanEnd(IsMemberByte, s, i)
  }

  /** The length of a value up to its last byte that is not a space. */
  function SignificantLen(v: ByteSeq): (n: nat)
    ensures n <= |v|
  {
    if v == [] then 0 else if v[|v| - 1] != SP then |v| else SignificantLen(v[..|v| - 1])
  }

  predicate AcceptableValue(v: ByteSeq) { 0 < SignificantLen(v) <= 256 }

  predicate AcceptableKey(key: ByteSeq, masks: Masks, count: nat)
  {
    ValidKey(key) && count < MAX_MEMBERS && !Collides(masks, FnvFold(key))
  }

  predicate ScanMembers(s: ByteSeq, start: nat, masks: Masks, count: nat)
    requires start <= |s|
    decreases |s| - start
  {
    var k := OwsEnd(s, start);
    var e := KeyEnd(s, k);
    && e < |s| && s[e] == EQUALS && AcceptableKey(s[k..e], masks, count)
    && var v := MemberEnd(s, e + 1);
       && AcceptableValue(s[e + 1..v])
       && (v == |s| ||
           (s[v] == COMMA && v + 1 < |s| && ScanMembers(s, v + 1, Noted(masks, FnvFold(s[k..e])), count + 1)))
  }

  predicate ScanTracestate(s: ByteSeq) { 0 < |s| <= MAX_TRACESTATE_BYTES && ScanMembers(s, 0, NO_KEYS, 0) }

  // ----- runs -----

  lemma {:induction false} OwsRun(s: ByteSeq, i: nat, n: nat)
    requires i <= n <= |s| && forall j | i <= j < n :: IsOws(s[j])
    ensures OwsEnd(s, i) >= n && (n == |s| || !IsOws(s[n]) ==> OwsEnd(s, i) == n)
  {}

  lemma {:induction false} KeyRun(s: ByteSeq, i: nat, n: nat)
    requires i <= n <= |s| && forall j | i <= j < n :: IsKeySpanByte(s[j])
    ensures KeyEnd(s, i) >= n && (n == |s| || !IsKeySpanByte(s[n]) ==> KeyEnd(s, i) == n)
  {
    hide IsKeySpanByte;
  }

  lemma {:induction false} MemberRun(s: ByteSeq, i: nat, n: nat)
    requires i <= n <= |s| && forall j | i <= j < n :: IsMemberByte(s[j])
    ensures MemberEnd(s, i) >= n && (n == |s| || !IsMemberByte(s[n]) ==> MemberEnd(s, i) == n)
  {
    hide IsMemberByte;
  }

  lemma {:induction false} SignificantAppend(v: ByteSeq, b: Byte)
    ensures SignificantLen(v + [b]) == if b != SP then |v| + 1 else SignificantLen(v)
  {
    assert (v + [b])[..|v|] == v;
  }

  // ----- keys, byte by byte -----

  /** No byte so far rules the key out. */
  predicate KeyPrefix(p: ByteSeq)
  {
    match FindByte(p, AT)
    case None => |p| <= 256 && AllKeyBytes(p)
    case Some(at) =>
      && 0 < at <= 241 && (IsLowercase(p[0]) || IsDigit(p[0])) && AllKeyBytes(p[..at])
      && |p| - at - 1 <= 14 && AllKeyBytes(p[at + 1..]) && (at + 1 < |p| ==> IsLowercase(p[at + 1]))
  }

  /** The remaining condition at the equals sign. */
  predicate KeyFinished(p: ByteSeq)
  {
    p != [] && match FindByte(p, AT) case None => IsLowercase(p[0]) case Some(at) => at + 1 < |p|
  }

  lemma {:induction false} KeyIsPrefix(p: ByteSeq)
    ensures ValidKey(p) <==> KeyPrefix(p) && KeyFinished(p)
  {
    hide FindByte, AllKeyBytes, IsLowercase, IsDigit;
  }

  lemma {:induction false} FindAppend(p: ByteSeq, b: Byte)
    ensures FindByte(p + [b], AT) == if FindByte(p, AT).Some? then FindByte(p, AT) else if b == AT then Some(|p|) else None
  {
    hide FindByte;
    var q := p + [b];
    assert forall i | 0 <= i < |p| :: q[i] == p[i];
    assert q[|p|] == b;
  }

  lemma {:induction false} AllAppend(p: ByteSeq, b: Byte)
    ensures AllKeyBytes(p + [b]) <==> AllKeyBytes(p) && IsKeyByte(b)
  {
    hide IsKeyByte;
    var q := p + [b];
    assert forall i | 0 <= i < |p| :: q[i] == p[i];
    assert q[|p|] == b;
  }

  /** A key that is ruled out stays so, whatever follows. */
  lemma {:induction false} PrefixLost(p: ByteSeq, b: Byte)
    requires KeyPrefix(p + [b])
    ensures KeyPrefix(p)
  {
    hide FindByte, AllKeyBytes, IsLowercase, IsDigit;
    FindAppend(p, b);
    AllAppend(p, b);
    var q := p + [b];
    var at := FindByte(q, AT);
    if at.Some? && at.value < |p| {
      assert q[..at.value] == p[..at.value];
      assert q[at.value + 1..] == p[at.value + 1..] + [b];
      AllAppend(p[at.value + 1..], b);
    } else if at.Some? {
      assert q[..at.value] == p;
    }
  }

  lemma {:induction false} LostForGood(s: ByteSeq, k: nat, i: nat, e: nat)
    requires k <= i <= e <= |s| && !KeyPrefix(s[k..i])
    ensures !KeyPrefix(s[k..e])
    decreases e - i
  {
    hide KeyPrefix;
    if i < e {
      assert s[k..i + 1] == s[k..i] + [s[i]];
      if KeyPrefix(s[k..i + 1]) {
        PrefixLost(s[k..i], s[i]);
      }
      LostForGood(s, k, i + 1, e);
    }
  }

  // ----- the automaton's state -----

  datatype Phase = Start | Key | Value

  datatype ListState = ListState(
    keyHash: Hash, masks: Masks, keyLen: nat, valueLen: nat, significantLen: nat, systemLen: nat, memberCount: nat,
    phase: Phase, firstLowercase: bool, firstDigit: bool, sawAt: bool, hasNonSpace: bool)

  const INITIAL_LIST := ListState(FNV_OFFSET, NO_KEYS, 0, 0, 0, 0, 0, Start, false, false, false, false)

  /** Where the current member and its key start, where its key ended, and the summary at its start. */
  datatype Place = Place(start: nat, key: nat, mark: nat, masks: Masks, count: nat)

  ghost predicate KeyTracked(a: ListState, p: ByteSeq)
  {
    && KeyPrefix(p) && a.keyLen == |p| && a.keyHash == FnvFold(p)
    && (a.firstLowercase <==> p != [] && IsLowercase(p[0])) && (a.firstDigit <==> p != [] && IsDigit(p[0]))
    && match FindByte(p, AT)
       case None => !a.sawAt && a.systemLen == 0
       case Some(at) => a.sawAt && a.systemLen == |p| - at - 1
  }

  ghost predicate KeyBegun(s: ByteSeq, g: Place, i: nat)
  {
    && g.start <= g.key <= i <= |s| && g.key < |s| && OwsEnd(s, g.start) == g.key
    && forall j | g.key <= j < i :: IsKeySpanByte(s[j])
  }

  ghost predicate KeyRead(s: ByteSeq, g: Place)
  {
    && KeyBegun(s, g, g.mark) && g.mark < |s| && s[g.mark] == EQUALS && KeyEnd(s, g.key) == g.mark
    && AcceptableKey(s[g.key..g.mark], g.masks, g.count)
  }

  ghost predicate Tracks(s: ByteSeq, a: ListState, g: Place, i: nat)
  {
    && g.start <= i <= |s|
    && match a.phase
       case Start =>
         a.masks == g.masks && a.memberCount == g.count && forall j | g.start <= j < i :: IsOws(s[j])
       case Key => a.masks == g.masks && a.memberCount == g.count && KeyBegun(s, g, i) && KeyTracked(a, s[g.key..i])
       case Value =>
         && KeyRead(s, g) && g.mark < i && (forall j | g.mark < j < i :: IsMemberByte(s[j]))
         && a.masks == Noted(g.masks, FnvFold(s[g.key..g.mark])) && a.memberCount == g.count + 1
         && a.valueLen == i - g.mark - 1 && a.significantLen == SignificantLen(s[g.mark + 1..i])
         && (a.hasNonSpace <==> a.significantLen > 0)
  }

  ghost predicate Follows(s: ByteSeq, a: ListState, g: Place, i: nat)
  {
    g.start <= |s| && Tracks(s, a, g, i) && (ScanMembers(s, 0, NO_KEYS, 0) <==> ScanMembers(s, g.start, g.masks, g.count))
  }

  // ----- what each phase decides -----

  lemma {:induction false} MemberUnfolds(s: ByteSeq, g: Place, v: nat)
    requires KeyRead(s, g) && g.mark < v <= |s| && MemberEnd(s, g.mark + 1) == v
    ensures ScanMembers(s, g.start, g.masks, g.count) <==>
            && AcceptableValue(s[g.mark + 1..v])
            && (v == |s| || (s[v] == COMMA && v + 1 < |s| &&
                             ScanMembers(s, v + 1, Noted(g.masks, FnvFold(s[g.key..g.mark])), g.count + 1)))
  {
    hide OwsEnd, KeyEnd, MemberEnd, AcceptableValue, AcceptableKey, Noted, FnvFold;
  }

  lemma {:induction false} KeyRejected(s: ByteSeq, g: Place, i: nat)
    requires KeyBegun(s, g, i) && (i == |s| || (s[i] != EQUALS && !IsKeySpanByte(s[i])))
    ensures !ScanMembers(s, g.start, g.masks, g.count)
  {
    hide OwsEnd, KeyEnd, MemberEnd, AcceptableValue, AcceptableKey, Noted, FnvFold, IsKeySpanByte;
    KeyRun(s, g.key, i);
  }

  lemma {:induction false} KeyLost(s: ByteSeq, g: Place, i: nat)
    requires KeyBegun(s, g, i) && !KeyPrefix(s[g.key..i])
    ensures !ScanMembers(s, g.start, g.masks, g.count)
  {
    hide OwsEnd, KeyEnd, MemberEnd, AcceptableValue, Noted, FnvFold, IsKeySpanByte, KeyPrefix, ValidKey, KeyFinished;
    KeyRun(s, g.key, i);
    var e := KeyEnd(s, g.key);
    LostForGood(s, g.key, i, e);
    KeyIsPrefix(s[g.key..e]);
  }

  lemma {:induction false} KeyRefused(s: ByteSeq, g: Place)
    requires KeyBegun(s, g, g.mark) && g.mark < |s| && s[g.mark] == EQUALS && !AcceptableKey(s[g.key..g.mark], g.masks, g.count)
    ensures !ScanMembers(s, g.start, g.masks, g.count)
  {
    hide OwsEnd, KeyEnd, MemberEnd, AcceptableValue, AcceptableKey, Noted, FnvFold, IsKeySpanByte;
    EqualsIsNoKey();
    KeyRun(s, g.key, g.mark);
  }

  lemma {:induction false} EqualsIsNoKey()
    ensures !IsKeySpanByte(EQUALS) && !IsMemberByte(COMMA) && !IsKeySpanByte(COMMA) && !IsMemberByte(EQUALS)
  {}

  lemma {:induction false} NoMember(s: ByteSeq, g: Place)
    requires g.start <= |s| && forall j | g.start <= j < |s| :: IsOws(s[j])
    ensures !ScanMembers(s, g.start, g.masks, g.count)
  {
    hide OwsEnd, KeyEnd, MemberEnd, AcceptableValue, AcceptableKey, Noted, FnvFold;
    OwsRun(s, g.start, |s|);
  }

  // ----- the steps -----

  /** One key byte; `p` is the key before it. */
  method CaptureKeyByte(a: ListState, byte: Byte, ghost p: ByteSeq) returns (ok: bool, r: ListState)
    requires KeyTracked(a, p)
    ensures ok <==> KeyPrefix(p + [byte])
    ensures ok ==> KeyTracked(r, p + [byte]) && r == a.(keyHash := r.keyHash, keyLen := r.keyLen, systemLen := r.systemLen,
      firstLowercase := r.firstLowercase, firstDigit := r.firstDigit, sawAt := r.sawAt)
  {
    hide FindByte, FnvFold, FnvStep, IsLowercase, IsDigit, IsKeyByte;
    r := a;
    ok := true;
    FindAppend(p, byte);
    AllAppend(p, byte);
    HashAppend(p, byte);
    PartsAppend(p, byte, if FindByte(p, AT).Some? then FindByte(p, AT).value else |p|);
    AtIsNoKey();
    if byte == AT {
      if a.sawAt || a.keyLen == 0 || a.keyLen > 241 || !(a.firstLowercase || a.firstDigit) {
        ok := false;
        return;
      }
      r := r.(sawAt := true, systemLen := 0);
    } else {
      if !IsKeyByte(byte) {
        ok := false;
        return;
      }
      if a.keyLen == 0 {
        r := r.(firstLowercase := IsLowercase(byte), firstDigit := IsDigit(byte));
      }
      if a.sawAt {
        if a.systemLen == 0 && !IsLowercase(byte) {
          ok := false;
          return;
        }
        r := r.(systemLen := a.systemLen + 1);
        if r.systemLen > 14 {
          ok := false;
          return;
        }
      }
    }
    r := r.(keyLen := a.keyLen + 1);
    if r.keyLen > 256 {
      ok := false;
      return;
    }
    r := r.(keyHash := FnvStep(a.keyHash, byte));
  }

  lemma {:induction false} AtIsNoKey()
    ensures !IsKeyByte(AT) && !IsKeySpanByte(EQUALS)
  {}

  /** The parts of a key before and after one more byte, `at` being where it is divided. */
  lemma {:induction false} PartsAppend(p: ByteSeq, b: Byte, at: nat)
    requires at <= |p|
    ensures (p + [b])[..at] == p[..at]
    ensures at == |p| ==> (p + [b])[at + 1..] == [] && AllKeyBytes([]) && p[..at] == p
    ensures at < |p| ==> (p + [b])[at + 1..] == p[at + 1..] + [b] && (p + [b])[at + 1] == if at + 1 < |p| then p[at + 1] else b
    ensures at < |p| ==> (AllKeyBytes((p + [b])[at + 1..]) <==> AllKeyBytes(p[at + 1..]) && IsKeyByte(b))
  {
    hide IsKeyByte;
    if at < |p| {
      assert (p + [b])[at + 1..] == p[at + 1..] + [b];
      AllAppend(p[at + 1..], b);
    }
  }

  method FinishKey(a: ListState, ghost key: ByteSeq, ghost g: Place) returns (ok: bool, r: ListState)
    requires KeyTracked(a, key) && a.masks == g.masks && a.memberCount == g.count
    ensures ok <==> AcceptableKey(key, g.masks, g.count)
    ensures ok ==> r == a.(masks := Noted(g.masks, FnvFold(key)), memberCount := g.count + 1)
  {
    hide FindByte, FnvFold, KeyPrefix, ValidKey, Collides, Noted, IsLowercase, IsDigit;
    KeyIsPrefix(key);
    if a.keyLen == 0 || (!a.sawAt && !a.firstLowercase) || (a.sawAt && a.systemLen == 0) || a.memberCount >= MAX_MEMBERS {
      return false, a;
    }
    if Collides(a.masks, a.keyHash) {
      return false, a;
    }
    return true, a.(masks := Noted(a.masks, a.keyHash), memberCount := a.memberCount + 1);
  }

  predicate FinishValue(a: ListState) { a.hasNonSpace && 0 < a.significantLen <= 256 }

  /** A byte of a key, or the equals sign after it. */
  method KeyStep(s: ByteSeq, a: ListState, ghost g: Place, index: nat) returns (ok: bool, r: ListState, ghost h: Place)
    requires Follows(s, a, g, index) && a.phase == Key && index < |s|
    ensures if ok then Follows(s, r, h, index + 1) else !ScanMembers(s, 0, NO_KEYS, 0)
  {
    hide ScanMembers, KeyTracked, KeyBegun, AcceptableKey, Noted, FnvFold, IsKeySpanByte, IsMemberByte, KeyPrefix;
    h := g;
    var byte := s[index];
    BegunBounds(s, g, index);
    ghost var key := s[g.key..index];
    if byte == EQUALS {
      ok, r := FinishKey(a, key, g);
      h := g.(mark := index);
      KeyClosed(s, g, index);
      if !ok {
        KeyRefused(s, h);
        return;
      }
      r := r.(valueLen := 0, significantLen := 0, hasNonSpace := false, phase := Value);
      assert s[index + 1..index + 1] == [];
    } else {
      ok, r := CaptureKeyByte(a, byte, key);
      assert key + [byte] == s[g.key..index + 1];
      KeyGrows(s, g, index);
      if !ok {
        return;
      }
      r := r.(phase := Key);
      KeptTrack(r, s[g.key..index + 1]);
    }
  }

  lemma {:induction false} KeptTrack(a: ListState, p: ByteSeq)
    requires KeyTracked(a.(phase := Key), p) || KeyTracked(a, p)
    ensures KeyTracked(a.(phase := Key), p)
  {}

  lemma {:induction false} BegunBounds(s: ByteSeq, g: Place, i: nat)
    requires KeyBegun(s, g, i)
    ensures g.start <= g.key <= i <= |s|
  {}

  lemma {:induction false} KeyClosed(s: ByteSeq, g: Place, i: nat)
    requires KeyBegun(s, g, i) && i < |s| && s[i] == EQUALS
    ensures KeyBegun(s, g.(mark := i), i) && KeyEnd(s, g.key) == i
  {
    hide KeyEnd, OwsEnd, IsKeySpanByte;
    EqualsIsNoKey();
    KeyRun(s, g.key, i);
  }

  /** The key reaches one byte further, or the member is refused. */
  lemma {:induction false} KeyGrows(s: ByteSeq, g: Place, i: nat)
    requires KeyBegun(s, g, i) && i < |s| && s[i] != EQUALS
    ensures KeyPrefix(s[g.key..i + 1]) ==> KeyBegun(s, g, i + 1)
    ensures !KeyPrefix(s[g.key..i + 1]) ==> !ScanMembers(s, g.start, g.masks, g.count)
  {
    hide ScanMembers, KeyPrefix, OwsEnd;
    assert s[g.key..i + 1][i - g.key] == s[i];
    if !IsKeySpanByte(s[i]) {
      KeyRejected(s, g, i);
      if KeyPrefix(s[g.key..i + 1]) {
        PrefixBytes(s[g.key..i + 1]);
      }
    } else if !KeyPrefix(s[g.key..i + 1]) {
      KeyLost(s, g, i + 1);
    }
  }

  lemma {:induction false} PrefixBytes(p: ByteSeq)
    requires KeyPrefix(p)
    ensures forall i | 0 <= i < |p| :: IsKeySpanByte(p[i])
  {
    hide FindByte, IsKeyByte, IsLowercase, IsDigit;
    var at := FindByte(p, AT);
    if at.Some? {
      assert forall i | 0 <= i < at.value :: p[i] == p[..at.value][i];
      assert forall i | at.value < i < |p| :: p[i] == p[at.value + 1..][i - at.value - 1];
    }
  }

  /** A blank before a member, or its first byte. */
  method StartStep(s: ByteSeq, a: ListState, ghost g: Place, index: nat) returns (ok: bool, r: ListState, ghost h: Place)
    requires Follows(s, a, g, index) && a.phase == Start && index < |s|
    ensures if ok then Follows(s, r, h, index + 1) else !ScanMembers(s, 0, NO_KEYS, 0)
  {
    hide ScanMembers, KeyTracked, AcceptableKey, Noted, FnvFold, IsKeySpanByte, IsMemberByte, KeyPrefix, IsOws, OwsEnd;
    h := g;
    var byte := s[index];
    if IsOws(byte) {
      if index + 1 == |s| {
        NoMember(s, g);
        return false, a, g;
      }
      return true, a, g;
    }
    h := g.(key := index);
    OwsRun(s, g.start, index);
    if byte == COMMA {
      EqualsIsNoKey();
      KeyRejected(s, h, index);
      return false, a, g;
    }
    r := a.(keyHash := FNV_OFFSET, keyLen := 0, systemLen := 0, firstLowercase := false, firstDigit := false, sawAt := false, phase := Key);
    assert s[index..index] == [];
    NothingRead(r);
    SameScan(s, g, h);
    ok, r, h := KeyStep(s, r, h, index);
  }

  lemma {:induction false} NothingRead(a: ListState)
    requires a.keyHash == FNV_OFFSET && a.keyLen == 0 && a.systemLen == 0 && !a.firstLowercase && !a.firstDigit && !a.sawAt
    ensures KeyTracked(a, [])
  {
    hide FnvFold;
    HashEmpty();
  }

  lemma {:induction false} SameScan(s: ByteSeq, g: Place, h: Place)
    requires g.start <= |s| && h == g.(key := h.key)
    ensures ScanMembers(s, h.start, h.masks, h.count) == ScanMembers(s, g.start, g.masks, g.count)
  {}

  lemma {:induction false} ValueDecided(s: ByteSeq, a: ListState, g: Place, v: nat)
    requires Tracks(s, a, g, v) && a.phase == Value && (v == |s| || !IsMemberByte(s[v]))
    ensures ScanMembers(s, g.start, g.masks, g.count) <==>
            FinishValue(a) && (v == |s| || (s[v] == COMMA && v + 1 < |s| && ScanMembers(s, v + 1, a.masks, a.memberCount)))
  {
    hide ScanMembers, KeyRead, SignificantLen, Noted, FnvFold, MemberEnd, IsMemberByte;
    assert g.mark < |s| by { ReadBounds(s, g); }
    MemberRun(s, g.mark + 1, v);
    MemberUnfolds(s, g, v);
  }

  lemma {:induction false} ReadBounds(s: ByteSeq, g: Place)
    requires KeyRead(s, g)
    ensures g.start <= g.key <= g.mark < |s|
  {}

  /** A byte of a value, or the comma after it. */
  method ValueStep(s: ByteSeq, a: ListState, ghost g: Place, index: nat) returns (ok: bool, r: ListState, ghost h: Place)
    requires Follows(s, a, g, index) && a.phase == Value && index < |s|
    ensures if ok then Follows(s, r, h, index + 1) else !ScanMembers(s, 0, NO_KEYS, 0)
  {
    hide ScanMembers, KeyRead, SignificantLen, Noted, FnvFold;
    r, h := a, g;
    var byte := s[index];
    if byte == COMMA {
      EqualsIsNoKey();
      ValueDecided(s, a, g, index);
      if !FinishValue(a) || index + 1 == |s| {
        return false, a, g;
      }
      h := Place(index + 1, index + 1, index + 1, a.masks, a.memberCount);
      r := r.(phase := Start);
    } else {
      if !(0x20 <= byte <= 0x7e) || byte == EQUALS {
        ValueDecided(s, a, g, index);
        return false, a, g;
      }
      ReadBounds(s, g);
      SignificantAppend(s[g.mark + 1..index], byte);
      assert s[g.mark + 1..index] + [byte] == s[g.mark + 1..index + 1];
      r := r.(valueLen := r.valueLen + 1);
      if byte != SP {
        r := r.(significantLen := r.valueLen, hasNonSpace := true);
      }
    }
    ok := true;
  }

  /** The end of the list is accepted in a finished value only. */
  lemma {:induction false} ListEnds(s: ByteSeq, a: ListState, g: Place)
    requires Follows(s, a, g, |s|)
    ensures ScanMembers(s, 0, NO_KEYS, 0) <==> a.phase == Value && FinishValue(a)
  {
    hide ScanMembers, KeyRead, SignificantLen, Noted, FnvFold, KeyTracked, KeyBegun, IsOws, IsMemberByte;
    match a.phase
    case Start => NoMember(s, g);
    case Key => KeyRejected(s, g, |s|);
    case Value => ValueDecided(s, a, g, |s|);
  }

  class ListAutomaton {
    const value: ByteSeq

    var state: ListState
    ghost var place: Place

    constructor (value: ByteSeq)
      ensures this.value == value && At(0)
    {
      this.value := value;
      state, place := INITIAL_LIST, Place(0, 0, 0, NO_KEYS, 0);
    }

    ghost predicate At(i: nat)
      reads this
    {
      Follows(value, state, place, i)
    }

    method Step(index: nat) returns (result: PlanResult)
      requires At(index) && index < |value|
      modifies this
      ensures match result
              case Pending => At(index + 1) && index + 1 < |value|
              case Valid => ScanMembers(value, 0, NO_KEYS, 0)
              case Refused => !ScanMembers(value, 0, NO_KEYS, 0)
    {
      hide Follows, ScanMembers;
      var ok;
      match state.phase {
        case Start => ok, state, place := StartStep(value, state, place, index);
        case Key => ok, state, place := KeyStep(value, state, place, index);
        case Value => ok, state, place := ValueStep(value, state, place, index);
      }
      if !ok {
        return Refused;
      }
      if index + 1 == |value| {
        ListEnds(value, state, place);
        return if state.phase == Value && FinishValue(state) then Valid else Refused;
      }
      result := Pending;
    }
  }

  method RunTracestate(value: ByteSeq) returns (accepted: bool)
    ensures accepted == ScanTracestate(value)
  {
    hide Follows, ScanMembers;
    if value == [] || |value| > MAX_TRACESTATE_BYTES {
      return false;
    }
    var automaton := new ListAutomaton(value);
    var index := 0;
    var result := Pending;
    while result == Pending
      invariant automaton.value == value && index <= |value|
      invariant match result
                case Pending => index < |value| && automaton.At(index)
                case Valid => ScanMembers(value, 0, NO_KEYS, 0)
                case Refused => !ScanMembers(value, 0, NO_KEYS, 0)
      decreases |value| - index, result == Pending
    {
      result := automaton.Step(index);
      index := index + 1;
    }
    accepted := result == Valid;
  }
}
