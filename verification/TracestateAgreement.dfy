/**
  The one-pass validator against the host's. Whatever it accepts the host accepts: two masks cannot
  miss a repeated key. What the host accepts it accepts too, unless two different keys fall on the
  same mask bits or a tab follows a key.
 */
module TracestateAgreement {
  import opened Bytes
  import opened Ows
  import opened Fnv
  import opened Tracestate
  import opened BpfScan
  import opened BpfTracestate

  // ----- the masks -----

  lemma {:induction false} BitSet(x: bv64)
    ensures (1 as bv64) << (x & 63) != 0
  {}

  lemma {:induction false} OrKeeps(m: bv64, b: bv64, c: bv64)
    ensures m & c != 0 ==> (m | b) & c != 0
    ensures b != 0 ==> (m | b) & b != 0
  {}

  /** A key that has been noted collides with itself, now and after any further note. */
  lemma {:induction false} NotedCollides(m: Masks, h: Hash, g: Hash)
    ensures Collides(Noted(m, h), h)
    ensures Collides(m, g) ==> Collides(Noted(m, h), g)
  {
    hide LowBit, HighBit;
    OrKeeps(m.low, LowBit(h), LowBit(g));
    OrKeeps(m.high, HighBit(h), HighBit(g));
    BitsSet(h);
  }

  lemma {:induction false} BitsSet(h: Hash)
    ensures LowBit(h) != 0 && HighBit(h) != 0
  {
    BitSet(h.bits);
    BitSet(h.bits >> 32);
  }

  // ----- one member -----

  /** The bytes of `s` from `start` to `v`: blanks, a key, an equals sign and a value. */
  ghost predicate MemberShape(s: ByteSeq, start: nat, k: nat, e: nat, v: nat)
  {
    && start <= k < e < v <= |s| && s[e] == EQUALS && !IsOws(s[k])
    && (forall j | start <= j < k :: IsOws(s[j])) && (forall j | k <= j < e :: IsKeySpanByte(s[j]))
    && (forall j | e < j < v :: IsMemberByte(s[j]))
  }

  lemma {:induction false} SignificantEnd(v: ByteSeq)
    ensures SignificantLen(v) > 0 ==> v[SignificantLen(v) - 1] != SP
    ensures forall i | SignificantLen(v) <= i < |v| :: v[i] == SP
  {
    if v != [] && v[|v| - 1] == SP {
      SignificantEnd(v[..|v| - 1]);
    }
  }

  lemma {:induction false} ShapeTrimmed(s: ByteSeq, start: nat, k: nat, e: nat, v: nat, n: nat)
    requires MemberShape(s, start, k, e, v) && 0 < n <= v - e - 1 && s[e + n] != SP
    requires forall i | e + 1 + n <= i < v :: s[i] == SP
    ensures TrimOws(s[start..v]) == s[k..e + 1 + n]
  {
    hide TrimOws, IsKeySpanByte, IsMemberByte, IsOws;
    var raw := s[start..v];
    assert forall i | 0 <= i < |raw| :: raw[i] == s[start + i];
    BlankBytes();
    TrimIs(raw, k - start, e + 1 + n - start);
    SliceOfSlice(s, start, v, k - start, e + 1 + n - start);
  }

  lemma {:induction false} ShapeText(s: ByteSeq, start: nat, k: nat, e: nat, v: nat)
    requires MemberShape(s, start, k, e, v) && AcceptableValue(s[e + 1..v])
    ensures var n := SignificantLen(s[e + 1..v]);
            && 0 < n <= v - e - 1 && TrimOws(s[start..v]) == s[k..e + 1 + n]
            && FindByte(s[k..e + 1 + n], EQUALS) == Some(e - k) && s[k..e + 1 + n][..e - k] == s[k..e]
            && s[k..e + 1 + n][e - k + 1..] == s[e + 1..e + 1 + n] && ValidValue(s[e + 1..e + 1 + n])
  {
    hide TrimOws, FindByte, SignificantLen, IsKeySpanByte, IsMemberByte, IsOws;
    var value := s[e + 1..v];
    var n := SignificantLen(value);
    SignificantEnd(value);
    assert forall i | 0 <= i < |value| :: value[i] == s[e + 1 + i];
    assert forall i | e + 1 + n <= i < v :: s[i] == value[i - e - 1];
    assert s[e + n] == value[n - 1];
    ShapeTrimmed(s, start, k, e, v, n);
    var text := s[k..e + 1 + n];
    BlankBytes();
    assert text[e - k] == EQUALS;
    assert forall i | 0 <= i < e - k :: text[i] == s[k + i];
    var kept := s[e + 1..e + 1 + n];
    assert forall i | 0 <= i < n :: kept[i] == value[i];
  }

  lemma {:induction false} BlankBytes()
    ensures IsOws(SP) && !IsKeySpanByte(EQUALS) && forall b: Byte {:trigger IsMemberByte(b)} :: IsMemberByte(b) && b != SP ==> !IsOws(b)
    ensures forall b: Byte {:trigger IsKeySpanByte(b)} :: IsKeySpanByte(b) ==> b != COMMA && !IsOws(b)
  {}

  lemma {:induction false} SpanFacts(s: ByteSeq, i: nat)
    requires i <= |s|
    ensures (forall j | i <= j < OwsEnd(s, i) :: IsOws(s[j])) && (OwsEnd(s, i) < |s| ==> !IsOws(s[OwsEnd(s, i)]))
    ensures forall j | i <= j < KeyEnd(s, i) :: IsKeySpanByte(s[j])
    ensures forall j | i <= j < MemberEnd(s, i) :: IsMemberByte(s[j])
  {
    hide IsKeySpanByte, IsMemberByte, IsOws;
  }

  lemma {:induction false} ScannedParts(s: ByteSeq, start: nat, masks: Masks, count: nat) returns (k: nat, e: nat, v: nat)
    requires start <= |s| && ScanMembers(s, start, masks, count)
    ensures k == OwsEnd(s, start) && e == KeyEnd(s, k) < |s| && v == MemberEnd(s, e + 1) && s[e] == EQUALS
    ensures AcceptableValue(s[e + 1..v]) && AcceptableKey(s[k..e], masks, count)
    ensures v < |s| ==> s[v] == COMMA && v + 1 < |s| && ScanMembers(s, v + 1, Noted(masks, FnvFold(s[k..e])), count + 1)
  {
    hide AcceptableValue, AcceptableKey, Noted, FnvFold, OwsEnd, KeyEnd, MemberEnd;
    k := OwsEnd(s, start);
    e := KeyEnd(s, k);
    v := MemberEnd(s, e + 1);
  }

  lemma {:induction false} ScannedMember(s: ByteSeq, start: nat, masks: Masks, count: nat) returns (k: nat, e: nat, v: nat)
    requires start <= |s| && ScanMembers(s, start, masks, count)
    ensures MemberShape(s, start, k, e, v) && AcceptableValue(s[e + 1..v]) && AcceptableKey(s[k..e], masks, count)
    ensures v < |s| ==> s[v] == COMMA && v + 1 < |s| && ScanMembers(s, v + 1, Noted(masks, FnvFold(s[k..e])), count + 1)
    ensures forall j | start <= j < v :: s[j] != COMMA
  {
    hide AcceptableValue, AcceptableKey, Noted, FnvFold, IsKeySpanByte, IsMemberByte, IsOws, OwsEnd, KeyEnd, MemberEnd, ScanMembers;
    k, e, v := ScannedParts(s, start, masks, count);
    SomeKey(s[k..e], masks, count);
    SomeValue(s[e + 1..v]);
    SpanFacts(s, start);
    SpanFacts(s, k);
    SpanFacts(s, e + 1);
    CommaBytes();
  }

  lemma {:induction false} SomeKey(key: ByteSeq, masks: Masks, count: nat)
    requires AcceptableKey(key, masks, count)
    ensures key != []
  {
    hide FnvFold, Collides;
  }

  lemma {:induction false} SomeValue(v: ByteSeq)
    requires AcceptableValue(v)
    ensures v != []
  {}

  lemma {:induction false} CommaBytes()
    ensures !IsOws(COMMA) && !IsKeySpanByte(COMMA) && !IsMemberByte(COMMA) && EQUALS != COMMA
  {}

  // ----- what the one-pass validator asks for beyond the host -----

  /** Blanks after a key are spaces. */
  ghost predicate NoTabs(member: ByteSeq) { TAB !in TrimLeft(member) }

  /** The masks after the keys of the first `n` members. */
  ghost function MasksOf(members: seq<ByteSeq>, n: nat): Masks
    requires n <= |members| && forall j | 0 <= j < n :: KeyOf(members[j]).Some?
  {
    if n == 0 then NO_KEYS else Noted(MasksOf(members, n - 1), FnvFold(KeyOf(members[n - 1]).value))
  }

  /** Every key noted so far would be recognised. */
  lemma {:induction false} MasksCollide(members: seq<ByteSeq>, n: nat, j: nat)
    requires j < n <= |members| && forall i | 0 <= i < n :: KeyOf(members[i]).Some?
    ensures Collides(MasksOf(members, n), FnvFold(KeyOf(members[j]).value))
    decreases n
  {
    hide KeyOf, Collides, Noted, FnvFold;
    var g := FnvFold(KeyOf(members[j]).value);
    NotedCollides(MasksOf(members, n - 1), FnvFold(KeyOf(members[n - 1]).value), g);
    if j < n - 1 {
      MasksCollide(members, n - 1, j);
    }
  }

  lemma {:induction false} ShapeNoTabs(s: ByteSeq, start: nat, k: nat, e: nat, v: nat)
    requires MemberShape(s, start, k, e, v)
    ensures NoTabs(s[start..v])
  {
    hide TrimLeft;
    var raw := s[start..v];
    assert forall i | 0 <= i < |raw| :: raw[i] == s[start + i];
    var n := TrimLeftFacts(raw);
    assert n == k - start;
    assert forall i | 0 <= i < |raw| - n :: TrimLeft(raw)[i] == s[k + i];
  }

  /** The members from `count` on are told apart by the masks and free of tabs. */
  ghost predicate Plain(members: seq<ByteSeq>, count: nat)
  {
    && (forall j | 0 <= j < |members| :: KeyOf(members[j]).Some?)
    && (forall n | count <= n < |members| :: !Collides(MasksOf(members, n), FnvFold(KeyOf(members[n]).value)))
    && forall n | count <= n < |members| :: NoTabs(members[n])
  }

  /** A scanned member, as the host reads it. */
  lemma {:induction false} MemberSound(s: ByteSeq, start: nat, masks: Masks, count: nat) returns (key: ByteSeq, v: nat)
    requires start <= |s| && ScanMembers(s, start, masks, count)
    ensures start <= v <= |s| && Split(s[start..]) == [s[start..v]] + if v < |s| then Split(s[v + 1..]) else []
    ensures MemberFault(s[start..v]).None? && KeyOf(s[start..v]) == Some(key) && NoTabs(s[start..v])
    ensures count < MAX_MEMBERS && !Collides(masks, FnvFold(key))
    ensures v < |s| ==> ScanMembers(s, v + 1, Noted(masks, FnvFold(key)), count + 1)
  {
    hide ScanMembers, AcceptableValue, Noted, FnvFold, MemberShape, Split, FindByte, TrimOws, ValidKey, ValidValue, Collides, NoTabs;
    var k, e;
    k, e, v := ScannedMember(s, start, masks, count);
    ShapeText(s, start, k, e, v);
    ShapeBounds(s, start, k, e, v);
    ShapeNoTabs(s, start, k, e, v);
    SplitNext(s, start, v);
    key := s[k..e];
  }

  /** Every list the one-pass validator accepts is faultless to the host, and plain. */
  lemma {:induction false} MembersSound(s: ByteSeq, start: nat, count: nat, members: seq<ByteSeq>)
    requires start <= |s| && count <= |members| && Split(s[start..]) == members[count..]
    requires forall j | 0 <= j < count :: KeyOf(members[j]).Some?
    requires ScanMembers(s, start, MasksOf(members, count), count)
    ensures FirstFault(members, count).None? && Plain(members, count)
    decreases |s| - start
  {
    hide ScanMembers, Noted, FnvFold, Split, Collides, NoTabs, MemberFault, KeyOf;
    var masks := MasksOf(members, count);
    var key, v := MemberSound(s, start, masks, count);
    assert members[count..][0] == members[count] == s[start..v];
    forall j | 0 <= j < count
      ensures KeyOf(members[j]) != Some(key)
    {
      MasksCollide(members, count, j);
    }
    assert members[count..][1..] == members[count + 1..];
    if v < |s| {
      MembersSound(s, v + 1, count + 1, members);
    } else {
      assert |members[count..]| == 1;
    }
  }

  lemma {:induction false} ShapeBounds(s: ByteSeq, start: nat, k: nat, e: nat, v: nat)
    requires MemberShape(s, start, k, e, v)
    ensures start <= k < e < v <= |s|
  {}

  lemma {:induction false} ValidKeyBytes(key: ByteSeq)
    requires ValidKey(key)
    ensures key != [] && forall i | 0 <= i < |key| :: IsKeySpanByte(key[i])
  {
    hide KeyPrefix, ValidKey, IsKeySpanByte;
    KeyIsPrefix(key);
    PrefixBytes(key);
  }

  lemma {:induction false} HostText(raw: ByteSeq) returns (lo: nat, at: nat, hi: nat)
    requires MemberFault(raw).None?
    ensures lo < lo + at < hi - 1 < |raw| && !IsOws(raw[lo]) && raw[lo + at] == EQUALS
    ensures forall i | 0 <= i < lo || hi <= i < |raw| :: IsOws(raw[i])
    ensures ValidKey(raw[lo..lo + at]) && KeyOf(raw) == Some(raw[lo..lo + at]) && ValidValue(raw[lo + at + 1..hi])
  {
    hide TrimOws, FindByte, ValidKey, IsMemberByte;
    lo, hi := TrimFacts(raw);
    var m := TrimOws(raw);
    at := FindByte(m, EQUALS).value;
    assert m[..at] == raw[lo..lo + at];
    ValidKeyBytes(m[..at]);
    assert m[at + 1..] == raw[lo + at + 1..hi];
  }

  lemma {:induction false} HostShape(raw: ByteSeq) returns (k: nat, e: nat)
    requires MemberFault(raw).None? && NoTabs(raw)
    ensures MemberShape(raw, 0, k, e, |raw|) && AcceptableValue(raw[e + 1..]) && ValidKey(raw[k..e]) && KeyOf(raw) == Some(raw[k..e])
  {
    hide IsKeySpanByte, IsMemberByte, ValidKey, MemberFault, NoTabs, IsOws, KeyOf;
    var lo, at, hi := HostText(raw);
    k, e := lo, lo + at;
    ValidKeyBytes(raw[k..e]);
    assert forall j | k <= j < e :: raw[j] == raw[k..e][j - k];
    TailIsSpaces(raw, lo, hi);
    SpaceIsMember();
    var value := raw[e + 1..hi];
    assert forall j | e < j < hi :: raw[j] == value[j - e - 1];
    var rest := raw[e + 1..];
    assert forall j | 0 <= j < |rest| :: rest[j] == raw[e + 1 + j];
    assert rest[|value| - 1] == value[|value| - 1];
    SignificantPart(rest, |value|);
  }

  /** A faultless member without tabs has the shape the one-pass validator looks for. */
  lemma {:induction false} HostMember(s: ByteSeq, start: nat, v: nat) returns (k: nat, e: nat)
    requires start <= v <= |s| && MemberFault(s[start..v]).None? && NoTabs(s[start..v])
    ensures MemberShape(s, start, k, e, v) && AcceptableValue(s[e + 1..v]) && ValidKey(s[k..e]) && KeyOf(s[start..v]) == Some(s[k..e])
  {
    hide IsKeySpanByte, IsMemberByte, ValidKey, MemberFault, NoTabs, IsOws, KeyOf, AcceptableValue;
    var raw := s[start..v];
    var lo, at := HostShape(raw);
    k, e := start + lo, start + at;
    assert forall j | start <= j < v :: s[j] == raw[j - start];
    assert raw[lo..at] == s[k..e] && raw[at + 1..] == s[e + 1..v];
  }

  lemma {:induction false} SpaceIsMember()
    ensures IsMemberByte(SP)
  {}

  lemma {:induction false} TailIsSpaces(raw: ByteSeq, lo: nat, hi: nat)
    requires NoTabs(raw) && lo < hi <= |raw| && !IsOws(raw[lo])
    requires forall i | 0 <= i < lo || hi <= i < |raw| :: IsOws(raw[i])
    ensures forall i | hi <= i < |raw| :: raw[i] == SP
  {
    hide TrimLeft;
    var n := TrimLeftFacts(raw);
    assert n == lo;
    assert forall i | lo <= i < |raw| :: raw[i] == TrimLeft(raw)[i - lo];
  }

  lemma {:induction false} SignificantPart(v: ByteSeq, n: nat)
    requires 0 < n <= |v| && v[n - 1] != SP && forall i | n <= i < |v| :: v[i] == SP
    ensures SignificantLen(v) == n
    decreases |v|
  {
    if n < |v| {
      SignificantPart(v[..|v| - 1], n);
    }
  }

  lemma {:induction false} ShapeScans(s: ByteSeq, start: nat, k: nat, e: nat, v: nat, masks: Masks, count: nat)
    requires MemberShape(s, start, k, e, v) && AcceptableValue(s[e + 1..v]) && AcceptableKey(s[k..e], masks, count)
    requires v < |s| ==> s[v] == COMMA && v + 1 < |s| && ScanMembers(s, v + 1, Noted(masks, FnvFold(s[k..e])), count + 1)
    ensures ScanMembers(s, start, masks, count)
  {
    hide AcceptableValue, AcceptableKey, Noted, FnvFold, IsKeySpanByte, IsMemberByte, IsOws, OwsEnd, KeyEnd, MemberEnd;
    CommaBytes();
    BlankBytes();
    OwsRun(s, start, k);
    KeyRun(s, k, e);
    MemberRun(s, e + 1, v);
  }

  lemma {:induction false} MembersComplete(s: ByteSeq, start: nat, count: nat, members: seq<ByteSeq>)
    requires start <= |s| && count < |members| <= MAX_MEMBERS && Split(s[start..]) == members[count..]
    requires Plain(members, 0) && forall i | 0 <= i < |members| :: MemberFault(members[i]).None?
    ensures ScanMembers(s, start, MasksOf(members, count), count)
    decreases |s| - start
  {
    hide ScanMembers, AcceptableValue, Noted, FnvFold, MemberShape, Split, FindByte, ValidKey, Collides, MemberFault, NoTabs, KeyOf;
    var comma := FindByte(s[start..], COMMA);
    var v := start + if comma.Some? then comma.value else |s| - start;
    MemberEnds(s, start, v, comma);
    SplitNext(s, start, v);
    assert members[count..][0] == members[count] == s[start..v];
    var k, e := HostMember(s, start, v);
    ShapeBounds(s, start, k, e, v);
    var masks := MasksOf(members, count);
    if v < |s| {
      assert members[count..][1..] == members[count + 1..];
      assert |Split(s[v + 1..])| > 0;
      if v + 1 == |s| {
        EmptyMember(s, members, count);
      }
      MembersComplete(s, v + 1, count + 1, members);
    }
    ShapeScans(s, start, k, e, v, masks, count);
  }

  /** A list does not end in a comma. */
  lemma {:induction false} EmptyMember(s: ByteSeq, members: seq<ByteSeq>, count: nat)
    requires count + 1 < |members| && Split(s[|s|..]) == members[count + 1..]
    ensures MemberFault(members[count + 1]).Some?
  {
    assert s[|s|..] == [];
    assert members[count + 1..][0] == members[count + 1];
  }

  /**
    The one-pass validator accepts exactly the lists that the host accepts and in which the masks
    tell all keys apart and no tab follows a key.
   */
  lemma {:induction false} ValidatorsAgree(value: ByteSeq)
    ensures ScanTracestate(value) <==> Verdict(value).None? && Plain(Split(value), 0)
  {
    hide ScanMembers, FirstFault, Split, Plain, MemberFault;
    AcceptedLists(value);
    var members := Split(value);
    assert value[0..] == value;
    assert members[0..] == members;
    if ScanTracestate(value) {
      MembersSound(value, 0, 0, members);
    } else if Verdict(value).None? && Plain(members, 0) {
      MembersComplete(value, 0, 0, members);
    }
  }

  // ----- lists that only the host accepts -----

  // "a=b" and a tab
  const TABBED_LIST: ByteSeq := [97, EQUALS, 98, TAB]

  /** A member of a key, an equals sign and a value of one byte, perhaps with blanks behind it. */
  lemma {:induction false} SmallMember(m: ByteSeq, n: nat)
    requires 0 < n && n + 2 <= |m| && m[n] == EQUALS && IsMemberByte(m[n + 1]) && m[n + 1] != SP && ValidKey(m[..n])
    requires (forall i | 0 <= i < n :: m[i] != EQUALS) && !IsOws(m[0]) && forall i | n + 2 <= i < |m| :: IsOws(m[i])
    ensures MemberFault(m).None? && KeyOf(m) == Some(m[..n])
  {
    hide TrimOws, FindByte, ValidKey;
    BlankBytes();
    TrimIs(m, 0, n + 2);
    var t := m[0..n + 2];
    assert FindByte(t, EQUALS) == Some(n);
    assert t[..n] == m[..n] && t[n + 1..] == [m[n + 1]];
  }

  lemma {:induction false} LetterKey(key: ByteSeq)
    requires 0 < |key| <= 256 && forall i | 0 <= i < |key| :: IsLowercase(key[i])
    ensures ValidKey(key)
  {
    hide FindByte;
    assert FindByte(key, AT).None?;
  }

  /** A tab behind a value makes the validators differ. */
  lemma {:induction false} TabsDiffer()
    ensures Verdict(TABBED_LIST).None? && !ScanTracestate(TABBED_LIST)
  {
    hide FirstFault, Split, MemberFault, KeyOf, ScanMembers, TrimLeft;
    var v := TABBED_LIST;
    assert v[..1] == [97] && v[0..] == v && v[0..4] == v;
    LetterKey(v[..1]);
    SmallMember(v, 1);
    SplitNext(v, 0, 4);
    AcceptedLists(v);
    ValidatorsAgree(v);
    var n := TrimLeftFacts(v);
    assert TrimLeft(v)[3] == TAB;
    assert !NoTabs(Split(v)[0]);
  }

  // "aa=1,em=1"
  const CONFUSED_LIST: ByteSeq := [97, 97, EQUALS, 49, COMMA, 101, 109, EQUALS, 49]

  lemma {:induction false} ConfusedHashes()
    ensures FnvFold([97, 97]) == Hash(0x89c4307b54596b7) && FnvFold([101, 109]) == Hash(0x88e3707b53944f7)
  {
    hide FnvFold, FnvStep;
    HashEmpty();
    HashAppend([], 97);
    HashAppend([97], 97);
    HashAppend([], 101);
    HashAppend([101], 109);
    assert [] + [97] == [97] && [97] + [97] == [97, 97] && [] + [101] == [101] && [101] + [109] == [101, 109];
    ConfusedSteps();
  }

  lemma {:induction false} ConfusedSteps()
    ensures FnvStep(FNV_OFFSET, 97) == Hash(0xaf63dc4c8601ec8c) && FnvStep(Hash(0xaf63dc4c8601ec8c), 97) == Hash(0x89c4307b54596b7)
    ensures FnvStep(FNV_OFFSET, 101) == Hash(0xaf63d84c8601e5c0) && FnvStep(Hash(0xaf63d84c8601e5c0), 109) == Hash(0x88e3707b53944f7)
  {
    hide Bits;
    Letters();
    assert Bits(109) == 109 by { LetterM(); }
  }

  lemma {:induction false} LetterM()
    ensures Bits(109) == 109
  {}

  lemma {:induction false} ConfusedMasks()
    ensures Collides(Noted(NO_KEYS, Hash(0x89c4307b54596b7)), Hash(0x88e3707b53944f7))
  {}

  lemma {:induction false} ConfusedMembers()
    ensures Split(CONFUSED_LIST) == [[97, 97, EQUALS, 49], [101, 109, EQUALS, 49]]
    ensures MemberFault([97, 97, EQUALS, 49]).None? && KeyOf([97, 97, EQUALS, 49]) == Some([97, 97])
    ensures MemberFault([101, 109, EQUALS, 49]).None? && KeyOf([101, 109, EQUALS, 49]) == Some([101, 109])
  {
    hide Split, MemberFault, KeyOf, FindByte, ValidKey, TrimOws;
    var v: ByteSeq, a: ByteSeq, b: ByteSeq := CONFUSED_LIST, [97, 97, EQUALS, 49], [101, 109, EQUALS, 49];
    assert v[0..] == v && v[0..4] == a && v[5..9] == b;
    SplitNext(v, 0, 4);
    SplitNext(v, 5, 9);
    assert a[..2] == [97, 97] && b[..2] == [101, 109];
    LetterKey(a[..2]);
    LetterKey(b[..2]);
    SmallMember(a, 2);
    SmallMember(b, 2);
  }

  /** So do two different keys that fall on the same mask bits. */
  lemma {:induction false} KeysConfused()
    ensures Verdict(CONFUSED_LIST).None? && !ScanTracestate(CONFUSED_LIST)
  {
    hide FirstFault, Split, MemberFault, KeyOf, ScanMembers, Collides, Noted, FnvFold, NoTabs;
    var members: seq<ByteSeq> := [[97, 97, EQUALS, 49], [101, 109, EQUALS, 49]];
    ConfusedMembers();
    ConfusedHashes();
    ConfusedMasks();
    assert MasksOf(members, 0) == NO_KEYS && MasksOf(members, 1) == Noted(NO_KEYS, FnvFold([97, 97]));
    assert Collides(MasksOf(members, 1), FnvFold(KeyOf(members[1]).value));
    AcceptedLists(CONFUSED_LIST);
    ValidatorsAgree(CONFUSED_LIST);
  }
}
