/**
  Validation of a tracestate list (section 3.3 of W3C Trace Context) by the host library.
 */
module Tracestate {
  import opened Bytes

  const MAX_TRACESTATE_BYTES: nat := 512
  const MAX_MEMBERS: nat := 32

  datatype TraceStateError = MalformedHttp1 | TooLong | TooManyMembers | InvalidKey | InvalidValue | DuplicateKey

  // ----- the grammar -----

  predicate IsKeyByte(b: Byte) { IsLowercase(b) || IsDigit(b) || b == 95 || b == DASH || b == 42 || b == 47 }

  predicate AllKeyBytes(s: ByteSeq) { forall i | 0 <= i < |s| :: IsKeyByte(s[i]) }

  predicate ValidKey(key: ByteSeq)
  {
    match FindByte(key, AT)
    case None => 0 < |key| <= 256 && IsLowercase(key[0]) && AllKeyBytes(key)
    case Some(at) =>
      var tenant, system := key[..at], key[at + 1..];
      && 0 < |tenant| <= 241 && (IsLowercase(tenant[0]) || IsDigit(tenant[0])) && AllKeyBytes(tenant)
      && 0 < |system| <= 14 && IsLowercase(system[0]) && AllKeyBytes(system)
  }

  predicate IsMemberByte(b: Byte) { 0x20 <= b <= 0x7e && b != COMMA && b != EQUALS }

  predicate ValidValue(value: ByteSeq)
  {
    0 < |value| <= 256 && value[|value| - 1] != SP && forall i | 0 <= i < |value| :: IsMemberByte(value[i])
  }

  /** The list members, untrimmed. */
  function Split(s: ByteSeq): (r: seq<ByteSeq>)
    ensures r != []
    decreases |s|
  {
    match FindByte(s, COMMA)
    case None => [s]
    case Some(k) => [s[..k]] + Split(s[k + 1..])
  }

  function KeyOf(member: ByteSeq): Option<ByteSeq>
  {
    var m := TrimOws(member);
    match FindByte(m, EQUALS) case None => None case Some(at) => Some(m[..at])
  }

  /** The first fault of one member by itself. */
  function MemberFault(member: ByteSeq): Option<TraceStateError>
  {
    var m := TrimOws(member);
    if m == [] then Some(InvalidValue)
    else
      match FindByte(m, EQUALS)
      case None => Some(InvalidKey)
      case Some(at) =>
        if !ValidKey(m[..at]) then Some(InvalidKey)
        else if !ValidValue(m[at + 1..]) then Some(InvalidValue)
        else None
  }

  ghost predicate KeySeen(members: seq<ByteSeq>, n: nat, key: ByteSeq)
  {
    exists j | 0 <= j < n && j < |members| :: KeyOf(members[j]) == Some(key)
  }

  /** The first fault from member `n` on. */
  ghost function FirstFault(members: seq<ByteSeq>, n: nat): Option<TraceStateError>
    requires n <= |members|
    decreases |members| - n
  {
    if n == |members| then None
    else if n >= MAX_MEMBERS then Some(TooManyMembers)
    else if MemberFault(members[n]).Some? then MemberFault(members[n])
    else if KeySeen(members, n, KeyOf(members[n]).value) then Some(DuplicateKey)
    else FirstFault(members, n + 1)
  }

  ghost function Verdict(value: ByteSeq): Option<TraceStateError>
  {
    if |value| > MAX_TRACESTATE_BYTES then Some(TooLong)
    else if value == [] then Some(InvalidValue)
    else FirstFault(Split(value), 0)
  }

  /** What acceptance means, member by member. */
  ghost predicate ValidList(members: seq<ByteSeq>)
  {
    && |members| <= MAX_MEMBERS && (forall i | 0 <= i < |members| :: MemberFault(members[i]).None?)
    && forall i, j | 0 <= j < i < |members| :: KeyOf(members[j]) != KeyOf(members[i])
  }

  lemma {:induction false} NoFault(members: seq<ByteSeq>, n: nat)
    requires n <= |members|
    ensures FirstFault(members, n).None? <==>
            && (n < |members| ==> |members| <= MAX_MEMBERS)
            && (forall i | n <= i < |members| :: MemberFault(members[i]).None?)
            && (forall i, j | 0 <= j < i < |members| && n <= i :: KeyOf(members[j]) != KeyOf(members[i]))
    decreases |members| - n
  {
    hide MemberFault, KeyOf;
    if n < |members| {
      NoFault(members, n + 1);
      if MemberFault(members[n]).None? {
        HasKey(members[n]);
      }
    }
  }

  lemma {:induction false} HasKey(member: ByteSeq)
    requires MemberFault(member).None?
    ensures KeyOf(member).Some?
  {
    hide TrimOws, FindByte, ValidKey, ValidValue;
  }

  /** A list is accepted exactly when it is short enough, well formed and free of repeated keys. */
  lemma {:induction false} AcceptedLists(value: ByteSeq)
    ensures Verdict(value).None? <==> 0 < |value| <= MAX_TRACESTATE_BYTES && ValidList(Split(value))
  {
    hide FirstFault, MemberFault, KeyOf;
    NoFault(Split(value), 0);
  }

  // ----- the loops of the library -----

  lemma {:induction false} SplitNext(s: ByteSeq, from: nat, end: nat)
    requires from <= end <= |s| && (end < |s| ==> s[end] == COMMA) && forall j | from <= j < end :: s[j] != COMMA
    ensures FindByte(s[from..], COMMA) == if end < |s| then Some(end - from) else None
    ensures Split(s[from..]) == [s[from..end]] + if end < |s| then Split(s[end + 1..]) else []
  {
    hide FindByte;
    var t := s[from..];
    assert forall j | 0 <= j < |t| :: t[j] == s[from + j];
    assert t[..end - from] == s[from..end];
    if end < |s| {
      assert t[end - from] == COMMA;
      assert t[end - from + 1..] == s[end + 1..];
    } else {
      assert t == s[from..end];
    }
  }

  /** `starts` are the places of the first members of the list, and of the next one. */
  ghost predicate Starts(value: ByteSeq, members: seq<ByteSeq>, starts: seq<nat>)
  {
    && 0 < |starts| <= |members| + 1 && starts[0] == 0
    && (forall i | 0 <= i < |starts| :: starts[i] <= |value|)
    && (forall i | 0 < i < |starts| :: starts[i - 1] < starts[i] && value[starts[i] - 1] == COMMA)
    && (forall i | 0 < i < |starts| :: members[i - 1] == value[starts[i - 1]..starts[i] - 1])
    && (forall i, j | 0 < i < |starts| && starts[i - 1] <= j < starts[i] - 1 :: value[j] != COMMA)
  }

  lemma {:induction false} Increasing(value: ByteSeq, members: seq<ByteSeq>, starts: seq<nat>, i: nat, j: nat)
    requires Starts(value, members, starts) && i < j < |starts|
    ensures starts[i] < starts[j]
    decreases j
  {
    if i < j - 1 {
      Increasing(value, members, starts, i, j - 1);
    }
  }

  lemma {:induction false} FirstComma(value: ByteSeq, from: nat, end: nat, to: nat)
    requires from <= end < to <= |value| && value[end] == COMMA && forall j | from <= j < end :: value[j] != COMMA
    ensures FindByte(value[from..to], COMMA) == Some(end - from)
  {
    hide FindByte;
    var t := value[from..to];
    assert t[end - from] == COMMA;
    assert forall j | 0 <= j < end - from :: t[j] == value[from + j];
  }

  /** Does a member before the one at `currentStart` have this key? */
  method KeySeenBefore(value: ByteSeq, currentStart: nat, key: ByteSeq, ghost members: seq<ByteSeq>, ghost starts: seq<nat>)
    returns (seen: bool)
    requires Starts(value, members, starts) && starts[|starts| - 1] == currentStart
    ensures seen <==> KeySeen(members, |starts| - 1, key)
  {
    hide TrimOws, FindByte;
    var memberStart := 0;
    ghost var j := 0;
    while memberStart < currentStart
      invariant j < |starts| && memberStart == starts[j]
      invariant forall i | 0 <= i < j :: KeyOf(members[i]) != Some(key)
      decreases currentStart - memberStart
    {
      ghost var next := starts[j + 1];
      Later(value, members, starts, j + 1);
      FirstComma(value, memberStart, next - 1, currentStart);
      var relativeEnd := FindByte(value[memberStart..currentStart], COMMA);
      var memberEnd := memberStart + relativeEnd.value;
      var member := TrimOws(value[memberStart..memberEnd]);
      var equals := FindByte(member, EQUALS);
      if equals.Some? && member[..equals.value] == key {
        assert KeyOf(members[j]) == Some(key);
        return true;
      }
      memberStart := memberEnd + 1;
      j := j + 1;
    }
    if j < |starts| - 1 {
      Increasing(value, members, starts, j, |starts| - 1);
    }
    seen := false;
  }

  lemma {:induction false} Later(value: ByteSeq, members: seq<ByteSeq>, starts: seq<nat>, j: nat)
    requires Starts(value, members, starts) && j < |starts|
    ensures starts[j] <= starts[|starts| - 1]
  {
    if j < |starts| - 1 {
      Increasing(value, members, starts, j, |starts| - 1);
    }
  }

  lemma {:induction false} OneMore(value: ByteSeq, members: seq<ByteSeq>, starts: seq<nat>, end: nat)
    requires Starts(value, members, starts) && |starts| <= |members|
    requires starts[|starts| - 1] <= end < |value| && value[end] == COMMA && members[|starts| - 1] == value[starts[|starts| - 1]..end]
    requires forall j | starts[|starts| - 1] <= j < end :: value[j] != COMMA
    ensures Starts(value, members, starts + [end + 1])
  {}

  /** One member by itself: its fault, or its key. */
  method CheckMember(raw: ByteSeq) returns (fault: Option<TraceStateError>, key: ByteSeq)
    ensures fault == MemberFault(raw)
    ensures fault.None? ==> KeyOf(raw) == Some(key)
  {
    hide TrimOws, FindByte, ValidKey, ValidValue;
    var member := TrimOws(raw);
    key := [];
    if member == [] {
      return Some(InvalidValue), key;
    }
    var equals := FindByte(member, EQUALS);
    if equals.None? {
      return Some(InvalidKey), key;
    }
    key := member[..equals.value];
    if !ValidKey(key) {
      return Some(InvalidKey), key;
    }
    if !ValidValue(member[equals.value + 1..]) {
      return Some(InvalidValue), key;
    }
    fault := None;
  }

  method ValidateTracestate(value: ByteSeq) returns (fault: Option<TraceStateError>)
    ensures fault == Verdict(value)
  {
    hide FindByte, MemberFault, KeyOf, KeySeen, Starts, Split;
    if |value| > MAX_TRACESTATE_BYTES {
      return Some(TooLong);
    }
    if value == [] {
      return Some(InvalidValue);
    }
    ghost var members := Split(value);
    ghost var starts: seq<nat> := [0];
    var memberStart := 0;
    var count := 0;
    assert value[0..] == value;
    assert Starts(value, members, [0]) by { FirstStart(value, members); }
    assert members[0..] == members;
    while true
      invariant |starts| == count + 1 && count < |members| && memberStart == starts[count] <= |value|
      invariant Starts(value, members, starts) && Split(value[memberStart..]) == members[count..]
      invariant FirstFault(members, 0) == FirstFault(members, count)
      decreases |value| - memberStart
    {
      count := count + 1;
      if count > MAX_MEMBERS {
        return Some(TooManyMembers);
      }
      var relativeEnd := FindByte(value[memberStart..], COMMA);
      var memberEnd := memberStart + if relativeEnd.Some? then relativeEnd.value else |value| - memberStart;
      MemberEnds(value, memberStart, memberEnd, relativeEnd);
      SplitNext(value, memberStart, memberEnd);
      assert members[count - 1] == members[count - 1..][0] == value[memberStart..memberEnd];
      var key;
      fault, key := CheckMember(value[memberStart..memberEnd]);
      if fault.Some? {
        return;
      }
      var seen := KeySeenBefore(value, memberStart, key, members, starts);
      if seen {
        return Some(DuplicateKey);
      }
      assert members[count - 1..][1..] == members[count..];
      if memberEnd == |value| {
        assert |members[count - 1..]| == 1;
        break;
      }
      OneMore(value, members, starts, memberEnd);
      starts := starts + [memberEnd + 1];
      memberStart := memberEnd + 1;
    }
    fault := None;
  }

  lemma {:induction false} FirstStart(value: ByteSeq, members: seq<ByteSeq>)
    requires members != []
    ensures Starts(value, members, [0])
  {}

  lemma {:induction false} MemberEnds(value: ByteSeq, from: nat, end: nat, comma: Option<nat>)
    requires from <= |value| && comma == FindByte(value[from..], COMMA)
    requires end == from + if comma.Some? then comma.value else |value| - from
    ensures from <= end <= |value| && (end < |value| <==> comma.Some?) && (end < |value| ==> value[end] == COMMA)
    ensures forall j | from <= j < end :: value[j] != COMMA
  {
    hide FindByte;
    var t := value[from..];
    assert forall j | from <= j < |value| :: value[j] == t[j - from];
  }
}
