/**
  The request-line automaton of the kernel-side planner.
 */
module BpfRequestLine {
  import opened Bytes
  import opened Http1
  import opened BpfScan
  import opened BpfHeaders

  datatype LinePhase = Method | Target | Version | RequestLf

  function ConnectByte(index: nat): Byte { if index < 7 then METHOD_CONNECT[index] else 0 }
  function PriByte(index: nat): Byte { if index < 3 then METHOD_PRI[index] else 0 }
  function VersionByte(index: nat): Byte { if index < 7 then VERSION_PREFIX[index] else if index == 7 then 48 else 0 }

  predicate VersionMatches(index: nat, b: Byte)
  {
    if index == 7 then b == 48 || b == 49 else b == VersionByte(index)
  }

  datatype LineState = LineState(componentLen: nat, phase: LinePhase, isConnect: bool, isPri: bool)

  /** `m` and `t` are where the method and the target ended. */
  ghost predicate Tracks(s: ByteSeq, i: nat, a: LineState, m: nat, t: nat)
  {
    && i <= |s|
    && match a.phase
       case Method =>
         && a.componentLen == i <= 16
         && (forall j | 0 <= j < i :: IsMethodByte(s[j]))
         && (a.isConnect <==> s[..i] <= METHOD_CONNECT) && (a.isPri <==> s[..i] <= METHOD_PRI)
       case Target =>
         && MethodRead(s, m) && m < i && a.componentLen == i - m - 1
         && (forall j | m < j < i :: IsTargetByte(s[j]))
       case Version =>
         && MethodRead(s, m) && TargetRead(s, m, t) && t < i && a.componentLen == i - t - 1
         && (forall j | t < j < i :: VersionMatches(j - t - 1, s[j]))
       case RequestLf =>
         && MethodRead(s, m) && TargetRead(s, m, t) && i == t + 10 && s[t + 9] == CR
         && (forall j | t < j < t + 9 :: VersionMatches(j - t - 1, s[j]))
  }

  ghost predicate MethodRead(s: ByteSeq, m: nat)
  {
    && m < |s| && s[m] == SP && MethodEnd(s) == m && 1 <= m <= 16
    && s[..m] != METHOD_CONNECT && s[..m] != METHOD_PRI
  }

  ghost predicate TargetRead(s: ByteSeq, m: nat, t: nat)
    requires m < |s|
  {
    m + 1 < t < |s| && s[t] == SP && TargetEnd(s, m + 1) == t
  }

  lemma {:induction false} MethodRun(s: ByteSeq, n: nat)
    requires n <= |s| && forall j | 0 <= j < n :: IsMethodByte(s[j])
    ensures MethodEnd(s) >= n
    ensures n == |s| || !IsMethodByte(s[n]) ==> MethodEnd(s) == n
  {
    hide IsMethodByte;
  }

  lemma {:induction false} TargetRun(s: ByteSeq, i: nat, n: nat)
    requires i <= n <= |s| && forall j | i <= j < n :: IsTargetByte(s[j])
    ensures n == |s| || !IsTargetByte(s[n]) ==> TargetEnd(s, i) == n
  {
    hide IsTargetByte;
  }

  /** Matching byte by byte is matching the whole version. */
  lemma {:induction false} VersionIs(v: ByteSeq)
    requires |v| == 8
    ensures ValidVersion(v) <==> forall k | 0 <= k < 8 :: VersionMatches(k, v[k])
  {
    var a, b := VERSION_PREFIX + [49], VERSION_PREFIX + [48];
    if forall k | 0 <= k < 8 :: VersionMatches(k, v[k]) {
      assert forall k | 0 <= k < 7 :: v[k] == VERSION_PREFIX[k];
      assert v == v[..7] + [v[7]] && v[..7] == VERSION_PREFIX;
    }
    if ValidVersion(v) {
      assert v[7] == 48 || v[7] == 49;
      forall k | 0 <= k < 8
        ensures VersionMatches(k, v[k])
      {
        assert k < 7 ==> a[k] == VERSION_PREFIX[k] && b[k] == VERSION_PREFIX[k];
      }
    }
  }

  lemma {:induction false} MethodAppend(s: ByteSeq, i: nat)
    requires i < |s| && IsMethodByte(s[i])
    ensures s[..i + 1] <= METHOD_CONNECT <==> s[..i] <= METHOD_CONNECT && s[i] == ConnectByte(i)
    ensures s[..i + 1] <= METHOD_PRI <==> s[..i] <= METHOD_PRI && s[i] == PriByte(i)
  {
    assert s[..i + 1] == s[..i] + [s[i]];
    PrefixAppend(s[..i], s[i], METHOD_CONNECT);
    PrefixAppend(s[..i], s[i], METHOD_PRI);
  }

  /** The method is over: either it is acceptable, or the line is refused. */
  lemma {:induction false} MethodVerdict(s: ByteSeq, i: nat, a: LineState, m: nat, t: nat)
    requires Tracks(s, i, a, m, t) && a.phase == Method && i < |s| && (!IsMethodByte(s[i]) || i == 16)
    ensures s[i] == SP && i != 0 && !(i == 7 && a.isConnect) && !(i == 3 && a.isPri) ==> MethodRead(s, i)
    ensures !(s[i] == SP && i != 0 && !(i == 7 && a.isConnect) && !(i == 3 && a.isPri)) ==> ScanRequestLine(s) == None
  {
    hide SpanEnd, TargetEnd;
    MethodRun(s, i);
    if IsMethodByte(s[i]) {
      MethodRun(s, 17);
    }
  }

  lemma {:induction false} TargetVerdict(s: ByteSeq, i: nat, a: LineState, m: nat, t: nat)
    requires Tracks(s, i, a, m, t) && a.phase == Target && i < |s| && !IsTargetByte(s[i])
    ensures if s[i] == SP && i != m + 1 then TargetRead(s, m, i) else ScanRequestLine(s) == None
  {
    hide MethodEnd;
    TargetRun(s, m + 1, i);
  }

  lemma {:induction false} VersionRefused(s: ByteSeq, m: nat, t: nat, j: nat)
    requires MethodRead(s, m) && TargetRead(s, m, t)
    requires t < j <= t + 8 && j < |s| && !VersionMatches(j - t - 1, s[j])
    ensures ScanRequestLine(s) == None
  {
    hide MethodEnd, TargetEnd, VersionMatches, ValidVersion;
    if t + 11 <= |s| {
      var v := s[t + 1..t + 9];
      assert v[j - t - 1] == s[j];
      VersionIs(v);
    }
  }

  lemma {:induction false} VersionAccepted(s: ByteSeq, m: nat, t: nat)
    requires MethodRead(s, m) && TargetRead(s, m, t) && t + 9 <= |s|
    requires forall j | t < j < t + 9 :: VersionMatches(j - t - 1, s[j])
    ensures ScanRequestLine(s) == if CrlfAt(s, t + 9) then Some(t + 11) else None
  {
    hide MethodEnd, TargetEnd, VersionMatches, ValidVersion;
    var v := s[t + 1..t + 9];
    VersionIs(v);
  }

  lemma {:induction false} LineUnfinished(s: ByteSeq, a: LineState, m: nat, t: nat)
    requires Tracks(s, |s|, a, m, t)
    ensures ScanRequestLine(s) == None
  {
    hide VersionMatches, ValidVersion;
    match a.phase
    case Method => MethodRun(s, |s|);
    case Target => TargetRun(s, m + 1, |s|);
    case Version =>
      if t + 11 <= |s| {
        assert VersionMatches(8, s[t + 9]);
        OverlongVersion();
      }
    case RequestLf =>
  }

  /** Past the eighth byte only NUL matches, so an overlong version never reaches its CR in place. */
  lemma {:induction false} OverlongVersion()
    ensures !VersionMatches(8, CR)
  {}

  method RunRequestLine(request: ByteSeq) returns (r: Option<nat>)
    requires |request| <= HTTP_REQUEST_BYTES
    ensures r == ScanRequestLine(request)
  {
    hide ScanRequestLine, MethodRead, TargetRead, VersionMatches, IsMethodByte, IsTargetByte;
    var s := LineState(0, Method, true, true);
    ghost var m, t := 0, 0;
    for index := 0 to |request|
      invariant Tracks(request, index, s, m, t)
    {
      var byte := request[index];
      match s.phase
      case Method =>
        BlankIsNoMethod();
        if byte == SP {
          MethodVerdict(request, index, s, m, t);
          if s.componentLen == 0 || (s.componentLen == 7 && s.isConnect) || (s.componentLen == 3 && s.isPri) {
            return None;
          }
          m := index;
          s := s.(phase := Target, componentLen := 0);
        } else {
          if s.componentLen >= 16 || !IsMethodByte(byte) {
            MethodVerdict(request, index, s, m, t);
            return None;
          }
          MethodAppend(request, index);
          s := s.(
            isConnect := s.isConnect && byte == ConnectByte(s.componentLen),
            isPri := s.isPri && byte == PriByte(s.componentLen),
            componentLen := s.componentLen + 1);
        }
      case Target =>
        BlankIsNoMethod();
        if byte == SP {
          TargetVerdict(request, index, s, m, t);
          if s.componentLen == 0 {
            return None;
          }
          t := index;
          s := s.(phase := Version, componentLen := 0);
        } else {
          if !IsTargetByte(byte) {
            TargetVerdict(request, index, s, m, t);
            return None;
          }
          s := s.(componentLen := s.componentLen + 1);
        }
      case Version =>
        if byte == CR {
          if s.componentLen != 8 {
            VersionCut(request, index, s, m, t);
            return None;
          }
          s := s.(phase := RequestLf);
        } else {
          if !VersionMatches(s.componentLen, byte) {
            VersionBroken(request, index, s, m, t);
            return None;
          }
          s := s.(componentLen := s.componentLen + 1);
        }
      case RequestLf =>
        VersionAccepted(request, m, t);
        if byte != LF || index + 1 > U16_MAX {
          return None;
        }
        return Some(index + 1);
    }
    LineUnfinished(request, s, m, t);
    r := None;
  }

  lemma {:induction false} BlankIsNoMethod()
    ensures !IsMethodByte(SP) && !IsTargetByte(SP)
  {}

  lemma {:induction false} VersionCut(s: ByteSeq, i: nat, a: LineState, m: nat, t: nat)
    requires Tracks(s, i, a, m, t) && a.phase == Version && i < |s| && s[i] == CR && a.componentLen != 8
    ensures ScanRequestLine(s) == None
  {
    hide MethodRead, TargetRead, ScanRequestLine;
    if i < t + 9 {
      VersionRefused(s, m, t, i);
    } else {
      assert VersionMatches(8, s[t + 9]);
      VersionAccepted(s, m, t);
    }
  }

  lemma {:induction false} VersionBroken(s: ByteSeq, i: nat, a: LineState, m: nat, t: nat)
    requires Tracks(s, i, a, m, t) && a.phase == Version && i < |s| && s[i] != CR && !VersionMatches(a.componentLen, s[i])
    ensures ScanRequestLine(s) == None
  {
    hide MethodRead, TargetRead, ScanRequestLine;
    if i < t + 9 {
      VersionRefused(s, m, t, i);
    } else {
      assert i > t + 9 ==> VersionMatches(8, s[t + 9]);
      VersionAccepted(s, m, t);
    }
  }
}
