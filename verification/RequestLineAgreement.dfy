/**
  The kernel-side and the host reading of a request line accept exactly the same lines.
 */
module RequestLineAgreement {
  import opened Bytes
  import opened Http1
  import opened BpfScan
  import opened BpfRequestLine

  /** A CRLF with no CR before it is the first one. */
  lemma {:induction false} FirstCrlf(s: ByteSeq, c: nat, k: nat)
    requires c <= k && CrlfAt(s, k) && forall j | c <= j < k :: s[j] != CR
    ensures FindCrlf(s[c..]) == Some(k - c)
  {
    hide FindCrlf;
    var t := s[c..];
    assert CrlfAt(t, k - c);
    assert forall j | 0 <= j < k - c :: t[j] == s[c + j];
  }

  lemma {:induction false} NoCrlf(s: ByteSeq, c: nat)
    requires c <= |s| && forall j | c <= j < |s| - 1 :: s[j] != CR
    ensures FindCrlf(s[c..]).None?
  {
    hide FindCrlf;
    var t := s[c..];
    assert forall j | 0 <= j < |t| :: t[j] == s[c + j];
  }

  lemma {:induction false} SplitAtBlanks(line: ByteSeq, m: nat, t: nat)
    requires m < t < |line| && line[m] == SP && line[t] == SP
    requires forall j | 0 <= j < t :: j != m ==> line[j] != SP
    ensures FindByte(line, SP) == Some(m)
    ensures FindByte(line[m + 1..], SP) == Some(t - m - 1)
    ensures line[m + 1..][..t - m - 1] == line[m + 1..t]
    ensures line[m + 1..][t - m..] == line[t + 1..]
  {
    hide FindByte;
    var rest := line[m + 1..];
    assert rest[t - m - 1] == SP;
    assert forall j | 0 <= j < t - m - 1 :: rest[j] == line[m + 1 + j];
  }

  lemma {:induction false} VersionHasNoBlank(v: ByteSeq)
    requires ValidVersion(v)
    ensures FindByte(v, SP).None? && |v| == 8 && forall j | 0 <= j < 8 :: v[j] != CR
  {
    hide FindByte, ValidVersion;
    VersionLength(v);
    VersionIs(v);
  }

  lemma {:induction false} VersionLength(v: ByteSeq)
    requires ValidVersion(v)
    ensures |v| == 8
  {}

  /** What the automaton accepts, the host accepts, and the line ends where the automaton says. */
  lemma {:induction false} AcceptedLine(s: ByteSeq)
    requires ScanRequestLine(s).Some?
    ensures var k := ScanRequestLine(s).value;
            k >= 2 && FindCrlf(s) == Some(k - 2) && ValidateRequestLine(s[..k - 2]).Ok?
  {
    hide FindCrlf, FindByte, ValidVersion, ValidateRequestLine;
    var k := ScanRequestLine(s).value;
    var m := MethodEnd(s);
    var t := TargetEnd(s, m + 1);
    var line := s[..k - 2];
    var v := s[t + 1..t + 9];
    assert v == line[t + 1..];
    VersionHasNoBlank(v);
    assert forall j | t < j < t + 9 :: s[j] == v[j - t - 1];
    assert s[0..] == s;
    FirstCrlf(s, 0, t + 9);
    assert line[..m] == s[..m];
    LineValid(line, m, t);
  }

  /** A line of an admissible method, target and version. */
  lemma {:induction false} LineValid(line: ByteSeq, m: nat, t: nat)
    requires 1 <= m <= 16 && m + 1 < t < |line| && line[m] == SP && line[t] == SP && line[..m] != METHOD_CONNECT && line[..m] != METHOD_PRI
    requires (forall j | 0 <= j < m :: IsMethodByte(line[j])) && (forall j | m < j < t :: IsTargetByte(line[j])) && ValidVersion(line[t + 1..])
    ensures ValidateRequestLine(line).Ok?
  {
    hide FindByte, ValidVersion;
    SplitAtBlanks(line, m, t);
    VersionHasNoBlank(line[t + 1..]);
    var target := line[m + 1..t];
    assert forall j | 0 <= j < |target| :: target[j] == line[m + 1 + j];
  }

  /** What the host accepts, the automaton accepts. */
  lemma {:induction false} AcceptedByHost(s: ByteSeq)
    requires FindCrlf(s).Some? && ValidateRequestLine(s[..FindCrlf(s).value]).Ok?
    ensures ScanRequestLine(s) == Some(FindCrlf(s).value + 2)
  {
    hide FindCrlf, FindByte, ValidVersion, MethodEnd, TargetEnd, IsMethodByte, IsTargetByte;
    var e := FindCrlf(s).value;
    var line := s[..e];
    var m := FindByte(line, SP).value;
    var rest := line[m + 1..];
    var n := FindByte(rest, SP).value;
    var t := m + 1 + n;
    assert forall j | 0 <= j < e :: s[j] == line[j];
    assert forall j | 0 <= j < |rest| :: rest[j] == line[m + 1 + j];
    BlankIsNoMethod();
    assert forall j | 0 <= j < m :: IsMethodByte(line[..m][j]);
    MethodRun(s, m);
    assert forall j | 0 <= j < n :: IsTargetByte(rest[..n][j]);
    TargetRun(s, m + 1, t);
    VersionHasNoBlank(rest[n + 1..]);
    assert rest[n + 1..] == s[t + 1..t + 9] && e == t + 9;
    assert line[..m] == s[..m];
  }
}
