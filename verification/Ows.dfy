/**
  How trimming optional whitespace behaves on a value that is still being scanned.
 */
module Ows {
  import opened Bytes

  predicate AllOws(s: ByteSeq) { forall i | 0 <= i < |s| :: IsOws(s[i]) }

  /** The value so far ends in a blank that follows something else. */
  predicate EndsBlank(s: ByteSeq) { TrimOws(s) != [] && IsOws(s[|s| - 1]) }

  lemma {:induction false} TrimLeftFacts(s: ByteSeq) returns (n: nat)
    ensures n <= |s| && TrimLeft(s) == s[n..]
    ensures forall i | 0 <= i < n :: IsOws(s[i])
    ensures n < |s| ==> !IsOws(s[n])
  {
    if s != [] && IsOws(s[0]) {
      var m := TrimLeftFacts(s[1..]);
      n := m + 1;
      assert forall i | 1 <= i < n :: s[i] == s[1..][i - 1];
    } else {
      n := 0;
    }
  }

  lemma {:induction false} TrimRightFacts(s: ByteSeq) returns (n: nat)
    ensures n <= |s| && TrimRight(s) == s[..n]
    ensures forall i | n <= i < |s| :: IsOws(s[i])
    ensures 0 < n ==> !IsOws(s[n - 1])
  {
    if s != [] && IsOws(s[|s| - 1]) {
      n := TrimRightFacts(s[..|s| - 1]);
      assert s[..|s| - 1][..n] == s[..n];
      assert forall i | n <= i < |s| - 1 :: s[i] == s[..|s| - 1][i];
    } else {
      n := |s|;
    }
  }

  /** What is left after trimming is a slice between two runs of blanks, with no blank at its ends. */
  lemma {:induction false} TrimFacts(s: ByteSeq) returns (lo: nat, hi: nat)
    ensures lo <= hi <= |s| && TrimOws(s) == s[lo..hi]
    ensures forall i | 0 <= i < lo || hi <= i < |s| :: IsOws(s[i])
    ensures lo < hi ==> !IsOws(s[lo]) && !IsOws(s[hi - 1])
    ensures lo == hi <==> AllOws(s)
  {
    hide TrimLeft, TrimRight;
    lo := TrimLeftFacts(s);
    var n := TrimRightFacts(s[lo..]);
    hi := lo + n;
    assert s[lo..][..n] == s[lo..hi];
    assert forall i | lo <= i < |s| :: s[i] == s[lo..][i - lo];
  }

  lemma {:induction false} TrimIs(s: ByteSeq, lo: nat, hi: nat)
    requires lo < hi <= |s| && !IsOws(s[lo]) && !IsOws(s[hi - 1])
    requires forall i | 0 <= i < lo || hi <= i < |s| :: IsOws(s[i])
    ensures TrimOws(s) == s[lo..hi]
  {
    hide TrimOws;
    var l, h := TrimFacts(s);
    assert !AllOws(s);
    assert l == lo && h == hi;
  }

  /** Appending one byte to the value. */
  lemma {:induction false} TrimAppend(s: ByteSeq, b: Byte)
    ensures IsOws(b) ==> TrimOws(s + [b]) == TrimOws(s)
    ensures !IsOws(b) && !EndsBlank(s) ==> TrimOws(s + [b]) == TrimOws(s) + [b]
    ensures !IsOws(b) && EndsBlank(s) ==>
              exists i :: 0 <= i < |TrimOws(s + [b])| && IsOws(TrimOws(s + [b])[i])
  {
    hide TrimOws;
    var t := s + [b];
    var lo, hi := TrimFacts(s);
    assert forall i | 0 <= i < |s| :: t[i] == s[i];
    if IsOws(b) {
      if AllOws(s) {
        assert AllOws(t);
        var l, h := TrimFacts(t);
      } else {
        TrimIs(t, lo, hi);
        assert t[lo..hi] == s[lo..hi];
      }
    } else if AllOws(s) {
      TrimIs(t, |s|, |t|);
      assert t[|s|..|t|] == [b];
    } else {
      TrimIs(t, lo, |t|);
      if IsOws(s[|s| - 1]) {
        assert t[lo..|t|][|s| - 1 - lo] == s[|s| - 1];
      } else {
        assert hi == |s|;
        assert t[lo..|t|] == s[lo..hi] + [b];
      }
    }
  }

  /** Trimming a longer value only ever extends what trimming a prefix of it gave. */
  lemma {:induction false} TrimGrows(p: ByteSeq, v: ByteSeq)
    requires p <= v
    ensures TrimOws(p) <= TrimOws(v)
  {
    hide TrimOws;
    var lo, hi := TrimFacts(p);
    if lo < hi {
      var l, h := TrimFacts(v);
      assert forall i | 0 <= i < |p| :: v[i] == p[i];
      assert !AllOws(v);
      assert l == lo && hi <= h;
      assert v[l..h][..hi - lo] == p[lo..hi];
    }
  }
}
