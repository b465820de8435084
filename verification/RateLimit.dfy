/**
  The per-second limit on profile samples of one processor: each has its own window. With a clock
  that does not go back, a window admits at most the limit, and any interval of one second at most
  twice the limit.
 */
module RateLimit {
  const WINDOW: nat := 1_000_000_000

  datatype Rate = Rate(started: nat, emitted: nat)

  const INITIAL := Rate(0, 0)

  function Since(now: nat, started: nat): nat { if now < started then 0 else now - started }

  predicate Expired(r: Rate, now: nat) { Since(now, r.started) >= WINDOW }

  function Renewed(r: Rate, now: nat): Rate { if Expired(r, now) then Rate(now, 0) else r }

  predicate Allows(r: Rate, limit: nat, now: nat) { limit != 0 && Renewed(r, now).emitted < limit }

  function Spent(r: Rate, limit: nat, now: nat): Rate
  {
    if limit == 0 then r
    else if Allows(r, limit, now) then Renewed(r, now).(emitted := Renewed(r, now).emitted + 1)
    else Renewed(r, now)
  }

  class RateState {
    var rate: Rate

    constructor ()
      ensures rate == INITIAL
    {
      rate := INITIAL;
    }

    method RateAllowed(limit: nat, now: nat) returns (allowed: bool)
      modifies this
      ensures allowed == Allows(old(rate), limit, now) && rate == Spent(old(rate), limit, now)
    {
      if limit == 0 {
        return false;
      }
      if Since(now, rate.started) >= WINDOW {
        rate := Rate(now, 0);
      }
      if rate.emitted >= limit {
        return false;
      }
      rate := rate.(emitted := rate.emitted + 1);
      allowed := true;
    }
  }

  // ----- runs -----

  /** Before call number `n`. */
  function Before(times: seq<nat>, limit: nat, n: nat): Rate
    requires n <= |times|
  {
    if n == 0 then INITIAL else Spent(Before(times, limit, n - 1), limit, times[n - 1])
  }

  predicate Admitted(times: seq<nat>, limit: nat, n: nat)
    requires n < |times|
  {
    Allows(Before(times, limit, n), limit, times[n])
  }

  function Count(times: seq<nat>, limit: nat, lo: nat, hi: nat): nat
    requires lo <= hi <= |times|
  {
    if lo == hi then 0 else Count(times, limit, lo, hi - 1) + if Admitted(times, limit, hi - 1) then 1 else 0
  }

  ghost predicate Forward(times: seq<nat>) { forall i, j | 0 <= i < j < |times| :: times[i] <= times[j] }

  /** Call number `n` begins a new window. */
  predicate Renews(times: seq<nat>, limit: nat, n: nat)
    requires n < |times|
  {
    Expired(Before(times, limit, n), times[n])
  }

  lemma {:induction false} Bounded(times: seq<nat>, limit: nat, n: nat)
    requires n <= |times|
    ensures Before(times, limit, n).emitted <= limit
  {
    if n > 0 {
      Bounded(times, limit, n - 1);
    }
  }

  /** Without a renewal, what is admitted is what the counter gains. */
  lemma {:induction false} SameWindow(times: seq<nat>, limit: nat, lo: nat, hi: nat)
    requires lo <= hi <= |times| && forall k | lo <= k < hi :: !Renews(times, limit, k)
    ensures Before(times, limit, hi).emitted == Before(times, limit, lo).emitted + Count(times, limit, lo, hi)
    ensures Before(times, limit, hi).started == Before(times, limit, lo).started
    decreases hi
  {
    if lo < hi {
      SameWindow(times, limit, lo, hi - 1);
      assert !Renews(times, limit, hi - 1);
    }
  }

  /** A window admits at most the limit, from the call that begins it on and before the first that does. */
  lemma {:induction false} WindowBounded(times: seq<nat>, limit: nat, lo: nat, hi: nat)
    requires lo < hi <= |times| && forall k | lo < k < hi :: !Renews(times, limit, k)
    ensures Count(times, limit, lo, hi) <= limit
    ensures limit != 0 && Renews(times, limit, lo) ==> Before(times, limit, hi).started == times[lo]
  {
    SameWindow(times, limit, lo + 1, hi);
    Bounded(times, limit, hi);
    CountFirst(times, limit, lo, hi);
  }

  lemma {:induction false} CountFirst(times: seq<nat>, limit: nat, lo: nat, hi: nat)
    requires lo < hi <= |times|
    ensures Count(times, limit, lo, hi) == (if Admitted(times, limit, lo) then 1 else 0) + Count(times, limit, lo + 1, hi)
    decreases hi
  {
    if lo + 1 < hi {
      CountFirst(times, limit, lo, hi - 1);
    }
  }

  lemma {:induction false} CountSplit(times: seq<nat>, limit: nat, lo: nat, mid: nat, hi: nat)
    requires lo <= mid <= hi <= |times|
    ensures Count(times, limit, lo, hi) == Count(times, limit, lo, mid) + Count(times, limit, mid, hi)
    decreases hi
  {
    if mid < hi {
      CountSplit(times, limit, lo, mid, hi - 1);
    }
  }

  /** After a renewal there is none for a second. */
  lemma {:induction false} NoSecondRenewal(times: seq<nat>, limit: nat, first: nat, k: nat)
    requires Forward(times) && limit != 0 && first < k < |times| && Renews(times, limit, first) && times[k] < times[first] + WINDOW
    ensures !Renews(times, limit, k)
    decreases k
  {
    forall j | first < j < k
      ensures !Renews(times, limit, j)
    {
      NoSecondRenewal(times, limit, first, j);
    }
    WindowBounded(times, limit, first, k);
  }

  /** Any calls within less than a second of each other: at most twice the limit is admitted. */
  lemma {:induction false} SlidingBound(times: seq<nat>, limit: nat, lo: nat, hi: nat)
    requires Forward(times) && lo < hi <= |times| && times[hi - 1] < times[lo] + WINDOW
    ensures Count(times, limit, lo, hi) <= 2 * limit
  {
    if limit == 0 {
      NoneAdmitted(times, lo, hi);
    } else if r: nat :| lo <= r < hi && Renews(times, limit, r) && forall k | lo <= k < r :: !Renews(times, limit, k) {
      CountSplit(times, limit, lo, r, hi);
      if lo < r {
        WindowBounded(times, limit, lo, r);
      }
      forall k | r < k < hi
        ensures !Renews(times, limit, k)
      {
        NoSecondRenewal(times, limit, r, k);
      }
      WindowBounded(times, limit, r, hi);
    } else {
      NoRenewals(times, limit, lo, hi);
      WindowBounded(times, limit, lo, hi);
    }
  }

  lemma {:induction false} NoneAdmitted(times: seq<nat>, lo: nat, hi: nat)
    requires lo <= hi <= |times|
    ensures Count(times, 0, lo, hi) == 0
  {
    if lo < hi {
      NoneAdmitted(times, lo, hi - 1);
    }
  }

  lemma {:induction false} NoRenewals(times: seq<nat>, limit: nat, lo: nat, hi: nat)
    requires lo <= hi <= |times|
    requires forall r: nat | lo <= r < hi && Renews(times, limit, r) :: exists k | lo <= k < r :: Renews(times, limit, k)
    ensures forall k | lo <= k < hi :: !Renews(times, limit, k)
    decreases hi
  {
    if lo < hi {
      NoRenewals(times, limit, lo, hi - 1);
    }
  }
}
