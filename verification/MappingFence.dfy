/**
  The profiler's mapping-change fence for one process, as a state machine over the individual
  shared-memory accesses of the kernel-side hooks and of userspace enrolment.

  A lookup that finds the process entry is taken to happen with the addition that follows it:
  entries are never removed, so the order is the same.
 */
module MappingFence {
  type Thread = nat

  /** How a call that may change the mappings has announced itself. */
  datatype Mode = Tracked | Untracked | Bare

  /** The next access of a thread's hooks; a thread outside such calls has no phase. */
  datatype Phase =
    | Published                  // marker inserted; enrolment not looked up
    | Unpublished                // marker not inserted; poison not raised
    | Counted                    // pending count raised; marker not yet marked
    | Fencing(mode: Mode)        // generation not yet raised
    | Executing(mode: Mode)      // the system call itself
    | Returned(counted: bool)    // marker read by the exit hook
    | Unmarked(counted: bool)    // marker removed
    | Releasing                  // generation raised; pending count not lowered

  datatype Epoch = Missing | Epoch(generation: nat, pending: nat)

  /** Userspace: not enrolling, past the poison check, scanning the markers, or reading the epoch. */
  datatype User = Outside | Inside | Scanning(todo: set<Thread>) | Reading

  datatype State = State(
    calls: map<Thread, Phase>, markers: map<Thread, bool>, epoch: Epoch, poison: nat,
    user: User, next: nat, initialized: bool, issued: set<nat>)

  datatype Step =
    | Publish(t: Thread) | PublishFails(t: Thread) | RaisePoison(t: Thread) | PoisonElsewhere
    | LookUp(t: Thread) | Mark(t: Thread) | Fence(t: Thread)
    | Finish(t: Thread) | Unmark(t: Thread) | FenceAgain(t: Thread) | Release(t: Thread)
    | ThreadGone(t: Thread) | Invalidate
    | Begin | Enrol | EnrolFails | Visit(t: Thread) | ScanEnds | Issue

  const U64_MAX: nat := 0xffff_ffff_ffff_ffff
  const FIRST_GENERATION: nat := 0x8000_0000_0000_0000

  ghost predicate Initial(s: State)
  {
    s == State(map[], map[], Missing, 0, Outside, FIRST_GENERATION, false, {})
  }

  ghost predicate InPhase(s: State, t: Thread, p: Phase) { t in s.calls && s.calls[t] == p }

  ghost predicate IsExecuting(s: State, t: Thread) { t in s.calls && s.calls[t].Executing? }

  ghost predicate Enabled(s: State, step: Step)
  {
    match step
    case Publish(t) => t !in s.calls
    case PublishFails(t) => t !in s.calls
    case RaisePoison(t) => InPhase(s, t, Unpublished)
    case PoisonElsewhere => true
    case LookUp(t) => InPhase(s, t, Published)
    case Mark(t) => InPhase(s, t, Counted)
    case Fence(t) => t in s.calls && s.calls[t].Fencing?
    // At the end of a call, and at any other system call's or the thread's own end.
    case Finish(t) => IsExecuting(s, t) || t !in s.calls
    case Unmark(t) => t in s.calls && s.calls[t].Returned?
    case FenceAgain(t) => t in s.calls && s.calls[t].Unmarked?
    case Release(t) => InPhase(s, t, Releasing)
    // An exec whose old thread id cannot be read leaves its marker behind.
    case ThreadGone(t) => IsExecuting(s, t)
    case Invalidate => true
    case Begin => s.user.Outside? && s.poison == 0
    case Enrol => s.user.Inside?
    case EnrolFails => s.user.Inside?
    case Visit(t) => s.user.Scanning?
    case ScanEnds => s.user == Scanning({})
    case Issue => s.user.Reading?
  }

  function Raised(e: Epoch): Epoch
  {
    match e case Missing => Missing case Epoch(g, p) => Epoch(g + 1, p)
  }

  /** Adding the largest 64-bit number: a wrap-around at zero. */
  function Lowered(e: Epoch): Epoch
  {
    match e case Missing => Missing case Epoch(g, p) => Epoch(g, if p == 0 then U64_MAX else p - 1)
  }

  ghost function Moved(s: State, t: Thread, p: Phase): State { s.(calls := s.calls[t := p]) }

  ghost function Left(s: State, t: Thread): State { s.(calls := s.calls - {t}) }

  /** A scan need not see a marker that goes away meanwhile. */
  function Unscanned(u: User, t: Thread): User
  {
    match u case Scanning(todo) => Scanning(todo - {t}) case _ => u
  }

  ghost function Apply(s: State, step: Step): State
    requires Enabled(s, step)
  {
    match step
    case Publish(t) => Moved(s, t, Published).(markers := s.markers[t := false])
    case PublishFails(t) => Moved(s, t, Unpublished)
    case RaisePoison(t) => Moved(s, t, Fencing(Bare)).(poison := s.poison + 1)
    case PoisonElsewhere => s.(poison := s.poison + 1)
    case LookUp(t) =>
      if s.epoch.Missing? then Moved(s, t, Fencing(Untracked))
      else Moved(s, t, Counted).(epoch := s.epoch.(pending := s.epoch.pending + 1))
    case Mark(t) =>
      Moved(s, t, Fencing(Tracked)).(markers := if t in s.markers then s.markers[t := true] else s.markers)
    case Fence(t) => Moved(s, t, Executing(s.calls[t].mode)).(epoch := Raised(s.epoch))
    case Finish(t) => if t in s.markers then Moved(s, t, Returned(s.markers[t])) else Left(s, t)
    case Unmark(t) =>
      Moved(s, t, Unmarked(s.calls[t].counted)).(markers := s.markers - {t}, user := Unscanned(s.user, t))
    case FenceAgain(t) =>
      (if s.calls[t].counted then Moved(s, t, Releasing) else Left(s, t)).(epoch := Raised(s.epoch))
    case Release(t) => Left(s, t).(epoch := Lowered(s.epoch))
    case ThreadGone(t) => Left(s, t)
    case Invalidate => s.(epoch := Raised(s.epoch))
    case Begin => s.(user := Inside)
    case Enrol =>
      var after := if s.initialized then Reading else Scanning(s.markers.Keys);
      if s.epoch.Missing? then s.(epoch := Epoch(s.next + 1, 0), next := s.next + 1, user := after) else s.(user := after)
    case EnrolFails => s.(user := Outside)
    case Visit(t) =>
      if t in s.markers && !s.markers[t] then s.(user := Outside) else s.(user := Unscanned(s.user, t))
    case ScanEnds => s.(user := Reading, initialized := true)
    case Issue =>
      var usable := s.epoch.Epoch? && s.epoch.pending == 0 && s.epoch.generation != 0;
      s.(user := Outside, issued := if usable then s.issued + {s.epoch.generation} else s.issued)
  }

  // ----- runs -----

  ghost predicate IsRun(states: seq<State>, steps: seq<Step>)
  {
    && |states| == |steps| + 1 && Initial(states[0])
    && forall k | 0 <= k < |steps| :: Enabled(states[k], steps[k]) && states[k + 1] == Apply(states[k], steps[k])
  }

  // ----- the invariant -----

  /** The thread's call, or the marker it left, has raised the pending count and not lowered it. */
  ghost predicate Claim(s: State, t: Thread)
  {
    || (t in s.markers && s.markers[t])
    || (t in s.calls && s.calls[t] in {Counted, Returned(true), Unmarked(true), Releasing})
  }

  ghost function Claims(s: State): (r: set<Thread>)
    ensures forall t :: t in r <==> Claim(s, t)
  {
    set t | t in s.markers.Keys + s.calls.Keys && Claim(s, t)
  }

  /** The call has passed its lookup without finding an epoch. */
  ghost predicate Uncounted(p: Phase) { p == Fencing(Untracked) || p == Executing(Untracked) }

  ghost predicate MarkerAgrees(s: State, t: Thread)
    requires t in s.calls
  {
    match s.calls[t]
    case Published => t in s.markers && !s.markers[t]
    case Counted => t in s.markers && !s.markers[t]
    case Fencing(Untracked) => t in s.markers && !s.markers[t]
    case Executing(Untracked) => t in s.markers && !s.markers[t]
    case Fencing(Tracked) => t in s.markers && s.markers[t]
    case Executing(Tracked) => t in s.markers && s.markers[t]
    case Fencing(Bare) => s.poison > 0
    case Executing(Bare) => s.poison > 0
    case Returned(counted) => t in s.markers && s.markers[t] == counted
    case Unmarked(_) => t !in s.markers
    case Releasing => t !in s.markers
    case Unpublished => true
  }

  ghost predicate Agreement(s: State)
  {
    && (forall t | t in s.calls :: MarkerAgrees(s, t))
    && (s.initialized ==> forall t | t in s.calls :: !Uncounted(s.calls[t]))
    && (s.user.Scanning? ==> forall t | t in s.calls && Uncounted(s.calls[t]) :: t in s.user.todo)
    && (s.user.Reading? || s.issued != {} ==> s.initialized)
    && (s.epoch.Missing? ==> !s.initialized && !s.user.Scanning? && forall t :: !Claim(s, t))
  }

  /** The pending count covers every claim. */
  ghost predicate Covered(s: State) { s.epoch.Epoch? ==> s.epoch.pending >= |Claims(s)| }

  lemma {:induction false} InitialInvariant(s: State)
    requires Initial(s)
    ensures Agreement(s) && Covered(s)
  {}

  /** A claim appears when the count is raised and disappears when it is lowered, or its marker is overwritten. */
  lemma {:induction false} ClaimStep(s: State, step: Step, x: Thread)
    requires (forall t | t in s.calls :: MarkerAgrees(s, t)) && Enabled(s, step)
    ensures Claim(Apply(s, step), x) && !Claim(s, x) ==> step == LookUp(x) && s.epoch.Epoch?
    ensures Claim(s, x) && !Claim(Apply(s, step), x) ==> step == Release(x) || step == Publish(x)
    ensures step == Release(x) ==> Claim(s, x) && !Claim(Apply(s, step), x)
    ensures step == LookUp(x) ==> !Claim(s, x)
  {
    assert x in s.calls ==> MarkerAgrees(s, x);
  }

  lemma {:induction false} NoClaimsKept(s: State, step: Step)
    requires Agreement(s) && Enabled(s, step) && Apply(s, step).epoch.Missing?
    ensures forall t :: !Claim(Apply(s, step), t)
  {
    hide Claim, MarkerAgrees;
    forall t
      ensures !Claim(Apply(s, step), t)
    {
      ClaimStep(s, step, t);
    }
  }

  lemma {:induction false} EnterKeeps(s: State, step: Step)
    requires Agreement(s) && Enabled(s, step)
    requires step.Publish? || step.PublishFails? || step.RaisePoison?
    ensures Agreement(Apply(s, step))
  {
    hide Claim;
    if Apply(s, step).epoch.Missing? {
      NoClaimsKept(s, step);
    }
  }

  lemma {:induction false} CountKeeps(s: State, step: Step)
    requires Agreement(s) && Enabled(s, step) && (step.LookUp? || step.Mark? || step.Fence?)
    ensures Agreement(Apply(s, step))
  {
    hide Claim;
    if Apply(s, step).epoch.Missing? {
      NoClaimsKept(s, step);
    }
  }

  lemma {:induction false} ExitKeeps(s: State, step: Step)
    requires Agreement(s) && Enabled(s, step)
    requires step.Unmark? || step.FenceAgain? || step.Release? || step.ThreadGone?
    ensures Agreement(Apply(s, step))
  {
    hide Claim;
    if Apply(s, step).epoch.Missing? {
      NoClaimsKept(s, step);
    }
  }

  lemma {:induction false} FinishKeeps(s: State, t: Thread)
    requires Agreement(s) && Enabled(s, Finish(t))
    ensures Agreement(Apply(s, Finish(t)))
  {
    hide Claim;
    if Apply(s, Finish(t)).epoch.Missing? {
      NoClaimsKept(s, Finish(t));
    }
  }

  lemma {:induction false} UserKeeps(s: State, step: Step)
    requires Agreement(s) && Enabled(s, step)
    requires step.Begin? || step.Enrol? || step.EnrolFails? || step.Visit? || step.ScanEnds? || step.Issue?
             || step.PoisonElsewhere? || step.Invalidate?
    ensures Agreement(Apply(s, step))
  {
    hide Claim;
    var s' := Apply(s, step);
    assert forall t | t in s.calls :: MarkerAgrees(s, t) ==> MarkerAgrees(s', t);
    if s'.epoch.Missing? {
      NoClaimsKept(s, step);
    }
  }

  lemma {:induction false} StepKeepsAgreement(s: State, step: Step)
    requires Agreement(s) && Enabled(s, step)
    ensures Agreement(Apply(s, step))
  {
    hide Agreement, Apply, Enabled;
    if step.Publish? || step.PublishFails? || step.RaisePoison? {
      EnterKeeps(s, step);
    } else if step.LookUp? || step.Mark? || step.Fence? {
      CountKeeps(s, step);
    } else if step.Finish? {
      FinishKeeps(s, step.t);
    } else if step.Unmark? || step.FenceAgain? || step.Release? || step.ThreadGone? {
      ExitKeeps(s, step);
    } else {
      UserKeeps(s, step);
    }
  }

  // ----- the pending count -----

  lemma {:induction false} Fewer(a: set<Thread>, b: set<Thread>)
    requires forall x | x in a :: x in b
    ensures |a| <= |b|
  {
    assert b == a + (b - a);
  }

  lemma {:induction false} OneMore(a: set<Thread>, b: set<Thread>, t: Thread)
    requires t !in a && t in b && forall x | x in b && x != t :: x in a
    ensures |b| <= |a| + 1
  {
    assert b - {t} <= a;
    Fewer(b - {t}, a);
  }

  lemma {:induction false} OneFewer(a: set<Thread>, b: set<Thread>, t: Thread)
    requires t in a && t !in b && forall x | x in b :: x in a
    ensures |b| + 1 <= |a|
  {
    assert b + {t} <= a;
    Fewer(b + {t}, a);
  }

  /** What a step does to the pending count. */
  lemma {:induction false} PendingStep(s: State, step: Step)
    requires Enabled(s, step)
    ensures s.epoch.Epoch? ==>
              var e := Apply(s, step).epoch;
              e.Epoch? && e.pending ==
              if step.LookUp? then s.epoch.pending + 1
              else if step.Release? then (if s.epoch.pending == 0 then U64_MAX else s.epoch.pending - 1)
              else s.epoch.pending
  {}

  lemma {:induction false} StepKeepsCovered(s: State, step: Step)
    requires Agreement(s) && Covered(s) && Enabled(s, step)
    ensures Covered(Apply(s, step))
  {
    hide Claim, Apply, Enabled, MarkerAgrees;
    var s' := Apply(s, step);
    forall x
      ensures Claim(s', x) && !Claim(s, x) ==> step == LookUp(x) && s.epoch.Epoch?
      ensures Claim(s, x) && !Claim(s', x) ==> step == Release(x) || step == Publish(x)
      ensures step == Release(x) ==> Claim(s, x) && !Claim(s', x)
      ensures step == LookUp(x) ==> !Claim(s, x)
    {
      ClaimStep(s, step, x);
    }
    if s.epoch.Missing? {
      assert Claims(s') == {};
    } else {
      PendingStep(s, step);
      if step.LookUp? && Claim(s', step.t) {
        OneMore(Claims(s), Claims(s'), step.t);
      } else if step.Release? {
        OneFewer(Claims(s), Claims(s'), step.t);
      } else {
        Fewer(Claims(s'), Claims(s));
      }
    }
  }

  lemma {:induction false} RunKeeps(states: seq<State>, steps: seq<Step>, k: nat)
    requires IsRun(states, steps) && k < |states|
    ensures Agreement(states[k]) && Covered(states[k])
  {
    hide Agreement, Covered, Apply, Enabled;
    if k == 0 {
      InitialInvariant(states[0]);
    } else {
      RunKeeps(states, steps, k - 1);
      StepKeepsAgreement(states[k - 1], steps[k - 1]);
      StepKeepsCovered(states[k - 1], steps[k - 1]);
    }
  }

  // ----- what a successful check means -----

  /** The walker's check, its three reads spread over the run. */
  ghost predicate Checked(states: seq<State>, g: nat, poisonAt: nat, generationAt: nat, pendingAt: nat)
  {
    && poisonAt <= generationAt <= pendingAt < |states|
    && states[poisonAt].poison == 0
    && states[generationAt].epoch.Epoch? && states[generationAt].epoch.generation == g
    && states[pendingAt].epoch.Epoch? && states[pendingAt].epoch.pending == 0
  }

  ghost predicate Quiet(s: State) { forall t :: !IsExecuting(s, t) }

  /** Between its enrolment and its fence, a call has not started; past the fence it is not over. */
  ghost predicate Fenced(s: State, t: Thread) { t in s.calls && (s.calls[t].Fencing? || s.calls[t].Executing?) }

  lemma {:induction false} NothingPending(s: State, t: Thread)
    requires Agreement(s) && Covered(s) && s.initialized && s.epoch.pending == 0
    ensures Fenced(s, t) ==> s.poison > 0 && s.calls[t].mode == Bare
  {
    assert |Claims(s)| == 0;
    assert t !in Claims(s);
    assert t in s.calls ==> MarkerAgrees(s, t);
  }

  /** Generations and poison only grow; enrolment and issued generations are not taken back. */
  ghost predicate Later(s: State, s': State)
  {
    && s.poison <= s'.poison && s.issued <= s'.issued && (s.initialized ==> s'.initialized)
    && (s.epoch.Epoch? ==> s'.epoch.Epoch? && s.epoch.generation <= s'.epoch.generation)
  }

  lemma {:induction false} RunGrows(states: seq<State>, steps: seq<Step>, i: nat, j: nat)
    requires IsRun(states, steps) && i <= j < |states|
    ensures Later(states[i], states[j])
    decreases j
  {
    hide Apply, Enabled;
    if i < j {
      RunGrows(states, steps, i, j - 1);
      StepGrows(states[j - 1], steps[j - 1]);
    }
  }

  lemma {:induction false} StepGrows(s: State, step: Step)
    requires Enabled(s, step)
    ensures Later(s, Apply(s, step))
  {}

  /** A call gets past its fence only by raising the generation. */
  lemma {:induction false} FenceRaises(s: State, step: Step, t: Thread)
    requires Enabled(s, step) && s.epoch.Epoch? && IsExecuting(Apply(s, step), t) && !IsExecuting(s, t)
    ensures Apply(s, step).epoch.Epoch? && Apply(s, step).epoch.generation > s.epoch.generation
  {}

  lemma {:induction false} QuietWhileUnchanged(states: seq<State>, steps: seq<Step>, i: nat, k: nat)
    requires IsRun(states, steps) && i <= k < |states| && Quiet(states[i]) && states[i].epoch.Epoch?
    requires states[k].epoch.Epoch? && states[k].epoch.generation == states[i].epoch.generation
    ensures Quiet(states[k])
    decreases k
  {
    hide Apply, Enabled, IsExecuting;
    if i < k {
      RunGrows(states, steps, i, k - 1);
      StepGrows(states[k - 1], steps[k - 1]);
      QuietWhileUnchanged(states, steps, i, k - 1);
      forall t
        ensures !IsExecuting(states[k], t)
      {
        if IsExecuting(states[k], t) {
          FenceRaises(states[k - 1], steps[k - 1], t);
        }
      }
    }
  }

  /**
    After a successful check for an issued generation no call is changing a mapping, but for calls
    whose marker could not be published since the check read the poison count.
   */
  lemma {:induction false} MatchMeansQuiet(states: seq<State>, steps: seq<Step>, g: nat, p: nat, q: nat, n: nat)
    requires IsRun(states, steps) && Checked(states, g, p, q, n) && g in states[p].issued
    ensures forall t | IsExecuting(states[n], t) :: states[n].calls[t].mode == Bare
    ensures states[n].poison == states[p].poison ==> Quiet(states[n])
  {
    hide Apply, Enabled, MarkerAgrees, Claims;
    RunKeeps(states, steps, p);
    RunKeeps(states, steps, n);
    RunGrows(states, steps, p, n);
    forall t
      ensures IsExecuting(states[n], t) ==> states[n].poison > 0 && states[n].calls[t].mode == Bare
    {
      NothingPending(states[n], t);
    }
  }

  const ISSUED: nat := FIRST_GENERATION + 1

  // Enrolment with no call under way
  const IDLE := State(map[], map[], Missing, 0, Outside, FIRST_GENERATION, false, {})
  const SCANNING := State(map[], map[], Epoch(ISSUED, 0), 0, Scanning({}), ISSUED, false, {})
  const ENROLLED := State(map[], map[], Epoch(ISSUED, 0), 0, Outside, ISSUED, true, {ISSUED})

  // A call of thread 1 that cannot publish its marker
  const LATE_CALL: seq<Step> := [Begin, Enrol, ScanEnds, Issue, PublishFails(1), RaisePoison(1), Fence(1)]

  ghost predicate Leads(s: State, step: Step, s': State) { Enabled(s, step) && Apply(s, step) == s' }

  lemma {:induction false} EnrolmentRuns()
    ensures Leads(IDLE, Begin, IDLE.(user := Inside)) && Leads(IDLE.(user := Inside), Enrol, SCANNING)
    ensures Leads(SCANNING, ScanEnds, SCANNING.(user := Reading, initialized := true))
    ensures Leads(SCANNING.(user := Reading, initialized := true), Issue, ENROLLED)
  {
    var none: map<Thread, bool> := map[];
    assert none.Keys == {};
  }

  lemma {:induction false} LateCallRuns()
    ensures var s5 := ENROLLED.(calls := map[1 := Unpublished]);
            var s6 := ENROLLED.(calls := map[1 := Fencing(Bare)], poison := 1);
            var s7 := ENROLLED.(calls := map[1 := Executing(Bare)], poison := 1, epoch := Epoch(ISSUED + 1, 0));
            && Leads(ENROLLED, PublishFails(1), s5) && Leads(s5, RaisePoison(1), s6) && Leads(s6, Fence(1), s7)
  {
    var calls: map<Thread, Phase> := map[];
    assert calls[1 := Unpublished] == map[1 := Unpublished];
    calls := map[1 := Unpublished];
    assert calls[1 := Fencing(Bare)] == map[1 := Fencing(Bare)];
    calls := map[1 := Fencing(Bare)];
    assert calls[1 := Executing(Bare)] == map[1 := Executing(Bare)];
  }

  /**
    One successful check alone does not rule such a call out: begun after the poison count and the
    generation were read, it may be executing when the pending count is.
   */
  lemma {:induction false} OneCheckIsNotEnough() returns (states: seq<State>)
    ensures IsRun(states, LATE_CALL) && ISSUED in states[4].issued && Checked(states, ISSUED, 4, 4, 7) && IsExecuting(states[7], 1)
  {
    hide Apply, Enabled;
    EnrolmentRuns();
    LateCallRuns();
    states := [
      IDLE, IDLE.(user := Inside), SCANNING, SCANNING.(user := Reading, initialized := true), ENROLLED,
      ENROLLED.(calls := map[1 := Unpublished]), ENROLLED.(calls := map[1 := Fencing(Bare)], poison := 1),
      ENROLLED.(calls := map[1 := Executing(Bare)], poison := 1, epoch := Epoch(ISSUED + 1, 0))];
    forall k | 0 <= k < 7
      ensures Leads(states[k], LATE_CALL[k], states[k + 1])
    {
    }
  }

  /**
    Two checks that succeed for one issued generation, the second begun after the first ended:
    from the last read of the first to the generation read of the second nothing changed a mapping.
   */
  lemma {:induction false} NothingBetweenMatches(
    states: seq<State>, steps: seq<Step>, g: nat, p1: nat, g1: nat, n1: nat, p2: nat, g2: nat, n2: nat, k: nat)
    requires IsRun(states, steps) && Checked(states, g, p1, g1, n1) && Checked(states, g, p2, g2, n2)
    requires n1 <= p2 && g in states[p1].issued && n1 <= k <= g2
    ensures Quiet(states[k])
  {
    hide Apply, Enabled, MarkerAgrees, Claims, IsExecuting, IsRun;
    RunKeeps(states, steps, p1);
    RunKeeps(states, steps, n1);
    RunGrows(states, steps, p1, n1);
    RunGrows(states, steps, g1, n1);
    RunGrows(states, steps, n1, p2);
    RunGrows(states, steps, n1, k);
    RunGrows(states, steps, k, g2);
    forall t
      ensures !IsExecuting(states[n1], t)
    {
      NothingPending(states[n1], t);
      NotFenced(states[n1], t);
    }
    QuietWhileUnchanged(states, steps, n1, k);
  }

  lemma {:induction false} NotFenced(s: State, t: Thread)
    requires !Fenced(s, t)
    ensures !IsExecuting(s, t)
  {}

  // ----- the fence reopens -----

  /** Every marker belongs to a call that is under way and has published it. */
  ghost predicate NoStaleMarkers(s: State)
  {
    forall t | t in s.markers :: t in s.calls && s.calls[t] !in {Unpublished, Fencing(Bare), Executing(Bare)}
  }

  ghost predicate Exact(s: State) { s.epoch.Epoch? ==> s.epoch.pending == |Claims(s)| }

  lemma {:induction false} StepKeepsMarkers(s: State, step: Step)
    requires Agreement(s) && NoStaleMarkers(s) && Enabled(s, step) && !step.ThreadGone?
    ensures NoStaleMarkers(Apply(s, step))
  {
    hide Claim;
  }

  lemma {:induction false} ExactlyOneMore(a: set<Thread>, b: set<Thread>, t: Thread)
    requires t !in a && t in b && forall x | x != t :: x in b <==> x in a
    ensures |b| == |a| + 1
  {
    assert b == a + {t};
  }

  lemma {:induction false} Same(a: set<Thread>, b: set<Thread>)
    requires forall x :: x in b <==> x in a
    ensures |b| == |a|
  {
    assert a == b;
  }

  lemma {:induction false} FreshMarker(s: State, t: Thread)
    requires NoStaleMarkers(s) && Enabled(s, Publish(t))
    ensures !Claim(s, t)
  {}

  lemma {:induction false} CountedNow(s: State, t: Thread)
    requires Enabled(s, LookUp(t)) && s.epoch.Epoch?
    ensures Claim(Apply(s, LookUp(t)), t)
  {}

  lemma {:induction false} StepKeepsExact(s: State, step: Step)
    requires Agreement(s) && Exact(s) && NoStaleMarkers(s) && Enabled(s, step) && !step.ThreadGone?
    ensures Exact(Apply(s, step))
  {
    hide Claim, Apply, Enabled, MarkerAgrees, NoStaleMarkers;
    var s' := Apply(s, step);
    forall x
      ensures Claim(s', x) && !Claim(s, x) ==> step == LookUp(x) && s.epoch.Epoch?
      ensures Claim(s, x) && !Claim(s', x) ==> step == Release(x)
      ensures step == Release(x) ==> Claim(s, x) && !Claim(s', x)
      ensures step == LookUp(x) ==> !Claim(s, x)
    {
      ClaimStep(s, step, x);
      if step == Publish(x) {
        FreshMarker(s, x);
      }
    }
    if s.epoch.Missing? {
      assert Claims(s') == {};
      FreshEpoch(s, step);
    } else {
      PendingStep(s, step);
      if step.LookUp? {
        CountedNow(s, step.t);
        ExactlyOneMore(Claims(s), Claims(s'), step.t);
      } else if step.Release? {
        ExactlyOneMore(Claims(s'), Claims(s), step.t);
      } else {
        Same(Claims(s), Claims(s'));
      }
    }
  }

  lemma {:induction false} FreshEpoch(s: State, step: Step)
    requires Enabled(s, step) && s.epoch.Missing?
    ensures Apply(s, step).epoch.Epoch? ==> Apply(s, step).epoch.pending == 0
  {}

  lemma {:induction false} RunKeepsExact(states: seq<State>, steps: seq<Step>, k: nat)
    requires IsRun(states, steps) && k < |states| && forall j | 0 <= j < k :: !steps[j].ThreadGone?
    ensures NoStaleMarkers(states[k]) && Exact(states[k])
  {
    hide Agreement, Exact, NoStaleMarkers, Apply, Enabled;
    if k == 0 {
      NothingYet(states[0]);
    } else {
      RunKeeps(states, steps, k - 1);
      RunKeepsExact(states, steps, k - 1);
      StepKeepsMarkers(states[k - 1], steps[k - 1]);
      StepKeepsExact(states[k - 1], steps[k - 1]);
    }
  }

  lemma {:induction false} NothingYet(s: State)
    requires Initial(s)
    ensures NoStaleMarkers(s) && Exact(s)
  {}

  /** Unless an exec lost its marker, the pending count is zero whenever no call is under way. */
  lemma {:induction false} FenceReopens(states: seq<State>, steps: seq<Step>, k: nat)
    requires IsRun(states, steps) && k < |states| && forall j | 0 <= j < k :: !steps[j].ThreadGone?
    requires states[k].calls == map[] && states[k].epoch.Epoch?
    ensures states[k].epoch.pending == 0
  {
    hide IsRun;
    RunKeepsExact(states, steps, k);
    assert forall t :: !Claim(states[k], t);
    assert Claims(states[k]) == {};
  }
}
