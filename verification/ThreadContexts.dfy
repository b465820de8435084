/**
  Continuation of a trace context on a serving thread, as a state machine over the kernel-side
  hooks. Each hook touches only the entries of its own thread and the shared queue of generated
  contexts, so a run is an interleaving of whole hooks.
 */
module ThreadContexts {
  import opened Bytes
  import opened TraceContext
  import opened MessageMutation

  type Thread = nat

  /** What an accepted inbound request carries. */
  datatype Remote = Remote(context: Context, tracestate: ByteSeq)

  /** The server span that owns a thread; `serial` is the place of its seed in the queue. */
  datatype Active = Active(serial: nat, context: Context, tracestate: ByteSeq, startedAt: nat)

  /** A request planned for mutation; `parent` is the span it continues, if any. */
  datatype Planned = Planned(
    serial: nat, context: Context, parent: Option<ByteSeq>, tracestate: ByteSeq, insertAt: nat, startedAt: nat)

  datatype Outcome = Outcome(planned: Planned, generated: bool)

  datatype State = State(
    contexts: map<Thread, Active>, pending: map<Thread, Planned>, reading: set<Thread>,
    supplied: seq<Context>, taken: nat, plans: seq<Planned>, finished: seq<Outcome>, destroyed: seq<Planned>)

  datatype Step =
    | Supply(seed: Context)
    | ReadEnter(t: Thread)
    // `inbound` is present when the bytes read are a complete acceptable request.
    | ReadExit(t: Thread, inbound: Option<Remote>, now: nat, stored: bool)
    | ServerWrite(t: Thread)
    // `insertAt` is present when the planner accepts the bytes written.
    | ClientWrite(t: Thread, insertAt: Option<nat>, now: nat, ttl: nat, stored: bool)
    | Evict(t: Thread)
    | Sent(t: Thread, generated: bool)
    | WriteExit(t: Thread)
    | Exit(t: Thread)
    | Exec(t: Thread, former: Option<Thread>)

  ghost predicate Initial(s: State) { s == State(map[], map[], {}, [], 0, [], [], []) }

  ghost predicate Enabled(s: State, step: Step)
  {
    match step
    case ReadExit(t, _, _, _) => t in s.reading
    case Evict(t) => t in s.contexts
    case _ => true
  }

  // ----- the hooks -----

  ghost function Cleared(s: State, t: Thread): State { s.(contexts := s.contexts - {t}) }

  predicate HasSeed(s: State) { s.taken < |s.supplied| }

  /** The context a plan gets: a fresh span, in the trace of the thread's owner if that is fresh. */
  ghost function Plan(s: State, t: Thread, at: nat, now: nat, ttl: nat): Planned
    requires HasSeed(s)
  {
    var seed := s.supplied[s.taken];
    if t in s.contexts && ContextIsFresh(s.contexts[t].startedAt, now, ttl) then
      var owner := s.contexts[t];
      Planned(s.taken, Context(owner.context.traceId, seed.spanId, owner.context.flags),
              Some(owner.context.spanId), owner.tracestate, at, now)
    else Planned(s.taken, seed, None, [], at, now)
  }

  ghost predicate Stale(s: State, t: Thread, now: nat, ttl: nat)
  {
    t in s.contexts && !ContextIsFresh(s.contexts[t].startedAt, now, ttl)
  }

  ghost function Activate(s: State, t: Thread, remote: Remote, now: nat, stored: bool): State
    requires HasSeed(s)
  {
    var span := s.supplied[s.taken].spanId;
    var active := Active(s.taken, Context(remote.context.traceId, span, remote.context.flags), remote.tracestate, now);
    s.(taken := s.taken + 1, contexts := if stored then s.contexts[t := active] else s.contexts)
  }

  ghost function Prepare(s: State, t: Thread, at: nat, now: nat, ttl: nat, stored: bool): State
    requires HasSeed(s)
  {
    var planned := Plan(s, t, at, now, ttl);
    var s' := (if Stale(s, t, now, ttl) then Cleared(s, t) else s).(taken := s.taken + 1);
    // An earlier request of the thread that is still pending keeps its place.
    if t in s.pending || !stored then s'
    else s'.(pending := s.pending[t := planned], plans := s.plans + [planned])
  }

  ghost function Finish(s: State, t: Thread, generated: bool): State
  {
    if t !in s.pending then s
    else s.(pending := s.pending - {t}, finished := s.finished + [Outcome(s.pending[t], generated)])
  }

  ghost function Destroy(s: State, t: Thread): State
  {
    s.(contexts := s.contexts - {t}, reading := s.reading - {t}, pending := s.pending - {t},
       destroyed := if t in s.pending then s.destroyed + [s.pending[t]] else s.destroyed)
  }

  ghost function Apply(s: State, step: Step): State
    requires Enabled(s, step)
  {
    match step
    case Supply(seed) => s.(supplied := s.supplied + [seed])
    case ReadEnter(t) => s.(reading := s.reading + {t})
    case ReadExit(t, inbound, now, stored) =>
      // Whatever was read, the previous request no longer owns the thread.
      var s' := Cleared(s, t).(reading := s.reading - {t});
      if inbound.Some? && HasSeed(s') then Activate(s', t, inbound.value, now, stored) else s'
    case ServerWrite(t) => Cleared(s, t)
    case ClientWrite(t, insertAt, now, ttl, stored) =>
      if insertAt.Some? && HasSeed(s) then Prepare(s, t, insertAt.value, now, ttl, stored) else s
    case Evict(t) => Cleared(s, t)
    case Sent(t, generated) => Finish(s, t, generated)
    case WriteExit(t) => Finish(s, t, false)
    case Exit(t) => Destroy(s, t)
    case Exec(t, former) => Destroy(if former.Some? then Destroy(s, former.value) else s, t)
  }

  ghost predicate IsRun(states: seq<State>, steps: seq<Step>)
  {
    && |states| == |steps| + 1 && Initial(states[0])
    && forall k | 0 <= k < |steps| :: Enabled(states[k], steps[k]) && states[k + 1] == Apply(states[k], steps[k])
  }

  // ----- ownership -----

  /** Step `j` made a request of thread `t` the owner of the thread. */
  ghost predicate Activates(states: seq<State>, steps: seq<Step>, j: int, t: Thread)
  {
    && 0 <= j < |steps| && |states| == |steps| + 1 && HasSeed(states[j])
    && steps[j].ReadExit? && steps[j].t == t && steps[j].inbound.Some? && steps[j].stored
  }

  /** The owner as the inbound request and the queue determine it. */
  ghost function OwnerFrom(states: seq<State>, steps: seq<Step>, j: int, t: Thread): Active
    requires Activates(states, steps, j, t)
  {
    var remote := steps[j].inbound.value;
    Active(states[j].taken, Context(remote.context.traceId, states[j].supplied[states[j].taken].spanId, remote.context.flags),
           remote.tracestate, steps[j].now)
  }

  /** The step ends whatever ownership thread `t` had. */
  ghost predicate Supersedes(s: State, step: Step, t: Thread)
  {
    match step
    case ReadExit(u, _, _, _) => u == t
    case ServerWrite(u) => u == t
    case Evict(u) => u == t
    case Exit(u) => u == t
    case Exec(u, former) => u == t || former == Some(t)
    case ClientWrite(u, insertAt, now, ttl, _) => u == t && insertAt.Some? && HasSeed(s) && Stale(s, t, now, ttl)
    case _ => false
  }

  /** Step `j` activated the owner of `t` and nothing before step `k` superseded it. */
  ghost predicate OwnedSince(states: seq<State>, steps: seq<Step>, j: int, k: int, t: Thread)
  {
    && j < k <= |steps| && Activates(states, steps, j, t)
    && forall i | j < i < k :: !Supersedes(states[i], steps[i], t)
  }

  lemma {:induction false} ContextStep(states: seq<State>, steps: seq<Step>, k: nat, t: Thread)
    requires IsRun(states, steps) && k < |steps|
    ensures Activates(states, steps, k, t) ==> t in states[k + 1].contexts && states[k + 1].contexts[t] == OwnerFrom(states, steps, k, t)
    ensures !Activates(states, steps, k, t) && Supersedes(states[k], steps[k], t) ==> t !in states[k + 1].contexts
    ensures !Supersedes(states[k], steps[k], t) ==>
              (t in states[k + 1].contexts <==> t in states[k].contexts)
              && (t in states[k].contexts ==> states[k + 1].contexts[t] == states[k].contexts[t])
  {
    assert states[k + 1] == Apply(states[k], steps[k]);
  }

  /** Every owner comes from an activation that nothing has superseded. */
  lemma {:induction false} OwnerOrigin(states: seq<State>, steps: seq<Step>, k: nat, t: Thread) returns (j: nat)
    requires IsRun(states, steps) && k < |states| && t in states[k].contexts
    ensures OwnedSince(states, steps, j, k, t) && states[k].contexts[t] == OwnerFrom(states, steps, j, t)
  {
    hide Apply, Enabled, Activates, Supersedes;
    ContextStep(states, steps, k - 1, t);
    if Activates(states, steps, k - 1, t) {
      j := k - 1;
    } else {
      j := OwnerOrigin(states, steps, k - 1, t);
    }
  }

  /** An activation that nothing has superseded is the owner. */
  lemma {:induction false} OwnerStays(states: seq<State>, steps: seq<Step>, j: int, k: nat, t: Thread)
    requires IsRun(states, steps) && OwnedSince(states, steps, j, k, t)
    ensures t in states[k].contexts && states[k].contexts[t] == OwnerFrom(states, steps, j, t)
    decreases k
  {
    hide Apply, Enabled, Supersedes;
    ContextStep(states, steps, k - 1, t);
    if j < k - 1 {
      OwnerStays(states, steps, j, k - 1, t);
    }
  }

  /** Step `k` plans a request of thread `t`. */
  ghost predicate Plans(states: seq<State>, steps: seq<Step>, k: int, t: Thread)
  {
    && 0 <= k < |steps| && |states| == |steps| + 1 && HasSeed(states[k]) && t !in states[k].pending
    && steps[k].ClientWrite? && steps[k].t == t && steps[k].insertAt.Some? && steps[k].stored
  }

  ghost predicate FreshOwner(states: seq<State>, steps: seq<Step>, j: int, k: int, t: Thread)
    requires Plans(states, steps, k, t)
  {
    OwnedSince(states, steps, j, k, t) &&
    ContextIsFresh(OwnerFrom(states, steps, j, t).startedAt, steps[k].now, steps[k].ttl)
  }

  /**
    A planned request continues the trace of exactly the latest inbound request of its own thread
    that is still fresh and that no read, response, exit or exec has superseded; else it starts one.
   */
  lemma {:induction false} ParentIsFreshOwner(states: seq<State>, steps: seq<Step>, k: nat, t: Thread)
    requires IsRun(states, steps) && Plans(states, steps, k, t)
    ensures t in states[k + 1].pending
    ensures var p, seed := states[k + 1].pending[t], states[k].supplied[states[k].taken];
            && p.context.spanId == seed.spanId && Some(p.insertAt) == steps[k].insertAt
            && (p.parent.None? ==> p.context == seed && p.tracestate == [] && forall j :: !FreshOwner(states, steps, j, k, t))
            && (p.parent.Some? ==> exists j :: FreshOwner(states, steps, j, k, t))
            && forall j | FreshOwner(states, steps, j, k, t) ::
                 var owner := OwnerFrom(states, steps, j, t);
                 && p.parent == Some(owner.context.spanId) && p.tracestate == owner.tracestate
                 && p.context.traceId == owner.context.traceId && p.context.flags == owner.context.flags
  {
    hide Activates, Supersedes, OwnerFrom;
    var s := states[k];
    assert states[k + 1] == Apply(s, steps[k]);
    if t in s.contexts {
      var j := OwnerOrigin(states, steps, k, t);
      assert states[k + 1].pending[t].parent.Some? ==> FreshOwner(states, steps, j, k, t);
    }
    forall j | OwnedSince(states, steps, j, k, t)
      ensures t in s.contexts && s.contexts[t] == OwnerFrom(states, steps, j, t)
    {
      OwnerStays(states, steps, j, k, t);
    }
  }

  // ----- spans -----

  ghost predicate Takes(states: seq<State>, k: int)
  {
    0 <= k < |states| - 1 && states[k + 1].taken != states[k].taken
  }

  ghost predicate DistinctSpans(seeds: seq<Context>)
  {
    forall i, j | 0 <= i < j < |seeds| :: seeds[i].spanId != seeds[j].spanId
  }

  lemma {:induction false} QueueStep(s: State, step: Step)
    requires Enabled(s, step) && s.taken <= |s.supplied|
    ensures var s' := Apply(s, step);
            && s.supplied <= s'.supplied && s'.taken <= |s'.supplied|
            && (s'.taken == s.taken || (HasSeed(s) && s'.taken == s.taken + 1))
  {}

  lemma {:induction false} QueueRun(states: seq<State>, steps: seq<Step>, i: nat, j: nat)
    requires IsRun(states, steps) && i <= j < |states|
    ensures states[i].supplied <= states[j].supplied && states[i].taken <= states[j].taken <= |states[j].supplied|
    ensures states[i].taken <= |states[i].supplied|
    decreases j
  {
    hide Apply, Enabled;
    if 0 < j {
      QueueRun(states, steps, if i < j then i else i - 1, j - 1);
      QueueStep(states[j - 1], steps[j - 1]);
    }
  }

  /** No two steps take the same seed. */
  lemma {:induction false} TakenOnce(states: seq<State>, steps: seq<Step>, j: nat, k: nat)
    requires IsRun(states, steps) && j < k && Takes(states, j) && Takes(states, k)
    requires DistinctSpans(states[|steps|].supplied)
    ensures HasSeed(states[j]) && HasSeed(states[k]) && SeedSpan(states[j]) != SeedSpan(states[k])
  {
    hide Apply, Enabled;
    var last := |steps|;
    QueueRun(states, steps, j, j);
    QueueRun(states, steps, k, k);
    QueueStep(states[j], steps[j]);
    QueueStep(states[k], steps[k]);
    QueueRun(states, steps, j + 1, k);
    QueueRun(states, steps, j, last);
    QueueRun(states, steps, k, last);
    var a, b := states[j].taken, states[k].taken;
    assert a < b;
    assert states[last].supplied[a] == states[j].supplied[a] && states[last].supplied[b] == states[k].supplied[b];
  }

  /** The span that the next seed brings. */
  function SeedSpan(s: State): ByteSeq
    requires HasSeed(s)
  {
    s.supplied[s.taken].spanId
  }

  lemma {:induction false} PlansStep(s: State, step: Step)
    requires Enabled(s, step)
    ensures var s' := Apply(s, step);
            || s'.plans == s.plans
            || (&& step.ClientWrite? && HasSeed(s) && s'.taken == s.taken + 1 && |s'.plans| == |s.plans| + 1 && s'.plans[..|s.plans|] == s.plans
                && s'.plans[|s.plans|].context.spanId == SeedSpan(s))
  {}

  /** The step that planned request number `i` of the run. */
  lemma {:induction false} PlanOrigin(states: seq<State>, steps: seq<Step>, k: nat, i: nat) returns (m: nat)
    requires IsRun(states, steps) && k < |states| && i < |states[k].plans|
    ensures m < k && steps[m].ClientWrite? && Takes(states, m) && HasSeed(states[m]) && |states[m].plans| == i
    ensures states[k].plans[i].context.spanId == SeedSpan(states[m])
  {
    hide Apply, Enabled, SeedSpan;
    PlansStep(states[k - 1], steps[k - 1]);
    if i < |states[k - 1].plans| {
      m := PlanOrigin(states, steps, k - 1, i);
    } else {
      m := k - 1;
    }
  }

  lemma {:induction false} ActivationTakes(states: seq<State>, steps: seq<Step>, j: nat, t: Thread)
    requires IsRun(states, steps) && Activates(states, steps, j, t)
    ensures Takes(states, j) && OwnerFrom(states, steps, j, t).context.spanId == SeedSpan(states[j])
  {
    assert states[j + 1] == Apply(states[j], steps[j]);
  }

  /**
    If the supplied spans are distinct, no two planned requests of a run have the same span, no
    planned request has that of a server span, and two server spans are the same only if they are
    one activation on one thread.
   */
  lemma {:induction false} SpansDiffer(states: seq<State>, steps: seq<Step>, k: nat)
    requires IsRun(states, steps) && k < |states| && DistinctSpans(states[|steps|].supplied)
    ensures forall i, j | 0 <= i < j < |states[k].plans| :: states[k].plans[i].context.spanId != states[k].plans[j].context.spanId
    ensures forall i, n, t | 0 <= i < |states[k].plans| && 0 <= n < |states| && t in states[n].contexts ::
              states[k].plans[i].context.spanId != states[n].contexts[t].context.spanId
    ensures forall n, t, u | 0 <= n < |states| && t in states[n].contexts && u in states[k].contexts
                             && states[n].contexts[t].context.spanId == states[k].contexts[u].context.spanId ::
              t == u && states[n].contexts[t] == states[k].contexts[u]
  {
    hide Apply, Enabled, IsRun, DistinctSpans;
    forall i, j | 0 <= i < j < |states[k].plans|
      ensures states[k].plans[i].context.spanId != states[k].plans[j].context.spanId
    {
      PlanSpansDiffer(states, steps, k, i, j);
    }
    forall i, n, t | 0 <= i < |states[k].plans| && 0 <= n < |states| && t in states[n].contexts
      ensures states[k].plans[i].context.spanId != states[n].contexts[t].context.spanId
    {
      OwnerSpanDiffers(states, steps, k, i, n, t);
    }
    forall n, t, u | 0 <= n < |states| && t in states[n].contexts && u in states[k].contexts
                     && states[n].contexts[t].context.spanId == states[k].contexts[u].context.spanId
      ensures t == u && states[n].contexts[t] == states[k].contexts[u]
    {
      OneOwner(states, steps, n, t, k, u);
    }
  }

  lemma {:induction false} PlanSpansDiffer(states: seq<State>, steps: seq<Step>, k: nat, i: nat, j: nat)
    requires IsRun(states, steps) && k < |states| && DistinctSpans(states[|steps|].supplied) && i < j < |states[k].plans|
    ensures states[k].plans[i].context.spanId != states[k].plans[j].context.spanId
  {
    hide Apply, Enabled, IsRun, DistinctSpans, SeedSpan, Takes;
    var a := PlanOrigin(states, steps, k, i);
    var b := PlanOrigin(states, steps, k, j);
    if a < b {
      TakenOnce(states, steps, a, b);
    } else {
      TakenOnce(states, steps, b, a);
    }
  }

  lemma {:induction false} OwnerSpanDiffers(states: seq<State>, steps: seq<Step>, k: nat, i: nat, n: nat, t: Thread)
    requires IsRun(states, steps) && k < |states| && n < |states| && DistinctSpans(states[|steps|].supplied)
    requires i < |states[k].plans| && t in states[n].contexts
    ensures states[k].plans[i].context.spanId != states[n].contexts[t].context.spanId
  {
    hide Apply, Enabled, IsRun, DistinctSpans, SeedSpan, Takes, Supersedes, OwnerFrom;
    var a := PlanOrigin(states, steps, k, i);
    var b := OwnerOrigin(states, steps, n, t);
    ActivationTakes(states, steps, b, t);
    if a < b {
      TakenOnce(states, steps, a, b);
    } else {
      TakenOnce(states, steps, b, a);
    }
  }

  lemma {:induction false} OneOwner(states: seq<State>, steps: seq<Step>, n: nat, t: Thread, k: nat, u: Thread)
    requires IsRun(states, steps) && k < |states| && n < |states| && DistinctSpans(states[|steps|].supplied)
    requires t in states[n].contexts && u in states[k].contexts
    requires states[n].contexts[t].context.spanId == states[k].contexts[u].context.spanId
    ensures t == u && states[n].contexts[t] == states[k].contexts[u]
  {
    hide Apply, Enabled, IsRun, DistinctSpans, SeedSpan, Takes, Supersedes, OwnerFrom;
    var a := OwnerOrigin(states, steps, n, t);
    var b := OwnerOrigin(states, steps, k, u);
    ActivationTakes(states, steps, a, t);
    ActivationTakes(states, steps, b, u);
    if a < b {
      TakenOnce(states, steps, a, b);
    } else if b < a {
      TakenOnce(states, steps, b, a);
    }
  }

  // ----- every planned request ends once -----

  function PlansOf(outcomes: seq<Outcome>): seq<Planned>
  {
    seq(|outcomes|, i requires 0 <= i < |outcomes| => outcomes[i].planned)
  }

  ghost predicate IsPending(s: State, p: Planned) { exists t :: t in s.pending && s.pending[t] == p }

  /** In how many places a planned request is found: finished, destroyed or pending. */
  ghost function Places(s: State, p: Planned): nat
  {
    multiset(PlansOf(s.finished))[p] + multiset(s.destroyed)[p] + if IsPending(s, p) then 1 else 0
  }

  ghost predicate Accounted(s: State)
  {
    && (forall p | p in s.plans :: p.serial < s.taken)
    && (forall t | t in s.pending :: s.pending[t] in s.plans)
    && (forall t, u | t in s.pending && u in s.pending && s.pending[t] == s.pending[u] :: t == u)
    && (forall p :: Places(s, p) == if p in s.plans then 1 else 0)
  }

  lemma {:induction false} FinishKeeps(s: State, t: Thread, generated: bool)
    requires Accounted(s)
    ensures Accounted(Finish(s, t, generated))
  {
    if t in s.pending {
      var s', p := Finish(s, t, generated), s.pending[t];
      assert PlansOf(s'.finished) == PlansOf(s.finished) + [p];
      PendingLeft(s, t, s');
    }
  }

  lemma {:induction false} PendingLeft(s: State, t: Thread, s': State)
    requires Accounted(s) && t in s.pending && s'.pending == s.pending - {t}
    ensures forall q :: IsPending(s', q) <==> IsPending(s, q) && q != s.pending[t]
  {
    hide Places;
    forall q
      ensures IsPending(s', q) <==> IsPending(s, q) && q != s.pending[t]
    {
      if IsPending(s, q) && q != s.pending[t] {
        var u :| u in s.pending && s.pending[u] == q;
        assert u in s'.pending && s'.pending[u] == q;
      }
    }
  }

  lemma {:induction false} DestroyKeeps(s: State, t: Thread)
    requires Accounted(s)
    ensures Accounted(Destroy(s, t))
  {
    var s' := Destroy(s, t);
    if t in s.pending {
      PendingLeft(s, t, s');
    } else {
      assert s'.pending == s.pending;
    }
  }

  lemma {:induction false} PrepareKeeps(s: State, t: Thread, at: nat, now: nat, ttl: nat, stored: bool)
    requires Accounted(s) && HasSeed(s)
    ensures Accounted(Prepare(s, t, at, now, ttl, stored))
  {
    hide Plan, Places;
    var s' := Prepare(s, t, at, now, ttl, stored);
    if t in s.pending || !stored {
      SamePlaces(s, s');
    } else {
      PlanSerial(s, t, at, now, ttl);
      PendingAdded(s, t, Plan(s, t, at, now, ttl), s');
    }
  }

  lemma {:induction false} PlanSerial(s: State, t: Thread, at: nat, now: nat, ttl: nat)
    requires HasSeed(s)
    ensures Plan(s, t, at, now, ttl).serial == s.taken
  {}

  lemma {:induction false} PendingAdded(s: State, t: Thread, p: Planned, s': State)
    requires Accounted(s) && t !in s.pending && p.serial == s.taken && s'.taken == s.taken + 1
    requires s'.pending == s.pending[t := p] && s'.plans == s.plans + [p] && s'.finished == s.finished && s'.destroyed == s.destroyed
    ensures Accounted(s')
  {
    assert p !in s.plans;
    assert Places(s, p) == 0;
    forall q
      ensures IsPending(s', q) <==> IsPending(s, q) || q == p
    {
      if IsPending(s, q) {
        var u :| u in s.pending && s.pending[u] == q;
        assert u in s'.pending && s'.pending[u] == q;
      }
      assert t in s'.pending && s'.pending[t] == p;
    }
    assert forall q :: Places(s', q) == Places(s, q) + if q == p then 1 else 0;
  }

  lemma {:induction false} SamePlaces(s: State, s': State)
    requires Accounted(s) && s'.pending == s.pending && s'.plans == s.plans && s'.finished == s.finished
    requires s'.destroyed == s.destroyed && s.taken <= s'.taken
    ensures Accounted(s')
  {
    forall q
      ensures Places(s', q) == Places(s, q)
    {
      assert IsPending(s', q) <==> IsPending(s, q);
    }
  }

  lemma {:induction false} StepKeepsAccount(s: State, step: Step)
    requires Accounted(s) && Enabled(s, step)
    ensures Accounted(Apply(s, step))
  {
    hide Accounted, Prepare, Finish, Destroy;
    match step
    case ClientWrite(t, insertAt, now, ttl, stored) =>
      if insertAt.Some? && HasSeed(s) {
        PrepareKeeps(s, t, insertAt.value, now, ttl, stored);
      }
    case Sent(t, generated) => FinishKeeps(s, t, generated);
    case WriteExit(t) => FinishKeeps(s, t, false);
    case Exit(t) => DestroyKeeps(s, t);
    case Exec(t, former) =>
      if former.Some? {
        DestroyKeeps(s, former.value);
      }
      DestroyKeeps(if former.Some? then Destroy(s, former.value) else s, t);
    case _ => SamePlaces(s, Apply(s, step));
  }

  /** At any time each planned request is in exactly one place: sent or flushed once, destroyed, or pending. */
  lemma {:induction false} EachPlanOnce(states: seq<State>, steps: seq<Step>, k: nat, p: Planned)
    requires IsRun(states, steps) && k < |states|
    ensures Places(states[k], p) == if p in states[k].plans then 1 else 0
    ensures Accounted(states[k])
  {
    hide Apply, Enabled, Places;
    if k == 0 {
      NothingPlanned(states[0]);
    } else {
      EachPlanOnce(states, steps, k - 1, p);
      StepKeepsAccount(states[k - 1], steps[k - 1]);
    }
  }

  lemma {:induction false} NothingPlanned(s: State)
    requires Initial(s)
    ensures Accounted(s)
  {
    assert PlansOf([]) == [];
  }
}
