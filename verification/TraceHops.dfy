/**
  A trace from hop to hop: what a thread takes over from an inbound request and continues in a
  request of its own, the next receiver takes over from that.
 */
module TraceHops {
  import opened Bytes
  import opened TraceContext
  import opened Insertion
  import opened MessageMutation
  import opened ThreadContexts
  import opened BpfScan
  import opened BpfPlan
  import opened BpfTracestate
  import opened InboundContext

  /** A context and a list that travel unchanged. */
  ghost predicate Sendable(context: Context, list: ByteSeq)
  {
    Usable(context) && (list == [] || (ScanTracestate(list) && TrimOws(list) == list))
  }

  /** Seeds are usable, and what is taken over was read from the bytes of a request. */
  ghost predicate StepFromWire(step: Step)
  {
    && (step.Supply? ==> Usable(step.seed))
    && (step.ReadExit? && step.inbound.Some? ==> exists bytes :: Inbound(bytes) == step.inbound)
  }

  ghost predicate FromWire(steps: seq<Step>) { forall k | 0 <= k < |steps| :: StepFromWire(steps[k]) }

  ghost predicate AllSendable(s: State)
  {
    && (forall i | 0 <= i < |s.supplied| :: Usable(s.supplied[i]))
    && (forall t | t in s.contexts :: Sendable(s.contexts[t].context, s.contexts[t].tracestate))
    && (forall t | t in s.pending :: Sendable(s.pending[t].context, s.pending[t].tracestate))
  }

  lemma {:induction false} SeededSendable(owner: Context, list: ByteSeq, seed: Context)
    requires Sendable(owner, list) && Usable(seed)
    ensures Sendable(Context(owner.traceId, seed.spanId, owner.flags), list) && Sendable(seed, [])
  {
    hide AllZero, ScanTracestate, TrimOws;
  }

  lemma {:induction false} TakenOver(step: Step)
    requires StepFromWire(step) && step.ReadExit? && step.inbound.Some?
    ensures Sendable(step.inbound.value.context, step.inbound.value.tracestate)
  {
    hide Inbound, ScanTracestate, TrimOws, Usable;
    var bytes :| Inbound(bytes) == step.inbound;
    TakenOverIsSendable(bytes);
  }

  lemma {:induction false} ReadSends(s: State, step: Step)
    requires AllSendable(s) && Enabled(s, step) && StepFromWire(step) && step.ReadExit?
    ensures AllSendable(Apply(s, step))
  {
    hide Sendable, Usable, StepFromWire;
    if step.inbound.Some? && HasSeed(s) {
      TakenOver(step);
      var remote := step.inbound.value;
      SeededSendable(remote.context, remote.tracestate, s.supplied[s.taken]);
    }
  }

  lemma {:induction false} WriteSends(s: State, step: Step)
    requires AllSendable(s) && Enabled(s, step) && step.ClientWrite?
    ensures AllSendable(Apply(s, step))
  {
    hide Sendable, Usable;
    if HasSeed(s) {
      var seed := s.supplied[s.taken];
      NoList(seed);
      if step.t in s.contexts {
        SeededSendable(s.contexts[step.t].context, s.contexts[step.t].tracestate, seed);
      }
    }
  }

  lemma {:induction false} NoList(seed: Context)
    requires Usable(seed)
    ensures Sendable(seed, [])
  {
    hide Usable;
  }

  lemma {:induction false} StepSends(s: State, step: Step)
    requires AllSendable(s) && Enabled(s, step) && StepFromWire(step)
    ensures AllSendable(Apply(s, step))
  {
    hide Sendable, Usable;
    if step.ReadExit? {
      ReadSends(s, step);
    } else if step.ClientWrite? {
      WriteSends(s, step);
    }
  }

  lemma {:induction false} RunSends(states: seq<State>, steps: seq<Step>, k: nat)
    requires IsRun(states, steps) && FromWire(steps) && k < |states|
    ensures AllSendable(states[k])
  {
    hide Apply, Enabled, StepFromWire, Sendable, Usable;
    if k > 0 {
      RunSends(states, steps, k - 1);
      StepSends(states[k - 1], steps[k - 1]);
    }
  }

  /** The fields that a planned request of the thread puts into a message. */
  ghost predicate CarriesPlan(s: State, t: Thread, p: Pending)
  {
    t in s.pending && p.context == s.pending[t].context && p.tracestate == s.pending[t].tracestate && p.insertAt == s.pending[t].insertAt
  }

  /** Whatever a thread has planned, the receiver of an acceptable message takes over. */
  lemma {:induction false} PlanTravels(states: seq<State>, steps: seq<Step>, k: nat, t: Thread, p: Pending, message: ByteSeq)
    requires IsRun(states, steps) && FromWire(steps) && k < |states| && CarriesPlan(states[k], t, p)
    requires p.request <= message && ScanPlan(p.request, |message|, false) == Some(p.insertAt)
    ensures p.insertAt <= |message|
    ensures var m := Insert(message, p.insertAt, GeneratedFields(p));
            Inbound(m) ==
            if ScanInbound(message, |message|) && |m| <= HTTP_REQUEST_BYTES then Some(Remote(p.context, p.tracestate)) else None
  {
    hide IsRun, FromWire, ScanPlan, ScanInbound, Inbound, Insert, GeneratedFields, Usable, ScanTracestate, TrimOws;
    RunSends(states, steps, k);
    ContextTravels(p, message);
  }

  /**
    A request that step `j` took over owns the thread and is still fresh when step `k` plans one of
    the thread's own: whoever receives that takes over the trace, flags and list of the first
    request, under the span that the queue supplied.
   */
  lemma {:induction false} TraceContinues(states: seq<State>, steps: seq<Step>, j: nat, k: nat, t: Thread, p: Pending, message: ByteSeq)
    requires IsRun(states, steps) && FromWire(steps) && Plans(states, steps, k, t) && FreshOwner(states, steps, j, k, t)
    requires CarriesPlan(states[k + 1], t, p) && p.request <= message && ScanPlan(p.request, |message|, false) == Some(p.insertAt)
    requires p.insertAt <= |message| && ScanInbound(message, |message|) && |message| + |GeneratedFields(p)| <= HTTP_REQUEST_BYTES
    ensures j < |steps| && steps[j].ReadExit? && steps[j].inbound.Some? && HasSeed(states[k])
    ensures var first := steps[j].inbound.value; var span := states[k].supplied[states[k].taken].spanId;
            Inbound(Insert(message, p.insertAt, GeneratedFields(p))) ==
            Some(Remote(Context(first.context.traceId, span, first.context.flags), first.tracestate))
  {
    hide IsRun, FromWire, ScanPlan, ScanInbound, Inbound, Insert, GeneratedFields, Supersedes;
    PlanLength(states, steps, k, t);
    PlanTravels(states, steps, k + 1, t, p, message);
    ParentIsFreshOwner(states, steps, k, t);
    InsertLength(message, p.insertAt, GeneratedFields(p));
  }

  lemma {:induction false} PlanLength(states: seq<State>, steps: seq<Step>, k: nat, t: Thread)
    requires Plans(states, steps, k, t)
    ensures k + 1 < |states|
  {}
}
