/**
  Attribution of decrypted TLS bytes to connections, for one process id, as a state machine over
  the kernel-side hooks. Beside the hooks' maps the state carries what is really open: `sockets`
  gives for each descriptor the start time of the connection instance behind it, and `connecting`
  the connects in progress. Descriptors, handles, thread ids and the process id itself are reused.
 */
module TlsIdentity {
  import opened Bytes

  type Thread = nat
  type Fd = int
  type Handle = nat

  datatype Direction = Read | Write

  /** A connect in progress, or the one a hook remembers. */
  datatype Opening = Opening(fd: Fd, start: nat)

  /** `captured`: a TCP connection on a captured port. */
  datatype Connection = Connection(start: nat, captured: bool)

  datatype Side = Side(fd: Fd, start: nat)

  /** The descriptors bound to a handle and the instances that were behind them; -1 and 0 for none. */
  datatype Binding = Binding(read: Side, write: Side) {
    function Get(d: Direction): Side { if d == Read then read else write }
  }

  const UNBOUND := Binding(Side(-1, 0), Side(-1, 0))

  datatype HandleKey = HandleKey(handle: Handle, generation: nat)

  datatype PendingSetFd = PendingSetFd(generation: nat, handle: Handle, fd: Fd, directions: seq<Direction>)

  datatype PendingIo = PendingIo(generation: nat, start: nat, handle: Handle, direction: Direction)

  /** A connection record that a hook has read and is about to put back with larger byte counts. */
  datatype Copy = Copy(fd: Fd, connection: Connection)

  datatype State = State(
    clock: nat, sockets: map<Fd, nat>, connecting: map<Thread, Opening>,
    generation: Option<nat>, opening: map<Thread, Opening>, active: map<Fd, Connection>,
    handles: map<HandleKey, Binding>, settings: map<Thread, PendingSetFd>, calls: map<Thread, PendingIo>,
    copies: map<Thread, Copy>)

  /** `stored`: the hook's insertion into its map succeeds; else what was there stays. */
  datatype Step =
    | ConnectEnter(t: Thread, fd: Fd, lifecycle: bool, stored: bool)
    | ConnectExit(t: Thread, success: bool, stored: bool, captured: bool)
    | AcceptExit(fd: Fd, stored: bool, captured: bool)
    | Close(fd: Fd)
    | SetFdEnter(t: Thread, handle: Handle, fd: Fd, directions: seq<Direction>, stored: bool)
    | SetFdExit(t: Thread, success: bool, stored: bool)
    | SetFds(handle: Handle, readFd: Fd, writeFd: Fd, stored: bool)
    | RemoveHandle(handle: Handle)
    | IoEnter(t: Thread, handle: Handle, direction: Direction, stored: bool)
    | IoExit(t: Thread, direction: Direction, length: nat)
    | Exec(closing: set<Fd>)
    | ThreadExit(t: Thread)
    | ProcessExit
    | EvictHandle(key: HandleKey)
    | EvictGeneration
    | CopyRecord(t: Thread, fd: Fd)
    | PutRecord(t: Thread, stored: bool)

  ghost predicate Initial(s: State) { s == State(0, map[], map[], None, map[], map[], map[], map[], map[], map[]) }

  // ----- the guards -----

  predicate CaptureIdentityMatches(process: nat, currentProcess: nat, connection: nat, currentConnection: nat)
  {
    process != 0 && process == currentProcess && connection != 0 && connection == currentConnection
  }

  predicate ConnectionIsCurrent(process: nat, start: nat) { process != 0 && start >= process }

  /** The time read by a hook that runs now: the clock is strictly increasing from hook to hook. */
  function Now(s: State): nat { s.clock + 1 }

  /** The process generation, created on demand. */
  function Generation(s: State): nat { match s.generation case Some(g) => g case None => Now(s) }

  ghost function Generated(s: State): State { s.(generation := Some(Generation(s))) }

  ghost function ConnectionForFd(s: State, fd: Fd): Option<Connection>
  {
    if fd in s.active && ConnectionIsCurrent(Generation(s), s.active[fd].start) && s.active[fd].captured
    then Some(s.active[fd]) else None
  }

  /** The descriptor and connection instance that a handle stands for now, if that is beyond doubt. */
  ghost function SideForHandle(s: State, handle: Handle, d: Direction): Option<Side>
  {
    var key := HandleKey(handle, Generation(s));
    if key !in s.handles || s.handles[key].Get(d).fd < 0 then None
    else
      var side := s.handles[key].Get(d);
      match ConnectionForFd(s, side.fd)
      case None => None
      case Some(c) =>
        if CaptureIdentityMatches(key.generation, Generation(s), side.start, c.start) then Some(Side(side.fd, c.start)) else None
  }

  // ----- the hooks -----

  ghost predicate Enabled(s: State, step: Step)
  {
    match step
    case ConnectEnter(t, _, _, _) => t !in s.connecting
    case ConnectExit(t, _, _, _) => t in s.connecting
    // The kernel hands out a descriptor that is not in use.
    case AcceptExit(fd, _, _) => fd !in s.sockets
    // A thread that leaves by itself is not inside a system call.
    case ThreadExit(t) => t !in s.connecting
    case CopyRecord(t, _) => t !in s.copies
    case PutRecord(t, _) => t in s.copies
    case _ => true
  }

  /** What a hook does to the descriptor's side: the instance behind it, or none. */
  ghost function SideNow(s: State, fd: Fd): Side
  {
    match ConnectionForFd(s, fd) case Some(c) => Side(fd, c.start) case None => Side(fd, 0)
  }

  ghost predicate SameConnections(s: State, r: State)
  {
    && r.clock == s.clock && r.sockets == s.sockets && r.connecting == s.connecting && r.opening == s.opening && r.active == s.active
    && r.copies == s.copies
    && (r.generation == s.generation || r.generation.None? || r.generation == Some(Generation(s)))
  }

  ghost function Bind(s: State, handle: Handle, directions: seq<Direction>, readFd: Fd, writeFd: Fd, stored: bool): (r: State)
    ensures SameConnections(s, r) && r.calls == s.calls && (!stored ==> r.handles == s.handles)
  {
    var key := HandleKey(handle, Generation(s));
    Generated(s).(handles := if stored then s.handles[key := Rebound(s, key, directions, readFd, writeFd)] else s.handles)
  }

  ghost function Rebound(s: State, key: HandleKey, directions: seq<Direction>, readFd: Fd, writeFd: Fd): Binding
  {
    var was := if key in s.handles then s.handles[key] else UNBOUND;
    Binding(if Read in directions then SideNow(s, readFd) else was.read, if Write in directions then SideNow(s, writeFd) else was.write)
  }

  /** The connect of thread `t` is remembered as it is. */
  ghost predicate Remembered(s: State, t: Thread)
  {
    t in s.opening && t in s.connecting && s.opening[t] == s.connecting[t]
  }

  /** A second successful connect on an open descriptor is the same socket, known by a new time if recorded. */
  ghost function SocketsAfterConnect(s: State, t: Thread, stored: bool): map<Fd, nat>
    requires t in s.connecting
  {
    var c := s.connecting[t];
    if c.fd in s.sockets && !(stored && Remembered(s, t)) then s.sockets else s.sockets[c.fd := c.start]
  }

  ghost function ActiveAfterConnect(s: State, t: Thread, stored: bool, captured: bool): map<Fd, Connection>
  {
    if t in s.opening && stored then s.active[s.opening[t].fd := Connection(s.opening[t].start, captured)] else s.active
  }

  ghost function ConnectCall(s: State, t: Thread, fd: Fd, lifecycle: bool, stored: bool): (r: State)
    ensures r.clock == Now(s) && r.handles == s.handles && r.calls == s.calls
  {
    var s' := if lifecycle then Generated(s) else s;
    var o := Opening(fd, Now(s));
    s'.(connecting := s.connecting[t := o], opening := if stored then s.opening[t := o] else s.opening, clock := Now(s))
  }

  ghost function ConnectReturn(s: State, t: Thread, success: bool, stored: bool, captured: bool): (r: State)
    requires t in s.connecting
    ensures r.clock == Now(s) && r.handles == s.handles && r.calls == s.calls
  {
    var s' := s.(connecting := s.connecting - {t}, opening := s.opening - {t}, clock := Now(s));
    if !success then s'
    else s'.(sockets := SocketsAfterConnect(s, t, stored), active := ActiveAfterConnect(s, t, stored, captured))
  }

  /** Hooks of TLS calls, and what happens to their records: they change no connection. */
  ghost predicate TlsCall(step: Step)
  {
    || step.SetFdEnter? || step.SetFdExit? || step.SetFds? || step.RemoveHandle? || step.IoEnter? || step.IoExit?
    || step.ThreadExit? || step.EvictHandle? || step.EvictGeneration?
  }

  ghost function SetFdCall(s: State, t: Thread, handle: Handle, fd: Fd, directions: seq<Direction>, stored: bool): (r: State)
    ensures SameConnections(s, r) && r.calls == s.calls && r.handles == s.handles
  {
    if handle == 0 || fd < 0 then s
    else
      Generated(s).(settings := if stored then s.settings[t := PendingSetFd(Generation(s), handle, fd, directions)] else s.settings)
  }

  ghost function SetFdReturn(s: State, t: Thread, success: bool, stored: bool): (r: State)
    ensures SameConnections(s, r) && r.calls == s.calls && (!success || !stored ==> r.handles == s.handles)
  {
    if t !in s.settings then s
    else
      var p := s.settings[t];
      var s' := s.(settings := s.settings - {t});
      if !success || p.generation == 0 || p.generation != Generation(s') then s'
      else Bind(s', p.handle, p.directions, p.fd, p.fd, stored)
  }

  ghost function IoCall(s: State, t: Thread, handle: Handle, direction: Direction, stored: bool): (r: State)
    ensures SameConnections(s, r) && r.handles == s.handles
  {
    if handle == 0 then s
    else
      // A failed entry must not leave an earlier buffer to a nested return.
      var side := SideForHandle(s, handle, direction);
      if side.None? then Generated(s).(calls := s.calls - {t})
      else if !stored then Generated(s)
      else Generated(s).(calls := s.calls[t := PendingIo(Generation(s), side.value.start, handle, direction)])
  }

  ghost function TlsHook(s: State, step: Step): (r: State)
    requires TlsCall(step)
    ensures SameConnections(s, r)
  {
    match step
    case SetFdEnter(t, handle, fd, directions, stored) => SetFdCall(s, t, handle, fd, directions, stored)
    case SetFdExit(t, success, stored) => SetFdReturn(s, t, success, stored)
    case SetFds(handle, readFd, writeFd, stored) =>
      if handle == 0 || readFd < 0 || writeFd < 0 then s else Bind(s, handle, [Read, Write], readFd, writeFd, stored)
    case RemoveHandle(handle) => if handle == 0 then s else Generated(s).(handles := s.handles - {HandleKey(handle, Generation(s))})
    case IoEnter(t, handle, direction, stored) => IoCall(s, t, handle, direction, stored)
    case IoExit(t, _, _) => if t in s.calls then Generated(s).(calls := s.calls - {t}) else s
    case ThreadExit(t) => s.(calls := s.calls - {t}, settings := s.settings - {t})
    case EvictHandle(key) => s.(handles := s.handles - {key})
    case EvictGeneration => s.(generation := None)
  }

  ghost function Copied(s: State, t: Thread, fd: Fd): (r: State)
    ensures r == s.(copies := r.copies)
  {
    if fd in s.active then s.(copies := s.copies[t := Copy(fd, s.active[fd])]) else s
  }

  /** The record goes back whatever has become of the connection meanwhile. */
  ghost function PutBack(s: State, t: Thread, stored: bool): (r: State)
    requires t in s.copies
    ensures r == s.(active := r.active, copies := r.copies)
  {
    var copy := s.copies[t];
    s.(copies := s.copies - {t}, active := if stored then s.active[copy.fd := copy.connection] else s.active)
  }

  ghost function Hook(s: State, step: Step): State
    requires Enabled(s, step)
  {
    match step
    case ConnectEnter(t, fd, lifecycle, stored) => ConnectCall(s, t, fd, lifecycle, stored)
    case ConnectExit(t, success, stored, captured) => ConnectReturn(s, t, success, stored, captured)
    case AcceptExit(fd, stored, captured) =>
      s.(sockets := s.sockets[fd := Now(s)], active := if stored then s.active[fd := Connection(Now(s), captured)] else s.active)
    case Close(fd) => s.(sockets := s.sockets - {fd}, active := s.active - {fd})
    case Exec(closing) => s.(generation := Some(Now(s)), connecting := map[], sockets := s.sockets - closing)
    case ProcessExit => s.(generation := None, connecting := map[], sockets := map[])
    case CopyRecord(t, fd) => Copied(s, t, fd)
    case PutRecord(t, stored) => PutBack(s, t, stored)
    case _ => TlsHook(s, step)
  }

  ghost function Apply(s: State, step: Step): State
    requires Enabled(s, step)
  {
    Hook(s, step).(clock := Now(s))
  }

  /** The connection side to which a returning call's bytes are attributed, if they are emitted. */
  ghost function Emitted(s: State, step: Step): Option<Side>
  {
    if !step.IoExit? || step.t !in s.calls || s.calls[step.t].direction != step.direction || step.length == 0 then None
    else
      var p := s.calls[step.t];
      match SideForHandle(s, p.handle, step.direction)
      case None => None
      case Some(side) =>
        if CaptureIdentityMatches(p.generation, Generation(s), p.start, side.start) then Some(side) else None
  }

  ghost predicate IsRun(states: seq<State>, steps: seq<Step>)
  {
    && |states| == |steps| + 1 && Initial(states[0])
    && forall k | 0 <= k < |steps| :: Enabled(states[k], steps[k]) && states[k + 1] == Apply(states[k], steps[k])
  }

  // ----- the invariant -----

  /** No time lies ahead of the clock. */
  ghost predicate InThePast(s: State)
  {
    && (s.generation.Some? ==> 0 < s.generation.value <= s.clock)
    && (forall fd | fd in s.active :: s.active[fd].start <= s.clock)
    && (forall t | t in s.opening :: s.opening[t].start <= s.clock)
    && (forall fd | fd in s.sockets :: s.sockets[fd] <= s.clock)
    && (forall t | t in s.connecting :: s.connecting[t].start <= s.clock)
    && (forall t | t in s.copies :: s.copies[t].connection.start <= s.clock)
  }

  /** What is recorded since the generation began is really open, or really being opened. */
  ghost predicate RecordsTrue(s: State)
  {
    s.generation.Some? ==>
      && (forall fd | fd in s.active && s.active[fd].start >= s.generation.value :: fd in s.sockets && s.sockets[fd] == s.active[fd].start)
      && (forall t | t in s.opening && s.opening[t].start >= s.generation.value :: t in s.connecting && s.connecting[t] == s.opening[t])
  }

  /** Start times name instances. */
  ghost predicate TimesDistinct(s: State)
  {
    && (forall fd, fe | fd in s.sockets && fe in s.sockets && fd != fe :: s.sockets[fd] != s.sockets[fe])
    && (forall t, fd | t in s.connecting && fd in s.sockets :: s.connecting[t].start != s.sockets[fd])
    && (forall t, u | t in s.connecting && u in s.connecting && t != u :: s.connecting[t].start != s.connecting[u].start)
  }

  ghost predicate Invariant(s: State) { InThePast(s) && RecordsTrue(s) && TimesDistinct(s) }

  lemma {:induction false} TlsCallKeeps(s: State, step: Step)
    requires Invariant(s) && Enabled(s, step) && TlsCall(step)
    ensures Invariant(Apply(s, step))
  {
    hide TlsHook, ConnectCall, ConnectReturn, Copied, PutBack;
  }

  lemma {:induction false} ConnectCallKeeps(s: State, t: Thread, fd: Fd, lifecycle: bool, stored: bool)
    requires Invariant(s) && t !in s.connecting
    ensures Invariant(ConnectCall(s, t, fd, lifecycle, stored))
  {
    CallPast(s, t, fd, lifecycle, stored);
    CallRecords(s, t, fd, lifecycle, stored);
    CallDistinct(s, t, fd, lifecycle, stored);
  }

  lemma {:induction false} CallPast(s: State, t: Thread, fd: Fd, lifecycle: bool, stored: bool)
    requires InThePast(s)
    ensures InThePast(ConnectCall(s, t, fd, lifecycle, stored))
  {}

  lemma {:induction false} CallRecords(s: State, t: Thread, fd: Fd, lifecycle: bool, stored: bool)
    requires InThePast(s) && RecordsTrue(s) && t !in s.connecting
    ensures RecordsTrue(ConnectCall(s, t, fd, lifecycle, stored))
  {}

  lemma {:induction false} CallDistinct(s: State, t: Thread, fd: Fd, lifecycle: bool, stored: bool)
    requires InThePast(s) && TimesDistinct(s)
    ensures TimesDistinct(ConnectCall(s, t, fd, lifecycle, stored))
  {}

  lemma {:induction false} ConnectReturnKeeps(s: State, t: Thread, success: bool, stored: bool, captured: bool)
    requires Invariant(s) && t in s.connecting
    ensures Invariant(ConnectReturn(s, t, success, stored, captured))
  {
    ReturnPast(s, t, success, stored, captured);
    ReturnRecords(s, t, success, stored, captured);
    ReturnDistinct(s, t, success, stored, captured);
  }

  lemma {:induction false} ReturnPast(s: State, t: Thread, success: bool, stored: bool, captured: bool)
    requires InThePast(s) && t in s.connecting
    ensures InThePast(ConnectReturn(s, t, success, stored, captured))
  {
    hide Remembered;
  }

  lemma {:induction false} ReturnRecords(s: State, t: Thread, success: bool, stored: bool, captured: bool)
    requires RecordsTrue(s) && t in s.connecting
    ensures RecordsTrue(ConnectReturn(s, t, success, stored, captured))
  {}

  lemma {:induction false} ReturnDistinct(s: State, t: Thread, success: bool, stored: bool, captured: bool)
    requires TimesDistinct(s) && t in s.connecting
    ensures TimesDistinct(ConnectReturn(s, t, success, stored, captured))
  {
    hide Remembered;
  }

  /** What does not concern connections. */
  lemma {:induction false} Unconcerned(s: State, r: State)
    requires RecordsTrue(s) && TimesDistinct(s) && r.generation == s.generation
    requires r.active == s.active && r.sockets == s.sockets && r.connecting == s.connecting && r.opening == s.opening
    ensures RecordsTrue(r) && TimesDistinct(r)
  {}

  lemma {:induction false} AcceptKeeps(s: State, step: Step)
    requires Invariant(s) && Enabled(s, step) && (step.AcceptExit? || step.Close?)
    ensures Invariant(Apply(s, step))
  {
    hide InThePast, RecordsTrue, TimesDistinct, Apply;
    AcceptPast(s, step);
    AcceptRecords(s, step);
    AcceptDistinct(s, step);
  }

  lemma {:induction false} AcceptPast(s: State, step: Step)
    requires InThePast(s) && Enabled(s, step) && (step.AcceptExit? || step.Close?)
    ensures InThePast(Apply(s, step))
  {
    hide TlsHook, ConnectCall, ConnectReturn, Copied, PutBack;
  }

  lemma {:induction false} AcceptRecords(s: State, step: Step)
    requires RecordsTrue(s) && Enabled(s, step) && (step.AcceptExit? || step.Close?)
    ensures RecordsTrue(Apply(s, step))
  {
    hide TlsHook, ConnectCall, ConnectReturn, Copied, PutBack;
  }

  lemma {:induction false} AcceptDistinct(s: State, step: Step)
    requires InThePast(s) && TimesDistinct(s) && Enabled(s, step) && (step.AcceptExit? || step.Close?)
    ensures TimesDistinct(Apply(s, step))
  {
    hide TlsHook, ConnectCall, ConnectReturn, Copied, PutBack;
  }

  lemma {:induction false} LifecycleKeeps(s: State, step: Step)
    requires Invariant(s) && Enabled(s, step) && (step.Exec? || step.ProcessExit?)
    ensures Invariant(Apply(s, step))
  {
    hide TlsHook, ConnectCall, ConnectReturn, Copied, PutBack;
  }

  lemma {:induction false} CopyKeeps(s: State, t: Thread, fd: Fd)
    requires Invariant(s) && Enabled(s, CopyRecord(t, fd))
    ensures Invariant(Apply(s, CopyRecord(t, fd)))
  {
    hide TlsHook, ConnectCall, ConnectReturn, PutBack, RecordsTrue, TimesDistinct, InThePast, Copied;
    CopyPast(s, t, fd);
    Unconcerned(s, Copied(s, t, fd).(clock := Now(s)));
  }

  lemma {:induction false} CopyPast(s: State, t: Thread, fd: Fd)
    requires InThePast(s)
    ensures InThePast(Copied(s, t, fd).(clock := Now(s)))
  {}

  /** The record to be put back is true, or older than the generation. */
  ghost predicate Harmless(s: State, step: Step)
  {
    step.PutRecord? && step.stored && step.t in s.copies && s.generation.Some? ==>
      var copy := s.copies[step.t]; copy.connection.start >= s.generation.value ==> Live(s, copy.fd, copy.connection.start)
  }

  ghost predicate Live(s: State, fd: Fd, start: nat) { fd in s.sockets && s.sockets[fd] == start }

  /** Putting a record back keeps the invariant exactly if that is harmless. */
  lemma {:induction false} PutKeeps(s: State, t: Thread, stored: bool)
    requires Invariant(s) && Enabled(s, PutRecord(t, stored))
    ensures Invariant(Apply(s, PutRecord(t, stored))) <==> Harmless(s, PutRecord(t, stored))
  {
    hide TlsHook, ConnectCall, ConnectReturn, Copied, PutBack, RecordsTrue, TimesDistinct, InThePast, Harmless;
    PutPast(s, t, stored);
    PutRecords(s, t, stored);
    PutDistinct(s, PutBack(s, t, stored).(clock := Now(s)));
  }

  lemma {:induction false} PutPast(s: State, t: Thread, stored: bool)
    requires InThePast(s) && t in s.copies
    ensures InThePast(PutBack(s, t, stored).(clock := Now(s)))
  {}

  lemma {:induction false} PutRecords(s: State, t: Thread, stored: bool)
    requires RecordsTrue(s) && t in s.copies
    ensures RecordsTrue(PutBack(s, t, stored).(clock := Now(s))) <==> Harmless(s, PutRecord(t, stored))
  {
    hide RecordsTrue, Live;
    var r, copy := PutBack(s, t, stored).(clock := Now(s)), s.copies[t];
    if stored {
      RecordAdded(s, r, copy.fd, copy.connection);
    } else {
      RecordsSame(s, r);
    }
  }

  lemma {:induction false} RecordAdded(s: State, r: State, fd: Fd, c: Connection)
    requires RecordsTrue(s) && r.generation == s.generation && r.active == s.active[fd := c]
    requires r.sockets == s.sockets && r.connecting == s.connecting && r.opening == s.opening
    ensures RecordsTrue(r) <==> (s.generation.Some? && c.start >= s.generation.value ==> Live(s, fd, c.start))
  {
    assert r.active[fd] == c && forall fe | fe in s.active && fe != fd :: r.active[fe] == s.active[fe];
  }

  lemma {:induction false} RecordsSame(s: State, r: State)
    requires RecordsTrue(s) && r.generation == s.generation && r.active == s.active
    requires r.sockets == s.sockets && r.connecting == s.connecting && r.opening == s.opening
    ensures RecordsTrue(r)
  {}

  lemma {:induction false} PutDistinct(s: State, r: State)
    requires TimesDistinct(s) && r.sockets == s.sockets && r.connecting == s.connecting
    ensures TimesDistinct(r)
  {}

  lemma {:induction false} StepKeeps(s: State, step: Step)
    requires Invariant(s) && Enabled(s, step) && Harmless(s, step)
    ensures Invariant(Apply(s, step))
  {
    hide InThePast, RecordsTrue, TimesDistinct, TlsHook, ConnectCall, ConnectReturn, PutBack, Harmless;
    match step
    case ConnectEnter(t, fd, lifecycle, stored) => ConnectCallKeeps(s, t, fd, lifecycle, stored);
    case ConnectExit(t, success, stored, captured) => ConnectReturnKeeps(s, t, success, stored, captured);
    case AcceptExit(_, _, _) => AcceptKeeps(s, step);
    case Close(_) => AcceptKeeps(s, step);
    case Exec(_) => LifecycleKeeps(s, step);
    case ProcessExit => LifecycleKeeps(s, step);
    case CopyRecord(t, fd) => CopyKeeps(s, t, fd);
    case PutRecord(t, stored) => PutKeeps(s, t, stored);
    case _ => TlsCallKeeps(s, step);
  }

  /** Every record put back before step `k` was harmless. */
  ghost predicate Steady(states: seq<State>, steps: seq<Step>, k: nat)
  {
    k <= |steps| <= |states| && forall m | 0 <= m < k :: Harmless(states[m], steps[m])
  }

  lemma {:induction false} RunKeeps(states: seq<State>, steps: seq<Step>, k: nat)
    requires IsRun(states, steps) && Steady(states, steps, k) && k < |states|
    ensures Invariant(states[k])
  {
    hide Apply, Enabled, Harmless;
    if k > 0 {
      RunKeeps(states, steps, k - 1);
      StepKeeps(states[k - 1], steps[k - 1]);
    }
  }

  // ----- times do not come back -----

  lemma {:induction false} GenerationStep(s: State, step: Step, g: nat)
    requires Enabled(s, step) && Apply(s, step).generation == Some(g) && g <= s.clock
    ensures s.generation == Some(g) && !step.Exec? && !step.ProcessExit?
  {
    hide TlsHook;
  }

  lemma {:induction false} ClockRuns(states: seq<State>, steps: seq<Step>, j: nat, k: nat)
    requires IsRun(states, steps) && j <= k < |states|
    ensures states[k].clock == states[j].clock + (k - j)
    decreases k
  {
    hide Hook, Enabled;
    if j < k {
      ClockRuns(states, steps, j, k - 1);
    }
  }

  /** A generation that is in force twice was in force all along: nothing executed or exited between. */
  lemma {:induction false} GenerationStays(states: seq<State>, steps: seq<Step>, j: nat, k: nat, g: nat)
    requires IsRun(states, steps) && j <= k < |states| && g <= states[j].clock && states[k].generation == Some(g)
    ensures forall m | j <= m <= k :: states[m].generation == Some(g)
    ensures forall m | j <= m < k :: !steps[m].Exec? && !steps[m].ProcessExit?
    decreases k
  {
    hide Apply, Enabled;
    if j < k {
      ClockRuns(states, steps, j, k - 1);
      GenerationStep(states[k - 1], steps[k - 1], g);
      GenerationStays(states, steps, j, k - 1, g);
    }
  }

  ghost predicate NotConnecting(s: State, start: nat) { forall t | t in s.connecting :: s.connecting[t].start != start }

  lemma {:induction false} InstanceStep(s: State, step: Step, start: nat)
    requires Enabled(s, step) && start <= s.clock && NotConnecting(s, start)
    ensures NotConnecting(Apply(s, step), start)
    ensures forall fd | fd in Apply(s, step).sockets && Apply(s, step).sockets[fd] == start ::
              fd in s.sockets && s.sockets[fd] == start && step != Close(fd)
  {
    hide TlsHook, Remembered, ConnectCall, ConnectReturn;
    match step
    case ConnectEnter(t, fd, lifecycle, stored) => CallInstance(s, t, fd, lifecycle, stored, start);
    case ConnectExit(t, success, stored, captured) => ReturnInstance(s, t, success, stored, captured, start);
    case _ =>
  }

  lemma {:induction false} CallInstance(s: State, t: Thread, fd: Fd, lifecycle: bool, stored: bool, start: nat)
    requires start <= s.clock && NotConnecting(s, start)
    ensures var s' := ConnectCall(s, t, fd, lifecycle, stored); NotConnecting(s', start) && s'.sockets == s.sockets
  {}

  lemma {:induction false} ReturnInstance(s: State, t: Thread, success: bool, stored: bool, captured: bool, start: nat)
    requires t in s.connecting && NotConnecting(s, start)
    ensures var s' := ConnectReturn(s, t, success, stored, captured);
            NotConnecting(s', start) && forall fd | fd in s'.sockets && s'.sockets[fd] == start :: fd in s.sockets && s.sockets[fd] == start
  {
    hide Remembered;
  }

  /** An instance that is open twice was open all along, behind the same descriptor. */
  lemma {:induction false} InstanceStays(states: seq<State>, steps: seq<Step>, j: nat, k: nat, fd: Fd, start: nat)
    requires IsRun(states, steps) && j <= k < |states| && start <= states[j].clock && NotConnecting(states[j], start)
    requires Live(states[k], fd, start)
    ensures NotConnecting(states[k], start)
    ensures forall m | j <= m <= k :: Live(states[m], fd, start)
    ensures forall m | j <= m < k :: steps[m] != Close(fd)
    decreases k
  {
    hide Apply, Enabled, NotConnecting;
    if j < k {
      StillNotConnecting(states, steps, j, k - 1, start);
      ClockRuns(states, steps, j, k - 1);
      InstanceStep(states[k - 1], steps[k - 1], start);
      InstanceStays(states, steps, j, k - 1, fd, start);
    }
  }

  lemma {:induction false} StillNotConnecting(states: seq<State>, steps: seq<Step>, j: nat, k: nat, start: nat)
    requires IsRun(states, steps) && j <= k < |states| && start <= states[j].clock && NotConnecting(states[j], start)
    ensures NotConnecting(states[k], start)
    decreases k
  {
    hide Apply, Enabled, NotConnecting;
    if j < k {
      StillNotConnecting(states, steps, j, k - 1, start);
      ClockRuns(states, steps, j, k - 1);
      InstanceStep(states[k - 1], steps[k - 1], start);
    }
  }

  // ----- records put back -----

  /** The step may end the instance behind the descriptor, or give it a new time. */
  ghost predicate Disturbs(s: State, step: Step, fd: Fd)
  {
    || step == Close(fd)
    || (step.ConnectExit? && step.success && step.stored && step.t in s.connecting && s.connecting[step.t].fd == fd)
  }

  lemma {:induction false} LiveStep(s: State, step: Step, fd: Fd, start: nat)
    requires Enabled(s, step) && Live(s, fd, start) && !Disturbs(s, step, fd) && !step.Exec? && !step.ProcessExit?
    ensures Live(Apply(s, step), fd, start)
  {
    hide TlsHook, ConnectCall, Remembered;
    if step.ConnectEnter? {
      SocketsKept(s, step.t, step.fd, step.lifecycle, step.stored);
    }
  }

  lemma {:induction false} SocketsKept(s: State, t: Thread, fd: Fd, lifecycle: bool, stored: bool)
    ensures ConnectCall(s, t, fd, lifecycle, stored).sockets == s.sockets
  {}

  lemma {:induction false} LiveRun(states: seq<State>, steps: seq<Step>, j: nat, k: nat, fd: Fd, start: nat)
    requires IsRun(states, steps) && j <= k < |states| && Live(states[j], fd, start)
    requires forall m | j <= m < k :: !Disturbs(states[m], steps[m], fd) && !steps[m].Exec? && !steps[m].ProcessExit?
    ensures Live(states[k], fd, start)
    decreases k
  {
    hide Apply, Enabled, Live, Disturbs;
    if j < k {
      LiveRun(states, steps, j, k - 1, fd, start);
      LiveStep(states[k - 1], steps[k - 1], fd, start);
    }
  }

  /** A copy that its thread took at step `j` and still holds before step `k`. */
  ghost predicate CopyHeld(states: seq<State>, steps: seq<Step>, j: int, k: int, t: Thread)
  {
    && 0 <= j < k < |states| && |states| == |steps| + 1 && steps[j].CopyRecord? && steps[j].t == t && steps[j].fd in states[j].active
    && t in states[k].copies && states[k].copies[t] == Copy(steps[j].fd, states[j].active[steps[j].fd])
  }

  lemma {:induction false} CopyStep(s: State, step: Step, t: Thread)
    requires Enabled(s, step) && t in Apply(s, step).copies
    ensures (t in s.copies && s.copies[t] == Apply(s, step).copies[t]) ||
            (step.CopyRecord? && step.t == t && step.fd in s.active && Apply(s, step).copies[t] == Copy(step.fd, s.active[step.fd]))
  {
    hide TlsHook;
  }

  lemma {:induction false} CopyOrigin(states: seq<State>, steps: seq<Step>, k: nat, t: Thread) returns (j: nat)
    requires IsRun(states, steps) && k < |states| && t in states[k].copies
    ensures CopyHeld(states, steps, j, k, t)
  {
    hide Apply, Enabled;
    CopyStep(states[k - 1], steps[k - 1], t);
    if t in states[k - 1].copies && states[k - 1].copies[t] == states[k].copies[t] {
      j := CopyOrigin(states, steps, k - 1, t);
    } else {
      j := k - 1;
    }
  }

  /** A record put back is harmless if nothing has ended or renewed its connection since it was read. */
  lemma {:induction false} UndisturbedIsHarmless(states: seq<State>, steps: seq<Step>, j: nat, k: nat, t: Thread)
    requires IsRun(states, steps) && CopyHeld(states, steps, j, k, t) && k < |steps| && Invariant(states[j]) && steps[k].PutRecord? && steps[k].t == t
    requires forall m | j <= m < k :: !Disturbs(states[m], steps[m], steps[j].fd)
    ensures Harmless(states[k], steps[k])
  {
    hide Apply, Enabled, Disturbs, Live;
    var fd, start, g := steps[j].fd, states[j].active[steps[j].fd].start, states[k].generation;
    if g.Some? && start >= g.value {
      GenerationStays(states, steps, j, k, g.value);
      assert Live(states[j], fd, start) by { RecordIsLive(states[j], fd); }
      LiveRun(states, steps, j, k, fd, start);
    }
  }

  /** Between the reading of a record and its putting back nothing ends or renews its connection. */
  ghost predicate Undisturbed(states: seq<State>, steps: seq<Step>)
  {
    forall j, k, t | CopyHeld(states, steps, j, k, t) && k < |steps| && steps[k].PutRecord? && steps[k].t == t ::
      forall m | j <= m < k :: !Disturbs(states[m], steps[m], steps[j].fd)
  }

  lemma {:induction false} UndisturbedIsSteady(states: seq<State>, steps: seq<Step>, k: nat)
    requires IsRun(states, steps) && Undisturbed(states, steps) && k <= |steps|
    ensures Steady(states, steps, k)
  {
    hide Apply, Enabled, Disturbs, Harmless, CopyHeld, Invariant;
    if k > 0 {
      UndisturbedIsSteady(states, steps, k - 1);
      NothingToPut(states[k - 1], steps[k - 1]);
      if steps[k - 1].PutRecord? && steps[k - 1].t in states[k - 1].copies {
        var t := steps[k - 1].t;
        var j := CopyOrigin(states, steps, k - 1, t);
        CopyBounds(states, steps, j, k - 1, t);
        RunKeeps(states, steps, j);
        UndisturbedIsHarmless(states, steps, j, k - 1, t);
      }
    }
  }

  lemma {:induction false} CopyBounds(states: seq<State>, steps: seq<Step>, j: nat, k: nat, t: Thread)
    requires CopyHeld(states, steps, j, k, t)
    ensures j < k
  {}

  lemma {:induction false} NothingToPut(s: State, step: Step)
    ensures !step.PutRecord? || step.t !in s.copies ==> Harmless(s, step)
  {}

  lemma {:induction false} RecordIsLive(s: State, fd: Fd)
    requires Invariant(s) && fd in s.active && s.generation.Some? && s.active[fd].start >= s.generation.value
    ensures Live(s, fd, s.active[fd].start)
  {}

  // ----- where a call and its binding come from -----

  ghost predicate Enters(s: State, step: Step, t: Thread, p: PendingIo)
  {
    && step == IoEnter(t, p.handle, p.direction, true) && p.handle != 0 && p.generation == Generation(s)
    && SideForHandle(s, p.handle, p.direction).Some? && SideForHandle(s, p.handle, p.direction).value.start == p.start
  }

  /** The thread enters a call that takes the place of an earlier one: it is recorded, or stands for no connection. */
  ghost predicate Replaces(s: State, step: Step, t: Thread)
  {
    && step.IoEnter? && step.t == t && step.handle != 0
    && (step.stored || SideForHandle(s, step.handle, step.direction).None?)
  }

  lemma {:induction false} CallStep(s: State, step: Step, t: Thread)
    requires Enabled(s, step) && t in Apply(s, step).calls
    ensures Enters(s, step, t, Apply(s, step).calls[t]) ||
            (t in s.calls && s.calls[t] == Apply(s, step).calls[t] && !Replaces(s, step, t))
  {
    hide SideForHandle, Bind, ConnectCall, ConnectReturn, SetFdCall, SetFdReturn, IoCall, Copied, PutBack;
    if step.IoEnter? {
      EntryStep(s, step, t);
    }
  }

  lemma {:induction false} EntryStep(s: State, step: Step, t: Thread)
    requires step.IoEnter? && t in IoCall(s, step.t, step.handle, step.direction, step.stored).calls
    ensures var p := IoCall(s, step.t, step.handle, step.direction, step.stored).calls[t];
            Enters(s, step, t, p) || (t in s.calls && s.calls[t] == p && !Replaces(s, step, t))
  {
    hide SideForHandle;
  }

  /** A pending call was entered, and nothing has taken its place since. */
  lemma {:induction false} CallOrigin(states: seq<State>, steps: seq<Step>, k: nat, t: Thread) returns (j: nat)
    requires IsRun(states, steps) && k < |states| && t in states[k].calls
    ensures j < k && Enters(states[j], steps[j], t, states[k].calls[t])
    ensures forall m | j < m < k :: !Replaces(states[m], steps[m], t)
  {
    hide Apply, Enabled, Enters, Replaces;
    CallStep(states[k - 1], steps[k - 1], t);
    if Enters(states[k - 1], steps[k - 1], t, states[k].calls[t]) {
      j := k - 1;
    } else {
      j := CallOrigin(states, steps, k - 1, t);
    }
  }

  /** The step binds the handle, in one direction, to descriptor `fd`, and records that. */
  ghost predicate Binds(s: State, step: Step, handle: Handle, d: Direction, fd: Fd)
  {
    || (step.SetFds? && step.stored && step.handle == handle != 0 && step.readFd >= 0 && step.writeFd >= 0
        && fd == (if d == Read then step.readFd else step.writeFd))
    || (step.SetFdExit? && step.success && step.stored && step.t in s.settings && s.settings[step.t].handle == handle
        && s.settings[step.t].fd == fd && d in s.settings[step.t].directions && s.settings[step.t].generation == Generation(s) != 0)
  }

  /** The step frees the handle, or binds it to another descriptor. */
  ghost predicate Unbinds(s: State, step: Step, handle: Handle, d: Direction, fd: Fd)
  {
    step == RemoveHandle(handle) || exists fe :: fe != fd && Binds(s, step, handle, d, fe)
  }

  ghost predicate Bound(s: State, key: HandleKey, d: Direction, side: Side) { key in s.handles && s.handles[key].Get(d) == side }

  lemma {:induction false} ReboundSide(s: State, key: HandleKey, directions: seq<Direction>, readFd: Fd, writeFd: Fd, d: Direction, side: Side)
    requires Rebound(s, key, directions, readFd, writeFd).Get(d) == side && side.start != 0
    ensures Bound(s, key, d, side) || (d in directions && side == SideNow(s, if d == Read then readFd else writeFd))
  {
    hide SideNow;
  }

  lemma {:induction false} SideNowMeans(s: State, fd: Fd)
    ensures SideNow(s, fd).fd == fd
    ensures SideNow(s, fd).start != 0 ==> ConnectionForFd(s, fd).Some? && ConnectionForFd(s, fd).value.start == SideNow(s, fd).start
  {}

  lemma {:induction false} SideNowSame(s: State, r: State, fd: Fd)
    requires r.active == s.active && r.generation == s.generation && r.clock == s.clock
    ensures ConnectionForFd(r, fd) == ConnectionForFd(s, fd)
  {}

  ghost predicate BindsLive(s: State, step: Step, key: HandleKey, d: Direction, side: Side)
  {
    && Binds(s, step, key.handle, d, side.fd) && key.generation == Generation(s)
    && ConnectionForFd(s, side.fd).Some? && ConnectionForFd(s, side.fd).value.start == side.start
  }

  lemma {:induction false} BindStep(s: State, handle: Handle, directions: seq<Direction>, readFd: Fd, writeFd: Fd, key: HandleKey, d: Direction, side: Side)
    requires Bound(Bind(s, handle, directions, readFd, writeFd, true), key, d, side) && side.start != 0
    ensures Bound(s, key, d, side) ||
            (&& key == HandleKey(handle, Generation(s)) && d in directions && side.fd == (if d == Read then readFd else writeFd)
             && ConnectionForFd(s, side.fd).Some? && ConnectionForFd(s, side.fd).value.start == side.start)
  {
    hide SideNow, Rebound, ConnectionForFd;
    if key == HandleKey(handle, Generation(s)) {
      ReboundSide(s, key, directions, readFd, writeFd, d, side);
      SideNowMeans(s, if d == Read then readFd else writeFd);
    }
  }

  lemma {:induction false} SetFdReturnStep(s: State, t: Thread, key: HandleKey, d: Direction, side: Side)
    requires Bound(SetFdReturn(s, t, true, true), key, d, side) && side.start != 0
    ensures Bound(s, key, d, side) || BindsLive(s, SetFdExit(t, true, true), key, d, side)
  {
    hide Bind, ConnectionForFd, Generated;
    if t in s.settings && s.settings[t].generation == Generation(s) && s.settings[t].generation != 0 {
      var p := s.settings[t];
      var s' := s.(settings := s.settings - {t});
      BindStep(s', p.handle, p.directions, p.fd, p.fd, key, d, side);
      SideNowSame(s, s', p.fd);
    }
  }

  lemma {:induction false} OtherStep(s: State, step: Step, key: HandleKey)
    requires Enabled(s, step) && key in Apply(s, step).handles
    requires (step.SetFds? ==> !step.stored) && (step.SetFdExit? ==> !step.success || !step.stored)
    ensures key in s.handles && Apply(s, step).handles[key] == s.handles[key]
  {
    hide ConnectCall, ConnectReturn, SetFdCall, SetFdReturn, IoCall, Bind, Live;
  }

  lemma {:induction false} BindingStep(s: State, step: Step, key: HandleKey, d: Direction, side: Side)
    requires Enabled(s, step) && Bound(Apply(s, step), key, d, side) && side.start != 0
    ensures Bound(s, key, d, side) || BindsLive(s, step, key, d, side)
  {
    hide SetFdReturn, Bind, ConnectionForFd;
    if step.SetFds? && step.stored {
      if step.handle != 0 && step.readFd >= 0 && step.writeFd >= 0 {
        BindStep(s, step.handle, [Read, Write], step.readFd, step.writeFd, key, d, side);
      }
    } else if step.SetFdExit? && step.success && step.stored {
      SetFdReturnStep(s, step.t, key, d, side);
    } else {
      OtherStep(s, step, key);
    }
  }

  /** A binding is the latest recorded one of its handle, and the handle has not been freed since. */
  lemma {:induction false} BindingOrigin(states: seq<State>, steps: seq<Step>, k: nat, key: HandleKey, d: Direction, side: Side)
    returns (i: nat)
    requires IsRun(states, steps) && k < |states| && Bound(states[k], key, d, side) && side.start != 0
    ensures i < k && BindsLive(states[i], steps[i], key, d, side) && forall m | i < m <= k :: Bound(states[m], key, d, side)
  {
    hide Apply, Enabled, Bound, BindsLive;
    if k == 0 {
      NothingBound(states[0], key, d, side);
    }
    BindingStep(states[k - 1], steps[k - 1], key, d, side);
    if BindsLive(states[k - 1], steps[k - 1], key, d, side) {
      i := k - 1;
    } else {
      i := BindingOrigin(states, steps, k - 1, key, d, side);
    }
  }

  lemma {:induction false} NothingBound(s: State, key: HandleKey, d: Direction, side: Side)
    requires Initial(s)
    ensures !Bound(s, key, d, side)
  {}

  /** A binding does not outlive the handle, nor a recorded binding to another descriptor. */
  lemma {:induction false} UnbindStep(s: State, step: Step, key: HandleKey, d: Direction, side: Side)
    requires Enabled(s, step) && key.handle != 0 && key.generation == Generation(s) && Unbinds(s, step, key.handle, d, side.fd)
    ensures !Bound(Apply(s, step), key, d, side)
  {
    hide Bind, ConnectionForFd, SideNow, Rebound;
    if step != RemoveHandle(key.handle) {
      var fe :| fe != side.fd && Binds(s, step, key.handle, d, fe);
      if step.SetFds? {
        BoundTo(s, key, [Read, Write], step.readFd, step.writeFd, d);
      } else {
        var p := s.settings[step.t];
        BoundTo(s.(settings := s.settings - {step.t}), key, p.directions, p.fd, p.fd, d);
      }
    }
  }

  lemma {:induction false} BoundTo(s: State, key: HandleKey, directions: seq<Direction>, readFd: Fd, writeFd: Fd, d: Direction)
    requires key.generation == Generation(s) && d in directions
    ensures var r := Bind(s, key.handle, directions, readFd, writeFd, true);
            key in r.handles && r.handles[key].Get(d).fd == if d == Read then readFd else writeFd
  {
    hide SideNow;
    SideNowMeans(s, readFd);
    SideNowMeans(s, writeFd);
  }

  // ----- attribution -----

  /** A connection that the guards accept is open now, and the generation was not just begun. */
  lemma {:induction false} AcceptedIsLive(s: State, fd: Fd)
    requires Invariant(s) && ConnectionForFd(s, fd).Some?
    ensures s.generation.Some? && Live(s, fd, ConnectionForFd(s, fd).value.start)
    ensures ConnectionForFd(s, fd).value.start <= s.clock && NotConnecting(s, ConnectionForFd(s, fd).value.start)
  {}

  lemma {:induction false} SideIsLive(s: State, handle: Handle, d: Direction)
    requires Invariant(s) && SideForHandle(s, handle, d).Some?
    ensures var side := SideForHandle(s, handle, d).value;
            && s.generation.Some? && Live(s, side.fd, side.start) && side.start != 0 && side.start <= s.clock && NotConnecting(s, side.start)
            && Bound(s, HandleKey(handle, s.generation.value), d, side)
  {
    hide Invariant, NotConnecting, Live;
    var key := HandleKey(handle, Generation(s));
    AcceptedIsLive(s, s.handles[key].Get(d).fd);
  }

  lemma {:induction false} SameInstanceSameFd(s: State, fd: Fd, fe: Fd, start: nat)
    requires Invariant(s) && Live(s, fd, start) && Live(s, fe, start)
    ensures fd == fe
  {}

  lemma {:induction false} GenerationPast(s: State)
    requires Invariant(s) && s.generation.Some?
    ensures s.generation.value <= s.clock
  {}

  /**
    Emitted bytes belong to the connection instance that was behind the descriptor bound to the
    handle: it was open when it was bound, when the call was entered, and ever since, and the
    process neither executed another program nor exited meanwhile. From the binding to the entry the
    handle was neither freed nor bound to another descriptor, and at the exit it is bound as before.
   */
  lemma {:induction false} Attribution(states: seq<State>, steps: seq<Step>, k: nat) returns (i: nat, j: nat)
    requires IsRun(states, steps) && k < |steps| && Steady(states, steps, k) && Emitted(states[k], steps[k]).Some?
    ensures i < j < k
    ensures var side, p := Emitted(states[k], steps[k]).value, states[k].calls[steps[k].t];
            && steps[j] == IoEnter(steps[k].t, p.handle, steps[k].direction, true)
            && Binds(states[i], steps[i], p.handle, steps[k].direction, side.fd)
            && (forall m | i <= m <= k :: Live(states[m], side.fd, side.start))
            && (forall m | i <= m < k :: steps[m] != Close(side.fd) && !steps[m].Exec? && !steps[m].ProcessExit?)
            && (forall m | i < m < j :: !Unbinds(states[m], steps[m], p.handle, steps[k].direction, side.fd))
            && Bound(states[k], HandleKey(p.handle, p.generation), steps[k].direction, side)
            && (forall m | j < m < k :: !Replaces(states[m], steps[m], steps[k].t))
  {
    hide Apply, Enabled, Invariant, SideForHandle, ConnectionForFd, Bound, Live, NotConnecting, Binds, Unbinds, Replaces, Generation, IsRun, Steady;
    RunLength(states, steps);
    SteadyBefore(states, steps, k);
    var t, d := steps[k].t, steps[k].direction;
    var p := states[k].calls[t];
    var side := Emitted(states[k], steps[k]).value;
    RunKeeps(states, steps, k);
    SideIsLive(states[k], p.handle, d);
    j := CallOrigin(states, steps, k, t);
    RunKeeps(states, steps, j);
    SideIsLive(states[j], p.handle, d);
    var entry := SideForHandle(states[j], p.handle, d).value;
    GenerationIs(states[j]);
    GenerationIs(states[k]);
    i := BindingOrigin(states, steps, j, HandleKey(p.handle, p.generation), d, entry);
    RunKeeps(states, steps, i);
    AcceptedIsLive(states[i], entry.fd);
    GenerationIs(states[i]);
    GenerationPast(states[i]);
    InstanceStays(states, steps, i, k, side.fd, side.start);
    SameInstanceSameFd(states[j], side.fd, entry.fd, side.start);
    GenerationStays(states, steps, i, k, p.generation);
    NeverUnbound(states, steps, i, j, HandleKey(p.handle, p.generation), d, side);
  }

  lemma {:induction false} NeverUnbound(states: seq<State>, steps: seq<Step>, i: nat, j: nat, key: HandleKey, d: Direction, side: Side)
    requires IsRun(states, steps) && i < j < |states| && key.handle != 0
    requires forall m | i < m <= j :: Bound(states[m], key, d, side) && states[m].generation == Some(key.generation)
    ensures forall m | i < m < j :: !Unbinds(states[m], steps[m], key.handle, d, side.fd)
  {
    hide Apply, Enabled, Bound, Unbinds, Generation;
    forall m | i < m < j
      ensures !Unbinds(states[m], steps[m], key.handle, d, side.fd)
    {
      GenerationIs(states[m]);
      assert Bound(states[m + 1], key, d, side);
      if Unbinds(states[m], steps[m], key.handle, d, side.fd) {
        UnbindStep(states[m], steps[m], key, d, side);
      }
    }
  }

  lemma {:induction false} SteadyBefore(states: seq<State>, steps: seq<Step>, k: nat)
    requires Steady(states, steps, k)
    ensures forall m | 0 <= m < k :: Steady(states, steps, m)
  {
    hide Harmless;
  }

  lemma {:induction false} RunLength(states: seq<State>, steps: seq<Step>)
    requires IsRun(states, steps)
    ensures |states| == |steps| + 1
  {}

  lemma {:induction false} GenerationIs(s: State)
    requires s.generation.Some?
    ensures Generation(s) == s.generation.value
  {}

  // ----- a record put back too late -----

  const OLD := Connection(2, true)
  const BOUND: map<HandleKey, Binding> := map[HandleKey(1, 1) := Binding(Side(5, 2), Side(5, 2))]

  /** A state of the run below: what is behind descriptor 5, its record, and what threads 1 and 2 hold. */
  function Scene(clock: nat, socket: Option<nat>, record: Option<Connection>, bound: bool, copied: bool, called: bool): State
  {
    State(clock, if socket.Some? then map[5 := socket.value] else map[], map[], Some(1), map[],
          if record.Some? then map[5 := record.value] else map[], if bound then BOUND else map[], map[],
          if called then map[2 := PendingIo(1, 2, 1, Read)] else map[], if copied then map[1 := Copy(5, OLD)] else map[])
  }

  const LATE_PUT: seq<Step> := [
    RemoveHandle(1), AcceptExit(5, true, true), SetFds(1, 5, 5, true), CopyRecord(1, 5), Close(5), AcceptExit(5, true, true), PutRecord(1, true),
    IoEnter(2, 1, Read, true), IoExit(2, Read, 10)]

  ghost predicate Leads(s: State, step: Step, s': State) { Enabled(s, step) && Apply(s, step) == s' }

  lemma {:induction false} GenerationBegins()
    ensures Leads(State(0, map[], map[], None, map[], map[], map[], map[], map[], map[]), RemoveHandle(1), Scene(1, None, None, false, false, false))
  {
    hide ConnectCall, ConnectReturn, Bind, SetFdCall, SetFdReturn, IoCall, Copied, PutBack;
    var none: map<HandleKey, Binding> := map[];
    assert none - {HandleKey(1, 1)} == map[];
  }

  lemma {:induction false} FirstInstance()
    ensures Leads(Scene(1, None, None, false, false, false), AcceptExit(5, true, true), Scene(2, Some(2), Some(OLD), false, false, false))
  {
    hide ConnectCall, ConnectReturn, TlsHook, Copied, PutBack;
  }

  lemma {:induction false} HandleBound()
    ensures Leads(Scene(2, Some(2), Some(OLD), false, false, false), SetFds(1, 5, 5, true), Scene(3, Some(2), Some(OLD), true, false, false))
  {
    var none: map<HandleKey, Binding> := map[];
    assert none[HandleKey(1, 1) := Binding(Side(5, 2), Side(5, 2))] == BOUND;
  }

  lemma {:induction false} RecordHeld()
    ensures Leads(Scene(3, Some(2), Some(OLD), true, false, false), CopyRecord(1, 5), Scene(4, Some(2), Some(OLD), true, true, false))
    ensures Leads(Scene(4, Some(2), Some(OLD), true, true, false), Close(5), Scene(5, None, None, true, true, false))
  {
    var one: map<Fd, nat>, two: map<Fd, Connection> := map[5 := 2], map[5 := OLD];
    assert one - {5} == map[] && two - {5} == map[];
  }

  lemma {:induction false} RecordReturned()
    ensures Leads(Scene(5, None, None, true, true, false), AcceptExit(5, true, true), Scene(6, Some(6), Some(Connection(6, true)), true, true, false))
    ensures Leads(Scene(6, Some(6), Some(Connection(6, true)), true, true, false), PutRecord(1, true), Scene(7, Some(6), Some(OLD), true, false, false))
  {
    var copies: map<Thread, Copy>, active: map<Fd, Connection> := map[1 := Copy(5, OLD)], map[5 := Connection(6, true)];
    assert copies - {1} == map[] && active[5 := OLD] == map[5 := OLD];
  }

  lemma {:induction false} CallAccepted(clock: nat, socket: nat)
    ensures Leads(Scene(clock, Some(socket), Some(OLD), true, false, false), IoEnter(2, 1, Read, true), Scene(clock + 1, Some(socket), Some(OLD), true, false, true))
  {
    hide ConnectCall, ConnectReturn, Bind, SetFdCall, SetFdReturn, Copied, PutBack;
    var s := Scene(clock, Some(socket), Some(OLD), true, false, false);
    assert SideForHandle(s, 1, Read) == Some(Side(5, 2));
    var none: map<Thread, PendingIo> := map[];
    assert none[2 := PendingIo(1, 2, 1, Read)] == map[2 := PendingIo(1, 2, 1, Read)];
  }

  lemma {:induction false} CallReturns(clock: nat, socket: nat)
    ensures Leads(Scene(clock, Some(socket), Some(OLD), true, false, true), IoExit(2, Read, 10), Scene(clock + 1, Some(socket), Some(OLD), true, false, false))
    ensures Emitted(Scene(clock, Some(socket), Some(OLD), true, false, true), IoExit(2, Read, 10)) == Some(Side(5, 2))
  {
    hide ConnectCall, ConnectReturn, Bind, SetFdCall, SetFdReturn, IoCall, Copied, PutBack;
    var calls: map<Thread, PendingIo> := map[2 := PendingIo(1, 2, 1, Read)];
    assert calls - {2} == map[];
    assert SideForHandle(Scene(clock, Some(socket), Some(OLD), true, false, true), 1, Read) == Some(Side(5, 2));
  }

  /**
    Without that condition bytes can be attributed to a closed connection: its record is put back
    after the descriptor was closed and given to another connection.
   */
  lemma {:induction false} LateRecordMisleads() returns (states: seq<State>)
    ensures IsRun(states, LATE_PUT) && Emitted(states[8], LATE_PUT[8]) == Some(Side(5, 2))
    ensures !Live(states[8], 5, 2) && Live(states[8], 5, 6)
  {
    hide Apply, Enabled, Emitted, Scene;
    GenerationBegins();
    FirstInstance();
    HandleBound();
    RecordHeld();
    RecordReturned();
    CallAccepted(7, 6);
    CallReturns(8, 6);
    states := [
      State(0, map[], map[], None, map[], map[], map[], map[], map[], map[]), Scene(1, None, None, false, false, false),
      Scene(2, Some(2), Some(OLD), false, false, false), Scene(3, Some(2), Some(OLD), true, false, false),
      Scene(4, Some(2), Some(OLD), true, true, false), Scene(5, None, None, true, true, false),
      Scene(6, Some(6), Some(Connection(6, true)), true, true, false), Scene(7, Some(6), Some(OLD), true, false, false),
      Scene(8, Some(6), Some(OLD), true, false, true), Scene(9, Some(6), Some(OLD), true, false, false)];
    forall k | 0 <= k < 9
      ensures Leads(states[k], LATE_PUT[k], states[k + 1])
    {
    }
    SceneSockets();
  }

  lemma {:induction false} SceneSockets()
    ensures Scene(8, Some(6), Some(OLD), true, false, true).sockets == map[5 := 6]
  {}

  // ----- a binding that is not recorded -----

  const LOST_BINDING: seq<Step> := [
    RemoveHandle(1), AcceptExit(5, true, true), SetFds(1, 5, 5, true), SetFds(1, 6, 6, false), IoEnter(2, 1, Read, true), IoExit(2, Read, 10)]

  lemma {:induction false} BindingLost()
    ensures Leads(Scene(3, Some(2), Some(OLD), true, false, false), SetFds(1, 6, 6, false), Scene(4, Some(2), Some(OLD), true, false, false))
  {
    hide ConnectCall, ConnectReturn, SetFdCall, SetFdReturn, IoCall, Copied, PutBack;
  }

  /** A handle whose new binding could not be recorded still stands for the old descriptor. */
  lemma {:induction false} LostBindingMisleads() returns (states: seq<State>)
    ensures IsRun(states, LOST_BINDING) && Steady(states, LOST_BINDING, 5) && Emitted(states[5], LOST_BINDING[5]) == Some(Side(5, 2))
  {
    hide Apply, Enabled, Emitted, Scene;
    GenerationBegins();
    FirstInstance();
    HandleBound();
    BindingLost();
    CallAccepted(4, 2);
    CallReturns(5, 2);
    states := [
      State(0, map[], map[], None, map[], map[], map[], map[], map[], map[]), Scene(1, None, None, false, false, false),
      Scene(2, Some(2), Some(OLD), false, false, false), Scene(3, Some(2), Some(OLD), true, false, false),
      Scene(4, Some(2), Some(OLD), true, false, false), Scene(5, Some(2), Some(OLD), true, false, true),
      Scene(6, Some(2), Some(OLD), true, false, false)];
    forall k | 0 <= k < 6
      ensures Leads(states[k], LOST_BINDING[k], states[k + 1])
    {
    }
  }
}
