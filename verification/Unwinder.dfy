/**
  The stack walkers of the profiler, which do a bounded number of frames in each tail-called round.
  With rounds that chain and a mapping fence that holds, a walk in rounds is a walk in one go; when
  the fence breaks it ends early with a prefix of those frames.
 */
module Unwinder {
  import opened Bytes
  import opened UnwindRows

  const MAX_FRAMES: nat := 128
  const FRAMES_PER_ROUND: nat := 16
  const MAX_ROUNDS: nat := 8
  const MAX_FRAME_BYTES: nat := 0x10_0000
  const U64: nat := 0x1_0000_0000_0000_0000

  const RA_CFA_OFFSET: nat := 0
  const RA_LINK_REGISTER: nat := 1
  const RA_UNDEFINED: nat := 2
  const FP_CFA_OFFSET: nat := 1

  function Wrap(x: int): nat { x % U64 }

  datatype Stop = Complete | NoMapping | NoRule | ReadFault | BadFrame | Depth | TailLimit

  datatype Mapping = Mapping(start: nat, end: nat, bias: nat, id: nat)

  /** What the walker reads: registered mappings and rules, and user memory, which may fault. */
  datatype Image = Image(mappings: seq<Mapping>, modules: map<nat, Span>, pool: seq<Row>, memory: nat -> Option<nat>)

  datatype Registers = Registers(pc: nat, sp: nat, fp: nat, lr: nat, frames: seq<nat>)

  datatype Outcome = Next(regs: Registers) | Stopped(frames: seq<nat>, stop: Stop)

  function MappingFor(mappings: seq<Mapping>, pc: nat): Option<Mapping>
  {
    if mappings == [] then None
    else if mappings[0].start <= pc < mappings[0].end then Some(mappings[0])
    else MappingFor(mappings[1..], pc)
  }

  /** The caller's return address under a rule, or why there is none. */
  datatype Return = Address(pc: nat) | Ends(stop: Stop)

  function ReturnAddress(image: Image, row: Row, cfa: nat, leaf: bool, lr: nat): Return
  {
    if row.raKind == RA_CFA_OFFSET then
      match image.memory(Wrap(cfa + row.raOff)) case Some(value) => Address(value) case None => Ends(ReadFault)
    else if row.raKind == RA_LINK_REGISTER && leaf then Address(lr)
    else if row.raKind == RA_UNDEFINED then Ends(Complete)
    else Ends(NoRule)
  }

  /** One frame: it is recorded, and the caller's registers are recovered. */
  function Frame(image: Image, r: Registers): Outcome
    requires |image.pool| == ROW_POOL
  {
    var frames := r.frames + [r.pc];
    var leaf := |frames| == 1;
    var lookup := if leaf then r.pc else Wrap(r.pc - 1);
    var mapping := MappingFor(image.mappings, lookup);
    if mapping.None? then Stopped(frames, NoMapping)
    else
      var row := RowFor(image.modules, image.pool, mapping.value.id, Wrap(lookup - mapping.value.bias));
      if row.None? then Stopped(frames, NoRule)
      else
        var cfa := Wrap((if row.value.cfaKind == CFA_SP then r.sp else r.fp) + row.value.cfaOff);
        if cfa < r.sp || cfa - r.sp > MAX_FRAME_BYTES then Stopped(frames, BadFrame)
        else
          match ReturnAddress(image, row.value, cfa, leaf, r.lr)
          case Ends(stop) => Stopped(frames, stop)
          case Address(pc) =>
            if pc == 0 then Stopped(frames, Complete)
            else if row.value.fpKind != FP_CFA_OFFSET then Next(Registers(pc, cfa, r.fp, r.lr, frames))
            else
              match image.memory(Wrap(cfa + row.value.fpOff))
              case None => Stopped(frames, ReadFault)
              case Some(fp) => Next(Registers(pc, cfa, fp, r.lr, frames))
  }

  lemma {:induction false} FrameRecords(image: Image, r: Registers)
    requires |image.pool| == ROW_POOL
    ensures match Frame(image, r)
            case Next(n) => n.frames == r.frames + [r.pc] && r.sp <= n.sp <= r.sp + MAX_FRAME_BYTES
            case Stopped(frames, stop) => frames == r.frames + [r.pc] && stop != TailLimit && stop != Depth
  {
    hide MappingFor, RowFor, ReturnAddress, Wrap;
    if Frame(image, r).Stopped? {
      ReturnStops(image, r);
    }
  }

  lemma {:induction false} ReturnStops(image: Image, r: Registers)
    requires |image.pool| == ROW_POOL
    ensures forall row: Row, cfa, leaf, lr :: ReturnAddress(image, row, cfa, leaf, lr).Ends? ==>
              ReturnAddress(image, row, cfa, leaf, lr).stop != TailLimit && ReturnAddress(image, row, cfa, leaf, lr).stop != Depth
  {}

  // ----- in one go -----

  datatype Sample = Sample(frames: seq<nat>, stop: Stop)

  function Walk(image: Image, limit: nat, r: Registers): Sample
    requires |image.pool| == ROW_POOL
    decreases limit - |r.frames|
  {
    if |r.frames| >= limit then Sample(r.frames, Depth)
    else
      match Frame(image, r)
      case Stopped(frames, stop) => Sample(frames, stop)
      case Next(n) => FrameRecords(image, r); Walk(image, limit, n)
  }

  lemma {:induction false} WalkExtends(image: Image, limit: nat, r: Registers)
    requires |image.pool| == ROW_POOL && |r.frames| <= limit
    ensures var w := Walk(image, limit, r);
            r.frames <= w.frames && |w.frames| <= limit && w.stop != TailLimit && (w.stop == Depth ==> |w.frames| == limit)
    decreases limit - |r.frames|
  {
    hide Frame;
    if |r.frames| < limit {
      FrameRecords(image, r);
      match Frame(image, r)
      case Stopped(_, _) =>
      case Next(n) => WalkExtends(image, limit, n);
    }
  }

  // ----- stack pointers -----

  /** The registers after `n` frames, if the walk gets that far. */
  function After(image: Image, r: Registers, n: nat): Option<Registers>
    requires |image.pool| == ROW_POOL
  {
    if n == 0 then Some(r)
    else
      match After(image, r, n - 1)
      case None => None
      case Some(m) => match Frame(image, m) case Next(next) => Some(next) case Stopped(_, _) => None
  }

  /** The stack pointer never goes back, and moves a bounded way a frame. */
  lemma {:induction false} StackPointerAdvances(image: Image, r: Registers, i: nat, n: nat)
    requires |image.pool| == ROW_POOL && i <= n && After(image, r, n).Some?
    ensures After(image, r, i).Some?
    ensures var a, b := After(image, r, i).value, After(image, r, n).value;
            a.sp <= b.sp <= a.sp + (n - i) * MAX_FRAME_BYTES && |b.frames| == |a.frames| + (n - i)
    decreases n
  {
    hide Frame;
    if i < n {
      FrameRecords(image, After(image, r, n - 1).value);
      StackPointerAdvances(image, r, i, n - 1);
    }
  }

  // ----- what the rules describe -----

  /** An activation of a function: where it is executing, and its stack and frame pointers. */
  datatype Activation = Activation(pc: nat, sp: nat, fp: nat)

  /** The rule registered for an activation; a caller is looked up at its call, not at the return address. */
  ghost predicate RuleFor(image: Image, a: Activation, leaf: bool, row: Row)
    requires |image.pool| == ROW_POOL
  {
    var at := if leaf then a.pc else Wrap(a.pc - 1);
    var m := MappingFor(image.mappings, at);
    m.Some? && RowFor(image.modules, image.pool, m.value.id, Wrap(at - m.value.bias)) == Some(row)
  }

  /** The rule's canonical frame address, which must lie within reach above the stack pointer. */
  ghost predicate FrameAddress(a: Activation, row: Row, cfa: nat)
  {
    && (row.cfaKind == CFA_SP ==> cfa == Wrap(a.sp + row.cfaOff)) && (row.cfaKind == CFA_FP ==> cfa == Wrap(a.fp + row.cfaOff))
    && a.sp <= cfa <= a.sp + MAX_FRAME_BYTES
  }

  /** By the callee's rule the caller returns to `caller.pc` with the stack and frame pointer it had. */
  ghost predicate Calls(image: Image, caller: Activation, callee: Activation, leaf: bool, lr: nat, row: Row)
    requires |image.pool| == ROW_POOL
  {
    && RuleFor(image, callee, leaf, row) && FrameAddress(callee, row, caller.sp) && caller.pc != 0
    && (|| (row.raKind == RA_CFA_OFFSET && image.memory(Wrap(caller.sp + row.raOff)) == Some(caller.pc))
        || (row.raKind == RA_LINK_REGISTER && leaf && caller.pc == lr))
    && (if row.fpKind == FP_CFA_OFFSET then image.memory(Wrap(caller.sp + row.fpOff)) == Some(caller.fp) else caller.fp == callee.fp)
  }

  /** The rule says that there is no caller. */
  ghost predicate Outermost(image: Image, a: Activation, leaf: bool, lr: nat, row: Row, cfa: nat)
    requires |image.pool| == ROW_POOL
  {
    && RuleFor(image, a, leaf, row) && FrameAddress(a, row, cfa)
    && (|| row.raKind == RA_UNDEFINED
        || (row.raKind == RA_CFA_OFFSET && image.memory(Wrap(cfa + row.raOff)) == Some(0))
        || (row.raKind == RA_LINK_REGISTER && leaf && lr == 0))
  }

  /** A call chain, innermost activation first, with the rule for each; `cfa` is the outermost frame address. */
  ghost predicate CallChain(image: Image, chain: seq<Activation>, rows: seq<Row>, lr: nat, cfa: nat)
    requires |image.pool| == ROW_POOL
  {
    && 0 < |chain| == |rows|
    && (forall i | 0 <= i < |chain| - 1 :: Calls(image, chain[i + 1], chain[i], i == 0, lr, rows[i]))
    && Outermost(image, chain[|chain| - 1], |chain| == 1, lr, rows[|chain| - 1], cfa)
  }

  function Addresses(chain: seq<Activation>): (r: seq<nat>)
    ensures |r| == |chain|
  {
    seq(|chain|, i requires 0 <= i < |chain| => chain[i].pc)
  }

  function At(chain: seq<Activation>, n: nat, lr: nat): Registers
    requires n < |chain|
  {
    Registers(chain[n].pc, chain[n].sp, chain[n].fp, lr, Addresses(chain[..n]))
  }

  lemma {:induction false} UsableRule(image: Image, a: Activation, leaf: bool, row: Row)
    requires |image.pool| == ROW_POOL && RuleFor(image, a, leaf, row)
    ensures row.cfaKind == CFA_SP || row.cfaKind == CFA_FP
  {
    hide MappingFor, Search;
  }

  lemma {:induction false} FrameOfCall(image: Image, chain: seq<Activation>, rows: seq<Row>, lr: nat, cfa: nat, n: nat)
    requires |image.pool| == ROW_POOL && CallChain(image, chain, rows, lr, cfa) && n < |chain|
    ensures Frame(image, At(chain, n, lr)) ==
            if n + 1 < |chain| then Next(At(chain, n + 1, lr)) else Stopped(Addresses(chain), Complete)
  {
    hide MappingFor, RowFor, Wrap;
    var r := At(chain, n, lr);
    assert r.frames + [r.pc] == Addresses(chain[..n + 1]);
    if n + 1 < |chain| {
      assert Calls(image, chain[n + 1], chain[n], n == 0, lr, rows[n]);
    } else {
      assert chain[..n + 1] == chain;
    }
    UsableRule(image, chain[n], n == 0, rows[n]);
  }

  lemma {:induction false} ChainFrom(image: Image, limit: nat, chain: seq<Activation>, rows: seq<Row>, lr: nat, cfa: nat, n: nat)
    requires |image.pool| == ROW_POOL && CallChain(image, chain, rows, lr, cfa) && n < |chain| && n <= limit
    ensures Walk(image, limit, At(chain, n, lr)) ==
            if |chain| <= limit then Sample(Addresses(chain), Complete) else Sample(Addresses(chain[..limit]), Depth)
    decreases |chain| - n
  {
    hide Frame, CallChain;
    FrameOfCall(image, chain, rows, lr, cfa, n);
    if n < limit && n + 1 < |chain| {
      ChainFrom(image, limit, chain, rows, lr, cfa, n + 1);
    }
  }

  /** If the registered rules describe a call chain, the walk reports exactly that chain, or its innermost frames up to the limit. */
  lemma {:induction false} WalkFollowsCalls(image: Image, limit: nat, chain: seq<Activation>, rows: seq<Row>, lr: nat, cfa: nat)
    requires |image.pool| == ROW_POOL && CallChain(image, chain, rows, lr, cfa)
    ensures Walk(image, limit, Registers(chain[0].pc, chain[0].sp, chain[0].fp, lr, [])) ==
            if |chain| <= limit then Sample(Addresses(chain), Complete) else Sample(Addresses(chain[..limit]), Depth)
  {
    hide Walk, CallChain;
    assert |chain| > 0 by { SomeFrame(image, chain, rows, lr, cfa); }
    assert Addresses(chain[..0]) == [];
    ChainFrom(image, limit, chain, rows, lr, cfa, 0);
  }

  lemma {:induction false} SomeFrame(image: Image, chain: seq<Activation>, rows: seq<Row>, lr: nat, cfa: nat)
    requires |image.pool| == ROW_POOL && CallChain(image, chain, rows, lr, cfa)
    ensures |chain| > 0
  {}

  // ----- what a complete walk has found -----

  /** The activations and rules of a chain whose innermost frames have been left: the first is a leaf if none was. */
  ghost predicate RestOfChain(image: Image, chain: seq<Activation>, rows: seq<Row>, leaf: bool, lr: nat, cfa: nat)
    requires |image.pool| == ROW_POOL
  {
    && 0 < |chain| == |rows|
    && (forall i | 0 <= i < |chain| - 1 :: Calls(image, chain[i + 1], chain[i], leaf && i == 0, lr, rows[i]))
    && Outermost(image, chain[|chain| - 1], leaf && |chain| == 1, lr, rows[|chain| - 1], cfa)
  }

  /** A frame that leads on is a call by the rules. */
  lemma {:induction false} NextIsCall(image: Image, r: Registers) returns (row: Row)
    requires |image.pool| == ROW_POOL && Frame(image, r).Next?
    ensures var n := Frame(image, r).regs;
            && n.lr == r.lr && n.frames == r.frames + [r.pc]
            && Calls(image, Activation(n.pc, n.sp, n.fp), Activation(r.pc, r.sp, r.fp), r.frames == [], r.lr, row)
  {
    hide MappingFor, RowFor, Wrap;
    row := FrameRule(image, r);
  }

  lemma {:induction false} FrameRule(image: Image, r: Registers) returns (row: Row)
    requires |image.pool| == ROW_POOL && (Frame(image, r).Next? || Frame(image, r).stop == Complete)
    ensures RuleFor(image, Activation(r.pc, r.sp, r.fp), r.frames == [], row) && (row.cfaKind == CFA_SP || row.cfaKind == CFA_FP)
  {
    hide MappingFor, RowFor, Wrap;
    var at := if r.frames == [] then r.pc else Wrap(r.pc - 1);
    var m := MappingFor(image.mappings, at).value;
    row := RowFor(image.modules, image.pool, m.id, Wrap(at - m.bias)).value;
    UsableRule(image, Activation(r.pc, r.sp, r.fp), r.frames == [], row);
  }

  /** A frame at which the walk is complete is outermost by the rules. */
  lemma {:induction false} LastIsOutermost(image: Image, r: Registers) returns (row: Row, cfa: nat)
    requires |image.pool| == ROW_POOL && Frame(image, r).Stopped? && Frame(image, r).stop == Complete
    ensures Outermost(image, Activation(r.pc, r.sp, r.fp), r.frames == [], r.lr, row, cfa)
    ensures Frame(image, r).frames == r.frames + [r.pc]
  {
    hide MappingFor, RowFor, Wrap;
    row := FrameRule(image, r);
    cfa := Wrap((if row.cfaKind == CFA_SP then r.sp else r.fp) + row.cfaOff);
  }

  lemma {:induction false} CompleteFrom(image: Image, limit: nat, r: Registers) returns (chain: seq<Activation>, rows: seq<Row>, cfa: nat)
    requires |image.pool| == ROW_POOL && Walk(image, limit, r).stop == Complete
    ensures RestOfChain(image, chain, rows, r.frames == [], r.lr, cfa) && chain[0] == Activation(r.pc, r.sp, r.fp)
    ensures Walk(image, limit, r).frames == r.frames + Addresses(chain)
    decreases limit - |r.frames|
  {
    hide Frame, Calls, Outermost;
    var a := Activation(r.pc, r.sp, r.fp);
    FrameRecords(image, r);
    if Frame(image, r).Stopped? {
      var row;
      row, cfa := LastIsOutermost(image, r);
      chain, rows := [a], [row];
      assert Addresses(chain) == [r.pc];
    } else {
      var row := NextIsCall(image, r);
      var rest, others;
      rest, others, cfa := CompleteFrom(image, limit, Frame(image, r).regs);
      chain, rows := [a] + rest, [row] + others;
      Prepended(image, a, row, rest, others, r.frames == [], r.lr, cfa);
      assert Addresses(chain) == [r.pc] + Addresses(rest);
    }
  }

  lemma {:induction false} Prepended(
    image: Image, a: Activation, row: Row, rest: seq<Activation>, others: seq<Row>, leaf: bool, lr: nat, cfa: nat)
    requires |image.pool| == ROW_POOL && RestOfChain(image, rest, others, false, lr, cfa) && Calls(image, rest[0], a, leaf, lr, row)
    ensures RestOfChain(image, [a] + rest, [row] + others, leaf, lr, cfa)
  {
    hide Calls, Outermost;
    var chain, rows := [a] + rest, [row] + others;
    forall i | 0 <= i < |chain| - 1
      ensures Calls(image, chain[i + 1], chain[i], leaf && i == 0, lr, rows[i])
    {
      if i > 0 {
        assert Calls(image, rest[i], rest[i - 1], false, lr, others[i - 1]);
      }
    }
  }

  /** A walk that is complete has reported a whole call chain by the registered rules. */
  lemma {:induction false} CompleteWalkIsChain(image: Image, limit: nat, r: Registers) returns (chain: seq<Activation>, rows: seq<Row>, cfa: nat)
    requires |image.pool| == ROW_POOL && r.frames == [] && Walk(image, limit, r).stop == Complete
    ensures CallChain(image, chain, rows, r.lr, cfa) && chain[0] == Activation(r.pc, r.sp, r.fp)
    ensures Walk(image, limit, r).frames == Addresses(chain)
  {
    hide Walk, Calls, Outermost;
    chain, rows, cfa := CompleteFrom(image, limit, r);
  }

  // ----- in rounds -----

  /** One tail-called round. */
  method UnwindRound(image: Image, limit: nat, start: Registers) returns (o: Outcome)
    requires |image.pool| == ROW_POOL && |start.frames| <= limit
    ensures o.Stopped? ==> Walk(image, limit, start) == Sample(o.frames, o.stop)
    ensures o.Next? ==>
              Walk(image, limit, o.regs) == Walk(image, limit, start) && |o.regs.frames| == |start.frames| + FRAMES_PER_ROUND < limit
  {
    hide Frame;
    var r := start;
    var i := 0;
    while i < FRAMES_PER_ROUND
      invariant 0 <= i <= FRAMES_PER_ROUND && |r.frames| == |start.frames| + i <= limit
      invariant Walk(image, limit, r) == Walk(image, limit, start)
    {
      if |r.frames| >= limit {
        return Stopped(r.frames, Depth);
      }
      FrameRecords(image, r);
      var f := Frame(image, r);
      if f.Stopped? {
        return f;
      }
      r := f.regs;
      i := i + 1;
    }
    if |r.frames| >= limit {
      return Stopped(r.frames, Depth);
    }
    o := Next(r);
  }

  /** All rounds; `fenced` says whether the fence held when a round began. */
  method Unwind(image: Image, frameLimit: nat, leaf: Registers, fenced: int -> bool) returns (sample: Sample)
    requires |image.pool| == ROW_POOL && leaf.frames == []
    ensures var limit := Min(frameLimit, MAX_FRAMES);
            && (sample == Walk(image, limit, leaf) || (sample.stop == NoMapping && exists n | 0 <= n < MAX_ROUNDS :: !fenced(n)))
            && sample.frames <= Walk(image, limit, leaf).frames && sample.stop != TailLimit && |sample.frames| <= limit
  {
    hide Frame, Walk;
    var limit := Min(frameLimit, MAX_FRAMES);
    var r, round := leaf, 0;
    WalkExtends(image, limit, leaf);
    // The tail-call budget is never the limit: the last round it allows reaches the deepest frame.
    while true
      invariant 0 <= round < MAX_ROUNDS && |r.frames| == round * FRAMES_PER_ROUND <= limit
      invariant Walk(image, limit, r) == Walk(image, limit, leaf)
      decreases MAX_ROUNDS - round
    {
      WalkExtends(image, limit, r);
      if !fenced(round) {
        return Sample(r.frames, NoMapping);
      }
      var o := UnwindRound(image, limit, r);
      if o.Stopped? {
        return Sample(o.frames, o.stop);
      }
      r, round := o.regs, round + 1;
    }
  }

  // ----- Python frames -----

  const PY_MAX_FRAMES: nat := 64
  const PY_FRAMES_PER_ROUND: nat := 16
  const PY_MAX_ROUNDS: nat := 4
  const SHIM_OWNER: nat := 3

  datatype PyStop = PyComplete | PyReadFault | PyTruncated

  /** An interpreter frame as it is read: its code object and owner, and the frame before it. Any read may fault. */
  datatype PyFrame = PyFrame(code: Option<nat>, owner: Option<nat>, previous: Option<nat>)

  datatype PyState = PyState(frame: nat, codes: seq<nat>)

  datatype PyOutcome = PyNext(state: PyState) | PyStopped(codes: seq<nat>, stop: PyStop)

  datatype PySample = PySample(codes: seq<nat>, stop: PyStop)

  function PyStep(memory: nat -> PyFrame, s: PyState): PyOutcome
  {
    var f := memory(s.frame);
    if f.code.None? || f.owner.None? then PyStopped(s.codes, PyReadFault)
    else
      var codes := s.codes + [if f.owner.value == SHIM_OWNER then 0 else f.code.value];
      if f.previous.None? then PyStopped(codes, PyReadFault) else PyNext(PyState(f.previous.value, codes))
  }

  function PyWalk(memory: nat -> PyFrame, s: PyState): PySample
    decreases PY_MAX_FRAMES - |s.codes|
  {
    if s.frame == 0 then PySample(s.codes, PyComplete)
    else if |s.codes| >= PY_MAX_FRAMES then PySample(s.codes, PyTruncated)
    else
      match PyStep(memory, s)
      case PyStopped(codes, stop) => PySample(codes, stop)
      case PyNext(n) => PyWalk(memory, n)
  }

  lemma {:induction false} PyWalkExtends(memory: nat -> PyFrame, s: PyState)
    requires |s.codes| <= PY_MAX_FRAMES
    ensures s.codes <= PyWalk(memory, s).codes && |PyWalk(memory, s).codes| <= PY_MAX_FRAMES
    decreases PY_MAX_FRAMES - |s.codes|
  {
    if s.frame != 0 && |s.codes| < PY_MAX_FRAMES {
      match PyStep(memory, s)
      case PyStopped(_, _) =>
      case PyNext(n) => PyWalkExtends(memory, n);
    }
  }

  method PyRound(memory: nat -> PyFrame, start: PyState) returns (o: PyOutcome)
    requires |start.codes| <= PY_MAX_FRAMES
    ensures o.PyStopped? ==> PyWalk(memory, start) == PySample(o.codes, o.stop)
    ensures o.PyNext? ==>
              && PyWalk(memory, o.state) == PyWalk(memory, start) && o.state.frame != 0
              && |o.state.codes| == |start.codes| + PY_FRAMES_PER_ROUND <= PY_MAX_FRAMES
  {
    var s, i := start, 0;
    while i < PY_FRAMES_PER_ROUND
      invariant 0 <= i <= PY_FRAMES_PER_ROUND && |s.codes| == |start.codes| + i <= PY_MAX_FRAMES
      invariant PyWalk(memory, s) == PyWalk(memory, start)
    {
      if s.frame == 0 {
        return PyStopped(s.codes, PyComplete);
      }
      if |s.codes| >= PY_MAX_FRAMES {
        return PyStopped(s.codes, PyTruncated);
      }
      var step := PyStep(memory, s);
      if step.PyStopped? {
        return step;
      }
      s := step.state;
      i := i + 1;
    }
    o := if s.frame == 0 then PyStopped(s.codes, PyComplete) else PyNext(s);
  }

  /** All rounds; a round that finds the fence broken reports a fault and the frames so far. */
  method WalkPython(memory: nat -> PyFrame, leaf: nat, fenced: int -> bool) returns (sample: PySample)
    ensures var whole := PyWalk(memory, PyState(leaf, []));
            && (sample == whole || (sample.stop == PyReadFault && exists n | 0 <= n < PY_MAX_ROUNDS :: !fenced(n)))
            && sample.codes <= whole.codes && |sample.codes| <= PY_MAX_FRAMES
  {
    hide PyStep;
    var s, round := PyState(leaf, []), 0;
    PyWalkExtends(memory, s);
    while round < PY_MAX_ROUNDS
      invariant 0 <= round <= PY_MAX_ROUNDS && |s.codes| == round * PY_FRAMES_PER_ROUND
      invariant PyWalk(memory, s) == PyWalk(memory, PyState(leaf, [])) && (round > 0 ==> s.frame != 0)
    {
      PyWalkExtends(memory, s);
      if !fenced(round) {
        return PySample(s.codes, PyReadFault);
      }
      var o := PyRound(memory, s);
      if o.PyStopped? {
        return PySample(o.codes, o.stop);
      }
      s, round := o.state, round + 1;
    }
    sample := PySample(s.codes, PyTruncated);
  }
}
