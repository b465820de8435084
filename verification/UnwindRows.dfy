/**
  The bounded binary search for the unwind rule of a program counter. On a module's sorted rows its
  twenty steps always reach the answer of a linear scan.
 */
module UnwindRows {
  import opened Bytes

  const ROW_POOL: nat := 262_144
  const SEARCH_STEPS: nat := 20

  const CFA_SP: nat := 1
  const CFA_FP: nat := 2

  datatype Row = Row(pc: nat, cfaKind: nat, raKind: nat, fpKind: nat, cfaOff: int, raOff: int, fpOff: int)

  datatype Span = Span(start: nat, len: nat)

  /** Rows of kind zero end a gap that no rule covers. */
  predicate Usable(row: Row) { row.cfaKind == CFA_SP || row.cfaKind == CFA_FP }

  // ----- the search -----

  function Search(pool: seq<Row>, low: nat, high: nat, pc: nat, steps: nat): (r: nat)
    requires low < high <= |pool|
    ensures low <= r < high
    decreases steps
  {
    if steps == 0 || low + 1 >= high then low
    else
      var mid := low + (high - low) / 2;
      if pool[mid].pc <= pc then Search(pool, mid, high, pc, steps - 1) else Search(pool, low, mid, pc, steps - 1)
  }

  function RowFor(modules: map<nat, Span>, pool: seq<Row>, id: nat, pc: nat): Option<Row>
    requires |pool| == ROW_POOL
  {
    if id !in modules || modules[id].len == 0 || modules[id].start >= ROW_POOL then None
    else
      var low, high := modules[id].start, Min(modules[id].start + modules[id].len, ROW_POOL);
      if pool[low].pc > pc then None
      else
        var row := pool[Search(pool, low, high, pc, SEARCH_STEPS)];
        if Usable(row) then Some(row) else None
  }

  method FindRow(modules: map<nat, Span>, pool: seq<Row>, id: nat, pc: nat) returns (r: Option<Row>)
    requires |pool| == ROW_POOL
    ensures r == RowFor(modules, pool, id, pc)
  {
    if id !in modules {
      return None;
    }
    var span := modules[id];
    if span.len == 0 || span.start >= ROW_POOL {
      return None;
    }
    var low, high := span.start, Min(span.start + span.len, ROW_POOL);
    if pool[low].pc > pc {
      return None;
    }
    ghost var found := Search(pool, low, high, pc, SEARCH_STEPS);
    var step := 0;
    while step < SEARCH_STEPS && low + 1 < high
      invariant 0 <= step <= SEARCH_STEPS && low < high <= ROW_POOL
      invariant found == Search(pool, low, high, pc, SEARCH_STEPS - step)
    {
      var mid := low + (high - low) / 2;
      if pool[mid].pc <= pc {
        low := mid;
      } else {
        high := mid;
      }
      step := step + 1;
    }
    return if Usable(pool[low]) then Some(pool[low]) else None;
  }

  // ----- the linear scan -----

  predicate Sorted(pool: seq<Row>, low: nat, high: nat)
    requires low <= high <= |pool|
  {
    forall i, j | low <= i < j < high :: pool[i].pc <= pool[j].pc
  }

  /** The last row at or below the program counter, from the back. */
  function ScanBack(pool: seq<Row>, low: nat, high: nat, pc: nat): (r: Option<nat>)
    requires low <= high <= |pool|
    ensures r.Some? ==> low <= r.value < high
    decreases high
  {
    if low == high then None
    else if pool[high - 1].pc <= pc then Some(high - 1)
    else ScanBack(pool, low, high - 1, pc)
  }

  function LinearRow(modules: map<nat, Span>, pool: seq<Row>, id: nat, pc: nat): Option<Row>
    requires |pool| == ROW_POOL
  {
    if id !in modules || modules[id].start >= ROW_POOL then None
    else
      match ScanBack(pool, modules[id].start, Min(modules[id].start + modules[id].len, ROW_POOL), pc)
      case None => None
      case Some(i) => if Usable(pool[i]) then Some(pool[i]) else None
  }

  lemma {:induction false} ScanBackIs(pool: seq<Row>, low: nat, high: nat, pc: nat, i: nat)
    requires low <= i < high <= |pool| && pool[i].pc <= pc && forall j | i < j < high :: pool[j].pc > pc
    ensures ScanBack(pool, low, high, pc) == Some(i)
    decreases high
  {
    if i < high - 1 {
      ScanBackIs(pool, low, high - 1, pc, i);
    }
  }

  lemma {:induction false} ScanBackNone(pool: seq<Row>, low: nat, high: nat, pc: nat)
    requires low <= high <= |pool| && forall j | low <= j < high :: pool[j].pc > pc
    ensures ScanBack(pool, low, high, pc).None?
    decreases high
  {
    if low < high {
      ScanBackNone(pool, low, high - 1, pc);
    }
  }

  function Power(n: nat): nat { if n == 0 then 1 else 2 * Power(n - 1) }

  /** Each step halves the range, so a range of at most 2^steps rows is exhausted. */
  lemma {:induction false} SearchConverges(pool: seq<Row>, low: nat, high: nat, pc: nat, steps: nat)
    requires low < high <= |pool| && Sorted(pool, low, high) && pool[low].pc <= pc && high - low <= Power(steps)
    ensures var i := Search(pool, low, high, pc, steps); pool[i].pc <= pc && forall j | i < j < high :: pool[j].pc > pc
    decreases steps
  {
    if steps > 0 && low + 1 < high {
      var mid := low + (high - low) / 2;
      if pool[mid].pc <= pc {
        SearchConverges(pool, mid, high, pc, steps - 1);
      } else {
        SearchConverges(pool, low, mid, pc, steps - 1);
      }
    }
  }

  lemma {:induction false} PowerTwice(n: nat)
    ensures Power(n + 2) == 4 * Power(n)
  {
    assert Power(n + 1) == 2 * Power(n);
  }

  lemma {:induction false} PoolFits()
    ensures ROW_POOL <= Power(SEARCH_STEPS)
  {
    PowerTwice(0);
    PowerTwice(2);
    PowerTwice(4);
    PowerTwice(6);
    PowerTwice(8);
    PowerTwice(10);
    PowerTwice(12);
    PowerTwice(14);
    PowerTwice(16);
    PowerTwice(18);
    assert Power(0) == 1;
  }

  /** The search finds what a linear scan of the module's rows would. */
  lemma {:induction false} SearchIsScan(modules: map<nat, Span>, pool: seq<Row>, id: nat, pc: nat)
    requires |pool| == ROW_POOL
    requires id in modules && modules[id].start < ROW_POOL ==>
               Sorted(pool, modules[id].start, Min(modules[id].start + modules[id].len, ROW_POOL))
    ensures RowFor(modules, pool, id, pc) == LinearRow(modules, pool, id, pc)
  {
    hide Power, Search, ScanBack;
    if id in modules && modules[id].start < ROW_POOL {
      var low, high := modules[id].start, Min(modules[id].start + modules[id].len, ROW_POOL);
      if low < high && pool[low].pc <= pc {
        PoolFits();
        SearchConverges(pool, low, high, pc, SEARCH_STEPS);
        ScanBackIs(pool, low, high, pc, Search(pool, low, high, pc, SEARCH_STEPS));
      } else {
        ScanBackNone(pool, low, high, pc);
      }
    }
  }
}
