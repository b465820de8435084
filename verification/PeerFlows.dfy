/**
  Bounded workload-pair byte counters with an expiry index. The index always lists exactly the live
  counters by the time of their last observation, so taking idle counters off its front removes
  exactly the idle ones, and no observed byte is lost: it is in a live counter, in an overflow
  counter, or in a counter that has been reclaimed.
 */
module PeerFlows {
  import opened Bytes

  const U64_MAX: nat := 0xffff_ffff_ffff_ffff

  type U64 = n: nat | n <= U64_MAX

  datatype Identity = Identity(namespace: string, ownerName: string, ownerType: string)

  /** An endpoint as the flow reports it: any part of its identity may be missing. */
  datatype Endpoint = Endpoint(namespace: Option<string>, ownerName: Option<string>, ownerType: Option<string>)

  datatype Class = Class(protocol: nat, addressFamily: nat, direction: nat)

  datatype Key = Key(host: Option<string>, class_: Class, source: Identity, destination: Identity)

  datatype Flow = Flow(host: Option<string>, class_: Class, source: Endpoint, destination: Endpoint, bytes: U64, first: nat, last: nat)

  datatype Series = Series(value: nat, start: nat, end: nat)

  datatype Expiry = Expiry(last: nat, key: Key)

  datatype Metric = Metric(key: Key, series: Series, overflow: bool)

  const OTHER := Identity("__other__", "__other__", "__other__")

  function PeerIdentity(e: Endpoint): Option<Identity>
  {
    if e.namespace.Some? && e.ownerName.Some? && e.ownerType.Some?
    then Some(Identity(e.namespace.value, e.ownerName.value, e.ownerType.value)) else None
  }

  function KeyOf(flow: Flow): Option<Key>
  {
    var source, destination := PeerIdentity(flow.source), PeerIdentity(flow.destination);
    if source.Some? && destination.Some? then Some(Key(flow.host, flow.class_, source.value, destination.value)) else None
  }

  function SaturatingAdd(a: nat, b: nat): nat { if a + b > U64_MAX then U64_MAX else a + b }
  function SaturatingSub(a: nat, b: nat): nat { if a < b then 0 else a - b }
  function Max(a: nat, b: nat): nat { if a < b then b else a }
  function Observed(s: Series, flow: Flow): Series
  {
    Series(SaturatingAdd(s.value, flow.bytes), Min(s.start, flow.first), Max(s.end, flow.last))
  }

  function Begun(flow: Flow): Series { Series(flow.bytes, flow.first, flow.last) }

  predicate Idle(end: nat, observed: nat, timeout: nat) { SaturatingSub(observed, end) >= timeout }

  // ----- the store as a value -----

  datatype Store = Store(counters: map<Key, Series>, overflow: map<Class, Series>)

  /** The counters that are not idle at the time of observation. */
  function Live(counters: map<Key, Series>, observed: nat, timeout: nat): map<Key, Series>
  {
    map k | k in counters && !Idle(counters[k].end, observed, timeout) :: counters[k]
  }

  function Overflowed(s: Store, flow: Flow): Store
  {
    s.(overflow := s.overflow[flow.class_ := if flow.class_ in s.overflow then Observed(s.overflow[flow.class_], flow) else Begun(flow)])
  }

  /** One flow summary: idle counters go, then the flow's counter, a new one, or an overflow counter takes its bytes. */
  function After(s: Store, flow: Flow, maxKeys: nat, timeout: nat): Store
  {
    match KeyOf(flow)
    case None => s
    case Some(key) =>
      var live := s.(counters := Live(s.counters, flow.last, timeout));
      if key in live.counters then live.(counters := live.counters[key := Observed(live.counters[key], flow)])
      else if flow.bytes == 0 then live
      else if |live.counters| >= maxKeys then Overflowed(live, flow)
      else live.(counters := live.counters[key := Begun(flow)])
  }

  function Emits(s: Store, flow: Flow, maxKeys: nat, timeout: nat): Option<Metric>
  {
    match KeyOf(flow)
    case None => None
    case Some(key) =>
      var r := After(s, flow, maxKeys, timeout);
      if key in r.counters then Some(Metric(key, r.counters[key], false))
      else if flow.bytes == 0 || flow.class_ !in r.overflow then None
      else Some(Metric(Key(None, flow.class_, OTHER, OTHER), r.overflow[flow.class_], true))
  }

  // ----- the ordered index -----

  function IndexOf(counters: map<Key, Series>): set<Expiry>
  {
    set k | k in counters :: Expiry(counters[k].end, k)
  }

  lemma {:induction false} InIndex(counters: map<Key, Series>, e: Expiry)
    ensures e in IndexOf(counters) <==> e.key in counters && counters[e.key].end == e.last
  {
    if e.key in counters && counters[e.key].end == e.last {
      assert e == Expiry(counters[e.key].end, e.key);
    }
  }

  lemma {:induction false} IndexWithout(counters: map<Key, Series>, key: Key)
    requires key in counters
    ensures IndexOf(counters - {key}) == IndexOf(counters) - {Expiry(counters[key].end, key)}
  {
    hide IndexOf;
    forall e
      ensures e in IndexOf(counters - {key}) <==> e in IndexOf(counters) - {Expiry(counters[key].end, key)}
    {
      InIndex(counters, e);
      InIndex(counters - {key}, e);
    }
  }

  lemma {:induction false} IndexWith(counters: map<Key, Series>, key: Key, s: Series)
    requires key !in counters
    ensures IndexOf(counters[key := s]) == IndexOf(counters) + {Expiry(s.end, key)}
  {
    hide IndexOf;
    forall e
      ensures e in IndexOf(counters[key := s]) <==> e in IndexOf(counters) + {Expiry(s.end, key)}
    {
      InIndex(counters, e);
      InIndex(counters[key := s], e);
    }
  }

  /** The front of the index: an entry that is as old as any. */
  method First(index: set<Expiry>) returns (first: Expiry)
    requires index != {}
    ensures first in index && forall e | e in index :: first.last <= e.last
  {
    first :| first in index;
    var rest := index - {first};
    while rest != {}
      invariant first in index && rest <= index && forall e | e in index && e !in rest :: first.last <= e.last
      decreases |rest|
    {
      var e :| e in rest;
      if e.last < first.last {
        first := e;
      }
      rest := rest - {e};
    }
  }

  class PeerFlowStore {
    var counters: map<Key, Series>
    var expirations: set<Expiry>

    ghost predicate Valid()
      reads this
    {
      expirations == IndexOf(counters)
    }

    constructor ()
      ensures Valid() && counters == map[]
    {
      counters, expirations := map[], {};
    }

    /** Idle counters are taken off the front of the index. */
    method ReclaimExpired(observed: nat, timeout: nat)
      requires Valid()
      modifies this
      ensures Valid() && counters == Live(old(counters), observed, timeout)
    {
      while expirations != {}
        invariant Valid() && Live(counters, observed, timeout) == Live(old(counters), observed, timeout)
        decreases |expirations|
      {
        var expiry := First(expirations);
        if SaturatingSub(observed, expiry.last) < timeout {
          FrontDecides(counters, expiry, observed, timeout);
          return;
        }
        expirations := expirations - {expiry};
        IndexWithout(counters, expiry.key);
        if expiry.key in counters && counters[expiry.key].end == expiry.last {
          counters := counters - {expiry.key};
        }
      }
      NoneLeft(counters, observed, timeout);
    }

    /** Removal and insertion keep counters and index in step. */
    method Replace(key: Key, s: Series)
      requires Valid()
      modifies this
      ensures Valid() && counters == old(counters)[key := s]
    {
      if key in counters {
        IndexWithout(counters, key);
        expirations := expirations - {Expiry(counters[key].end, key)};
        counters := counters - {key};
      }
      IndexWith(counters, key, s);
      expirations := expirations + {Expiry(s.end, key)};
      counters := counters[key := s];
    }
  }

  /** If the oldest counter is not idle, none is. */
  lemma {:induction false} FrontDecides(counters: map<Key, Series>, first: Expiry, observed: nat, timeout: nat)
    requires (forall e | e in IndexOf(counters) :: first.last <= e.last) && SaturatingSub(observed, first.last) < timeout
    ensures Live(counters, observed, timeout) == counters
  {
    forall k | k in counters
      ensures !Idle(counters[k].end, observed, timeout)
    {
      assert Expiry(counters[k].end, k) in IndexOf(counters);
    }
  }

  lemma {:induction false} NoneLeft(counters: map<Key, Series>, observed: nat, timeout: nat)
    requires IndexOf(counters) == {}
    ensures Live(counters, observed, timeout) == counters
  {
    assert forall k | k in counters :: Expiry(counters[k].end, k) in IndexOf(counters);
  }

  class PeerFlowMetricsGenerator {
    const maxKeys: nat
    const timeout: nat
    const series: PeerFlowStore
    var overflow: map<Class, Series>

    ghost predicate Valid()
      reads this, series
    {
      series.Valid() && 0 < maxKeys && 0 < timeout && |series.counters| <= maxKeys
    }

    ghost function Value(): Store
      reads this, series
    {
      Store(series.counters, overflow)
    }

    constructor (maxKeys: nat, timeout: nat)
      ensures Valid() && fresh(series) && Value() == Store(map[], map[])
      ensures this.maxKeys == Max(maxKeys, 1) && this.timeout == Max(timeout, 1)
    {
      this.maxKeys, this.timeout := Max(maxKeys, 1), Max(timeout, 1);
      series := new PeerFlowStore();
      overflow := map[];
    }

    method ObserveOverflow(flow: Flow) returns (output: Metric)
      requires Valid()
      modifies this
      ensures Valid() && Value() == Overflowed(old(Value()), flow)
      ensures output == Metric(Key(None, flow.class_, OTHER, OTHER), overflow[flow.class_], true)
    {
      var s := if flow.class_ in overflow then Observed(overflow[flow.class_], flow) else Begun(flow);
      overflow := overflow[flow.class_ := s];
      output := Metric(Key(None, flow.class_, OTHER, OTHER), s, true);
    }

    method Observe(flow: Flow) returns (output: Option<Metric>)
      requires Valid()
      modifies this, series
      ensures Valid() && Value() == After(old(Value()), flow, maxKeys, timeout)
      ensures output == Emits(old(Value()), flow, maxKeys, timeout)
    {
      var key := KeyOf(flow);
      if key.None? {
        return None;
      }
      series.ReclaimExpired(flow.last, timeout);
      FewerLive(old(series.counters), flow.last, timeout);
      if key.value in series.counters {
        var s := Observed(series.counters[key.value], flow);
        SameSize(series.counters, key.value, s);
        series.Replace(key.value, s);
        return Some(Metric(key.value, s, false));
      }
      if flow.bytes == 0 {
        return None;
      }
      if |series.counters| >= maxKeys {
        var metric := ObserveOverflow(flow);
        return Some(metric);
      }
      series.Replace(key.value, Begun(flow));
      output := Some(Metric(key.value, Begun(flow), false));
    }
  }

  lemma {:induction false} SameSize(m: map<Key, Series>, k: Key, s: Series)
    requires k in m
    ensures |m[k := s]| == |m|
  {
    assert m[k := s].Keys == m.Keys;
    assert |m.Keys| == |m|;
  }

  lemma {:induction false} FewerLive(m: map<Key, Series>, observed: nat, timeout: nat)
    ensures |Live(m, observed, timeout)| <= |m|
  {
    var live := Live(m, observed, timeout);
    assert live.Keys <= m.Keys;
    FewerKeys(live.Keys, m.Keys);
    assert |live.Keys| == |live| && |m.Keys| == |m|;
  }

  lemma {:induction false} FewerKeys(a: set<Key>, b: set<Key>)
    requires a <= b
    ensures |a| <= |b|
  {
    assert b == a + (b - a);
  }

  // ----- conservation -----

  ghost function Total<K(!new)>(m: map<K, Series>): nat
    decreases m
  {
    if m == map[] then 0 else var k :| k in m; m[k].value + Total(m - {k})
  }

  lemma {:induction false} TotalWithout<K(!new)>(m: map<K, Series>, k: K)
    requires k in m
    ensures Total(m) == m[k].value + Total(m - {k})
    decreases |m|
  {
    var j :| j in m && Total(m) == m[j].value + Total(m - {j});
    if j != k {
      TotalWithout(m - {j}, k);
      TotalWithout(m - {k}, j);
      assert m - {j} - {k} == m - {k} - {j};
    }
  }

  lemma {:induction false} TotalWith<K(!new)>(m: map<K, Series>, k: K, s: Series)
    ensures Total(m[k := s]) == s.value + Total(m - {k})
  {
    TotalWithout(m[k := s], k);
    assert m[k := s] - {k} == m - {k};
  }

  /** Bytes in counters that a flow at time `observed` reclaims. */
  ghost function Dropped(counters: map<Key, Series>, observed: nat, timeout: nat): nat
  {
    Total(map k | k in counters && Idle(counters[k].end, observed, timeout) :: counters[k])
  }

  lemma {:induction false} TotalNone<K(!new)>()
    ensures Total<K>(map[]) == 0
  {}

  ghost predicate SplitInto(m: map<Key, Series>, a: map<Key, Series>, b: map<Key, Series>)
  {
    && (forall k :: k in m <==> k in a || k in b)
    && (forall k | k in a :: k !in b && m[k] == a[k]) && (forall k | k in b :: m[k] == b[k])
  }

  lemma {:induction false} TotalSplit(m: map<Key, Series>, a: map<Key, Series>, b: map<Key, Series>)
    requires SplitInto(m, a, b)
    ensures Total(m) == Total(a) + Total(b)
    decreases |a.Keys|
  {
    hide Total;
    if a == map[] {
      assert m == b;
      TotalNone<Key>();
    } else {
      var k :| k in a;
      TotalWithout(m, k);
      TotalWithout(a, k);
      assert SplitInto(m - {k}, a - {k}, b);
      assert (a - {k}).Keys == a.Keys - {k};
      TotalSplit(m - {k}, a - {k}, b);
    }
  }

  lemma {:induction false} ReclaimSplits(counters: map<Key, Series>, observed: nat, timeout: nat)
    ensures Total(counters) == Total(Live(counters, observed, timeout)) + Dropped(counters, observed, timeout)
  {
    hide Total;
    var live := Live(counters, observed, timeout);
    var idle := map k | k in counters && Idle(counters[k].end, observed, timeout) :: counters[k];
    assert SplitInto(counters, live, idle);
    TotalSplit(counters, live, idle);
  }

  ghost function Held(s: Store): nat { Total(s.counters) + Total(s.overflow) }

  /** What a flow adds to the held bytes, at most and, short of saturation, exactly. */
  lemma {:induction false} HeldAfter(s: Store, flow: Flow, maxKeys: nat, timeout: nat)
    requires KeyOf(flow).Some?
    ensures var dropped := Dropped(s.counters, flow.last, timeout);
            && Held(After(s, flow, maxKeys, timeout)) + dropped <= Held(s) + flow.bytes
            && (Held(s) + flow.bytes <= U64_MAX ==> Held(After(s, flow, maxKeys, timeout)) + dropped == Held(s) + flow.bytes)
  {
    hide Total, Dropped, Live;
    var key := KeyOf(flow).value;
    var live := Live(s.counters, flow.last, timeout);
    ReclaimSplits(s.counters, flow.last, timeout);
    if key in live {
      TotalWithout(live, key);
      TotalWith(live, key, Observed(live[key], flow));
    } else if flow.bytes != 0 && |live| >= maxKeys {
      if flow.class_ in s.overflow {
        TotalWithout(s.overflow, flow.class_);
        TotalWith(s.overflow, flow.class_, Observed(s.overflow[flow.class_], flow));
      } else {
        TotalWith(s.overflow, flow.class_, Begun(flow));
        assert s.overflow - {flow.class_} == s.overflow;
      }
    } else if flow.bytes != 0 {
      TotalWith(live, key, Begun(flow));
      assert live - {key} == live;
    }
  }

  // ----- whole runs -----

  ghost function Run(flows: seq<Flow>, maxKeys: nat, timeout: nat): Store
  {
    if flows == [] then Store(map[], map[])
    else After(Run(flows[..|flows| - 1], maxKeys, timeout), flows[|flows| - 1], maxKeys, timeout)
  }

  /** Bytes of the flows that name both peers. */
  ghost function Accepted(flows: seq<Flow>): nat
  {
    if flows == [] then 0
    else Accepted(flows[..|flows| - 1]) + if KeyOf(flows[|flows| - 1]).Some? then flows[|flows| - 1].bytes else 0
  }

  /** Bytes of the counters reclaimed during the run. */
  ghost function Reclaimed(flows: seq<Flow>, maxKeys: nat, timeout: nat): nat
  {
    if flows == [] then 0
    else
      var before, flow := flows[..|flows| - 1], flows[|flows| - 1];
      Reclaimed(before, maxKeys, timeout) +
      if KeyOf(flow).Some? then Dropped(Run(before, maxKeys, timeout).counters, flow.last, timeout) else 0
  }

  /** No byte is lost: below saturation, live, overflow and reclaimed bytes are all that was accepted. */
  lemma {:induction false} BytesConserved(flows: seq<Flow>, maxKeys: nat, timeout: nat)
    ensures Held(Run(flows, maxKeys, timeout)) + Reclaimed(flows, maxKeys, timeout) <= Accepted(flows)
    ensures Accepted(flows) <= U64_MAX ==>
              Held(Run(flows, maxKeys, timeout)) + Reclaimed(flows, maxKeys, timeout) == Accepted(flows)
    decreases |flows|
  {
    hide After, Held, Dropped;
    if flows == [] {
      NothingHeld();
    } else {
      var before, flow := flows[..|flows| - 1], flows[|flows| - 1];
      BytesConserved(before, maxKeys, timeout);
      if KeyOf(flow).Some? {
        HeldAfter(Run(before, maxKeys, timeout), flow, maxKeys, timeout);
      } else {
        Ignored(Run(before, maxKeys, timeout), flow, maxKeys, timeout);
      }
    }
  }

  lemma {:induction false} NothingHeld()
    ensures Held(Store(map[], map[])) == 0
  {}

  lemma {:induction false} Ignored(s: Store, flow: Flow, maxKeys: nat, timeout: nat)
    requires KeyOf(flow).None?
    ensures After(s, flow, maxKeys, timeout) == s
  {}

  /** The number of counters never exceeds the limit. */
  lemma {:induction false} KeysBounded(flows: seq<Flow>, maxKeys: nat, timeout: nat)
    ensures |Run(flows, maxKeys, timeout).counters| <= maxKeys
    decreases |flows|
  {
    if flows != [] {
      var before, flow := flows[..|flows| - 1], flows[|flows| - 1];
      KeysBounded(before, maxKeys, timeout);
      var s := Run(before, maxKeys, timeout);
      if KeyOf(flow).Some? {
        var key, live := KeyOf(flow).value, Live(s.counters, flow.last, timeout);
        FewerLive(s.counters, flow.last, timeout);
        if key in live {
          SameSize(live, key, Observed(live[key], flow));
        }
      }
    }
  }

  // ----- what a counter stands for -----

  ghost predicate Names(flows: seq<Flow>, i: int, key: Key) { 0 <= i < |flows| && KeyOf(flows[i]) == Some(key) }

  /** The bytes of the flows from number `c` on that name the key. */
  ghost function BytesSince(flows: seq<Flow>, c: nat, key: Key): nat
    requires c <= |flows|
  {
    if |flows| == c then 0
    else BytesSince(flows[..|flows| - 1], c, key) + if Names(flows, |flows| - 1, key) then flows[|flows| - 1].bytes else 0
  }

  /** The window from `start` to `end` is the smallest around the flows from number `c` on that name the key. */
  ghost predicate SmallestWindow(flows: seq<Flow>, c: nat, key: Key, start: nat, end: nat)
  {
    && (forall i | c <= i && Names(flows, i, key) :: start <= flows[i].first && flows[i].last <= end)
    && (exists i | c <= i :: Names(flows, i, key) && flows[i].first == start)
    && (exists i | c <= i :: Names(flows, i, key) && flows[i].last == end)
  }

  /** The counter sums up exactly the flows since number `c`, which began it. */
  ghost predicate Sums(flows: seq<Flow>, c: nat, key: Key, s: Series)
  {
    && Names(flows, c, key) && flows[c].bytes > 0
    && s.value == Min(BytesSince(flows, c, key), U64_MAX) && SmallestWindow(flows, c, key, s.start, s.end)
  }

  lemma {:induction false} FirstFlow(flows: seq<Flow>, key: Key)
    requires flows != [] && Names(flows, |flows| - 1, key) && flows[|flows| - 1].bytes > 0
    ensures Sums(flows, |flows| - 1, key, Begun(flows[|flows| - 1]))
  {
    hide KeyOf;
    var n := |flows| - 1;
    assert BytesSince(flows[..n], n, key) == 0;
    assert Names(flows, n, key);
  }

  lemma {:induction false} SameNames(flows: seq<Flow>, key: Key, i: int)
    requires flows != [] && 0 <= i < |flows| - 1
    ensures Names(flows[..|flows| - 1], i, key) <==> Names(flows, i, key)
  {
    hide KeyOf;
  }

  lemma {:induction false} WindowGrows(flows: seq<Flow>, c: nat, key: Key, start: nat, end: nat)
    requires c < |flows| - 1 && SmallestWindow(flows[..|flows| - 1], c, key, start, end)
    ensures var flow := flows[|flows| - 1];
            if Names(flows, |flows| - 1, key) then SmallestWindow(flows, c, key, Min(start, flow.first), Max(end, flow.last))
            else SmallestWindow(flows, c, key, start, end)
  {
    hide KeyOf;
    var before, n := flows[..|flows| - 1], |flows| - 1;
    var a :| c <= a && Names(before, a, key) && before[a].first == start;
    var b :| c <= b && Names(before, b, key) && before[b].last == end;
    assert Names(flows, a, key) && Names(flows, b, key);
    forall i | c <= i && Names(flows, i, key)
      ensures i == n || Names(before, i, key)
    {
    }
  }

  lemma {:induction false} NextFlow(flows: seq<Flow>, c: nat, key: Key, s: Series)
    requires flows != [] && Sums(flows[..|flows| - 1], c, key, s)
    ensures Sums(flows, c, key, if Names(flows, |flows| - 1, key) then Observed(s, flows[|flows| - 1]) else s)
  {
    hide KeyOf, SmallestWindow;
    SameNames(flows, key, c);
    WindowGrows(flows, c, key, s.start, s.end);
  }

  /** A live counter sums up exactly the flows of its key since the one that began it, up to saturation. */
  lemma {:induction false} CounterHistory(flows: seq<Flow>, maxKeys: nat, timeout: nat, key: Key) returns (c: nat)
    requires key in Run(flows, maxKeys, timeout).counters
    ensures Sums(flows, c, key, Run(flows, maxKeys, timeout).counters[key])
    decreases |flows|
  {
    hide Sums, KeyOf;
    var n := |flows| - 1;
    var before, flow := flows[..n], flows[n];
    var s := Run(before, maxKeys, timeout);
    if key in s.counters {
      c := CounterHistory(before, maxKeys, timeout, key);
      NextFlow(flows, c, key, s.counters[key]);
    }
    if KeyOf(flow) == Some(key) && key !in Live(s.counters, flow.last, timeout) {
      c := n;
      FirstFlow(flows, key);
    }
  }
}
