/**
  Decoding a stored flamegraph: levels of (offset, inclusive weight, self weight, name) entries.
  A graph is accepted exactly when every entry has a parent on the level above and weights are
  conserved at every entry; each entry's self weight is then credited by its path of names.
 */
module Flamegraph {
  import opened Bytes

  const MAX_NODES: nat := 65_536
  const MAX_LEVELS: nat := 256
  const MAX_NAME: nat := 4096
  // Numbers are refused unless they are nonnegative 64-bit integers.
  const MAX_NUMBER: nat := 0x7fff_ffff_ffff_ffff

  /** Level values are flat: four numbers an entry. */
  datatype Graph = Graph(total: nat, names: seq<string>, levels: seq<seq<nat>>)

  datatype Entry = Entry(delta: nat, weight: nat, own: nat, name: nat)

  datatype Block = Block(left: nat, right: nat, weight: nat, own: nat, name: nat)

  datatype Quality = Quality(total: nat, useful: nat, unknown: nat)

  type Path = seq<string>

  predicate ChainAt(stack: Path, wanted: Path, i: int) { 0 <= i && i + |wanted| <= |stack| && stack[i..i + |wanted|] == wanted }

  predicate ContainsChain(stack: Path, wanted: Path) { exists i | 0 <= i <= |stack| :: ChainAt(stack, wanted, i) }

  /** What is looked for: a chain of symbols, and names that count as unknown. */
  datatype Query = Query(wanted: Path, unknown: string -> bool)

  predicate Useful(q: Query, path: Path) { ContainsChain(path, q.wanted) }

  predicate Unknown(q: Query, path: Path) { path == [] || exists i | 0 <= i < |path| :: q.unknown(path[i]) }

  // ----- one level -----

  function Entries(values: seq<nat>): seq<Entry>
    requires |values| % 4 == 0
  {
    seq(|values| / 4, i requires 0 <= i < |values| / 4 => Entry(values[4 * i], values[4 * i + 1], values[4 * i + 2], values[4 * i + 3]))
  }

  function Placed(e: Entry, right: nat): Block { Block(right + e.delta, right + e.delta + e.weight, e.weight, e.own, e.name) }

  /** Where the entries lie; `right` is where the previous one ended. */
  function Blocks(entries: seq<Entry>, right: nat): (r: seq<Block>)
    ensures |r| == |entries|
    decreases |entries|
  {
    if entries == [] then [] else var b := Placed(entries[0], right); [b] + Blocks(entries[1..], b.right)
  }

  predicate BlockValid(g: Graph, b: Block) { 0 < b.weight && b.own <= b.weight && b.name < |g.names| && b.right <= g.total }

  predicate Inside(b: Block, p: Block) { p.left <= b.left && b.right <= p.right }

  /** The first block that ends after `left`. */
  function ParentIndex(above: seq<Block>, left: nat): (i: nat)
    ensures i <= |above|
    ensures forall j | 0 <= j < i :: above[j].right <= left
    ensures i < |above| ==> left < above[i].right
  {
    if above == [] || left < above[0].right then 0 else 1 + ParentIndex(above[1..], left)
  }

  predicate HasParent(above: seq<Block>, b: Block)
  {
    var i := ParentIndex(above, b.left);
    i < |above| && Inside(b, above[i])
  }

  /** The inclusive weight of the blocks whose parent is number `i`. */
  function ChildWeight(above: seq<Block>, blocks: seq<Block>, i: nat): nat
  {
    if blocks == [] then 0
    else
      var last := blocks[|blocks| - 1];
      ChildWeight(above, blocks[..|blocks| - 1], i) + if ParentIndex(above, last.left) == i then last.weight else 0
  }

  predicate Conserved(above: seq<Block>, blocks: seq<Block>)
  {
    forall i | 0 <= i < |above| :: above[i].own + ChildWeight(above, blocks, i) == above[i].weight
  }

  predicate LevelValid(g: Graph, above: seq<Block>, blocks: seq<Block>)
  {
    (forall i | 0 <= i < |blocks| :: BlockValid(g, blocks[i]) && HasParent(above, blocks[i])) && Conserved(above, blocks)
  }

  // ----- the graph -----

  predicate LeavesWhole(blocks: seq<Block>) { forall i | 0 <= i < |blocks| :: blocks[i].own == blocks[i].weight }

  /** The remaining levels, below the blocks `above`. */
  predicate LevelsValid(g: Graph, levels: seq<seq<nat>>, above: seq<Block>)
    decreases |levels|
  {
    if levels == [] then LeavesWhole(above)
    else
      && levels[0] != [] && |levels[0]| % 4 == 0
      && var blocks := Blocks(Entries(levels[0]), 0);
         LevelValid(g, above, blocks) && LevelsValid(g, levels[1..], blocks)
  }

  function NodeCount(levels: seq<seq<nat>>): nat
  {
    if levels == [] then 0 else |levels[0]| / 4 + NodeCount(levels[1..])
  }

  /** Within the decoder's budgets; the other numbers of an accepted graph are bounded by these. */
  predicate ShapeValid(g: Graph)
  {
    && g.total <= MAX_NUMBER
    && 0 < |g.names| <= MAX_NODES && (forall i | 0 <= i < |g.names| :: |g.names[i]| <= MAX_NAME)
    && 1 <= |g.levels| <= MAX_LEVELS && NodeCount(g.levels) <= MAX_NODES
  }

  predicate RootValid(g: Graph, values: seq<nat>)
  {
    |values| == 4 && values[0] == 0 && values[1] == g.total && BlockValid(g, Placed(Entries(values)[0], 0))
  }

  predicate Accepted(g: Graph)
  {
    ShapeValid(g) && RootValid(g, g.levels[0]) && LevelsValid(g, g.levels[1..], Blocks(Entries(g.levels[0]), 0))
  }

  // ----- credit -----

  function PathsOf(g: Graph, above: seq<Block>, paths: seq<Path>, blocks: seq<Block>): (r: seq<Path>)
    requires |paths| == |above|
    ensures |r| == |blocks|
  {
    seq(|blocks|, i requires 0 <= i < |blocks| =>
      var p := ParentIndex(above, blocks[i].left);
      if p < |above| && blocks[i].name < |g.names| then paths[p] + [g.names[blocks[i].name]] else [])
  }

  datatype Credit = Credit(own: nat, useful: nat, unknown: nat) {
    function Plus(c: Credit): Credit { Credit(own + c.own, useful + c.useful, unknown + c.unknown) }
  }

  const NO_CREDIT := Credit(0, 0, 0)

  function Earned(q: Query, own: nat, path: Path): Credit
  {
    Credit(own, if Useful(q, path) then own else 0, if Unknown(q, path) then own else 0)
  }

  function LevelCredit(q: Query, blocks: seq<Block>, paths: seq<Path>): Credit
    requires |blocks| == |paths|
  {
    if blocks == [] then NO_CREDIT
    else
      var n := |blocks| - 1;
      LevelCredit(q, blocks[..n], paths[..n]).Plus(Earned(q, blocks[n].own, paths[n]))
  }

  function CreditBelow(g: Graph, q: Query, levels: seq<seq<nat>>, above: seq<Block>, paths: seq<Path>): Credit
    requires |above| == |paths|
    decreases |levels|
  {
    if levels == [] || |levels[0]| % 4 != 0 then NO_CREDIT
    else
      var blocks := Blocks(Entries(levels[0]), 0);
      var next := PathsOf(g, above, paths, blocks);
      LevelCredit(q, blocks, next).Plus(CreditBelow(g, q, levels[1..], blocks, next))
  }

  function GraphCredit(g: Graph, q: Query): Credit
    requires RootValid(g, if g.levels == [] then [] else g.levels[0])
  {
    var root := Blocks(Entries(g.levels[0]), 0);
    LevelCredit(q, root, [[]]).Plus(CreditBelow(g, q, g.levels[1..], root, [[]]))
  }

  // ----- the decoder's loops -----

  lemma {:induction false} BlocksNext(entries: seq<Entry>, right: nat, n: nat)
    requires n < |entries|
    ensures var from := if n == 0 then right else Blocks(entries, right)[n - 1].right;
            Blocks(entries, right)[n] == Placed(entries[n], from)
    decreases n
  {
    if n > 0 {
      BlocksNext(entries[1..], Placed(entries[0], right).right, n - 1);
    }
  }

  lemma {:induction false} ParentIs(above: seq<Block>, left: nat, i: nat)
    requires i <= |above| && (forall j | 0 <= j < i :: above[j].right <= left) && (i < |above| ==> left < above[i].right)
    ensures ParentIndex(above, left) == i
  {
    if 0 < i {
      ParentIs(above[1..], left, i - 1);
    }
  }

  lemma {:induction false} ChildWeightNext(above: seq<Block>, blocks: seq<Block>, n: nat, i: nat)
    requires n < |blocks|
    ensures ChildWeight(above, blocks[..n + 1], i) ==
            ChildWeight(above, blocks[..n], i) + if ParentIndex(above, blocks[n].left) == i then blocks[n].weight else 0
  {
    hide ParentIndex;
    assert blocks[..n + 1][..n] == blocks[..n];
  }

  lemma {:induction false} LevelCreditNext(q: Query, blocks: seq<Block>, paths: seq<Path>, n: nat)
    requires n < |blocks| == |paths|
    ensures LevelCredit(q, blocks[..n + 1], paths[..n + 1]) ==
            LevelCredit(q, blocks[..n], paths[..n]).Plus(Earned(q, blocks[n].own, paths[n]))
  {
    hide Earned;
    assert blocks[..n + 1][..n] == blocks[..n] && paths[..n + 1][..n] == paths[..n];
  }

  /** The parent's pointer moves right until a block ends after `left`. */
  method Advance(above: seq<Block>, from: nat, left: nat) returns (i: nat)
    requires from <= |above| && forall j | 0 <= j < from :: above[j].right <= left
    ensures i == ParentIndex(above, left) && from <= i
  {
    i := from;
    while i < |above| && above[i].right <= left
      invariant from <= i <= |above| && forall j | 0 <= j < i :: above[j].right <= left
    {
      i := i + 1;
    }
    ParentIs(above, left, i);
  }

  /** One level below the root: its blocks and their paths, and what its entries earn; none if it is refused. */
  method DecodeLevel(g: Graph, q: Query, above: seq<Block>, paths: seq<Path>, entries: seq<Entry>)
    returns (ok: bool, blocks: seq<Block>, next: seq<Path>, credit: Credit)
    requires |above| == |paths|
    ensures ok <==> LevelValid(g, above, Blocks(entries, 0))
    ensures ok ==> blocks == Blocks(entries, 0) && next == PathsOf(g, above, paths, blocks) && credit == LevelCredit(q, blocks, next)
  {
    hide Blocks, ParentIndex, ChildWeight, LevelCredit, Earned, PathsOf;
    ghost var all := Blocks(entries, 0);
    ghost var allPaths := PathsOf(g, above, paths, all);
    var children := seq(|above|, i => 0);
    var right, parentIndex := 0, 0;
    blocks, next, credit, ok := [], [], NO_CREDIT, false;
    NothingYet(q, above, all, allPaths);
    for n := 0 to |entries|
      invariant blocks == all[..n] && next == allPaths[..n] && credit == LevelCredit(q, all[..n], allPaths[..n])
      invariant right == if n == 0 then 0 else all[n - 1].right
      invariant 0 <= parentIndex <= |above| && forall j | 0 <= j < parentIndex :: above[j].right <= right
      invariant |children| == |above| && forall i | 0 <= i < |above| :: children[i] == ChildWeight(above, all[..n], i)
      invariant forall i | 0 <= i < n :: BlockValid(g, all[i]) && HasParent(above, all[i])
    {
      BlocksNext(entries, 0, n);
      var b := Placed(entries[n], right);
      if !BlockValid(g, b) {
        return;
      }
      parentIndex := Advance(above, parentIndex, b.left);
      if parentIndex == |above| || !Inside(b, above[parentIndex]) {
        assert !HasParent(above, all[n]);
        return;
      }
      var path := paths[parentIndex] + [g.names[b.name]];
      PathAt(g, above, paths, all, n);
      LevelCreditNext(q, all, allPaths, n);
      ghost var before := children;
      children := children[parentIndex := children[parentIndex] + b.weight];
      ChildrenNext(above, all, n, before, parentIndex, children);
      blocks, next, right := blocks + [b], next + [path], b.right;
      credit := credit.Plus(Earned(q, b.own, path));
    }
    assert all[..|entries|] == all && allPaths[..|entries|] == allPaths;
    ok := forall i | 0 <= i < |above| :: children[i] + above[i].own == above[i].weight;
  }

  lemma {:induction false} NothingYet(q: Query, above: seq<Block>, all: seq<Block>, paths: seq<Path>)
    requires |all| == |paths|
    ensures all[..0] == [] && paths[..0] == [] && LevelCredit(q, all[..0], paths[..0]) == NO_CREDIT
    ensures forall i | 0 <= i < |above| :: ChildWeight(above, all[..0], i) == 0
  {}

  lemma {:induction false} ChildrenNext(above: seq<Block>, all: seq<Block>, n: nat, children: seq<nat>, p: nat, after: seq<nat>)
    requires n < |all| && |children| == |above| && p == ParentIndex(above, all[n].left) < |above|
    requires after == children[p := children[p] + all[n].weight]
    requires forall i | 0 <= i < |above| :: children[i] == ChildWeight(above, all[..n], i)
    ensures forall i | 0 <= i < |above| :: after[i] == ChildWeight(above, all[..n + 1], i)
  {
    hide ChildWeight, ParentIndex;
    forall i | 0 <= i < |above|
      ensures after[i] == ChildWeight(above, all[..n + 1], i)
    {
      ChildWeightNext(above, all, n, i);
    }
  }

  lemma {:induction false} PathAt(g: Graph, above: seq<Block>, paths: seq<Path>, blocks: seq<Block>, n: nat)
    requires |paths| == |above| && n < |blocks| && HasParent(above, blocks[n]) && BlockValid(g, blocks[n])
    ensures PathsOf(g, above, paths, blocks)[n] == paths[ParentIndex(above, blocks[n].left)] + [g.names[blocks[n].name]]
  {
    hide ParentIndex;
  }

  // ----- conservation -----

  function Own(blocks: seq<Block>): nat { if blocks == [] then 0 else Own(blocks[..|blocks| - 1]) + blocks[|blocks| - 1].own }

  function Weight(blocks: seq<Block>): nat
  {
    if blocks == [] then 0 else Weight(blocks[..|blocks| - 1]) + blocks[|blocks| - 1].weight
  }

  /** The children of the first `n` blocks above. */
  function Children(above: seq<Block>, blocks: seq<Block>, n: nat): nat
  {
    if n == 0 then 0 else Children(above, blocks, n - 1) + ChildWeight(above, blocks, n - 1)
  }

  lemma {:induction false} ChildrenAppend(above: seq<Block>, blocks: seq<Block>, n: nat)
    requires blocks != []
    ensures var init, last := blocks[..|blocks| - 1], blocks[|blocks| - 1];
            Children(above, blocks, n) == Children(above, init, n) + if ParentIndex(above, last.left) < n then last.weight else 0
  {
    hide ParentIndex;
    if n > 0 {
      ChildrenAppend(above, blocks, n - 1);
    }
  }

  /** Every block is the child of one block above, so together the children are the whole level. */
  lemma {:induction false} ChildrenAreLevel(above: seq<Block>, blocks: seq<Block>)
    requires forall i | 0 <= i < |blocks| :: HasParent(above, blocks[i])
    ensures Children(above, blocks, |above|) == Weight(blocks)
    decreases |blocks|
  {
    hide ParentIndex, ChildWeight;
    if blocks == [] {
      NoChildren(above, |above|);
    } else {
      ChildrenAppend(above, blocks, |above|);
      ChildrenAreLevel(above, blocks[..|blocks| - 1]);
    }
  }

  lemma {:induction false} NoChildren(above: seq<Block>, n: nat)
    ensures Children(above, [], n) == 0
  {
    if n > 0 {
      NoChildren(above, n - 1);
    }
  }

  lemma {:induction false} ConservedSum(above: seq<Block>, blocks: seq<Block>, n: nat)
    requires Conserved(above, blocks) && n <= |above|
    ensures Own(above[..n]) + Children(above, blocks, n) == Weight(above[..n])
  {
    hide ChildWeight;
    if n > 0 {
      ConservedSum(above, blocks, n - 1);
      assert above[..n][..n - 1] == above[..n - 1];
    }
  }

  lemma {:induction false} LevelOwn(q: Query, blocks: seq<Block>, paths: seq<Path>)
    requires |blocks| == |paths|
    ensures LevelCredit(q, blocks, paths).own == Own(blocks)
  {
    hide Useful, Unknown;
    if blocks != [] {
      LevelOwn(q, blocks[..|blocks| - 1], paths[..|blocks| - 1]);
    }
  }

  lemma {:induction false} LeavesSum(blocks: seq<Block>)
    requires LeavesWhole(blocks)
    ensures Own(blocks) == Weight(blocks)
  {
    if blocks != [] {
      LeavesSum(blocks[..|blocks| - 1]);
    }
  }

  /** Below any valid level, self weights make up exactly what that level does not keep for itself. */
  lemma {:induction false} SelfWeights(g: Graph, q: Query, levels: seq<seq<nat>>, above: seq<Block>, paths: seq<Path>)
    requires |above| == |paths| && LevelsValid(g, levels, above)
    ensures Own(above) + CreditBelow(g, q, levels, above, paths).own == Weight(above)
    decreases |levels|
  {
    hide Blocks, PathsOf, Own, Weight, LevelCredit, ChildWeight;
    if levels == [] {
      LeavesSum(above);
    } else {
      var blocks := Blocks(Entries(levels[0]), 0);
      var next := PathsOf(g, above, paths, blocks);
      SelfWeights(g, q, levels[1..], blocks, next);
      LevelOwn(q, blocks, next);
      ChildrenAreLevel(above, blocks);
      ConservedSum(above, blocks, |above|);
      assert above[..|above|] == above;
    }
  }

  lemma {:induction false} RootBlocks(g: Graph, values: seq<nat>)
    requires RootValid(g, values)
    ensures var root := Blocks(Entries(values), 0);
            root == [Placed(Entries(values)[0], 0)] && Weight(root) == g.total && Own(root) == values[2]
  {
    var entries := Entries(values);
    assert entries == [entries[0]];
    var b := Placed(entries[0], 0);
    assert entries[1..] == [];
    assert [b][..0] == [];
  }

  /** The self weights of an accepted graph add up to its total. */
  lemma {:induction false} SelfWeightIsTotal(g: Graph, q: Query)
    requires Accepted(g)
    ensures GraphCredit(g, q).own == g.total
  {
    hide Blocks, LevelCredit, Own, Weight, CreditBelow, LevelsValid;
    RootBlocks(g, g.levels[0]);
    var root := Blocks(Entries(g.levels[0]), 0);
    SelfWeights(g, q, g.levels[1..], root, [[]]);
    LevelOwn(q, root, [[]]);
  }

  lemma {:induction false} LevelBounds(q: Query, blocks: seq<Block>, paths: seq<Path>)
    requires |blocks| == |paths|
    ensures var c := LevelCredit(q, blocks, paths); c.useful <= c.own && c.unknown <= c.own
  {
    hide Useful, Unknown;
    if blocks != [] {
      LevelBounds(q, blocks[..|blocks| - 1], paths[..|blocks| - 1]);
    }
  }

  lemma {:induction false} CreditBounds(g: Graph, q: Query, levels: seq<seq<nat>>, above: seq<Block>, paths: seq<Path>)
    requires |above| == |paths|
    ensures var c := CreditBelow(g, q, levels, above, paths); c.useful <= c.own && c.unknown <= c.own
    decreases |levels|
  {
    hide Blocks, PathsOf, LevelCredit;
    if levels != [] && |levels[0]| % 4 == 0 {
      var blocks := Blocks(Entries(levels[0]), 0);
      var next := PathsOf(g, above, paths, blocks);
      LevelBounds(q, blocks, next);
      CreditBounds(g, q, levels[1..], blocks, next);
    }
  }

  /** Neither useful nor unknown weight exceeds the total of an accepted graph. */
  lemma {:induction false} QualityBounded(g: Graph, q: Query)
    requires Accepted(g)
    ensures GraphCredit(g, q).useful <= g.total && GraphCredit(g, q).unknown <= g.total
  {
    hide Blocks, LevelCredit, CreditBelow, LevelsValid;
    SelfWeightIsTotal(g, q);
    RootBlocks(g, g.levels[0]);
    var root := Blocks(Entries(g.levels[0]), 0);
    LevelBounds(q, root, [[]]);
    CreditBounds(g, q, g.levels[1..], root, [[]]);
  }

  // ----- parents are unique -----

  /** Blocks of one level lie side by side. */
  lemma {:induction false} BlocksApart(entries: seq<Entry>, right: nat, i: nat, j: nat)
    requires i < j < |entries|
    ensures right <= Blocks(entries, right)[i].left <= Blocks(entries, right)[i].right <= Blocks(entries, right)[j].left
    decreases i + j
  {
    var b := Placed(entries[0], right);
    var rest := Blocks(entries[1..], b.right);
    if i > 0 {
      BlocksApart(entries[1..], b.right, i - 1, j - 1);
    } else if j > 1 {
      BlocksApart(entries[1..], b.right, 0, j - 1);
    } else {
      BlocksNext(entries, right, 1);
    }
  }

  /** On a valid level each block lies inside exactly one block of the level above. */
  lemma {:induction false} UniqueParent(g: Graph, aboveEntries: seq<Entry>, entries: seq<Entry>, n: nat)
    requires LevelValid(g, Blocks(aboveEntries, 0), Blocks(entries, 0)) && n < |entries|
    ensures var above, b := Blocks(aboveEntries, 0), Blocks(entries, 0)[n];
            && ParentIndex(above, b.left) < |above|
            && forall i | 0 <= i < |above| :: Inside(b, above[i]) <==> i == ParentIndex(above, b.left)
  {
    hide Blocks, ParentIndex, ChildWeight;
    var above, b := Blocks(aboveEntries, 0), Blocks(entries, 0)[n];
    var p := ParentIndex(above, b.left);
    BlocksNext(entries, 0, n);
    assert HasParent(above, b) && BlockValid(g, b);
    forall i | 0 <= i < |above| && i != p
      ensures !Inside(b, above[i])
    {
      if p < i {
        BlocksApart(aboveEntries, 0, p, i);
      }
    }
  }

  // ----- the decoder -----

  lemma {:induction false} RootCredit(q: Query, root: seq<Block>)
    requires |root| == 1
    ensures LevelCredit(q, root, [[]]) == Earned(q, root[0].own, [])
  {
    hide Earned;
    var none: seq<Path> := [[]];
    assert root[..0] == [] && none[..0] == [];
    EarnedNothing(Earned(q, root[0].own, []));
  }

  lemma {:induction false} EarnedNothing(c: Credit)
    ensures NO_CREDIT.Plus(c) == c && c.Plus(NO_CREDIT) == c
  {}

  lemma {:induction false} CountNext(levels: seq<seq<nat>>, d: nat)
    requires d < |levels|
    ensures NodeCount(levels[d..]) == |levels[d]| / 4 + NodeCount(levels[d + 1..])
  {
    assert levels[d..][0] == levels[d] && levels[d..][1..] == levels[d + 1..];
  }

  lemma {:induction false} ValidNext(g: Graph, levels: seq<seq<nat>>, above: seq<Block>)
    requires levels != []
    ensures LevelsValid(g, levels, above) <==>
            && levels[0] != [] && |levels[0]| % 4 == 0 && LevelValid(g, above, Blocks(Entries(levels[0]), 0))
            && LevelsValid(g, levels[1..], Blocks(Entries(levels[0]), 0))
  {
    hide LevelValid, Blocks;
  }

  lemma {:induction false} CreditNext(g: Graph, q: Query, levels: seq<seq<nat>>, above: seq<Block>, paths: seq<Path>)
    requires |above| == |paths| && levels != [] && |levels[0]| % 4 == 0
    ensures var blocks := Blocks(Entries(levels[0]), 0); var next := PathsOf(g, above, paths, blocks);
            CreditBelow(g, q, levels, above, paths) == LevelCredit(q, blocks, next).Plus(CreditBelow(g, q, levels[1..], blocks, next))
  {
    hide PathsOf, Blocks, LevelCredit;
  }

  lemma {:induction false} EndsWith(g: Graph, q: Query, above: seq<Block>, paths: seq<Path>)
    requires |above| == |paths|
    ensures (LevelsValid(g, [], above) <==> LeavesWhole(above)) && CreditBelow(g, q, [], above, paths) == NO_CREDIT && NodeCount([]) == 0
  {}

  lemma {:induction false} TotalPositive(g: Graph)
    requires Accepted(g)
    ensures g.total > 0
  {
    hide LevelsValid, NodeCount;
  }

  /** All levels below the root, with a budget of entries; `credit` is what they earn. */
  method DecodeBelow(g: Graph, q: Query, levels: seq<seq<nat>>, above: seq<Block>, start: seq<Path>, already: nat)
    returns (ok: bool, credit: Credit)
    requires |above| == |start| && already <= MAX_NODES
    ensures ok <==> LevelsValid(g, levels, above) && already + NodeCount(levels) <= MAX_NODES
    ensures ok ==> credit == CreditBelow(g, q, levels, above, start)
  {
    hide Blocks, LevelCredit, CreditBelow, LevelsValid, NodeCount, LevelValid, PathsOf, LeavesWhole;
    var previous, paths, count, depth := above, start, already, 0;
    credit, ok := NO_CREDIT, false;
    assert levels[0..] == levels;
    EarnedNothing(CreditBelow(g, q, levels, above, start));
    while depth < |levels|
      invariant 0 <= depth <= |levels| && |paths| == |previous| && 0 <= count <= MAX_NODES
      invariant already + NodeCount(levels) == count + NodeCount(levels[depth..])
      invariant LevelsValid(g, levels, above) <==> LevelsValid(g, levels[depth..], previous)
      invariant CreditBelow(g, q, levels, above, start) == credit.Plus(CreditBelow(g, q, levels[depth..], previous, paths))
    {
      var values := levels[depth];
      ghost var rest := levels[depth..];
      assert rest[0] == values && rest[1..] == levels[depth + 1..];
      ValidNext(g, rest, previous);
      if values == [] || |values| % 4 != 0 {
        return;
      }
      CountNext(levels, depth);
      count := count + |values| / 4;
      if count > MAX_NODES {
        return;
      }
      var good, blocks, next, earned := DecodeLevel(g, q, previous, paths, Entries(values));
      if !good {
        return;
      }
      CreditNext(g, q, rest, previous, paths);
      credit := credit.Plus(earned);
      previous, paths, depth := blocks, next, depth + 1;
    }
    assert levels[depth..] == [];
    EndsWith(g, q, previous, paths);
    ok := LeavesWhole(previous);
  }

  // ----- the range of numbers -----

  predicate NumbersFit(values: seq<nat>) { forall i | 0 <= i < |values| :: values[i] <= MAX_NUMBER }

  lemma {:induction false} BlockFits(g: Graph, e: Entry, right: nat)
    requires ShapeValid(g) && BlockValid(g, Placed(e, right))
    ensures e.delta <= MAX_NUMBER && e.weight <= MAX_NUMBER && e.own <= MAX_NUMBER && e.name <= MAX_NUMBER
  {
    hide NodeCount;
  }

  lemma {:induction false} LevelFits(g: Graph, values: seq<nat>)
    requires ShapeValid(g) && |values| % 4 == 0
    requires forall i | 0 <= i < |values| / 4 :: BlockValid(g, Blocks(Entries(values), 0)[i])
    ensures NumbersFit(values)
  {
    hide Blocks, BlockValid, ShapeValid, Placed;
    forall i | 0 <= i < |values|
      ensures values[i] <= MAX_NUMBER
    {
      var n := i / 4;
      BlocksNext(Entries(values), 0, n);
      BlockFits(g, Entries(values)[n], if n == 0 then 0 else Blocks(Entries(values), 0)[n - 1].right);
    }
  }

  lemma {:induction false} LevelsFit(g: Graph, levels: seq<seq<nat>>, above: seq<Block>)
    requires ShapeValid(g) && LevelsValid(g, levels, above)
    ensures forall n | 0 <= n < |levels| :: NumbersFit(levels[n])
    decreases |levels|
  {
    hide Blocks, BlockValid, ShapeValid, NumbersFit, HasParent, Conserved, LeavesWhole;
    if levels != [] {
      LevelFits(g, levels[0]);
      LevelsFit(g, levels[1..], Blocks(Entries(levels[0]), 0));
      assert forall n | 0 < n < |levels| :: levels[n] == levels[1..][n - 1];
    }
  }

  /** Every number of an accepted graph is in range, so no further range check could refuse one. */
  lemma {:induction false} AcceptedNumbersFit(g: Graph)
    requires Accepted(g)
    ensures g.total <= MAX_NUMBER && forall n | 0 <= n < |g.levels| :: NumbersFit(g.levels[n])
  {
    hide BlockValid, NumbersFit, LevelsValid, NodeCount, Blocks;
    RootBlocks(g, g.levels[0]);
    LevelFits(g, g.levels[0]);
    LevelsFit(g, g.levels[1..], Blocks(Entries(g.levels[0]), 0));
    assert forall n | 0 < n < |g.levels| :: g.levels[n] == g.levels[1..][n - 1];
  }

  method StoredQuality(g: Graph, q: Query) returns (r: Option<Quality>)
    ensures r.Some? <==> Accepted(g)
    ensures r.Some? ==> var c := GraphCredit(g, q); r.value == Quality(g.total, c.useful, c.unknown)
  {
    hide Blocks, LevelCredit, CreditBelow, LevelsValid, NodeCount, BlockValid, PathsOf;
    r := None;
    if g.total > MAX_NUMBER || |g.names| == 0 || |g.names| > MAX_NODES || (exists i | 0 <= i < |g.names| :: |g.names[i]| > MAX_NAME)
       || |g.levels| == 0 || |g.levels| > MAX_LEVELS || !RootValid(g, g.levels[0]) {
      return;
    }
    RootBlocks(g, g.levels[0]);
    var root := [Placed(Entries(g.levels[0])[0], 0)];
    RootCredit(q, root);
    CountNext(g.levels, 0);
    assert g.levels[0..] == g.levels;
    var ok, below := DecodeBelow(g, q, g.levels[1..], root, [[]], 1);
    if !ok {
      return;
    }
    var credit := Earned(q, root[0].own, []).Plus(below);
    SelfWeightIsTotal(g, q);
    TotalPositive(g);
    r := if g.total == 0 || credit.own != g.total then None else Some(Quality(g.total, credit.useful, credit.unknown));
  }
}
