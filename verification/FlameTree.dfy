/**
  Level-encoding a tree of weighted frames: the encoding is accepted by the decoder, which credits
  each frame's self weight by the frame's own path in the tree.
 */
module FlameTree {
  import opened Flamegraph

  datatype Tree = Tree(name: nat, own: nat, kids: seq<Tree>)

  function ForestWeight(f: seq<Tree>): nat
  {
    if f == [] then 0 else ForestWeight(f[..|f| - 1]) + TreeWeight(f[|f| - 1])
  }

  function TreeWeight(t: Tree): nat { t.own + ForestWeight(t.kids) }

  /** Every frame has weight and a known name. */
  predicate ForestValid(f: seq<Tree>, names: nat)
  {
    f == [] || (ForestValid(f[..|f| - 1], names) && TreeValid(f[|f| - 1], names))
  }

  predicate TreeValid(t: Tree, names: nat) { 0 < TreeWeight(t) && t.name < names && ForestValid(t.kids, names) }

  function ForestSize(f: seq<Tree>): nat
  {
    if f == [] then 0 else ForestSize(f[..|f| - 1]) + TreeSize(f[|f| - 1])
  }

  function TreeSize(t: Tree): (n: nat) { 1 + ForestSize(t.kids) }

  // ----- what each frame earns -----

  function ForestCredit(g: Graph, q: Query, f: seq<Tree>, path: Path): Credit
  {
    if f == [] then NO_CREDIT
    else ForestCredit(g, q, f[..|f| - 1], path).Plus(TreeCredit(g, q, f[|f| - 1], Extended(g, path, f[|f| - 1].name)))
  }

  function TreeCredit(g: Graph, q: Query, t: Tree, path: Path): Credit
  {
    Earned(q, t.own, path).Plus(ForestCredit(g, q, t.kids, path))
  }

  function Extended(g: Graph, path: Path, name: nat): Path { if name < |g.names| then path + [g.names[name]] else [] }

  // ----- one level of trees, each at its place -----

  datatype Spot = Spot(left: nat, tree: Tree) {
    function Right(): nat { left + TreeWeight(tree) }
  }

  /** Kids lie packed at the left of their parent. */
  function Spread(f: seq<Tree>, left: nat): (r: seq<Spot>)
    ensures |r| == |f|
  {
    if f == [] then [] else Spread(f[..|f| - 1], left) + [Spot(left + ForestWeight(f[..|f| - 1]), f[|f| - 1])]
  }

  function KidsOf(spots: seq<Spot>): seq<Spot>
  {
    if spots == [] then []
    else KidsOf(spots[..|spots| - 1]) + Spread(spots[|spots| - 1].tree.kids, spots[|spots| - 1].left)
  }

  function Before(spots: seq<Spot>, i: nat): nat
    requires i < |spots|
  {
    if i == 0 then 0 else spots[i - 1].Right()
  }

  function EntryAt(spots: seq<Spot>, i: nat): Entry
    requires i < |spots|
  {
    var s, from := spots[i], Before(spots, i);
    Entry(if s.left < from then 0 else s.left - from, TreeWeight(s.tree), s.tree.own, s.tree.name)
  }

  function Flat(spots: seq<Spot>): (r: seq<nat>)
    ensures |r| == 4 * |spots|
  {
    seq(4 * |spots|, i requires 0 <= i < 4 * |spots| =>
      var e := EntryAt(spots, i / 4);
      if i % 4 == 0 then e.delta else if i % 4 == 1 then e.weight else if i % 4 == 2 then e.own else e.name)
  }

  function SpotsSize(spots: seq<Spot>): nat
  {
    if spots == [] then 0 else SpotsSize(spots[..|spots| - 1]) + TreeSize(spots[|spots| - 1].tree)
  }

  lemma {:induction false} SpotsAppend(a: seq<Spot>, b: seq<Spot>)
    ensures SpotsSize(a + b) == SpotsSize(a) + SpotsSize(b)
    decreases |b|
  {
    if b == [] {
      assert a + b == a;
    } else {
      SpotsAppend(a, b[..|b| - 1]);
      assert (a + b)[..|a + b| - 1] == a + b[..|b| - 1];
    }
  }

  lemma {:induction false} SpreadSize(f: seq<Tree>, left: nat)
    ensures SpotsSize(Spread(f, left)) == ForestSize(f)
  {
    if f != [] {
      SpreadSize(f[..|f| - 1], left);
      var s := Spread(f, left);
      assert s[..|s| - 1] == Spread(f[..|f| - 1], left);
    }
  }

  lemma {:induction false} KidsSize(spots: seq<Spot>)
    ensures SpotsSize(KidsOf(spots)) + |spots| == SpotsSize(spots)
    decreases |spots|
  {
    if spots != [] {
      var init, last := spots[..|spots| - 1], spots[|spots| - 1];
      KidsSize(init);
      SpreadSize(last.tree.kids, last.left);
      SpotsAppend(KidsOf(init), Spread(last.tree.kids, last.left));
    }
  }

  /** The levels of the graph, from these trees down. */
  ghost function Levels(spots: seq<Spot>): seq<seq<nat>>
    decreases SpotsSize(spots)
  {
    if spots == [] then [] else KidsSize(spots); [Flat(spots)] + Levels(KidsOf(spots))
  }

  /** The level encoding of a tree. */
  ghost function Encode(t: Tree, names: seq<string>): Graph { Graph(TreeWeight(t), names, Levels([Spot(0, t)])) }

  // ----- places -----

  ghost predicate Apart(spots: seq<Spot>, names: nat, total: nat)
  {
    && (forall i | 0 <= i < |spots| :: TreeValid(spots[i].tree, names) && spots[i].Right() <= total)
    && forall i | 0 < i < |spots| :: spots[i - 1].Right() <= spots[i].left
  }

  function BlockOf(s: Spot): Block { Block(s.left, s.Right(), TreeWeight(s.tree), s.tree.own, s.tree.name) }

  function BlocksOf(spots: seq<Spot>): (r: seq<Block>)
    ensures |r| == |spots|
  {
    seq(|spots|, i requires 0 <= i < |spots| => BlockOf(spots[i]))
  }

  lemma {:induction false} FlatEntries(spots: seq<Spot>)
    ensures |Flat(spots)| % 4 == 0 && |Entries(Flat(spots))| == |spots|
    ensures forall i | 0 <= i < |spots| :: Entries(Flat(spots))[i] == EntryAt(spots, i)
  {
    hide EntryAt;
    forall i | 0 <= i < |spots|
      ensures Entries(Flat(spots))[i] == EntryAt(spots, i)
    {
      Quarter(i);
    }
  }

  lemma {:induction false} Quarter(i: nat)
    ensures (4 * i) / 4 == i && (4 * i + 1) / 4 == i && (4 * i + 2) / 4 == i && (4 * i + 3) / 4 == i
    ensures (4 * i) % 4 == 0 && (4 * i + 1) % 4 == 1 && (4 * i + 2) % 4 == 2 && (4 * i + 3) % 4 == 3
  {}

  lemma {:induction false} BlockPlaced(spots: seq<Spot>, names: nat, total: nat, i: nat)
    requires Apart(spots, names, total) && i < |spots|
    ensures Blocks(Entries(Flat(spots)), 0)[i] == BlockOf(spots[i])
  {
    hide Flat, Entries, TreeValid, TreeWeight;
    FlatEntries(spots);
    BlocksNext(Entries(Flat(spots)), 0, i);
    if i > 0 {
      BlockPlaced(spots, names, total, i - 1);
    }
  }

  /** The decoder places the entries where the trees lie. */
  lemma {:induction false} Placement(spots: seq<Spot>, names: nat, total: nat)
    requires Apart(spots, names, total)
    ensures Blocks(Entries(Flat(spots)), 0) == BlocksOf(spots)
  {
    hide Flat, Entries, Blocks, Apart;
    FlatEntries(spots);
    forall i | 0 <= i < |spots|
      ensures Blocks(Entries(Flat(spots)), 0)[i] == BlockOf(spots[i])
    {
      BlockPlaced(spots, names, total, i);
    }
  }

  /** Kids of one parent, side by side within it. */
  lemma {:induction false} SpreadPlaces(f: seq<Tree>, left: nat, names: nat)
    requires ForestValid(f, names)
    ensures var s := Spread(f, left);
            && (forall i | 0 <= i < |f| :: s[i].tree == f[i] && TreeValid(f[i], names))
            && (forall i | 0 <= i < |f| :: left <= s[i].left && s[i].Right() <= left + ForestWeight(f))
            && (forall i | 0 < i < |f| :: s[i - 1].Right() <= s[i].left)
  {
    hide TreeValid;
    if f != [] {
      var init := f[..|f| - 1];
      SpreadPlaces(init, left, names);
      assert forall i | 0 <= i < |init| :: Spread(f, left)[i] == Spread(init, left)[i] && f[i] == init[i];
    }
  }

  lemma {:induction false} ApartInit(spots: seq<Spot>, names: nat, total: nat)
    requires Apart(spots, names, total) && spots != []
    ensures Apart(spots[..|spots| - 1], names, total)
  {
    hide TreeValid;
  }

  lemma {:induction false} ApartOrder(spots: seq<Spot>, names: nat, total: nat, i: nat, j: nat)
    requires Apart(spots, names, total) && i < j < |spots|
    ensures spots[i].Right() <= spots[j].left
    decreases j
  {
    hide TreeValid, TreeWeight;
    if i < j - 1 {
      ApartOrder(spots, names, total, i, j - 1);
    }
  }

  lemma {:induction false} KidsValid(t: Tree, names: nat)
    requires TreeValid(t, names)
    ensures ForestValid(t.kids, names) && TreeWeight(t) == t.own + ForestWeight(t.kids)
  {}

  /** The next level is side by side too, and ends no further right. */
  lemma {:induction false} KidsApart(spots: seq<Spot>, names: nat, total: nat)
    requires Apart(spots, names, total)
    ensures var k := KidsOf(spots);
            Apart(k, names, total) && forall i | 0 <= i < |k| :: spots != [] && k[i].Right() <= spots[|spots| - 1].Right()
    decreases |spots|
  {
    hide TreeValid, TreeWeight, ForestWeight;
    if spots != [] {
      var init, last := spots[..|spots| - 1], spots[|spots| - 1];
      ApartInit(spots, names, total);
      KidsApart(init, names, total);
      KidsValid(last.tree, names);
      SpreadPlaces(last.tree.kids, last.left, names);
      var a, b := KidsOf(init), Spread(last.tree.kids, last.left);
      assert init != [] ==> init[|init| - 1].Right() <= last.left;
      var k := a + b;
      assert forall i | 0 <= i < |k| :: k[i] == if i < |a| then a[i] else b[i - |a|];
    }
  }

  // ----- parents -----

  /** A kid's parent, in the decoder's sense, is the tree it hangs from. */
  lemma {:induction false} SpreadParent(spots: seq<Spot>, names: nat, total: nat, n: nat, i: nat)
    requires Apart(spots, names, total) && n < |spots| && i < |spots[n].tree.kids|
    ensures var c := BlockOf(Spread(spots[n].tree.kids, spots[n].left)[i]);
            && ParentIndex(BlocksOf(spots), c.left) == n && Inside(c, BlocksOf(spots)[n])
            && 0 < c.weight && c.own <= c.weight && c.name < names && c.right <= total
            && Spread(spots[n].tree.kids, spots[n].left)[i].tree == spots[n].tree.kids[i]
  {
    hide ForestWeight, ForestValid, Spread;
    var p := spots[n];
    KidsValid(p.tree, names);
    SpreadPlaces(p.tree.kids, p.left, names);
    var c := Spread(p.tree.kids, p.left)[i];
    assert TreeValid(c.tree, names);
    forall j | 0 <= j < n
      ensures BlocksOf(spots)[j].right <= c.left
    {
      ApartOrder(spots, names, total, j, n);
    }
    ParentIs(BlocksOf(spots), c.left, n);
  }

  lemma {:induction false} ChildWeightConcat(above: seq<Block>, a: seq<Block>, b: seq<Block>, i: nat)
    ensures ChildWeight(above, a + b, i) == ChildWeight(above, a, i) + ChildWeight(above, b, i)
    decreases |b|
  {
    hide ParentIndex;
    if b == [] {
      assert a + b == a;
    } else {
      ChildWeightConcat(above, a, b[..|b| - 1], i);
      assert (a + b)[..|a + b| - 1] == a + b[..|b| - 1];
    }
  }

  lemma {:induction false} BlocksConcat(a: seq<Spot>, b: seq<Spot>)
    ensures BlocksOf(a + b) == BlocksOf(a) + BlocksOf(b)
  {
    hide BlockOf;
  }

  lemma {:induction false} SpreadWeight(spots: seq<Spot>, names: nat, total: nat, n: nat, k: nat, i: nat)
    requires Apart(spots, names, total) && n < |spots| && k <= |spots[n].tree.kids|
    ensures ChildWeight(BlocksOf(spots), BlocksOf(Spread(spots[n].tree.kids, spots[n].left)[..k]), i) ==
            if i == n then ForestWeight(spots[n].tree.kids[..k]) else 0
    decreases k
  {
    hide Apart, ParentIndex, TreeWeight, BlockOf;
    var kids, s := spots[n].tree.kids, Spread(spots[n].tree.kids, spots[n].left);
    if k > 0 {
      SpreadWeight(spots, names, total, n, k - 1, i);
      SpreadParent(spots, names, total, n, k - 1);
      var all := BlocksOf(s[..k]);
      assert all[..k - 1] == BlocksOf(s[..k - 1]);
      assert kids[..k][..k - 1] == kids[..k - 1];
      WeightOfBlock(s[k - 1]);
    }
  }

  lemma {:induction false} WeightOfBlock(s: Spot)
    ensures BlockOf(s).weight == TreeWeight(s.tree) && BlockOf(s).left == s.left
  {}

  /** The kids of the first `n` trees, seen from the whole level above. */
  lemma {:induction false} KidsWeight(spots: seq<Spot>, names: nat, total: nat, n: nat, i: nat)
    requires Apart(spots, names, total) && n <= |spots|
    ensures ChildWeight(BlocksOf(spots), BlocksOf(KidsOf(spots[..n])), i) == if i < n then ForestWeight(spots[i].tree.kids) else 0
    decreases n
  {
    hide Apart, ParentIndex, ForestWeight, BlocksOf;
    if n == 0 {
      NoBlocks();
    } else {
      KidsWeight(spots, names, total, n - 1, i);
      var p := spots[n - 1];
      var s := Spread(p.tree.kids, p.left);
      assert spots[..n][..n - 1] == spots[..n - 1];
      BlocksConcat(KidsOf(spots[..n - 1]), s);
      ChildWeightConcat(BlocksOf(spots), BlocksOf(KidsOf(spots[..n - 1])), BlocksOf(s), i);
      SpreadWeight(spots, names, total, n - 1, |s|, i);
      assert s[..|s|] == s && p.tree.kids[..|s|] == p.tree.kids;
    }
  }

  lemma {:induction false} NoBlocks()
    ensures BlocksOf([]) == []
  {}

  ghost predicate Adopted(g: Graph, above: seq<Block>, b: Block) { BlockValid(g, b) && HasParent(above, b) }

  ghost predicate AllAdopted(g: Graph, above: seq<Block>, spots: seq<Spot>)
  {
    forall m | 0 <= m < |spots| :: Adopted(g, above, BlockOf(spots[m]))
  }

  lemma {:induction false} AdoptedConcat(g: Graph, above: seq<Block>, a: seq<Spot>, b: seq<Spot>)
    requires AllAdopted(g, above, a) && AllAdopted(g, above, b)
    ensures AllAdopted(g, above, a + b)
  {
    hide Adopted, BlockOf;
  }

  lemma {:induction false} KidsAdopted(g: Graph, spots: seq<Spot>, n: nat)
    requires Apart(spots, |g.names|, g.total) && n <= |spots|
    ensures AllAdopted(g, BlocksOf(spots), KidsOf(spots[..n]))
    decreases n
  {
    hide Apart, ParentIndex, BlocksOf, Spread, BlockOf;
    if n > 0 {
      KidsAdopted(g, spots, n - 1);
      var p := spots[n - 1];
      var s := Spread(p.tree.kids, p.left);
      assert spots[..n][..n - 1] == spots[..n - 1];
      forall i | 0 <= i < |s|
        ensures Adopted(g, BlocksOf(spots), BlockOf(s[i]))
      {
        SpreadParent(spots, |g.names|, g.total, n - 1, i);
      }
      AdoptedConcat(g, BlocksOf(spots), KidsOf(spots[..n - 1]), s);
    }
  }

  /** The kids are a valid level below their parents. */
  lemma {:induction false} KidsLevelValid(g: Graph, spots: seq<Spot>)
    requires Apart(spots, |g.names|, g.total)
    ensures LevelValid(g, BlocksOf(spots), BlocksOf(KidsOf(spots)))
  {
    hide ParentIndex, ChildWeight, KidsOf, ForestWeight;
    assert spots[..|spots|] == spots;
    KidsAdopted(g, spots, |spots|);
    forall i | 0 <= i < |spots|
      ensures BlocksOf(spots)[i].own + ChildWeight(BlocksOf(spots), BlocksOf(KidsOf(spots)), i) == BlocksOf(spots)[i].weight
    {
      KidsWeight(spots, |g.names|, g.total, |spots|, i);
    }
  }

  lemma {:induction false} NoKidsWhole(spots: seq<Spot>)
    requires KidsOf(spots) == []
    ensures LeavesWhole(BlocksOf(spots))
    decreases |spots|
  {
    if spots != [] {
      var last := spots[|spots| - 1];
      assert |KidsOf(spots)| == |KidsOf(spots[..|spots| - 1])| + |last.tree.kids|;
      assert BlocksOf(spots)[|spots| - 1].weight == last.tree.own + ForestWeight(last.tree.kids);
      NoKidsWhole(spots[..|spots| - 1]);
      assert forall i | 0 <= i < |spots| - 1 :: BlocksOf(spots)[i] == BlocksOf(spots[..|spots| - 1])[i];
    }
  }

  lemma {:induction false} LevelsAccepted(g: Graph, spots: seq<Spot>)
    requires Apart(spots, |g.names|, g.total)
    ensures LevelsValid(g, Levels(KidsOf(spots)), BlocksOf(spots))
    decreases SpotsSize(spots), 1
  {
    hide Apart, LevelValid, LeavesWhole, BlocksOf, Flat, Entries, Blocks, KidsOf;
    var k := KidsOf(spots);
    if k == [] {
      NoKidsWhole(spots);
    } else {
      KidsSize(spots);
      KidsApart(spots, |g.names|, g.total);
      KidsLevelValid(g, spots);
      Placement(k, |g.names|, g.total);
      var levels := Levels(k);
      assert levels[0] == Flat(k) && levels[1..] == Levels(KidsOf(k));
      assert spots != [];
      LevelsAccepted(g, k);
      ValidNext(g, levels, BlocksOf(spots));
    }
  }

  // ----- credit -----

  /** The paths of the kids of these trees. */
  function KidPaths(g: Graph, spots: seq<Spot>, paths: seq<Path>): (r: seq<Path>)
    requires |spots| == |paths|
    ensures |r| == |KidsOf(spots)|
  {
    if spots == [] then []
    else
      var n := |spots| - 1;
      KidPaths(g, spots[..n], paths[..n]) + SpreadPaths(g, spots[n].tree.kids, paths[n])
  }

  function SpreadPaths(g: Graph, f: seq<Tree>, path: Path): (r: seq<Path>)
    ensures |r| == |f|
  {
    seq(|f|, i requires 0 <= i < |f| => Extended(g, path, f[i].name))
  }

  /** What the frames strictly below these trees earn. */
  function SpotsBelow(g: Graph, q: Query, spots: seq<Spot>, paths: seq<Path>): Credit
    requires |spots| == |paths|
  {
    if spots == [] then NO_CREDIT
    else
      var n := |spots| - 1;
      SpotsBelow(g, q, spots[..n], paths[..n]).Plus(ForestCredit(g, q, spots[n].tree.kids, paths[n]))
  }

  lemma {:induction false} PathsAgree(g: Graph, spots: seq<Spot>, paths: seq<Path>, n: nat)
    requires Apart(spots, |g.names|, g.total) && |paths| == |spots| && n <= |spots|
    ensures var k := KidsOf(spots[..n]);
            PathsOf(g, BlocksOf(spots), paths, BlocksOf(k)) == KidPaths(g, spots[..n], paths[..n])
    decreases n
  {
    hide Apart, ParentIndex, BlocksOf, Spread, PathsOf;
    if n == 0 {
      NoBlocks();
    } else {
      PathsAgree(g, spots, paths, n - 1);
      var p := spots[n - 1];
      var a, s := KidsOf(spots[..n - 1]), Spread(p.tree.kids, p.left);
      assert spots[..n][..n - 1] == spots[..n - 1] && paths[..n][..n - 1] == paths[..n - 1];
      BlocksConcat(a, s);
      PathsConcat(g, BlocksOf(spots), paths, BlocksOf(a), BlocksOf(s));
      SegmentPaths(g, spots, paths, n - 1);
    }
  }

  lemma {:induction false} PathsConcat(g: Graph, above: seq<Block>, paths: seq<Path>, a: seq<Block>, b: seq<Block>)
    requires |paths| == |above|
    ensures PathsOf(g, above, paths, a + b) == PathsOf(g, above, paths, a) + PathsOf(g, above, paths, b)
  {
    hide ParentIndex;
  }

  lemma {:induction false} SegmentPaths(g: Graph, spots: seq<Spot>, paths: seq<Path>, n: nat)
    requires Apart(spots, |g.names|, g.total) && |paths| == |spots| && n < |spots|
    ensures PathsOf(g, BlocksOf(spots), paths, BlocksOf(Spread(spots[n].tree.kids, spots[n].left))) ==
            SpreadPaths(g, spots[n].tree.kids, paths[n])
  {
    hide Apart, ParentIndex, Spread;
    var kids, s := spots[n].tree.kids, Spread(spots[n].tree.kids, spots[n].left);
    forall i | 0 <= i < |kids|
      ensures PathsOf(g, BlocksOf(spots), paths, BlocksOf(s))[i] == SpreadPaths(g, kids, paths[n])[i]
    {
      SpreadParent(spots, |g.names|, g.total, n, i);
    }
  }

  lemma {:induction false} Interchange(a: Credit, b: Credit, c: Credit, d: Credit)
    ensures a.Plus(b).Plus(c.Plus(d)) == a.Plus(c).Plus(b.Plus(d))
  {}

  lemma {:induction false} Regroup(a: Credit, b: Credit, c: Credit)
    ensures a.Plus(b).Plus(c) == a.Plus(b.Plus(c))
  {}

  lemma {:induction false} LevelLast(q: Query, blocks: seq<Block>, paths: seq<Path>, b: Block, path: Path)
    requires |blocks| == |paths|
    ensures LevelCredit(q, blocks + [b], paths + [path]) == LevelCredit(q, blocks, paths).Plus(Earned(q, b.own, path))
  {
    hide Earned;
    var n := |blocks|;
    assert (blocks + [b])[..n] == blocks && (paths + [path])[..n] == paths;
  }

  lemma {:induction false} LevelConcat(q: Query, a: seq<Block>, b: seq<Block>, p: seq<Path>, r: seq<Path>)
    requires |a| == |p| && |b| == |r|
    ensures LevelCredit(q, a + b, p + r) == LevelCredit(q, a, p).Plus(LevelCredit(q, b, r))
    decreases |b|
  {
    hide LevelCredit, Earned, Credit.Plus;
    if b == [] {
      assert a + b == a && p + r == p;
      NoLevel(q);
      EarnedNothing(LevelCredit(q, a, p));
    } else {
      var n := |b| - 1;
      var b', r' := b[..n], r[..n];
      LevelConcat(q, a, b', p, r');
      assert b == b' + [b[n]] && r == r' + [r[n]];
      assert a + b == (a + b') + [b[n]] && p + r == (p + r') + [r[n]];
      LevelLast(q, a + b', p + r', b[n], r[n]);
      LevelLast(q, b', r', b[n], r[n]);
      Regroup(LevelCredit(q, a, p), LevelCredit(q, b', r'), Earned(q, b[n].own, r[n]));
    }
  }

  lemma {:induction false} BelowLast(g: Graph, q: Query, spots: seq<Spot>, paths: seq<Path>, s: Spot, path: Path)
    requires |spots| == |paths|
    ensures SpotsBelow(g, q, spots + [s], paths + [path]) == SpotsBelow(g, q, spots, paths).Plus(ForestCredit(g, q, s.tree.kids, path))
  {
    hide ForestCredit;
    var n := |spots|;
    assert (spots + [s])[..n] == spots && (paths + [path])[..n] == paths;
  }

  lemma {:induction false} BelowConcat(g: Graph, q: Query, a: seq<Spot>, b: seq<Spot>, p: seq<Path>, r: seq<Path>)
    requires |a| == |p| && |b| == |r|
    ensures SpotsBelow(g, q, a + b, p + r) == SpotsBelow(g, q, a, p).Plus(SpotsBelow(g, q, b, r))
    decreases |b|
  {
    hide ForestCredit, SpotsBelow, Credit.Plus;
    if b == [] {
      assert a + b == a && p + r == p;
      NoneBelow(g, q);
      EarnedNothing(SpotsBelow(g, q, a, p));
    } else {
      var n := |b| - 1;
      var b', r' := b[..n], r[..n];
      BelowConcat(g, q, a, b', p, r');
      assert b == b' + [b[n]] && r == r' + [r[n]];
      assert a + b == (a + b') + [b[n]] && p + r == (p + r') + [r[n]];
      BelowLast(g, q, a + b', p + r', b[n], r[n]);
      BelowLast(g, q, b', r', b[n], r[n]);
      Regroup(SpotsBelow(g, q, a, p), SpotsBelow(g, q, b', r'), ForestCredit(g, q, b[n].tree.kids, r[n]));
    }
  }

  lemma {:induction false} NoneBelow(g: Graph, q: Query)
    ensures SpotsBelow(g, q, [], []) == NO_CREDIT
  {}

  lemma {:induction false} SpreadLast(g: Graph, f: seq<Tree>, left: nat, path: Path) returns (s: Spot)
    requires f != []
    ensures var n := |f| - 1;
            && Spread(f, left) == Spread(f[..n], left) + [s] && s.tree == f[n]
            && BlocksOf(Spread(f, left)) == BlocksOf(Spread(f[..n], left)) + [BlockOf(s)]
            && SpreadPaths(g, f, path) == SpreadPaths(g, f[..n], path) + [Extended(g, path, f[n].name)]
  {
    hide TreeWeight, BlockOf, Extended;
    var n := |f| - 1;
    s := Spot(left + ForestWeight(f[..n]), f[n]);
    BlocksConcat(Spread(f[..n], left), [s]);
    assert BlocksOf([s]) == [BlockOf(s)];
  }

  /** A forest earns what its roots earn and what lies below them. */
  lemma {:induction false} ForestUnrolls(g: Graph, q: Query, f: seq<Tree>, left: nat, path: Path)
    ensures var s, p := Spread(f, left), SpreadPaths(g, f, path);
            ForestCredit(g, q, f, path) == LevelCredit(q, BlocksOf(s), p).Plus(SpotsBelow(g, q, s, p))
  {
    hide Earned, Extended, TreeWeight, LevelCredit, SpotsBelow, Spread, SpreadPaths, BlocksOf, BlockOf, Credit.Plus;
    if f == [] {
      NoneSpread(g, q, left, path);
      EarnedNothing(NO_CREDIT);
    } else {
      var n := |f| - 1;
      ForestUnrolls(g, q, f[..n], left, path);
      var s := SpreadLast(g, f, left, path);
      var init, paths := Spread(f[..n], left), SpreadPaths(g, f[..n], path);
      var own := Extended(g, path, f[n].name);
      LevelLast(q, BlocksOf(init), paths, BlockOf(s), own);
      BelowLast(g, q, init, paths, s, own);
      OwnOfBlock(s);
      Interchange(LevelCredit(q, BlocksOf(init), paths), SpotsBelow(g, q, init, paths), Earned(q, f[n].own, own),
                  ForestCredit(g, q, f[n].kids, own));
    }
  }

  lemma {:induction false} NoneSpread(g: Graph, q: Query, left: nat, path: Path)
    ensures Spread([], left) == [] && SpreadPaths(g, [], path) == [] && BlocksOf([]) == []
    ensures LevelCredit(q, [], []) == NO_CREDIT && SpotsBelow(g, q, [], []) == NO_CREDIT && ForestCredit(g, q, [], path) == NO_CREDIT
  {}

  lemma {:induction false} OwnOfBlock(s: Spot)
    ensures BlockOf(s).own == s.tree.own
  {}

  lemma {:induction false} Unroll(g: Graph, q: Query, spots: seq<Spot>, paths: seq<Path>)
    requires |spots| == |paths|
    ensures var k, p := KidsOf(spots), KidPaths(g, spots, paths);
            SpotsBelow(g, q, spots, paths) == LevelCredit(q, BlocksOf(k), p).Plus(SpotsBelow(g, q, k, p))
    decreases |spots|
  {
    hide ForestCredit, BlocksOf, LevelCredit, Spread, SpreadPaths, SpotsBelow, KidsOf, KidPaths, Credit.Plus;
    if spots == [] {
      NoBlocks();
      NoLevel(q);
      NoneBelow(g, q);
      NoKids(g);
      EarnedNothing(NO_CREDIT);
    } else {
      KidsLast(g, spots, paths);
      BelowUnfolds(g, q, spots, paths);
      var n := |spots| - 1;
      var kids, left := spots[n].tree.kids, spots[n].left;
      Unroll(g, q, spots[..n], paths[..n]);
      ForestUnrolls(g, q, kids, left, paths[n]);
      var a, s := KidsOf(spots[..n]), Spread(kids, left);
      var p, r := KidPaths(g, spots[..n], paths[..n]), SpreadPaths(g, kids, paths[n]);
      BlocksConcat(a, s);
      LevelConcat(q, BlocksOf(a), BlocksOf(s), p, r);
      BelowConcat(g, q, a, s, p, r);
      Interchange(LevelCredit(q, BlocksOf(a), p), SpotsBelow(g, q, a, p), LevelCredit(q, BlocksOf(s), r), SpotsBelow(g, q, s, r));
    }
  }

  lemma {:induction false} NoKids(g: Graph)
    ensures KidsOf([]) == [] && KidPaths(g, [], []) == []
  {}

  lemma {:induction false} KidsLast(g: Graph, spots: seq<Spot>, paths: seq<Path>)
    requires |spots| == |paths| && spots != []
    ensures var n := |spots| - 1;
            && KidsOf(spots) == KidsOf(spots[..n]) + Spread(spots[n].tree.kids, spots[n].left)
            && KidPaths(g, spots, paths) == KidPaths(g, spots[..n], paths[..n]) + SpreadPaths(g, spots[n].tree.kids, paths[n])
  {
    hide Spread, SpreadPaths;
  }

  lemma {:induction false} BelowUnfolds(g: Graph, q: Query, spots: seq<Spot>, paths: seq<Path>)
    requires |spots| == |paths| && spots != []
    ensures var n := |spots| - 1;
            SpotsBelow(g, q, spots, paths) == SpotsBelow(g, q, spots[..n], paths[..n]).Plus(ForestCredit(g, q, spots[n].tree.kids, paths[n]))
  {
    hide ForestCredit;
  }

  lemma {:induction false} NoLevel(q: Query)
    ensures LevelCredit(q, [], []) == NO_CREDIT
  {}

  /** The decoder credits everything below a level as the trees do. */
  lemma {:induction false} LevelsCredited(g: Graph, q: Query, spots: seq<Spot>, paths: seq<Path>)
    requires Apart(spots, |g.names|, g.total) && |paths| == |spots|
    ensures CreditBelow(g, q, Levels(KidsOf(spots)), BlocksOf(spots), paths) == SpotsBelow(g, q, spots, paths)
    decreases SpotsSize(spots)
  {
    hide Apart, BlocksOf, Flat, Entries, Blocks, KidsOf, SpotsBelow, LevelCredit, PathsOf, KidPaths, CreditBelow, Credit.Plus;
    var k, p := KidsOf(spots), KidPaths(g, spots, paths);
    Unroll(g, q, spots, paths);
    EarnedNothing(NO_CREDIT);
    if k == [] {
      NothingBelow(g, q, spots, paths);
    } else {
      assert spots != [] by { SomeSpots(spots); }
      KidsSize(spots);
      KidsApart(spots, |g.names|, g.total);
      Placement(k, |g.names|, g.total);
      var levels := Levels(k);
      assert levels[0] == Flat(k) && levels[1..] == Levels(KidsOf(k));
      assert spots[..|spots|] == spots && paths[..|spots|] == paths;
      PathsAgree(g, spots, paths, |spots|);
      FlatEntries(k);
      CreditNext(g, q, levels, BlocksOf(spots), paths);
      LevelsCredited(g, q, k, p);
    }
  }

  lemma {:induction false} SomeSpots(spots: seq<Spot>)
    requires KidsOf(spots) != []
    ensures spots != []
  {}

  lemma {:induction false} NothingBelow(g: Graph, q: Query, spots: seq<Spot>, paths: seq<Path>)
    requires |paths| == |spots| && KidsOf(spots) == []
    ensures CreditBelow(g, q, Levels(KidsOf(spots)), BlocksOf(spots), paths) == NO_CREDIT
    ensures SpotsBelow(g, q, KidsOf(spots), KidPaths(g, spots, paths)) == NO_CREDIT
    ensures LevelCredit(q, BlocksOf(KidsOf(spots)), KidPaths(g, spots, paths)) == NO_CREDIT
  {}

  // ----- the encoding -----

  ghost function Depth(t: Tree): nat { |Levels([Spot(0, t)])| }

  lemma {:induction false} CountLevels(spots: seq<Spot>)
    ensures NodeCount(Levels(spots)) == SpotsSize(spots)
    decreases SpotsSize(spots)
  {
    hide KidsOf, Flat, SpotsSize;
    if spots != [] {
      KidsSize(spots);
      CountLevels(KidsOf(spots));
      var levels := Levels(spots);
      assert levels[0] == Flat(spots) && levels[1..] == Levels(KidsOf(spots));
    } else {
      assert SpotsSize([]) == 0 by { NoSpots(); }
    }
  }

  lemma {:induction false} NoSpots()
    ensures SpotsSize([]) == 0
  {}

  /** The decoder's budgets, for a tree: frames, depth, names and the weight that a number can hold. */
  ghost predicate WithinBudgets(t: Tree, names: seq<string>)
  {
    && TreeWeight(t) <= MAX_NUMBER && TreeSize(t) <= MAX_NODES && Depth(t) <= MAX_LEVELS
    && |names| <= MAX_NODES && forall i | 0 <= i < |names| :: |names[i]| <= MAX_NAME
  }

  /**
    A tree of frames with positive weights is accepted in its level encoding exactly if it is within
    the decoder's budgets, and then the decoder's useful and unknown weights are those of the tree.
   */
  lemma {:induction false} EncodingAccepted(t: Tree, names: seq<string>, q: Query)
    requires TreeValid(t, |names|)
    ensures Accepted(Encode(t, names)) <==> WithinBudgets(t, names)
    ensures Accepted(Encode(t, names)) ==> GraphCredit(Encode(t, names), q) == TreeCredit(Encode(t, names), q, t, [])
  {
    hide KidsOf, LevelsValid, CreditBelow, NodeCount, ForestCredit, Earned;
    var spots := [Spot(0, t)];
    var g := Encode(t, names);
    RootSpot(t, |names|);
    Placement(spots, |names|, g.total);
    var levels := Levels(spots);
    assert levels[0] == Flat(spots) && levels[1..] == Levels(KidsOf(spots));
    CountLevels(spots);
    FlatEntries(spots);
    LevelsAccepted(g, spots);
    LevelsCredited(g, q, spots, [[]]);
    OneSpot(g, q, t);
    RootCredit(q, BlocksOf(spots));
  }

  lemma {:induction false} RootSpot(t: Tree, names: nat)
    requires TreeValid(t, names)
    ensures Apart([Spot(0, t)], names, TreeWeight(t)) && SpotsSize([Spot(0, t)]) == TreeSize(t)
    ensures Flat([Spot(0, t)])[0] == 0 && Flat([Spot(0, t)])[1] == TreeWeight(t)
    ensures EntryAt([Spot(0, t)], 0) == Entry(0, TreeWeight(t), t.own, t.name) && t.own <= TreeWeight(t)
  {
    assert [Spot(0, t)][..0] == [];
  }

  lemma {:induction false} OneSpot(g: Graph, q: Query, t: Tree)
    ensures SpotsBelow(g, q, [Spot(0, t)], [[]]) == ForestCredit(g, q, t.kids, [])
  {
    hide ForestCredit;
    assert [Spot(0, t)][..0] == [];
  }
}
