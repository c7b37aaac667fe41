/**
 The merkle path stored with a locally proved row (`branchToBumpHex` in `block-merkle.ts`): each
 branch entry gets the offset of the node it stands for, as BRC-74 asks, and the path is only
 kept when the SDK recomputes the expected root from it. The SDK is foreign code: a parameter.
 */
module BumpPath {
  import opened Hex
  import opened Numbers
  import opened Options
  import opened BlockMerkle

  datatype Leaf = Leaf(offset: int, hash: Option<string>, txid: bool, duplicate: bool)

  type Path = seq<seq<Leaf>>

  /** The constructor of a path may throw, and so may both of its methods: None. */
  datatype Sdk = Sdk(
    computeRoot: (int, Path, string) -> Option<string>, toHex: (int, Path) -> Option<string>,
    coinbaseHex: (string, int) -> string)

  // ---------- offsets ----------

  function ToInt32(n: int): int {
    var w := n % TWO_32;
    if w >= TWO_31 then w - TWO_32 else w
  }

  /** `n ^ 1` works on 32 signed bits. */
  function Xor1(n: int): int {
    var w := ToInt32(n);
    if w % 2 == 0 then w + 1 else w - 1
  }

  /** The bit trick finds the sibling exactly below 2^31. */
  lemma SiblingOffsetExact(position: nat)
    ensures Xor1(position) == SiblingIndex(position) <==> position < TWO_31
  {
  }

  /** Where the ancestor of a leaf stands, `depth` levels up. */
  function PositionAt(index: nat, depth: nat): (p: nat)
    ensures p <= index
  {
    if depth == 0 then index else PositionAt(index, depth - 1) / 2
  }

  lemma Scaled(a: nat, b: nat, d: nat)
    requires a <= b
    ensures d * a <= d * b
  {
  }

  lemma QuotientIs(n: nat, d: nat, q: nat, low: nat)
    requires d > 0 && low < d && n == d * q + low
    ensures n / d == q
  {
    var k := n / d;
    assert n == d * k + n % d;
    assert d * (k + 1) == d * k + d && d * (q + 1) == d * q + d;
    if k < q { Scaled(k + 1, q, d); }
    else if q < k { Scaled(q + 1, k, d); }
  }

  lemma HalfOfQuotient(n: nat, a: nat)
    requires a > 0
    ensures n / a / 2 == n / (2 * a)
  {
    var m := n / a;
    var q := m / 2;
    var low := (if m % 2 == 0 then 0 else a) + n % a;
    assert n == a * m + n % a;
    Doubled(a, m);
    QuotientIs(n, 2 * a, q, low);
  }

  lemma Doubled(a: nat, m: nat)
    ensures a * m == (2 * a) * (m / 2) + if m % 2 == 0 then 0 else a
  {
    var q := m / 2;
    if m % 2 == 0 { assert m == 2 * q; } else { assert m == 2 * q + 1; }
  }

  /** One division by 2^depth finds it. */
  lemma {:induction false} PositionIsQuotient(index: nat, depth: nat)
    ensures index / Pow2(depth) == PositionAt(index, depth)
  {
    if depth > 0 {
      PositionIsQuotient(index, depth - 1);
      HalfOfQuotient(index, Pow2(depth - 1));
    }
  }

  lemma {:induction false} PositionShifts(index: nat, depth: nat)
    ensures PositionAt(index, depth + 1) == PositionAt(index / 2, depth)
  {
    if depth > 0 { PositionShifts(index, depth - 1); }
  }

  // ---------- the path ----------

  function SiblingLeaf(position: nat, node: string): Leaf {
    if node == "*" then Leaf(Xor1(position), None, false, true) else Leaf(Xor1(position), Some(node), false, false)
  }

  function PathLevel(txid: string, index: nat, depth: nat, node: string): seq<Leaf> {
    var sibling := SiblingLeaf(PositionAt(index, depth), node);
    if depth > 0 then [sibling]
    else
      var self := Leaf(index, Some(Lower(txid)), true, false);
      if index % 2 == 0 then [self, sibling] else [sibling, self]
  }

  function PathOf(txid: string, index: nat, branch: seq<string>): (path: Path)
    ensures |path| == |branch|
    ensures forall d :: 0 <= d < |path| ==> path[d] == PathLevel(txid, index, d, branch[d])
  {
    seq(|branch|, d requires 0 <= d < |branch| => PathLevel(txid, index, d, branch[d]))
  }

  /** What is kept: the checked path, or nothing. A path of no levels is the coinbase's own. */
  function Kept(sdk: Sdk, height: int, txid: string, index: nat, branch: seq<string>,
                expectedRoot: string): Option<string>
  {
    if branch == [] then Some(sdk.coinbaseHex(Lower(txid), height))
    else
      var path := PathOf(txid, index, branch);
      if sdk.computeRoot(height, path, Lower(txid)) == Some(expectedRoot) then sdk.toHex(height, path) else None
  }

  method BranchToBumpHex(sdk: Sdk, height: int, txid: string, index: nat, branch: seq<string>, expectedRoot: string)
    returns (hex: Option<string>)
    ensures hex == Kept(sdk, height, txid, index, branch, expectedRoot)
  {
    var path: Path := [];
    for depth := 0 to |branch|
      invariant path == PathOf(txid, index, branch)[..depth]
    {
      PositionIsQuotient(index, depth);
      var node, offset := branch[depth], index / Pow2(depth);
      var sibling :=
        if node == "*" then Leaf(Xor1(offset), None, false, true) else Leaf(Xor1(offset), Some(node), false, false);
      if depth == 0 {
        var self := Leaf(index, Some(Lower(txid)), true, false);
        path := path + [if index % 2 == 0 then [self, sibling] else [sibling, self]];
      } else {
        path := path + [[sibling]];
      }
    }
    assert path == PathOf(txid, index, branch);
    if |path| == 0 { return Some(sdk.coinbaseHex(Lower(txid), height)); }
    if sdk.computeRoot(height, path, Lower(txid)) != Some(expectedRoot) { return None; }
    hex := sdk.toHex(height, path);
  }

  // ---------- reading it back ----------

  /** The first leaf of a level at an offset. */
  function FindLeaf(level: seq<Leaf>, offset: int): Option<Leaf> {
    if level == [] then None
    else if level[0].offset == offset then Some(level[0]) else FindLeaf(level[1..], offset)
  }

  /** A reader that only knows the index: at each height it asks for the sibling of its position. */
  function ReadBranch(path: Path, position: nat): Option<seq<string>>
    decreases |path|
  {
    if path == [] then Some([])
    else
      var leaf := FindLeaf(path[0], SiblingIndex(position));
      var rest := ReadBranch(path[1..], position / 2);
      if leaf.None? || rest.None? || (!leaf.value.duplicate && leaf.value.hash.None?) then None
      else Some([if leaf.value.duplicate then "*" else leaf.value.hash.value] + rest.value)
  }

  /** Reading from level `depth` on. */
  lemma {:induction false} ReadsFrom(txid: string, index: nat, branch: seq<string>, depth: nat)
    requires index < TWO_31 && depth <= |branch|
    ensures ReadBranch(PathOf(txid, index, branch)[depth..], PositionAt(index, depth)) == Some(branch[depth..])
    decreases |branch| - depth
  {
    var path := PathOf(txid, index, branch);
    if depth < |branch| {
      ReadsFrom(txid, index, branch, depth + 1);
      LevelReads(txid, index, depth, branch[depth]);
      var left, position := path[depth..], PositionAt(index, depth);
      assert left[1..] == path[depth + 1..];
      assert FindLeaf(left[0], SiblingIndex(position)) == Some(SiblingLeaf(position, branch[depth]));
      assert branch[depth..] == [branch[depth]] + branch[depth + 1..];
    } else {
      assert path[depth..] == [] && branch[depth..] == [];
    }
  }

  lemma LevelReads(txid: string, index: nat, depth: nat, node: string)
    requires index < TWO_31 && PositionAt(index, depth) < TWO_31
    ensures FindLeaf(PathLevel(txid, index, depth, node), SiblingIndex(PositionAt(index, depth)))
         == Some(SiblingLeaf(PositionAt(index, depth), node))
  {
    var position := PositionAt(index, depth);
    SiblingOffsetExact(position);
    assert depth == 0 ==> position == index && SiblingIndex(index) != index;
    var level := PathLevel(txid, index, depth, node);
    assert |level| == 2 ==> level[1..] == [level[1]];
  }

  /** The path carries its branch: a reader at the transaction's index gets back every entry, below 2^31 only. */
  lemma PathCarriesBranch(txid: string, index: nat, branch: seq<string>)
    ensures branch != [] ==> (ReadBranch(PathOf(txid, index, branch), index) == Some(branch) <==> index < TWO_31)
  {
    var path := PathOf(txid, index, branch);
    assert PositionAt(index, 0) == index;
    if index < TWO_31 {
      ReadsFrom(txid, index, branch, 0);
      assert path[0..] == path && branch[0..] == branch;
    } else if branch != [] {
      SiblingOffsetExact(index);
      var level := path[0];
      assert level[1..] == [level[1]] && level[1..][1..] == [];
      assert level[1].offset != SiblingIndex(index) && level[0].offset != SiblingIndex(index);
      assert FindLeaf(level[1..], SiblingIndex(index)) == None;
      assert FindLeaf(level, SiblingIndex(index)) == None;
    }
  }

  /** The first level is in order of increasing offset and marks the transaction at its index. */
  lemma FirstLevelOrdered(txid: string, index: nat, branch: seq<string>)
    requires branch != [] && index < TWO_31
    ensures var level := PathOf(txid, index, branch)[0];
      && |level| == 2 && level[0].offset < level[1].offset
      && level[index % 2] == Leaf(index, Some(Lower(txid)), true, false)
      && !level[1 - index % 2].txid
  {
    assert PositionAt(index, 0) == index;
  }

  // ---------- the path of a block ----------

  lemma {:induction false} BranchIsNodes(h: Hash, level: Level, index: nat, d: nat)
    requires level != [] && d < |Branch(h, level, index)|
    ensures d < |Levels(h, level)|
        && Branch(h, level, index)[d] == BranchNode(Levels(h, level)[d], PositionAt(index, d))
    decreases d
  {
    if d > 0 {
      BranchIsNodes(h, NextLevel(h, level), index / 2, d - 1);
      PositionShifts(index, d - 1);
    }
  }

  /**
   The path of transaction `i` of a block, read by its offsets alone, convinces the checker; and
   every entry is the tree's node at its offset, or a duplicate exactly where the level ends.
   */
  lemma BlockPathProves(h: Hash, txids: seq<string>, i: nat)
    requires ValidList(txids) && i < |txids| && i < TWO_31
    ensures var branch := Branch(h, Leaves(txids), i);
      var read := ReadBranch(PathOf(Clean(txids[i]), i, branch), i);
      read.Some? && TscRoot(h, Clean(txids[i]), i, read.value) == Some(RootText(h, txids))
    ensures forall d :: 0 <= d < |Branch(h, Leaves(txids), i)| ==> EntryFits(h, Leaves(txids), i, d)
  {
    var branch := Branch(h, Leaves(txids), i);
    PathCarriesBranch(Clean(txids[i]), i, branch);
    assert branch == [] ==> PathOf(Clean(txids[i]), i, branch) == [];
    BranchProvesInclusion(h, txids, i);
    forall d | 0 <= d < |branch| ensures EntryFits(h, Leaves(txids), i, d) { EntryFitsTree(h, Leaves(txids), i, d); }
  }

  ghost predicate EntryFits(h: Hash, leaves: Level, i: nat, d: nat)
    requires leaves != [] && d < |Branch(h, leaves, i)|
  {
    var leaf, levels := SiblingLeaf(PositionAt(i, d), Branch(h, leaves, i)[d]), Levels(h, leaves);
    && d < |levels|
    && (if leaf.duplicate then leaf.offset >= |levels[d]|
        else 0 <= leaf.offset < |levels[d]| && leaf.hash == Some(Text(levels[d][leaf.offset])))
  }

  lemma EntryFitsTree(h: Hash, leaves: Level, i: nat, d: nat)
    requires leaves != [] && d < |Branch(h, leaves, i)| && i < TWO_31
    ensures EntryFits(h, leaves, i, d)
  {
    BranchIsNodes(h, leaves, i, d);
    SiblingOffsetExact(PositionAt(i, d));
    var level, other := Levels(h, leaves)[d], SiblingIndex(PositionAt(i, d));
    if other < |level| { DigestTextReads(level[other]); }
  }

  /** A lone coinbase is kept without recomputing its root, as the one case the guard does not cover. */
  lemma OnlyCoinbaseIsUnchecked(sdk: Sdk, height: int, txid: string, index: nat, branch: seq<string>,
                                expectedRoot: string)
    requires Kept(sdk, height, txid, index, branch, expectedRoot).Some?
    ensures branch == [] || sdk.computeRoot(height, PathOf(txid, index, branch), Lower(txid)) == Some(expectedRoot)
  {
  }
}
