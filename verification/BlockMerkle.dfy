/**
 Block merkle trees (`block-merkle.ts`) and the independent TSC branch checker
 (`confirmation-poller.ts`).

 The double hash is foreign code, so it is a parameter: any function from byte lists to
 32-byte digests. Results that rely on the hash being binding name the collision that would
 have to exist, among the byte strings the two computations themselves hashed. (That some
 collision exists somewhere is true of every fixed-width hash and would say nothing.)
 */
module BlockMerkle {
  import opened Hex
  import opened Options

  type Level = seq<Digest>

  type Hash = Bytes -> Digest

  // ---------- the tree, as functions ----------

  function Cat(a: Bytes, b: Bytes): Bytes { a + b }

  /** The two children of node `i` of the next level; an odd level pairs its last node with itself. */
  function PairAt(level: Level, i: nat): Bytes
    requires 2 * i < |level|
  {
    Cat(level[2 * i], if 2 * i + 1 < |level| then level[2 * i + 1] else level[2 * i])
  }

  function NextLevel(h: Hash, level: Level): (next: Level)
    ensures |next| == (|level| + 1) / 2
    ensures forall i :: 0 <= i < |next| ==> next[i] == h(PairAt(level, i))
  {
    seq<Digest>((|level| + 1) / 2, i requires 0 <= i < (|level| + 1) / 2 => h(PairAt(level, i)))
  }

  function Levels(h: Hash, level: Level): (levels: seq<Level>)
    requires level != []
    ensures levels != [] && levels[0] == level
    decreases |level|
  {
    if |level| == 1 then [level] else [level] + Levels(h, NextLevel(h, level))
  }

  function TreeRoot(h: Hash, level: Level): Digest
    requires level != []
    decreases |level|
  {
    if |level| == 1 then level[0] else TreeRoot(h, NextLevel(h, level))
  }

  function Depth(n: nat): nat
    requires n > 0
  {
    if n == 1 then 0 else 1 + Depth((n + 1) / 2)
  }

  function SiblingIndex(position: nat): nat {
    if position % 2 == 0 then position + 1 else position - 1
  }

  /** One entry of a branch: the sibling's text, or `*` where the node is its own sibling. */
  function BranchNode(level: Level, position: nat): string {
    if SiblingIndex(position) >= |level| then "*" else Text(level[SiblingIndex(position)])
  }

  function Branch(h: Hash, level: Level, position: nat): seq<string>
    requires level != []
    decreases |level|
  {
    if |level| == 1 then []
    else [BranchNode(level, position)] + Branch(h, NextLevel(h, level), position / 2)
  }

  // ---------- the checker, as functions ----------

  function Sibling(working: Bytes, node: string): Bytes {
    if node == "*" then working else LeBytes(Lower(node))
  }

  function Joined(working: Bytes, position: nat, node: string): Bytes {
    if position % 2 == 0 then working + Sibling(working, node) else Sibling(working, node) + working
  }

  /** Replays a branch; None where a node or the working value is not 32 bytes long. */
  function Walk(h: Hash, working: Bytes, position: nat, nodes: seq<string>): Option<Bytes>
    decreases |nodes|
  {
    if nodes == [] then Some(working)
    else if |Sibling(working, nodes[0])| != 32 || |working| != 32 then None
    else Walk(h, h(Joined(working, position, nodes[0])), position / 2, nodes[1..])
  }

  function TscRoot(h: Hash, txid: string, index: int, nodes: seq<string>): Option<string> {
    if index < 0 then None
    else
      var r := Walk(h, LeBytes(Lower(txid)), index, nodes);
      if r.None? then None else Some(Text(r.value))
  }

  /** `txid` is proved into `root`: some branch leads from one to the other. */
  ghost predicate Included(h: Hash, txid: string, root: string) {
    exists index: nat, nodes: seq<string> :: TscRoot(h, txid, index, nodes) == Some(root)
  }

  // ---------- what the prover builds, the checker accepts ----------

  /** A text of real bytes is its own lower case and reads back as those bytes. */
  lemma DigestTextReads(d: Digest)
    ensures LeBytes(Lower(Text(d))) == d && Text(d) != "*" && IsHashText(Text(d))
  {
    TextRoundTrip(d);
    LowerKeepsHex(Text(d));
  }

  /** Replaying one step of the node's own branch hashes exactly the tree's pair. */
  lemma BranchStep(level: Level, position: nat)
    requires |level| > 1 && position < |level|
    ensures |Sibling(level[position], BranchNode(level, position))| == 32
    ensures Joined(level[position], position, BranchNode(level, position)) == PairAt(level, position / 2)
  {
    var half, other := position / 2, SiblingIndex(position);
    if other < |level| { DigestTextReads(level[other]); }
    if position % 2 == 0 {
      assert 2 * half == position;
      assert Sibling(level[position], BranchNode(level, position))
          == if 2 * half + 1 < |level| then level[2 * half + 1] else level[2 * half];
    } else {
      assert 2 * half + 1 == position && other == 2 * half;
      assert Sibling(level[position], BranchNode(level, position)) == level[2 * half];
    }
  }

  lemma {:induction false} BranchReplays(h: Hash, level: Level, position: nat)
    requires level != [] && position < |level|
    ensures |Branch(h, level, position)| == Depth(|level|)
    ensures Walk(h, level[position], position, Branch(h, level, position)) == Some(TreeRoot(h, level))
    decreases |level|
  {
    if |level| > 1 {
      var next := NextLevel(h, level);
      BranchStep(level, position);
      BranchReplays(h, next, position / 2);
      assert Branch(h, level, position)[1..] == Branch(h, next, position / 2);
    }
  }

  // ---------- binding: the root commits to the list, and to each position ----------

  /** Every byte string hashed while computing the root of `level`. */
  ghost function Hashed(h: Hash, level: Level): set<Bytes>
    requires level != []
    decreases |level|
  {
    if |level| == 1 then {}
    else (set i | 0 <= i < (|level| + 1) / 2 :: PairAt(level, i)) + Hashed(h, NextLevel(h, level))
  }

  /** Every byte string hashed while replaying a branch. */
  ghost function WalkHashed(h: Hash, working: Bytes, position: nat, nodes: seq<string>): set<Bytes>
    decreases |nodes|
  {
    if nodes == [] || |Sibling(working, nodes[0])| != 32 || |working| != 32 then {}
    else
      var joined := Joined(working, position, nodes[0]);
      {joined} + WalkHashed(h, h(joined), position / 2, nodes[1..])
  }

  /** Two different strings, one from each set, with the same hash. */
  ghost predicate CollisionBetween(h: Hash, a: set<Bytes>, b: set<Bytes>) {
    exists x, y :: x in a && y in b && x != y && h(x) == h(y)
  }

  lemma EqualPairsEqualLevels(a: Level, b: Level)
    requires |a| == |b|
    requires forall i :: 0 <= i < (|a| + 1) / 2 ==> PairAt(a, i) == PairAt(b, i)
    ensures a == b
  {
    forall k | 0 <= k < |a| ensures a[k] == b[k] {
      var p, q := PairAt(a, k / 2), PairAt(b, k / 2);
      assert p[..32] == a[k / 2 * 2] && q[..32] == b[k / 2 * 2];
      if k % 2 == 1 {
        assert p[32..] == a[k] && q[32..] == b[k];
      }
    }
  }

  lemma CollisionGrows(h: Hash, a: set<Bytes>, b: set<Bytes>, a': set<Bytes>, b': set<Bytes>)
    requires CollisionBetween(h, a, b) && a <= a' && b <= b'
    ensures CollisionBetween(h, a', b')
  {
    var x, y :| x in a && y in b && x != y && h(x) == h(y);
    assert x in a' && y in b';
  }

  lemma {:induction false} RootBindsLeaves(h: Hash, a: Level, b: Level)
    requires a != [] && |a| == |b|
    requires TreeRoot(h, a) == TreeRoot(h, b)
    ensures a == b || CollisionBetween(h, Hashed(h, a), Hashed(h, b))
    decreases |a|
  {
    if |a| > 1 {
      var na, nb := NextLevel(h, a), NextLevel(h, b);
      RootBindsLeaves(h, na, nb);
      if CollisionBetween(h, Hashed(h, na), Hashed(h, nb)) {
        CollisionGrows(h, Hashed(h, na), Hashed(h, nb), Hashed(h, a), Hashed(h, b));
      } else if a != b {
        if forall i :: 0 <= i < (|a| + 1) / 2 ==> PairAt(a, i) == PairAt(b, i) {
          EqualPairsEqualLevels(a, b);
        }
        var i :| 0 <= i < (|a| + 1) / 2 && PairAt(a, i) != PairAt(b, i);
        assert na[i] == nb[i];
        assert PairAt(a, i) in Hashed(h, a) && PairAt(b, i) in Hashed(h, b);
      }
    }
  }

  /** The half of a joined 64-byte string that holds the working value. */
  lemma JoinedHolds(level: Level, position: nat, working: Bytes, node: string)
    requires |level| > 1 && position < |level|
    requires |working| == 32 && |Sibling(working, node)| == 32
    requires Joined(working, position, node) == PairAt(level, position / 2)
    ensures working == level[position]
  {
    var pair := PairAt(level, position / 2);
    var joined := Joined(working, position, node);
    if position % 2 == 0 {
      assert joined[..32] == working && pair[..32] == level[position];
    } else {
      assert joined[32..] == working && pair[32..] == level[position];
    }
  }

  /** One level of the binding argument: the parents agree, so the children do or the pair collides. */
  lemma BindStep(h: Hash, level: Level, position: nat, working: Bytes, node: string,
                 mine: set<Bytes>, theirs: set<Bytes>)
    requires |level| > 1 && position < |level|
    requires |working| == 32 && |Sibling(working, node)| == 32
    requires h(Joined(working, position, node)) == h(PairAt(level, position / 2))
    requires Joined(working, position, node) in mine && PairAt(level, position / 2) in theirs
    ensures working == level[position] || CollisionBetween(h, mine, theirs)
  {
    if Joined(working, position, node) == PairAt(level, position / 2) {
      JoinedHolds(level, position, working, node);
    }
  }

  lemma HashedHasPair(h: Hash, level: Level, i: nat)
    requires |level| > 1 && i < (|level| + 1) / 2
    ensures PairAt(level, i) in Hashed(h, level)
    ensures Hashed(h, NextLevel(h, level)) <= Hashed(h, level)
  {
  }

  lemma {:induction false} RootBindsBranch(
      h: Hash, level: Level, position: nat, working: Bytes, nodes: seq<string>)
    requires level != [] && position < |level|
    requires |nodes| == Depth(|level|)
    requires Walk(h, working, position, nodes) == Some(TreeRoot(h, level))
    ensures working == level[position]
            || CollisionBetween(h, WalkHashed(h, working, position, nodes), Hashed(h, level))
    decreases |level|
  {
    if |level| > 1 {
      var next := NextLevel(h, level);
      var joined := Joined(working, position, nodes[0]);
      RootBindsBranch(h, next, position / 2, h(joined), nodes[1..]);
      var mine, theirs := WalkHashed(h, working, position, nodes), Hashed(h, level);
      assert mine == {joined} + WalkHashed(h, h(joined), position / 2, nodes[1..]);
      HashedHasPair(h, level, position / 2);
      if h(joined) == next[position / 2] {
        BindStep(h, level, position, working, nodes[0], mine, theirs);
      } else {
        CollisionGrows(h, WalkHashed(h, h(joined), position / 2, nodes[1..]), Hashed(h, next), mine, theirs);
      }
    }
  }

  // ---------- the same, with malformed nodes ----------

  /** A byte of any answer `parseInt` can give, as an array of bytes keeps it: NaN is 0, the rest modulo 256. */
  function CoercedByte(b: Num): Num {
    if b == NAN then 0 else b % 256
  }

  function Coerced(bs: Bytes): (r: Bytes)
    ensures |r| == |bs| && AllBytes(r)
    ensures AllBytes(bs) ==> r == bs
  {
    seq(|bs|, i requires 0 <= i < |bs| => CoercedByte(bs[i]))
  }

  /** The hash reads its input through bytes, so it cannot tell a malformed one from what that becomes. */
  ghost predicate ReadsBytes(h: Hash) { forall bs: Bytes :: h(bs) == h(Coerced(bs)) }

  /** Two different strings of real bytes, one from each set, with the same hash. */
  ghost predicate ByteCollision(h: Hash, a: set<Bytes>, b: set<Bytes>) {
    exists x, y :: x in a && y in b && x != y && AllBytes(x) && AllBytes(y) && h(x) == h(y)
  }

  lemma {:induction false} HashedIsBytes(h: Hash, level: Level)
    requires level != []
    ensures forall b :: b in Hashed(h, level) ==> AllBytes(b)
    decreases |level|
  {
    if |level| > 1 { HashedIsBytes(h, NextLevel(h, level)); }
  }

  ghost predicate RealNodes(nodes: seq<string>) {
    forall k :: 0 <= k < |nodes| ==> nodes[k] == "*" || AllBytes(LeBytes(Lower(nodes[k])))
  }

  lemma {:induction false} WalkHashedIsBytes(h: Hash, working: Bytes, position: nat, nodes: seq<string>)
    requires AllBytes(working) && RealNodes(nodes)
    ensures forall b :: b in WalkHashed(h, working, position, nodes) ==> AllBytes(b)
    decreases |nodes|
  {
    if nodes != [] && |Sibling(working, nodes[0])| == 32 && |working| == 32 {
      WalkHashedIsBytes(h, h(Joined(working, position, nodes[0])), position / 2, nodes[1..]);
    }
  }

  /** From real bytes and real nodes the collision is between strings of real bytes. */
  lemma RootBindsRealBranch(h: Hash, level: Level, position: nat, working: Bytes, nodes: seq<string>)
    requires level != [] && position < |level| && |nodes| == Depth(|level|)
    requires AllBytes(working) && RealNodes(nodes)
    requires Walk(h, working, position, nodes) == Some(TreeRoot(h, level))
    ensures working == level[position]
            || ByteCollision(h, WalkHashed(h, working, position, nodes), Hashed(h, level))
  {
    RootBindsBranch(h, level, position, working, nodes);
    HashedIsBytes(h, level);
    WalkHashedIsBytes(h, working, position, nodes);
  }

  /** The nodes spelled as the bytes they are read as. */
  function CoercedNodes(nodes: seq<string>): (r: seq<string>)
    ensures |r| == |nodes|
    ensures forall k :: 0 <= k < |nodes| ==>
      r[k] == if nodes[k] == "*" then "*" else Text(Coerced(LeBytes(Lower(nodes[k]))))
  {
    seq(|nodes|, k requires 0 <= k < |nodes| =>
      if nodes[k] == "*" then "*" else Text(Coerced(LeBytes(Lower(nodes[k])))))
  }

  lemma CoercedNode(node: string)
    requires node != "*"
    ensures var bs := Coerced(LeBytes(Lower(node)));
      LeBytes(Lower(Text(bs))) == bs && Text(bs) != "*"
  {
    var bs := Coerced(LeBytes(Lower(node)));
    TextRoundTrip(bs);
    LowerKeepsHex(Text(bs));
  }

  lemma CoercedNodesAreReal(nodes: seq<string>)
    ensures RealNodes(CoercedNodes(nodes))
  {
    forall k | 0 <= k < |nodes| && nodes[k] != "*"
      ensures AllBytes(LeBytes(Lower(CoercedNodes(nodes)[k])))
    {
      CoercedNode(nodes[k]);
    }
  }

  lemma CoercedJoin(a: Bytes, b: Bytes)
    ensures Coerced(a + b) == Coerced(a) + Coerced(b)
  {
  }

  /** One step hashes the same bytes whether or not the node was malformed. */
  lemma CoercedStep(working: Bytes, position: nat, node: string, node': string)
    requires node' == if node == "*" then "*" else Text(Coerced(LeBytes(Lower(node))))
    ensures |Sibling(Coerced(working), node')| == |Sibling(working, node)|
    ensures Joined(Coerced(working), position, node') == Coerced(Joined(working, position, node))
  {
    var sibling := Sibling(working, node);
    assert Sibling(Coerced(working), node') == Coerced(sibling) by { if node != "*" { CoercedNode(node); } }
    CoercedJoin(working, sibling);
    CoercedJoin(sibling, working);
  }

  lemma {:induction false} CoercedWalk(h: Hash, working: Bytes, position: nat, nodes: seq<string>)
    requires ReadsBytes(h) && nodes != []
    ensures Walk(h, Coerced(working), position, CoercedNodes(nodes)) == Walk(h, working, position, nodes)
    decreases |nodes|
  {
    var nodes' := CoercedNodes(nodes);
    CoercedStep(working, position, nodes[0], nodes'[0]);
    if |Sibling(working, nodes[0])| == 32 && |working| == 32 {
      var joined := Joined(working, position, nodes[0]);
      assert h(joined) == h(Coerced(joined));
      assert nodes'[1..] == CoercedNodes(nodes[1..]);
      if |nodes| > 1 {
        CoercedWalk(h, h(joined), position / 2, nodes[1..]);
        assert Coerced(h(joined)) == h(joined);
      }
    }
  }

  /**
   Whatever text the nodes hold: with a hash that reads bytes, the working value is the leaf once
   both are bytes, or strings of real bytes collide.
   */
  lemma RootBindsAnyBranch(h: Hash, level: Level, position: nat, working: Bytes, nodes: seq<string>)
    requires ReadsBytes(h) && level != [] && position < |level| && |nodes| == Depth(|level|)
    requires Walk(h, working, position, nodes) == Some(TreeRoot(h, level))
    ensures Coerced(working) == level[position]
            || ByteCollision(h, WalkHashed(h, Coerced(working), position, CoercedNodes(nodes)), Hashed(h, level))
  {
    CoercedNodesAreReal(nodes);
    if nodes == [] {
      RootBindsBranch(h, level, position, working, nodes);
    } else {
      CoercedWalk(h, working, position, nodes);
      RootBindsRealBranch(h, level, position, Coerced(working), CoercedNodes(nodes));
    }
  }

  // ---------- transaction lists as text ----------

  function Clean(txid: string): string { Lower(Trim(txid)) }

  ghost predicate ValidList(txids: seq<string>) {
    txids != [] && forall i :: 0 <= i < |txids| ==> IsHashText(Clean(txids[i]))
  }

  lemma HashTextIsDigest(s: string)
    requires IsHashText(s)
    ensures IsDigest(LeBytes(s)) && Text(LeBytes(s)) == s && Lower(s) == s
  {
    HexRoundTrip(s);
    LeBytesLength(s);
    LowerKeepsHex(s);
  }

  lemma ListIsDigests(txids: seq<string>)
    requires ValidList(txids)
    ensures forall i :: 0 <= i < |txids| ==> IsDigest(LeBytes(Clean(txids[i])))
  {
    forall i | 0 <= i < |txids| ensures IsDigest(LeBytes(Clean(txids[i]))) { HashTextIsDigest(Clean(txids[i])); }
  }

  function Leaves(txids: seq<string>): (leaves: Level)
    requires ValidList(txids)
    ensures |leaves| == |txids|
    ensures forall i :: 0 <= i < |txids| ==> leaves[i] == LeBytes(Clean(txids[i]))
  {
    ListIsDigests(txids);
    seq<Digest>(|txids|, i requires 0 <= i < |txids| => LeBytes(Clean(txids[i])))
  }

  /** Byte `k` of a leaf is the pair of digits `k` places from the end of its transaction id. */
  lemma LeafBytes(txids: seq<string>, i: nat, k: nat)
    requires ValidList(txids) && i < |txids| && k < 32
    ensures var t := Clean(txids[i]);
      |t| == 64 && Leaves(txids)[i][k] == 16 * Digit(t[62 - 2 * k]) + Digit(t[63 - 2 * k])
  {
    var t := Clean(txids[i]);
    LeBytesAt(t, k);
    assert IsLowerHexDigit(t[62 - 2 * k]) && IsLowerHexDigit(t[63 - 2 * k]);
  }

  /** A parent is the hash of 64 bytes: its left child and its right one, or the left one again at an odd end. */
  lemma ParentHashes(h: Hash, level: Level, k: nat) returns (pair: Bytes)
    requires 2 * k < |level|
    ensures NextLevel(h, level)[k] == h(pair) && |pair| == 64
    ensures pair[..32] == level[2 * k]
    ensures pair[32..] == if 2 * k + 1 < |level| then level[2 * k + 1] else level[2 * k]
  {
    pair := PairAt(level, k);
  }

  function RootText(h: Hash, txids: seq<string>): string
    requires ValidList(txids)
  {
    Text(TreeRoot(h, Leaves(txids)))
  }

  /** `index` finds the first position of every transaction of the list, and nothing else. */
  ghost predicate FirstPositions(index: map<string, nat>, list: seq<string>) {
    && (forall t :: t in index <==> t in list)
    && (forall i :: 0 <= i < |list| && list[i] in index ==> index[list[i]] <= i)
    && (forall t :: t in index ==> index[t] < |list| && list[index[t]] == t)
  }

  function CleanAll(txids: seq<string>): (list: seq<string>)
    ensures |list| == |txids|
    ensures forall i :: 0 <= i < |txids| ==> list[i] == Clean(txids[i])
  {
    seq(|txids|, i requires 0 <= i < |txids| => Clean(txids[i]))
  }

  datatype BlockTree = BlockTree(root: string, indexOf: map<string, nat>, levels: seq<Level>)

  ghost predicate IsTreeOf(h: Hash, t: BlockTree, txids: seq<string>) {
    && ValidList(txids)
    && t.levels == Levels(h, Leaves(txids))
    && t.root == RootText(h, txids)
    && FirstPositions(t.indexOf, CleanAll(txids))
  }

  /** Every branch of a block tree convinces the checker, at every position and for odd levels too. */
  lemma BranchProvesInclusion(h: Hash, txids: seq<string>, i: nat)
    requires ValidList(txids) && i < |txids|
    ensures TscRoot(h, Clean(txids[i]), i, Branch(h, Leaves(txids), i)) == Some(RootText(h, txids))
    ensures Included(h, Clean(txids[i]), RootText(h, txids))
  {
    HashTextIsDigest(Clean(txids[i]));
    BranchReplays(h, Leaves(txids), i);
  }

  /** Two valid lists of one length with one root are the same list, or here is a collision. */
  lemma RootBindsList(h: Hash, a: seq<string>, b: seq<string>)
    requires ValidList(a) && ValidList(b) && |a| == |b| && RootText(h, a) == RootText(h, b)
    ensures CleanAll(a) == CleanAll(b)
            || CollisionBetween(h, Hashed(h, Leaves(a)), Hashed(h, Leaves(b)))
  {
    TextInjective(TreeRoot(h, Leaves(a)), TreeRoot(h, Leaves(b)));
    RootBindsLeaves(h, Leaves(a), Leaves(b));
    if Leaves(a) == Leaves(b) {
      forall i | 0 <= i < |a| ensures CleanAll(a)[i] == CleanAll(b)[i] {
        HashTextIsDigest(Clean(a[i]));
        HashTextIsDigest(Clean(b[i]));
        assert Leaves(a)[i] == Leaves(b)[i];
      }
    }
  }

  /**
   A branch of the tree's depth accepted at index i < n is for a text that reads as leaf i, or two
   different strings the two computations hashed have one hash. They are strings of real bytes when the
   text and the nodes hold hexadecimal digits.
   */
  lemma RootBindsPosition(h: Hash, txids: seq<string>, i: nat, x: string, nodes: seq<string>)
    requires ValidList(txids) && i < |txids| && |nodes| == Depth(|txids|)
    requires TscRoot(h, x, i, nodes) == Some(RootText(h, txids))
    ensures var mine, theirs := WalkHashed(h, LeBytes(Lower(x)), i, nodes), Hashed(h, Leaves(txids));
      LeBytes(Lower(x)) == LeBytes(Clean(txids[i]))
      || (if AllBytes(LeBytes(Lower(x))) && RealNodes(nodes) then ByteCollision(h, mine, theirs)
          else CollisionBetween(h, mine, theirs))
  {
    var level := Leaves(txids);
    var w := Walk(h, LeBytes(Lower(x)), i, nodes).value;
    TextInjective(w, TreeRoot(h, level));
    RootBindsBranch(h, level, i, LeBytes(Lower(x)), nodes);
    if AllBytes(LeBytes(Lower(x))) && RealNodes(nodes) { RootBindsRealBranch(h, level, i, LeBytes(Lower(x)), nodes); }
  }

  /** For any nodes and any text, under a hash that reads bytes: the text's bytes are leaf i's, or bytes collide. */
  lemma RootBindsAnyText(h: Hash, txids: seq<string>, i: nat, x: string, nodes: seq<string>)
    requires ReadsBytes(h) && ValidList(txids) && i < |txids| && |nodes| == Depth(|txids|)
    requires TscRoot(h, x, i, nodes) == Some(RootText(h, txids))
    ensures Coerced(LeBytes(Lower(x))) == LeBytes(Clean(txids[i]))
            || ByteCollision(h, WalkHashed(h, Coerced(LeBytes(Lower(x))), i, CoercedNodes(nodes)),
                             Hashed(h, Leaves(txids)))
  {
    var level := Leaves(txids);
    TextInjective(Walk(h, LeBytes(Lower(x)), i, nodes).value, TreeRoot(h, level));
    RootBindsAnyBranch(h, level, i, LeBytes(Lower(x)), nodes);
  }

  // ---------- the source's loops ----------

  lemma IndexExtends(index: map<string, nat>, list: seq<string>, t: string)
    requires FirstPositions(index, list)
    ensures FirstPositions(if t in index then index else index[t := |list|], list + [t])
  {
    var next := if t in index then index else index[t := |list|];
    forall u ensures u in next <==> u in list + [t] {
      if u in list + [t] { assert u in list || u == t; }
    }
  }

  /** The first `i` entries are hashes, indexed and turned into leaves. */
  ghost predicate ReadSoFar(txids: seq<string>, i: nat, indexOf: map<string, nat>, leaves: Level) {
    && i <= |txids| && |leaves| == i
    && FirstPositions(indexOf, CleanAll(txids)[..i])
    && forall j :: 0 <= j < i ==> IsHashText(Clean(txids[j])) && leaves[j] == LeBytes(Clean(txids[j]))
  }

  lemma ReadNext(txids: seq<string>, i: nat, indexOf: map<string, nat>, leaves: Level, txid: string, leaf: Digest)
    requires ReadSoFar(txids, i, indexOf, leaves) && i < |txids|
    requires txid == Clean(txids[i]) && IsHashText(txid) && leaf == LeBytes(txid)
    ensures ReadSoFar(txids, i + 1, if txid in indexOf then indexOf else indexOf[txid := i], leaves + [leaf])
  {
    var list := CleanAll(txids);
    assert list[..i + 1] == list[..i] + [txid];
    IndexExtends(indexOf, list[..i], txid);
  }

  lemma ReadAll(txids: seq<string>, indexOf: map<string, nat>, leaves: Level)
    requires txids != [] && ReadSoFar(txids, |txids|, indexOf, leaves)
    ensures ValidList(txids) && FirstPositions(indexOf, CleanAll(txids)) && leaves == Leaves(txids)
  {
    assert CleanAll(txids)[..|txids|] == CleanAll(txids);
  }

  /** Normalises, validates and indexes the list; None as soon as an entry is not a hash. */
  method ReadLeaves(txids: seq<string>) returns (r: Option<(map<string, nat>, Level)>)
    requires txids != []
    ensures r.Some? <==> ValidList(txids)
    ensures r.Some? ==> FirstPositions(r.value.0, CleanAll(txids)) && r.value.1 == Leaves(txids)
  {
    var indexOf: map<string, nat> := map[];
    var leaves: Level := [];
    var i := 0;
    while i < |txids|
      invariant 0 <= i <= |txids| && ReadSoFar(txids, i, indexOf, leaves)
    {
      var txid := Lower(Trim(txids[i]));
      if !IsHashText(txid) { return None; }
      HashTextIsDigest(txid);
      var leaf := HexToLeBytes(txid);
      ReadNext(txids, i, indexOf, leaves, txid, leaf);
      if txid !in indexOf { indexOf := indexOf[txid := i]; }
      leaves := leaves + [leaf];
      i := i + 1;
    }
    ReadAll(txids, indexOf, leaves);
    r := Some((indexOf, leaves));
  }

  /** One pass over a level, two nodes at a time. */
  method PairUp(h: Hash, level: Level) returns (next: Level)
    ensures next == NextLevel(h, level)
  {
    next := [];
    var k := 0;
    while k < |level|
      invariant k == 2 * |next| <= |level| + 1
      invariant forall j :: 0 <= j < |next| ==> next[j] == h(PairAt(level, j))
    {
      var left := level[k];
      var right := if k + 1 < |level| then level[k + 1] else left;
      next := next + [h(Cat(left, right))];
      k := k + 2;
    }
  }

  method BuildBlockMerkleTree(h: Hash, txids: seq<string>) returns (tree: Option<BlockTree>)
    ensures tree.Some? <==> ValidList(txids)
    ensures tree.Some? ==> IsTreeOf(h, tree.value, txids)
  {
    if |txids| == 0 { return None; }
    var read := ReadLeaves(txids);
    if read.None? { return None; }
    var (indexOf, leaves) := read.value;
    var levels := StackLevels(h, leaves);
    LastLevelIsRoot(h, leaves);
    tree := Some(BlockTree(Text(levels[|levels| - 1][0]), indexOf, levels));
  }

  lemma {:induction false} LastLevelIsRoot(h: Hash, level: Level)
    requires level != []
    ensures var ls := Levels(h, level); ls[|ls| - 1] == [TreeRoot(h, level)]
    decreases |level|
  {
    if |level| > 1 { LastLevelIsRoot(h, NextLevel(h, level)); }
  }

  lemma LevelsGrow(h: Hash, before: seq<Level>, level: Level)
    requires |level| > 1
    ensures before + Levels(h, level) == (before + [level]) + Levels(h, NextLevel(h, level))
  {
  }

  method StackLevels(h: Hash, leaves: Level) returns (levels: seq<Level>)
    requires leaves != []
    ensures levels == Levels(h, leaves)
  {
    levels := [leaves];
    var level := leaves;
    ghost var before: seq<Level> := [];
    while |level| > 1
      invariant level != [] && levels == before + [level]
      invariant before + Levels(h, level) == Levels(h, leaves)
      decreases |level|
    {
      var next := PairUp(h, level);
      LevelsGrow(h, before, level);
      before := levels;
      levels := levels + [next];
      level := next;
    }
  }

  /** Level `k` of a tree, and the branch still to be read from there. */
  ghost predicate LevelAt(h: Hash, levels: seq<Level>, k: nat) {
    && k < |levels|
    && levels[k] != []
    && levels[k..] == Levels(h, levels[k])
  }

  lemma LevelStep(h: Hash, levels: seq<Level>, k: nat)
    requires LevelAt(h, levels, k)
    ensures k < |levels| - 1 <==> |levels[k]| > 1
    ensures k < |levels| - 1 ==> LevelAt(h, levels, k + 1) && levels[k + 1] == NextLevel(h, levels[k])
  {
    if |levels[k]| > 1 {
      var next := NextLevel(h, levels[k]);
      assert levels[k..] == [levels[k]] + Levels(h, next);
      assert levels[k + 1..] == levels[k..][1..] == Levels(h, next);
      assert levels[k + 1] == levels[k + 1..][0];
    }
  }

  /** Part of a branch is read; the rest is the branch of the current level at the current position. */
  ghost predicate BranchRead(h: Hash, levels: seq<Level>, k: nat, position: nat, nodes: seq<string>,
                             branch: seq<string>)
  {
    LevelAt(h, levels, k) && nodes + Branch(h, levels[k], position) == branch
  }

  lemma BranchReadNext(h: Hash, levels: seq<Level>, k: nat, position: nat, nodes: seq<string>, branch: seq<string>)
    requires BranchRead(h, levels, k, position, nodes, branch) && k < |levels| - 1
    ensures BranchRead(h, levels, k + 1, position / 2, nodes + [BranchNode(levels[k], position)], branch)
  {
    LevelStep(h, levels, k);
    var node, rest := BranchNode(levels[k], position), Branch(h, levels[k + 1], position / 2);
    assert Branch(h, levels[k], position) == [node] + rest;
    assert nodes + ([node] + rest) == (nodes + [node]) + rest;
  }

  /** Reads a branch out of the retained levels. */
  method BranchFor(h: Hash, tree: BlockTree, index: nat) returns (nodes: seq<string>)
    requires tree.levels != [] && tree.levels[0] != [] && tree.levels == Levels(h, tree.levels[0])
    ensures nodes == Branch(h, tree.levels[0], index)
    ensures forall txids :: IsTreeOf(h, tree, txids) ==> nodes == Branch(h, Leaves(txids), index)
  {
    ghost var branch := Branch(h, tree.levels[0], index);
    nodes := [];
    var position := index;
    var depth := 0;
    assert tree.levels[0..] == tree.levels;
    while depth < |tree.levels| - 1
      invariant position >= 0 && BranchRead(h, tree.levels, depth, position, nodes, branch)
    {
      BranchReadNext(h, tree.levels, depth, position, nodes, branch);
      var current := tree.levels[depth];
      var siblingIndex := if position % 2 == 0 then position + 1 else position - 1;
      nodes := nodes + [if siblingIndex >= |current| then "*" else Text(current[siblingIndex])];
      position := position / 2;
      depth := depth + 1;
    }
    LevelStep(h, tree.levels, depth);
  }

  lemma WalkNext(h: Hash, working: Bytes, position: nat, nodes: seq<string>, k: nat)
    requires k < |nodes|
    ensures Walk(h, working, position, nodes[k..]) ==
      if |Sibling(working, nodes[k])| != 32 || |working| != 32 then None
      else Walk(h, h(Joined(working, position, nodes[k])), position / 2, nodes[k + 1..])
  {
    assert nodes[k..][1..] == nodes[k + 1..];
  }

  /** The checker's loop. */
  method ComputeTscRoot(h: Hash, txid: string, index: int, nodes: seq<string>) returns (root: Option<string>)
    ensures root == TscRoot(h, txid, index, nodes)
  {
    if index < 0 { return None; }
    var working := HexToLeBytes(Lower(txid));
    var position := index;
    ghost var result := Walk(h, working, position, nodes);
    var k := 0;
    assert nodes[0..] == nodes;
    while k < |nodes|
      invariant 0 <= k <= |nodes| && position >= 0
      invariant Walk(h, working, position, nodes[k..]) == result
    {
      var node := nodes[k];
      WalkNext(h, working, position, nodes, k);
      var sibling := working;
      if node != "*" { sibling := HexToLeBytes(Lower(node)); }
      if |sibling| != 32 || |working| != 32 { return None; }
      working := h(if position % 2 == 0 then working + sibling else sibling + working);
      position := position / 2;
      k := k + 1;
    }
    root := Some(Text(working));
  }
}
