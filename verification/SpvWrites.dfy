/**
 What each handler of the SPV pipeline writes: exactly which rows it verifies, which tree it finds,
 which targets a proof may name, and which headers a sync of the tip leaves in the table.
 (`SpvPipeline` says when those verdicts stand.)
 */
module SpvWrites {
  import opened Lists
  import opened Options
  import opened Hex
  import opened BlockMerkle
  import opened BlockHeaders
  import opened SpvPipeline

  // ---------- what the handlers write ----------

  /** A BUMP verifies its row if and only if its computed root is that of the header worked with; no other row moves. */
  lemma BumpGives(h: Hash, s: Spv, txid: string, bump: Option<Bump>, claimed: Option<int>, reply: Option<Header>)
    requires MemoSound(s) && TreesSound(h, s) && txid in s.rows
    ensures var rows := VerifyBump(h, s, txid, bump, claimed, reply).rows;
      && rows.Keys == s.rows.Keys && (forall t :: t in s.rows && t != txid ==> rows[t] == s.rows[t])
      && (rows[txid].spvVerified <==>
            && bump.Some? && TscRoot(h, txid, bump.value.index, bump.value.nodes).Some?
            && var working := Working(s, bump.value.height, Fetched(h, s, bump.value.height, reply));
              working.Some? && Lower(working.value.merkleRoot)
                               == Lower(TscRoot(h, txid, bump.value.index, bump.value.nodes).value))
      && (if rows[txid].spvVerified then rows[txid].status == Mined && rows[txid].blockHeight == Some(bump.value.height)
          else rows[txid].status == s.rows[txid].status)
  {
    if bump.Some? {
      var b := bump.value;
      var root := TscRoot(h, txid, b.index, b.nodes);
      var (s1, lookup) := GetHeader(h, s, b.height, reply);
      HeaderRead(h, s, b.height, reply);
      if root.Some? && !lookup.Thrown? {
        JudgeGives(s1, txid, b.height, root.value, lookup);
        assert VerifyBump(h, s, txid, bump, claimed, reply) == JudgeBump(s1, txid, b.height, root.value, lookup);
      }
    }
  }

  lemma JudgeGives(s: Spv, txid: string, height: int, root: string, lookup: Lookup)
    requires txid in s.rows
    ensures var rows := JudgeBump(s, txid, height, root, lookup).rows;
      && rows.Keys == s.rows.Keys && (forall t :: t in s.rows && t != txid ==> rows[t] == s.rows[t])
      && (rows[txid].spvVerified <==>
            lookup.Held? && Lower(lookup.header.merkleRoot) == Lower(root))
      && (if rows[txid].spvVerified then rows[txid].status == Mined && rows[txid].blockHeight == Some(height)
          else rows[txid].status == s.rows[txid].status)
  {
  }

  /** A TSC proof verifies its row if and only if target and root are those of the header worked with. */
  lemma TscGives(h: Hash, s: Spv, txid: string, height: int, proof: Option<TscProof>, reply: Option<Header>)
    requires MemoSound(s) && TreesSound(h, s) && txid in s.rows
    ensures var rows := VerifyTsc(h, s, txid, height, proof, reply).rows;
      var working := Working(s, height, Fetched(h, s, height, reply));
      && rows.Keys == s.rows.Keys && (forall t :: t in s.rows && t != txid ==> rows[t] == s.rows[t])
      && (if proof.Some? && working.Some? && TargetMatches(proof.value, working.value)
             && TscRoot(h, txid, proof.value.index, proof.value.nodes) == Some(Lower(working.value.merkleRoot))
          then rows[txid].spvVerified && rows[txid].status == Mined && rows[txid].blockHeight == Some(height)
          else rows[txid].spvVerified == s.rows[txid].spvVerified && rows[txid].status == s.rows[txid].status
               && (rows[txid].blockHeight == Some(height) || rows[txid] == s.rows[txid]))
  {
    HeaderRead(h, s, height, reply);
  }

  /** A tree is found exactly if a header is, and the cached list, or else the downloaded one, hashes to its root. */
  lemma TreeGiven(h: Hash, s: Spv, height: int, list: Option<seq<string>>, reply: Option<Header>)
    requires MemoSound(s) && TreesSound(h, s)
    ensures var tree := EnsureTree(h, s, height, list, reply).1;
      var working := Working(s, height, Fetched(h, s, height, reply));
      && (tree.Some? <==>
            && working.Some?
            && if height in s.trees then RootText(h, s.trees[height].txids) == Lower(working.value.merkleRoot)
               else list.Some? && ValidList(list.value) && RootText(h, list.value) == Lower(working.value.merkleRoot))
      && (tree.Some? ==> tree.value.txids == if height in s.trees then s.trees[height].txids else list.value)
  {
    HeaderRead(h, s, height, reply);
    if height in s.trees { assert TreeSound(h, s.trees[height]); }
  }

  /** A batch verifies exactly its rows that the block contains, except those past pending with an assembled path. */
  lemma BatchGives(h: Hash, s: Spv, height: int, batch: set<string>, bumpBuilt: set<string>,
                   list: Option<seq<string>>, reply: Option<Header>, t: string)
    requires MemoSound(s) && TreesSound(h, s) && t in s.rows
    ensures var tree := EnsureTree(h, s, height, list, reply).1;
      var row := VerifyOneBlock(h, s, height, batch, bumpBuilt, list, reply).rows[t];
      if && t in batch && tree.Some? && Lower(t) in CleanAll(tree.value.txids)
         && (t in bumpBuilt ==> s.rows[t].status == Seen)
      then row.spvVerified && row.status == Mined && row.blockHeight == Some(height)
      else row.spvVerified == s.rows[t].spvVerified && row.status == s.rows[t].status
  {
    TreeRead(h, s, height, list, reply);
  }

  // ---------- which targets a proof may name ----------

  /** The text of bytes in the order they are sent. */
  function WireText(bs: Bytes): string { if bs == [] then "" else ByteText(bs[0]) + WireText(bs[1..]) }

  lemma {:induction false} WireTextJoins(a: Bytes, b: Bytes)
    ensures WireText(a + b) == WireText(a) + WireText(b)
  {
    if a == [] {
      assert a + b == b;
    } else {
      assert (a + b)[1..] == a[1..] + b;
      WireTextJoins(a[1..], b);
    }
  }

  lemma {:induction false} WireTextLength(bs: Bytes)
    requires AllBytes(bs)
    ensures |WireText(bs)| == 2 * |bs| && AllLowerHex(WireText(bs))
  {
    if bs != [] {
      WireTextLength(bs[1..]);
      PairOfByteText(bs[0]);
    }
  }

  /** Display order and wire order are each other's reverse, pair by pair. */
  lemma {:induction false} WireOrderOfText(s: string)
    requires AllLowerHex(s) && |s| % 2 == 0
    ensures WireOrder(s) == WireText(LeBytes(s))
  {
    if s != "" {
      var front, a, b := s[..|s| - 2], s[|s| - 2], s[|s| - 1];
      WireOrderOfText(front);
      WireOrderSnoc(front, a, b);
      ByteTextOfPair(a, b);
      assert s == front + [a, b];
      assert LeBytes(s) == [ParsePair(a, b)] + LeBytes(front);
    }
  }

  lemma {:induction false} WireOrderSnoc(front: string, a: char, b: char)
    requires |front| % 2 == 0
    ensures WireOrder(front + [a, b]) == [a, b] + WireOrder(front)
  {
    if front == "" {
      assert front + [a, b] == [a, b] && [a, b][2..] == "" && [a, b][..2] == [a, b];
    } else {
      assert (front + [a, b])[2..] == front[2..] + [a, b] && (front + [a, b])[..2] == front[..2];
      WireOrderSnoc(front[2..], a, b);
      Regrouped([a, b], WireOrder(front[2..]), front[..2]);
    }
  }

  /** The proof of a block: its hash, its root or its whole header in hexadecimal, each in any letter case. */
  lemma OwnTargetsMatch(hd: Header, p: TscProof)
    requires Canonical(hd) && AllBytes(Serialise(hd)) && hd.hash != ""
    ensures Lower(p.targetType) == "merkleroot" ==> (TargetMatches(p, hd) <==> Lower(p.target) == hd.merkleRoot)
    ensures Lower(p.targetType) == "header" && Lower(p.target) == WireText(Serialise(hd)) ==> TargetMatches(p, hd)
    ensures Lower(p.targetType) != "merkleroot" && Lower(p.targetType) != "header" ==>
      (TargetMatches(p, hd) <==> Lower(p.target) == Lower(hd.hash))
  {
    HashTextIsDigest(hd.merkleRoot);
    LowerChars(hd.hash);
    if Lower(p.targetType) == "header" && Lower(p.target) == WireText(Serialise(hd)) { HeaderTargetMatches(hd); }
  }

  lemma HeaderTargetMatches(hd: Header)
    requires Canonical(hd) && AllBytes(Serialise(hd))
    ensures var text := WireText(Serialise(hd)); |text| == 160 && text[72..136] == WireOrder(Lower(hd.merkleRoot))
  {
    var bytes, root := Serialise(hd), hd.merkleRoot;
    RootInside(hd);
    HashTextIsDigest(root);
    WireTextLength(bytes);
    assert bytes == bytes[..36] + bytes[36..68] + bytes[68..];
    WireTextJoins(bytes[..36] + bytes[36..68], bytes[68..]);
    WireTextJoins(bytes[..36], bytes[36..68]);
    WireTextLength(bytes[..36]);
    WireTextLength(bytes[36..68]);
    WireOrderOfText(root);
  }

  /** A header named by 160 digits is refused unless the digits in the root's place are the root's. */
  lemma OtherRootsDoNotMatch(hd: Header, bytes: Bytes, p: TscProof)
    requires Canonical(hd) && AllBytes(bytes) && |bytes| == 80 && Lower(p.targetType) == "header"
    requires Lower(p.target) == WireText(bytes)
    ensures TargetMatches(p, hd) <==> bytes[36..68] == LeBytes(hd.merkleRoot)
  {
    HashTextIsDigest(hd.merkleRoot);
    WireTextLength(bytes);
    assert bytes == bytes[..36] + bytes[36..68] + bytes[68..];
    WireTextJoins(bytes[..36] + bytes[36..68], bytes[68..]);
    WireTextJoins(bytes[..36], bytes[36..68]);
    WireTextLength(bytes[..36]);
    WireTextLength(bytes[36..68]);
    WireOrderOfText(hd.merkleRoot);
    assert WireText(bytes)[72..136] == WireText(bytes[36..68]);
    if WireText(bytes[36..68]) == WireText(LeBytes(hd.merkleRoot)) {
      WireTextInjective(bytes[36..68], LeBytes(hd.merkleRoot));
    }
  }

  lemma {:induction false} WireTextInjective(a: Bytes, b: Bytes)
    requires AllBytes(a) && AllBytes(b) && WireText(a) == WireText(b)
    ensures a == b
  {
    WireTextLength(a);
    WireTextLength(b);
    if a != [] {
      ByteTextLength(a[0]);
      ByteTextLength(b[0]);
      PeelPair(ByteText(a[0]), WireText(a[1..]), ByteText(b[0]), WireText(b[1..]));
      ByteTextInjective(a[0], b[0]);
      WireTextInjective(a[1..], b[1..]);
      assert a == [a[0]] + a[1..] && b == [b[0]] + b[1..];
    }
  }

  // ---------- what a sync of the tip leaves in the table ----------

  /** The header is held at another height already. */
  predicate TakenElsewhere(headers: map<int, Header>, hd: Header) {
    exists k :: k in headers && k != hd.height && headers[k].hash == hd.hash
  }

  predicate FieldsFit(hd: Header) { |hd.hash| <= 64 && |hd.prevHash| <= 64 && |hd.merkleRoot| <= 64 }

  lemma InsertableAfterReorg(s: Spv, hd: Header)
    ensures Insertable(DetectReorg(s, hd).headers, hd) <==> FieldsFit(hd) && !TakenElsewhere(s.headers, hd)
  {
    var s1 := DetectReorg(s, hd);
    assert forall k :: k in s1.headers ==> k in s.headers && s1.headers[k] == s.headers[k];
    if TakenElsewhere(s.headers, hd) {
      var k :| k in s.headers && k != hd.height && s.headers[k].hash == hd.hash;
      assert k in s1.headers;
    }
  }

  /**
   One served header: passed over if it fails its proof of work; in table and memo at its height, and
   nothing else moved, if it passes and the insert is accepted; otherwise only a differing header it
   replaces is gone.
   */
  lemma SyncedHeaderIsHeld(h: Hash, s: Spv, hd: Header)
    ensures var s' := SyncOne(h, s, hd);
      if !VerifyProofOfWork(h, hd) then s' == s
      else if FieldsFit(hd) && !TakenElsewhere(s.headers, hd)
      then s'.headers == s.headers[hd.height := hd] && s'.memo == s.memo[hd.height := hd] && s'.trees == s.trees
      else if hd.height in s.headers && s.headers[hd.height].hash != hd.hash
      then s'.headers == s.headers - {hd.height} && s'.memo == s.memo - {hd.height} && s'.trees == s.trees
      else s' == s
  {
    InsertableAfterReorg(s, hd);
    assert hd.height in s.headers && s.headers[hd.height].hash != hd.hash ==>
      (s.headers - {hd.height})[hd.height := hd] == s.headers[hd.height := hd]
      && (s.memo - {hd.height})[hd.height := hd] == s.memo[hd.height := hd];
  }

  /** The last header served for a height that passes its proof of work. */
  function LastPassing(h: Hash, served: seq<Header>, height: int): Option<Header> {
    if served == [] then None
    else
      var last := served[|served| - 1];
      if last.height == height && VerifyProofOfWork(h, last) then Some(last)
      else LastPassing(h, served[..|served| - 1], height)
  }

  /** What is held at a height after these headers went in. */
  function HeldAt(h: Hash, headers: map<int, Header>, served: seq<Header>, height: int): Option<Header> {
    if LastPassing(h, served, height).Some? then LastPassing(h, served, height)
    else if height in headers then Some(headers[height]) else None
  }

  /** The insert of the i-th header is refused: a field too long, or its hash held at another height by then. */
  predicate RefusedAt(h: Hash, headers: map<int, Header>, served: seq<Header>, i: nat)
    requires i < |served|
  {
    VerifyProofOfWork(h, served[i])
    && (!FieldsFit(served[i]) || !ElsewhereFree(h, headers, served[..i], served[i]))
  }

  predicate ElsewhereFree(h: Hash, headers: map<int, Header>, served: seq<Header>, hd: Header) {
    && (forall k :: k in headers && k != hd.height ==> HashDiffers(HeldAt(h, headers, served, k), hd))
    && (forall i :: 0 <= i < |served| && served[i].height != hd.height ==>
          HashDiffers(HeldAt(h, headers, served, served[i].height), hd))
  }

  predicate HashDiffers(held: Option<Header>, hd: Header) { held.Some? ==> held.value.hash != hd.hash }

  lemma {:induction false} LastPassingIsServed(h: Hash, served: seq<Header>, height: int)
    ensures LastPassing(h, served, height).Some? ==>
      exists i :: 0 <= i < |served| && served[i] == LastPassing(h, served, height).value && served[i].height == height
  {
    if served != [] {
      var front := served[..|served| - 1];
      LastPassingIsServed(h, front, height);
      if LastPassing(h, front, height).Some? {
        var i :| 0 <= i < |front| && front[i] == LastPassing(h, front, height).value && front[i].height == height;
        assert served[i] == front[i];
      }
    }
  }

  /** Before a refusal the table holds exactly what `HeldAt` says. */
  ghost predicate HoldsAfter(h: Hash, headers: map<int, Header>, served: seq<Header>, now: map<int, Header>) {
    forall k :: (k in now <==> HeldAt(h, headers, served, k).Some?)
                && (k in now ==> now[k] == HeldAt(h, headers, served, k).value)
  }

  lemma FreeIsFree(h: Hash, headers: map<int, Header>, served: seq<Header>, now: map<int, Header>, hd: Header)
    requires HoldsAfter(h, headers, served, now)
    ensures TakenElsewhere(now, hd) <==> !ElsewhereFree(h, headers, served, hd)
  {
    if TakenElsewhere(now, hd) {
      var k :| k in now && k != hd.height && now[k].hash == hd.hash;
      LastPassingIsServed(h, served, k);
      assert !HashDiffers(HeldAt(h, headers, served, k), hd);
      if k !in headers {
        var i :| 0 <= i < |served| && served[i] == LastPassing(h, served, k).value && served[i].height == k;
        assert !HashDiffers(HeldAt(h, headers, served, served[i].height), hd);
      }
    }
    if !ElsewhereFree(h, headers, served, hd) {
      if k :| k in headers && k != hd.height && !HashDiffers(HeldAt(h, headers, served, k), hd) {
        assert k in now;
      } else {
        var i :| 0 <= i < |served| && served[i].height != hd.height
          && !HashDiffers(HeldAt(h, headers, served, served[i].height), hd);
        assert served[i].height in now;
      }
    }
  }

  /** The headers before the i-th went in one by one. */
  function SyncEach(h: Hash, s: Spv, served: seq<Header>): Spv
    decreases |served|
  {
    if served == [] then s
    else SyncOne(h, SyncEach(h, s, served[..|served| - 1]), served[|served| - 1])
  }

  lemma {:induction false} EachHolds(h: Hash, s: Spv, served: seq<Header>)
    requires forall i :: 0 <= i < |served| ==> !RefusedAt(h, s.headers, served, i)
    ensures HoldsAfter(h, s.headers, served, SyncEach(h, s, served).headers)
    decreases |served|
  {
    if served != [] {
      var n := |served| - 1;
      var front, hd := served[..n], served[n];
      forall i | 0 <= i < n ensures !RefusedAt(h, s.headers, front, i) {
        assert front[..i] == served[..i] && front[i] == served[i] && !RefusedAt(h, s.headers, served, i);
      }
      EachHolds(h, s, front);
      var s1 := SyncEach(h, s, front);
      FreeIsFree(h, s.headers, front, s1.headers, hd);
      SyncedHeaderIsHeld(h, s1, hd);
      assert !RefusedAt(h, s.headers, served, n);
      forall k ensures HeldAt(h, s.headers, served, k)
          == if k == hd.height && VerifyProofOfWork(h, hd) then Some(hd) else HeldAt(h, s.headers, front, k) {}
    }
  }

  lemma RefusedIsRefused(h: Hash, s: Spv, served: seq<Header>, j: nat)
    requires j < |served| && forall i :: 0 <= i < j ==> !RefusedAt(h, s.headers, served, i)
    ensures HoldsAfter(h, s.headers, served[..j], SyncEach(h, s, served[..j]).headers)
    ensures Refused(h, SyncEach(h, s, served[..j]), served[j]) <==> RefusedAt(h, s.headers, served, j)
  {
    var front, s1 := served[..j], SyncEach(h, s, served[..j]);
    forall i | 0 <= i < j ensures !RefusedAt(h, s.headers, front, i) {
      assert front[..i] == served[..i] && front[i] == served[i] && !RefusedAt(h, s.headers, served, i);
    }
    EachHolds(h, s, front);
    FreeIsFree(h, s.headers, front, s1.headers, served[j]);
    InsertableAfterReorg(s1, served[j]);
  }

  /** The first refusal, or the end of the list. */
  ghost predicate StopsAt(h: Hash, s: Spv, served: seq<Header>, m: nat) {
    && m <= |served| && (forall i :: 0 <= i < m ==> !RefusedAt(h, s.headers, served, i))
    && (m < |served| ==> RefusedAt(h, s.headers, served, m))
  }

  lemma {:induction false} TipFrom(h: Hash, s: Spv, served: seq<Header>, m: nat, j: nat)
    requires StopsAt(h, s, served, m) && j <= m
    ensures SyncTip(h, SyncEach(h, s, served[..j]), served[j..]) ==
      if m == |served| then SyncEach(h, s, served) else SyncOne(h, SyncEach(h, s, served[..m]), served[m])
    decreases m - j
  {
    if j == |served| {
      assert served[..j] == served && served[j..] == [];
    } else {
      RefusedIsRefused(h, s, served, j);
      assert served[j..][0] == served[j];
      if j < m {
        assert served[j..][1..] == served[j + 1..] && served[..j + 1][..j] == served[..j];
        assert !RefusedAt(h, s.headers, served, j);
        TipFrom(h, s, served, m, j + 1);
      }
    }
  }

  /**
   A whole sync, up to its first refused insert: every height holds the last header served for it that
   passes its proof of work, and every other height what it held. A refused header only drops a
   differing one at its own height.
   */
  lemma SyncedTipIsHeld(h: Hash, s: Spv, served: seq<Header>, m: nat)
    requires StopsAt(h, s, served, m)
    ensures var now := SyncTip(h, s, served).headers;
      forall k :: var held := HeldAt(h, s.headers, served[..m], k);
        var dropped := m < |served| && served[m].height == k && held.Some? && held.value.hash != served[m].hash;
        (k in now <==> held.Some? && !dropped) && (k in now ==> now[k] == held.value)
  {
    TipFrom(h, s, served, m, 0);
    assert served[..0] == [] && served[0..] == served;
    if m == |served| {
      assert served[..m] == served;
      EachHolds(h, s, served);
    } else {
      RefusedIsRefused(h, s, served, m);
      var s1 := SyncEach(h, s, served[..m]);
      FreeIsFree(h, s.headers, served[..m], s1.headers, served[m]);
      SyncedHeaderIsHeld(h, s1, served[m]);
    }
  }
}
