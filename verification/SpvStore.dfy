/**
 The SPV handlers in the source's own form: an object whose tables are updated in place by
 loops over headers, row batches and chunks. Each method computes the transition of
 `SpvPipeline` of the same name, whatever the chunk sizes.
 */
module SpvStore {
  import opened Lists
  import opened Options
  import opened Hex
  import opened BlockMerkle
  import opened BlockHeaders
  import P = SpvPipeline

  const PROOF_CHUNK := 200

  type Rows = map<string, P.Row>

  function Range(ts: seq<string>): set<string> { set t | t in ts }

  function Pending(rows: Rows, ts: set<string>): set<string> {
    set t | t in ts && t in rows && rows[t].status == P.Seen
  }

  function WithConfirmed(rows: Rows, ts: set<string>, height: int, root: string): Rows {
    map t | t in rows :: if t in ts then P.Confirmed(height, root) else rows[t]
  }

  /** The update of one batch of verified proofs: pending rows only. */
  function AfterProofs(rows: Rows, ts: set<string>, height: int, root: string): Rows {
    map t | t in rows :: if t in ts && rows[t].status == P.Seen then P.Confirmed(height, root) else rows[t]
  }

  lemma AddToRange(ts: seq<string>, t: string)
    ensures Range(ts + [t]) == Range(ts) + {t}
  {
  }

  lemma AddDistinct(ts: seq<string>, t: string)
    requires Distinct(ts) && t !in Range(ts)
    ensures Distinct(ts + [t])
  {
    forall i | 0 <= i < |ts| ensures ts[i] != t { assert ts[i] in Range(ts); }
  }

  lemma DisjointSizes(a: set<string>, b: set<string>, c: set<string>)
    requires a <= b <= c
    ensures |c - a| == |b - a| + |c - b|
  {
    assert c - a == (b - a) + (c - b);
  }

  /** Confirming the pending rows of one more chunk extends the confirmed set by exactly those. */
  lemma ChunkConfirms(rows: Rows, before: set<string>, chunk: set<string>, done: set<string>,
                      height: int, c: P.CachedTree, bumpBuilt: set<string>)
    requires before !! chunk && chunk <= P.InBlock(c) && ValidList(c.txids)
    ensures var confirmed := Pending(rows, before) - done;
      var now := WithConfirmed(rows, confirmed, height, c.merkleRoot);
      var batch := Pending(now, chunk);
      var after := Pending(rows, before + chunk) - done;
      && P.BatchRows(now, batch - (done + confirmed), height, c, bumpBuilt)
         == WithConfirmed(rows, after, height, c.merkleRoot)
      && done + confirmed + Settled(batch, done + confirmed, P.InBlock(c)) == done + after
  {
    forall t | t in chunk ensures Lower(t) == t { P.BlockTextIsLower(c, t); }
    var confirmed := Pending(rows, before) - done;
    var now := WithConfirmed(rows, confirmed, height, c.merkleRoot);
    var batch := Pending(now, chunk);
    var after := Pending(rows, before + chunk) - done;
    assert forall t :: t in chunk && t in rows ==> now[t] == rows[t];
    assert batch == Pending(rows, chunk);
    assert Settled(batch, done + confirmed, P.InBlock(c)) == batch - (done + confirmed);
    assert after == confirmed + (batch - done);
  }

  lemma DistinctSlices(keys: seq<string>, i: nat, end: nat)
    requires Distinct(keys) && i <= end <= |keys|
    ensures Range(keys[..i]) !! Range(keys[i..end])
    ensures Range(keys[..end]) == Range(keys[..i]) + Range(keys[i..end])
    ensures Distinct(keys[i..end])
  {
    assert keys[..end] == keys[..i] + keys[i..end];
    forall a, b | 0 <= a < i && 0 <= b < end - i ensures keys[..i][a] != keys[i..end][b] {
      assert keys[i..end][b] == keys[i + b];
    }
  }

  /** The keys of a block index as a list without repetitions. */
  method Keys(block: set<string>) returns (keys: seq<string>)
    ensures Range(keys) == block && Distinct(keys)
  {
    keys := [];
    var rest := block;
    while rest != {}
      invariant rest <= block && Range(keys) == block - rest && Distinct(keys)
      decreases rest
    {
      var t :| t in rest;
      AddToRange(keys, t);
      AddDistinct(keys, t);
      keys := keys + [t];
      rest := rest - {t};
    }
  }

  /** Where each row of a batch goes: proofs, rows without an assembled BUMP, absent rows. */
  datatype Sorted = Sorted(proofs: seq<string>, minedWithoutBump: seq<string>, absent: seq<string>)

  function Settled(batch: set<string>, done: set<string>, block: set<string>): set<string> {
    set t | t in batch && t !in done && Lower(t) in block
  }

  function Missing(batch: set<string>, done: set<string>, block: set<string>): set<string> {
    set t | t in batch && t !in done && Lower(t) !in block
  }

  ghost predicate IsSorted(g: Sorted, batch: set<string>, done: set<string>, block: set<string>,
                           bumpBuilt: set<string>)
  {
    && Range(g.proofs) == Settled(batch, done, block) * bumpBuilt
    && Range(g.minedWithoutBump) == Settled(batch, done, block) - bumpBuilt
    && Range(g.absent) == Missing(batch, done, block)
  }

  function SortOne(g: Sorted, t: string, done: set<string>, block: set<string>, bumpBuilt: set<string>): Sorted {
    if t in done then g
    else if Lower(t) !in block then g.(absent := g.absent + [t])
    else if t in bumpBuilt then g.(proofs := g.proofs + [t])
    else g.(minedWithoutBump := g.minedWithoutBump + [t])
  }

  lemma SortOneSorts(g: Sorted, batch: set<string>, t: string, done: set<string>, block: set<string>,
                     bumpBuilt: set<string>)
    requires IsSorted(g, batch, done, block, bumpBuilt)
    ensures IsSorted(SortOne(g, t, done, block, bumpBuilt), batch + {t}, done, block, bumpBuilt)
  {
    AddToRange(g.proofs, t);
    AddToRange(g.minedWithoutBump, t);
    AddToRange(g.absent, t);
    assert Settled(batch + {t}, done, block) == Settled(batch, done, block) + Settled({t}, done, block);
    assert Missing(batch + {t}, done, block) == Missing(batch, done, block) + Missing({t}, done, block);
  }

  /** The three writes together are one row-by-row verdict over the batch. */
  lemma WritesAreVerdicts(rows: Rows, g: Sorted, batch: set<string>, done: set<string>, bumpBuilt: set<string>,
                          height: int, c: P.CachedTree)
    requires IsSorted(g, batch, done, P.InBlock(c), bumpBuilt)
    ensures Cleared(WithConfirmed(AfterProofs(rows, Range(g.proofs), height, c.merkleRoot),
                                  Range(g.minedWithoutBump), height, c.merkleRoot), Range(g.absent))
            == P.BatchRows(rows, batch - done, height, c, bumpBuilt)
  {
  }

  function Cleared(rows: Rows, ts: set<string>): Rows {
    map t | t in rows ::
      if t in ts && rows[t].status == P.Seen then rows[t].(blockHeight := None) else rows[t]
  }

  lemma SettledGrows(batch: set<string>, t: string, done: set<string>, block: set<string>)
    requires t !in batch
    ensures var before, after := Settled(batch, done, block), Settled(batch + {t}, done, block);
      && t !in before
      && after == (if t !in done && Lower(t) in block then before + {t} else before)
      && |after| == |before| + if t !in done && Lower(t) in block then 1 else 0
  {
    var before, after := Settled(batch, done, block), Settled(batch + {t}, done, block);
    assert after == if t !in done && Lower(t) in block then before + {t} else before;
  }

  ghost predicate SortedSoFar(seen: set<string>, g: Sorted, confirmed: nat, done': set<string>,
                              done: set<string>, block: set<string>, bumpBuilt: set<string>)
  {
    && IsSorted(g, seen, done, block, bumpBuilt)
    && done' == done + Settled(seen, done, block)
    && confirmed == |Settled(seen, done, block)|
  }

  lemma SortNext(seen: set<string>, t: string, g: Sorted, confirmed: nat, done': set<string>,
                 done: set<string>, block: set<string>, bumpBuilt: set<string>)
    requires SortedSoFar(seen, g, confirmed, done', done, block, bumpBuilt) && t !in seen
    ensures var isNew := t !in done' && Lower(t) in block;
      SortedSoFar(seen + {t}, SortOne(g, t, done', block, bumpBuilt), if isNew then confirmed + 1 else confirmed,
                  if isNew then done' + {t} else done', done, block, bumpBuilt)
  {
    assert t in done' <==> t in done;
    SortOneSorts(g, seen, t, done, block, bumpBuilt);
    SettledGrows(seen, t, done, block);
  }

  /** Each row once, in order: counts the settled ones and marks them done. */
  method SortBatch(batch: seq<string>, block: set<string>, bumpBuilt: set<string>, done: set<string>)
    returns (g: Sorted, confirmed: nat, done': set<string>)
    requires Distinct(batch)
    ensures SortedSoFar(Range(batch), g, confirmed, done', done, block, bumpBuilt)
  {
    g, done', confirmed := Sorted([], [], []), done, 0;
    ghost var seen: set<string> := {};
    var i := 0;
    while i < |batch|
      invariant 0 <= i <= |batch| && seen == Range(batch[..i])
      invariant SortedSoFar(seen, g, confirmed, done', done, block, bumpBuilt)
    {
      var t := batch[i];
      PrefixGrows(batch, i);
      SortNext(seen, t, g, confirmed, done', done, block, bumpBuilt);
      g := SortOne(g, t, done', block, bumpBuilt);
      if t !in done' && Lower(t) in block {
        confirmed := confirmed + 1;
        done' := done' + {t};
      }
      seen := seen + {t};
      i := i + 1;
    }
    assert batch[..i] == batch;
  }

  lemma PrefixGrows(batch: seq<string>, i: nat)
    requires Distinct(batch) && i < |batch|
    ensures Range(batch[..i + 1]) == Range(batch[..i]) + {batch[i]} && batch[i] !in Range(batch[..i])
  {
    assert batch[..i + 1] == batch[..i] + [batch[i]];
  }

  class SpvStore {
    var headers: map<int, Header>
    var memo: map<int, Header>
    var rows: Rows
    var trees: map<int, P.CachedTree>

    ghost function State(): P.Spv
      reads this
    {
      P.Spv(headers, memo, rows, trees)
    }

    constructor ()
      ensures State() == P.EMPTY
    {
      headers, memo, rows, trees := map[], map[], map[], map[];
    }

    /** The insert and, unless it throws, the memo. */
    method Store(hd: Header) returns (stored: bool)
      modifies this`headers, this`memo
      ensures stored == P.Insertable(old(headers), hd)
      ensures State() == if stored then P.Store(old(State()), hd) else old(State())
    {
      if !P.Insertable(headers, hd) { return false; }
      headers := headers[hd.height := hd];
      memo := memo[hd.height := hd];
      stored := true;
    }

    method GetHeader(h: Hash, height: int, reply: Option<Header>) returns (lookup: P.Lookup)
      modifies this`headers, this`memo
      ensures (State(), lookup) == P.GetHeader(h, old(State()), height, reply)
    {
      if height in memo { return P.Held(memo[height]); }
      if height in headers {
        memo := memo[height := headers[height]];
        return P.Held(headers[height]);
      }
      if reply.None? || !VerifyProofOfWork(h, reply.value) { return P.NotHeld; }
      var stored := Store(reply.value);
      lookup := if stored then P.Held(reply.value) else P.Thrown;
    }

    /** Withdraws by one conditional update, as the source's SQL does. */
    method DetectReorg(hd: Header)
      modifies this`headers, this`memo, this`rows
      ensures State() == P.DetectReorg(old(State()), hd)
    {
      if hd.height !in headers || headers[hd.height].hash == hd.hash { return; }
      headers := headers - {hd.height};
      memo := memo - {hd.height};
      rows := map t | t in rows ::
        if rows[t].blockHeight == Some(hd.height) && rows[t].spvVerified
        then rows[t].(spvVerified := false, status := P.Seen) else rows[t];
    }

    /** Headers failing their proof of work are passed over; a refused insert ends the loop. */
    method SyncTip(h: Hash, served: seq<Header>)
      modifies this`headers, this`memo, this`rows
      ensures State() == P.SyncTip(h, old(State()), served)
    {
      var i := 0;
      assert served[0..] == served;
      while i < |served|
        invariant 0 <= i <= |served|
        invariant trees == old(trees)
        invariant P.SyncTip(h, State(), served[i..]) == P.SyncTip(h, old(State()), served)
      {
        var header := served[i];
        assert served[i..][0] == header && served[i..][1..] == served[i + 1..];
        if VerifyProofOfWork(h, header) {
          DetectReorg(header);
          var stored := Store(header);
          if !stored { return; }
        }
        i := i + 1;
      }
    }

    method EnsureTree(h: Hash, height: int, list: Option<seq<string>>, reply: Option<Header>)
      returns (tree: Option<P.CachedTree>)
      modifies this`headers, this`memo, this`trees
      ensures (State(), tree) == P.EnsureTree(h, old(State()), height, list, reply)
    {
      var lookup := GetHeader(h, height, reply);
      if !lookup.Held? { return None; }
      var expected := Lower(lookup.header.merkleRoot);
      if height in trees {
        if trees[height].merkleRoot == expected { return Some(trees[height]); }
        trees := trees - {height};
        return None;
      }
      if list.None? { return None; }
      var built := BuildBlockMerkleTree(h, list.value);
      if built.None? { return None; }
      if built.value.root != expected { return None; }
      trees := trees[height := P.CachedTree(list.value, expected)];
      tree := Some(trees[height]);
    }

    /** The writers that carry no verdict: a reported height, a rejection, a row given up. */
    method Report(txid: string, height: int)
      modifies this`rows
      ensures State() == P.ReportHeight(old(State()), txid, height)
    {
      if txid in rows && rows[txid].status != P.Mined && rows[txid].blockHeight.None? {
        rows := rows[txid := rows[txid].(blockHeight := Some(height))];
      }
    }

    method MarkRejected(txid: string)
      modifies this`rows
      ensures State() == P.Reject(old(State()), txid)
    {
      if txid in rows && rows[txid].status != P.Mined { rows := rows[txid := rows[txid].(status := P.Failed)]; }
    }

    method MarkFailed(txid: string)
      modifies this`rows
      ensures State() == P.GiveUp(old(State()), txid)
    {
      if txid in rows { rows := rows[txid := rows[txid].(status := P.Failed)]; }
    }

    /** Many proofs in a few statements, each limited to rows still pending. */
    method RecordVerifiedProofsBatch(proofs: seq<string>, height: int, root: string)
      modifies this`rows
      ensures rows == AfterProofs(old(rows), Range(proofs), height, root)
    {
      var i := 0;
      while i < |proofs|
        invariant 0 <= i <= |proofs|
        invariant rows == AfterProofs(old(rows), Range(proofs[..i]), height, root)
      {
        var end := if i + PROOF_CHUNK < |proofs| then i + PROOF_CHUNK else |proofs|;
        var chunk := proofs[i..end];
        assert proofs[..end] == proofs[..i] + chunk;
        assert Range(proofs[..end]) == Range(proofs[..i]) + Range(chunk);
        rows := AfterProofs(rows, Range(chunk), height, root);
        i := end;
      }
      assert proofs[..i] == proofs;
    }

    /** Settles a batch of rows against a tree, then writes the three groups. */
    method ConfirmRowsFromTree(height: int, c: P.CachedTree, block: set<string>, batch: seq<string>,
                               bumpBuilt: set<string>, done: set<string>)
      returns (confirmed: nat, done': set<string>)
      requires block == P.InBlock(c) && Distinct(batch)
      modifies this`rows
      ensures rows == P.BatchRows(old(rows), Range(batch) - done, height, c, bumpBuilt)
      ensures done' == done + Settled(Range(batch), done, block)
      ensures confirmed == |done' - done|
    {
      var g;
      g, confirmed, done' := SortBatch(batch, block, bumpBuilt, done);
      assert done' - done == Settled(Range(batch), done, block);
      WritesAreVerdicts(rows, g, Range(batch), done, bumpBuilt, height, c);
      RecordVerifiedProofsBatch(g.proofs, height, c.merkleRoot);
      rows := WithConfirmed(rows, Range(g.minedWithoutBump), height, c.merkleRoot);
      rows := Cleared(rows, Range(g.absent));
    }

    /** The pending rows among some block ids. */
    method SelectPending(chunk: seq<string>) returns (batch: seq<string>)
      requires Distinct(chunk)
      ensures Range(batch) == Pending(rows, Range(chunk)) && Distinct(batch)
    {
      batch := [];
      for i := 0 to |chunk|
        invariant Range(batch) == Pending(rows, Range(chunk[..i])) && Distinct(batch)
      {
        var t := chunk[i];
        assert chunk[..i + 1] == chunk[..i] + [t];
        AddToRange(chunk[..i], t);
        if t in rows && rows[t].status == P.Seen {
          assert t !in Range(chunk[..i]);
          AddDistinct(batch, t);
          AddToRange(batch, t);
          batch := batch + [t];
        }
      }
      assert chunk[..|chunk|] == chunk;
    }

    /** Matches a whole verified block against the backlog, `chunkSize` ids at a time. */
    method DrainHeight(h: Hash, height: int, done: set<string>, bumpBuilt: set<string>, chunkSize: nat,
                       list: Option<seq<string>>, reply: Option<Header>)
      returns (confirmed: nat, done': set<string>)
      requires chunkSize > 0 && P.TreesSound(h, State())
      modifies this
      ensures State() == P.DrainHeight(h, old(State()), height, done, list, reply)
      ensures confirmed == |done' - done|
      ensures var tree := P.EnsureTree(h, old(State()), height, list, reply).1;
        done' == done + ((if tree.None? then {} else Pending(old(rows), P.InBlock(tree.value))) - done)
    {
      var tree := EnsureTree(h, height, list, reply);
      if tree.None? { return 0, done; }
      var c := tree.value;
      TreeIsValid(h, old(State()), height, list, reply);
      ghost var rows0 := rows;
      confirmed, done' := MatchBlock(height, c, done, bumpBuilt, chunkSize);
      ClearAfterMatch(rows0, height, c, done);
      rows := ClearedStamps(rows, height);
    }

    method MatchBlock(height: int, c: P.CachedTree, done: set<string>, bumpBuilt: set<string>, chunkSize: nat)
      returns (confirmed: nat, done': set<string>)
      requires chunkSize > 0 && ValidList(c.txids)
      modifies this`rows
      ensures done' == done + (Pending(old(rows), P.InBlock(c)) - done) && confirmed == |done' - done|
      ensures rows == WithConfirmed(old(rows), Pending(old(rows), P.InBlock(c)) - done, height, c.merkleRoot)
    {
      var block := P.InBlock(c);
      var keys := Keys(block);
      confirmed, done' := 0, done;
      var i := 0;
      while i < |keys|
        invariant 0 <= i <= |keys|
        invariant done' == done + (Pending(old(rows), Range(keys[..i])) - done)
        invariant confirmed == |done' - done|
        invariant rows == WithConfirmed(old(rows), Pending(old(rows), Range(keys[..i])) - done, height, c.merkleRoot)
      {
        var end := if i + chunkSize < |keys| then i + chunkSize else |keys|;
        var chunk := keys[i..end];
        DistinctSlices(keys, i, end);
        ghost var done0 := done';
        var batch := SelectPending(chunk);
        ChunkConfirms(old(rows), Range(keys[..i]), Range(chunk), done, height, c, bumpBuilt);
        var n;
        n, done' := ConfirmRowsFromTree(height, c, block, batch, bumpBuilt, done');
        DisjointSizes(done, done0, done');
        confirmed := confirmed + n;
        i := end;
      }
      assert keys[..i] == keys;
    }
  }

  lemma TreeIsValid(h: Hash, s: P.Spv, height: int, list: Option<seq<string>>, reply: Option<Header>)
    requires P.TreesSound(h, s)
    ensures var tree := P.EnsureTree(h, s, height, list, reply).1; tree.Some? ==> P.TreeSound(h, tree.value)
  {
  }

  /** Pending rows still stamped with the height lose the stamp. */
  function ClearedStamps(rows: Rows, height: int): Rows {
    map t | t in rows ::
      if rows[t].status == P.Seen && rows[t].blockHeight == Some(height) then rows[t].(blockHeight := None)
      else rows[t]
  }

  lemma ClearAfterMatch(rows: Rows, height: int, c: P.CachedTree, done: set<string>)
    ensures ClearedStamps(WithConfirmed(rows, Pending(rows, P.InBlock(c)) - done, height, c.merkleRoot), height)
            == P.DrainRows(rows, height, c, done)
  {
  }

  /**
   What a drained block leaves behind: its pending rows mined and verified at the height, no
   pending row carrying the height, and every other status as it was. A row some earlier block
   of the same cycle already settled is skipped, and only such a row can stay pending.
   */
  lemma DrainedBlock(h: Hash, s: P.Spv, height: int, done: set<string>, list: Option<seq<string>>,
                     reply: Option<Header>)
    requires P.EnsureTree(h, s, height, list, reply).1.Some?
    ensures var block := P.InBlock(P.EnsureTree(h, s, height, list, reply).1.value);
      var s' := P.DrainHeight(h, s, height, done, list, reply);
      && s'.rows.Keys == s.rows.Keys
      && (forall t :: t in s.rows && s.rows[t].status == P.Seen && t in block ==>
            (s'.rows[t].status == P.Mined && s'.rows[t].blockHeight == Some(height) && s'.rows[t].spvVerified
             <==> t !in done))
      && (forall t :: t in s.rows && s'.rows[t].status == P.Seen ==> s'.rows[t].blockHeight != Some(height))
      && (forall t :: t in s.rows && !(s.rows[t].status == P.Seen && t in block && t !in done) ==>
            s'.rows[t].status == s.rows[t].status && s'.rows[t].spvVerified == s.rows[t].spvVerified)
  {
    EnsureTreeRows(h, s, height, list, reply);
    var c := P.EnsureTree(h, s, height, list, reply).1.value;
    RowsAfterDrain(s.rows, height, c, done);
  }

  lemma RowsAfterDrain(rows: Rows, height: int, c: P.CachedTree, done: set<string>)
    ensures var after := P.DrainRows(rows, height, c, done);
      && after.Keys == rows.Keys
      && (forall t :: t in rows && rows[t].status == P.Seen && t in P.InBlock(c) ==>
            (after[t].status == P.Mined && after[t].blockHeight == Some(height) && after[t].spvVerified
             <==> t !in done))
      && (forall t :: t in rows && after[t].status == P.Seen ==> after[t].blockHeight != Some(height))
      && (forall t :: t in rows && !(rows[t].status == P.Seen && t in P.InBlock(c) && t !in done) ==>
            after[t].status == rows[t].status && after[t].spvVerified == rows[t].spvVerified)
  {
  }

  lemma EnsureTreeRows(h: Hash, s: P.Spv, height: int, list: Option<seq<string>>, reply: Option<Header>)
    ensures P.EnsureTree(h, s, height, list, reply).0.rows == s.rows
  {
    var (s1, lookup) := P.GetHeader(h, s, height, reply);
    assert s1.rows == s.rows;
    if lookup.Held? {
      assert P.TreeFor(h, s1, height, list, Lower(lookup.header.merkleRoot)).0.rows == s1.rows;
    }
  }
}
