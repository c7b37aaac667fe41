/**
 The treasury pool (`FundingUtxoManager`): multi-input acquisition, and reconciliation of the
 local table against a chain snapshot.

 Outpoints are trimmed keys. The rows a query returns, and their order among equal amounts,
 are the database's choice and enter as an argument with the query's own promises.
 */
module FundingPool {
  import opened Lists
  import opened Options
  import opened TreasurySelection
  import opened SpendLedger
  import opened ChainDepth

  const MIN_USABLE_SATS := 546

  datatype PoolRow = PoolRow(sats: int, locked: bool, createdAt: Option<int>)

  type Pool = map<Outpoint, PoolRow>

  datatype ChainUtxo = ChainUtxo(o: Outpoint, value: int, confirmed: bool)

  // ---------- what a reconcile does ----------

  /** The snapshot, the clock and the guard of one run, with the ledger it starts from. */
  datatype Snapshot = Snapshot(
    chain: seq<ChainUtxo>, now: int, guardMs: int,
    spentAt: map<Outpoint, int>, broadcastAt: map<string, int>)

  function Listed(chain: seq<ChainUtxo>): set<Outpoint> { set u | u in chain :: u.o }

  /** The first usable listing of an outpoint. */
  function FirstValue(chain: seq<ChainUtxo>, o: Outpoint): Option<int> {
    if chain == [] then None
    else if chain[0].o == o && chain[0].value >= MIN_USABLE_SATS then Some(chain[0].value)
    else FirstValue(chain[1..], o)
  }

  predicate Retained(s: Snapshot, o: Outpoint, row: PoolRow) {
    || InGuard(row.createdAt, s.now, s.guardMs)
    || InGuard(Fresh(s.spentAt, o, s.now, s.guardMs), s.now, s.guardMs)
    || InGuard(Fresh(s.broadcastAt, o.txid, s.now, s.guardMs), s.now, s.guardMs)
  }

  predicate Suppressed(s: Snapshot, o: Outpoint) {
    InGuard(Fresh(s.spentAt, o, s.now, s.guardMs), s.now, s.guardMs)
  }

  predicate Adds(s: Snapshot, pool: Pool, o: Outpoint) {
    o !in pool && FirstValue(s.chain, o).Some? && !Suppressed(s, o)
  }

  predicate Stays(s: Snapshot, pool: Pool, o: Outpoint) {
    o in pool && (o in Listed(s.chain) || Retained(s, o, pool[o]))
  }

  function NewRow(s: Snapshot, o: Outpoint): PoolRow
    requires FirstValue(s.chain, o).Some?
  {
    PoolRow(FirstValue(s.chain, o).value, false, Some(s.now))
  }

  /** The pool after a reconcile. */
  function Reconciled(s: Snapshot, pool: Pool): Pool {
    (map o | o in pool && Stays(s, pool, o) :: pool[o])
    + (map o | o in Listed(s.chain) && Adds(s, pool, o) :: NewRow(s, o))
  }

  /** The outpoints and transactions whose ledger entries a run looks at. */
  function LookedUp(s: Snapshot, pool: Pool): set<Outpoint> {
    (set u | u in s.chain && u.o !in pool && u.value >= MIN_USABLE_SATS :: u.o)
    + (set o | o in pool && o !in Listed(s.chain))
  }

  function LookedUpTxids(s: Snapshot, pool: Pool): set<string> {
    set o | o in pool && o !in Listed(s.chain) :: o.txid
  }

  /** The ledger left behind, ready for the next run on the same snapshot and clock. */
  function Later(s: Snapshot, pool: Pool): Snapshot {
    s.(spentAt := Consulted(s.spentAt, LookedUp(s, pool), s.now, s.guardMs),
       broadcastAt := Consulted(s.broadcastAt, LookedUpTxids(s, pool), s.now, s.guardMs))
  }

  lemma {:induction false} FirstValueListed(chain: seq<ChainUtxo>, o: Outpoint)
    ensures FirstValue(chain, o).Some? <==> exists u :: u in chain && u.o == o && u.value >= MIN_USABLE_SATS
    ensures FirstValue(chain, o).Some? ==> o in Listed(chain) && FirstValue(chain, o).value >= MIN_USABLE_SATS
  {
    if chain != [] {
      FirstValueListed(chain[1..], o);
      assert chain[0] in chain;
      if FirstValue(chain[1..], o).Some? {
        var u :| u in chain[1..] && u.o == o && u.value >= MIN_USABLE_SATS;
        assert u in chain;
      }
      forall u | u in chain ensures u == chain[0] || u in chain[1..] {}
    }
  }

  /** Forced: the pool's outpoints become those it shares with the chain, and every usable listing. */
  lemma ForcedIsExact(s: Snapshot, pool: Pool)
    requires s.guardMs == 0
    ensures Reconciled(s, pool).Keys
         == (pool.Keys * Listed(s.chain)) + (set u | u in s.chain && u.value >= MIN_USABLE_SATS :: u.o)
    ensures forall o :: o in pool && o in Listed(s.chain) ==> Reconciled(s, pool)[o] == pool[o]
  {
    var r := Reconciled(s, pool);
    forall o ensures o in r <==> (o in pool && o in Listed(s.chain)) || FirstValue(s.chain, o).Some? {
      FirstValueListed(s.chain, o);
    }
    forall o
      ensures FirstValue(s.chain, o).Some? <==> o in (set u | u in s.chain && u.value >= MIN_USABLE_SATS :: u.o)
    {
      FirstValueListed(s.chain, o);
    }
  }

  /**
   Guarded: a row created, spent or broadcast inside the window is never deleted, an outpoint
   spent inside it is never brought back, and everything outside it follows the chain exactly.
   */
  lemma GuardHolds(s: Snapshot, pool: Pool, o: Outpoint)
    ensures var recent := InGuard(Fresh(s.spentAt, o, s.now, s.guardMs), s.now, s.guardMs);
      && (o in pool && (InGuard(pool[o].createdAt, s.now, s.guardMs) || recent
                        || InGuard(Fresh(s.broadcastAt, o.txid, s.now, s.guardMs), s.now, s.guardMs))
          ==> o in Reconciled(s, pool) && Reconciled(s, pool)[o] == pool[o])
      && (o !in pool && recent ==> o !in Reconciled(s, pool))
      && (o !in pool && !recent ==>
            (o in Reconciled(s, pool) <==> exists u :: u in s.chain && u.o == o && u.value >= MIN_USABLE_SATS))
      && (o in pool && !Retained(s, o, pool[o]) ==> (o in Reconciled(s, pool) <==> o in Listed(s.chain)))
  {
    FirstValueListed(s.chain, o);
  }

  lemma ConsultedReadsAlike<K>(m: map<K, int>, ks: set<K>, k: K, now: int, guardMs: int)
    ensures Fresh(Consulted(m, ks, now, guardMs), k, now, guardMs) == Fresh(m, k, now, guardMs)
  {
  }

  lemma LaterReadsAlike(s: Snapshot, pool: Pool, o: Outpoint, row: PoolRow)
    ensures Retained(Later(s, pool), o, row) <==> Retained(s, o, row)
    ensures Suppressed(Later(s, pool), o) <==> Suppressed(s, o)
  {
    ConsultedReadsAlike(s.spentAt, LookedUp(s, pool), o, s.now, s.guardMs);
    ConsultedReadsAlike(s.broadcastAt, LookedUpTxids(s, pool), o.txid, s.now, s.guardMs);
  }

  /** A second run on the same snapshot and clock changes neither the pool nor the ledger. */
  lemma SecondRunChangesNothing(s: Snapshot, pool: Pool)
    ensures var pool' := Reconciled(s, pool);
      && Reconciled(Later(s, pool), pool') == pool'
      && Later(Later(s, pool), pool') == Later(s, pool)
  {
    var s', pool' := Later(s, pool), Reconciled(s, pool);
    forall o | o in pool' ensures Stays(s', pool', o) {
      FirstValueListed(s.chain, o);
      if o in pool && o !in Listed(s.chain) { LaterReadsAlike(s, pool, o, pool[o]); }
    }
    forall o ensures !Adds(s', pool', o) {
      if o !in pool' && FirstValue(s.chain, o).Some? {
        FirstValueListed(s.chain, o);
        LaterReadsAlike(s, pool, o, NewRow(s, o));
      }
    }
    assert Reconciled(s', pool') == pool';
    SecondLedger(s, pool);
  }

  lemma SecondLedger(s: Snapshot, pool: Pool)
    ensures var pool' := Reconciled(s, pool); Later(Later(s, pool), pool') == Later(s, pool)
  {
    var s', pool' := Later(s, pool), Reconciled(s, pool);
    forall o | o in LookedUp(s', pool') ensures o in LookedUp(s, pool) {
      if o !in pool' {
        var u :| u in s.chain && u.o == o && u.value >= MIN_USABLE_SATS;
        assert o in Listed(s.chain);
        assert o !in pool;
      } else {
        FirstValueListed(s.chain, o);
        assert o in pool;
      }
    }
    forall t | t in LookedUpTxids(s', pool') ensures t in LookedUpTxids(s, pool) {
      var o :| o in pool' && o !in Listed(s.chain) && o.txid == t;
      FirstValueListed(s.chain, o);
      assert o in pool;
    }
    ConsultedTwice(s.spentAt, LookedUp(s, pool), LookedUp(s', pool'), s.now, s.guardMs);
    ConsultedTwice(s.broadcastAt, LookedUpTxids(s, pool), LookedUpTxids(s', pool'), s.now, s.guardMs);
  }

  lemma ConsultedTwice<K>(m: map<K, int>, ks: set<K>, fewer: set<K>, now: int, guardMs: int)
    requires fewer <= ks
    ensures Consulted(Consulted(m, ks, now, guardMs), fewer, now, guardMs) == Consulted(m, ks, now, guardMs)
  {
  }

  /** Rows a prefix of the snapshot has added so far. */
  function AddedBy(s: Snapshot, pool: Pool): Pool {
    map o | o in Listed(s.chain) && Adds(s, pool, o) :: NewRow(s, o)
  }

  function ChainLookups(chain: seq<ChainUtxo>, pool: Pool): set<Outpoint> {
    set u | u in chain && u.o !in pool && u.value >= MIN_USABLE_SATS :: u.o
  }

  function Upto(s: Snapshot, i: nat): Snapshot
    requires i <= |s.chain|
  {
    s.(chain := s.chain[..i])
  }

  lemma {:induction false} FirstValueAppend(chain: seq<ChainUtxo>, u: ChainUtxo, o: Outpoint)
    ensures FirstValue(chain + [u], o) ==
      if FirstValue(chain, o).Some? then FirstValue(chain, o)
      else if u.o == o && u.value >= MIN_USABLE_SATS then Some(u.value) else None
  {
    if chain == [] {
      assert [u][1..] == [] && chain + [u] == [u];
    } else {
      FirstValueAppend(chain[1..], u, o);
      assert (chain + [u])[1..] == chain[1..] + [u];
    }
  }

  lemma ListingsNext(s: Snapshot, pool: Pool, i: nat)
    requires i < |s.chain|
    ensures var u := s.chain[i];
      ChainLookups(s.chain[..i + 1], pool) ==
        ChainLookups(s.chain[..i], pool) + (if u.o in pool || u.value < MIN_USABLE_SATS then {} else {u.o})
  {
    assert s.chain[..i + 1] == s.chain[..i] + [s.chain[i]];
  }

  lemma AddsNext(s: Snapshot, pool: Pool, i: nat, o: Outpoint)
    requires i < |s.chain|
    ensures var u := s.chain[i];
      var before, after := AddedBy(Upto(s, i), pool), AddedBy(Upto(s, i + 1), pool);
      if o in before then o in after && after[o] == before[o]
      else if o == u.o && u.o !in pool && u.value >= MIN_USABLE_SATS && !Suppressed(s, u.o)
      then o in after && after[o] == PoolRow(u.value, false, Some(s.now))
      else o !in after
  {
    var u := s.chain[i];
    assert s.chain[..i + 1] == s.chain[..i] + [u];
    FirstValueAppend(s.chain[..i], u, o);
    FirstValueListed(s.chain[..i], o);
    FirstValueListed(s.chain[..i + 1], o);
  }

  lemma AddedByNext(s: Snapshot, pool: Pool, i: nat)
    requires i < |s.chain|
    ensures var u := s.chain[i];
      var before, after := AddedBy(Upto(s, i), pool), AddedBy(Upto(s, i + 1), pool);
      after == if u.o in pool || u.value < MIN_USABLE_SATS || Suppressed(s, u.o) || u.o in before then before
               else before[u.o := PoolRow(u.value, false, Some(s.now))]
  {
    forall o { AddsNext(s, pool, i, o); }
  }

  /** The pool and the ledger after the first `i` listings. */
  ghost predicate Added(s: Snapshot, local: Pool, i: nat, rows: Pool, spentAt: map<Outpoint, int>) {
    && i <= |s.chain|
    && rows == local + AddedBy(Upto(s, i), local)
    && spentAt == Consulted(s.spentAt, ChainLookups(s.chain[..i], local), s.now, s.guardMs)
  }

  predicate Usable(local: Pool, u: ChainUtxo) { u.o !in local && u.value >= MIN_USABLE_SATS }

  lemma RowsNext(s: Snapshot, local: Pool, i: nat, rows: Pool, spentAt: map<Outpoint, int>)
    requires i < |s.chain| && Added(s, local, i, rows, spentAt)
    ensures var u := s.chain[i];
      local + AddedBy(Upto(s, i + 1), local)
      == if Usable(local, u) && !Suppressed(s, u.o) && u.o !in rows
         then rows[u.o := PoolRow(u.value, false, Some(s.now))]
         else rows
  {
    AddedByNext(s, local, i);
  }

  /** One more listing: skipped, or looked up and then suppressed, ignored or inserted. */
  lemma AddedNext(s: Snapshot, local: Pool, i: nat, rows: Pool, spentAt: map<Outpoint, int>)
    requires i < |s.chain| && Added(s, local, i, rows, spentAt)
    ensures var u := s.chain[i];
      if !Usable(local, u) then Added(s, local, i + 1, rows, spentAt)
      else
        var inserts := !InGuard(Fresh(spentAt, u.o, s.now, s.guardMs), s.now, s.guardMs) && u.o !in rows;
        Added(s, local, i + 1, if inserts then rows[u.o := PoolRow(u.value, false, Some(s.now))] else rows,
              Consulted(spentAt, {u.o}, s.now, s.guardMs))
  {
    var u := s.chain[i];
    ListingsNext(s, local, i);
    RowsNext(s, local, i, rows, spentAt);
    if Usable(local, u) {
      ConsultedReadsAlike(s.spentAt, ChainLookups(s.chain[..i], local), u.o, s.now, s.guardMs);
      ConsultedUnion(s.spentAt, ChainLookups(s.chain[..i], local), {u.o}, s.now, s.guardMs);
    } else {
      assert ChainLookups(s.chain[..i], local) + {} == ChainLookups(s.chain[..i], local);
    }
  }

  /** Local rows outside `rest` have been judged; the others are still there. */
  function Kept(s: Snapshot, local: Pool, rest: set<Outpoint>): Pool {
    map o | o in local && (o in rest || Stays(s, local, o)) :: local[o]
  }

  function Judged(s: Snapshot, local: Pool, rest: set<Outpoint>): set<Outpoint> {
    set o | o in local && o !in rest && o !in Listed(s.chain)
  }

  function TxidsOf(os: set<Outpoint>): set<string> { set o | o in os :: o.txid }

  ghost predicate Pruned(s: Snapshot, local: Pool, was: map<Outpoint, int>, rest: set<Outpoint>, rows: Pool,
                         spentAt: map<Outpoint, int>, broadcastAt: map<string, int>, cooling: map<Outpoint, int>)
  {
    && rest <= local.Keys
    && rows == Kept(s, local, rest) + AddedBy(s, local)
    && spentAt == Consulted(s.spentAt, ChainLookups(s.chain, local) + Judged(s, local, rest), s.now, s.guardMs)
    && broadcastAt == Consulted(s.broadcastAt, TxidsOf(Judged(s, local, rest)), s.now, s.guardMs)
    && cooling == map o | o in was && (o in local ==> o in rest || Stays(s, local, o)) :: was[o]
  }

  lemma PrunedListed(s: Snapshot, local: Pool, was: map<Outpoint, int>, rest: set<Outpoint>, rows: Pool,
                     spentAt: map<Outpoint, int>, broadcastAt: map<string, int>, cooling: map<Outpoint, int>,
                     o: Outpoint)
    requires Pruned(s, local, was, rest, rows, spentAt, broadcastAt, cooling) && o in rest && o in Listed(s.chain)
    ensures Pruned(s, local, was, rest - {o}, rows, spentAt, broadcastAt, cooling)
  {
    assert Judged(s, local, rest - {o}) == Judged(s, local, rest);
    assert Kept(s, local, rest - {o}) == Kept(s, local, rest);
  }

  lemma PrunedUnlisted(s: Snapshot, local: Pool, was: map<Outpoint, int>, rest: set<Outpoint>, rows: Pool,
                       spentAt: map<Outpoint, int>, broadcastAt: map<string, int>, cooling: map<Outpoint, int>,
                       o: Outpoint)
    requires Pruned(s, local, was, rest, rows, spentAt, broadcastAt, cooling) && o in rest && o !in Listed(s.chain)
    ensures var keeps := InGuard(local[o].createdAt, s.now, s.guardMs)
        || InGuard(Fresh(spentAt, o, s.now, s.guardMs), s.now, s.guardMs)
        || InGuard(Fresh(broadcastAt, o.txid, s.now, s.guardMs), s.now, s.guardMs);
      Pruned(s, local, was, rest - {o}, if keeps then rows else rows - {o},
             Consulted(spentAt, {o}, s.now, s.guardMs), Consulted(broadcastAt, {o.txid}, s.now, s.guardMs),
             if keeps then cooling else cooling - {o})
  {
    var judged := Judged(s, local, rest);
    var looked := ChainLookups(s.chain, local) + judged;
    JudgedNext(s, local, rest, o);
    ConsultedReadsAlike(s.spentAt, looked, o, s.now, s.guardMs);
    ConsultedUnion(s.spentAt, looked, {o}, s.now, s.guardMs);
    ConsultedReadsAlike(s.broadcastAt, TxidsOf(judged), o.txid, s.now, s.guardMs);
    ConsultedUnion(s.broadcastAt, TxidsOf(judged), {o.txid}, s.now, s.guardMs);
    KeptNext(s, local, rest, o);
  }

  lemma JudgedNext(s: Snapshot, local: Pool, rest: set<Outpoint>, o: Outpoint)
    requires o in rest && o in local && o !in Listed(s.chain)
    ensures var judged := Judged(s, local, rest);
      && Judged(s, local, rest - {o}) == judged + {o}
      && TxidsOf(judged + {o}) == TxidsOf(judged) + {o.txid}
      && ChainLookups(s.chain, local) + (judged + {o}) == ChainLookups(s.chain, local) + judged + {o}
  {
  }

  lemma KeptNext(s: Snapshot, local: Pool, rest: set<Outpoint>, o: Outpoint)
    requires o in rest && o in local
    ensures var rows := Kept(s, local, rest) + AddedBy(s, local);
      Kept(s, local, rest - {o}) + AddedBy(s, local) == if Stays(s, local, o) then rows else rows - {o}
  {
    assert o !in AddedBy(s, local);
  }

  lemma PrunedAll(s: Snapshot, local: Pool, was: map<Outpoint, int>, rows: Pool,
                  spentAt: map<Outpoint, int>, broadcastAt: map<string, int>, cooling: map<Outpoint, int>)
    requires Pruned(s, local, was, {}, rows, spentAt, broadcastAt, cooling)
    ensures rows == Reconciled(s, local)
    ensures spentAt == Later(s, local).spentAt && broadcastAt == Later(s, local).broadcastAt
    ensures cooling == StillCooling(was, local, rows)
  {
    AllLookedUp(s, local);
    AllJudged(s, local);
  }

  lemma AllLookedUp(s: Snapshot, local: Pool)
    ensures LookedUp(s, local) == ChainLookups(s.chain, local) + Judged(s, local, {})
    ensures LookedUpTxids(s, local) == TxidsOf(Judged(s, local, {}))
  {
  }

  lemma AllJudged(s: Snapshot, local: Pool)
    ensures Kept(s, local, {}) + AddedBy(s, local) == Reconciled(s, local)
  {
  }

  lemma ConsultedUnion<K>(m: map<K, int>, a: set<K>, b: set<K>, now: int, guardMs: int)
    ensures Consulted(Consulted(m, a, now, guardMs), b, now, guardMs) == Consulted(m, a + b, now, guardMs)
  {
  }

  // ---------- acquisition ----------

  datatype Reason =
    | Ok
    | NoUnlockedCandidates
    | AllCandidatesCooling
    | InsufficientWithinInputCap
    | UnconfirmedChainTooDeep

  datatype Selection = Selection(coins: seq<Coin>, examined: nat, required: int, reason: Reason)

  /** What the candidate query promises: unlocked usable rows, largest first, each once. */
  ghost predicate QueryAnswer(pool: Pool, list: seq<Coin>) {
    && LargestFirst(list) && NoRepeats(list)
    && forall i :: 0 <= i < |list| ==>
         var c := list[i];
         c.id in pool && !pool[c.id].locked && pool[c.id].sats == c.sats && c.sats >= MIN_USABLE_SATS
  }

  ghost predicate NonePaysBefore(selected: seq<Coin>, minSats: int, fee: nat -> int) {
    forall n :: 0 < n < |selected| ==> !Pays(selected, n, minSats, fee)
  }

  lemma NonePaysYet(selected: seq<Coin>, row: Coin, minSats: int, fee: nat -> int)
    requires NonePaysBefore(selected, minSats, fee) && (selected != [] ==> Total(selected) < minSats + fee(|selected|))
    ensures NonePaysBefore(selected + [row], minSats, fee)
  {
    var more := selected + [row];
    forall n | 0 < n < |more| ensures !Pays(more, n, minSats, fee) {
      assert more[..n] == selected[..n];
      if n == |selected| { assert selected[..n] == selected; } else { assert !Pays(selected, n, minSats, fee); }
    }
  }

  lemma LastIsLeast(list: seq<Coin>)
    requires list != [] && LargestFirst(list) && NoRepeats(list)
    ensures var front, last := list[..|list| - 1], list[|list| - 1];
      LargestFirst(front) && NoRepeats(front) && forall c :: c in front ==> c.sats >= last.sats && c != last
  {
    var front, last := list[..|list| - 1], list[|list| - 1];
    forall c | c in front ensures c.sats >= last.sats && c != last {
      var k :| 0 <= k < |front| && front[k] == c;
      assert list[k] == c;
    }
  }

  lemma SnocSorted(e: seq<Coin>, last: Coin)
    requires LargestFirst(e) && NoRepeats(e) && forall c :: c in e ==> c.sats >= last.sats && c != last
    ensures LargestFirst(e + [last]) && NoRepeats(e + [last])
  {
  }

  /**
   When a spend may take an output: its row is unlocked and usable, any cooldown of it is over,
   and its unconfirmed chain is no deeper than the cap.
   */
  predicate MayPick(rows: Pool, cooling: map<Outpoint, int>, t: Tracker, cap: nat, o: Outpoint, now: int) {
    && o in rows && !rows[o].locked && rows[o].sats >= MIN_USABLE_SATS
    && (o in cooling ==> cooling[o] <= now)
    && (o in t.depth ==> t.depth[o] <= cap)
  }

  ghost function Among(list: seq<Coin>, ids: set<Outpoint>): seq<Coin> {
    if list == [] then []
    else Among(list[..|list| - 1], ids) + if list[|list| - 1].id in ids then [list[|list| - 1]] else []
  }

  /** The cooldowns left once those that are over are pruned. */
  function Unexpired(cooling: map<Outpoint, int>, now: int): map<Outpoint, int> {
    map o | o in cooling && cooling[o] > now :: cooling[o]
  }

  function WithLocks(rows: Pool, ids: set<Outpoint>, locked: bool): Pool {
    map o | o in rows :: if o in ids then rows[o].(locked := locked) else rows[o]
  }

  // ---------- recording a spend ----------

  /** The change output a spend creates, if any; a missing txid is the empty string. */
  datatype Change = Change(vout: int, sats: int, hasScript: bool)

  function CreatedVouts(txid: string, change: Option<Change>): seq<int> {
    if txid != "" && change.Some? && change.value.sats >= MIN_USABLE_SATS then [change.value.vout] else []
  }

  /** The rows once the spend commits; None when its change row is already there. */
  function RowsAfterSpend(rows: Pool, spent: seq<Outpoint>, txid: string, change: Option<Change>, now: int)
    : Option<Pool>
  {
    var left := rows - (set o | o in spent);
    if CreatedVouts(txid, change) == [] || !change.value.hasScript then Some(left)
    else
      var o := Outpoint(txid, change.value.vout);
      if o in left then None else Some(left[o := PoolRow(change.value.sats, false, Some(now))])
  }

  function CoolingAfterSpend(cooling: map<Outpoint, int>, spent: seq<Outpoint>, txid: string, change: Option<Change>,
                             until: int): map<Outpoint, int>
  {
    var left := cooling - (set o | o in spent);
    if CreatedVouts(txid, change) == [] then left else left[Outpoint(txid, change.value.vout) := until]
  }

  /** The cooldowns once the rows of `before` that `after` lacks are deleted. */
  function StillCooling(cooling: map<Outpoint, int>, before: Pool, after: Pool): map<Outpoint, int> {
    map o | o in cooling && (o in before ==> o in after) :: cooling[o]
  }

  function SpentNoted(was: map<Outpoint, int>, spent: seq<Outpoint>, now: int): map<Outpoint, int> {
    map o | o in was.Keys + (set x | x in spent) :: if o in spent then now else was[o]
  }

  /** Within capacity the ledger is exact; past it, the newest entries stay. */
  ghost predicate SpendNoted(was: map<Outpoint, int>, spent: seq<Outpoint>, now: int, spentAt: map<Outpoint, int>) {
    |was| <= LEDGER_MAX ==> KeepsNewest(SpentNoted(was, spent, now), spentAt)
  }

  ghost predicate BroadcastNoted(was: map<string, int>, txid: string, now: int, broadcastAt: map<string, int>) {
    if txid == "" then broadcastAt == was else KeepsNewest(was[txid := now], broadcastAt)
  }

  lemma NotedNext(was: map<Outpoint, int>, spent: seq<Outpoint>, i: nat, now: int)
    requires i < |spent|
    ensures SpentNoted(was, spent[..i + 1], now) == SpentNoted(was, spent[..i], now)[spent[i] := now]
  {
    assert spent[..i + 1] == spent[..i] + [spent[i]];
  }

  /** The spend a caller records, as the runs of the treasury see it. */
  function SpendOf(spent: seq<Outpoint>, txid: string, change: Option<Change>): Spend {
    Spend(spent, txid, CreatedVouts(txid, change))
  }

  /** A refill's record commits exactly when the insert of its change does, and then swaps those rows. */
  lemma RecordAgrees(rows: Pool, spent: seq<Outpoint>, txid: string, change: Option<Change>, now: int)
    requires change.Some? ==> change.value.hasScript
    ensures var s := SpendOf(spent, txid, change); var after := RowsAfterSpend(rows, spent, txid, change, now);
      && (after.Some? <==> Commits(rows.Keys, s, Insert))
      && (after.Some? ==> after.value.Keys == rows.Keys - Ins(s) + Outs(s))
  {
    var s := SpendOf(spent, txid, change);
    if s.vouts != [] { assert Outs(s) == {Outpoint(txid, change.value.vout)}; } else { assert Outs(s) == {}; }
  }

  // ---------- reshaping the pool ----------

  datatype Output = Output(vout: int, sats: int)

  function Vouts(outputs: seq<Output>): (vouts: seq<int>)
    ensures |vouts| == |outputs|
  {
    seq(|outputs|, i requires 0 <= i < |outputs| => outputs[i].vout)
  }

  /** Inserts that leave a row already there as it is. */
  function InsertOutputs(rows: Pool, txid: string, outputs: seq<Output>, now: int): Pool {
    if outputs == [] then rows
    else
      var before, out := InsertOutputs(rows, txid, outputs[..|outputs| - 1], now), outputs[|outputs| - 1];
      var o := Outpoint(txid, out.vout);
      if o in before then before else before[o := PoolRow(out.sats, false, Some(now))]
  }

  function CoolOutputs(cooling: map<Outpoint, int>, txid: string, outputs: seq<Output>, until: int)
    : map<Outpoint, int>
  {
    if outputs == [] then cooling
    else
      var before, out := CoolOutputs(cooling, txid, outputs[..|outputs| - 1], until), outputs[|outputs| - 1];
      before[Outpoint(txid, out.vout) := until]
  }

  /** A reshape always goes through: its rows are the outputs and what the inputs left, rows already there unchanged. */
  lemma {:induction false} ReshapeAgrees(rows: Pool, txid: string, outputs: seq<Output>, now: int)
    ensures var after := InsertOutputs(rows, txid, outputs, now);
      && after.Keys == rows.Keys + Outs(Spend([], txid, Vouts(outputs)))
      && forall o :: o in rows ==> after[o] == rows[o]
    decreases |outputs|
  {
    if outputs == [] {
      assert Outs(Spend([], txid, [])) == {};
    } else {
      var front, last := outputs[..|outputs| - 1], outputs[|outputs| - 1];
      ReshapeAgrees(rows, txid, front, now);
      assert Vouts(outputs) == Vouts(front) + [last.vout];
      forall o ensures o in Outs(Spend([], txid, Vouts(outputs))) <==>
                       o in Outs(Spend([], txid, Vouts(front))) || o == Outpoint(txid, last.vout) {
        assert o.vout in Vouts(outputs) <==> o.vout in Vouts(front) || o.vout == last.vout;
      }
    }
  }

  // ---------- reconciliation and the depth tracker ----------

  /** Every listing with a height confirms its outpoint, in order. */
  function ConfirmListed(t: Tracker, chain: seq<ChainUtxo>): Tracker {
    if chain == [] then t
    else
      var before, u := ConfirmListed(t, chain[..|chain| - 1]), chain[|chain| - 1];
      if u.confirmed then Confirm(before, u.o) else before
  }

  function Outside(list: seq<Outpoint>, os: set<Outpoint>): seq<Outpoint> {
    if list == [] then [] else (if list[0] in os then [] else [list[0]]) + Outside(list[1..], os)
  }

  /** Forgetting many outpoints, in whatever order. */
  function ForgetAll(t: Tracker, os: set<Outpoint>): Tracker {
    Tracker(t.depth - os, Outside(t.order, os), Outside(t.confirmed, os))
  }

  lemma {:induction false} OutsideNext(list: seq<Outpoint>, os: set<Outpoint>, o: Outpoint)
    ensures Without(Outside(list, os), o) == Outside(list, os + {o})
  {
    if list != [] {
      OutsideNext(list[1..], os, o);
      var rest := Outside(list[1..], os);
      if list[0] !in os { assert ([list[0]] + rest)[1..] == rest; } else { assert [] + rest == rest; }
    }
  }

  lemma {:induction false} OutsideNone(list: seq<Outpoint>)
    ensures Outside(list, {}) == list
  {
    if list != [] { OutsideNone(list[1..]); }
  }

  lemma ForgetAllNext(t: Tracker, os: set<Outpoint>, o: Outpoint)
    ensures Forget(ForgetAll(t, os), o) == ForgetAll(t, os + {o})
  {
    OutsideNext(t.order, os, o);
    OutsideNext(t.confirmed, os, o);
    assert t.depth - os - {o} == t.depth - (os + {o});
  }

  lemma ForgetAllNone(t: Tracker)
    ensures ForgetAll(t, {}) == t
  {
    OutsideNone(t.order);
    OutsideNone(t.confirmed);
  }

  ghost predicate ConfirmedIn(chain: seq<ChainUtxo>, o: Outpoint) { exists u :: u in chain && u.confirmed && u.o == o }

  lemma ConfirmedInSnoc(chain: seq<ChainUtxo>, u: ChainUtxo, o: Outpoint)
    ensures ConfirmedIn(chain + [u], o) <==> ConfirmedIn(chain, o) || (u.confirmed && u.o == o)
  {
    assert u in chain + [u];
    if ConfirmedIn(chain, o) {
      var x :| x in chain && x.confirmed && x.o == o;
      assert x in chain + [u];
    }
  }

  lemma {:induction false} ConfirmListedDepths(t: Tracker, chain: seq<ChainUtxo>)
    requires Valid(t) && Size(t) + |chain| <= DEPTH_MAX
    ensures var t' := ConfirmListed(t, chain);
      && Valid(t') && Size(t') <= Size(t) + |chain|
      && forall o :: DepthOf(t', o) == if ConfirmedIn(chain, o) then 0 else DepthOf(t, o)
    decreases |chain|
  {
    if chain != [] {
      var front, u := chain[..|chain| - 1], chain[|chain| - 1];
      ConfirmListedDepths(t, front);
      assert chain == front + [u];
      forall o { ConfirmedInSnoc(front, u, o); }
      if u.confirmed { ConfirmDepths(ConfirmListed(t, front), u.o); }
    }
  }

  /** A reconcile forgets the depth of what is listed as confirmed or deleted, and no other depth. */
  lemma ReconcileDepths(t: Tracker, chain: seq<ChainUtxo>, left: set<Outpoint>)
    requires Valid(t) && Size(t) + |chain| <= DEPTH_MAX
    ensures forall o :: DepthOf(ForgetAll(ConfirmListed(t, chain), left), o)
                     == if o in left || ConfirmedIn(chain, o) then 0 else DepthOf(t, o)
  {
    ConfirmListedDepths(t, chain);
    var t' := ConfirmListed(t, chain);
    forall o ensures DepthOf(ForgetAll(t', left), o) == if o in left then 0 else DepthOf(t', o) {}
  }

  /** The local rows judged so far that go. */
  function Leaving(s: Snapshot, local: Pool, rest: set<Outpoint>): set<Outpoint> {
    set o | o in local && o !in rest && !Stays(s, local, o)
  }

  lemma LeavingNext(s: Snapshot, local: Pool, rest: set<Outpoint>, o: Outpoint)
    requires o in rest && o in local
    ensures Leaving(s, local, rest - {o})
         == Leaving(s, local, rest) + if Stays(s, local, o) then {} else {o}
  {
  }

  lemma LeavingOn(t: Tracker, s: Snapshot, local: Pool, rest: set<Outpoint>, o: Outpoint)
    requires o in rest && o in local
    ensures ForgetAll(t, Leaving(s, local, rest - {o}))
         == if Stays(s, local, o) then ForgetAll(t, Leaving(s, local, rest))
            else Forget(ForgetAll(t, Leaving(s, local, rest)), o)
  {
    LeavingNext(s, local, rest, o);
    if Stays(s, local, o) { assert Leaving(s, local, rest) + {} == Leaving(s, local, rest); }
    ForgetAllNext(t, Leaving(s, local, rest), o);
  }

  lemma LeavingAll(s: Snapshot, local: Pool)
    ensures Leaving(s, local, {}) == local.Keys - Reconciled(s, local).Keys
  {
  }

  /** The ledger's answers are those of the start of the run. */
  lemma RetainedNow(s: Snapshot, local: Pool, rest: set<Outpoint>, o: Outpoint)
    requires o in local && o !in Listed(s.chain)
    ensures var judged := Judged(s, local, rest);
      var spentAt := Consulted(s.spentAt, ChainLookups(s.chain, local) + judged, s.now, s.guardMs);
      var broadcastAt := Consulted(s.broadcastAt, TxidsOf(judged), s.now, s.guardMs);
      Stays(s, local, o) <==>
        InGuard(local[o].createdAt, s.now, s.guardMs)
        || InGuard(Fresh(spentAt, o, s.now, s.guardMs), s.now, s.guardMs)
        || InGuard(Fresh(broadcastAt, o.txid, s.now, s.guardMs), s.now, s.guardMs)
  {
    ConsultedReadsAlike(s.spentAt, ChainLookups(s.chain, local) + Judged(s, local, rest), o, s.now, s.guardMs);
    ConsultedReadsAlike(s.broadcastAt, TxidsOf(Judged(s, local, rest)), o.txid, s.now, s.guardMs);
  }

  class FundingUtxoManager {
    var rows: Pool
    var coolingUntil: map<Outpoint, int>
    const ledger: RecentSpendLedger
    const chainDepth: FundingChainDepth

    constructor (cap: nat)
      ensures rows == map[] && coolingUntil == map[] && fresh(ledger) && fresh(chainDepth)
      ensures chainDepth.State() == NEW && chainDepth.cap == cap
      ensures ledger.spentAt == map[] && ledger.broadcastAt == map[]
    {
      rows, coolingUntil := map[], map[];
      ledger := new RecentSpendLedger();
      chainDepth := new FundingChainDepth(cap);
    }

    function Cooling(o: Outpoint, now: int): bool
      reads this
    {
      o in coolingUntil && coolingUntil[o] > now
    }

    /** Neither cooling down after its creation nor too deep in unconfirmed change. */
    predicate Eligible(o: Outpoint, now: int)
      reads this, chainDepth
    {
      !Cooling(o, now) && !chainDepth.ExceedsCap(o)
    }

    function EligibleOf(list: seq<Coin>, now: int): seq<Coin>
      reads this, chainDepth
    {
      if list == [] then []
      else EligibleOf(list[..|list| - 1], now)
           + if Eligible(list[|list| - 1].id, now) then [list[|list| - 1]] else []
    }

    lemma {:induction false} EligibleMembers(list: seq<Coin>, now: int)
      ensures |EligibleOf(list, now)| <= |list|
      ensures forall c :: c in EligibleOf(list, now) <==> c in list && Eligible(c.id, now)
      decreases |list|
    {
      if list != [] {
        var front, last := list[..|list| - 1], list[|list| - 1];
        EligibleMembers(front, now);
        assert list == front + [last];
      }
    }

    lemma {:induction false} EligibleSublist(list: seq<Coin>, now: int)
      requires LargestFirst(list) && NoRepeats(list)
      ensures LargestFirst(EligibleOf(list, now)) && NoRepeats(EligibleOf(list, now))
      decreases |list|
    {
      if list != [] {
        var front, last := list[..|list| - 1], list[|list| - 1];
        EligibleSublist(front, now);
        EligibleMembers(front, now);
        LastIsLeast(list);
        SnocSorted(EligibleOf(front, now), last);
      }
    }

    /** The pass so far: what the first `i` rows contributed, and that nothing covered before. */
    ghost predicate PassedOver(list: seq<Coin>, i: nat, now: int, minSats: int, fee: nat -> int,
                               selected: seq<Coin>, total: int, cooling: nat, deepSkipped: nat)
      reads this, chainDepth
    {
      && i <= |list| && selected == EligibleOf(list[..i], now) && total == Total(selected)
      && cooling + deepSkipped + |selected| == i
      && (cooling == i <==> forall j :: 0 <= j < i ==> Cooling(list[j].id, now))
      && NonePaysBefore(selected, minSats, fee)
    }

    lemma PassNext(list: seq<Coin>, i: nat, now: int, minSats: int, fee: nat -> int,
                   selected: seq<Coin>, total: int, cooling: nat, deepSkipped: nat)
      requires i < |list| && PassedOver(list, i, now, minSats, fee, selected, total, cooling, deepSkipped)
      requires selected != [] ==> total < minSats + fee(|selected|)
      ensures var row := list[i];
        if Cooling(row.id, now)
        then PassedOver(list, i + 1, now, minSats, fee, selected, total, cooling + 1, deepSkipped)
        else if chainDepth.ExceedsCap(row.id)
        then PassedOver(list, i + 1, now, minSats, fee, selected, total, cooling, deepSkipped + 1)
        else PassedOver(list, i + 1, now, minSats, fee, selected + [row], total + row.sats, cooling, deepSkipped)
    {
      var row := list[i];
      assert list[..i + 1][..i] == list[..i];
      assert (selected + [row])[..|selected|] == selected;
      NonePaysYet(selected, row, minSats, fee);
    }

    /** The source's one pass: skips, takes and stops as soon as the total covers the spend. */
    method SelectGreedily(list: seq<Coin>, now: int, minSats: int, cap: nat, fee: nat -> int)
      returns (selected: seq<Coin>, total: int, cooling: nat, deepSkipped: nat)
      requires cap > 0
      ensures total == Total(selected)
      ensures var e := EligibleOf(list, now);
        && selected <= e && |selected| <= cap && (selected == [] <==> e == [])
        && FirstCover(e, 0, cap, minSats, fee)
           == if selected != [] && total >= minSats + fee(|selected|) then Some(|selected|) else None
      ensures selected == [] ==> cooling + deepSkipped == |list|
      ensures cooling >= |list| <==> forall i :: 0 <= i < |list| ==> Cooling(list[i].id, now)
    {
      selected, total, cooling, deepSkipped := [], 0, 0, 0;
      var i := 0;
      var covered := false;
      while i < |list| && |selected| < cap && !covered
        invariant 0 <= i <= |list| && |selected| <= cap
        invariant PassedOver(list, i, now, minSats, fee, selected, total, cooling, deepSkipped)
        invariant covered <==> selected != [] && total >= minSats + fee(|selected|)
      {
        var row := list[i];
        PassNext(list, i, now, minSats, fee, selected, total, cooling, deepSkipped);
        i := i + 1;
        if Cooling(row.id, now) {
          cooling := cooling + 1;
        } else if chainDepth.ExceedsCap(row.id) {
          deepSkipped := deepSkipped + 1;
        } else {
          selected := selected + [row];
          total := total + row.sats;
          covered := total >= minSats + fee(|selected|);
        }
      }
      PassEnds(list, i, now, minSats, cap, fee, selected, total, cooling, deepSkipped, covered);
    }

    lemma PassEnds(list: seq<Coin>, i: nat, now: int, minSats: int, cap: nat, fee: nat -> int,
                   selected: seq<Coin>, total: int, cooling: nat, deepSkipped: nat, covered: bool)
      requires PassedOver(list, i, now, minSats, fee, selected, total, cooling, deepSkipped)
      requires 0 < cap && |selected| <= cap && (covered <==> selected != [] && total >= minSats + fee(|selected|))
      requires i >= |list| || |selected| >= cap || covered
      ensures var e := EligibleOf(list, now);
        && selected <= e && (selected == [] <==> e == [])
        && FirstCover(e, 0, cap, minSats, fee) == if covered then Some(|selected|) else None
      ensures selected == [] ==> cooling + deepSkipped == |list|
      ensures cooling >= |list| <==> forall i :: 0 <= i < |list| ==> Cooling(list[i].id, now)
    {
      PrefixOfEligible(list, i, now);
      assert list[..|list|] == list;
      GreedyStops(EligibleOf(list, now), selected, cap, minSats, fee, covered);
    }

    lemma {:induction false} PrefixOfEligible(list: seq<Coin>, i: nat, now: int)
      requires i <= |list|
      ensures EligibleOf(list[..i], now) <= EligibleOf(list, now)
      decreases |list|
    {
      if i == |list| {
        assert list[..i] == list;
      } else {
        PrefixOfEligible(list[..|list| - 1], i, now);
        assert list[..|list| - 1][..i] == list[..i];
      }
    }

    /** Why an empty selection is empty, and that only a full one is `Ok`. */
    ghost predicate ReasonRight(list: seq<Coin>, now: int, r: Selection)
      reads this, chainDepth
    {
      && (r.reason == Ok <==> r.coins != [])
      && (r.coins == [] ==>
            && (r.reason == NoUnlockedCandidates <==> list == [])
            && (r.reason == AllCandidatesCooling <==> list != [] && forall c :: c in list ==> Cooling(c.id, now))
            && (r.reason == UnconfirmedChainTooDeep <==>
                  EligibleOf(list, now) == [] && !(forall c :: c in list ==> Cooling(c.id, now))))
    }

    /** Picks the fewest eligible outputs that cover `minSats` and their own fee, or none. */
    method Choose(list: seq<Coin>, now: int, minSats: int, maxInputs: int, fee: nat -> int) returns (r: Selection)
      requires LargestFirst(list) && NoRepeats(list)
      ensures BestChoice(EligibleOf(list, now), r.coins, InputCap(maxInputs), minSats, fee)
      ensures ReasonRight(list, now, r)
    {
      var cap := InputCap(maxInputs);
      ghost var e := EligibleOf(list, now);
      EligibleSublist(list, now);
      var selected, total, cooling, deepSkipped := SelectGreedily(list, now, minSats, cap, fee);
      var required := minSats + fee(if |selected| < 1 then 1 else |selected|);
      ReasonFits(list, now, selected, cooling, deepSkipped);
      GreedyIsBest(e, selected, cap, minSats, fee);
      if |selected| == 0 || total < required {
        var reason :=
          if |list| == 0 then NoUnlockedCandidates
          else if |selected| == 0 && deepSkipped > 0 && deepSkipped + cooling >= |list| then UnconfirmedChainTooDeep
          else if cooling >= |list| then AllCandidatesCooling
          else InsufficientWithinInputCap;
        return Selection([], |list|, required, reason);
      }
      r := Selection(selected, |list|, required, Ok);
    }

    method PruneExpiredCooldowns(now: int)
      modifies this`coolingUntil
      ensures coolingUntil == Unexpired(old(coolingUntil), now)
    {
      coolingUntil := map o | o in coolingUntil && coolingUntil[o] > now :: coolingUntil[o];
    }

    /** Which rows are candidates decides their list, so pruning is invisible to a pick at the same clock. */
    lemma {:induction false} EligibleAmong(list: seq<Coin>, now: int, ids: set<Outpoint>)
      requires forall c :: c in list ==> (Eligible(c.id, now) <==> c.id in ids)
      ensures EligibleOf(list, now) == Among(list, ids)
    {
      if list != [] { EligibleAmong(list[..|list| - 1], now, ids); }
    }

    /** Of the rows a query answers, the candidates are those a spend may take. */
    lemma CandidatesExact(list: seq<Coin>, now: int)
      requires QueryAnswer(rows, list)
      ensures forall c :: c in list ==>
        (c in EligibleOf(list, now) <==> MayPick(rows, coolingUntil, chainDepth.State(), chainDepth.cap, c.id, now))
    {
      EligibleMembers(list, now);
      forall c | c in list ensures !rows[c.id].locked && rows[c.id].sats >= MIN_USABLE_SATS {
        var i :| 0 <= i < |list| && list[i] == c;
      }
    }

    method PruneAndChoose(list: seq<Coin>, now: int, minSats: int, maxInputs: int, fee: nat -> int)
      returns (r: Selection)
      requires LargestFirst(list) && NoRepeats(list)
      modifies this`coolingUntil
      ensures BestChoice(old(EligibleOf(list, now)), r.coins, InputCap(maxInputs), minSats, fee)
      ensures old(ReasonRight(list, now, r))
      ensures coolingUntil == Unexpired(old(coolingUntil), now)
    {
      ghost var ids := set c | c in list && Eligible(c.id, now) :: c.id;
      EligibleAmong(list, now, ids);
      PruneExpiredCooldowns(now);
      EligibleAmong(list, now, ids);
      r := Choose(list, now, minSats, maxInputs, fee);
    }

    /**
     Picks from the listed outputs that a spend may take, all of them candidates; locks what it
     picks and touches no other row. Cooldowns that are over are pruned.
     */
    method AcquireMany(list: seq<Coin>, now: int, minSats: int, maxInputs: int, fee: nat -> int)
      returns (r: Selection)
      requires QueryAnswer(rows, list)
      modifies this`rows, this`coolingUntil
      ensures BestChoice(old(EligibleOf(list, now)), r.coins, InputCap(maxInputs), minSats, fee)
      ensures old(ReasonRight(list, now, r))
      ensures forall c :: c in r.coins ==>
        old(MayPick(rows, coolingUntil, chainDepth.State(), chainDepth.cap, c.id, now))
      ensures forall c :: c in list ==>
        (c in old(EligibleOf(list, now))
         <==> old(MayPick(rows, coolingUntil, chainDepth.State(), chainDepth.cap, c.id, now)))
      ensures rows == WithLocks(old(rows), Ids(r.coins), true)
      ensures coolingUntil == Unexpired(old(coolingUntil), now)
    {
      CandidatesExact(list, now);
      EligibleMembers(list, now);
      r := PruneAndChoose(list, now, minSats, maxInputs, fee);
      rows := map o | o in rows :: if o in Ids(r.coins) then rows[o].(locked := true) else rows[o];
    }

    /**
     Retires spent rows and inserts the change in one transaction, which fails whole when the
     change row is already there; the memories are only written after it commits. A change
     without a locking script gets no row, but its depth and cooldown are still noted.
     */
    method RecordSpendMany(spent: seq<Outpoint>, txid: string, change: Option<Change>, now: int, cooldownMs: int)
      returns (committed: bool)
      modifies this`rows, this`coolingUntil, ledger, chainDepth
      ensures committed <==> RowsAfterSpend(old(rows), spent, txid, change, now).Some?
      ensures committed ==>
        && Some(rows) == RowsAfterSpend(old(rows), spent, txid, change, now)
        && chainDepth.State() == RememberSpend(old(chainDepth.State()), spent, txid, CreatedVouts(txid, change))
        && coolingUntil == CoolingAfterSpend(old(coolingUntil), spent, txid, change, now + cooldownMs)
        && SpendNoted(old(ledger.spentAt), spent, now, ledger.spentAt)
        && BroadcastNoted(old(ledger.broadcastAt), txid, now, ledger.broadcastAt)
      ensures !committed ==>
        && rows == old(rows) && coolingUntil == old(coolingUntil) && chainDepth.State() == old(chainDepth.State())
        && ledger.spentAt == old(ledger.spentAt) && ledger.broadcastAt == old(ledger.broadcastAt)
    {
      committed := RetireRows(spent, txid, change, now);
      if committed {
        MoveCooldowns(spent, txid, change, now + cooldownMs);
        RememberSpent(spent, txid, CreatedVouts(txid, change), now);
      }
    }

    /** The spent outputs stop cooling and the change starts to. */
    method MoveCooldowns(spent: seq<Outpoint>, txid: string, change: Option<Change>, until: int)
      modifies this`coolingUntil
      ensures coolingUntil == CoolingAfterSpend(old(coolingUntil), spent, txid, change, until)
    {
      coolingUntil := coolingUntil - (set o | o in spent);
      if CreatedVouts(txid, change) != [] {
        coolingUntil := coolingUntil[Outpoint(txid, change.value.vout) := until];
      }
    }

    method RetireRows(spent: seq<Outpoint>, txid: string, change: Option<Change>, now: int) returns (committed: bool)
      modifies this`rows
      ensures committed <==> RowsAfterSpend(old(rows), spent, txid, change, now).Some?
      ensures committed ==> Some(rows) == RowsAfterSpend(old(rows), spent, txid, change, now)
      ensures !committed ==> rows == old(rows)
    {
      var left := rows - (set o | o in spent);
      if CreatedVouts(txid, change) != [] && change.value.hasScript {
        var o := Outpoint(txid, change.value.vout);
        if o in left { return false; }
        left := left[o := PoolRow(change.value.sats, false, Some(now))];
      }
      rows := left;
      committed := true;
    }

    /** The two memories of a committed spend. */
    method RememberSpent(spent: seq<Outpoint>, txid: string, created: seq<int>, now: int)
      modifies ledger, chainDepth
      ensures chainDepth.State() == RememberSpend(old(chainDepth.State()), spent, txid, created)
      ensures SpendNoted(old(ledger.spentAt), spent, now, ledger.spentAt)
      ensures BroadcastNoted(old(ledger.broadcastAt), txid, now, ledger.broadcastAt)
    {
      NoteSpends(spent, now);
      ledger.NoteBroadcast(txid, now);
      chainDepth.Remember(spent, txid, created);
    }

    method NoteSpends(spent: seq<Outpoint>, now: int)
      modifies ledger`spentAt
      ensures SpendNoted(old(ledger.spentAt), spent, now, ledger.spentAt)
    {
      ghost var was := ledger.spentAt;
      assert SpentNoted(was, [], now) == was;
      for i := 0 to |spent|
        invariant |was| <= LEDGER_MAX ==> KeepsNewestAt(SpentNoted(was, spent[..i], now), ledger.spentAt, now)
      {
        NotedNext(was, spent, i, now);
        ghost var before := ledger.spentAt;
        ledger.NoteSpent(spent[i], now);
        if |was| <= LEDGER_MAX {
          NotesCompose(SpentNoted(was, spent[..i], now), before, spent[i], now, ledger.spentAt);
        }
      }
      assert spent[..|spent|] == spent;
    }

    /** Swaps outputs for new ones after their transaction is accepted, whatever rows are already there. */
    method FinishReshape(spent: seq<Outpoint>, txid: string, outputs: seq<Output>, now: int, cooldownMs: int)
      modifies this`rows, this`coolingUntil, ledger, chainDepth
      ensures rows == InsertOutputs(old(rows) - (set o | o in spent), txid, outputs, now)
      ensures coolingUntil
           == CoolOutputs(old(coolingUntil) - (set o | o in spent), txid, outputs, now + cooldownMs)
      ensures chainDepth.State() == RememberSpend(old(chainDepth.State()), spent, txid, Vouts(outputs))
      ensures SpendNoted(old(ledger.spentAt), spent, now, ledger.spentAt)
      ensures BroadcastNoted(old(ledger.broadcastAt), txid, now, ledger.broadcastAt)
    {
      SwapRows(spent, txid, outputs, now, cooldownMs);
      RememberSpent(spent, txid, Vouts(outputs), now);
    }

    method SwapRows(spent: seq<Outpoint>, txid: string, outputs: seq<Output>, now: int, cooldownMs: int)
      modifies this`rows, this`coolingUntil
      ensures rows == InsertOutputs(old(rows) - (set o | o in spent), txid, outputs, now)
      ensures coolingUntil
           == CoolOutputs(old(coolingUntil) - (set o | o in spent), txid, outputs, now + cooldownMs)
    {
      rows := rows - (set o | o in spent);
      coolingUntil := coolingUntil - (set o | o in spent);
      ghost var left, cooling := rows, coolingUntil;
      for i := 0 to |outputs|
        invariant rows == InsertOutputs(left, txid, outputs[..i], now)
        invariant coolingUntil == CoolOutputs(cooling, txid, outputs[..i], now + cooldownMs)
      {
        var o := Outpoint(txid, outputs[i].vout);
        assert outputs[..i + 1][..i] == outputs[..i];
        if o !in rows { rows := rows[o := PoolRow(outputs[i].sats, false, Some(now))]; }
        coolingUntil := coolingUntil[o := now + cooldownMs];
      }
      assert outputs[..|outputs|] == outputs;
    }

    /** One pass over the snapshot, then one over the rows that were local before it. */
    method LoadFundingChain(chain: seq<ChainUtxo>, now: int, guardMs: int)
      modifies this`rows, this`coolingUntil, ledger, chainDepth
      ensures var s := Snapshot(chain, now, guardMs, old(ledger.spentAt), old(ledger.broadcastAt));
        && rows == Reconciled(s, old(rows))
        && ledger.spentAt == Later(s, old(rows)).spentAt
        && ledger.broadcastAt == Later(s, old(rows)).broadcastAt
      ensures coolingUntil == StillCooling(old(coolingUntil), old(rows), rows)
      ensures chainDepth.State()
           == ForgetAll(ConfirmListed(old(chainDepth.State()), chain), old(rows).Keys - rows.Keys)
    {
      var local := rows;
      ghost var s := Snapshot(chain, now, guardMs, ledger.spentAt, ledger.broadcastAt);
      ghost var was := coolingUntil;
      AddFromChain(s, chain, now, guardMs);
      assert Upto(s, |chain|) == s && chain[..|chain|] == chain;
      RemoveUnlisted(s, was, local, Listed(chain), now, guardMs);
      PrunedAll(s, local, was, rows, ledger.spentAt, ledger.broadcastAt, coolingUntil);
      LeavingAll(s, local);
    }

    method AddFromChain(ghost s: Snapshot, chain: seq<ChainUtxo>, now: int, guardMs: int)
      requires s == Snapshot(chain, now, guardMs, ledger.spentAt, ledger.broadcastAt)
      modifies this`rows, ledger`spentAt, chainDepth
      ensures Added(s, old(rows), |chain|, rows, ledger.spentAt)
      ensures chainDepth.State() == ConfirmListed(old(chainDepth.State()), chain)
    {
      var local := rows;
      var i := 0;
      while i < |chain|
        invariant 0 <= i <= |chain| && Added(s, local, i, rows, ledger.spentAt)
        invariant chainDepth.State() == ConfirmListed(old(chainDepth.State()), chain[..i])
      {
        assert chain[..i + 1][..i] == chain[..i];
        AddListing(s, local, i, chain[i], now, guardMs);
        i := i + 1;
      }
      assert chain[..|chain|] == chain;
    }

    method AddListing(ghost s: Snapshot, local: Pool, ghost i: nat, u: ChainUtxo, now: int, guardMs: int)
      requires s.now == now && s.guardMs == guardMs && i < |s.chain| && u == s.chain[i]
      requires Added(s, local, i, rows, ledger.spentAt)
      modifies this`rows, ledger`spentAt, chainDepth
      ensures Added(s, local, i + 1, rows, ledger.spentAt)
      ensures chainDepth.State()
           == if u.confirmed then Confirm(old(chainDepth.State()), u.o) else old(chainDepth.State())
    {
      if u.confirmed { chainDepth.ConfirmOutput(u.o); }
      AddedNext(s, local, i, rows, ledger.spentAt);
      if !(u.o in local || u.value < MIN_USABLE_SATS) {
        var spentAt := ledger.SpentAtIfFresh(u.o, now, guardMs);
        if !InGuard(spentAt, now, guardMs) && u.o !in rows {
          rows := rows[u.o := PoolRow(u.value, false, Some(now))];
        }
      }
    }

    method RemoveUnlisted(ghost s: Snapshot, ghost was: map<Outpoint, int>, local: Pool, listed: set<Outpoint>,
                          now: int, guardMs: int)
      requires s.now == now && s.guardMs == guardMs && listed == Listed(s.chain)
      requires Pruned(s, local, was, local.Keys, rows, ledger.spentAt, ledger.broadcastAt, coolingUntil)
      modifies this`rows, this`coolingUntil, ledger, chainDepth
      ensures Pruned(s, local, was, {}, rows, ledger.spentAt, ledger.broadcastAt, coolingUntil)
      ensures chainDepth.State() == ForgetAll(old(chainDepth.State()), Leaving(s, local, {}))
    {
      var rest := local.Keys;
      ghost var t := chainDepth.State();
      ForgetAllNone(t);
      assert Leaving(s, local, rest) == {};
      while rest != {}
        invariant chainDepth.State() == ForgetAll(t, Leaving(s, local, rest))
        invariant Pruned(s, local, was, rest, rows, ledger.spentAt, ledger.broadcastAt, coolingUntil)
        decreases rest
      {
        var o :| o in rest;
        if o in listed {
          PrunedListed(s, local, was, rest, rows, ledger.spentAt, ledger.broadcastAt, coolingUntil, o);
        } else {
          JudgeRow(s, was, local, rest, o, now, guardMs);
        }
        LeavingOn(t, s, local, rest, o);
        rest := rest - {o};
      }
    }

    /** One local row the chain does not list: retained by the guard, or deleted everywhere. */
    method JudgeRow(ghost s: Snapshot, ghost was: map<Outpoint, int>, local: Pool, ghost rest: set<Outpoint>,
                    o: Outpoint, now: int, guardMs: int)
      requires s.now == now && s.guardMs == guardMs
      requires Pruned(s, local, was, rest, rows, ledger.spentAt, ledger.broadcastAt, coolingUntil)
      requires o in rest && o !in Listed(s.chain)
      modifies this`rows, this`coolingUntil, ledger, chainDepth
      ensures Pruned(s, local, was, rest - {o}, rows, ledger.spentAt, ledger.broadcastAt, coolingUntil)
      ensures chainDepth.State()
           == if Stays(s, local, o) then old(chainDepth.State()) else Forget(old(chainDepth.State()), o)
    {
      PrunedUnlisted(s, local, was, rest, rows, ledger.spentAt, ledger.broadcastAt, coolingUntil, o);
      RetainedNow(s, local, rest, o);
      var spentAt := ledger.SpentAtIfFresh(o, now, guardMs);
      var broadcastAt := ledger.BroadcastAtIfFresh(o.txid, now, guardMs);
      if !(InGuard(local[o].createdAt, now, guardMs) || InGuard(spentAt, now, guardMs)
           || InGuard(broadcastAt, now, guardMs)) {
        rows := rows - {o};
        coolingUntil := coolingUntil - {o};
        chainDepth.ForgetOutput(o);
      }
    }

    lemma ReasonFits(list: seq<Coin>, now: int, selected: seq<Coin>, cooling: nat, deepSkipped: nat)
      requires selected == [] ==> cooling + deepSkipped == |list|
      requires cooling >= |list| <==> forall i :: 0 <= i < |list| ==> Cooling(list[i].id, now)
      ensures cooling >= |list| <==> forall c :: c in list ==> Cooling(c.id, now)
    {
      if forall c :: c in list ==> Cooling(c.id, now) {
        forall i | 0 <= i < |list| ensures Cooling(list[i].id, now) { assert list[i] in list; }
      }
    }
  }

  function InputCap(maxInputs: int): nat { if maxInputs < 1 then 1 else maxInputs }

  function Ids(list: seq<Coin>): set<Outpoint> { set c | c in list :: c.id }

  /**
   `coins` covers the spend with as few coins of `e` as any choice can, within the cap; or it is
   empty and no choice of 1..cap coins covers it.
   */
  ghost predicate BestChoice(e: seq<Coin>, coins: seq<Coin>, cap: nat, minSats: int, fee: nat -> int) {
    if coins != [] then
      && coins <= e && |coins| <= cap && Covers(e, Members(coins), minSats, fee)
      && forall choice: set<Coin> :: Covers(e, choice, minSats, fee) ==> |coins| <= |choice|
    else
      forall choice: set<Coin> :: |choice| <= cap ==> !Covers(e, choice, minSats, fee)
  }

  lemma GreedyIsBest(e: seq<Coin>, selected: seq<Coin>, cap: nat, minSats: int, fee: nat -> int)
    requires LargestFirst(e) && NoRepeats(e) && selected <= e && |selected| <= cap
    requires FirstCover(e, 0, cap, minSats, fee)
          == if selected != [] && Total(selected) >= minSats + fee(|selected|) then Some(|selected|) else None
    ensures var covered := selected != [] && Total(selected) >= minSats + fee(|selected|);
      BestChoice(e, if covered then selected else [], cap, minSats, fee)
  {
    if FirstCover(e, 0, cap, minSats, fee).Some? {
      PrefixCovers(e, selected, minSats, fee);
      forall choice: set<Coin> | Covers(e, choice, minSats, fee) ensures |selected| <= |choice| {
        GreedyIsFewest(e, cap, minSats, fee, choice);
      }
    } else {
      forall choice: set<Coin> | |choice| <= cap ensures !Covers(e, choice, minSats, fee) {
        GreedyFailureIsReal(e, cap, minSats, fee, choice);
      }
    }
  }

  /** The value of a prefix as a choice is its running total. */
  lemma {:induction false} ValueOfAll(list: seq<Coin>, choice: set<Coin>)
    requires NoRepeats(list) && forall c :: c in list ==> c in choice
    ensures Value(list, choice) == Total(list)
    decreases |list|
  {
    if list != [] { ValueOfAll(list[..|list| - 1], choice); }
  }

  lemma {:induction false} ValueBeyond(list: seq<Coin>, prefix: seq<Coin>)
    requires NoRepeats(list) && prefix <= list
    ensures Value(list, Members(prefix)) == Total(prefix)
    decreases |list|
  {
    if |prefix| == |list| {
      assert prefix == list;
      ValueOfAll(list, Members(list));
    } else {
      var front, last := list[..|list| - 1], list[|list| - 1];
      assert prefix <= front && last !in prefix;
      ValueBeyond(front, prefix);
    }
  }

  lemma {:induction false} MembersCount(list: seq<Coin>)
    requires NoRepeats(list)
    ensures |Members(list)| == |list|
  {
    if list != [] {
      var front, last := list[..|list| - 1], list[|list| - 1];
      MembersCount(front);
      assert last !in front && Members(list) == Members(front) + {last};
    }
  }

  lemma PrefixCovers(e: seq<Coin>, selected: seq<Coin>, minSats: int, fee: nat -> int)
    requires NoRepeats(e) && selected <= e && selected != [] && Total(selected) >= minSats + fee(|selected|)
    ensures Covers(e, Members(selected), minSats, fee)
  {
    ValueBeyond(e, selected);
    MembersCount(selected);
    assert selected[0] in Members(selected);
  }

  /** Where the pass stops is the first covering prefix, or proof that there is none within the cap. */
  lemma GreedyStops(e: seq<Coin>, selected: seq<Coin>, cap: nat, minSats: int, fee: nat -> int, covered: bool)
    requires selected <= e && |selected| <= cap
    requires covered || selected == e || |selected| == cap
    requires covered <==> selected != [] && Total(selected) >= minSats + fee(|selected|)
    requires NonePaysBefore(selected, minSats, fee)
    ensures FirstCover(e, 0, cap, minSats, fee) == if covered then Some(|selected|) else None
  {
    FirstCoverIsFirst(e, 0, cap, minSats, fee);
    var r := FirstCover(e, 0, cap, minSats, fee);
    var k := |selected|;
    assert e[..k] == selected && selected[..k] == selected;
    assert covered <==> k > 0 && Pays(e, k, minSats, fee);
    if r.Some? && r.value <= k {
      assert e[..r.value] == selected[..r.value];
      assert r.value < k ==> !Pays(selected, r.value, minSats, fee);
    }
  }
}
