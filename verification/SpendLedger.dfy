/**
 The bounded memory of recent spends and broadcasts (`RecentSpendLedger` in
 `live-path-policy.ts`) and the guard-window predicates a reconcile consults.
 */
module SpendLedger {
  import opened Options
  import opened TreasurySelection

  const LEDGER_MAX := 8_192

  /** Inside the guard window on either side of now, so a clock slightly ahead still counts. */
  predicate InGuard(at: Option<int>, now: int, guardMs: int) {
    at.Some? && guardMs > 0 && -guardMs <= now - at.value <= guardMs
  }

  function Fresh<K(==)>(m: map<K, int>, k: K, now: int, guardMs: int): Option<int> {
    if k in m && InGuard(Some(m[k]), now, guardMs) then Some(m[k]) else None
  }

  /** A lookup also deletes an entry it finds outside the window. */
  function Consulted<K(==)>(m: map<K, int>, ks: set<K>, now: int, guardMs: int): map<K, int> {
    map k | k in m && (k in ks ==> InGuard(Some(m[k]), now, guardMs)) :: m[k]
  }

  ghost predicate Keeps<K(!new)>(m: map<K, int>, kept: map<K, int>) {
    && (forall k :: k in kept ==> k in m && kept[k] == m[k])
    && (forall k, gone :: k in kept && gone in m && gone !in kept ==> m[gone] <= m[k])
  }

  /** All of `m` while it fits, and otherwise as many of its entries as fit, none of them older than a lost one. */
  ghost predicate KeepsNewest<K(!new)>(m: map<K, int>, kept: map<K, int>) {
    && Keeps(m, kept)
    && |kept| == (if |m| > LEDGER_MAX then LEDGER_MAX else |m|)
    && (|m| <= LEDGER_MAX ==> kept == m)
  }

  /** The same while entries stamped `now` are still being added. */
  ghost predicate KeepsNewestAt<K(!new)>(m: map<K, int>, kept: map<K, int>, now: int) {
    KeepsNewest(m, kept) && forall gone :: gone in m && gone !in kept ==> m[gone] <= now
  }

  lemma NotesCompose<K(!new)>(m: map<K, int>, cur: map<K, int>, k: K, now: int, after: map<K, int>)
    requires KeepsNewestAt(m, cur, now) && KeepsNewest(cur[k := now], after)
    ensures KeepsNewestAt(m[k := now], after, now)
  {
    KeysGrow(cur, k, now);
    forall gone | gone in m[k := now] && gone !in after
      ensures m[k := now][gone] <= now && forall x :: x in after ==> m[k := now][gone] <= after[x]
    {
      if gone in cur && gone != k { LostIsOld(cur[k := now], after, gone, k); }
    }
    assert Keeps(m[k := now], after);
    NotesSize(m, cur, k, now);
  }

  lemma NotesSize<K(!new)>(m: map<K, int>, cur: map<K, int>, k: K, now: int)
    requires KeepsNewest(m, cur)
    ensures |m| <= LEDGER_MAX ==> m == cur
    ensures |m| > LEDGER_MAX ==> |m[k := now]| > LEDGER_MAX && |cur[k := now]| >= LEDGER_MAX
  {
    KeysGrow(m, k, now);
    KeysGrow(cur, k, now);
  }

  lemma KeysGrow<K>(m: map<K, int>, k: K, at: int)
    ensures |m| <= |m[k := at]| <= |m| + 1
  {
    assert m[k := at].Keys == m.Keys + {k};
  }

  /** Only one entry is lost at a time, and the newest arrival is not older than it. */
  lemma LostIsOld<K(!new)>(m: map<K, int>, after: map<K, int>, gone: K, k: K)
    requires KeepsNewest(m, after) && |m| <= LEDGER_MAX + 1
    requires gone in m && k in m && gone != k && gone !in after
    ensures m[gone] <= m[k]
  {
    assert |m.Keys - {gone, k}| == |m| - 2;
    if k !in after { SubsetSize(after.Keys, m.Keys - {gone, k}); }
  }

  lemma {:induction false} SubsetSize<K>(a: set<K>, b: set<K>)
    requires a <= b
    ensures |a| <= |b|
  {
    if a != {} {
      var x :| x in a;
      SubsetSize(a - {x}, b - {x});
    }
  }

  /** A key whose time is least. */
  method Oldest<K(==)>(m: map<K, int>) returns (oldest: K)
    requires m != map[]
    ensures oldest in m && forall k :: k in m ==> m[oldest] <= m[k]
  {
    oldest :| oldest in m;
    var rest := m.Keys - {oldest};
    while rest != {}
      invariant oldest in m && rest <= m.Keys
      invariant forall k :: k in m && k !in rest ==> m[oldest] <= m[k]
      decreases rest
    {
      var k :| k in rest;
      if m[k] < m[oldest] { oldest := k; }
      rest := rest - {k};
    }
  }

  /** Deletes the oldest entries until the bound holds: what stays is never older than what went. */
  method EvictOldest<K(==, !new)>(m: map<K, int>) returns (kept: map<K, int>)
    ensures KeepsNewest(m, kept)
  {
    kept := m;
    while |kept| > LEDGER_MAX
      invariant Keeps(m, kept)
      invariant |kept| == |m| || LEDGER_MAX <= |kept| < |m|
      invariant |m| <= LEDGER_MAX ==> kept == m
      decreases |kept|
    {
      var oldest := Oldest(kept);
      var next := kept - {oldest};
      assert next.Keys == kept.Keys - {oldest};
      kept := next;
    }
  }

  class RecentSpendLedger {
    var spentAt: map<Outpoint, int>
    var broadcastAt: map<string, int>

    constructor ()
      ensures spentAt == map[] && broadcastAt == map[]
    {
      spentAt, broadcastAt := map[], map[];
    }

    method NoteSpent(o: Outpoint, at: int)
      modifies this`spentAt
      ensures KeepsNewest(old(spentAt)[o := at], spentAt)
    {
      spentAt := spentAt[o := at];
      spentAt := EvictOldest(spentAt);
    }

    method NoteBroadcast(txid: string, at: int)
      modifies this`broadcastAt
      ensures txid == "" ==> broadcastAt == old(broadcastAt)
      ensures txid != "" ==> KeepsNewest(old(broadcastAt)[txid := at], broadcastAt)
    {
      if txid == "" { return; }
      broadcastAt := broadcastAt[txid := at];
      broadcastAt := EvictOldest(broadcastAt);
    }

    method SpentAtIfFresh(o: Outpoint, now: int, guardMs: int) returns (at: Option<int>)
      modifies this`spentAt
      ensures at == Fresh(old(spentAt), o, now, guardMs)
      ensures spentAt == Consulted(old(spentAt), {o}, now, guardMs)
    {
      if o !in spentAt { return None; }
      if !InGuard(Some(spentAt[o]), now, guardMs) {
        spentAt := spentAt - {o};
        return None;
      }
      at := Some(spentAt[o]);
    }

    method BroadcastAtIfFresh(txid: string, now: int, guardMs: int) returns (at: Option<int>)
      modifies this`broadcastAt
      ensures at == Fresh(old(broadcastAt), txid, now, guardMs)
      ensures broadcastAt == Consulted(old(broadcastAt), {txid}, now, guardMs)
    {
      if txid !in broadcastAt { return None; }
      if !InGuard(Some(broadcastAt[txid]), now, guardMs) {
        broadcastAt := broadcastAt - {txid};
        return None;
      }
      at := Some(broadcastAt[txid]);
    }
  }
}
