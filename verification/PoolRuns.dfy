/**
 Runs of the treasury pool: when an output that a spend or a reshape has just created may be
 spent in its turn (`fundingCooldownUntil` in `funding-utxo-manager.ts`).

 Cooldowns live in memory and rows in the database, so a run starts with any rows and no cooldown.
 */
module PoolRuns {
  import opened Options
  import opened TreasurySelection
  import opened SpendLedger
  import opened FundingPool
  import ChainDepth

  datatype Desk = Desk(rows: Pool, cooling: map<Outpoint, int>, t: ChainDepth.Tracker)

  datatype Event =
    | Pick(at: int, ids: set<Outpoint>)
    | Release(at: int, ids: set<Outpoint>)
    | RecordSpend(at: int, spent: seq<Outpoint>, txid: string, change: Option<Change>, cooldownMs: int)
    | Reshape(at: int, spent: seq<Outpoint>, txid: string, outputs: seq<Output>, cooldownMs: int)
    | Reconcile(at: int, chain: seq<ChainUtxo>, guardMs: int,
                spentAt: map<Outpoint, int>, broadcastAt: map<string, int>)
    | Purge(at: int, o: Outpoint)
    | Invalidate(at: int, o: Outpoint)

  function SnapshotOf(e: Event): Snapshot
    requires e.Reconcile?
  {
    Snapshot(e.chain, e.at, e.guardMs, e.spentAt, e.broadcastAt)
  }

  /** What the pool's methods do to rows, cooldowns and depths. */
  function Apply(d: Desk, e: Event): Desk {
    match e
    case Pick(at, ids) => d.(rows := WithLocks(d.rows, ids, true), cooling := Unexpired(d.cooling, at))
    case Release(_, ids) => d.(rows := WithLocks(d.rows, ids, false))
    case RecordSpend(at, spent, txid, change, ms) =>
      var after := RowsAfterSpend(d.rows, spent, txid, change, at);
      if after == None then d
      else Desk(after.value, CoolingAfterSpend(d.cooling, spent, txid, change, at + ms),
                ChainDepth.RememberSpend(d.t, spent, txid, CreatedVouts(txid, change)))
    case Reshape(at, spent, txid, outputs, ms) =>
      var gone := set o | o in spent;
      Desk(InsertOutputs(d.rows - gone, txid, outputs, at),
           CoolOutputs(d.cooling - gone, txid, outputs, at + ms),
           ChainDepth.RememberSpend(d.t, spent, txid, Vouts(outputs)))
    case Reconcile(at, chain, guardMs, spentAt, broadcastAt) =>
      var rows := Reconciled(SnapshotOf(e), d.rows);
      Desk(rows, StillCooling(d.cooling, d.rows, rows),
           ForgetAll(ConfirmListed(d.t, chain), d.rows.Keys - rows.Keys))
    case Purge(_, o) => d.(rows := d.rows - {o}, cooling := d.cooling - {o})
    case Invalidate(_, o) => d.(cooling := d.cooling - {o}, t := ChainDepth.Forget(d.t, o))
  }

  function After(rows: Pool, events: seq<Event>): Desk {
    if events == [] then Desk(rows, map[], ChainDepth.NEW)
    else Apply(After(rows, events[..|events| - 1]), events[|events| - 1])
  }

  /** Clocks never run back. */
  ghost predicate Ordered(events: seq<Event>, now: int) {
    && (forall i, j :: 0 <= i <= j < |events| ==> events[i].at <= events[j].at)
    && forall i :: 0 <= i < |events| ==> events[i].at <= now
  }

  // ---------- what an event does to one output, in figures ----------

  /** The change row, if the record writes one, is not there already. */
  predicate GoesThrough(rows: Pool, e: Event)
    requires e.RecordSpend?
  {
    e.txid != "" && e.change.Some? && e.change.value.sats >= 546 && e.change.value.hasScript ==>
      Outpoint(e.txid, e.change.value.vout) in rows ==> Outpoint(e.txid, e.change.value.vout) in e.spent
  }

  /** The event creates the output and starts its cooldown. */
  predicate Creates(d: Desk, e: Event, o: Outpoint) {
    match e
    case RecordSpend(_, spent, txid, change, _) =>
      && GoesThrough(d.rows, e) && txid != "" && change.Some? && change.value.sats >= 546
      && o == Outpoint(txid, change.value.vout)
    case Reshape(_, _, txid, outputs, _) => exists out :: out in outputs && o == Outpoint(txid, out.vout)
    case _ => false
  }

  /** Not listed, and neither created, spent nor broadcast within the guard: a reconcile deletes the row. */
  predicate Drops(d: Desk, e: Event, o: Outpoint)
    requires e.Reconcile?
  {
    && o in d.rows && (forall u :: u in e.chain ==> u.o != o)
    && !Recent(d.rows[o].createdAt, e)
    && !(o in e.spentAt && Recent(Some(e.spentAt[o]), e))
    && !(o.txid in e.broadcastAt && Recent(Some(e.broadcastAt[o.txid]), e))
  }

  predicate Recent(at: Option<int>, e: Event)
    requires e.Reconcile?
  {
    at.Some? && e.guardMs > 0 && e.at - e.guardMs <= at.value <= e.at + e.guardMs
  }

  /** The event spends the output, deletes its row or gives it up for lost. */
  predicate Ends(d: Desk, e: Event, o: Outpoint) {
    match e
    case RecordSpend(_, spent, _, _, _) => GoesThrough(d.rows, e) && o in spent
    case Reshape(_, spent, _, _, _) => o in spent
    case Reconcile(_, _, _, _, _) => Drops(d, e, o)
    case Purge(_, x) => o == x
    case Invalidate(_, x) => o == x
    case _ => false
  }

  predicate Touches(d: Desk, e: Event, o: Outpoint) { Creates(d, e, o) || Ends(d, e, o) }

  /** Event `i` is the last to have created or ended the output, and created it. */
  ghost predicate LastCreates(rows: Pool, events: seq<Event>, i: int, o: Outpoint) {
    && 0 <= i < |events| && Creates(After(rows, events[..i]), events[i], o)
    && forall j :: i < j < |events| ==> !Touches(After(rows, events[..j]), events[j], o)
  }

  function Until(e: Event): int {
    match e
    case RecordSpend(at, _, _, _, ms) => at + ms
    case Reshape(at, _, _, _, ms) => at + ms
    case _ => e.at
  }

  predicate Waits(cooling: map<Outpoint, int>, o: Outpoint, now: int) { o in cooling && now < cooling[o] }

  // ---------- steps ----------

  lemma {:induction false} CoolOutputsExact(cooling: map<Outpoint, int>, txid: string, outputs: seq<Output>,
                                            until: int, o: Outpoint)
    ensures var after := CoolOutputs(cooling, txid, outputs, until);
      if exists out :: out in outputs && o == Outpoint(txid, out.vout) then o in after && after[o] == until
      else (o in after <==> o in cooling) && (o in cooling ==> after[o] == cooling[o])
    decreases |outputs|
  {
    if outputs != [] {
      var front, last := outputs[..|outputs| - 1], outputs[|outputs| - 1];
      CoolOutputsExact(cooling, txid, front, until, o);
      assert outputs == front + [last];
      assert last in outputs;
      forall out ensures out in outputs <==> out in front || out == last {}
    }
  }

  lemma DropsExact(d: Desk, e: Event, o: Outpoint)
    requires e.Reconcile?
    ensures Drops(d, e, o) <==> o in d.rows && o !in Apply(d, e).rows
  {
    GuardHolds(SnapshotOf(e), d.rows, o);
    FirstValueListed(e.chain, o);
  }

  lemma SpendGoesThrough(d: Desk, e: Event)
    requires e.RecordSpend?
    ensures GoesThrough(d.rows, e) <==> RowsAfterSpend(d.rows, e.spent, e.txid, e.change, e.at).Some?
  {
  }

  lemma WaitStep(d: Desk, e: Event, o: Outpoint, now: int)
    requires e.at <= now
    ensures Waits(Apply(d, e).cooling, o, now)
       <==> if Creates(d, e, o) then now < Until(e) else !Ends(d, e, o) && Waits(d.cooling, o, now)
  {
    match e
    case RecordSpend(_, _, _, _, _) => SpendGoesThrough(d, e);
    case Reshape(at, spent, txid, outputs, ms) =>
      CoolOutputsExact(d.cooling - (set x | x in spent), txid, outputs, at + ms, o);
    case Reconcile(_, _, _, _, _) => DropsExact(d, e, o);
    case _ =>
  }

  // ---------- cooldowns over whole runs ----------

  lemma LastCreatesSnoc(rows: Pool, events: seq<Event>, e: Event, i: int, o: Outpoint)
    requires 0 <= i
    ensures var d := After(rows, events);
      LastCreates(rows, events + [e], i, o)
      <==> if i == |events| then Creates(d, e, o) else LastCreates(rows, events, i, o) && !Touches(d, e, o)
  {
    var all := events + [e];
    assert all[..|events|] == events;
    if i < |events| {
      assert all[..i] == events[..i] && all[i] == events[i];
      forall j | i < j < |events| ensures all[..j] == events[..j] && all[j] == events[j] {}
      if LastCreates(rows, all, i, o) {
        assert all[|events|] == e && !Touches(After(rows, all[..|events|]), all[|events|], o);
        forall j | i < j < |events| ensures !Touches(After(rows, events[..j]), events[j], o) {
          assert !Touches(After(rows, all[..j]), all[j], o);
        }
      }
      if LastCreates(rows, events, i, o) && !Touches(After(rows, events), e, o) {
        forall j | i < j < |all| ensures !Touches(After(rows, all[..j]), all[j], o) {
          if j < |events| { assert !Touches(After(rows, events[..j]), events[j], o); }
        }
      }
    }
  }

  /** The last event that made or ended the output made it, and its cooldown is not over. */
  ghost predicate Awaited(rows: Pool, events: seq<Event>, o: Outpoint, now: int) {
    exists i :: LastCreates(rows, events, i, o) && now < Until(events[i])
  }

  lemma AwaitedSnoc(rows: Pool, events: seq<Event>, e: Event, o: Outpoint, now: int)
    ensures var d := After(rows, events);
      Awaited(rows, events + [e], o, now)
      <==> if Creates(d, e, o) then now < Until(e) else !Ends(d, e, o) && Awaited(rows, events, o, now)
  {
    var all := events + [e];
    forall i | 0 <= i { LastCreatesSnoc(rows, events, e, i, o); }
    if Awaited(rows, all, o, now) {
      var i :| LastCreates(rows, all, i, o) && now < Until(all[i]);
      if i < |events| { assert LastCreates(rows, events, i, o) && now < Until(events[i]); }
    }
    if Creates(After(rows, events), e, o) && now < Until(e) {
      assert LastCreates(rows, all, |events|, o) && now < Until(all[|events|]);
    }
    if Awaited(rows, events, o, now) && !Touches(After(rows, events), e, o) {
      var i :| LastCreates(rows, events, i, o) && now < Until(events[i]);
      assert LastCreates(rows, all, i, o) && now < Until(all[i]);
    }
  }

  /** The cooldowns held in memory are those that the run's own events call for. */
  lemma {:induction false} CoolingIsLogged(rows: Pool, events: seq<Event>, o: Outpoint, now: int)
    requires Ordered(events, now)
    ensures Waits(After(rows, events).cooling, o, now) <==> Awaited(rows, events, o, now)
    decreases |events|
  {
    if events != [] {
      var front, last := events[..|events| - 1], events[|events| - 1];
      CoolingIsLogged(rows, front, o, now);
      assert front + [last] == events;
      AwaitedSnoc(rows, front, last, o, now);
      WaitStep(After(rows, front), last, o, now);
    }
  }

  /** Every pick takes only what `AcquireMany` promises to take. */
  ghost predicate PicksAllowed(rows: Pool, events: seq<Event>, cap: nat) {
    forall k, o :: 0 <= k < |events| && events[k].Pick? && o in events[k].ids ==>
      var d := After(rows, events[..k]); MayPick(d.rows, d.cooling, d.t, cap, o, events[k].at)
  }

  lemma OrderedUpto(events: seq<Event>, k: nat, now: int)
    requires Ordered(events, now) && k < |events|
    ensures Ordered(events[..k], events[k].at)
  {
  }

  /** No pick takes an output that the run has created before its whole cooldown has passed. */
  lemma PicksWait(rows: Pool, events: seq<Event>, cap: nat, i: int, k: nat, o: Outpoint, now: int)
    requires Ordered(events, now) && PicksAllowed(rows, events, cap)
    requires k < |events| && events[k].Pick? && o in events[k].ids && LastCreates(rows, events[..k], i, o)
    ensures Until(events[i]) <= events[k].at
  {
    OrderedUpto(events, k, now);
    CoolingIsLogged(rows, events[..k], o, events[k].at);
    assert events[..k][i] == events[i];
  }

  // ---------- and from then on ----------

  /** The event writes a new row of this amount for the output. */
  ghost predicate WritesRow(d: Desk, e: Event, o: Outpoint, sats: int) {
    match e
    case RecordSpend(_, _, _, change, _) =>
      Creates(d, e, o) && change.value.hasScript && sats == change.value.sats
    case Reshape(_, spent, txid, outputs, _) =>
      (o in d.rows ==> o in spent) && exists k :: FirstOutput(outputs, txid, k, o) && outputs[k].sats == sats
    case _ => false
  }

  ghost predicate FirstOutput(outputs: seq<Output>, txid: string, k: int, o: Outpoint) {
    && 0 <= k < |outputs| && o == Outpoint(txid, outputs[k].vout)
    && forall j :: 0 <= j < k ==> outputs[j].vout != o.vout
  }

  lemma {:induction false} InsertOutputsExact(rows: Pool, txid: string, outputs: seq<Output>, now: int,
                                              k: int, o: Outpoint)
    requires o !in rows
    ensures FirstOutput(outputs, txid, k, o) ==>
      var after := InsertOutputs(rows, txid, outputs, now);
      o in after && after[o] == PoolRow(outputs[k].sats, false, Some(now))
    ensures (forall j :: 0 <= j < |outputs| ==> o != Outpoint(txid, outputs[j].vout)) ==>
      o !in InsertOutputs(rows, txid, outputs, now)
    decreases |outputs|
  {
    if outputs != [] {
      var n := |outputs| - 1;
      InsertOutputsExact(rows, txid, outputs[..n], now, k, o);
      if FirstOutput(outputs, txid, k, o) && k < n { assert FirstOutput(outputs[..n], txid, k, o); }
      if FirstOutput(outputs, txid, k, o) && k == n {
        forall j | 0 <= j < n ensures o != Outpoint(txid, outputs[..n][j].vout) {}
      }
    }
  }

  predicate Takes(e: Event, o: Outpoint) { e.Pick? && o in e.ids }

  predicate Frees(e: Event, o: Outpoint) { e.Release? && o in e.ids }

  /** Picked after event `i` and not released since. */
  ghost predicate Held(events: seq<Event>, i: nat, o: Outpoint) {
    exists j :: i < j < |events| && Takes(events[j], o) && NotFreed(events, j, o)
  }

  ghost predicate NotFreed(events: seq<Event>, j: nat, o: Outpoint) {
    forall m :: j < m < |events| ==> !Frees(events[m], o)
  }

  lemma HeldSnoc(events: seq<Event>, e: Event, i: nat, o: Outpoint)
    requires i < |events|
    ensures Held(events + [e], i, o) <==> Takes(e, o) || (Held(events, i, o) && !Frees(e, o))
  {
    var all := events + [e];
    if Takes(e, o) { assert Takes(all[|events|], o) && NotFreed(all, |events|, o); }
    if Held(events, i, o) && !Frees(e, o) {
      var j :| i < j < |events| && Takes(events[j], o) && NotFreed(events, j, o);
      assert Takes(all[j], o) && NotFreed(all, j, o);
    }
    if Held(all, i, o) && !Takes(e, o) {
      var j :| i < j < |all| && Takes(all[j], o) && NotFreed(all, j, o);
      assert !Frees(all[|events|], o);
      forall m | j < m < |events| ensures !Frees(events[m], o) { assert !Frees(all[m], o); }
      assert Takes(events[j], o) && NotFreed(events, j, o);
    }
  }

  /** A row that an event neither writes nor ends keeps its amount, and its lock unless picked or released. */
  lemma RowStep(d: Desk, e: Event, o: Outpoint)
    requires o in d.rows && !Touches(d, e, o)
    ensures var rows := Apply(d, e).rows;
      && o in rows && rows[o].sats == d.rows[o].sats
      && (rows[o].locked <==> Takes(e, o) || (d.rows[o].locked && !Frees(e, o)))
  {
    match e
    case Reshape(at, spent, txid, outputs, _) => ReshapeAgrees(d.rows - (set x | x in spent), txid, outputs, at);
    case Reconcile(_, _, _, _, _) => DropsExact(d, e, o);
    case _ =>
  }

  lemma RowWritten(d: Desk, e: Event, o: Outpoint, sats: int)
    requires WritesRow(d, e, o, sats)
    ensures o in Apply(d, e).rows && Apply(d, e).rows[o] == PoolRow(sats, false, Some(e.at)) && Creates(d, e, o)
  {
    match e
    case RecordSpend(_, _, _, _, _) =>
    case Reshape(at, spent, txid, outputs, _) =>
      var k :| FirstOutput(outputs, txid, k, o) && outputs[k].sats == sats;
      InsertOutputsExact(d.rows - (set x | x in spent), txid, outputs, at, k, o);
      assert outputs[k] in outputs;
  }

  lemma {:induction false} RowStays(rows: Pool, events: seq<Event>, i: int, o: Outpoint, sats: int)
    requires LastCreates(rows, events, i, o) && WritesRow(After(rows, events[..i]), events[i], o, sats)
    ensures var d := After(rows, events);
      o in d.rows && d.rows[o].sats == sats && (d.rows[o].locked <==> Held(events, i, o))
    decreases |events|
  {
    var n := |events| - 1;
    var front, last := events[..n], events[n];
    assert front + [last] == events;
    if i == n {
      RowWritten(After(rows, front), last, o, sats);
    } else {
      LastCreatesSnoc(rows, front, last, i, o);
      assert events[..i] == front[..i];
      RowStays(rows, front, i, o, sats);
      HeldSnoc(front, last, i, o);
      RowStep(After(rows, front), last, o);
    }
  }

  /**
   An output that the run has created may be picked exactly from the end of its cooldown on, while
   nothing holds it, it is worth the floor, and its chain is within the cap.
   */
  lemma ChangeRejoins(rows: Pool, events: seq<Event>, i: int, o: Outpoint, sats: int, cap: nat, now: int)
    requires Ordered(events, now)
    requires LastCreates(rows, events, i, o) && WritesRow(After(rows, events[..i]), events[i], o, sats)
    ensures var d := After(rows, events);
      MayPick(d.rows, d.cooling, d.t, cap, o, now)
      <==> && Until(events[i]) <= now && !Held(events, i, o)
           && sats >= 546 && (o in d.t.depth ==> d.t.depth[o] <= cap)
  {
    RowStays(rows, events, i, o, sats);
    CoolingIsLogged(rows, events, o, now);
    LastIsOne(rows, events, o);
  }

  lemma LastIsOne(rows: Pool, events: seq<Event>, o: Outpoint)
    ensures forall i, j :: LastCreates(rows, events, i, o) && LastCreates(rows, events, j, o) ==> i == j
  {
    forall i, j | LastCreates(rows, events, i, o) && LastCreates(rows, events, j, o) ensures i == j {
      assert Touches(After(rows, events[..i]), events[i], o) && Touches(After(rows, events[..j]), events[j], o);
    }
  }

  // ---------- a cooldown that a reconcile loses ----------

  const NEW_CHANGE := Outpoint("t", 0)

  const DROPPED := [
    RecordSpend(0, [], "t", Some(Change(0, 1_000, true)), 30_000),
    Reconcile(1, [], 0, map[], map[]),
    Reconcile(2, [ChainUtxo(NEW_CHANGE, 1_000, false)], 0, map[], map[])]

  const SPENT := Desk(
    map[NEW_CHANGE := PoolRow(1_000, false, Some(0))], map[NEW_CHANGE := 30_000],
    ChainDepth.Tracker(map[NEW_CHANGE := 1], [NEW_CHANGE], []))

  const EMPTY := Desk(map[], map[], ChainDepth.NEW)

  const LISTED := Desk(map[NEW_CHANGE := PoolRow(1_000, false, Some(2))], map[], ChainDepth.NEW)

  lemma ChangeIsSpent()
    ensures Apply(EMPTY, DROPPED[0]) == SPENT
  {
    var o := NEW_CHANGE;
    var t := ChainDepth.Tracker(map[o := 1], [o], []);
    assert ChainDepth.NoteUnconfirmed(ChainDepth.NEW, o, 1) == t;
    assert ChainDepth.NoteCreated(t, "t", [][..], 1) == t;
    assert [0][1..] == [];
    assert ChainDepth.NoteCreated(ChainDepth.NEW, "t", [0], 1) == t;
  }

  lemma ChangeIsDropped()
    ensures Apply(SPENT, DROPPED[1]) == EMPTY
  {
    GuardHolds(SnapshotOf(DROPPED[1]), SPENT.rows, NEW_CHANGE);
    assert Reconciled(SnapshotOf(DROPPED[1]), SPENT.rows) == map[];
    assert Outside([NEW_CHANGE], {NEW_CHANGE}) == [];
  }

  lemma ChangeIsListed()
    ensures Apply(EMPTY, DROPPED[2]) == LISTED
  {
    var chain := [ChainUtxo(NEW_CHANGE, 1_000, false)];
    FirstValueListed(chain, NEW_CHANGE);
    assert Listed(chain) == {NEW_CHANGE};
    assert Reconciled(SnapshotOf(DROPPED[2]), map[]) == LISTED.rows;
    assert chain[..0] == [] && ConfirmListed(ChainDepth.NEW, chain) == ChainDepth.NEW;
  }

  /** Dropped by a forced reconcile and listed by the next, a change is back without its cooldown or depth. */
  lemma DroppedChangeIsBackAtOnce(cap: nat)
    ensures Creates(EMPTY, DROPPED[0], NEW_CHANGE) && Until(DROPPED[0]) == 30_000
    ensures Ordered(DROPPED, 2)
    ensures var d := After(map[], DROPPED); MayPick(d.rows, d.cooling, d.t, cap, NEW_CHANGE, 3)
  {
    ChangeIsSpent();
    ChangeIsDropped();
    ChangeIsListed();
    var two := DROPPED[..2];
    assert two[..1][..0] == [] && two[..1][0] == DROPPED[0] && two[1] == DROPPED[1];
    assert After(map[], two[..1][..0]) == EMPTY;
    assert After(map[], two[..1]) == SPENT;
    assert two[..|two| - 1] == two[..1] && DROPPED[..|DROPPED| - 1] == two;
    assert After(map[], two) == EMPTY;
  }
}
