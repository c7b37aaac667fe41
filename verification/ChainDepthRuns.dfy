/**
 Runs of the treasury: what is broadcast, when it is recorded, and what reconciliation does in
 between (`funding-utxo-manager.ts`, `auto-refill.ts`).

 A spend is broadcast first and recorded after an await. A reconcile in between can list its
 outputs, and then the record of a refill aborts (plain insert) while that of a reshape goes
 through (insert that ignores a row already there).
 */
module ChainDepthRuns {
  import opened Lists
  import opened TreasurySelection
  import opened ChainDepth

  /**
   `rows` are the outpoints in the pool and `held` the locked ones; `spends` is what was really
   broadcast, in order; `recorded` are the txids whose record has run, aborted or not; `gone` are
   the inputs that a committed record has forgotten; `mined` are the transactions really confirmed.
   */
  datatype World = World(
    t: Tracker, rows: set<Outpoint>, held: set<Outpoint>, spends: seq<Spend>, recorded: set<string>,
    gone: set<Outpoint>, mined: set<string>)

  const START := World(NEW, {}, {}, [], {}, {}, {})

  datatype Event =
    | Acquire(o: Outpoint)
    | Release(o: Outpoint)
    | Broadcast(spend: Spend)
    | Record(spend: Spend, how: How)
    | Mine(txids: set<string>)
    | SeenConfirmed(o: Outpoint)    // a chain listing with a height
    | Listed(o: Outpoint)           // a chain listing without a local row
    | Dropped(o: Outpoint)          // a local row without a chain listing
    | Purged(o: Outpoint)           // a row deleted outside reconciliation
    | Invalidated(o: Outpoint)      // an output of a transaction given up for lost

  function Apply(w: World, e: Event): World {
    match e
    case Acquire(o) => w.(held := w.held + {o})
    case Release(o) => w.(held := w.held - {o})
    case Broadcast(s) => w.(spends := w.spends + [s])
    case Record(s, how) => Recorded(w, s, how)
    case Mine(txids) => w.(mined := w.mined + txids)
    case SeenConfirmed(o) => w.(t := Confirm(w.t, o))
    case Listed(o) => w.(rows := w.rows + {o})
    case Dropped(o) => w.(rows := w.rows - {o}, t := Forget(w.t, o))
    case Purged(o) => w.(rows := w.rows - {o})
    case Invalidated(o) => w.(t := Forget(w.t, o))
  }

  /** A record that aborts leaves rows and tracker alone; its caller releases the inputs. */
  function Recorded(w: World, s: Spend, how: How): World {
    var done := w.(held := w.held - Ins(s), recorded := w.recorded + {s.txid});
    if !Commits(w.rows, s, how) then done
    else
      done.(t := RememberSpend(w.t, s.inputs, s.txid, s.vouts), rows := w.rows - Ins(s) + Outs(s),
            gone := w.gone + Ins(s))
  }

  function After(w: World, events: seq<Event>): World
    decreases |events|
  {
    if events == [] then w else After(Apply(w, events[0]), events[1..])
  }

  // ---------- every tracked depth stays within cap + 1 ----------

  lemma ConfirmKeeps(t: Tracker, o: Outpoint, limit: nat)
    requires Valid(t) && Within(t, limit)
    ensures Valid(Confirm(t, o)) && Within(Confirm(t, o), limit)
    ensures forall x :: DepthOf(Confirm(t, o), x) <= DepthOf(t, x)
  {
    ForgetValid(t, o);
    BoundShrinks(Tracker(t.depth - {o}, Without(t.order, o),
                         if o in t.confirmed then t.confirmed else t.confirmed + [o]));
  }

  lemma {:induction false} NoteCreatedElsewhere(t: Tracker, txid: string, vouts: seq<int>, depth: nat, x: Outpoint)
    requires Valid(t) && depth > 0 && !Created(x, txid, vouts)
    ensures DepthOf(NoteCreated(t, txid, vouts, depth), x) <= DepthOf(t, x)
    decreases |vouts|
  {
    if vouts != [] {
      var o := Outpoint(txid, vouts[0]);
      NotedValid(t, o, depth);
      BoundShrinks(Noted(t, o, depth));
      assert x != o && !Created(x, txid, vouts[1..]);
      NoteCreatedElsewhere(NoteUnconfirmed(t, o, depth), txid, vouts[1..], depth, x);
    }
  }

  lemma CreatedIsOut(s: Spend, o: Outpoint)
    ensures Created(o, s.txid, s.vouts) <==> o in Outs(s)
  {
    if Created(o, s.txid, s.vouts) { assert o == Outpoint(s.txid, o.vout); }
  }

  lemma SpendElsewhere(t: Tracker, s: Spend, x: Outpoint, limit: nat)
    requires Valid(t) && Within(t, limit) && x !in Outs(s)
    ensures DepthOf(RememberSpend(t, s.inputs, s.txid, s.vouts), x) <= DepthOf(t, x)
  {
    ForgetInputsDepths(t, s.inputs);
    var (t1, p) := ForgetInputs(t, 0, s.inputs);
    assert Valid(t1) by { ForgetInputsKeeps(t, 0, s.inputs, limit, 0); }
    CreatedIsOut(s, x);
    NoteCreatedElsewhere(t1, s.txid, s.vouts, p + 1, x);
  }

  ghost predicate DepthsBounded(cap: nat, w: World) {
    && Valid(w.t) && Within(w.t, cap + 1)
    && forall o :: o in w.held ==> DepthOf(w.t, o) <= cap
  }

  /** The code's guards, and that no output is held when the record of its own spend commits. */
  predicate Allowed(cap: nat, w: World, e: Event) {
    match e
    case Acquire(o) => DepthOf(w.t, o) <= cap
    case Record(s, how) => s.txid != "" && Ins(s) <= w.held && (Commits(w.rows, s, how) ==> Outs(s) !! w.held)
    case _ => true
  }

  ghost predicate AllowedRun(cap: nat, w: World, events: seq<Event>)
    decreases |events|
  {
    events != [] ==> Allowed(cap, w, events[0]) && AllowedRun(cap, Apply(w, events[0]), events[1..])
  }

  lemma ApplyKeepsBound(cap: nat, w: World, e: Event)
    requires DepthsBounded(cap, w) && Allowed(cap, w, e)
    ensures DepthsBounded(cap, Apply(w, e))
  {
    match e
    case Record(s, how) => if Commits(w.rows, s, how) { RecordKeepsBound(cap, w, s, how); }
    case SeenConfirmed(o) => ConfirmKeeps(w.t, o, cap + 1);
    case Dropped(o) => ForgetValid(w.t, o);
    case Invalidated(o) => ForgetValid(w.t, o);
    case _ =>
  }

  lemma RecordKeepsBound(cap: nat, w: World, s: Spend, how: How)
    requires DepthsBounded(cap, w) && Allowed(cap, w, Record(s, how)) && Commits(w.rows, s, how)
    ensures DepthsBounded(cap, Recorded(w, s, how))
  {
    forall i | 0 <= i < |s.inputs| ensures DepthOf(w.t, s.inputs[i]) <= cap { assert s.inputs[i] in Ins(s); }
    SpendKeeps(w.t, s.inputs, s.txid, s.vouts, cap);
    forall o | o in w.held - Ins(s) ensures DepthOf(Recorded(w, s, how).t, o) <= cap {
      SpendElsewhere(w.t, s, o, cap + 1);
    }
  }

  /** In every allowed run every tracked depth is at most cap + 1, and every held output at most cap. */
  lemma {:induction false} RunKeepsBound(cap: nat, w: World, events: seq<Event>)
    requires DepthsBounded(cap, w) && AllowedRun(cap, w, events)
    ensures DepthsBounded(cap, After(w, events))
    decreases |events|
  {
    if events != [] {
      ApplyKeepsBound(cap, w, events[0]);
      RunKeepsBound(cap, Apply(w, events[0]), events[1..]);
    }
  }

  /** On the refill path the guard holds by itself for as long as held outputs keep their rows. */
  lemma InsertIsNotLate(w: World, s: Spend)
    requires w.held <= w.rows && Outs(s) !! Ins(s)
    ensures Commits(w.rows, s, Insert) ==> Outs(s) !! w.held
  {
  }

  /**
   Short of the eviction bound the guards are exact: a committing record keeps the depths bounded if
   and only if its inputs are within the cap and none of its outputs is held when it makes them too deep.
   */
  lemma RecordBoundExact(cap: nat, w: World, s: Spend, how: How)
    requires DepthsBounded(cap, w) && s.txid != "" && s.vouts != [] && Size(w.t) + |s.vouts| <= DEPTH_MAX
    ensures DepthsBounded(cap, Recorded(w, s, how)) <==>
      !Commits(w.rows, s, how)
      || (AllWithin(w.t, s.inputs, cap) && (Outs(s) !! (w.held - Ins(s)) || Deepest(w.t, s.inputs) < cap))
  {
    if Commits(w.rows, s, how) {
      SpendBoundExact(w.t, s.inputs, s.txid, s.vouts, cap);
      SpendExact(w.t, s.inputs, s.txid, s.vouts);
      forall o ensures o in Outs(s) ==> DepthOf(Recorded(w, s, how).t, o) == Deepest(w.t, s.inputs) + 1 {
        CreatedIsOut(s, o);
      }
      forall o | o in w.held && o !in Outs(s) ensures DepthOf(Recorded(w, s, how).t, o) <= cap {
        SpendElsewhere(w.t, s, o, cap + 1);
      }
    }
  }

  /**
   The guard on outputs is needed. A reconcile lists the output q of a spend that is broadcast and not
   yet recorded; it is acquired at depth 0 and spent in turn; then its own record commits, because a
   reshape ignores the listed row or because the row is dropped again, and the second record is too deep.
   */
  lemma LateRecordBreaksBound(cap: nat, w: World, p: Outpoint, q: Outpoint, r: Outpoint, how: How)
    requires Valid(w.t) && DepthOf(w.t, p) == cap && DepthOf(w.t, q) == 0 && Size(w.t) + 2 <= DEPTH_MAX
    requires p.txid != q.txid && q.txid != "" && r.txid != "" && r.txid != q.txid && r !in w.rows
    ensures var first, second := Spend([p], q.txid, [q.vout]), Spend([q], r.txid, [r.vout]);
      var both := After(w, [Acquire(p), Broadcast(first), Listed(q), Acquire(q), Broadcast(second)]);
      var late := if how == Insert then Apply(both, Dropped(q)) else both;
      && DepthOf(w.t, p) <= cap && DepthOf(w.t, q) <= cap
      && DepthOf(Recorded(Recorded(late, first, how), second, how).t, r) == cap + 2
  {
    var first, second := Spend([p], q.txid, [q.vout]), Spend([q], r.txid, [r.vout]);
    FiveSteps(w, Acquire(p), Broadcast(first), Listed(q), Acquire(q), Broadcast(second));
    var both := After(w, [Acquire(p), Broadcast(first), Listed(q), Acquire(q), Broadcast(second)]);
    assert both.t == w.t && both.rows == w.rows + {q};
    var late := if how == Insert then Apply(both, Dropped(q)) else both;
    ForgetValid(w.t, q);
    assert DepthOf(late.t, p) == cap && Valid(late.t) && Size(late.t) <= Size(w.t);
    assert Outs(first) == {q} && Outs(second) == {r} && Ins(second) == {q};
    assert Commits(late.rows, first, how);
    SpendOne(late.t, p, q);
    var w1 := Recorded(late, first, how);
    assert Commits(w1.rows, second, how);
    SpendOne(w1.t, q, r);
  }

  // ---------- and a run from a fresh process reaches it ----------

  /** What the code itself guards. */
  predicate Guarded(cap: nat, w: World, e: Event) {
    match e
    case Acquire(o) => DepthOf(w.t, o) <= cap
    case Record(s, _) => s.txid != "" && Ins(s) <= w.held
    case _ => true
  }

  ghost predicate GuardedRun(cap: nat, w: World, events: seq<Event>)
    decreases |events|
  {
    events != [] ==> Guarded(cap, w, events[0]) && GuardedRun(cap, Apply(w, events[0]), events[1..])
  }

  lemma {:induction false} AfterJoin(cap: nat, w: World, a: seq<Event>, b: seq<Event>)
    ensures After(w, a + b) == After(After(w, a), b)
    ensures GuardedRun(cap, w, a + b) <==> GuardedRun(cap, w, a) && GuardedRun(cap, After(w, a), b)
    decreases |a|
  {
    if a == [] {
      assert a + b == b;
    } else {
      assert (a + b)[1..] == a[1..] + b && (a + b)[0] == a[0];
      AfterJoin(cap, Apply(w, a[0]), a[1..], b);
    }
  }

  /** The k-th output of a chain of refills, each spending the one before. */
  function Link(k: nat): (o: Outpoint)
    ensures |o.txid| == k + 1
  {
    Outpoint(seq(k + 1, _ => 'x'), 0)
  }

  function LinkSpend(k: nat): Spend { Spend([Link(k)], Link(k + 1).txid, [0]) }

  function Links(k: nat): seq<Event> {
    if k == 0 then [Listed(Link(0))]
    else Links(k - 1) + LinkEvents(k - 1)
  }

  function LinkTracker(k: nat): Tracker {
    if k == 0 then NEW else Tracker(map[Link(k) := k], [Link(k)], [])
  }

  lemma LinkTracked(k: nat)
    ensures RememberSpend(LinkTracker(k), [Link(k)], Link(k + 1).txid, [0]) == LinkTracker(k + 1)
  {
    var t, o, q := LinkTracker(k), Link(k), Link(k + 1);
    assert [o][1..] == [] && [0][1..] == [];
    assert Forget(t, o) == NEW by {
      if k > 0 { assert [o][1..] == []; }
    }
    assert ForgetInputs(t, 0, [o]) == ForgetInputs(NEW, Max(0, DepthOf(t, o)), []) == (NEW, k);
    assert NoteUnconfirmed(NEW, q, k + 1) == LinkTracker(k + 1);
    assert NoteCreated(LinkTracker(k + 1), q.txid, [], k + 1) == LinkTracker(k + 1);
  }

  lemma TwoSteps(cap: nat, w: World, a: Event, b: Event)
    ensures After(w, [a, b]) == Apply(Apply(w, a), b)
    ensures GuardedRun(cap, w, [a, b]) <==> Guarded(cap, w, a) && Guarded(cap, Apply(w, a), b)
  {
    OneStep(cap, Apply(w, a), b);
    assert [a, b][1..] == [b];
  }

  lemma OneStep(cap: nat, w: World, a: Event)
    ensures After(w, [a]) == Apply(w, a) && (GuardedRun(cap, w, [a]) <==> Guarded(cap, w, a))
  {
    assert [a][1..] == [];
  }

  ghost predicate AtLink(w: World, k: nat) { w.t == LinkTracker(k) && w.rows == {Link(k)} && w.held == {} }

  function LinkEvents(k: nat): seq<Event> {
    [Acquire(Link(k))] + [Broadcast(LinkSpend(k)), Record(LinkSpend(k), Insert)]
  }

  /** After k refills one output is in the pool, free, at depth k. */
  lemma {:induction false} LinksReach(cap: nat, k: nat)
    requires k <= cap
    ensures GuardedRun(cap, START, Links(k)) && AtLink(After(START, Links(k)), k)
  {
    if k == 0 {
      OneStep(cap, START, Listed(Link(0)));
    } else {
      LinksReach(cap, k - 1);
      OneLink(cap, After(START, Links(k - 1)), k - 1);
      AfterJoin(cap, START, Links(k - 1), LinkEvents(k - 1));
    }
  }

  lemma OneLink(cap: nat, w: World, k: nat)
    requires k <= cap && AtLink(w, k)
    ensures GuardedRun(cap, w, LinkEvents(k)) && AtLink(After(w, LinkEvents(k)), k + 1)
  {
    var a, b, c := Acquire(Link(k)), Broadcast(LinkSpend(k)), Record(LinkSpend(k), Insert);
    LinkTracked(k);
    OneStep(cap, w, a);
    TwoSteps(cap, Apply(w, a), b, c);
    AfterJoin(cap, w, [a], [b, c]);
    assert Ins(LinkSpend(k)) == {Link(k)} && Outs(LinkSpend(k)) == {Link(k + 1)};
    assert Link(k).txid != Link(k + 1).txid;
  }

  /** The steps of `LateRecordBreaksBound`, as one list. */
  function LateSteps(p: Outpoint, q: Outpoint, r: Outpoint, how: How): seq<Event> {
    var first, second := Spend([p], q.txid, [q.vout]), Spend([q], r.txid, [r.vout]);
    [Acquire(p), Broadcast(first), Listed(q), Acquire(q), Broadcast(second)]
    + (if how == Insert then [Dropped(q)] else []) + [Record(first, how), Record(second, how)]
  }

  /** So the bound is lost in a run of a fresh process that passes every guard of the code, for every cap. */
  lemma LateRecordHappens(cap: nat, how: How)
    ensures exists events, o :: GuardedRun(cap, START, events) && DepthOf(After(START, events).t, o) == cap + 2
  {
    var p, q, r := Link(cap), Link(cap + 1), Link(cap + 2);
    LinksReach(cap, cap);
    var w := After(START, Links(cap));
    LateRecordBreaksBound(cap, w, p, q, r, how);
    LateStepsEnd(cap, w, p, q, r, how);
    AfterJoin(cap, START, Links(cap), LateSteps(p, q, r, how));
    assert DepthOf(After(START, Links(cap) + LateSteps(p, q, r, how)).t, r) == cap + 2;
  }

  lemma LateStepsEnd(cap: nat, w: World, p: Outpoint, q: Outpoint, r: Outpoint, how: How)
    requires DepthOf(w.t, p) <= cap && DepthOf(w.t, q) <= cap && q.txid != "" && r.txid != "" && p != q
    ensures var first, second := Spend([p], q.txid, [q.vout]), Spend([q], r.txid, [r.vout]);
      var both := After(w, [Acquire(p), Broadcast(first), Listed(q), Acquire(q), Broadcast(second)]);
      var late := if how == Insert then Apply(both, Dropped(q)) else both;
      && GuardedRun(cap, w, LateSteps(p, q, r, how))
      && After(w, LateSteps(p, q, r, how)) == Recorded(Recorded(late, first, how), second, how)
  {
    var first, second := Spend([p], q.txid, [q.vout]), Spend([q], r.txid, [r.vout]);
    var five := [Acquire(p), Broadcast(first), Listed(q), Acquire(q), Broadcast(second)];
    var drop := if how == Insert then [Dropped(q)] else [];
    var records := [Record(first, how), Record(second, how)];
    FiveSteps(w, Acquire(p), Broadcast(first), Listed(q), Acquire(q), Broadcast(second));
    FiveGuarded(cap, w, p, q, first, second);
    var both := After(w, five);
    var late := if how == Insert then Apply(both, Dropped(q)) else both;
    assert both.held == w.held + {p, q};
    assert After(both, drop) == late && GuardedRun(cap, both, drop) by { OneStep(cap, both, Dropped(q)); }
    AfterJoin(cap, w, five, drop);
    AfterJoin(cap, w, five + drop, records);
    assert Ins(first) == {p} && Ins(second) == {q};
    TwoSteps(cap, late, Record(first, how), Record(second, how));
  }

  lemma FiveGuarded(cap: nat, w: World, p: Outpoint, q: Outpoint, first: Spend, second: Spend)
    requires DepthOf(w.t, p) <= cap && DepthOf(w.t, q) <= cap
    ensures GuardedRun(cap, w, [Acquire(p), Broadcast(first), Listed(q), Acquire(q), Broadcast(second)])
  {
    var a, b, c, d, e := Acquire(p), Broadcast(first), Listed(q), Acquire(q), Broadcast(second);
    assert [a, b, c, d, e][1..] == [b, c, d, e] && [b, c, d, e][1..] == [c, d, e] && [c, d, e][1..] == [d, e];
    assert [d, e][1..] == [e] && [e][1..] == [];
    assert GuardedRun(cap, Apply(Apply(Apply(w, a), b), c), [d, e]);
  }

  lemma FiveSteps(w: World, a: Event, b: Event, c: Event, d: Event, e: Event)
    ensures After(w, [a, b, c, d, e]) == Apply(Apply(Apply(Apply(Apply(w, a), b), c), d), e)
  {
    var w1 := Apply(w, a);
    var w2 := Apply(w1, b);
    var w3 := Apply(w2, c);
    var w4 := Apply(w3, d);
    assert [a, b, c, d, e][1..] == [b, c, d, e] && [b, c, d, e][1..] == [c, d, e] && [c, d, e][1..] == [d, e];
    assert [d, e][1..] == [e] && [e][1..] == [];
    assert After(w4, [e]) == Apply(w4, e);
    assert After(w3, [d, e]) == After(w4, [e]);
    assert After(w2, [c, d, e]) == After(w3, [d, e]);
    assert After(w1, [b, c, d, e]) == After(w2, [c, d, e]);
  }

  /** A one-input, one-output spend. */
  lemma SpendOne(t: Tracker, p: Outpoint, q: Outpoint)
    requires Valid(t) && q.txid != "" && Size(t) + 1 <= DEPTH_MAX
    ensures var t' := RememberSpend(t, [p], q.txid, [q.vout]);
      Valid(t') && Size(t') <= Size(t) + 1 && DepthOf(t', q) == DepthOf(t, p) + 1
  {
    SpendExact(t, [p], q.txid, [q.vout]);
    assert [p][1..] == [];
    assert Deepest(t, [p]) == DepthOf(t, p);
    assert Created(q, q.txid, [q.vout]);
  }

  // ---------- tracked depth is never below the true chain ----------

  /** Longest chain of unconfirmed transactions of this process that ends in `txid`. */
  ghost function TrueDepth(spends: seq<Spend>, mined: set<string>, txid: string): nat
    decreases |spends|, 0
  {
    if spends == [] then 0
    else
      var before, last := spends[..|spends| - 1], spends[|spends| - 1];
      if last.txid != txid then TrueDepth(before, mined, txid)
      else if txid in mined then 0
      else 1 + DeepestParent(before, mined, last.inputs)
  }

  ghost function DeepestParent(spends: seq<Spend>, mined: set<string>, inputs: seq<Outpoint>): nat
    decreases |spends|, 1 + |inputs|
  {
    if inputs == [] then 0
    else Max(TrueDepth(spends, mined, inputs[0].txid), DeepestParent(spends, mined, inputs[1..]))
  }

  ghost predicate MadeHere(spends: seq<Spend>, txid: string) { exists i :: 0 <= i < |spends| && spends[i].txid == txid }

  ghost predicate OutputHere(spends: seq<Spend>, o: Outpoint) {
    exists i :: 0 <= i < |spends| && o in Outs(spends[i])
  }

  lemma {:induction false} UnmadeIsZero(spends: seq<Spend>, mined: set<string>, txid: string)
    requires !MadeHere(spends, txid)
    ensures TrueDepth(spends, mined, txid) == 0
    decreases |spends|
  {
    if spends != [] {
      assert spends[|spends| - 1].txid != txid;
      assert !MadeHere(spends[..|spends| - 1], txid);
      UnmadeIsZero(spends[..|spends| - 1], mined, txid);
    }
  }

  lemma {:induction false} MiningLowers(spends: seq<Spend>, mined: set<string>, more: set<string>, txid: string)
    requires mined <= more
    ensures TrueDepth(spends, more, txid) <= TrueDepth(spends, mined, txid)
    decreases |spends|, 0
  {
    if spends != [] {
      var before, last := spends[..|spends| - 1], spends[|spends| - 1];
      MiningLowers(before, mined, more, txid);
      MiningLowersParents(before, mined, more, last.inputs);
    }
  }

  lemma {:induction false} MiningLowersParents(spends: seq<Spend>, mined: set<string>, more: set<string>,
                                               inputs: seq<Outpoint>)
    requires mined <= more
    ensures DeepestParent(spends, more, inputs) <= DeepestParent(spends, mined, inputs)
    decreases |spends|, 1 + |inputs|
  {
    if inputs != [] {
      MiningLowers(spends, mined, more, inputs[0].txid);
      MiningLowersParents(spends, mined, more, inputs[1..]);
    }
  }

  lemma {:induction false} MinedIsZero(spends: seq<Spend>, mined: set<string>, txid: string)
    requires txid in mined
    ensures TrueDepth(spends, mined, txid) == 0
    decreases |spends|
  {
    if spends != [] { MinedIsZero(spends[..|spends| - 1], mined, txid); }
  }

  lemma OutputHereGrows(spends: seq<Spend>, s: Spend, o: Outpoint)
    ensures OutputHere(spends + [s], o) <==> OutputHere(spends, o) || o in Outs(s)
  {
    var more := spends + [s];
    if OutputHere(spends, o) {
      var i :| 0 <= i < |spends| && o in Outs(spends[i]);
      assert o in Outs(more[i]);
    }
    if o in Outs(s) { assert o in Outs(more[|spends|]); }
  }

  // ---------- what is true of every world ----------

  ghost predicate DistinctTxids(spends: seq<Spend>) {
    forall i, j :: 0 <= i < j < |spends| ==> spends[i].txid != spends[j].txid
  }

  /** Facts of the chain, and that the tracker only knows outputs of recorded spends. */
  ghost predicate Sound(w: World) {
    && Valid(w.t) && DistinctTxids(w.spends)
    && (forall s :: s in w.spends ==> s.txid != "" && forall o :: o in s.inputs ==> o.txid != s.txid)
    && forall o :: DepthOf(w.t, o) > 0 ==> o.txid in w.recorded
  }

  /** A transaction has one id, is recorded once, after it is broadcast, and nothing is evicted. */
  ghost predicate Possible(w: World, e: Event) {
    match e
    case Broadcast(s) =>
      && s.txid != "" && !MadeHere(w.spends, s.txid) && s.txid !in w.recorded
      && forall o :: o in s.inputs ==> o.txid != s.txid
    case Record(s, _) => s in w.spends && s.txid !in w.recorded && Size(w.t) + |s.vouts| <= DEPTH_MAX
    case SeenConfirmed(_) => Size(w.t) < DEPTH_MAX
    case _ => true
  }

  /** An output whose spend's record has run, and whose own depth no later record has forgotten. */
  ghost predicate Live(w: World, o: Outpoint) { OutputHere(w.spends, o) && o.txid in w.recorded && o !in w.gone }

  ghost function Chain(w: World, txid: string): nat { TrueDepth(w.spends, w.mined, txid) }

  ghost predicate NeverBelow(w: World) {
    Sound(w) && forall o :: Live(w, o) ==> DepthOf(w.t, o) >= Chain(w, o.txid)
  }

  // ---------- true depth of one spend among many ----------

  /** A transaction's chain is one more than its deepest parent's was when it was broadcast, or nothing once mined. */
  lemma {:induction false} ChainOfSpend(spends: seq<Spend>, mined: set<string>, i: nat)
    requires DistinctTxids(spends) && i < |spends|
    ensures TrueDepth(spends, mined, spends[i].txid) ==
      if spends[i].txid in mined then 0 else 1 + DeepestParent(spends[..i], mined, spends[i].inputs)
    decreases |spends|
  {
    if i < |spends| - 1 {
      var before := spends[..|spends| - 1];
      ChainOfSpend(before, mined, i);
      assert before[..i] == spends[..i] && before[i] == spends[i];
    }
  }

  lemma {:induction false} PrefixNotDeeper(spends: seq<Spend>, mined: set<string>, k: nat, txid: string)
    requires DistinctTxids(spends) && k <= |spends|
    ensures TrueDepth(spends[..k], mined, txid) <= TrueDepth(spends, mined, txid)
    decreases |spends|
  {
    if k == |spends| {
      assert spends[..k] == spends;
    } else {
      var before, last := spends[..|spends| - 1], spends[|spends| - 1];
      PrefixNotDeeper(before, mined, k, txid);
      assert before[..k] == spends[..k];
      if last.txid == txid {
        assert !MadeHere(spends[..k], txid);
        UnmadeIsZero(spends[..k], mined, txid);
      }
    }
  }

  lemma {:induction false} PrefixParentNotDeeper(spends: seq<Spend>, mined: set<string>, k: nat, inputs: seq<Outpoint>)
    requires DistinctTxids(spends) && k <= |spends|
    ensures DeepestParent(spends[..k], mined, inputs) <= DeepestParent(spends, mined, inputs)
    decreases |inputs|
  {
    if inputs != [] {
      PrefixNotDeeper(spends, mined, k, inputs[0].txid);
      PrefixParentNotDeeper(spends, mined, k, inputs[1..]);
    }
  }

  /** Another broadcast changes no other transaction's chain. */
  lemma ChainOfOthers(spends: seq<Spend>, mined: set<string>, s: Spend, txid: string)
    ensures s.txid != txid ==> TrueDepth(spends + [s], mined, txid) == TrueDepth(spends, mined, txid)
  {
    assert (spends + [s])[..|spends|] == spends;
  }

  // ---------- each event, exactly ----------

  /** What it takes for the bound to survive: nothing about the depths after the event. */
  ghost predicate Keeps(w: World, e: Event) {
    match e
    case Record(s, how) =>
      || Outs(s) <= w.gone
      || (if Commits(w.rows, s, how) then Deepest(w.t, s.inputs) + 1 >= Chain(w, s.txid) else Chain(w, s.txid) == 0)
    case SeenConfirmed(o) => Live(w, o) ==> Chain(w, o.txid) == 0
    case Dropped(o) => Live(w, o) ==> Chain(w, o.txid) == 0
    case Invalidated(o) => Live(w, o) ==> Chain(w, o.txid) == 0
    case _ => true
  }

  /** Events that forget one output's depth. */
  lemma ForgetExact(w: World, w': World, o: Outpoint)
    requires NeverBelow(w) && w' == w.(t := w'.t, rows := w'.rows) && Valid(w'.t)
    requires forall x :: DepthOf(w'.t, x) == if x == o then 0 else DepthOf(w.t, x)
    ensures NeverBelow(w') <==> (Live(w, o) ==> Chain(w, o.txid) == 0)
  {
    assert forall x :: Live(w', x) <==> Live(w, x);
    assert Sound(w');
  }

  lemma MadeInSpends(spends: seq<Spend>, s: Spend, o: Outpoint)
    requires DistinctTxids(spends) && s in spends && o.txid == s.txid
    ensures OutputHere(spends, o) <==> o in Outs(s)
  {
    var k :| 0 <= k < |spends| && spends[k] == s;
    if OutputHere(spends, o) {
      var i :| 0 <= i < |spends| && o in Outs(spends[i]);
      assert spends[i].txid == s.txid;
      assert i == k;
    }
    if o in Outs(s) { assert o in Outs(spends[k]); }
  }

  lemma AbortExact(w: World, s: Spend, how: How)
    requires NeverBelow(w) && Possible(w, Record(s, how)) && !Commits(w.rows, s, how)
    ensures NeverBelow(Recorded(w, s, how)) <==> Keeps(w, Record(s, how))
  {
    var w' := Recorded(w, s, how);
    forall o ensures Live(w', o) <==> Live(w, o) || (o in Outs(s) && o !in w.gone) {
      if o.txid == s.txid { MadeInSpends(w.spends, s, o); }
    }
    forall o | o in Outs(s) ensures DepthOf(w.t, o) == 0 && Chain(w', o.txid) == Chain(w, s.txid) {
      assert o.txid == s.txid;
    }
  }

  lemma CommitDepths(w: World, s: Spend, how: How)
    requires Sound(w) && Possible(w, Record(s, how)) && Commits(w.rows, s, how)
    ensures var w' := Recorded(w, s, how);
      && Valid(w'.t) && Sound(w')
      && (forall o :: o in Outs(s) ==> DepthOf(w'.t, o) == Deepest(w.t, s.inputs) + 1 && o !in Ins(s))
      && (forall o :: o !in Outs(s) && o !in Ins(s) ==> DepthOf(w'.t, o) == DepthOf(w.t, o))
  {
    var w' := Recorded(w, s, how);
    SpendExact(w.t, s.inputs, s.txid, s.vouts);
    forall o ensures Created(o, s.txid, s.vouts) <==> o in Outs(s) { CreatedIsOut(s, o); }
    forall o ensures DepthOf(w'.t, o) > 0 ==> o.txid in w'.recorded {
      if o !in Outs(s) && o in Ins(s) { SpendElsewhere(w.t, s, o, MaxDepth(w.t)); }
    }
  }

  lemma CommitExact(w: World, s: Spend, how: How)
    requires NeverBelow(w) && Possible(w, Record(s, how)) && Commits(w.rows, s, how)
    ensures NeverBelow(Recorded(w, s, how)) <==> Keeps(w, Record(s, how))
  {
    var w' := Recorded(w, s, how);
    CommitDepths(w, s, how);
    forall o ensures Live(w', o) <==> (o !in Ins(s) && Live(w, o)) || (o in Outs(s) && o !in w.gone) {
      if o.txid == s.txid { MadeInSpends(w.spends, s, o); }
      assert o in Outs(s) ==> o.txid == s.txid;
    }
    forall o | Live(w', o) && o !in Outs(s) ensures DepthOf(w'.t, o) >= Chain(w', o.txid) {
      assert Live(w, o) && DepthOf(w'.t, o) == DepthOf(w.t, o);
    }
  }

  lemma BroadcastKeeps(w: World, s: Spend)
    requires NeverBelow(w) && Possible(w, Broadcast(s))
    ensures NeverBelow(Apply(w, Broadcast(s)))
  {
    var w' := Apply(w, Broadcast(s));
    forall o ensures Live(w', o) <==> Live(w, o) {
      OutputHereGrows(w.spends, s, o);
      assert o in Outs(s) ==> o.txid == s.txid;
    }
    forall o | Live(w, o) ensures Chain(w', o.txid) == Chain(w, o.txid) { ChainOfOthers(w.spends, w.mined, s, o.txid); }
    forall i, j | 0 <= i < j < |w'.spends| ensures w'.spends[i].txid != w'.spends[j].txid {
      if j == |w.spends| { assert w.spends[i].txid != s.txid; }
    }
  }

  lemma MineKeeps(w: World, txids: set<string>)
    requires NeverBelow(w)
    ensures NeverBelow(Apply(w, Mine(txids)))
  {
    var w' := Apply(w, Mine(txids));
    forall o | Live(w', o) ensures DepthOf(w.t, o) >= Chain(w', o.txid) {
      assert Live(w, o);
      MiningLowers(w.spends, w.mined, w.mined + txids, o.txid);
    }
  }

  /** Every event, for every world: whether the tracked depths stay above the true chains. */
  lemma EventExact(w: World, e: Event)
    requires NeverBelow(w) && Possible(w, e)
    ensures NeverBelow(Apply(w, e)) <==> Keeps(w, e)
  {
    match e
    case Broadcast(s) => BroadcastKeeps(w, s);
    case Record(s, how) => if Commits(w.rows, s, how) { CommitExact(w, s, how); } else { AbortExact(w, s, how); }
    case Mine(txids) => MineKeeps(w, txids);
    case SeenConfirmed(o) =>
      ConfirmDepths(w.t, o);
      ForgetExact(w, Apply(w, e), o);
    case Dropped(o) =>
      ForgetDepths(w.t, o);
      ForgetExact(w, Apply(w, e), o);
    case Invalidated(o) =>
      ForgetDepths(w.t, o);
      ForgetExact(w, Apply(w, e), o);
    case _ => assert forall o :: Live(Apply(w, e), o) <==> Live(w, o);
  }

  // ---------- runs ----------

  ghost predicate PossibleRun(w: World, events: seq<Event>)
    decreases |events|
  {
    events != [] ==> Possible(w, events[0]) && PossibleRun(Apply(w, events[0]), events[1..])
  }

  ghost predicate KeepsRun(w: World, events: seq<Event>)
    decreases |events|
  {
    events != [] ==> Keeps(w, events[0]) && KeepsRun(Apply(w, events[0]), events[1..])
  }

  ghost predicate NeverBelowThroughout(w: World, events: seq<Event>)
    decreases |events|
  {
    NeverBelow(w) && (events != [] ==> NeverBelowThroughout(Apply(w, events[0]), events[1..]))
  }

  /** A whole run keeps the tracked depths above the true chains if and only if each of its events does. */
  lemma {:induction false} RunExact(w: World, events: seq<Event>)
    requires NeverBelow(w) && PossibleRun(w, events)
    ensures NeverBelowThroughout(w, events) <==> KeepsRun(w, events)
    decreases |events|
  {
    if events != [] {
      EventExact(w, events[0]);
      if Keeps(w, events[0]) { RunExact(Apply(w, events[0]), events[1..]); }
      else { assert !NeverBelow(Apply(w, events[0])); }
    }
  }

  // ---------- the pool, listed outputs of unrecorded spends included ----------

  /** A row of the pool made by a spend of ours whose record has not run: it has no tracked depth. */
  ghost predicate ListedEarly(w: World, o: Outpoint) {
    o in w.rows && OutputHere(w.spends, o) && o.txid !in w.recorded
  }

  /** The bound for every output that can be taken from the pool, not only for those recorded. */
  ghost predicate PoolNeverBelow(w: World) {
    NeverBelow(w) && forall o :: ListedEarly(w, o) ==> Chain(w, o.txid) == 0
  }

  /** Beyond `Keeps`: no output is listed while its transaction is unrecorded and unconfirmed. */
  ghost predicate PoolKeeps(w: World, e: Event) {
    && Keeps(w, e)
    && match e
       case Listed(o) => OutputHere(w.spends, o) && o.txid !in w.recorded ==> Chain(w, o.txid) == 0
       case Broadcast(s) => Outs(s) !! w.rows || s.txid in w.mined
       case _ => true
  }

  lemma BroadcastListedEarly(w: World, s: Spend)
    requires PoolNeverBelow(w) && Possible(w, Broadcast(s))
    ensures PoolNeverBelow(Apply(w, Broadcast(s))) <==> Outs(s) !! w.rows || s.txid in w.mined
  {
    var w' := Apply(w, Broadcast(s));
    BroadcastKeeps(w, s);
    ChainOfSpend(w'.spends, w'.mined, |w.spends|);
    forall o ensures ListedEarly(w', o) <==> ListedEarly(w, o) || (o in w.rows && o in Outs(s)) {
      OutputHereGrows(w.spends, s, o);
      assert o in Outs(s) ==> o.txid == s.txid;
    }
    forall o | ListedEarly(w, o) ensures Chain(w', o.txid) == 0 { ChainOfOthers(w.spends, w.mined, s, o.txid); }
    forall o | o in Outs(s) ensures Chain(w', o.txid) == 0 <==> s.txid in w.mined {}
  }

  lemma RowsListedEarly(w: World, w': World)
    requires w'.spends == w.spends && w'.mined == w.mined && w.recorded <= w'.recorded
    requires forall o :: o in w'.rows && o !in w.rows ==> o.txid in w'.recorded
    requires forall o :: ListedEarly(w, o) ==> Chain(w, o.txid) == 0
    ensures forall o :: ListedEarly(w', o) ==> Chain(w', o.txid) == 0
  {
    forall o | ListedEarly(w', o) ensures Chain(w', o.txid) == 0 { assert ListedEarly(w, o); }
  }

  lemma ListingExact(w: World, o: Outpoint)
    requires PoolNeverBelow(w)
    ensures PoolNeverBelow(Apply(w, Listed(o))) <==> PoolKeeps(w, Listed(o))
  {
    var w' := Apply(w, Listed(o));
    assert forall x :: Live(w', x) <==> Live(w, x);
    assert forall x :: ListedEarly(w', x) <==>
      ListedEarly(w, x) || (x == o && OutputHere(w.spends, o) && o.txid !in w.recorded);
  }

  lemma MineListedEarly(w: World, txids: set<string>)
    requires PoolNeverBelow(w)
    ensures PoolNeverBelow(Apply(w, Mine(txids)))
  {
    var w' := Apply(w, Mine(txids));
    MineKeeps(w, txids);
    forall o | ListedEarly(w', o) ensures Chain(w', o.txid) == 0 {
      assert ListedEarly(w, o);
      MiningLowers(w.spends, w.mined, w.mined + txids, o.txid);
    }
  }

  /** Every event, for every world, with the pool's early listings counted. */
  lemma PoolEventExact(w: World, e: Event)
    requires PoolNeverBelow(w) && Possible(w, e)
    ensures PoolNeverBelow(Apply(w, e)) <==> PoolKeeps(w, e)
  {
    EventExact(w, e);
    match e
    case Broadcast(s) => BroadcastListedEarly(w, s);
    case Mine(txids) => MineListedEarly(w, txids);
    case Listed(o) => ListingExact(w, o);
    case _ => RowsListedEarly(w, Apply(w, e));
  }

  ghost predicate PoolKeepsRun(w: World, events: seq<Event>)
    decreases |events|
  {
    events != [] ==> PoolKeeps(w, events[0]) && PoolKeepsRun(Apply(w, events[0]), events[1..])
  }

  ghost predicate PoolThroughout(w: World, events: seq<Event>)
    decreases |events|
  {
    PoolNeverBelow(w) && (events != [] ==> PoolThroughout(Apply(w, events[0]), events[1..]))
  }

  lemma {:induction false} PoolRunExact(w: World, events: seq<Event>)
    requires PoolNeverBelow(w) && PossibleRun(w, events)
    ensures PoolThroughout(w, events) <==> PoolKeepsRun(w, events)
    decreases |events|
  {
    if events != [] {
      PoolEventExact(w, events[0]);
      if PoolKeeps(w, events[0]) { PoolRunExact(Apply(w, events[0]), events[1..]); }
      else { assert !PoolNeverBelow(Apply(w, events[0])); }
    }
  }

  /**
   What a caller can check: the record commits, its inputs made here are recorded and not yet
   forgotten, and a depth is forgotten only by a spend or for an output that is mined or not live.
   */
  ghost predicate Clean(w: World, e: Event) {
    match e
    case Record(s, how) =>
      && Commits(w.rows, s, how)
      && forall o :: o in s.inputs && MadeHere(w.spends, o.txid) ==> Live(w, o)
    case SeenConfirmed(o) => o.txid in w.mined || !Live(w, o)
    case Dropped(o) => o.txid in w.mined || !Live(w, o)
    case Invalidated(o) => o.txid in w.mined || !Live(w, o)
    case _ => true
  }

  ghost predicate CleanRun(w: World, events: seq<Event>)
    decreases |events|
  {
    events != [] ==> Possible(w, events[0]) && Clean(w, events[0]) && CleanRun(Apply(w, events[0]), events[1..])
  }

  lemma {:induction false} DeepestParentBelow(w: World, inputs: seq<Outpoint>, d: nat)
    requires NeverBelow(w) && AllWithin(w.t, inputs, d)
    requires forall o :: o in inputs && MadeHere(w.spends, o.txid) ==> Live(w, o)
    ensures DeepestParent(w.spends, w.mined, inputs) <= d
    decreases |inputs|
  {
    if inputs != [] {
      var o := inputs[0];
      assert DepthOf(w.t, inputs[0]) <= d;
      if !MadeHere(w.spends, o.txid) { UnmadeIsZero(w.spends, w.mined, o.txid); }
      forall i | 0 <= i < |inputs[1..]| ensures DepthOf(w.t, inputs[1..][i]) <= d {
        assert DepthOf(w.t, inputs[i + 1]) <= d;
      }
      DeepestParentBelow(w, inputs[1..], d);
    }
  }

  lemma CleanKeeps(w: World, e: Event)
    requires NeverBelow(w) && Possible(w, e) && Clean(w, e)
    ensures Keeps(w, e)
  {
    match e
    case Record(s, how) =>
      var i :| 0 <= i < |w.spends| && w.spends[i] == s;
      ChainOfSpend(w.spends, w.mined, i);
      PrefixParentNotDeeper(w.spends, w.mined, i, s.inputs);
      ForgetInputsDepths(w.t, s.inputs);
      DeepestParentBelow(w, s.inputs, Deepest(w.t, s.inputs));
    case SeenConfirmed(o) => if o.txid in w.mined { MinedIsZero(w.spends, w.mined, o.txid); }
    case Dropped(o) => if o.txid in w.mined { MinedIsZero(w.spends, w.mined, o.txid); }
    case Invalidated(o) => if o.txid in w.mined { MinedIsZero(w.spends, w.mined, o.txid); }
    case _ =>
  }

  /** In clean runs the tracked depth of a live output never falls below its true unconfirmed chain. */
  lemma {:induction false} RunKeepsTrue(w: World, events: seq<Event>)
    requires NeverBelow(w) && CleanRun(w, events)
    ensures NeverBelowThroughout(w, events) && NeverBelow(After(w, events))
    decreases |events|
  {
    if events != [] {
      CleanKeeps(w, events[0]);
      EventExact(w, events[0]);
      RunKeepsTrue(Apply(w, events[0]), events[1..]);
    }
  }

  /** A process that has just started: both bounds hold from there on. */
  lemma DepthsFromStart(cap: nat, events: seq<Event>)
    ensures AllowedRun(cap, START, events) ==> DepthsBounded(cap, After(START, events))
    ensures CleanRun(START, events) ==> NeverBelow(After(START, events))
    ensures PossibleRun(START, events) ==> (NeverBelowThroughout(START, events) <==> KeepsRun(START, events))
    ensures PossibleRun(START, events) ==> (PoolThroughout(START, events) <==> PoolKeepsRun(START, events))
  {
    if AllowedRun(cap, START, events) { RunKeepsBound(cap, START, events); }
    if CleanRun(START, events) { RunKeepsTrue(START, events); }
    if PossibleRun(START, events) {
      RunExact(START, events);
      PoolRunExact(START, events);
    }
  }

  // ---------- one spend, broadcast and recorded ----------

  /**
   Broadcasting and recording one spend keeps the bound if and only if the deepest depth tracked for its
   inputs has not fallen below their deepest true chain; an input spent before is tracked at 0.
   */
  lemma SpendTrueExact(w: World, s: Spend, how: How)
    requires NeverBelow(w) && Possible(w, Broadcast(s)) && Size(w.t) + |s.vouts| <= DEPTH_MAX
    requires Commits(w.rows, s, how) && s.vouts != [] && Outs(s) !! w.gone && s.txid !in w.mined
    ensures NeverBelow(Recorded(Apply(w, Broadcast(s)), s, how)) <==>
            Deepest(w.t, s.inputs) >= DeepestParent(w.spends, w.mined, s.inputs)
  {
    var w1 := Apply(w, Broadcast(s));
    BroadcastKeeps(w, s);
    EventExact(w1, Record(s, how));
    ChainOfSpend(w1.spends, w1.mined, |w.spends|);
    assert w1.spends[..|w.spends|] == w.spends;
    assert Outpoint(s.txid, s.vouts[0]) in Outs(s);
  }

  lemma OneInputExact(w: World, o: Outpoint, q: Outpoint, how: How)
    requires var s := Spend([o], q.txid, [q.vout]);
      && NeverBelow(w) && Possible(w, Broadcast(s)) && Size(w.t) + 1 <= DEPTH_MAX
      && Commits(w.rows, s, how) && q !in w.gone && q.txid !in w.mined
    ensures var s := Spend([o], q.txid, [q.vout]);
      NeverBelow(Recorded(Apply(w, Broadcast(s)), s, how)) <==> DepthOf(w.t, o) >= Chain(w, o.txid)
  {
    var s := Spend([o], q.txid, [q.vout]);
    assert Outs(s) == {q};
    SpendTrueExact(w, s, how);
    OneInput(w.t, w.spends, w.mined, o);
  }

  lemma OneInput(t: Tracker, spends: seq<Spend>, mined: set<string>, o: Outpoint)
    ensures Deepest(t, [o]) == DepthOf(t, o)
    ensures DeepestParent(spends, mined, [o]) == TrueDepth(spends, mined, o.txid)
  {
    assert [o][1..] == [];
    assert ForgetInputs(Forget(t, o), Max(0, DepthOf(t, o)), []) == (Forget(t, o), Max(0, DepthOf(t, o)));
    assert DeepestParent(spends, mined, []) == 0;
  }

  /** The chain of the newest transaction, from one input. */
  lemma NewestChain(w: World, o: Outpoint, txid: string, vout: int)
    requires txid !in w.mined
    ensures Chain(Apply(w, Broadcast(Spend([o], txid, [vout]))), txid) == 1 + Chain(w, o.txid)
  {
    var s := Spend([o], txid, [vout]);
    assert (w.spends + [s])[..|w.spends|] == w.spends;
    OneInput(w.t, w.spends, w.mined, o);
  }

  /**
   A refill whose change is listed between its broadcast and its record: the record aborts, and the
   change stays in the pool, free to be taken at depth 0 with a true chain of at least one.
   */
  lemma ListedChangeUndercounts(w: World, p: Outpoint, q: Outpoint)
    requires NeverBelow(w) && p.txid != q.txid && q !in w.held && q.txid !in w.mined
    requires Possible(w, Broadcast(Spend([p], q.txid, [q.vout])))
    ensures var s := Spend([p], q.txid, [q.vout]);
      var listed := Apply(Apply(w, Broadcast(s)), Listed(q));
      var w' := Recorded(listed, s, Insert);
      && !Commits(listed.rows, s, Insert) && w'.t == w.t
      && q in w'.rows && q !in w'.held
      && DepthOf(w'.t, q) == 0 < 1 + Chain(w, p.txid) == Chain(w', q.txid)
  {
    var s := Spend([p], q.txid, [q.vout]);
    var listed := Apply(Apply(w, Broadcast(s)), Listed(q));
    assert q in Outs(s) && q in listed.rows - Ins(s);
    NewestChain(w, p, q.txid, q.vout);
  }

  lemma {:induction false} InputsForgotten(t: Tracker, parent: nat, inputs: seq<Outpoint>, o: Outpoint)
    requires Valid(t) && (o in inputs || DepthOf(t, o) == 0)
    ensures DepthOf(ForgetInputs(t, parent, inputs).0, o) == 0
    decreases |inputs|
  {
    if inputs != [] {
      ForgetDepths(t, inputs[0]);
      InputsForgotten(Forget(t, inputs[0]), Max(parent, DepthOf(t, inputs[0])), inputs[1..], o);
    }
  }

  lemma SpentIsForgotten(w: World, s: Spend, how: How, o: Outpoint)
    requires Sound(w) && Possible(w, Record(s, how)) && Commits(w.rows, s, how) && o in Ins(s)
    ensures DepthOf(Recorded(w, s, how).t, o) == 0
  {
    var (t1, p) := ForgetInputs(w.t, 0, s.inputs);
    InputsForgotten(w.t, 0, s.inputs, o);
    ForgetInputsFits(w.t, s.inputs);
    SpendDepths(t1, s.txid, s.vouts, p + 1);
    assert !Created(o, s.txid, s.vouts);
  }

  /** A second spend of one output finds its depth forgotten: the child is tracked at 1, below the truth. */
  lemma SecondSpendUndercounts(w: World, s: Spend, o: Outpoint, q: Outpoint, how: How)
    requires Possible(w, Record(s, how)) && Commits(w.rows, s, how) && o in Ins(s)
    requires NeverBelow(w) && NeverBelow(Recorded(w, s, how)) && Chain(w, o.txid) > 0
    requires var w1 := Recorded(w, s, how); var again := Spend([o], q.txid, [q.vout]);
      && Possible(w1, Broadcast(again)) && Size(w1.t) + 1 <= DEPTH_MAX
      && Commits(w1.rows, again, how) && q !in w1.gone && q.txid !in w.mined
    ensures var w1 := Recorded(w, s, how); var again := Spend([o], q.txid, [q.vout]);
      var w2 := Recorded(Apply(w1, Broadcast(again)), again, how);
      DepthOf(w2.t, q) == 1 < Chain(w2, q.txid) && !NeverBelow(w2)
  {
    var w1 := Recorded(w, s, how);
    SpentIsForgotten(w, s, how, o);
    OneInputExact(w1, o, q, how);
    SpendOne(w1.t, o, q);
    NewestChain(w1, o, q.txid, q.vout);
  }
}
