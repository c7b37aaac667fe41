/**
 Unconfirmed-chain depth of treasury outputs (`FundingChainDepth` in `live-path-policy.ts`,
 `rememberSpend` in `funding-utxo-manager.ts`).

 The tracker keeps its outpoints in insertion order, because eviction takes the oldest. Depth
 entries are evicted before confirmed ones: that is the code's order, though its comment at
 line 17 promises the opposite.
 */
module ChainDepth {
  import opened Lists
  import opened TreasurySelection

  const DEPTH_MAX := 8_192

  /** `order` lists the keys of `depth`, oldest first; `confirmed` is an ordered set. */
  datatype Tracker = Tracker(depth: map<Outpoint, nat>, order: seq<Outpoint>, confirmed: seq<Outpoint>)

  const NEW := Tracker(map[], [], [])

  ghost predicate Valid(t: Tracker) {
    && (forall o :: o in t.depth <==> o in t.order)
    && Distinct(t.order)
  }

  function DepthOf(t: Tracker, o: Outpoint): nat { if o in t.depth then t.depth[o] else 0 }

  function Size(t: Tracker): nat { |t.order| + |t.confirmed| }

  function EvictOne(t: Tracker): Tracker
    requires Size(t) > 0
  {
    if t.order != [] then t.(depth := t.depth - {t.order[0]}, order := t.order[1..])
    else t.(confirmed := t.confirmed[1..])
  }

  function Bound(t: Tracker): Tracker
    decreases Size(t)
  {
    if Size(t) > DEPTH_MAX then Bound(EvictOne(t)) else t
  }

  function Forget(t: Tracker, o: Outpoint): Tracker {
    Tracker(t.depth - {o}, Without(t.order, o), Without(t.confirmed, o))
  }

  function NoteUnconfirmed(t: Tracker, o: Outpoint, depth: int): Tracker {
    var c := Without(t.confirmed, o);
    if depth <= 0 then Tracker(t.depth - {o}, Without(t.order, o), c)
    else Bound(Tracker(t.depth[o := depth], if o in t.depth then t.order else t.order + [o], c))
  }

  function Confirm(t: Tracker, o: Outpoint): Tracker {
    Bound(Tracker(t.depth - {o}, Without(t.order, o),
                  if o in t.confirmed then t.confirmed else t.confirmed + [o]))
  }

  function Max(a: int, b: int): int { if a < b then b else a }

  /** The deepest input, read and forgotten in turn. */
  function ForgetInputs(t: Tracker, parentDepth: nat, inputs: seq<Outpoint>): (Tracker, nat)
    decreases |inputs|
  {
    if inputs == [] then (t, parentDepth)
    else ForgetInputs(Forget(t, inputs[0]), Max(parentDepth, DepthOf(t, inputs[0])), inputs[1..])
  }

  /** The depth a spend inherits. */
  function Deepest(t: Tracker, inputs: seq<Outpoint>): nat { ForgetInputs(t, 0, inputs).1 }

  function NoteCreated(t: Tracker, txid: string, vouts: seq<int>, depth: nat): Tracker
    decreases |vouts|
  {
    if vouts == [] then t
    else NoteCreated(NoteUnconfirmed(t, Outpoint(txid, vouts[0]), depth), txid, vouts[1..], depth)
  }

  function RememberSpend(t: Tracker, inputs: seq<Outpoint>, txid: string, vouts: seq<int>): Tracker {
    var (t1, parentDepth) := ForgetInputs(t, 0, inputs);
    if txid == "" then t1 else NoteCreated(t1, txid, vouts, parentDepth + 1)
  }

  // ---------- a spend and its record ----------

  datatype Spend = Spend(inputs: seq<Outpoint>, txid: string, vouts: seq<int>)

  function Ins(s: Spend): set<Outpoint> { set o | o in s.inputs }
  function Outs(s: Spend): set<Outpoint> { set v | v in s.vouts :: Outpoint(s.txid, v) }

  /** How the rows of the outputs are written: a plain insert, or one that ignores a row already there. */
  datatype How = Insert | InsertOrIgnore

  /** A plain insert collides with a row that outlives the deletion of the inputs, and the record aborts whole. */
  predicate Commits(rows: set<Outpoint>, s: Spend, how: How) { how == Insert ==> Outs(s) !! (rows - Ins(s)) }

  // ---------- the class ----------

  class FundingChainDepth {
    const cap: nat
    var depth: map<Outpoint, nat>
    var order: seq<Outpoint>
    var confirmed: seq<Outpoint>

    ghost function State(): Tracker
      reads this
    {
      Tracker(depth, order, confirmed)
    }

    constructor (cap: nat)
      ensures this.cap == cap && State() == NEW
    {
      this.cap := cap;
      depth, order, confirmed := map[], [], [];
    }

    function ExceedsCap(o: Outpoint): bool
      reads this
    {
      (if o in depth then depth[o] else 0) > cap
    }

    method EvictToBound()
      modifies this
      ensures State() == Bound(old(State()))
    {
      while |order| + |confirmed| > DEPTH_MAX
        invariant Bound(State()) == Bound(old(State()))
        decreases |order| + |confirmed|
      {
        if |order| > 0 {
          depth := depth - {order[0]};
          order := order[1..];
        } else {
          confirmed := confirmed[1..];
        }
      }
    }

    method Note(o: Outpoint, d: int)
      modifies this
      ensures State() == NoteUnconfirmed(old(State()), o, d)
    {
      confirmed := Without(confirmed, o);
      if d <= 0 {
        depth, order := depth - {o}, Without(order, o);
        return;
      }
      if o !in depth { order := order + [o]; }
      depth := depth[o := d];
      EvictToBound();
    }

    method ConfirmOutput(o: Outpoint)
      modifies this
      ensures State() == Confirm(old(State()), o)
    {
      depth, order := depth - {o}, Without(order, o);
      if o !in confirmed { confirmed := confirmed + [o]; }
      EvictToBound();
    }

    method ForgetOutput(o: Outpoint)
      modifies this
      ensures State() == Forget(old(State()), o)
    {
      depth, order, confirmed := depth - {o}, Without(order, o), Without(confirmed, o);
    }

    /** Forgets the spent inputs and returns the deepest of them. */
    method ForgetSpent(inputs: seq<Outpoint>) returns (parentDepth: nat)
      modifies this
      ensures (State(), parentDepth) == ForgetInputs(old(State()), 0, inputs)
    {
      parentDepth := 0;
      var i := 0;
      assert inputs[0..] == inputs;
      while i < |inputs|
        invariant 0 <= i <= |inputs|
        invariant ForgetInputs(State(), parentDepth, inputs[i..]) == ForgetInputs(old(State()), 0, inputs)
      {
        var input := inputs[i];
        assert inputs[i..][1..] == inputs[i + 1..];
        parentDepth := Max(parentDepth, if input in depth then depth[input] else 0);
        ForgetOutput(input);
        i := i + 1;
      }
    }

    method Remember(inputs: seq<Outpoint>, txid: string, vouts: seq<int>)
      modifies this
      ensures State() == RememberSpend(old(State()), inputs, txid, vouts)
    {
      var parentDepth := ForgetSpent(inputs);
      if txid == "" { return; }
      ghost var t1 := State();
      var k := 0;
      assert vouts[0..] == vouts;
      while k < |vouts|
        invariant 0 <= k <= |vouts|
        invariant NoteCreated(State(), txid, vouts[k..], parentDepth + 1)
            == NoteCreated(t1, txid, vouts, parentDepth + 1)
      {
        assert vouts[k..][1..] == vouts[k + 1..];
        Note(Outpoint(txid, vouts[k]), parentDepth + 1);
        k := k + 1;
      }
    }
  }

  // ---------- every tracked depth stays within cap + 1 ----------

  ghost predicate Within(t: Tracker, d: nat) { forall o :: o in t.depth ==> t.depth[o] <= d }

  /** Eviction keeps the entries it leaves, and evicts none without need. */
  lemma {:induction false} BoundShrinks(t: Tracker)
    requires Valid(t)
    ensures var b := Bound(t);
      && Valid(b) && Size(b) <= DEPTH_MAX && (Size(t) <= DEPTH_MAX ==> b == t)
      && (forall o :: o in b.depth ==> o in t.depth && b.depth[o] == t.depth[o])
    decreases Size(t)
  {
    if Size(t) > DEPTH_MAX {
      EvictValid(t);
      BoundShrinks(EvictOne(t));
    }
  }

  lemma EvictValid(t: Tracker)
    requires Valid(t) && Size(t) > 0
    ensures var e := EvictOne(t);
      Valid(e) && Size(e) == Size(t) - 1 && forall o :: o in e.depth ==> o in t.depth && e.depth[o] == t.depth[o]
  {
    if t.order != [] {
      var first, rest := t.order[0], t.order[1..];
      assert t.order == [first] + rest;
      forall o ensures o in t.depth - {first} <==> o in rest {
        assert o in t.order <==> o == first || o in rest;
      }
    }
  }

  lemma ForgetValid(t: Tracker, o: Outpoint)
    requires Valid(t)
    ensures Valid(Forget(t, o)) && Size(Forget(t, o)) <= Size(t)
  {
    WithoutKeepsDistinct(t.order, o);
  }

  /** The tracker just before eviction, when an outpoint is noted. */
  function Noted(t: Tracker, o: Outpoint, depth: nat): Tracker {
    Tracker(t.depth[o := depth], if o in t.depth then t.order else t.order + [o], Without(t.confirmed, o))
  }

  lemma NotedValid(t: Tracker, o: Outpoint, depth: nat)
    requires Valid(t)
    ensures Valid(Noted(t, o, depth)) && Size(Noted(t, o, depth)) <= Size(t) + 1
  {
    if o !in t.depth {
      forall x ensures x in t.order + [o] <==> x in t.order || x == o {}
    }
  }

  lemma NoteKeeps(t: Tracker, o: Outpoint, depth: nat, limit: nat)
    requires Valid(t) && Within(t, limit) && 0 < depth <= limit
    ensures Valid(NoteUnconfirmed(t, o, depth)) && Within(NoteUnconfirmed(t, o, depth), limit)
  {
    NotedValid(t, o, depth);
    BoundShrinks(Noted(t, o, depth));
  }

  lemma {:induction false} NoteCreatedKeeps(t: Tracker, txid: string, vouts: seq<int>, depth: nat, limit: nat)
    requires Valid(t) && Within(t, limit) && 0 < depth <= limit
    ensures Valid(NoteCreated(t, txid, vouts, depth)) && Within(NoteCreated(t, txid, vouts, depth), limit)
    decreases |vouts|
  {
    if vouts != [] {
      NoteKeeps(t, Outpoint(txid, vouts[0]), depth, limit);
      NoteCreatedKeeps(NoteUnconfirmed(t, Outpoint(txid, vouts[0]), depth), txid, vouts[1..], depth, limit);
    }
  }

  ghost predicate AllWithin(t: Tracker, inputs: seq<Outpoint>, d: nat) {
    forall i :: 0 <= i < |inputs| ==> DepthOf(t, inputs[i]) <= d
  }

  lemma {:induction false} ForgetInputsKeeps(t: Tracker, parent: nat, inputs: seq<Outpoint>, limit: nat, cap: nat)
    requires Valid(t) && Within(t, limit)
    ensures var (t1, p) := ForgetInputs(t, parent, inputs);
      && Valid(t1) && Within(t1, limit) && p >= parent
      && (forall o :: o in t1.depth ==> o in t.depth && t1.depth[o] == t.depth[o])
      && (forall o :: o in t.depth && o !in inputs ==> o in t1.depth)
      && (forall i :: 0 <= i < |inputs| ==> DepthOf(t, inputs[i]) <= p)
      && (p <= cap <==> parent <= cap && AllWithin(t, inputs, cap))
      && Size(t1) <= Size(t)
    decreases |inputs|
  {
    if inputs != [] {
      var t0, rest := Forget(t, inputs[0]), inputs[1..];
      var parent0 := Max(parent, DepthOf(t, inputs[0]));
      ForgetValid(t, inputs[0]);
      ForgetInputsKeeps(t0, parent0, rest, limit, cap);
      var p := ForgetInputs(t0, parent0, rest).1;
      forall i | 0 <= i < |inputs| ensures DepthOf(t, inputs[i]) <= p {
        if i > 0 && inputs[i] != inputs[0] { assert rest[i - 1] == inputs[i] && DepthOf(t0, rest[i - 1]) <= p; }
      }
      if parent0 <= cap && AllWithin(t0, rest, cap) {
        forall i | 0 <= i < |inputs| ensures DepthOf(t, inputs[i]) <= cap {
          if i > 0 && inputs[i] != inputs[0] { assert DepthOf(t0, rest[i - 1]) <= cap; }
        }
      }
      if AllWithin(t, inputs, cap) {
        forall i | 0 <= i < |rest| ensures DepthOf(t0, rest[i]) <= cap { assert DepthOf(t, inputs[i + 1]) <= cap; }
      }
    }
  }

  /** Spending inputs within the cap keeps every tracked depth within cap + 1, evictions or not. */
  lemma SpendKeeps(t: Tracker, inputs: seq<Outpoint>, txid: string, vouts: seq<int>, cap: nat)
    requires Valid(t) && Within(t, cap + 1) && AllWithin(t, inputs, cap)
    ensures Valid(RememberSpend(t, inputs, txid, vouts)) && Within(RememberSpend(t, inputs, txid, vouts), cap + 1)
  {
    ForgetInputsKeeps(t, 0, inputs, cap + 1, cap);
    var (t1, p) := ForgetInputs(t, 0, inputs);
    NoteCreatedKeeps(t1, txid, vouts, p + 1, cap + 1);
  }

  // ---------- without evictions, what is tracked is exact ----------

  ghost predicate Created(o: Outpoint, txid: string, vouts: seq<int>) { o.txid == txid && o.vout in vouts }

  lemma {:induction false} NoteCreatedExact(t: Tracker, txid: string, vouts: seq<int>, depth: nat)
    requires Valid(t) && depth > 0 && Size(t) + |vouts| <= DEPTH_MAX
    ensures var t' := NoteCreated(t, txid, vouts, depth);
      && Valid(t') && Size(t') <= Size(t) + |vouts|
      && forall o :: DepthOf(t', o) == if Created(o, txid, vouts) then depth else DepthOf(t, o)
    decreases |vouts|
  {
    if vouts != [] {
      var o := Outpoint(txid, vouts[0]);
      NotedValid(t, o, depth);
      var t0 := Noted(t, o, depth);
      BoundShrinks(t0);
      NoteCreatedExact(t0, txid, vouts[1..], depth);
      forall x ensures Created(x, txid, vouts) <==> x == o || Created(x, txid, vouts[1..]) {
        assert x.vout in vouts <==> x.vout == vouts[0] || x.vout in vouts[1..];
      }
    }
  }

  /** After a spend: children one deeper than the deepest input, inputs forgotten, all else as before. */
  lemma ForgetInputsDepths(t: Tracker, inputs: seq<Outpoint>)
    requires Valid(t)
    ensures var (t1, p) := ForgetInputs(t, 0, inputs);
      && (forall i :: 0 <= i < |inputs| ==> DepthOf(t, inputs[i]) <= p)
      && (forall o :: DepthOf(t1, o) <= DepthOf(t, o))
      && (forall o :: o !in inputs ==> DepthOf(t1, o) == DepthOf(t, o))
  {
    ForgetInputsKeeps(t, 0, inputs, MaxDepth(t), 0);
  }

  lemma SpendDepths(t: Tracker, txid: string, vouts: seq<int>, depth: nat)
    requires Valid(t) && depth > 0 && Size(t) + |vouts| <= DEPTH_MAX
    ensures forall o :: DepthOf(NoteCreated(t, txid, vouts, depth), o)
                     == if Created(o, txid, vouts) then depth else DepthOf(t, o)
  {
    NoteCreatedExact(t, txid, vouts, depth);
  }

  lemma SpendFits(t: Tracker, inputs: seq<Outpoint>, txid: string, vouts: seq<int>)
    requires Valid(t) && txid != "" && Size(t) + |vouts| <= DEPTH_MAX
    ensures var t' := RememberSpend(t, inputs, txid, vouts);
      Valid(t') && Size(t') <= Size(t) + |vouts|
  {
    ForgetInputsFits(t, inputs);
    var r := ForgetInputs(t, 0, inputs);
    NoteCreatedFits(r.0, txid, vouts, r.1 + 1);
    assert RememberSpend(t, inputs, txid, vouts) == NoteCreated(r.0, txid, vouts, r.1 + 1);
  }

  lemma ForgetInputsFits(t: Tracker, inputs: seq<Outpoint>)
    requires Valid(t)
    ensures var t1 := ForgetInputs(t, 0, inputs).0; Valid(t1) && Size(t1) <= Size(t)
  {
    ForgetInputsKeeps(t, 0, inputs, MaxDepth(t), 0);
  }

  lemma NoteCreatedFits(t: Tracker, txid: string, vouts: seq<int>, depth: nat)
    requires Valid(t) && depth > 0 && Size(t) + |vouts| <= DEPTH_MAX
    ensures var t' := NoteCreated(t, txid, vouts, depth); Valid(t') && Size(t') <= Size(t) + |vouts|
  {
    NoteCreatedExact(t, txid, vouts, depth);
  }

  lemma SpendExact(t: Tracker, inputs: seq<Outpoint>, txid: string, vouts: seq<int>)
    requires Valid(t) && txid != "" && Size(t) + |vouts| <= DEPTH_MAX
    ensures var parent := ForgetInputs(t, 0, inputs).1;
      var t' := RememberSpend(t, inputs, txid, vouts);
      && Valid(t') && Size(t') <= Size(t) + |vouts|
      && (forall i :: 0 <= i < |inputs| ==> DepthOf(t, inputs[i]) <= parent)
      && (forall o :: Created(o, txid, vouts) ==> DepthOf(t', o) == parent + 1)
      && (forall o :: !Created(o, txid, vouts) && o !in inputs ==> DepthOf(t', o) == DepthOf(t, o))
  {
    SpendFits(t, inputs, txid, vouts);
    ForgetInputsFits(t, inputs);
    ForgetInputsDepths(t, inputs);
    var (t1, p) := ForgetInputs(t, 0, inputs);
    SpendDepths(t1, txid, vouts, p + 1);
  }

  ghost function MaxDepth(t: Tracker): (d: nat)
    ensures Within(t, d)
    decreases |t.depth|
  {
    if t.depth == map[] then 0
    else
      var o :| o in t.depth;
      var rest := t.(depth := t.depth - {o});
      assert t.depth.Keys == rest.depth.Keys + {o};
      Max(MaxDepth(rest), t.depth[o])
  }

  /** The bound survives a spend exactly when every input was within the cap. */
  lemma SpendBoundExact(t: Tracker, inputs: seq<Outpoint>, txid: string, vouts: seq<int>, cap: nat)
    requires Valid(t) && Within(t, cap + 1) && txid != "" && vouts != []
    requires Size(t) + |vouts| <= DEPTH_MAX
    ensures Within(RememberSpend(t, inputs, txid, vouts), cap + 1) <==> AllWithin(t, inputs, cap)
  {
    if AllWithin(t, inputs, cap) {
      SpendKeeps(t, inputs, txid, vouts, cap);
    } else {
      SpendExact(t, inputs, txid, vouts);
      var t' := RememberSpend(t, inputs, txid, vouts);
      var o := Outpoint(txid, vouts[0]);
      assert Created(o, txid, vouts) && DepthOf(t', o) > cap + 1;
    }
  }

  lemma ForgetDepths(t: Tracker, o: Outpoint)
    requires Valid(t)
    ensures Valid(Forget(t, o)) && forall x :: DepthOf(Forget(t, o), x) == if x == o then 0 else DepthOf(t, x)
  {
    ForgetValid(t, o);
  }

  lemma ConfirmDepths(t: Tracker, o: Outpoint)
    requires Valid(t) && Size(t) < DEPTH_MAX
    ensures Valid(Confirm(t, o)) && Size(Confirm(t, o)) <= Size(t) + 1
    ensures forall x :: DepthOf(Confirm(t, o), x) == if x == o then 0 else DepthOf(t, x)
  {
    ForgetValid(t, o);
    var next := Tracker(t.depth - {o}, Without(t.order, o),
                        if o in t.confirmed then t.confirmed else t.confirmed + [o]);
    BoundShrinks(next);
    assert Confirm(t, o) == next;
  }

  // ---------- what eviction takes ----------

  /** Eviction drops the oldest depth entries, and a confirmed one only after every depth entry is gone. */
  lemma {:induction false} BoundDropsDepthFirst(t: Tracker)
    ensures var b := Bound(t); var k := |t.order| - |b.order|;
      && 0 <= k <= |t.order| && b.order == t.order[k..]
      && (b.confirmed == t.confirmed <==> |t.confirmed| <= DEPTH_MAX)
      && (b.confirmed != t.confirmed ==> b.order == [])
    decreases Size(t)
  {
    if Size(t) > DEPTH_MAX {
      var e := EvictOne(t);
      BoundDropsDepthFirst(e);
      BoundOnlyShrinks(e);
      if t.order != [] {
        assert t.order[1..][|t.order[1..]| - |Bound(t).order|..] == t.order[|t.order| - |Bound(t).order|..];
      }
    }
  }

  lemma {:induction false} BoundOnlyShrinks(t: Tracker)
    ensures |Bound(t).confirmed| <= |t.confirmed| && |Bound(t).order| <= |t.order|
    decreases Size(t)
  {
    if Size(t) > DEPTH_MAX { BoundOnlyShrinks(EvictOne(t)); }
  }

  /** So a new depth is kept exactly when confirmed outputs leave room for one entry. */
  lemma NewDepthKeptExact(t: Tracker, o: Outpoint, depth: nat)
    requires Valid(t) && Size(t) <= DEPTH_MAX && depth > 0
    ensures DepthOf(NoteUnconfirmed(t, o, depth), o) == depth <==> |t.confirmed| < DEPTH_MAX || o in t.confirmed
    ensures Size(t) == DEPTH_MAX && o !in t.depth && o !in t.confirmed ==>
              (DepthOf(NoteUnconfirmed(t, o, depth), o) == depth <==> t.order != [])
    ensures NoteUnconfirmed(t, o, depth).confirmed == Without(t.confirmed, o)
  {
    var noted := Noted(t, o, depth);
    assert NoteUnconfirmed(t, o, depth) == Bound(noted);
    NotedValid(t, o, depth);
    assert o in noted.order;
    if o in t.confirmed { WithoutPresent(t.confirmed, o); } else { WithoutAbsent(t.confirmed, o); }
    if Size(noted) > DEPTH_MAX {
      assert noted.order == t.order + [o] && Size(noted) == DEPTH_MAX + 1;
      var left := EvictOne(noted);
      assert Bound(noted) == Bound(left) == left;
      if t.order != [] { assert noted.order[0] == t.order[0] != o; }
    }
  }

  /** A tracker full of confirmed outputs forgets each new depth at once. */
  lemma ConfirmedCrowdOutDepth(t: Tracker, o: Outpoint, depth: nat)
    requires t.depth == map[] && t.order == [] && |t.confirmed| == DEPTH_MAX && o !in t.confirmed && depth > 0
    ensures DepthOf(NoteUnconfirmed(t, o, depth), o) == 0
  {
    var noted := Noted(t, o, depth);
    NewDepthKeptExact(t, o, depth);
    NotedValid(t, o, depth);
    BoundShrinks(noted);
    assert NoteUnconfirmed(t, o, depth) == Bound(noted);
  }
}
