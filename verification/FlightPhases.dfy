/**
 The flight-phase detector (`packages/flight-phase/src/state-machine.ts`): nine phases, one
 state per aircraft and two timers that must run through unbroken stretches of records.

 A missing or non-finite measurement is None. Timestamps are finite; the fallback to the wall
 clock for a record without one is a caller's choice of `ts`.
 */
module FlightPhases {
  import opened Options
  import Hex

  datatype Phase = Parked | Taxi | Takeoff | Climb | Cruise | Descent | Approach | Landing | TaxiIn

  datatype Record = Record(
    icao: string, ts: int, onGround: bool, gs: Option<real>, baroRate: Option<real>, altBaro: Option<real>)

  const PARKED_SLOW_MS := 60_000
  const STABLE_VRATE_MS := 60_000
  const DESCENT_SUSTAIN_MS := 30_000
  const CLIMB_ALT_FT := 3_000.0
  const APPROACH_ALT_FT := 10_000.0
  const CRUISE_INITIAL_ALT_FT := 25_000.0
  const VSI_LIMIT := 300.0
  const TAXI_GS_KTS := 5.0

  function Gs(r: Record): real {
    if r.gs.None? then 0.0 else if r.gs.value < 0.0 then 0.0 else r.gs.value
  }
  function Baro(r: Record): real { if r.baroRate.None? then 0.0 else r.baroRate.value }
  function Alt(r: Record): real { if r.altBaro.None? then 0.0 else r.altBaro.value }

  /** The timers double as the ground's slow timer (`stable`) and the air's level timer. */
  datatype Timers = Timers(stable: Option<int>, descent: Option<int>)

  datatype PhaseState = PhaseState(
    current: Phase, previous: Option<Phase>, enteredAt: int, timers: Timers, lastOnGround: bool)

  const NO_TIMERS := Timers(None, None)

  function InitialPhase(r: Record): Phase {
    if r.onGround then Parked else if Alt(r) >= CRUISE_INITIAL_ALT_FT then Cruise else Climb
  }

  function FirstState(r: Record): PhaseState {
    PhaseState(InitialPhase(r), None, r.ts, NO_TIMERS, r.onGround)
  }

  function FreshParked(now: int): PhaseState { PhaseState(Parked, None, now, NO_TIMERS, true) }

  // ---------- one airborne step and its loop ----------

  function Keep(timer: Option<int>, running: bool, ts: int): Option<int> {
    if !running then None else if timer.Some? then timer else Some(ts)
  }

  function AirTimers(p: Phase, t: Timers, r: Record): Timers {
    Timers(
      Keep(t.stable, p == Climb && -VSI_LIMIT <= Baro(r) <= VSI_LIMIT, r.ts),
      Keep(t.descent, (p == Climb || p == Cruise) && Baro(r) < -VSI_LIMIT, r.ts))
  }

  function AirNext(p: Phase, t: Timers, r: Record): Phase {
    if p == Takeoff && Alt(r) > CLIMB_ALT_FT && Baro(r) > VSI_LIMIT then Climb
    else if p == Climb && Baro(r) < -VSI_LIMIT && t.descent.Some? && r.ts - t.descent.value >= DESCENT_SUSTAIN_MS
    then Descent
    else if p == Climb && -VSI_LIMIT <= Baro(r) <= VSI_LIMIT && t.stable.Some?
            && r.ts - t.stable.value >= STABLE_VRATE_MS
    then Cruise
    else if p == Cruise && Baro(r) > VSI_LIMIT then Climb
    else if p == Cruise && Baro(r) < -VSI_LIMIT && t.descent.Some? && r.ts - t.descent.value >= DESCENT_SUSTAIN_MS
    then Descent
    else if p == Descent && Alt(r) < APPROACH_ALT_FT then Approach
    else p
  }

  /** `stepAirbornePhase`: the timers move first, then the phase is judged with them. */
  function AirStep(p: Phase, t: Timers, r: Record): (Phase, Timers) {
    var t1 := AirTimers(p, t, r);
    (AirNext(p, t1, r), t1)
  }

  function AirLoop(p: Phase, t: Timers, r: Record, bound: nat): (Phase, Timers)
    decreases bound
  {
    if bound == 0 then (p, t)
    else
      var (p1, t1) := AirStep(p, t, r);
      if p1 == p then (p, t1) else AirLoop(p1, t1, r, bound - 1)
  }

  // ---------- one update ----------

  function GroundTimers(s: PhaseState, r: Record): Timers {
    Timers(Keep(s.timers.stable, Gs(r) < TAXI_GS_KTS, r.ts), None)
  }

  function GroundNext(p: Phase, t: Timers, r: Record): Phase {
    if Gs(r) < TAXI_GS_KTS then
      if t.stable.Some? && r.ts - t.stable.value >= PARKED_SLOW_MS then Parked else p
    else if p == Landing then TaxiIn
    else if p == Parked || p == TaxiIn then Taxi
    else p
  }

  /** The phase and timers before the bookkeeping of a change. */
  function Judge(s: PhaseState, r: Record): (Phase, Timers) {
    if !s.lastOnGround && r.onGround then
      (Landing, Timers(if Gs(r) < TAXI_GS_KTS then Some(r.ts) else None, None))
    else if s.lastOnGround && !r.onGround then (Takeoff, NO_TIMERS)
    else if r.onGround then
      var t := GroundTimers(s, r);
      (GroundNext(s.current, t, r), t)
    else AirLoop(s.current, s.timers, r, 16)
  }

  function Update(s: PhaseState, r: Record): PhaseState {
    var (p, t) := Judge(s, r);
    if p == s.current then s.(timers := t, lastOnGround := r.onGround)
    else PhaseState(p, Some(s.current), r.ts,
                    Timers(if r.onGround && Gs(r) < TAXI_GS_KTS then Some(r.ts) else None, None), r.onGround)
  }

  // ---------- the class ----------

  function NormaliseIcao(icao: string): string { UpperAscii(Hex.Trim(icao)) }

  function UpperAscii(s: string): string {
    seq(|s|, i requires 0 <= i < |s| => if 'a' <= s[i] <= 'z' then (s[i] as int - 32) as char else s[i])
  }

  datatype Transition = Transition(from: Phase, to: Phase, at: int)

  class FlightPhaseDetector {
    var states: map<string, PhaseState>

    constructor ()
      ensures states == map[]
    {
      states := map[];
    }

    /** Works on the stored state field by field, as the source does; other aircraft are untouched. */
    method UpdateWithTransitions(r: Record) returns (phase: Phase, transitions: seq<Transition>)
      modifies this
      ensures var icao := NormaliseIcao(r.icao);
        var next := if icao in old(states) then Update(old(states)[icao], r) else FirstState(r);
        && states == old(states)[icao := next] && phase == next.current
        && transitions == (if icao in old(states) && old(states)[icao].current != next.current
                           then [Transition(old(states)[icao].current, next.current, r.ts)] else [])
      ensures NormaliseIcao(r.icao) !in old(states) ==>
        phase == if r.onGround then Parked
                 else if r.altBaro.Some? && r.altBaro.value >= 25_000.0 then Cruise
                 else Climb
    {
      var icao := NormaliseIcao(r.icao);
      if icao !in states {
        states := states[icao := FirstState(r)];
        return states[icao].current, [];
      }
      var s := states[icao];
      var fromPhase := s.current;
      phase := fromPhase;
      var timers := s.timers;
      if !s.lastOnGround && r.onGround {
        phase := Landing;
        timers := Timers(if Gs(r) < TAXI_GS_KTS then Some(r.ts) else None, None);
      } else if s.lastOnGround && !r.onGround {
        phase := Takeoff;
        timers := NO_TIMERS;
      } else if r.onGround {
        timers := GroundTimers(s, r);
        phase := GroundNext(phase, timers, r);
      } else {
        phase, timers := RunAirLoop(phase, timers, r);
      }
      transitions := [];
      if phase != fromPhase {
        timers := Timers(if r.onGround && Gs(r) < TAXI_GS_KTS then Some(r.ts) else None, None);
        s := s.(previous := Some(fromPhase), current := phase, enteredAt := r.ts);
        transitions := [Transition(fromPhase, phase, r.ts)];
      }
      states := states[icao := s.(timers := timers, lastOnGround := r.onGround)];
    }

    /** Starts an aircraft afresh, parked; what follows is `FollowReset`. */
    method Reset(icao: string, now: int)
      modifies this
      ensures states == old(states)[NormaliseIcao(icao) := FreshParked(now)]
    {
      states := states[NormaliseIcao(icao) := FreshParked(now)];
    }
  }

  method RunAirLoop(p: Phase, t: Timers, r: Record) returns (phase: Phase, timers: Timers)
    ensures (phase, timers) == AirLoop(p, t, r, 16)
  {
    phase, timers := p, t;
    var step := 0;
    while step < 16
      invariant 0 <= step <= 16
      invariant AirLoop(phase, timers, r, 16 - step) == AirLoop(p, t, r, 16)
    {
      var (next, moved) := AirStep(phase, timers, r);
      timers := moved;
      if next == phase { return; }
      phase := next;
      step := step + 1;
    }
  }

  // ---------- ground and air ----------

  predicate GroundPhase(p: Phase) { p == Parked || p == Taxi || p == Landing || p == TaxiIn }

  predicate Fits(s: PhaseState) { s.lastOnGround <==> GroundPhase(s.current) }

  /** From any air phase the loop changes phase at most twice and stops where one more step changes nothing. */
  lemma LoopSettles(p: Phase, t: Timers, r: Record)
    requires !GroundPhase(p)
    ensures var (q, t') := AirLoop(p, t, r, 16);
      && !GroundPhase(q)
      && AirStep(q, t', r) == (q, t')
      && (q == p || AirStep(p, t, r).0 == q || AirStep(AirStep(p, t, r).0, AirStep(p, t, r).1, r).0 == q)
    ensures AirLoop(p, t, r, 16) == AirLoop(p, t, r, 3)
  {
    var (p1, t1) := AirStep(p, t, r);
    var (p2, t2) := AirStep(p1, t1, r);
    var (p3, t3) := AirStep(p2, t2, r);
    assert p1 == p || p2 == p1 || p3 == p2;
    if p1 != p {
      assert AirLoop(p, t, r, 16) == AirLoop(p1, t1, r, 15) && AirLoop(p, t, r, 3) == AirLoop(p1, t1, r, 2);
      if p2 != p1 {
        assert AirLoop(p1, t1, r, 15) == AirLoop(p2, t2, r, 14) && AirLoop(p1, t1, r, 2) == AirLoop(p2, t2, r, 1);
      }
    }
  }

  // ---------- what a timer stands for ----------

  datatype Kind = Level | Descending | Slow

  predicate Is(kind: Kind, r: Record) {
    match kind
    case Level => !r.onGround && (r.baroRate.Some? ==> -300.0 <= r.baroRate.value <= 300.0)
    case Descending => !r.onGround && r.baroRate.Some? && r.baroRate.value < -300.0
    case Slow => r.onGround && (r.gs.Some? ==> r.gs.value < 5.0)
  }

  predicate Above(x: Option<real>, limit: real) { x.Some? && x.value > limit }

  /** A missing altitude counts as none at all. */
  predicate Low(r: Record) { r.altBaro.Some? ==> r.altBaro.value < 10_000.0 }

  /** Where the longest unbroken stretch of this kind that ends the records begins; their length if there is none. */
  function StretchStart(records: seq<Record>, kind: Kind): (k: nat)
    ensures k <= |records|
    ensures forall j :: k <= j < |records| ==> Is(kind, records[j])
    ensures k > 0 ==> !Is(kind, records[k - 1])
    decreases |records|
  {
    if records == [] || !Is(kind, records[|records| - 1]) then |records|
    else StretchStart(records[..|records| - 1], kind)
  }

  function Opening(records: seq<Record>, kind: Kind): Option<int> {
    var k := StretchStart(records, kind);
    if k < |records| then Some(records[k].ts) else None
  }

  /** The stretch that ends the records has gone on for `ms`, from its first to its last timestamp. */
  predicate Held(records: seq<Record>, kind: Kind, ms: int) {
    var k := StretchStart(records, kind);
    k < |records| && records[|records| - 1].ts - records[k].ts >= ms
  }

  predicate Ascending(records: seq<Record>) {
    forall i, j :: 0 <= i <= j < |records| ==> records[i].ts <= records[j].ts
  }

  /** On an ascending clock: some unbroken stretch of at least `ms` ends the records. */
  lemma HeldIsSustained(records: seq<Record>, kind: Kind, ms: int)
    requires Ascending(records)
    ensures Held(records, kind, ms) <==>
            exists k :: 0 <= k < |records| && records[|records| - 1].ts - records[k].ts >= ms
                        && forall j :: k <= j < |records| ==> Is(kind, records[j])
  {
    var start := StretchStart(records, kind);
    if k :| 0 <= k < |records| && records[|records| - 1].ts - records[k].ts >= ms
            && forall j :: k <= j < |records| ==> Is(kind, records[j])
    {
      assert start <= k;
      assert records[start].ts <= records[k].ts;
    }
  }

  lemma OpeningMoves(records: seq<Record>, kind: Kind, r: Record)
    ensures Opening(records + [r], kind) == Keep(Opening(records, kind), Is(kind, r), r.ts)
  {
    assert (records + [r])[..|records|] == records;
  }

  // ---------- the detector without timers and without a loop ----------

  /** The phase after one more record, judged from the whole stretch that ends the records. */
  function PhaseAfter(p: Phase, wasOnGround: bool, records: seq<Record>): Phase
    requires records != []
  {
    var r := records[|records| - 1];
    if r.onGround then
      if !wasOnGround then Landing
      else if Held(records, Slow, 60_000) then Parked
      else if Is(Slow, r) then p
      else match p
        case Landing => TaxiIn
        case Parked => Taxi
        case TaxiIn => Taxi
        case _ => p
    else if wasOnGround then Takeoff
    else if (p == Climb || p == Cruise) && Held(records, Descending, 30_000) then
      if Low(r) then Approach else Descent
    else match p
      case Takeoff => if Above(r.altBaro, 3_000.0) && Above(r.baroRate, 300.0) then Climb else p
      case Climb => if Held(records, Level, 60_000) then Cruise else p
      case Cruise => if Above(r.baroRate, 300.0) then Climb else p
      case Descent => if Low(r) then Approach else p
      case _ => p
  }

  /** The first record only chooses the initial phase: it opens no stretch. */
  function PhaseOf(records: seq<Record>): Phase
    requires records != []
    decreases |records|
  {
    var r := records[0];
    if |records| == 1 then
      if r.onGround then Parked
      else if r.altBaro.Some? && r.altBaro.value >= 25_000.0 then Cruise
      else Climb
    else
      var front := records[..|records| - 1];
      PhaseAfter(PhaseOf(front), front[|front| - 1].onGround, records[1..])
  }

  /** The timers hold exactly the openings of the stretches that the records end with, where a phase uses them. */
  predicate Timed(s: PhaseState, tail: seq<Record>) {
    && Fits(s)
    && (s.lastOnGround && s.current != Parked ==> s.timers.stable == Opening(tail, Slow))
    && (s.current == Climb ==> s.timers.stable == Opening(tail, Level))
    && (s.current == Climb || s.current == Cruise ==> s.timers.descent == Opening(tail, Descending))
  }

  lemma OpeningsMove(tail: seq<Record>, r: Record)
    ensures forall kind :: Opening(tail + [r], kind) == Keep(Opening(tail, kind), Is(kind, r), r.ts)
  {
    forall kind { OpeningMoves(tail, kind, r); }
  }

  lemma AirborneUpdate(s: PhaseState, r: Record, tail: seq<Record>)
    requires Timed(s, tail) && !s.lastOnGround && !r.onGround
    ensures Timed(Update(s, r), tail + [r])
    ensures Update(s, r).current == PhaseAfter(s.current, s.lastOnGround, tail + [r])
  {
    OpeningsMove(tail, r);
    LoopSettles(s.current, s.timers, r);
    var (p1, t1) := AirStep(s.current, s.timers, r);
    if p1 == s.current { assert Judge(s, r) == (p1, t1); }
  }

  lemma CrossingUpdate(s: PhaseState, r: Record, tail: seq<Record>)
    requires Timed(s, tail) && s.lastOnGround != r.onGround
    requires tail != [] ==> tail[|tail| - 1].onGround == s.lastOnGround
    ensures Timed(Update(s, r), tail + [r])
    ensures Update(s, r).current == PhaseAfter(s.current, s.lastOnGround, tail + [r])
  {
    OpeningMoves(tail, Slow, r);
  }

  lemma GroundUpdate(s: PhaseState, r: Record, tail: seq<Record>)
    requires Timed(s, tail) && s.lastOnGround && r.onGround
    ensures Timed(Update(s, r), tail + [r])
    ensures Update(s, r).current == PhaseAfter(s.current, s.lastOnGround, tail + [r])
  {
    OpeningMoves(tail, Slow, r);
  }

  lemma UpdateFollowsHistory(s: PhaseState, r: Record, tail: seq<Record>)
    requires Timed(s, tail) && (tail != [] ==> tail[|tail| - 1].onGround == s.lastOnGround)
    ensures Timed(Update(s, r), tail + [r])
    ensures Update(s, r).current == PhaseAfter(s.current, s.lastOnGround, tail + [r])
  {
    if s.lastOnGround != r.onGround { CrossingUpdate(s, r, tail); }
    else if r.onGround { GroundUpdate(s, r, tail); }
    else { AirborneUpdate(s, r, tail); }
  }

  // ---------- runs of one aircraft ----------

  /** The state after a non-empty list of records. */
  function Follow(records: seq<Record>): PhaseState
    requires records != []
    decreases |records|
  {
    if |records| == 1 then FirstState(records[0])
    else Update(Follow(records[..|records| - 1]), records[|records| - 1])
  }

  /**
   For every record list the timed detector reports the phase that the timer-free definition
   gives, on the ground exactly in the ground phases.
   */
  lemma {:induction false} DetectorFollowsHistory(records: seq<Record>)
    requires records != []
    ensures var s := Follow(records);
      && s.current == PhaseOf(records)
      && s.lastOnGround == records[|records| - 1].onGround == GroundPhase(s.current)
      && Timed(s, records[1..])
    decreases |records|
  {
    if |records| > 1 {
      var front, r := records[..|records| - 1], records[|records| - 1];
      DetectorFollowsHistory(front);
      assert front[1..] + [r] == records[1..];
      UpdateFollowsHistory(Follow(front), r, front[1..]);
    }
  }

  /** The state some records after a reset. */
  function FollowReset(now: int, records: seq<Record>): PhaseState
    decreases |records|
  {
    if records == [] then FreshParked(now)
    else Update(FollowReset(now, records[..|records| - 1]), records[|records| - 1])
  }

  /** After a reset the aircraft is parked, and every record counts towards a stretch, the first one too. */
  function PhaseSinceReset(records: seq<Record>): Phase
    decreases |records|
  {
    if records == [] then Parked
    else
      var front := records[..|records| - 1];
      PhaseAfter(PhaseSinceReset(front), front == [] || front[|front| - 1].onGround, records)
  }

  lemma {:induction false} ResetFollowsHistory(now: int, records: seq<Record>)
    ensures var s := FollowReset(now, records);
      && s.current == PhaseSinceReset(records)
      && s.lastOnGround == (records == [] || records[|records| - 1].onGround) == GroundPhase(s.current)
      && Timed(s, records)
    decreases |records|
  {
    if records != [] {
      var front, r := records[..|records| - 1], records[|records| - 1];
      ResetFollowsHistory(now, front);
      assert front + [r] == records;
      UpdateFollowsHistory(FollowReset(now, front), r, front);
    }
  }

  lemma EarnedAfter(p: Phase, wasOnGround: bool, records: seq<Record>)
    requires records != [] && wasOnGround == GroundPhase(p)
    ensures var after := PhaseAfter(p, wasOnGround, records);
      && (p == Climb ==> (after == Cruise <==> Held(records, Level, 60_000)))
      && (p == Climb || p == Cruise ==>
            (after == Descent || after == Approach <==> Held(records, Descending, 30_000)))
      && (wasOnGround && p != Parked ==> (after == Parked <==> Held(records, Slow, 60_000)))
      && (!wasOnGround ==> after != Parked)
  {
  }

  /** Cruise, descent and parking are entered exactly when their stretch of records has lasted long enough. */
  lemma PhasesAreEarned(records: seq<Record>)
    requires |records| > 1
    ensures var before, after, tail := Follow(records[..|records| - 1]), Follow(records), records[1..];
      && (before.current == Climb ==> (after.current == Cruise <==> Held(tail, Level, 60_000)))
      && (before.current == Climb || before.current == Cruise ==>
            (after.current == Descent || after.current == Approach <==> Held(tail, Descending, 30_000)))
      && (before.lastOnGround && before.current != Parked ==>
            (after.current == Parked <==> Held(tail, Slow, 60_000)))
      && (!before.lastOnGround ==> after.current != Parked)
  {
    var before := Follow(records[..|records| - 1]);
    DetectorFollowsHistory(records);
    DetectorFollowsHistory(records[..|records| - 1]);
    EarnedAfter(before.current, before.lastOnGround, records[1..]);
  }
}
