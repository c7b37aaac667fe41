/**
 The spend governor (`spend-governor.ts`) and the single gate in front of every upstream
 (`governed-broadcaster.ts`).

 The clock is an argument. The transition functions give the meaning of every method; the
 classes below them update their fields step by step and are proved to compute them. An
 unknown broadcast time counts as current, which is what the code does (its comments at
 lines 136-140 and 294-296 say otherwise).
 */
module SpendGovernor {
  import opened Numbers
  import opened Options

  datatype Posture = Normal | Cautious | Probing | Halted

  datatype Config = Config(
    paused: bool, windowMs: int, minSamples: int, cautiousRatio: real, haltRatio: real,
    haltCooldownMs: nat, haltCooldownMaxMs: nat, probeBudget: int, probeSettleMs: int)

  datatype Observation = Observation(at: int, rejected: bool)

  datatype Probe = Probe(startedAt: int, spent: int, rejected: nat, settleUntil: Option<int>)

  datatype Gov = Gov(
    observations: seq<Observation>, haltedUntil: int, consecutiveHalts: nat,
    staleRejects: nat, probe: Option<Probe>)

  const FRESH := Gov([], 0, 0, 0, None)

  /** What the governor and the gate do that matters, in order. */
  datatype Entry =
    | Dispatched(at: int)
    | HaltBegan(at: int, cooldown: nat)
    | TrialOpened(at: int)
    | TrialSealed(at: int)
    | TrialCleared(at: int)
    | CurrentReject(at: int)
    | CurrentAccept(at: int)

  // ---------- evidence ----------

  function Trim(obs: seq<Observation>, cutoff: int): seq<Observation> {
    if obs != [] && obs[0].at < cutoff then Trim(obs[1..], cutoff) else obs
  }

  function Rejected(obs: seq<Observation>): nat {
    if obs == [] then 0
    else Rejected(obs[..|obs| - 1]) + if obs[|obs| - 1].rejected then 1 else 0
  }

  /** A finite broadcast time before `notBefore`. An absent, null or non-finite time is not stale. */
  predicate VerdictIsStale(broadcastAt: Option<int>, notBefore: int) {
    broadcastAt.Some? && broadcastAt.value < notBefore
  }

  predicate HardStopped(c: Config, g: Gov, now: int) { c.paused || g.haltedUntil > now }

  /** The rejections that are counted and otherwise ignored. */
  predicate IsStaleReject(c: Config, g: Gov, now: int, broadcastAt: Option<int>) {
    if g.probe.Some? then VerdictIsStale(broadcastAt, g.probe.value.startedAt)
    else HardStopped(c, g, now) || VerdictIsStale(broadcastAt, now - c.windowMs)
  }

  function Observe(c: Config, g: Gov, now: int, rejected: bool): Gov {
    g.(observations := Trim(g.observations + [Observation(now, rejected)], now - c.windowMs))
  }

  function Record(c: Config, g: Gov, now: int, rejected: bool, broadcastAt: Option<int>): (Gov, seq<Entry>) {
    if rejected && IsStaleReject(c, g, now, broadcastAt) then (g.(staleRejects := g.staleRejects + 1), [])
    else if g.probe.Some? then
      var p := g.probe.value;
      var g1 := if rejected then g.(probe := Some(p.(rejected := p.rejected + 1))) else g;
      (Observe(c, g1, now, rejected), [if rejected then CurrentReject(now) else CurrentAccept(now)])
    else if HardStopped(c, g, now) then (g, [])
    else (Observe(c, g, now, rejected), [if rejected then CurrentReject(now) else CurrentAccept(now)])
  }

  // ---------- posture ----------

  function Min(a: int, b: int): int { if a < b then a else b }

  /** The cooldown of the j-th consecutive halt, counting from 0. */
  function Cooldown(c: Config, j: nat): nat {
    Min(c.haltCooldownMaxMs, c.haltCooldownMs * Pow2(Min(j, 16)))
  }

  function BeginHalt(c: Config, g: Gov, now: int): (Gov, seq<Entry>) {
    var cooldown := Min(c.haltCooldownMaxMs, c.haltCooldownMs * Pow2(g.consecutiveHalts));
    (g.(consecutiveHalts := Min(g.consecutiveHalts + 1, 16), haltedUntil := now + cooldown,
        probe := None, observations := []),
     [HaltBegan(now, cooldown)])
  }

  function EvaluateProbe(c: Config, g: Gov, now: int): (Gov, Posture, seq<Entry>)
    requires g.probe.Some?
  {
    var p := g.probe.value;
    if p.rejected > 0 then
      var (g1, log) := BeginHalt(c, g, now);
      (g1, Halted, log)
    else if p.spent < c.probeBudget && now - p.startedAt < c.probeSettleMs * 3 then (g, Probing, [])
    else if p.settleUntil.None? then
      (g.(probe := Some(p.(settleUntil := Some(now + c.probeSettleMs)))), Probing, [TrialSealed(now)])
    else if now < p.settleUntil.value then (g, Probing, [])
    else (g.(probe := None, consecutiveHalts := 0, observations := []), Normal, [TrialCleared(now)])
  }

  /** The posture the window alone calls for. */
  function Judge(c: Config, obs: seq<Observation>): Posture {
    // 0 / 0 is NaN in the source, and every comparison with it is false.
    if |obs| < c.minSamples || obs == [] then Normal
    else
      var ratio := Rejected(obs) as real / |obs| as real;
      if ratio >= c.haltRatio then Halted else if ratio >= c.cautiousRatio then Cautious else Normal
  }

  function EvaluateWindow(c: Config, g: Gov, now: int): (Gov, Posture, seq<Entry>) {
    var posture := Judge(c, g.observations);
    if posture == Halted then
      var (g1, log) := BeginHalt(c, g, now);
      (g1, Halted, log)
    else (g, posture, [])
  }

  function Evaluate(c: Config, g: Gov, now: int): (Gov, Posture, seq<Entry>) {
    if c.paused then (g, Halted, [])
    else
      var g := g.(observations := Trim(g.observations, now - c.windowMs));
      if g.probe.Some? then EvaluateProbe(c, g, now)
      else if g.haltedUntil > now then (g, Halted, [])
      else if g.haltedUntil > 0 then
        (g.(haltedUntil := 0, observations := [], probe := Some(Probe(now, 0, 0, None))), Probing, [TrialOpened(now)])
      else EvaluateWindow(c, g, now)
  }

  /** May anything be sent now, given the evaluated state and posture. */
  predicate MaySend(c: Config, g: Gov, posture: Posture) {
    posture != Halted
    && (posture == Probing ==> g.probe.Some? && g.probe.value.settleUntil.None? && g.probe.value.spent < c.probeBudget)
  }

  function NoteDispatched(g: Gov): Gov {
    if g.probe.Some? then g.(probe := Some(g.probe.value.(spent := g.probe.value.spent + 1))) else g
  }

  // ---------- the gate ----------

  /** The governor behind the gate, with the gate's refusal summary. */
  datatype Gate = Gate(gov: Gov, refused: nat, lastRefusalLogAt: int)

  const FRESH_GATE := Gate(FRESH, 0, 0)

  /** A refusal is counted; its periodic summary reads the posture, which may move the governor. */
  function Refuse(c: Config, interval: int, s: Gate, now: int): (Gate, seq<Entry>) {
    if now - s.lastRefusalLogAt < interval then (s.(refused := s.refused + 1), [])
    else
      var (g, _, log) := Evaluate(c, s.gov, now);
      (Gate(g, 0, now), log)
  }

  /** One broadcast: the check and the increment have no await between them. */
  function Broadcast(c: Config, interval: int, s: Gate, now: int, held: bool): (Gate, bool, seq<Entry>) {
    if held then
      var (s1, log) := Refuse(c, interval, s, now);
      (s1, false, log)
    else
      var (g, posture, log) := Evaluate(c, s.gov, now);
      if MaySend(c, g, posture) then (s.(gov := NoteDispatched(g)), true, log + [Dispatched(now)])
      else
        var (s1, more) := Refuse(c, interval, s.(gov := g), now);
        (s1, false, log + more)
  }

  // ---------- the classes ----------

  class SpendGovernor {
    const config: Config
    var observations: seq<Observation>
    var haltedUntil: int
    var consecutiveHalts: nat
    var staleRejects: nat
    var probe: Option<Probe>

    ghost function State(): Gov
      reads this
    {
      Gov(observations, haltedUntil, consecutiveHalts, staleRejects, probe)
    }

    constructor (config: Config)
      ensures this.config == config && State() == FRESH
    {
      this.config := config;
      observations, haltedUntil, consecutiveHalts, staleRejects, probe := [], 0, 0, 0, None;
    }

    method TrimWindow(now: int)
      modifies this`observations
      ensures observations == Trim(old(observations), now - config.windowMs)
    {
      var cutoff := now - config.windowMs;
      var drop := 0;
      while drop < |observations| && observations[drop].at < cutoff
        invariant 0 <= drop <= |observations|
        invariant Trim(observations[drop..], cutoff) == Trim(observations, cutoff)
      {
        assert observations[drop..][1..] == observations[drop + 1..];
        drop := drop + 1;
      }
      if drop > 0 { observations := observations[drop..]; }
    }

    method RecordVerdict(now: int, rejected: bool, broadcastAt: Option<int>)
      modifies this`observations, this`staleRejects, this`probe
      ensures State() == Record(config, old(State()), now, rejected, broadcastAt).0
    {
      if probe.Some? {
        if rejected && VerdictIsStale(broadcastAt, probe.value.startedAt) {
          staleRejects := staleRejects + 1;
          return;
        }
        if rejected { probe := Some(probe.value.(rejected := probe.value.rejected + 1)); }
        observations := observations + [Observation(now, rejected)];
        TrimWindow(now);
        return;
      }
      if config.paused || haltedUntil > now {
        if rejected { staleRejects := staleRejects + 1; }
        return;
      }
      if rejected && VerdictIsStale(broadcastAt, now - config.windowMs) {
        staleRejects := staleRejects + 1;
        return;
      }
      observations := observations + [Observation(now, rejected)];
      TrimWindow(now);
    }

    method NoteBroadcastDispatched()
      modifies this`probe
      ensures State() == NoteDispatched(old(State()))
    {
      if probe.Some? { probe := Some(probe.value.(spent := probe.value.spent + 1)); }
    }

    method CountRejected() returns (rejected: nat)
      ensures rejected == Rejected(observations)
    {
      rejected := 0;
      for i := 0 to |observations|
        invariant rejected == Rejected(observations[..i])
      {
        assert observations[..i + 1][..i] == observations[..i];
        if observations[i].rejected { rejected := rejected + 1; }
      }
      assert observations[..|observations|] == observations;
    }

    method StartHalt(now: int)
      modifies this
      ensures State() == BeginHalt(config, old(State()), now).0
    {
      var cooldown := Min(config.haltCooldownMaxMs, config.haltCooldownMs * Pow2(consecutiveHalts));
      consecutiveHalts := Min(consecutiveHalts + 1, 16);
      haltedUntil := now + cooldown;
      probe := None;
      observations := [];
    }

    method JudgeProbe(now: int) returns (posture: Posture)
      requires probe.Some?
      modifies this
      ensures (State(), posture)
          == (EvaluateProbe(config, old(State()), now).0, EvaluateProbe(config, old(State()), now).1)
    {
      if probe.value.rejected > 0 {
        StartHalt(now);
        return Halted;
      }
      var budgetSpent := probe.value.spent >= config.probeBudget;
      var expired := now - probe.value.startedAt >= config.probeSettleMs * 3;
      if !budgetSpent && !expired { return Probing; }
      if probe.value.settleUntil.None? {
        probe := Some(probe.value.(settleUntil := Some(now + config.probeSettleMs)));
        return Probing;
      }
      if now < probe.value.settleUntil.value { return Probing; }
      probe, consecutiveHalts, observations := None, 0, [];
      posture := Normal;
    }

    method GetPosture(now: int) returns (posture: Posture)
      modifies this
      ensures State() == Evaluate(config, old(State()), now).0
      ensures posture == Evaluate(config, old(State()), now).1
    {
      if config.paused { return Halted; }
      TrimWindow(now);
      if probe.Some? {
        posture := JudgeProbe(now);
        return;
      }
      if haltedUntil > now { return Halted; }
      if haltedUntil > 0 {
        haltedUntil, observations, probe := 0, [], Some(Probe(now, 0, 0, None));
        return Probing;
      }
      var rejected := CountRejected();
      var total := |observations|;
      if total < config.minSamples || total == 0 { return Normal; }
      var ratio := rejected as real / total as real;
      if ratio >= config.haltRatio {
        StartHalt(now);
        return Halted;
      }
      posture := if ratio >= config.cautiousRatio then Cautious else Normal;
    }

    method AllowsBroadcast(now: int) returns (allowed: bool)
      modifies this
      ensures State() == Evaluate(config, old(State()), now).0
      ensures allowed == MaySend(config, State(), Evaluate(config, old(State()), now).1)
    {
      var posture := GetPosture(now);
      if posture == Halted { return false; }
      if posture == Probing {
        return probe.Some? && probe.value.settleUntil.None? && probe.value.spent < config.probeBudget;
      }
      allowed := true;
    }
  }

  class GovernedBroadcaster {
    const governor: SpendGovernor
    const refusalLogIntervalMs: int
    var refusedSinceLastLog: nat
    var lastRefusalLogAt: int

    ghost function State(): Gate
      reads this, governor
    {
      Gate(governor.State(), refusedSinceLastLog, lastRefusalLogAt)
    }

    constructor (governor: SpendGovernor, refusalLogIntervalMs: int)
      ensures this.governor == governor && this.refusalLogIntervalMs == refusalLogIntervalMs
      ensures State() == Gate(governor.State(), 0, 0)
    {
      this.governor := governor;
      this.refusalLogIntervalMs := refusalLogIntervalMs;
      refusedSinceLastLog, lastRefusalLogAt := 0, 0;
    }

    method NoteRefusal(now: int)
      modifies this, governor
      ensures State() == Refuse(governor.config, refusalLogIntervalMs, old(State()), now).0
    {
      refusedSinceLastLog := refusedSinceLastLog + 1;
      if now - lastRefusalLogAt < refusalLogIntervalMs { return; }
      var _ := governor.GetPosture(now);
      lastRefusalLogAt := now;
      refusedSinceLastLog := 0;
    }

    /** `sent` is true exactly when the transaction is handed to the inner broadcaster. */
    method Send(now: int, held: bool) returns (sent: bool)
      modifies this, governor
      ensures State() == Broadcast(governor.config, refusalLogIntervalMs, old(State()), now, held).0
      ensures sent == Broadcast(governor.config, refusalLogIntervalMs, old(State()), now, held).1
    {
      var allowed := false;
      if !held { allowed := governor.AllowsBroadcast(now); }
      if !allowed {
        NoteRefusal(now);
        return false;
      }
      governor.NoteBroadcastDispatched();
      sent := true;
    }
  }
}
