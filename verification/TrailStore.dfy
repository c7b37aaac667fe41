/**
 The position trails of the dashboard (`dashboard/src/stores/fleet.ts`): thinning a trail down to
 its ceiling, and stitching restored history in front of live points.

 A snapshot is an object that the store compares by identity; `id` stands for that identity.
 */
module TrailStore {
  import opened Numbers
  import opened Options

  const TRAIL_BUFFER_SIZE := 1500
  const TRAIL_RECENT_KEEP := 500

  datatype Point = Point(id: nat, ts: int)
  type Trail = seq<Point>

  predicate Ascending(points: Trail) {
    forall i, j :: 0 <= i <= j < |points| ==> points[i].ts <= points[j].ts
  }

  // ---------- thinning ----------

  /** The points at even places. */
  function Halved(points: Trail): (r: Trail)
    ensures |r| == (|points| + 1) / 2
  {
    seq((|points| + 1) / 2, i requires 0 <= i < (|points| + 1) / 2 => points[2 * i])
  }

  function ThinOnce(points: Trail): Trail
    requires |points| > TRAIL_BUFFER_SIZE
  {
    var split := |points| - TRAIL_RECENT_KEEP;
    Halved(points[..split]) + points[split..]
  }

  function Capped(points: Trail): Trail
    decreases |points|
  {
    if |points| <= TRAIL_BUFFER_SIZE then points else Capped(ThinOnce(points))
  }

  method CapTrail(points: Trail) returns (next: Trail)
    ensures next == Capped(points)
  {
    next := points;
    while |next| > TRAIL_BUFFER_SIZE
      invariant Capped(next) == Capped(points)
      decreases |next|
    {
      var split := |next| - TRAIL_RECENT_KEEP;
      var thinned := EvenPlaces(next[..split]);
      next := thinned + next[split..];
    }
  }

  method EvenPlaces(points: Trail) returns (kept: Trail)
    ensures kept == Halved(points)
  {
    kept := [];
    for i := 0 to |points|
      invariant |kept| == (i + 1) / 2
      invariant forall k :: 0 <= k < |kept| ==> kept[k] == points[2 * k]
    {
      if i % 2 == 0 { kept := kept + [points[i]]; }
    }
  }

  /** The place `i * 2^k`. */
  function At(i: nat, k: nat): nat
    decreases k
  {
    if k == 0 then i else At(2 * i, k - 1)
  }

  lemma {:induction false} AtIsProduct(i: nat, k: nat)
    ensures At(i, k) == i * Pow2(k)
    decreases k
  {
    if k > 0 {
      AtIsProduct(2 * i, k - 1);
      assert (2 * i) * Pow2(k - 1) == i * (2 * Pow2(k - 1));
    }
  }

  /** Every 2^k-th point, from the first on. */
  ghost predicate Sampled(all: Trail, k: nat, kept: Trail) {
    && (all == [] <==> kept == [])
    && (kept != [] ==> At(|kept| - 1, k) < |all| <= At(|kept|, k))
    && forall i: nat :: i < |kept| ==> HoldsPlace(all, k, kept, i)
  }

  predicate HoldsPlace(all: Trail, k: nat, kept: Trail, i: nat)
    requires i < |kept|
  {
    At(i, k) < |all| && kept[i] == all[At(i, k)]
  }

  lemma {:induction false} AtGrows(i: nat, j: nat, k: nat)
    requires i <= j
    ensures At(i, k) <= At(j, k)
    decreases k
  {
    if k > 0 { AtGrows(2 * i, 2 * j, k - 1); }
  }

  lemma AtReflects(i: nat, j: nat, k: nat)
    requires At(i, k) < At(j, k)
    ensures i < j
  {
    if j <= i { AtGrows(j, i, k); }
  }

  lemma HalvingBounds(m: nat, h: nat, k: nat)
    requires m > 0 && h == (m + 1) / 2
    ensures At(h - 1, k + 1) <= At(m - 1, k) && At(m, k) <= At(h, k + 1)
  {
    AtGrows(2 * (h - 1), m - 1, k);
    AtGrows(m, 2 * h, k);
  }

  lemma HalvedPlace(all: Trail, k: nat, kept: Trail, i: nat)
    requires Sampled(all, k, kept) && i < |Halved(kept)|
    ensures HoldsPlace(all, k + 1, Halved(kept), i)
  {
    assert HoldsPlace(all, k, kept, 2 * i);
    assert At(i, k + 1) == At(2 * i, k);
  }

  lemma HalvingSamples(all: Trail, k: nat, kept: Trail)
    requires Sampled(all, k, kept)
    ensures Sampled(all, k + 1, Halved(kept))
  {
    var half := Halved(kept);
    if kept != [] { HalvingBounds(|kept|, |half|, k); }
    var next := k + 1;
    forall i: nat | i < |half| ensures HoldsPlace(all, next, half, i) { HalvedPlace(all, k, kept, i); }
  }

  lemma {:induction false} ThinTo(all: Trail, k: nat, kept: Trail, recent: Trail) returns (deeper: nat, left: Trail)
    requires Sampled(all, k, kept) && |recent| == TRAIL_RECENT_KEEP
    ensures deeper >= k && Sampled(all, deeper, left) && Capped(kept + recent) == left + recent
    ensures |left| + TRAIL_RECENT_KEEP <= TRAIL_BUFFER_SIZE
    ensures deeper > k ==> |left| + TRAIL_RECENT_KEEP > TRAIL_BUFFER_SIZE - TRAIL_RECENT_KEEP
    decreases |kept|
  {
    var points := kept + recent;
    if |points| <= TRAIL_BUFFER_SIZE {
      deeper, left := k, kept;
    } else {
      HalvingSamples(all, k, kept);
      var split := |points| - TRAIL_RECENT_KEEP;
      assert points[..split] == kept && points[split..] == recent;
      deeper, left := ThinTo(all, k + 1, Halved(kept), recent);
      if deeper == k + 1 { SampledHasOneSize(all, deeper, left, Halved(kept)); }
    }
  }

  lemma SampledHasOneSize(all: Trail, k: nat, a: Trail, b: Trail)
    requires Sampled(all, k, a) && Sampled(all, k, b)
    ensures |a| == |b|
  {
    if all != [] {
      AtReflects(|a| - 1, |b|, k);
      AtReflects(|b| - 1, |a|, k);
    }
  }

  /**
   However far over its ceiling a trail starts, the last 500 points stay exact and every 2^k-th
   of the others stays, the very first among them; thinning never goes below a thousand points.
   */
  lemma CappedIsSampled(points: Trail) returns (k: nat, kept: Trail)
    requires |points| >= TRAIL_RECENT_KEEP
    ensures var split := |points| - TRAIL_RECENT_KEEP;
      && Sampled(points[..split], k, kept)
      && Capped(points) == kept + points[split..]
    ensures forall i: nat :: i < |kept| ==> EveryPlace(points, Pow2(k), kept, i)
    ensures (|kept| - 1) * Pow2(k) < |points| - TRAIL_RECENT_KEEP <= |kept| * Pow2(k) || kept == []
    ensures |Capped(points)| <= TRAIL_BUFFER_SIZE
    ensures k > 0 ==> |Capped(points)| > TRAIL_BUFFER_SIZE - TRAIL_RECENT_KEEP
    ensures k == 0 ==> Capped(points) == points
  {
    var split := |points| - TRAIL_RECENT_KEEP;
    var all, recent := points[..split], points[split..];
    SampledByOne(all, all);
    assert all + recent == points;
    k, kept := ThinTo(all, 0, all, recent);
    if k == 0 { SampledByOne(all, kept); }
    if kept != [] {
      AtIsProduct(|kept| - 1, k);
      AtIsProduct(|kept|, k);
    }
    forall i: nat | i < |kept| ensures EveryPlace(points, Pow2(k), kept, i) {
      AtIsProduct(i, k);
      assert HoldsPlace(all, k, kept, i);
    }
  }

  /** The kept point is the one `step` times as far in. */
  predicate EveryPlace(points: Trail, step: nat, kept: Trail, i: nat)
    requires i < |kept|
  {
    i * step < |points| && kept[i] == points[i * step]
  }

  lemma SampledByOne(all: Trail, kept: Trail)
    ensures Sampled(all, 0, kept) <==> kept == all
  {
    assert At(|kept|, 0) == |kept|;
    if Sampled(all, 0, kept) {
      assert |kept| == |all|;
      forall i: nat | i < |kept| ensures kept[i] == all[i] { assert HoldsPlace(all, 0, kept, i); }
    }
  }

  // ---------- what thinning keeps ----------

  lemma HalvedAscends(points: Trail)
    requires Ascending(points)
    ensures Ascending(Halved(points))
  {
  }

  lemma {:induction false} CappedAscends(points: Trail)
    requires Ascending(points)
    ensures Ascending(Capped(points))
    decreases |points|
  {
    if |points| > TRAIL_BUFFER_SIZE {
      var split := |points| - TRAIL_RECENT_KEEP;
      assert Ascending(points[..split]);
      HalvedAscends(points[..split]);
      assert Ascending(ThinOnce(points)) by {
        forall i, j | 0 <= i <= j < |ThinOnce(points)| ensures ThinOnce(points)[i].ts <= ThinOnce(points)[j].ts {
          PlaceAfterThinning(points, i);
          PlaceAfterThinning(points, j);
        }
      }
      CappedAscends(ThinOnce(points));
    }
  }

  /** Where the point at a place of the thinned trail stood before: further on for a later place. */
  function Place(points: Trail, i: nat): nat
    requires |points| > TRAIL_BUFFER_SIZE
  {
    var half := (|points| - TRAIL_RECENT_KEEP + 1) / 2;
    if i < half then 2 * i else i - half + |points| - TRAIL_RECENT_KEEP
  }

  lemma PlaceAfterThinning(points: Trail, i: nat)
    requires |points| > TRAIL_BUFFER_SIZE && i < |ThinOnce(points)|
    ensures Place(points, i) < |points| && ThinOnce(points)[i] == points[Place(points, i)]
  {
  }

  /** The last 500 points, or all of them. */
  function RecentOf(points: Trail): Trail {
    if |points| <= TRAIL_RECENT_KEEP then points else points[|points| - TRAIL_RECENT_KEEP..]
  }

  lemma RecentAppended(a: Trail, b: Trail, p: Point)
    requires RecentOf(a) == RecentOf(b)
    ensures RecentOf(a + [p]) == RecentOf(b + [p])
  {
    var r := RecentOf(a);
    assert RecentOf(a + [p]) == if |r| < TRAIL_RECENT_KEEP then r + [p] else r[1..] + [p];
    assert RecentOf(b + [p]) == if |r| < TRAIL_RECENT_KEEP then r + [p] else r[1..] + [p];
  }

  /** The first point and the whole recent stretch are never touched. */
  lemma {:induction false} CappedKeepsEnds(points: Trail)
    requires points != []
    ensures var c := Capped(points);
      && c != [] && c[0] == points[0] && |c| <= TRAIL_BUFFER_SIZE && |c| <= |points|
      && (|points| > TRAIL_BUFFER_SIZE ==> |c| > TRAIL_BUFFER_SIZE - TRAIL_RECENT_KEEP)
      && RecentOf(c) == RecentOf(points)
    decreases |points|
  {
    if |points| > TRAIL_BUFFER_SIZE { CappedKeepsEnds(ThinOnce(points)); }
  }

  // ---------- appending point by point ----------

  function AppendTrailPoint(existing: Trail, p: Point): Trail { Capped(existing + [p]) }

  function Grown(points: Trail): Trail
    decreases |points|
  {
    if points == [] then []
    else AppendTrailPoint(Grown(points[..|points| - 1]), points[|points| - 1])
  }

  lemma GrownStep(points: Trail, p: Point)
    ensures Grown(points + [p]) == AppendTrailPoint(Grown(points), p)
  {
    assert (points + [p])[..|points|] == points;
  }

  /**
   A trail grown point by point for ever stays within its ceiling, still starts at the departure
   and holds the latest 500 points exactly.
   */
  lemma {:induction false} GrownKeepsRoute(points: Trail)
    requires points != []
    ensures var t := Grown(points);
      && 0 < |t| <= TRAIL_BUFFER_SIZE && t[0] == points[0]
      && (if |points| <= TRAIL_BUFFER_SIZE then t == points else |t| > TRAIL_BUFFER_SIZE - TRAIL_RECENT_KEEP)
      && RecentOf(t) == RecentOf(points)
    decreases |points|
  {
    var front, last := points[..|points| - 1], points[|points| - 1];
    if front != [] { GrownKeepsRoute(front); }
    RecentAppended(Grown(front), front, last);
    assert front + [last] == points;
    CappedKeepsEnds(Grown(front) + [last]);
  }

  lemma {:induction false} GrownAscends(points: Trail)
    requires Ascending(points)
    ensures Ascending(Grown(points))
    ensures points != [] ==> Grown(points) != [] && Grown(points)[|Grown(points)| - 1] == points[|points| - 1]
    decreases |points|
  {
    if points != [] {
      var front, last := points[..|points| - 1], points[|points| - 1];
      GrownAscends(front);
      CappedAscends(Grown(front) + [last]);
      CappedKeepsEnds(Grown(front) + [last]);
    }
  }

  // ---------- stitching restored history ----------

  predicate Inside(p: Point, from: Option<int>, before: Option<int>) {
    (from.Some? ==> p.ts >= from.value) && (before.Some? ==> p.ts < before.value)
  }

  function Within(points: Trail, from: Option<int>, before: Option<int>): (r: Trail)
  {
    if points == [] then []
    else (if Inside(points[0], from, before) then [points[0]] else []) + Within(points[1..], from, before)
  }

  lemma {:induction false} WithinAscends(points: Trail, from: Option<int>, before: Option<int>)
    requires Ascending(points)
    ensures var r := Within(points, from, before);
      Ascending(r) && (forall i :: 0 <= i < |r| ==> r[i] in points && Inside(r[i], from, before))
    decreases |points|
  {
    if points != [] {
      assert Ascending(points[1..]);
      WithinAscends(points[1..], from, before);
      assert forall p :: p in points[1..] ==> p.ts >= points[0].ts;
    }
  }

  lemma {:induction false} WithinAll(points: Trail, from: Option<int>, before: Option<int>)
    requires forall i :: 0 <= i < |points| ==> Inside(points[i], from, before)
    ensures Within(points, from, before) == points
    decreases |points|
  {
    if points != [] { WithinAll(points[1..], from, before); }
  }

  function Live(existing: Option<Trail>, floor: Option<int>): Trail {
    if existing.None? then [] else Within(existing.value, floor, None)
  }

  /** The restored points from the floor on that are older than every live one. */
  function Past(history: Trail, live: Trail, floor: Option<int>): Trail {
    Within(Within(history, floor, None), None, if live == [] then None else Some(live[0].ts))
  }

  /** What the store should hold of one trail. */
  function Stitched(existing: Option<Trail>, history: Trail, floor: Option<int>): Trail {
    var live := Live(existing, floor);
    Capped(Past(history, live, floor) + live)
  }

  /** The comparison looks only at the length and at the two ends. */
  predicate LooksSame(existing: Trail, merged: Trail) {
    && |existing| == |merged|
    && (merged != [] ==> existing[0] == merged[0] && existing[|merged| - 1] == merged[|merged| - 1])
  }

  function HydrateOne(existing: Option<Trail>, history: Trail, floor: Option<int>): Option<Trail> {
    if Live(existing, floor) == [] && Within(history, floor, None) == [] then
      if existing.Some? && existing.value != [] then None else existing
    else
      var merged := Stitched(existing, history, floor);
      if existing.Some? && LooksSame(existing.value, merged) then existing else Some(merged)
  }

  predicate AllFrom(points: Trail, floor: Option<int>) {
    forall i :: 0 <= i < |points| ==> Inside(points[i], floor, None)
  }

  lemma AllFromHead(points: Trail, floor: Option<int>)
    requires Ascending(points) && points != [] && Inside(points[0], floor, None)
    ensures AllFrom(points, floor)
  {
  }

  lemma LiveFacts(existing: Option<Trail>, floor: Option<int>)
    requires existing.Some? ==> Ascending(existing.value)
    ensures Ascending(Live(existing, floor)) && AllFrom(Live(existing, floor), floor)
    ensures existing.Some? && existing.value != [] && Inside(existing.value[0], floor, None) ==>
              Live(existing, floor) == existing.value
  {
    if existing.Some? {
      WithinAscends(existing.value, floor, None);
      if existing.value != [] && Inside(existing.value[0], floor, None) {
        AllFromHead(existing.value, floor);
        WithinAll(existing.value, floor, None);
      }
    }
  }

  lemma PastFacts(history: Trail, live: Trail, floor: Option<int>)
    requires Ascending(history)
    ensures var past := Past(history, live, floor);
      && Ascending(past) && AllFrom(past, floor)
      && (live != [] ==> forall i :: 0 <= i < |past| ==> past[i].ts < live[0].ts)
      && (live == [] ==> past == Within(history, floor, None))
  {
    var all := Within(history, floor, None);
    WithinAscends(history, floor, None);
    WithinAscends(all, None, if live == [] then None else Some(live[0].ts));
    if live == [] { WithinAll(all, None, None); }
  }

  lemma JoinAscends(a: Trail, b: Trail)
    requires Ascending(a) && Ascending(b)
    requires b != [] ==> forall i :: 0 <= i < |a| ==> a[i].ts < b[0].ts
    ensures Ascending(a + b)
  {
  }

  lemma StitchedFacts(existing: Option<Trail>, history: Trail, floor: Option<int>)
    requires (existing.Some? ==> Ascending(existing.value)) && Ascending(history)
    requires Live(existing, floor) != [] || Within(history, floor, None) != []
    ensures var live, merged := Live(existing, floor), Stitched(existing, history, floor);
      var past := Past(history, live, floor);
      && past + live != [] && merged != [] && merged[0] == (past + live)[0]
      && Ascending(merged) && AllFrom(merged, floor) && |merged| <= TRAIL_BUFFER_SIZE
  {
    var live := Live(existing, floor);
    var past := Past(history, live, floor);
    LiveFacts(existing, floor);
    PastFacts(history, live, floor);
    JoinAscends(past, live);
    CappedAscends(past + live);
    CappedKeepsEnds(past + live);
    AllFromHead(Stitched(existing, history, floor), floor);
  }

  // ---------- hydrating twice ----------

  /** The restored points to be stitched on start with an earliest one. */
  predicate FirstIsEarliest(points: Trail) { forall i :: 0 <= i < |points| ==> points[0].ts <= points[i].ts }

  lemma {:induction false} WithinMembers(points: Trail, from: Option<int>, before: Option<int>)
    ensures forall p :: p in Within(points, from, before) <==> p in points && Inside(p, from, before)
  {
    if points != [] { WithinMembers(points[1..], from, before); }
  }

  /** The first point kept is the first inside. */
  lemma {:induction false} WithinHead(points: Trail, from: Option<int>, before: Option<int>)
    requires points != [] && Inside(points[0], from, before)
    ensures Within(points, from, before) != [] && Within(points, from, before)[0] == points[0]
  {
  }

  lemma {:induction false} CappedMembers(points: Trail)
    ensures forall p :: p in Capped(points) ==> p in points
    decreases |points|
  {
    if |points| > TRAIL_BUFFER_SIZE {
      var once := ThinOnce(points);
      CappedMembers(once);
      forall p | p in once ensures p in points {
        var i :| 0 <= i < |once| && once[i] == p;
        PlaceAfterThinning(points, i);
      }
    }
  }

  /** A stitched trail is wholly live the second time. */
  lemma StitchedIsLive(existing: Option<Trail>, history: Trail, floor: Option<int>)
    requires Live(existing, floor) != [] || Within(history, floor, None) != []
    ensures var m, past := Stitched(existing, history, floor), Past(history, Live(existing, floor), floor);
      && past + Live(existing, floor) != [] && m != [] && m[0] == (past + Live(existing, floor))[0]
      && |m| <= TRAIL_BUFFER_SIZE && Live(Some(m), floor) == m
  {
    var live, all := Live(existing, floor), Within(history, floor, None);
    var past, m := Past(history, live, floor), Stitched(existing, history, floor);
    PastMembers(history, live, floor);
    if live == [] { assert all[0] in past; }
    CappedKeepsEnds(past + live);
    CappedMembers(past + live);
    if existing.Some? { WithinMembers(existing.value, floor, None); }
    forall i | 0 <= i < |m| ensures Inside(m[i], floor, None) { assert m[i] in past + live; }
    WithinAll(m, floor, None);
  }

  /** What is left to stitch on the second time are the points before its first. */
  lemma LeftToStitch(history: Trail, live: Trail, floor: Option<int>, m: Trail)
    requires m != [] && Past(history, live, floor) + live != [] && m[0] == (Past(history, live, floor) + live)[0]
    ensures Past(history, m, floor) == [] <==> FirstIsEarliest(Past(history, live, floor))
  {
    var past, all, again := Past(history, live, floor), Within(history, floor, None), Past(history, m, floor);
    PastMembers(history, live, floor);
    PastMembers(history, m, floor);
    if again != [] {
      assert again[0] in again;
      if past != [] {
        assert again[0] in past;
        var i :| 0 <= i < |past| && past[i] == again[0];
      }
    } else {
      forall i | 0 <= i < |past| ensures past[0].ts <= past[i].ts { assert past[i] in past; }
    }
  }

  lemma PastMembers(history: Trail, live: Trail, floor: Option<int>)
    ensures forall p :: p in Past(history, live, floor) <==>
              p in Within(history, floor, None) && (live != [] ==> p.ts < live[0].ts)
    ensures forall p :: p in Within(history, floor, None) ==> Inside(p, floor, None)
  {
    WithinMembers(history, floor, None);
    WithinMembers(Within(history, floor, None), None, if live == [] then None else Some(live[0].ts));
  }

  lemma FirstIsMember(points: Trail)
    ensures points != [] ==> points[0] in points
  {
  }

  /** Where the comparison finds no difference, nothing was there to stitch on. */
  lemma SameHasNoPast(existing: Trail, history: Trail, floor: Option<int>)
    requires Live(Some(existing), floor) != [] || Within(history, floor, None) != []
    requires LooksSame(existing, Stitched(Some(existing), history, floor))
    ensures Past(history, Live(Some(existing), floor), floor) == []
  {
    var live := Live(Some(existing), floor);
    var past, m := Past(history, live, floor), Stitched(Some(existing), history, floor);
    StitchedIsLive(Some(existing), history, floor);
    PastMembers(history, live, floor);
    FirstIsMember(past);
    if existing != [] && Inside(existing[0], floor, None) { WithinHead(existing, floor, None); }
  }

  lemma {:induction false} WithinLength(points: Trail, from: Option<int>, before: Option<int>)
    ensures |Within(points, from, before)| <= |points|
    ensures |Within(points, from, before)| == |points| ==> Within(points, from, before) == points
  {
    if points != [] { WithinLength(points[1..], from, before); }
  }

  /** Where the comparison finds no difference there is none, in any order, so no stitching is ever lost. */
  lemma ComparisonIsExact(existing: Option<Trail>, history: Trail, floor: Option<int>)
    requires Live(existing, floor) != [] || Within(history, floor, None) != []
    ensures HydrateOne(existing, history, floor) == Some(Stitched(existing, history, floor))
  {
    var live, merged := Live(existing, floor), Stitched(existing, history, floor);
    if existing.Some? && LooksSame(existing.value, merged) {
      SameHasNoPast(existing.value, history, floor);
      StitchedIsLive(existing, history, floor);
      WithinLength(existing.value, floor, None);
      assert [] + live == live;
      CappedKeepsEnds(live);
    }
  }

  /** The points with a property, in their order. */
  function Those(points: Trail, q: Point -> bool): Trail {
    if points == [] then [] else Those(points[..|points| - 1], q) + Only(points[|points| - 1], q)
  }

  function Only(p: Point, q: Point -> bool): Trail { if q(p) then [p] else [] }

  lemma {:induction false} ThoseFromFront(points: Trail, q: Point -> bool)
    requires points != []
    ensures Those(points, q) == Only(points[0], q) + Those(points[1..], q)
    decreases |points|
  {
    var n := |points| - 1;
    if n > 0 {
      ThoseFromFront(points[..n], q);
      assert points[..n][1..] == points[1..][..n - 1];
    } else {
      assert points[..0] == [] && points[1..] == [];
    }
  }

  lemma {:induction false} WithinIsThose(points: Trail, from: Option<int>, before: Option<int>, q: Point -> bool)
    requires forall p :: q(p) <==> (from.Some? ==> from.value <= p.ts) && (before.Some? ==> p.ts < before.value)
    ensures Within(points, from, before) == Those(points, q)
  {
    if points != [] {
      WithinIsThose(points[1..], from, before, q);
      ThoseFromFront(points, q);
    }
  }

  lemma {:induction false} ThoseOfThose(points: Trail, q: Point -> bool, r: Point -> bool, both: Point -> bool)
    requires forall p :: both(p) <==> q(p) && r(p)
    ensures Those(Those(points, q), r) == Those(points, both)
    decreases |points|
  {
    if points != [] {
      var front, last := points[..|points| - 1], points[|points| - 1];
      ThoseOfThose(front, q, r, both);
      var kept := Those(front, q);
      if q(last) {
        assert Those(points, q) == kept + [last] && (kept + [last])[..|kept|] == kept;
        assert Those(kept + [last], r) == Those(kept, r) + Only(last, r);
      } else {
        assert Those(points, q) == kept + [] == kept;
        assert Those(points, both) == Those(front, both) + [];
      }
    }
  }

  predicate NotBefore(p: Point, floor: Option<int>) { floor.Some? ==> floor.value <= p.ts }

  /** The first live point from the floor on, if there is one, is later than `p`. */
  predicate BeforeLive(existing: Trail, floor: Option<int>, p: Point) {
    forall k :: 0 <= k < |existing| && FirstFrom(existing, floor, k) ==> p.ts < existing[k].ts
  }

  predicate FirstFrom(existing: Trail, floor: Option<int>, k: int) {
    0 <= k < |existing| && NotBefore(existing[k], floor) && forall j :: 0 <= j < k ==> !NotBefore(existing[j], floor)
  }

  lemma {:induction false} FirstLive(points: Trail, floor: Option<int>)
    ensures var live := Within(points, floor, None);
      if live == [] then forall k :: !FirstFrom(points, floor, k)
      else exists k :: FirstFrom(points, floor, k) && live[0] == points[k]
  {
    if points != [] {
      FirstLive(points[1..], floor);
      if NotBefore(points[0], floor) {
        assert FirstFrom(points, floor, 0);
      } else {
        forall k ensures FirstFrom(points, floor, k) <==> k > 0 && FirstFrom(points[1..], floor, k - 1) {
          FirstFromRest(points, floor, k);
        }
        if Within(points[1..], floor, None) != [] {
          var k :| FirstFrom(points[1..], floor, k) && Within(points[1..], floor, None)[0] == points[1..][k];
          assert FirstFrom(points, floor, k + 1);
        }
      }
    }
  }

  lemma FirstFromRest(points: Trail, floor: Option<int>, k: int)
    requires points != [] && !NotBefore(points[0], floor)
    ensures FirstFrom(points, floor, k) <==> k > 0 && FirstFrom(points[1..], floor, k - 1)
  {
    if k > 0 && FirstFrom(points[1..], floor, k - 1) {
      forall j | 0 <= j < k ensures !NotBefore(points[j], floor) {
        if j > 0 { assert points[1..][j - 1] == points[j]; }
      }
    }
    if FirstFrom(points, floor, k) {
      forall j | 0 <= j < k - 1 ensures !NotBefore(points[1..][j], floor) { assert points[j + 1] == points[1..][j]; }
    }
  }

  lemma OneFirst(points: Trail, floor: Option<int>, i: int, j: int)
    requires FirstFrom(points, floor, i) && FirstFrom(points, floor, j)
    ensures i == j
  {
    assert !(i < j) && !(j < i);
  }

  function PointsOf(trail: Option<Trail>): Trail { if trail.Some? then trail.value else [] }

  /**
   What hydration leaves, in any order: the restored points from the floor on that are earlier than the
   first live one from the floor on, then those live ones, thinned to the ceiling.
   */
  lemma HydrateStitches(existing: Option<Trail>, history: Trail, floor: Option<int>)
    ensures var live := PointsOf(existing);
      PointsOf(HydrateOne(existing, history, floor))
      == Capped(Those(history, (p: Point) => NotBefore(p, floor) && BeforeLive(live, floor, p))
                + Those(live, (p: Point) => NotBefore(p, floor)))
  {
    var live := PointsOf(existing);
    var from := (p: Point) => NotBefore(p, floor);
    var earlier := (p: Point) => BeforeLive(live, floor, p);
    var both := (p: Point) => NotBefore(p, floor) && BeforeLive(live, floor, p);
    var kept := Within(live, floor, None);
    WithinIsThose(live, floor, None, from);
    WithinIsThose(history, floor, None, from);
    ThoseOfThose(history, from, earlier, both);
    EarlierThanLive(live, floor, earlier);
    var before := if kept == [] then None else Some(kept[0].ts);
    WithinIsThose(Within(history, floor, None), None, before, earlier);
    assert Live(existing, floor) == kept;
    if kept != [] || Within(history, floor, None) != [] { ComparisonIsExact(existing, history, floor); }
  }

  lemma EarlierThanLive(live: Trail, floor: Option<int>, earlier: Point -> bool)
    requires forall p :: earlier(p) <==> BeforeLive(live, floor, p)
    ensures var kept := Within(live, floor, None);
      forall p :: earlier(p) <==> kept != [] ==> p.ts < kept[0].ts
  {
    var kept := Within(live, floor, None);
    FirstLive(live, floor);
    if kept != [] {
      var k :| FirstFrom(live, floor, k) && kept[0] == live[k];
      forall p ensures BeforeLive(live, floor, p) <==> p.ts < kept[0].ts {
        if p.ts < kept[0].ts {
          forall j | FirstFrom(live, floor, j) ensures p.ts < live[j].ts { OneFirst(live, floor, j, k); }
        }
      }
    }
  }

  /** Restoring keeps timestamps in order and nothing older than the floor. */
  lemma HydrateAscends(existing: Option<Trail>, history: Trail, floor: Option<int>)
    requires (existing.Some? ==> Ascending(existing.value)) && Ascending(history)
    ensures var r := HydrateOne(existing, history, floor);
      r.Some? ==> Ascending(r.value) && AllFrom(r.value, floor)
  {
    if Live(existing, floor) != [] || Within(history, floor, None) != [] {
      ComparisonIsExact(existing, history, floor);
      StitchedFacts(existing, history, floor);
    }
  }

  /**
   Hydrating again from the same history and floor changes nothing if and only if the points it
   stitches on start with an earliest one; no order is asked of anything.
   */
  lemma HydrateTwiceExact(existing: Option<Trail>, history: Trail, floor: Option<int>)
    ensures var once := HydrateOne(existing, history, floor);
      HydrateOne(once, history, floor) == once <==> FirstIsEarliest(Past(history, Live(existing, floor), floor))
  {
    var live := Live(existing, floor);
    var past, m := Past(history, live, floor), Stitched(existing, history, floor);
    PastMembers(history, live, floor);
    if live == [] && Within(history, floor, None) == [] {
      assert past == [] && Live(None, floor) == [];
    } else if existing.Some? && LooksSame(existing.value, m) {
      SameHasNoPast(existing.value, history, floor);
    } else {
      StitchedIsLive(existing, history, floor);
      LeftToStitch(history, live, floor, m);
      TwiceFrom(m, history, floor);
    }
  }

  lemma TwiceFrom(m: Trail, history: Trail, floor: Option<int>)
    requires m != [] && |m| <= TRAIL_BUFFER_SIZE && Live(Some(m), floor) == m
    ensures HydrateOne(Some(m), history, floor) == Some(m) <==> Past(history, m, floor) == []
  {
    var past := Past(history, m, floor);
    if past == [] {
      assert [] + m == m;
    } else {
      PastMembers(history, m, floor);
      CappedKeepsEnds(past + m);
      assert past[0] in past && Stitched(Some(m), history, floor)[0] == past[0];
    }
  }

  lemma {:induction false} AscendingPast(history: Trail, live: Trail, floor: Option<int>)
    requires Ascending(history)
    ensures FirstIsEarliest(Past(history, live, floor))
  {
    PastFacts(history, live, floor);
  }

  /** An ascending history meets it, whatever is held. */
  lemma HydrateIsIdempotent(existing: Option<Trail>, history: Trail, floor: Option<int>)
    requires Ascending(history)
    ensures var once := HydrateOne(existing, history, floor);
      HydrateOne(once, history, floor) == once
  {
    HydrateTwiceExact(existing, history, floor);
    AscendingPast(history, Live(existing, floor), floor);
  }

  /** Out of order, a point is stitched on twice. */
  lemma UnorderedHistoryRepeats()
    ensures var history := [Point(1, 2), Point(2, 1)];
      var once := HydrateOne(None, history, None);
      once == Some(history) && HydrateOne(once, history, None) == Some([Point(2, 1)] + history)
  {
    var history := [Point(1, 2), Point(2, 1)];
    assert history[1..] == [Point(2, 1)] && history[1..][1..] == [];
    assert Within(history, None, None) == history && history + [] == history;
    assert Within(history, None, Some(2)) == [Point(2, 1)];
    assert HydrateOne(None, history, None) == Some(history);
    assert Live(Some(history), None) == history;
    assert Past(history, history, None) == [Point(2, 1)];
  }

  // ---------- the store ----------

  function Lookup(trails: map<string, Trail>, icao: string): Option<Trail> {
    if icao in trails then Some(trails[icao]) else None
  }

  function HistoryOf(restored: map<string, Trail>, icao: string): Trail {
    if icao in restored then restored[icao] else []
  }

  function FloorOf(floors: map<string, int>, icao: string): Option<int> {
    if icao in floors then Some(floors[icao]) else None
  }

  /** Each named trail is hydrated and no other trail is touched. */
  ghost predicate Hydrated(
    before: map<string, Trail>, after: map<string, Trail>, restored: map<string, Trail>, floors: map<string, int>,
    named: set<string>)
  {
    forall icao :: Lookup(after, icao) ==
                   if icao in named
                   then HydrateOne(Lookup(before, icao), HistoryOf(restored, icao), FloorOf(floors, icao))
                   else Lookup(before, icao)
  }

  function TrailOf(trails: map<string, Trail>, icao: string): Trail { if icao in trails then trails[icao] else [] }

  class FleetStore {
    var trails: map<string, Trail>

    constructor ()
      ensures trails == map[]
    {
      trails := map[];
    }

    /** So a trail that was grown point by point goes on being so. */
    method Append(icao: string, p: Point)
      modifies this
      ensures trails == old(trails)[icao := AppendTrailPoint(TrailOf(old(trails), icao), p)]
      ensures forall points :: TrailOf(old(trails), icao) == Grown(points) ==> trails[icao] == Grown(points + [p])
    {
      var existing := TrailOf(trails, icao);
      var next := CapTrail(existing + [p]);
      trails := trails[icao := next];
      forall points | existing == Grown(points) ensures next == Grown(points + [p]) { GrownStep(points, p); }
    }

    /** Every aircraft named by the history or the floors is hydrated. */
    method HydrateTrails(restored: map<string, Trail>, floors: map<string, int>)
      modifies this
      ensures Hydrated(old(trails), trails, restored, floors, restored.Keys + floors.Keys)
    {
      if restored == map[] && floors == map[] { return; }
      var next, changed := HydrateAll(trails, restored, floors);
      if changed { trails := next; }
    }
  }

  method HydrateAll(trails: map<string, Trail>, restored: map<string, Trail>, floors: map<string, int>)
    returns (next: map<string, Trail>, changed: bool)
    ensures Hydrated(trails, next, restored, floors, restored.Keys + floors.Keys)
    ensures !changed ==> next == trails
  {
    next, changed := trails, false;
    var all := restored.Keys + floors.Keys;
    var icaos := all;
    while icaos != {}
      invariant icaos <= all
      invariant !changed ==> next == trails
      invariant Hydrated(trails, next, restored, floors, all - icaos)
      decreases |icaos|
    {
      var icao :| icao in icaos;
      var last, differs := next, false;
      next, differs := HydrateNext(last, icao, HistoryOf(restored, icao), FloorOf(floors, icao));
      HydratedOneMore(trails, last, next, restored, floors, all, icaos, icao);
      icaos := icaos - {icao};
      changed := changed || differs;
    }
    assert all - icaos == all;
  }

  function Put(trails: map<string, Trail>, icao: string, trail: Option<Trail>): map<string, Trail> {
    if trail.Some? then trails[icao := trail.value] else trails - {icao}
  }

  lemma HydratedOneMore(
    before: map<string, Trail>, next: map<string, Trail>, after: map<string, Trail>, restored: map<string, Trail>,
    floors: map<string, int>, all: set<string>, left: set<string>, icao: string)
    requires Hydrated(before, next, restored, floors, all - left) && icao in left && left <= all
    requires after == Put(next, icao, HydrateOne(Lookup(next, icao), HistoryOf(restored, icao), FloorOf(floors, icao)))
    ensures Hydrated(before, after, restored, floors, all - (left - {icao}))
  {
    var one := HydrateOne(Lookup(next, icao), HistoryOf(restored, icao), FloorOf(floors, icao));
    forall other ensures Lookup(after, other) == if other == icao then one else Lookup(next, other) {
      if other != icao { assert other in after <==> other in next; }
    }
  }

  method HydrateNext(trails: map<string, Trail>, icao: string, history: Trail, floor: Option<int>)
    returns (next: map<string, Trail>, changed: bool)
    ensures next == Put(trails, icao, HydrateOne(Lookup(trails, icao), history, floor))
    ensures !changed ==> next == trails
  {
    var existing := Lookup(trails, icao);
    var live := Live(existing, floor);
    next, changed := trails, false;
    if live == [] && Within(history, floor, None) == [] {
      if existing.Some? && existing.value != [] { next, changed := trails - {icao}, true; }
      return;
    }
    var merged := CapTrail(Past(history, live, floor) + live);
    if existing.None? || !LooksSame(existing.value, merged) { next, changed := trails[icao := merged], true; }
  }

  ghost predicate AllAscend(trails: map<string, Trail>) { forall icao :: icao in trails ==> Ascending(trails[icao]) }

  lemma SameTrails(a: map<string, Trail>, b: map<string, Trail>)
    ensures a == b <==> forall icao :: Lookup(a, icao) == Lookup(b, icao)
  {
    if forall icao :: Lookup(a, icao) == Lookup(b, icao) {
      forall icao ensures (icao in a <==> icao in b) && (icao in a ==> a[icao] == b[icao]) {
        assert Lookup(a, icao) == Lookup(b, icao);
      }
    }
  }

  /** A second hydration of the whole store changes nothing if and only if no named trail would change. */
  lemma HydratingTwiceExact(
    before: map<string, Trail>, once: map<string, Trail>, twice: map<string, Trail>, restored: map<string, Trail>,
    floors: map<string, int>, named: set<string>)
    requires Hydrated(before, once, restored, floors, named) && Hydrated(once, twice, restored, floors, named)
    ensures twice == once <==> forall icao :: icao in named ==>
              var floor := FloorOf(floors, icao);
              FirstIsEarliest(Past(HistoryOf(restored, icao), Live(Lookup(before, icao), floor), floor))
  {
    SameTrails(twice, once);
    forall icao
      ensures var floor := FloorOf(floors, icao);
        Lookup(twice, icao) == Lookup(once, icao) <==>
          (icao in named ==> FirstIsEarliest(Past(HistoryOf(restored, icao), Live(Lookup(before, icao), floor), floor)))
    {
      HydrateTwiceExact(Lookup(before, icao), HistoryOf(restored, icao), FloorOf(floors, icao));
      assert Lookup(once, icao) == if icao in named
        then HydrateOne(Lookup(before, icao), HistoryOf(restored, icao), FloorOf(floors, icao))
        else Lookup(before, icao);
    }
  }

  /** With ascending histories every trail stays in order, and a second time no trail changes at all. */
  lemma HydratingTwiceIsOnce(
    before: map<string, Trail>, once: map<string, Trail>, twice: map<string, Trail>, restored: map<string, Trail>,
    floors: map<string, int>, named: set<string>)
    requires AllAscend(restored)
    requires Hydrated(before, once, restored, floors, named) && Hydrated(once, twice, restored, floors, named)
    ensures twice == once && (AllAscend(before) ==> AllAscend(once))
  {
    HydratingTwiceExact(before, once, twice, restored, floors, named);
    forall icao
      ensures var floor := FloorOf(floors, icao);
        FirstIsEarliest(Past(HistoryOf(restored, icao), Live(Lookup(before, icao), floor), floor))
    {
      var floor := FloorOf(floors, icao);
      AscendingPast(HistoryOf(restored, icao), Live(Lookup(before, icao), floor), floor);
    }
    if AllAscend(before) {
      forall icao ensures icao in once ==> Ascending(once[icao]) {
        HydrateAscends(Lookup(before, icao), HistoryOf(restored, icao), FloorOf(floors, icao));
        assert Lookup(once, icao) == if icao in named
          then HydrateOne(Lookup(before, icao), HistoryOf(restored, icao), FloorOf(floors, icao))
          else Lookup(before, icao);
      }
    }
  }
}
