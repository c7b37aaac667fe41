/**
 The cache of verified block trees (`rememberBlockTree` and `getCachedBlockTree` in
 `confirmation-poller.ts`): at most four trees, the least recently used one thrown out, with
 recency read off the clock. A JavaScript Map iterates in insertion order, which settles ties;
 `order` is that order.
 */
module TreeCache {
  import opened Lists
  import opened Options

  const BLOCK_TREE_CACHE_MAX := 4

  datatype Entry = Entry(root: string, usedAt: int)

  datatype Cache = Cache(order: seq<int>, entries: map<int, Entry>)

  const EMPTY := Cache([], map[])

  ghost predicate Valid(c: Cache) {
    Distinct(c.order) && |c.order| == |c.entries| && forall k :: k in c.order <==> k in c.entries
  }

  function Set(c: Cache, k: int, e: Entry): Cache {
    Cache(if k in c.entries then c.order else c.order + [k], c.entries[k := e])
  }

  function Delete(c: Cache, k: int): Cache { Cache(Without(c.order, k), c.entries - {k}) }

  /** The first of the least recently used heights, in map order. */
  function Oldest(order: seq<int>, entries: map<int, Entry>): (k: int)
    requires order != [] && forall k :: k in order ==> k in entries
    ensures k in order
    decreases |order|
  {
    if |order| == 1 then order[0]
    else
      var last := order[|order| - 1];
      var best := Oldest(order[..|order| - 1], entries);
      if entries[last].usedAt < entries[best].usedAt then last else best
  }

  lemma {:induction false} OldestIsLeast(order: seq<int>, entries: map<int, Entry>)
    requires order != [] && forall k :: k in order ==> k in entries
    ensures forall k :: k in order ==> entries[Oldest(order, entries)].usedAt <= entries[k].usedAt
    decreases |order|
  {
    if |order| > 1 {
      var front := order[..|order| - 1];
      OldestIsLeast(front, entries);
      assert order == front + [order[|order| - 1]];
    }
  }

  /** A later height is only chosen when it is strictly older. */
  lemma {:induction false} OldestPrefersEarlier(order: seq<int>, entries: map<int, Entry>)
    requires |order| > 1 && Distinct(order) && forall k :: k in order ==> k in entries
    ensures var last, front := order[|order| - 1], order[..|order| - 1];
      Oldest(order, entries) == last <==> forall k :: k in front ==> entries[last].usedAt < entries[k].usedAt
  {
    var last, front := order[|order| - 1], order[..|order| - 1];
    OldestIsLeast(front, entries);
    var best := Oldest(front, entries);
    var i :| 0 <= i < |front| && front[i] == best;
    assert best != last by { assert order[i] == best; }
  }

  function Evict(c: Cache): (r: Cache)
    requires Valid(c)
    ensures Valid(r)
    decreases |c.entries|
  {
    if |c.entries| <= BLOCK_TREE_CACHE_MAX then c
    else
      DeleteValid(c, Oldest(c.order, c.entries));
      Evict(Delete(c, Oldest(c.order, c.entries)))
  }

  function Remember(c: Cache, k: int, root: string, now: int): (r: Cache)
    requires Valid(c)
    ensures Valid(r)
  {
    SetValid(c, k, Entry(root, now));
    Evict(Set(c, k, Entry(root, now)))
  }

  /** A hit counts as a use; it is written back under a key that is there, so the order stays. */
  function Get(c: Cache, k: int, now: int): (Cache, Option<string>) {
    if k !in c.entries then (c, None)
    else (c.(entries := c.entries[k := c.entries[k].(usedAt := now)]), Some(c.entries[k].root))
  }

  // ---------- the map stays a map ----------

  lemma SetValid(c: Cache, k: int, e: Entry)
    requires Valid(c)
    ensures Valid(Set(c, k, e))
  {
  }

  lemma DeleteValid(c: Cache, k: int)
    requires Valid(c)
    ensures Valid(Delete(c, k)) && |Delete(c, k).entries| == if k in c.entries then |c.entries| - 1 else |c.entries|
  {
    WithoutKeepsDistinct(c.order, k);
    if k in c.entries {
      assert c.entries.Keys == (c.entries - {k}).Keys + {k};
    } else {
      assert c.entries - {k} == c.entries;
    }
  }

  // ---------- one call on a full cache ----------

  /**
   A new tree in a full cache throws out one least recently used tree and leaves the others as
   they were; the new tree itself stays exactly when some old tree was used no later than now.
   */
  lemma FullRememberEvictsOne(c: Cache, k: int, root: string, now: int)
    requires Valid(c) && |c.entries| == BLOCK_TREE_CACHE_MAX && k !in c.entries
    ensures var c1 := Remember(c, k, root, now);
      var all := c.entries[k := Entry(root, now)];
      && Valid(c1)
      && (exists gone :: gone in all && c1.entries == all - {gone}
                         && forall x :: x in all ==> all[gone].usedAt <= all[x].usedAt)
      && (k in c1.entries <==> exists x :: x in c.entries && c.entries[x].usedAt <= now)
  {
    var full := Set(c, k, Entry(root, now));
    SetValid(c, k, Entry(root, now));
    assert |full.entries| == BLOCK_TREE_CACHE_MAX + 1;
    var gone := Oldest(full.order, full.entries);
    OldestIsLeast(full.order, full.entries);
    DeleteValid(full, gone);
    assert Evict(Delete(full, gone)) == Delete(full, gone);
    assert Remember(c, k, root, now) == Delete(full, gone);
    assert full.order[..|full.order| - 1] == c.order;
    OldestPrefersEarlier(full.order, full.entries);
  }

  // ---------- runs ----------

  datatype Event = Store(height: int, root: string) | Look(height: int) | Drop(height: int)

  datatype Timed = Timed(at: int, event: Event)

  function Step(c: Cache, e: Timed): (r: Cache)
    requires Valid(c)
    ensures Valid(r)
  {
    match e.event
    case Store(k, root) => Remember(c, k, root, e.at)
    case Look(k) => Get(c, k, e.at).0
    case Drop(k) => DeleteValid(c, k); Delete(c, k)
  }

  function Run(events: seq<Timed>): (c: Cache)
    ensures Valid(c)
    decreases |events|
  {
    if events == [] then EMPTY else Step(Run(events[..|events| - 1]), events[|events| - 1])
  }

  /** The reference: the heights held, least recently used first. */
  function Moved(list: seq<int>, k: int): seq<int> { Without(list, k) + [k] }

  function LastFour(list: seq<int>): seq<int> { if |list| <= 4 then list else list[|list| - 4..] }

  function RecencyStep(list: seq<int>, e: Event): seq<int> {
    match e
    case Store(k, _) => LastFour(Moved(list, k))
    case Look(k) => if k in list then Moved(list, k) else list
    case Drop(k) => Without(list, k)
  }

  function Recency(events: seq<Timed>): seq<int> {
    if events == [] then [] else RecencyStep(Recency(events[..|events| - 1]), events[|events| - 1].event)
  }

  ghost predicate ClockAdvances(events: seq<Timed>) {
    forall i, j :: 0 <= i < j < |events| ==> events[i].at < events[j].at
  }

  /** The list runs from the least to the most recent stamp. */
  ghost predicate Stamped(entries: map<int, Entry>, list: seq<int>) {
    && (forall k :: k in list ==> k in entries)
    && forall i, j :: 0 <= i < j < |list| ==> entries[list[i]].usedAt < entries[list[j]].usedAt
  }

  /** The clock stamps tell the same story as the recency list. */
  ghost predicate Follows(c: Cache, list: seq<int>, before: int) {
    && Valid(c) && |list| == |c.entries|
    && (forall k :: k in list <==> k in c.entries)
    && Stamped(c.entries, list)
    && forall k :: k in c.entries ==> c.entries[k].usedAt < before
  }

  lemma StampedDistinct(entries: map<int, Entry>, list: seq<int>)
    requires Stamped(entries, list)
    ensures Distinct(list)
  {
  }

  lemma {:induction false} StampedWithout(entries: map<int, Entry>, list: seq<int>, k: int)
    requires Stamped(entries, list)
    ensures Stamped(entries, Without(list, k))
  {
    StampedDistinct(entries, list);
    WithoutKeepsDistinct(list, k);
    if list != [] {
      assert forall x :: x in list[1..] ==> entries[list[0]].usedAt < entries[x].usedAt;
      StampedWithout(entries, list[1..], k);
      WithoutKeepsDistinct(list[1..], k);
    }
  }

  lemma StampedMoved(entries: map<int, Entry>, list: seq<int>, k: int, e: Entry)
    requires Stamped(entries, list) && forall x :: x in entries ==> entries[x].usedAt < e.usedAt
    ensures Stamped(entries[k := e], Moved(list, k))
    ensures |Moved(list, k)| == |list| + if k in list then 0 else 1
    ensures forall x :: x in Moved(list, k) <==> x in list || x == k
  {
    StampedDistinct(entries, list);
    WithoutKeepsDistinct(list, k);
    StampedWithout(entries, list, k);
    var r, more := Without(list, k), entries[k := e];
    assert forall x :: x in r ==> x in list && x != k;
    assert forall x :: x in r ==> x in more && more[x] == entries[x] && more[x].usedAt < e.usedAt;
    StampedRestamped(entries, more, r);
    StampedSnoc(more, r, k);
  }

  lemma StampedRestamped(entries: map<int, Entry>, more: map<int, Entry>, list: seq<int>)
    requires Stamped(entries, list) && forall x :: x in list ==> x in more && more[x] == entries[x]
    ensures Stamped(more, list)
  {
    forall i, j | 0 <= i < j < |list|
      ensures list[i] in more && list[j] in more && more[list[i]].usedAt < more[list[j]].usedAt
    {
      var x, y := list[i], list[j];
      assert x in list && y in list && entries[x].usedAt < entries[y].usedAt;
    }
  }

  lemma StampedSnoc(entries: map<int, Entry>, list: seq<int>, k: int)
    requires Stamped(entries, list) && k in entries
    requires forall x :: x in list ==> entries[x].usedAt < entries[k].usedAt
    ensures Stamped(entries, list + [k])
  {
    var more := list + [k];
    forall i, j | 0 <= i < j < |more|
      ensures more[i] in entries && more[j] in entries && entries[more[i]].usedAt < entries[more[j]].usedAt
    {
      var x, y := more[i], more[j];
      assert x == list[i] && x in list;
      if j < |list| { assert y == list[j] && y in list; }
    }
  }

  lemma SetFollows(c: Cache, list: seq<int>, k: int, e: Entry)
    requires Follows(c, list, e.usedAt)
    ensures Follows(Set(c, k, e), Moved(list, k), e.usedAt + 1)
  {
    SetValid(c, k, e);
    StampedMoved(c.entries, list, k, e);
  }

  lemma DropFollows(c: Cache, list: seq<int>, k: int, before: int)
    requires Follows(c, list, before)
    ensures Follows(Delete(c, k), Without(list, k), before)
  {
    DeleteValid(c, k);
    StampedDistinct(c.entries, list);
    WithoutKeepsDistinct(list, k);
    StampedWithout(c.entries, list, k);
    StampedRestamped(c.entries, Delete(c, k).entries, Without(list, k));
  }

  /** Five trees: the one evicted is the head of the list. */
  lemma EvictFollows(c: Cache, list: seq<int>, before: int)
    requires Follows(c, list, before) && |list| == 5
    ensures Follows(Evict(c), list[1..], before)
  {
    var gone := Oldest(c.order, c.entries);
    OldestIsLeast(c.order, c.entries);
    assert list[0] in list;
    assert gone == list[0] by {
      var i :| 0 <= i < |list| && list[i] == gone;
    }
    StampedDistinct(c.entries, list);
    WithoutHead(list);
    DropFollows(c, list, gone, before);
    assert Evict(Delete(c, gone)) == Delete(c, gone);
  }

  lemma {:induction false} WithoutHead(list: seq<int>)
    requires list != [] && Distinct(list)
    ensures Without(list, list[0]) == list[1..]
  {
    assert list[0] !in list[1..];
    WithoutAbsent(list[1..], list[0]);
  }

  lemma StepFollows(c: Cache, list: seq<int>, e: Timed)
    requires Follows(c, list, e.at) && |list| <= BLOCK_TREE_CACHE_MAX
    ensures var list1 := RecencyStep(list, e.event);
      Follows(Step(c, e), list1, e.at + 1) && |list1| <= BLOCK_TREE_CACHE_MAX
  {
    match e.event
    case Store(k, root) =>
      SetFollows(c, list, k, Entry(root, e.at));
      StampedMoved(c.entries, list, k, Entry(root, e.at));
      if |Moved(list, k)| == 5 { EvictFollows(Set(c, k, Entry(root, e.at)), Moved(list, k), e.at + 1); }
    case Look(k) =>
      if k in c.entries {
        SetFollows(c, list, k, c.entries[k].(usedAt := e.at));
        StampedMoved(c.entries, list, k, c.entries[k].(usedAt := e.at));
      }
    case Drop(k) =>
      DropFollows(c, list, k, e.at);
      StampedDistinct(c.entries, list);
      WithoutKeepsDistinct(list, k);
  }

  /**
   On a clock that advances, the cache holds at every moment exactly the four most recently used
   heights that were not dropped, in that order by their stamps.
   */
  lemma {:induction false} CacheIsRecency(events: seq<Timed>)
    requires ClockAdvances(events)
    ensures |Recency(events)| <= BLOCK_TREE_CACHE_MAX
    ensures Follows(Run(events), Recency(events), if events == [] then 0 else events[|events| - 1].at + 1)
    decreases |events|
  {
    if events != [] {
      var front, e := events[..|events| - 1], events[|events| - 1];
      CacheIsRecency(front);
      assert Follows(Run(front), Recency(front), e.at) by {
        if front != [] { assert front[|front| - 1].at < e.at; }
      }
      StepFollows(Run(front), Recency(front), e);
    }
  }

  // ---------- any clock ----------

  /** A use of a height: when, and the how-manieth insertion put it into the map. */
  datatype Item = Item(height: int, at: int, rank: nat)

  predicate Sooner(a: Item, b: Item) { a.at < b.at || (a.at == b.at && a.rank < b.rank) }

  /** The reference for any clock: the held heights as a list sorted by last use, then by insertion. */
  datatype Ref = Ref(items: seq<Item>, next: nat)

  function Add(items: seq<Item>, x: Item): seq<Item> {
    if items == [] then [x]
    else if Sooner(x, items[0]) then [x] + items
    else [items[0]] + Add(items[1..], x)
  }

  function Remove(items: seq<Item>, k: int): seq<Item> {
    if items == [] then [] else (if items[0].height == k then [] else [items[0]]) + Remove(items[1..], k)
  }

  function RankOf(items: seq<Item>, k: int, otherwise: nat): nat {
    if items == [] then otherwise else if items[0].height == k then items[0].rank else RankOf(items[1..], k, otherwise)
  }

  predicate Has(items: seq<Item>, k: int) { items != [] && (items[0].height == k || Has(items[1..], k)) }

  function Used(r: Ref, k: int, now: int): Ref {
    Ref(Add(Remove(r.items, k), Item(k, now, RankOf(r.items, k, r.next))),
        if Has(r.items, k) then r.next else r.next + 1)
  }

  function RefStep(r: Ref, e: Timed): Ref {
    match e.event
    case Store(k, _) =>
      var used := Used(r, k, e.at);
      if |used.items| > BLOCK_TREE_CACHE_MAX then used.(items := used.items[1..]) else used
    case Look(k) => if Has(r.items, k) then Used(r, k, e.at) else r
    case Drop(k) => r.(items := Remove(r.items, k))
  }

  function RefRun(events: seq<Timed>): Ref {
    if events == [] then Ref([], 0) else RefStep(RefRun(events[..|events| - 1]), events[|events| - 1])
  }

  ghost predicate SortedItems(items: seq<Item>) { forall i, j :: 0 <= i < j < |items| ==> Sooner(items[i], items[j]) }

  ghost predicate OneEach(items: seq<Item>) {
    forall i, j :: 0 <= i < j < |items| ==> items[i].height != items[j].height && items[i].rank != items[j].rank
  }

  ghost predicate ComesBefore(order: seq<int>, a: int, b: int) {
    exists i, j :: 0 <= i < j < |order| && order[i] == a && order[j] == b
  }

  ghost predicate SameStamps(c: Cache, r: Ref) {
    forall x :: x in r.items ==> x.height in c.entries && c.entries[x.height].usedAt == x.at && x.rank < r.next
  }

  ghost predicate RanksFollowOrder(order: seq<int>, items: seq<Item>) {
    forall x, y :: x in items && y in items && ComesBefore(order, x.height, y.height) ==> x.rank < y.rank
  }

  ghost predicate Proper(items: seq<Item>) { SortedItems(items) && OneEach(items) }

  /** The cache and the list hold the same heights with the same stamps, and map order is insertion order. */
  ghost predicate Agrees(c: Cache, r: Ref) {
    && Valid(c) && Proper(r.items) && |r.items| == |c.entries|
    && (forall k :: k in c.entries <==> Has(r.items, k))
    && SameStamps(c, r) && RanksFollowOrder(c.order, r.items)
  }

  lemma {:induction false} AddFacts(items: seq<Item>, x: Item)
    requires SortedItems(items) && OneEach(items)
    requires forall y :: y in items ==> y.height != x.height && y.rank != x.rank
    ensures SortedItems(Add(items, x)) && OneEach(Add(items, x)) && |Add(items, x)| == |items| + 1
    ensures forall y :: y in Add(items, x) <==> y in items || y == x
  {
    if items != [] && !Sooner(x, items[0]) {
      assert forall y :: y in items[1..] ==> y in items;
      AddFacts(items[1..], x);
      var rest := Add(items[1..], x);
      assert items[0] in items;
      forall j | 0 <= j < |rest|
        ensures Sooner(items[0], rest[j]) && items[0].height != rest[j].height && items[0].rank != rest[j].rank
      {
        assert rest[j] in rest;
        if rest[j] != x { HeadFirst(items, rest[j]); }
      }
    }
  }

  lemma {:induction false} HasMember(items: seq<Item>, k: int)
    ensures Has(items, k) <==> exists x :: x in items && x.height == k
  {
    if items != [] {
      HasMember(items[1..], k);
      assert forall x :: x in items <==> x == items[0] || x in items[1..];
      assert items[0] in items;
    }
  }

  lemma {:induction false} RemoveMembers(items: seq<Item>, k: int)
    ensures forall y :: y in Remove(items, k) <==> y in items && y.height != k
  {
    if items != [] {
      RemoveMembers(items[1..], k);
      assert forall y :: y in items <==> y == items[0] || y in items[1..];
    }
  }

  /** The head of a sorted list against the rest. */
  lemma HeadFirst(items: seq<Item>, y: Item)
    requires SortedItems(items) && OneEach(items) && items != [] && y in items[1..]
    ensures Sooner(items[0], y) && items[0].height != y.height && items[0].rank != y.rank
  {
    var i :| 0 <= i < |items[1..]| && items[1..][i] == y;
    assert items[i + 1] == y;
  }

  lemma {:induction false} RemoveFacts(items: seq<Item>, k: int)
    requires SortedItems(items) && OneEach(items)
    ensures SortedItems(Remove(items, k)) && OneEach(Remove(items, k))
    ensures |Remove(items, k)| == if Has(items, k) then |items| - 1 else |items|
  {
    if items != [] {
      var rest := Remove(items[1..], k);
      RemoveFacts(items[1..], k);
      RemoveMembers(items[1..], k);
      if items[0].height == k {
        HasMember(items[1..], k);
        if Has(items[1..], k) {
          var x :| x in items[1..] && x.height == k;
          HeadFirst(items, x);
        }
      } else {
        forall j | 0 <= j < |rest|
          ensures Sooner(items[0], rest[j]) && items[0].height != rest[j].height && items[0].rank != rest[j].rank
        {
          assert rest[j] in rest;
          HeadFirst(items, rest[j]);
        }
      }
    }
  }

  lemma {:induction false} RankFacts(items: seq<Item>, k: int, otherwise: nat)
    ensures if Has(items, k) then exists x :: x in items && x.height == k && x.rank == RankOf(items, k, otherwise)
            else RankOf(items, k, otherwise) == otherwise
  {
    if items != [] && items[0].height != k {
      RankFacts(items[1..], k, otherwise);
      assert forall x :: x in items[1..] ==> x in items;
    } else if items != [] {
      assert items[0] in items;
    }
  }

  // ---------- each step on any clock ----------

  lemma SameItem(items: seq<Item>, x: Item, y: Item)
    requires OneEach(items) && x in items && y in items && x.height == y.height
    ensures x == y
  {
    var i :| 0 <= i < |items| && items[i] == x;
    var j :| 0 <= j < |items| && items[j] == y;
  }

  lemma RankIsNew(r: Ref, k: int)
    requires OneEach(r.items) && forall x :: x in r.items ==> x.rank < r.next
    ensures var rank := RankOf(r.items, k, r.next);
      && rank < Used(r, k, 0).next
      && (forall y :: y in r.items && y.height != k ==> y.rank != rank)
      && (forall y :: y in r.items && y.height == k ==> y.rank == rank)
      && (!Has(r.items, k) ==> rank == r.next)
  {
    RankFacts(r.items, k, r.next);
    HasMember(r.items, k);
    var rank := RankOf(r.items, k, r.next);
    if Has(r.items, k) {
      var x :| x in r.items && x.height == k && x.rank == rank;
      forall y | y in r.items ensures y.height == k <==> y.rank == rank {
        if y.height == k { SameItem(r.items, x, y); }
        if y.rank == rank && y != x { SameRank(r.items, x, y); }
      }
    }
  }

  lemma SameRank(items: seq<Item>, x: Item, y: Item)
    requires OneEach(items) && x in items && y in items && x.rank == y.rank
    ensures x == y
  {
    var i :| 0 <= i < |items| && items[i] == x;
    var j :| 0 <= j < |items| && items[j] == y;
  }

  /** The list after a use: the old items of other heights, and the new one. */
  lemma UsedItems(r: Ref, k: int, now: int)
    requires Proper(r.items) && forall x :: x in r.items ==> x.rank < r.next
    ensures var u, x := Used(r, k, now), Item(k, now, RankOf(r.items, k, r.next));
      && Proper(u.items) && |u.items| == (if Has(r.items, k) then |r.items| else |r.items| + 1)
      && (forall y :: y in u.items <==> (y in r.items && y.height != k) || y == x)
      && x.rank < u.next && u.next >= r.next
  {
    RankIsNew(r, k);
    RemoveFacts(r.items, k);
    RemoveMembers(r.items, k);
    AddFacts(Remove(r.items, k), Item(k, now, RankOf(r.items, k, r.next)));
  }

  lemma SnocOrder(order: seq<int>, k: int, a: int, b: int)
    requires k !in order && ComesBefore(order + [k], a, b)
    ensures a != k && (ComesBefore(order, a, b) || b == k)
  {
    var i, j :| 0 <= i < j < |order + [k]| && (order + [k])[i] == a && (order + [k])[j] == b;
    assert order[i] == a;
    if j < |order| { assert order[j] == b; }
  }

  lemma UsedRanks(c: Cache, r: Ref, k: int, e: Entry)
    requires Agrees(c, r)
    ensures RanksFollowOrder(Set(c, k, e).order, Used(r, k, e.usedAt).items)
  {
    var order, u := Set(c, k, e).order, Used(r, k, e.usedAt);
    RankIsNew(r, k);
    UsedItems(r, k, e.usedAt);
    RankFacts(r.items, k, r.next);
    HasMember(r.items, k);
    forall x, y | x in u.items && y in u.items && ComesBefore(order, x.height, y.height) ensures x.rank < y.rank {
      if k in c.entries {
        var z :| z in r.items && z.height == k && z.rank == RankOf(r.items, k, r.next);
        var x0 := if x.height == k then z else x;
        var y0 := if y.height == k then z else y;
        assert x0 in r.items && y0 in r.items && x0.rank == x.rank && y0.rank == y.rank;
      } else {
        SnocOrder(c.order, k, x.height, y.height);
      }
    }
  }

  lemma UsedAgrees(c: Cache, r: Ref, k: int, e: Entry)
    requires Agrees(c, r)
    ensures Agrees(Set(c, k, e), Used(r, k, e.usedAt))
  {
    var u := Used(r, k, e.usedAt);
    SetValid(c, k, e);
    UsedItems(r, k, e.usedAt);
    UsedRanks(c, r, k, e);
    forall h ensures h in Set(c, k, e).entries <==> Has(u.items, h) {
      HasMember(u.items, h);
      HasMember(r.items, h);
      if h == k { assert Item(k, e.usedAt, RankOf(r.items, k, r.next)) in u.items; }
    }
  }

  lemma {:induction false} WithoutOrder(order: seq<int>, k: int, a: int, b: int)
    requires ComesBefore(Without(order, k), a, b)
    ensures ComesBefore(order, a, b)
  {
    if order != [] {
      var rest := Without(order[1..], k);
      var i, j :| 0 <= i < j < |Without(order, k)| && Without(order, k)[i] == a && Without(order, k)[j] == b;
      if order[0] == k || i > 0 {
        var shift := if order[0] == k then 0 else 1;
        assert rest[i - shift] == a && rest[j - shift] == b;
        WithoutOrder(order[1..], k, a, b);
        var m, n :| 0 <= m < n < |order[1..]| && order[1..][m] == a && order[1..][n] == b;
        assert order[m + 1] == a && order[n + 1] == b;
      } else {
        assert rest[j - 1] == b && b in order[1..];
        var n :| 0 <= n < |order[1..]| && order[1..][n] == b;
        assert order[0] == a && order[n + 1] == b;
      }
    }
  }

  lemma DropAgrees(c: Cache, r: Ref, k: int)
    requires Agrees(c, r)
    ensures Agrees(Delete(c, k), r.(items := Remove(r.items, k)))
  {
    DeleteValid(c, k);
    RemoveFacts(r.items, k);
    RemoveMembers(r.items, k);
    forall h ensures h in Delete(c, k).entries <==> Has(Remove(r.items, k), h) {
      HasMember(Remove(r.items, k), h);
      HasMember(r.items, h);
    }
    forall x, y | x in Remove(r.items, k) && y in Remove(r.items, k)
        && ComesBefore(Delete(c, k).order, x.height, y.height)
      ensures x.rank < y.rank
    {
      WithoutOrder(c.order, k, x.height, y.height);
    }
  }

  /** Among equally old heights the scan takes the one that comes first in map order. */
  lemma {:induction false} OldestIsFirst(order: seq<int>, entries: map<int, Entry>, k: int)
    requires order != [] && (forall k :: k in order ==> k in entries) && Distinct(order)
    requires k in order && k != Oldest(order, entries) && entries[k].usedAt == entries[Oldest(order, entries)].usedAt
    ensures ComesBefore(order, Oldest(order, entries), k)
    decreases |order|
  {
    var front, last := order[..|order| - 1], order[|order| - 1];
    assert order == front + [last];
    if |order| > 1 {
      var best := Oldest(front, entries);
      OldestIsLeast(front, entries);
      var i :| 0 <= i < |front| && front[i] == best;
      assert order[i] == best;
      if k == last {
        assert order[|order| - 1] == k;
      } else if Oldest(order, entries) == best {
        OldestIsFirst(front, entries, k);
        var a, b :| 0 <= a < b < |front| && front[a] == best && front[b] == k;
        assert order[a] == best && order[b] == k;
      }
    }
  }

  /** Five trees: the one evicted is the head of the list. */
  lemma HeadIsOldest(c: Cache, r: Ref)
    requires Agrees(c, r) && c.order != []
    ensures r.items != [] && Oldest(c.order, c.entries) == r.items[0].height
  {
    var gone := Oldest(c.order, c.entries);
    OldestIsLeast(c.order, c.entries);
    HasMember(r.items, gone);
    var x :| x in r.items && x.height == gone;
    var head := r.items[0];
    assert head in r.items && head.height in c.order;
    if head.height != gone {
      assert x in r.items[1..];
      HeadFirst(r.items, x);
      OldestIsFirst(c.order, c.entries, head.height);
    }
  }

  lemma {:induction false} RemoveHead(items: seq<Item>)
    requires items != [] && OneEach(items)
    ensures Remove(items, items[0].height) == items[1..]
  {
    assert forall j :: 0 <= j < |items[1..]| ==> items[1..][j] == items[j + 1];
    RemoveNone(items[1..], items[0].height);
  }

  lemma {:induction false} RemoveNone(items: seq<Item>, k: int)
    requires forall j :: 0 <= j < |items| ==> items[j].height != k
    ensures Remove(items, k) == items
  {
    if items != [] {
      assert forall j :: 0 <= j < |items[1..]| ==> items[1..][j] == items[j + 1];
      RemoveNone(items[1..], k);
    }
  }

  lemma EvictAgrees(c: Cache, r: Ref)
    requires Agrees(c, r) && |c.entries| == 5
    ensures Agrees(Evict(c), r.(items := r.items[1..]))
  {
    HeadIsOldest(c, r);
    var gone := Oldest(c.order, c.entries);
    DropAgrees(c, r, gone);
    RemoveHead(r.items);
    DeleteValid(c, gone);
    assert Evict(Delete(c, gone)) == Delete(c, gone);
  }

  lemma StepAgrees(c: Cache, r: Ref, e: Timed)
    requires Agrees(c, r) && |c.entries| <= BLOCK_TREE_CACHE_MAX
    ensures Agrees(Step(c, e), RefStep(r, e)) && |Step(c, e).entries| <= BLOCK_TREE_CACHE_MAX
  {
    match e.event
    case Store(k, root) =>
      UsedAgrees(c, r, k, Entry(root, e.at));
      UsedItems(r, k, e.at);
      if |Used(r, k, e.at).items| == 5 { EvictAgrees(Set(c, k, Entry(root, e.at)), Used(r, k, e.at)); }
    case Look(k) =>
      if k in c.entries {
        UsedAgrees(c, r, k, c.entries[k].(usedAt := e.at));
        UsedItems(r, k, e.at);
      }
    case Drop(k) =>
      DropAgrees(c, r, k);
      DeleteValid(c, k);
  }

  /**
   On every clock, forward or back, the cache holds at every moment what a list of at most four
   heights holds that is sorted by last use and then by insertion, and loses its head when full.
   */
  lemma {:induction false} CacheIsSortedList(events: seq<Timed>)
    ensures Agrees(Run(events), RefRun(events)) && |Run(events).entries| <= BLOCK_TREE_CACHE_MAX
    decreases |events|
  {
    if events != [] {
      CacheIsSortedList(events[..|events| - 1]);
      StepAgrees(Run(events[..|events| - 1]), RefRun(events[..|events| - 1]), events[|events| - 1]);
    }
  }

  /** A clock that may stand still but never goes back. */
  ghost predicate ClockRuns(events: seq<Timed>) {
    forall i, j :: 0 <= i <= j < |events| ==> events[i].at <= events[j].at
  }

  lemma {:induction false} StampsAreNotAhead(events: seq<Timed>, now: int)
    requires ClockRuns(events) && (events != [] ==> events[|events| - 1].at <= now)
    ensures forall k :: k in Run(events).entries ==> Run(events).entries[k].usedAt <= now
    decreases |events|
  {
    if events != [] {
      var front, e := events[..|events| - 1], events[|events| - 1];
      StampsAreNotAhead(front, e.at);
      CacheIsSortedList(front);
      StepStamps(Run(front), e, now);
    }
  }

  lemma StepStamps(c: Cache, e: Timed, now: int)
    requires Valid(c) && e.at <= now && forall k :: k in c.entries ==> c.entries[k].usedAt <= e.at
    ensures forall k :: k in Step(c, e).entries ==> Step(c, e).entries[k].usedAt <= now
  {
    match e.event
    case Store(k, root) => EvictSubset(Set(c, k, Entry(root, e.at)));
    case _ =>
  }

  lemma {:induction false} EvictSubset(c: Cache)
    requires Valid(c)
    ensures forall k :: k in Evict(c).entries ==> k in c.entries && Evict(c).entries[k] == c.entries[k]
    decreases |c.entries|
  {
    if |c.entries| > BLOCK_TREE_CACHE_MAX {
      var gone := Oldest(c.order, c.entries);
      DeleteValid(c, gone);
      EvictSubset(Delete(c, gone));
    }
  }

  /** So a tree that was just stored is found by a lookup in the same millisecond, or in any later one. */
  lemma {:induction false} StoredIsThere(events: seq<Timed>, k: int, root: string, now: int)
    requires ClockRuns(events) && (events != [] ==> events[|events| - 1].at <= now)
    ensures Get(Remember(Run(events), k, root, now), k, now).1 == Some(root)
  {
    CacheIsSortedList(events);
    StampsAreNotAhead(events, now);
    JustStored(Run(events), k, root, now);
  }

  lemma {:induction false} JustStored(c: Cache, k: int, root: string, now: int)
    requires Valid(c) && |c.entries| <= BLOCK_TREE_CACHE_MAX
    requires forall x :: x in c.entries ==> c.entries[x].usedAt <= now
    ensures Get(Remember(c, k, root, now), k, now).1 == Some(root)
  {
    var e := Entry(root, now);
    SetValid(c, k, e);
    EvictSubset(Set(c, k, e));
    if |c.entries| == BLOCK_TREE_CACHE_MAX && k !in c.entries {
      FullRememberEvictsOne(c, k, root, now);
      var x :| x in c.entries;
    } else {
      SetSize(c, k, e);
    }
  }

  lemma SetSize(c: Cache, k: int, e: Entry)
    requires Valid(c)
    ensures |Set(c, k, e).entries| == if k in c.entries then |c.entries| else |c.entries| + 1
  {
    assert Set(c, k, e).entries.Keys == c.entries.Keys + {k};
  }

  // ---------- the class ----------

  method FindOldest(order: seq<int>, entries: map<int, Entry>) returns (oldest: int)
    requires order != [] && forall k :: k in order ==> k in entries
    ensures oldest == Oldest(order, entries)
  {
    oldest := order[0];
    var oldestAt := entries[oldest].usedAt;
    for i := 1 to |order|
      invariant oldest == Oldest(order[..i], entries) && oldest in entries && oldestAt == entries[oldest].usedAt
    {
      var candidate := order[i];
      assert candidate in order && order[..i + 1][..i] == order[..i];
      if entries[candidate].usedAt < oldestAt { oldest, oldestAt := candidate, entries[candidate].usedAt; }
    }
    assert order[..|order|] == order;
  }

  class BlockTrees {
    var order: seq<int>
    var entries: map<int, Entry>

    ghost function State(): Cache
      reads this
    {
      Cache(order, entries)
    }

    constructor ()
      ensures State() == EMPTY
    {
      order, entries := [], map[];
    }

    method RememberBlockTree(height: int, root: string, now: int)
      requires Valid(State())
      modifies this
      ensures State() == Remember(old(State()), height, root, now)
    {
      SetValid(State(), height, Entry(root, now));
      if height !in entries { order := order + [height]; }
      entries := entries[height := Entry(root, now)];
      ghost var full := State();
      while |entries| > BLOCK_TREE_CACHE_MAX
        invariant Valid(State()) && Evict(State()) == Evict(full)
        decreases |entries|
      {
        var oldest := FindOldest(order, entries);
        DeleteValid(State(), oldest);
        order, entries := Without(order, oldest), entries - {oldest};
      }
    }

    method GetCachedBlockTree(height: int, now: int) returns (root: Option<string>)
      modifies this`entries
      ensures (State(), root) == Get(old(State()), height, now)
    {
      if height !in entries { return None; }
      root := Some(entries[height].root);
      entries := entries[height := entries[height].(usedAt := now)];
    }
  }
}
