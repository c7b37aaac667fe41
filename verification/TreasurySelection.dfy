/**
 Which treasury outputs a multi-input spend takes (`acquireMany`), and why no other choice
 from the rows it reads would do with fewer.
 */
module TreasurySelection {
  import opened Options

  datatype Outpoint = Outpoint(txid: string, vout: int)

  datatype Coin = Coin(id: Outpoint, sats: int)

  ghost predicate LargestFirst(list: seq<Coin>) {
    forall i, j :: 0 <= i <= j < |list| ==> list[i].sats >= list[j].sats
  }

  ghost predicate NoRepeats(list: seq<Coin>) {
    forall i, j :: 0 <= i < j < |list| ==> list[i] != list[j]
  }

  function Total(list: seq<Coin>): int {
    if list == [] then 0 else Total(list[..|list| - 1]) + list[|list| - 1].sats
  }

  function Members(list: seq<Coin>): set<Coin> { set x | x in list }

  /** The value of a choice of coins from a list without repetitions. */
  function Value(list: seq<Coin>, choice: set<Coin>): int {
    if list == [] then 0
    else Value(list[..|list| - 1], choice) + if list[|list| - 1] in choice then list[|list| - 1].sats else 0
  }

  /** A choice of 1..cap coins that pays `minSats` and the fee its own size costs. */
  ghost predicate Covers(list: seq<Coin>, choice: set<Coin>, minSats: int, fee: nat -> int) {
    choice != {} && choice <= Members(list) && Value(list, choice) >= minSats + fee(|choice|)
  }

  /** The first `n` coins cover the spend and the fee of taking `n`. */
  predicate Pays(list: seq<Coin>, n: nat, minSats: int, fee: nat -> int)
    requires n <= |list|
  {
    Total(list[..n]) >= minSats + fee(n)
  }

  /** The first prefix size at or after `k` that pays for itself, up to `cap`. */
  function FirstCover(list: seq<Coin>, k: nat, cap: nat, minSats: int, fee: nat -> int): Option<nat>
    decreases cap - k
  {
    if k > cap || k > |list| then None
    else if k > 0 && Pays(list, k, minSats, fee) then Some(k)
    else FirstCover(list, k + 1, cap, minSats, fee)
  }

  lemma {:induction false} FirstCoverIsFirst(list: seq<Coin>, k: nat, cap: nat, minSats: int, fee: nat -> int)
    ensures var r := FirstCover(list, k, cap, minSats, fee);
      && (r.Some? ==> k <= r.value <= cap && 0 < r.value <= |list|
                      && Pays(list, r.value, minSats, fee))
      && forall n :: k <= n <= cap && 0 < n <= |list| && (r.Some? ==> n < r.value) ==> !Pays(list, n, minSats, fee)
    decreases cap - k
  {
    if k <= cap && k <= |list| && !(k > 0 && Pays(list, k, minSats, fee)) {
      FirstCoverIsFirst(list, k + 1, cap, minSats, fee);
    }
  }

  lemma {:induction false} ValueOfOthers(list: seq<Coin>, choice: set<Coin>, x: Coin)
    requires x !in list
    ensures Value(list, choice) == Value(list, choice - {x})
  {
    if list != [] { ValueOfOthers(list[..|list| - 1], choice, x); }
  }

  lemma TotalGrows(list: seq<Coin>, k: nat)
    requires k < |list|
    ensures Total(list[..k + 1]) == Total(list[..k]) + list[k].sats
  {
    assert list[..k + 1][..k] == list[..k];
  }

  lemma WithoutLast(list: seq<Coin>, choice: set<Coin>)
    requires NoRepeats(list) && list != [] && choice <= Members(list)
    ensures var front, last := list[..|list| - 1], list[|list| - 1];
      && last !in front && choice - {last} <= Members(front)
      && |choice| == |choice - {last}| + (if last in choice then 1 else 0)
  {
    var last := list[|list| - 1];
    if last in choice { assert choice == (choice - {last}) + {last}; } else { assert choice == choice - {last}; }
  }

  /** No choice of k coins is worth more than the k largest. */
  lemma {:induction false} LargestAreWorthMost(list: seq<Coin>, choice: set<Coin>)
    requires LargestFirst(list) && NoRepeats(list) && choice <= Members(list)
    ensures |choice| <= |list| && Value(list, choice) <= Total(list[..|choice|])
    decreases |list|
  {
    if list == [] {
      assert choice == {};
    } else {
      var front, last := list[..|list| - 1], list[|list| - 1];
      var rest := choice - {last};
      WithoutLast(list, choice);
      LargestAreWorthMost(front, rest);
      ValueOfOthers(front, choice, last);
      assert front[..|rest|] == list[..|rest|];
      if last in choice { TotalGrows(list, |rest|); }
    }
  }

  lemma LargestPay(list: seq<Coin>, choice: set<Coin>, minSats: int, fee: nat -> int)
    requires LargestFirst(list) && NoRepeats(list) && Covers(list, choice, minSats, fee)
    ensures 0 < |choice| <= |list| && Pays(list, |choice|, minSats, fee)
  {
    LargestAreWorthMost(list, choice);
  }

  /** A greedy success is a cover, and no cover is smaller. */
  lemma GreedyIsFewest(list: seq<Coin>, cap: nat, minSats: int, fee: nat -> int, choice: set<Coin>)
    requires LargestFirst(list) && NoRepeats(list) && FirstCover(list, 0, cap, minSats, fee).Some?
    ensures var k := FirstCover(list, 0, cap, minSats, fee).value;
      && 0 < k <= |list| && k <= cap
      && Total(list[..k]) >= minSats + fee(k)
      && (Covers(list, choice, minSats, fee) ==> k <= |choice|)
  {
    FirstCoverIsFirst(list, 0, cap, minSats, fee);
    if Covers(list, choice, minSats, fee) { LargestPay(list, choice, minSats, fee); }
  }

  /** A greedy failure means no 1..cap coins of the list cover the requirement. */
  lemma GreedyFailureIsReal(list: seq<Coin>, cap: nat, minSats: int, fee: nat -> int, choice: set<Coin>)
    requires LargestFirst(list) && NoRepeats(list) && FirstCover(list, 0, cap, minSats, fee).None?
    requires |choice| <= cap
    ensures !Covers(list, choice, minSats, fee)
  {
    FirstCoverIsFirst(list, 0, cap, minSats, fee);
    if Covers(list, choice, minSats, fee) { LargestPay(list, choice, minSats, fee); }
  }
}
