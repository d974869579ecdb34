/**
 Splitting a communicator, after section 6.4.2 of MPI 3.1: the processes of one color, ordered by
 key and then by old rank. Duplication in the NCCL backend is a split with color 0 and key = rank.
 */
module SplitRanks {
  import opened Common
  import opened Pigeonhole

  /** What each process passes; no color means it joins no new communicator. */
  datatype Choice = Choice(color: Option<int>, key: int)

  predicate Before(choices: seq<Choice>, q: nat, r: nat)
    requires q < |choices| && r < |choices|
  {
    choices[q].key < choices[r].key || (choices[q].key == choices[r].key && q < r)
  }

  /** The old ranks below n of one color, in ascending order. */
  function Members(choices: seq<Choice>, color: int, n: nat): (m: seq<nat>)
    requires n <= |choices|
    ensures Below(m, n)
  {
    if n == 0 then []
    else
      var front := Members(choices, color, n - 1);
      if choices[n - 1].color == Some(color) then front + [n - 1] else front
  }

  lemma {:induction false} MembersAre(choices: seq<Choice>, color: int, n: nat, r: nat)
    requires n <= |choices| && r < |choices|
    ensures r in Members(choices, color, n) <==> r < n && choices[r].color == Some(color)
    ensures Distinct(Members(choices, color, n))
    decreases n
  {
    if n > 0 { MembersAre(choices, color, n - 1, r); }
  }

  function Group(choices: seq<Choice>, color: int): seq<nat> {
    Members(choices, color, |choices|)
  }

  /** How many of the members come before r. */
  function CountBefore(choices: seq<Choice>, members: seq<nat>, r: nat): nat
    requires Below(members, |choices|) && r < |choices|
  {
    if members == [] then 0
    else
      var n := |members| - 1;
      CountBefore(choices, members[..n], r) + if Before(choices, members[n], r) then 1 else 0
  }

  /** A process's rank in its new communicator. */
  function NewRank(choices: seq<Choice>, r: nat): nat
    requires r < |choices| && choices[r].color.Some?
  {
    CountBefore(choices, Group(choices, choices[r].color.value), r)
  }

  lemma {:induction false} CountBelow(choices: seq<Choice>, members: seq<nat>, r: nat)
    requires Below(members, |choices|) && r < |choices|
    ensures CountBefore(choices, members, r) <= |members| - if r in members then 1 else 0
    decreases |members|
  {
    if members != [] {
      var n := |members| - 1;
      CountBelow(choices, members[..n], r);
      assert members == members[..n] + [members[n]];
    }
  }

  lemma {:induction false} CountGrows(choices: seq<Choice>, members: seq<nat>, q: nat, r: nat)
    requires Below(members, |choices|) && q < |choices| && r < |choices| && Before(choices, q, r) && Distinct(members)
    ensures CountBefore(choices, members, q) + (if q in members then 1 else 0) <= CountBefore(choices, members, r)
    decreases |members|
  {
    if members != [] {
      var n := |members| - 1;
      CountGrows(choices, members[..n], q, r);
      assert members == members[..n] + [members[n]];
    }
  }

  /** New ranks follow the key, then the old rank, and lie below the size of the group. */
  lemma RankOrder(choices: seq<Choice>, color: int, q: nat, r: nat)
    requires q < |choices| && r < |choices| && choices[q].color == choices[r].color == Some(color)
    ensures NewRank(choices, r) < |Group(choices, color)|
    ensures NewRank(choices, q) < NewRank(choices, r)
      <==> choices[q].key < choices[r].key || (choices[q].key == choices[r].key && q < r)
    ensures NewRank(choices, q) == NewRank(choices, r) <==> q == r
  {
    var g := Group(choices, color);
    MembersAre(choices, color, |choices|, q);
    MembersAre(choices, color, |choices|, r);
    CountBelow(choices, g, r);
    if Before(choices, q, r) { CountGrows(choices, g, q, r); }
    if Before(choices, r, q) { CountGrows(choices, g, r, q); }
  }

  function Ranks(choices: seq<Choice>, members: seq<nat>): (r: seq<nat>)
    requires forall k :: 0 <= k < |members| ==> members[k] < |choices| && choices[members[k]].color.Some?
    ensures |r| == |members| && forall k :: 0 <= k < |r| ==> r[k] == NewRank(choices, members[k])
  {
    if members == [] then []
    else Ranks(choices, members[..|members| - 1]) + [NewRank(choices, members[|members| - 1])]
  }

  /** Every rank below the group's size is some member's: the split numbers the group one to one. */
  lemma RankOnto(choices: seq<Choice>, color: int, v: nat) returns (r: nat)
    requires v < |Group(choices, color)|
    ensures r < |choices| && choices[r].color == Some(color) && NewRank(choices, r) == v
  {
    var g := Group(choices, color);
    forall k | 0 <= k < |g| ensures choices[g[k]].color == Some(color) {
      MembersAre(choices, color, |choices|, g[k]);
      assert g[k] in g;
    }
    MembersAre(choices, color, |choices|, g[0]);
    var ranks := Ranks(choices, g);
    forall a, b | 0 <= a < b < |ranks| ensures ranks[a] != ranks[b] { RankOrder(choices, color, g[a], g[b]); }
    forall a | 0 <= a < |ranks| ensures ranks[a] < |g| { RankOrder(choices, color, g[a], g[a]); }
    Covers(ranks, |g|, v);
    var k :| 0 <= k < |ranks| && ranks[k] == v;
    r := g[k];
  }

  // ---------------------------------------------------------------- duplication

  /** Every process of a communicator of size n passes color 0 and its own rank. */
  function DuplicateChoices(n: nat): (choices: seq<Choice>)
    ensures |choices| == n && forall r :: 0 <= r < n ==> choices[r] == Choice(Some(0), r)
  {
    if n == 0 then [] else DuplicateChoices(n - 1) + [Choice(Some(0), n - 1)]
  }

  lemma {:induction false} AllMembers(choices: seq<Choice>, n: nat)
    requires n <= |choices| && forall r :: 0 <= r < n ==> choices[r].color == Some(0)
    ensures |Members(choices, 0, n)| == n && forall k :: 0 <= k < n ==> Members(choices, 0, n)[k] == k
    decreases n
  {
    if n > 0 { AllMembers(choices, n - 1); }
  }

  lemma {:induction false} CountRanks(choices: seq<Choice>, members: seq<nat>, r: nat)
    requires Below(members, |choices|) && r < |choices|
    requires forall k :: 0 <= k < |members| ==> members[k] == k
    requires forall q :: 0 <= q < |choices| ==> choices[q].key == q
    ensures CountBefore(choices, members, r) == if r < |members| then r else |members|
    decreases |members|
  {
    if members != [] { CountRanks(choices, members[..|members| - 1], r); }
  }

  /** A duplicate has the size of the original and leaves every process its rank. */
  lemma DuplicateKeepsRanks(n: nat, r: nat)
    requires r < n
    ensures |Group(DuplicateChoices(n), 0)| == n && NewRank(DuplicateChoices(n), r) == r
  {
    AllMembers(DuplicateChoices(n), n);
    CountRanks(DuplicateChoices(n), Group(DuplicateChoices(n), 0), r);
  }
}
