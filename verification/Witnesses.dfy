/** Witness objects, the choice of the next schedule and its shuffle, as functions on values
    (witness_schedule.cpp, witness_objects.hpp). */
module Witnesses {
  import opened Common
  import opened VirtualTime
  import opened WitnessVotes

  const MAX_WITNESSES: nat := 21

  type Name = nat     // account_name_type compares as one big-endian integer
  const EMPTY: Name := 0

  datatype Kind = Top20 | Timeshare | NotScheduled

  datatype Props = Props(creationFee: int, blockSize: nat, interestRate: nat, subsidyLimit: nat)

  datatype Witness = Witness(owner: Name, keyed: bool, votes: nat, kind: Kind,
                             time: nat, lastUpdate: nat, position: nat,
                             version: nat, hardfork: Vote, props: Props)

  type Index = map<nat, Witness>

  /** Owners are distinct account names, votes are 63-bit and times 128-bit. */
  ghost predicate ValidIndex(ws: Index) {
    && (forall x <- ws :: ws[x].owner != EMPTY && ws[x].votes < 0x8000_0000_0000_0000 && ws[x].time < B128)
    && (forall x <- ws, y <- ws :: ws[x].owner == ws[y].owner ==> x == y)
  }

  /** The index by votes, highest first, then by name. */
  ghost predicate IsVoteOrder(ws: Index, order: seq<nat>) {
    && (forall x :: x in order <==> x in ws)
    && (forall i, j :: 0 <= i < j < |order| ==>
       order[i] in ws && order[j] in ws && Outranks(ws[order[i]], ws[order[j]]))
  }

  predicate Outranks(a: Witness, b: Witness) {
    a.votes > b.votes || (a.votes == b.votes && a.owner < b.owner)
  }

  // ---- The choice

  /** The members of a sequence that lie in a set, in order. */
  function Only(order: seq<nat>, s: set<nat>): seq<nat> {
    if order == [] then []
    else Only(order[..|order| - 1], s) + if order[|order| - 1] in s then [order[|order| - 1]] else []
  }

  function KeyedIds(ws: Index): set<nat> {
    set x | x in ws && ws[x].keyed
  }

  function Prefix<T>(s: seq<T>, n: nat): seq<T> {
    if n <= |s| then s[..n] else s
  }

  function Elected(ws: Index, byVote: seq<nat>, maxVoted: nat): seq<nat> {
    Prefix(Only(byVote, KeyedIds(ws)), maxVoted)
  }

  function Eligible(ws: Index, voted: seq<nat>): set<nat> {
    set x | x in ws && ws[x].keyed && x !in voted
  }

  /** The slots left to the witnesses that are not voted in. */
  function Slots(voted: seq<nat>): nat {
    if |voted| <= MAX_WITNESSES then MAX_WITNESSES - |voted| else 0
  }

  function LapsOf(ws: Index): map<nat, nat> {
    map x <- ws :: Lap(ws[x].votes)
  }

  function FieldOf(ws: Index, voted: seq<nat>, all: seq<nat>): Field {
    Field(all, LapsOf(ws), Eligible(ws, voted), Slots(voted))
  }

  function ClockOf(now: nat, ws: Index): Clock {
    Clock(now, map x <- ws :: ws[x].time)
  }

  function ProcessedSeq(ws: Index, voted: seq<nat>, byTime: seq<nat>): seq<nat> {
    byTime[..Reach(byTime, Eligible(ws, voted), Slots(voted))]
  }

  function Chosen(ws: Index, voted: seq<nat>, byTime: seq<nat>): seq<nat> {
    Only(ProcessedSeq(ws, voted, byTime), Eligible(ws, voted))
  }

  /** The ids of the next schedule, before the shuffle. */
  function Active(ws: Index, byVote: seq<nat>, byTime: seq<nat>, maxVoted: nat): seq<nat> {
    var voted := Elected(ws, byVote, maxVoted);
    voted + Chosen(ws, voted, byTime)
  }

  function Owners(ws: Index, ids: seq<nat>): seq<Name>
    requires forall x <- ids :: x in ws
  {
    seq(|ids|, i requires 0 <= i < |ids| => assert ids[i] in ids; ws[ids[i]].owner)
  }

  ghost predicate Distinct<T>(s: seq<T>) {
    forall i, j :: 0 <= i < j < |s| ==> s[i] != s[j]
  }

  lemma {:induction false} OnlyConcat(a: seq<nat>, b: seq<nat>, s: set<nat>)
    ensures Only(a + b, s) == Only(a, s) + Only(b, s)
  {
    if b == [] {
      assert a + b == a;
    } else {
      var n := |b| - 1;
      OnlyConcat(a, b[..n], s);
      assert (a + b)[..|a + b| - 1] == a + b[..n];
    }
  }

  lemma {:induction false} OnlyMembers(order: seq<nat>, s: set<nat>)
    ensures forall x :: x in Only(order, s) <==> x in order && x in s
    ensures |Only(order, s)| <= |order|
    ensures Distinct(order) ==> Distinct(Only(order, s))
  {
    if order != [] {
      var n := |order| - 1;
      OnlyMembers(order[..n], s);
      assert order == order[..n] + [order[n]];
    }
  }

  /** The loop over scheduled times fills no more than the free slots, and leaves one free only when it has
      processed everyone. */
  lemma {:induction false} SlotsFilled(order: seq<nat>, s: set<nat>, slots: nat)
    ensures var n := Reach(order, s, slots);
            |Only(order[..n], s)| <= slots && (n < |order| ==> |Only(order[..n], s)| == slots)
  {
    if order != [] && slots > 0 {
      var rest := if order[0] in s then slots - 1 else slots;
      var n := Reach(order[1..], s, rest);
      SlotsFilled(order[1..], s, rest);
      assert order[..n + 1] == [order[0]] + order[1..][..n];
      OnlyConcat([order[0]], order[1..][..n], s);
    }
  }

  lemma ElectedSound(ws: Index, byVote: seq<nat>, maxVoted: nat)
    requires IsVoteOrder(ws, byVote)
    ensures var voted := Elected(ws, byVote, maxVoted);
            Distinct(voted) && |voted| <= maxVoted && forall x <- voted :: x in KeyedIds(ws)
  {
    OrderIsDistinct(ws, byVote);
    OnlyMembers(byVote, KeyedIds(ws));
  }

  lemma ChosenSound(ws: Index, voted: seq<nat>, byTime: seq<nat>)
    requires Distinct(byTime)
    ensures var chosen := Chosen(ws, voted, byTime);
            Distinct(chosen) && |chosen| <= Slots(voted) && forall x <- chosen :: x in Eligible(ws, voted)
  {
    OnlyMembers(ProcessedSeq(ws, voted, byTime), Eligible(ws, voted));
    SlotsFilled(byTime, Eligible(ws, voted), Slots(voted));
  }

  lemma DistinctConcat<T>(a: seq<T>, b: seq<T>)
    requires Distinct(a) && Distinct(b) && forall x <- b :: x !in a
    ensures Distinct(a + b)
  {
    forall i, j | 0 <= i < j < |a + b| ensures (a + b)[i] != (a + b)[j] {
      if i < |a| <= j { assert b[j - |a|] in b; }
    }
  }

  /** The next schedule: no duplicates, every member keyed, at most the maximum, the elected a prefix of the keyed
      vote order. */
  lemma ActiveIsSound(ws: Index, byVote: seq<nat>, byTime: seq<nat>, maxVoted: nat)
    requires IsVoteOrder(ws, byVote) && Distinct(byTime) && maxVoted <= MAX_WITNESSES
    ensures var active := Active(ws, byVote, byTime, maxVoted);
            && Distinct(active) && |active| <= MAX_WITNESSES
            && (forall x <- active :: x in ws && ws[x].keyed)
            && Prefix(Only(byVote, KeyedIds(ws)), maxVoted) <= active
  {
    var voted := Elected(ws, byVote, maxVoted);
    ElectedSound(ws, byVote, maxVoted);
    ChosenSound(ws, voted, byTime);
    DistinctConcat(voted, Chosen(ws, voted, byTime));
  }

  lemma OrderIsDistinct(ws: Index, byVote: seq<nat>)
    requires IsVoteOrder(ws, byVote)
    ensures Distinct(byVote)
  {
    forall i, j | 0 <= i < j < |byVote| ensures byVote[i] != byVote[j] {
      assert Outranks(ws[byVote[i]], ws[byVote[j]]);
    }
  }

  /** The schedule is as full as it can be: either it has the maximum, or every keyed witness is in it. */
  lemma ActiveIsFull(ws: Index, byVote: seq<nat>, byTime: seq<nat>, maxVoted: nat)
    requires IsVoteOrder(ws, byVote) && (forall x :: x in byTime <==> x in ws) && maxVoted <= MAX_WITNESSES
    ensures var active := Active(ws, byVote, byTime, maxVoted);
            |active| == MAX_WITNESSES || forall x <- KeyedIds(ws) :: x in active
  {
    var voted := Elected(ws, byVote, maxVoted);
    var processed := ProcessedSeq(ws, voted, byTime);
    SlotsFilled(byTime, Eligible(ws, voted), Slots(voted));
    OnlyMembers(processed, Eligible(ws, voted));
    if |processed| == |byTime| {
      assert processed == byTime;
      forall x <- KeyedIds(ws) ensures x in Active(ws, byVote, byTime, maxVoted) {
        assert x in voted || x in Eligible(ws, voted);
      }
    }
  }

  /** Every elected witness outranks every keyed witness that is not elected. */
  lemma ElectedOutrank(ws: Index, byVote: seq<nat>, maxVoted: nat, x: nat, y: nat)
    requires IsVoteOrder(ws, byVote) && x in Elected(ws, byVote, maxVoted)
    requires y in KeyedIds(ws) && y !in Elected(ws, byVote, maxVoted)
    ensures x in ws && Outranks(ws[x], ws[y])
  {
    var keyed := Only(byVote, KeyedIds(ws));
    OnlyMembers(byVote, KeyedIds(ws));
    OnlyOrdered(ws, byVote, KeyedIds(ws));
    var i :| 0 <= i < |Elected(ws, byVote, maxVoted)| && Elected(ws, byVote, maxVoted)[i] == x;
    assert y in keyed;
    var j :| 0 <= j < |keyed| && keyed[j] == y;
    assert keyed[i] == x;
  }

  lemma {:induction false} OnlyOrdered(ws: Index, order: seq<nat>, s: set<nat>)
    requires forall x <- order :: x in ws
    requires forall i, j :: 0 <= i < j < |order| ==> Outranks(ws[order[i]], ws[order[j]])
    ensures var r := Only(order, s);
            (forall x <- r :: x in order) && forall i, j :: 0 <= i < j < |r| ==> Outranks(ws[r[i]], ws[r[j]])
  {
    if order != [] {
      var n := |order| - 1;
      var r := Only(order[..n], s);
      OnlyOrdered(ws, order[..n], s);
      forall x <- r ensures Outranks(ws[x], ws[order[n]]) {
        var i :| 0 <= i < n && order[..n][i] == x;
        assert order[i] == x;
      }
      var q := Only(order, s);
      assert q == r + if order[n] in s then [order[n]] else [];
      forall i, j | 0 <= i < j < |q| ensures Outranks(ws[q[i]], ws[q[j]]) {
        assert q[i] == r[i] && r[i] in r;
        if j < |r| { assert q[j] == r[j]; } else { assert q[j] == order[n]; }
      }
    }
  }

  // ---- The shuffle

  function Swap<T>(s: seq<T>, i: nat, j: nat): seq<T>
    requires i < |s| && j < |s|
  {
    s[i := s[j]][j := s[i]]
  }

  /** The shuffle from slot i on: each slot swaps with itself or a later one among the first n, picked by any
      generator. */
  function Shuffled<T>(s: seq<T>, i: nat, n: nat, random: nat -> nat): (r: seq<T>)
    requires i <= n <= |s|
    ensures |r| == |s|
    decreases n - i
  {
    if i == n then s else Shuffled(Swap(s, i, i + random(i) % (n - i)), i + 1, n, random)
  }

  lemma SwapPermutes<T>(s: seq<T>, i: nat, j: nat, n: nat)
    requires i < n <= |s| && j < n
    ensures multiset(Swap(s, i, j)[..n]) == multiset(s[..n]) && Swap(s, i, j)[n..] == s[n..]
  {
    assert Swap(s, i, j)[..n] == Swap(s[..n], i, j);
  }

  /** Whatever the generator yields, the shuffle permutes the first n slots and leaves the rest alone. */
  lemma {:induction false} ShufflePermutes<T>(s: seq<T>, i: nat, n: nat, random: nat -> nat)
    requires i <= n <= |s|
    ensures var r := Shuffled(s, i, n, random);
            |r| == |s| && multiset(r[..n]) == multiset(s[..n]) && r[n..] == s[n..]
    decreases n - i
  {
    if i < n {
      var j := i + random(i) % (n - i);
      SwapPermutes(s, i, j, n);
      ShufflePermutes(Swap(s, i, j), i + 1, n, random);
    }
  }

  /** From slot i on the shuffle draws nothing that belongs to an earlier slot. */
  lemma {:induction false} ShuffleAgrees<T>(s: seq<T>, i: nat, n: nat, f: nat -> nat, g: nat -> nat)
    requires i <= n <= |s| && forall k :: i <= k < n ==> f(k) == g(k)
    ensures Shuffled(s, i, n, f) == Shuffled(s, i, n, g)
    decreases n - i
  {
    if i < n { ShuffleAgrees(Swap(s, i, i + f(i) % (n - i)), i + 1, n, f, g); }
  }

  /** A generator with another draw for slot i. */
  ghost function Draw(i: nat, d: nat, rest: nat -> nat): nat -> nat { k => if k == i then d else rest(k) }

  lemma DrawSwaps<T>(s: seq<T>, i: nat, n: nat, j: nat, rest: nat -> nat)
    requires i <= j < n <= |s|
    ensures Shuffled(s, i, n, Draw(i, j - i, rest)) == Shuffled(Swap(s, i, j), i + 1, n, rest)
  {
    var random := Draw(i, j - i, rest);
    assert random(i) % (n - i) == j - i;
    ShuffleAgrees(Swap(s, i, j), i + 1, n, random, rest);
  }

  /** Two lists that agree before slot i and permute each other have the next entry of one further on in the other. */
  lemma NextEntry<T>(s: seq<T>, r: seq<T>, i: nat) returns (j: nat)
    requires i < |s| == |r| && multiset(r) == multiset(s) && r[..i] == s[..i]
    ensures i <= j < |s| && s[j] == r[i]
  {
    var x := r[i];
    assert s == s[..i] + s[i..] && r == r[..i] + r[i..];
    assert multiset(s)[x] == multiset(s[..i])[x] + multiset(s[i..])[x];
    assert multiset(r)[x] == multiset(r[..i])[x] + multiset(r[i..])[x];
    assert r[i..][0] == x && x in multiset(r[i..]);
    assert x in s[i..];
    j :| i <= j < |s| && s[j] == r[i];
  }

  /** Every permutation of the first n slots is reached: some generator shuffles the list into it. */
  lemma {:induction false} ShuffleReaches<T>(s: seq<T>, r: seq<T>, i: nat, n: nat) returns (random: nat -> nat)
    requires i <= n <= |s| == |r| && r[..i] == s[..i] && r[n..] == s[n..] && multiset(r[..n]) == multiset(s[..n])
    ensures Shuffled(s, i, n, random) == r
    decreases n - i
  {
    if i == n {
      random := _ => 0;
      assert s == s[..n] + s[n..] && r == r[..n] + r[n..];
    } else {
      var j := NextEntry(s[..n], r[..n], i) by { assert r[..n][..i] == r[..i] && s[..n][..i] == s[..i]; }
      SwapPermutes(s, i, j, n);
      assert r[..i + 1] == Swap(s, i, j)[..i + 1];
      var rest := ShuffleReaches(Swap(s, i, j), r, i + 1, n);
      DrawSwaps(s, i, n, j, rest);
      random := Draw(i, j - i, rest);
    }
  }

  lemma {:induction false} DistinctCounts<T>(s: seq<T>, x: T)
    ensures Distinct(s) ==> multiset(s)[x] <= 1
  {
    if s != [] {
      var n := |s| - 1;
      DistinctCounts(s[..n], x);
      assert s == s[..n] + [s[n]];
    }
  }

  /** A permutation of a list without duplicates has none. */
  lemma PermutedDistinct<T>(s: seq<T>, r: seq<T>)
    requires Distinct(s) && multiset(r) == multiset(s)
    ensures Distinct(r)
  {
    forall i, j | 0 <= i < j < |r| ensures r[i] != r[j] {
      DistinctCounts(s, r[i]);
      assert r == r[..j] + [r[j]] + r[j + 1..];
      assert r[i] in r[..j];
    }
  }

  // ---- Pay

  function Weight(kind: Kind, top: nat, share: nat): nat {
    match kind
    case Top20 => top
    case Timeshare => share
    case NotScheduled => 0
  }

  function TotalWeight(ws: Index, ids: seq<nat>, top: nat, share: nat): nat
    requires forall x <- ids :: x in ws
  {
    if ids == [] then 0
    else TotalWeight(ws, ids[..|ids| - 1], top, share) + Weight(ws[ids[|ids| - 1]].kind, top, share)
  }

  function Mark(ws: Index, ids: seq<nat>, kind: Kind): Index {
    map x <- ws :: if x in ids then ws[x].(kind := kind) else ws[x]
  }

  lemma OneMore(w: nat, n: nat)
    ensures w * (n + 1) == w * n + w
  {
  }

  lemma {:induction false} SameKindWeight(ws: Index, ids: seq<nat>, more: seq<nat>, kind: Kind, top: nat, share: nat)
    requires (forall x <- ids :: x in ws) && (forall x <- more :: x in ws && ws[x].kind == kind)
    ensures TotalWeight(ws, ids + more, top, share) ==
            TotalWeight(ws, ids, top, share) + Weight(kind, top, share) * |more|
  {
    if more == [] {
      assert ids + more == ids;
    } else {
      var n := |more| - 1;
      var last := more[n];
      var all := ids + more[..n];
      SameKindWeight(ws, ids, more[..n], kind, top, share);
      OneMore(Weight(kind, top, share), n);
      assert ids + more == all + [last];
      assert (all + [last])[..|all|] == all;
      assert ws[last].kind == kind;
    }
  }

  /** The pay normalisation factor is the sum of the weights of the scheduled witnesses. */
  lemma PayIsSum(ws: Index, voted: seq<nat>, chosen: seq<nat>, top: nat, share: nat)
    requires (forall x <- voted :: x in ws && x !in chosen) && (forall x <- chosen :: x in ws)
    ensures var ws' := Mark(Mark(ws, voted, Top20), chosen, Timeshare);
            TotalWeight(ws', voted + chosen, top, share) == top * |voted| + share * |chosen|
  {
    var ws' := Mark(Mark(ws, voted, Top20), chosen, Timeshare);
    SameKindWeight(ws', [], voted, Top20, top, share);
    assert [] + voted == voted;
    SameKindWeight(ws', voted, chosen, Timeshare, top, share);
  }

  // ---- Times

  function Retime(ws: Index, processed: seq<nat>, t: nat): Index {
    map x <- ws ::
      if x in processed then ws[x].(position := 0, lastUpdate := t, time := t + Lap(ws[x].votes)) else ws[x]
  }

  function ResetTimes(ws: Index): Index {
    map x <- ws :: ws[x].(position := 0, lastUpdate := 0, time := Lap(ws[x].votes))
  }

  predicate TimeOverflows(ws: Index, processed: seq<nat>, t: nat)
    requires forall x <- processed :: x in ws
  {
    exists x <- processed :: t + Lap(ws[x].votes) >= B128
  }

  /** Adding 128-bit numbers wraps to less than the first exactly when the sum does not fit. */
  lemma WrapsBelow(a: nat, b: nat)
    requires a < B128 && b < B128
    ensures (a + b) % B128 < a <==> a + b >= B128
    ensures a + b < B128 ==> (a + b) % B128 == a + b
  {
    if a + b >= B128 { assert (a + b) % B128 == a + b - B128; }
  }
}
