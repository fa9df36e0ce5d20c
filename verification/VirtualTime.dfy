/** Virtual-time scheduling of the witnesses that are not voted in: one round, and whole runs of rounds with
    votes and keys fixed (witness_schedule.cpp). */
module VirtualTime {
  import opened Common

  const LAP: nat := B128 - 1     // STEEM_VIRTUAL_SCHEDULE_LAP_LENGTH2

  /** What does not change between rounds: all witness ids, the lap of each, those that may take a timeshare slot
      (keyed and not elected), and the number of such slots. */
  datatype Field = Field(all: seq<nat>, laps: map<nat, nat>, eligible: set<nat>, slots: nat)

  datatype Clock = Clock(now: nat, times: map<nat, nat>)

  function Lap(votes: nat): nat { LAP / (votes + 1) }

  ghost predicate ValidField(f: Field) {
    && (forall x :: x in f.all <==> x in f.laps)
    && f.eligible <= f.laps.Keys && f.slots > 0
    && (forall i, j :: 0 <= i < j < |f.all| ==> f.all[i] != f.all[j])
    && (forall x <- f.laps :: 0 < f.laps[x] < B128)
  }

  /** No scheduled time lies before the current virtual time. */
  ghost predicate ValidClock(f: Field, c: Clock) {
    && c.times.Keys == f.laps.Keys
    && (forall x <- c.times :: c.now <= c.times[x] < B128)
  }

  // ---- One round

  predicate Before(c: Clock, x: nat, y: nat)
    requires x in c.times && y in c.times
  {
    c.times[x] < c.times[y] || (c.times[x] == c.times[y] && x < y)
  }

  /** The index by schedule time: every witness once, in order of time and then id. */
  ghost predicate IsOrder(f: Field, c: Clock, order: seq<nat>) {
    && (forall x :: x in order <==> x in c.times)
    && (forall i, j :: 0 <= i < j < |order| ==>
       order[i] in c.times && order[j] in c.times && Before(c, order[i], order[j]))
  }

  /** How many witnesses the loop processes: until the free slots are filled, or all. */
  function Reach(order: seq<nat>, eligible: set<nat>, slots: nat): (n: nat)
    ensures n <= |order| && (slots > 0 && order != [] ==> n > 0)
    ensures n < |order| && slots > 0 ==> order[n - 1] in eligible
  {
    if order == [] || slots == 0 then 0
    else 1 + Reach(order[1..], eligible, if order[0] in eligible then slots - 1 else slots)
  }

  function Processed(f: Field, order: seq<nat>): set<nat> {
    set x | x in order[..Reach(order, f.eligible, f.slots)]
  }

  function Scheduled(f: Field, order: seq<nat>): set<nat> {
    Processed(f, order) * f.eligible
  }

  /** Adding a lap to the new time overflows 128 bits for some processed witness. */
  predicate Overflows(f: Field, processed: set<nat>, t: nat)
    requires processed <= f.laps.Keys
  {
    exists x <- processed :: t + f.laps[x] >= B128
  }

  function Reset(f: Field): Clock {
    Clock(0, f.laps)
  }

  function Advance(f: Field, c: Clock, processed: set<nat>, t: nat): Clock
    requires c.times.Keys == f.laps.Keys
  {
    Clock(t, map x <- c.times :: if x in processed then t + f.laps[x] else c.times[x])
  }

  /** The new virtual time: that of the last witness processed. */
  function NewTime(f: Field, c: Clock, order: seq<nat>): nat
    requires forall x <- order :: x in c.times
  {
    var n := Reach(order, f.eligible, f.slots);
    if n == 0 then c.now else c.times[order[n - 1]]
  }

  predicate Resets(f: Field, c: Clock, order: seq<nat>)
    requires c.times.Keys == f.laps.Keys && forall x <- order :: x in c.times
  {
    Overflows(f, Processed(f, order), NewTime(f, c, order))
  }

  /** The clock after a round. */
  function Round(f: Field, c: Clock, order: seq<nat>): Clock
    requires c.times.Keys == f.laps.Keys && forall x <- order :: x in c.times
  {
    if Resets(f, c, order) then Reset(f) else Advance(f, c, Processed(f, order), NewTime(f, c, order))
  }

  /** The lap of any 64-bit vote count is positive and fits 128 bits, and more votes never make it longer. */
  lemma LapRange(votes: nat, more: nat)
    requires votes <= more < 0x1_0000_0000_0000_0000
    ensures 0 < Lap(more) <= Lap(votes) < B128
  {
    FloorRange(LAP, votes + 1, more + 1);
  }

  lemma FloorRange(a: nat, d: nat, e: nat)
    requires 0 < d <= e <= a
    ensures 0 < a / e <= a / d <= a
  {
    var q, r := a / d, a / e;
    FloorBounds(a, d, q);
    FloorBounds(a, e, r);
    if r > q {
      ProductGrows(d, e, q + 1, r);
    }
    assert e * 1 == e;
    if q > a { ProductGrows(1, d, q, q); }
  }

  lemma FloorBounds(a: nat, d: nat, q: nat)
    requires d > 0 && q == a / d
    ensures d * q <= a < d * (q + 1)
  {
    assert a == d * (a / d) + a % d;
  }

  lemma ProductGrows(a: nat, b: nat, c: nat, d: nat)
    requires a <= b && c <= d
    ensures a * c <= b * d
  {
    assert a * c <= b * c <= b * d;
  }

  /** Whoever is not processed has its time no earlier than the last one processed. */
  lemma PastReach(f: Field, c: Clock, order: seq<nat>, n: nat, x: nat)
    requires IsOrder(f, c, order) && 0 < n <= |order| && x in c.times && x !in order[..n]
    ensures n < |order| && c.times[order[n - 1]] <= c.times[x]
  {
    assert order == order[..n] + order[n..];
    var i :| 0 <= i < |order[n..]| && order[n..][i] == x;
    assert Before(c, order[n - 1], order[n + i]);
  }

  /** What a round without a reset does: those processed, all due by the new time, move one lap past it, and
      everyone else stays where it is, due no earlier. */
  ghost predicate Turn(f: Field, c: Clock, c': Clock, processed: set<nat>) {
    && c.times.Keys == c'.times.Keys == f.laps.Keys
    && processed != {} && processed <= f.laps.Keys
    && (forall x <- processed :: c.times[x] <= c'.now && c'.times[x] == c'.now + f.laps[x])
    && (forall x <- c.times :: x !in processed ==> c'.now <= c.times[x] == c'.times[x])
  }

  lemma ProcessedInOrder(f: Field, c: Clock, order: seq<nat>)
    requires ValidField(f) && IsOrder(f, c, order) && order != []
    ensures var t := NewTime(f, c, order);
            && Processed(f, order) != {} && Processed(f, order) <= c.times.Keys && t in c.times.Values
            && (forall x <- c.times :: if x in Processed(f, order) then c.times[x] <= t else t <= c.times[x])
  {
    var n := Reach(order, f.eligible, f.slots);
    assert order[..n][n - 1] in Processed(f, order);
    forall x <- c.times
      ensures if x in Processed(f, order) then c.times[x] <= c.times[order[n - 1]]
              else c.times[order[n - 1]] <= c.times[x]
    {
      if x in Processed(f, order) {
        var i :| 0 <= i < n && order[..n][i] == x;
        assert i == n - 1 || Before(c, order[i], order[n - 1]);
      } else {
        PastReach(f, c, order, n, x);
      }
    }
  }

  lemma RoundIsTurn(f: Field, c: Clock, order: seq<nat>)
    requires ValidField(f) && ValidClock(f, c) && IsOrder(f, c, order) && order != [] && !Resets(f, c, order)
    ensures Turn(f, c, Round(f, c, order), Processed(f, order))
  {
    ProcessedInOrder(f, c, order);
  }

  /** Virtual time never runs backwards without a reset, and no scheduled time falls behind it. */
  lemma RoundKeeps(f: Field, c: Clock, order: seq<nat>)
    requires ValidField(f) && ValidClock(f, c) && IsOrder(f, c, order)
    ensures ValidClock(f, Round(f, c, order))
    ensures !Resets(f, c, order) ==> Round(f, c, order).now >= c.now
  {
    if order != [] && !Resets(f, c, order) {
      RoundIsTurn(f, c, order);
      ProcessedInOrder(f, c, order);
      assert forall x <- Processed(f, order) :: !(NewTime(f, c, order) + f.laps[x] >= B128);
    }
  }

  // ---- Waiting

  /** How often a witness with this lap can be processed before it has moved past the gap. */
  function Waits(gap: nat, lap: nat): nat
    requires lap > 0
  {
    if gap < lap then 1 else 1 + Waits(gap - lap, lap)
  }

  lemma {:induction false} WaitsMonotone(gap: nat, gap': nat, lap: nat)
    requires lap > 0 && gap <= gap'
    ensures Waits(gap, lap) <= Waits(gap', lap)
  {
    if gap >= lap { WaitsMonotone(gap - lap, gap' - lap, lap); }
  }

  /** How often x can still be processed before w must be. */
  function Ahead(f: Field, c: Clock, w: nat, x: nat): nat
    requires x in f.laps && x in c.times && w in c.times && f.laps[x] > 0
  {
    if x == w || c.times[x] > c.times[w] then 0 else Waits(c.times[w] - c.times[x], f.laps[x])
  }

  ghost function Rank(f: Field, c: Clock, w: nat, k: nat): nat
    requires ValidField(f) && ValidClock(f, c) && w in f.laps && k <= |f.all|
  {
    if k == 0 then 0
    else
      assert f.all[k - 1] in f.all;
      Rank(f, c, w, k - 1) + Ahead(f, c, w, f.all[k - 1])
  }

  /** In a round that leaves w waiting, nobody gains on it, and whoever is processed loses a turn. */
  lemma AheadShrinks(f: Field, c: Clock, c': Clock, processed: set<nat>, w: nat, x: nat)
    requires ValidField(f) && Turn(f, c, c', processed) && w in c.times && w !in processed && x in f.laps
    ensures Ahead(f, c', w, x) <= Ahead(f, c, w, x)
    ensures x in processed ==> Ahead(f, c', w, x) < Ahead(f, c, w, x)
  {
    var lap := f.laps[x];
    if x in processed && c'.times[x] <= c.times[w] {
      WaitsMonotone(c.times[w] - c'.times[x], c.times[w] - c.times[x] - lap, lap);
    }
  }

  lemma {:induction false} RankShrinks(f: Field, c: Clock, c': Clock, processed: set<nat>, w: nat, j: nat, k: nat)
    requires ValidField(f) && ValidClock(f, c) && ValidClock(f, c') && Turn(f, c, c', processed)
    requires w in c.times && w !in processed && j < |f.all| && f.all[j] in processed && k <= |f.all|
    ensures Rank(f, c', w, k) <= Rank(f, c, w, k)
    ensures j < k ==> Rank(f, c', w, k) < Rank(f, c, w, k)
  {
    if k > 0 {
      var last := f.all[k - 1];
      assert last in f.all;
      RankShrinks(f, c, c', processed, w, j, k - 1);
      AheadShrinks(f, c, c', processed, w, last);
    }
  }

  // ---- Runs

  /** A run from clock c: the orders the index shows in successive rounds. */
  ghost predicate Legal(f: Field, c: Clock, orders: seq<seq<nat>>)
    decreases |orders|
  {
    orders == [] ||
    (c.times.Keys == f.laps.Keys && IsOrder(f, c, orders[0]) && Legal(f, Round(f, c, orders[0]), orders[1..]))
  }

  ghost predicate Increasing(c: Clock, order: seq<nat>) {
    && (forall x <- order :: x in c.times)
    && (forall i, j :: 0 <= i < j < |order| ==> Before(c, order[i], order[j]))
  }

  lemma {:induction false} Earliest(c: Clock, ids: set<nat>) returns (x: nat)
    requires ids != {} && ids <= c.times.Keys
    ensures x in ids && forall y <- ids :: y != x ==> Before(c, x, y)
  {
    var first :| first in ids;
    x := first;
    if ids != {first} {
      var z := Earliest(c, ids - {first});
      if Before(c, z, first) { x := z; }
      forall y <- ids ensures y == first || y in ids - {first} {}
    }
  }

  lemma {:induction false} OrderOf(c: Clock, ids: set<nat>) returns (order: seq<nat>)
    requires ids <= c.times.Keys
    ensures (forall x :: x in order <==> x in ids) && Increasing(c, order)
  {
    order := [];
    if ids != {} {
      var x := Earliest(c, ids);
      var rest := OrderOf(c, ids - {x});
      order := [x] + rest;
      assert forall i :: 0 <= i < |rest| ==> rest[i] in rest;
    }
  }

  /** The index always has an order, so runs of any length exist from every clock. */
  lemma {:induction false} RunsExist(f: Field, c: Clock, n: nat) returns (orders: seq<seq<nat>>)
    requires c.times.Keys == f.laps.Keys
    ensures |orders| == n && Legal(f, c, orders)
    decreases n
  {
    orders := [];
    if n > 0 {
      var order := OrderOf(c, c.times.Keys);
      var rest := RunsExist(f, Round(f, c, order), n - 1);
      orders := [order] + rest;
    }
  }

  /** No round of the run overflows. */
  ghost predicate Quiet(f: Field, c: Clock, orders: seq<seq<nat>>)
    requires Legal(f, c, orders)
    decreases |orders|
  {
    orders == [] || (!Resets(f, c, orders[0]) && Quiet(f, Round(f, c, orders[0]), orders[1..]))
  }

  ghost predicate Unserved(f: Field, orders: seq<seq<nat>>, w: nat) {
    forall i :: 0 <= i < |orders| ==> w !in Scheduled(f, orders[i])
  }

  lemma ServedOr(f: Field, orders: seq<seq<nat>>, w: nat) returns (i: nat)
    ensures Unserved(f, orders, w) || (i < |orders| && w in Scheduled(f, orders[i]))
  {
    if !Unserved(f, orders, w) {
      i :| 0 <= i < |orders| && w in Scheduled(f, orders[i]);
    } else {
      i := 0;
    }
  }

  lemma WaitingRound(f: Field, c: Clock, order: seq<nat>, w: nat)
    requires ValidField(f) && ValidClock(f, c) && IsOrder(f, c, order) && !Resets(f, c, order)
    requires w in f.eligible && w !in Scheduled(f, order) && ValidClock(f, Round(f, c, order))
    ensures Rank(f, Round(f, c, order), w, |f.all|) < Rank(f, c, w, |f.all|)
  {
    RoundIsTurn(f, c, order);
    var c', processed := Round(f, c, order), Processed(f, order);
    var x :| x in processed;
    var j :| 0 <= j < |f.all| && f.all[j] == x;
    RankShrinks(f, c, c', processed, w, j, |f.all|);
  }

  /** While w waits, every round costs at least one turn of the rank. */
  lemma {:induction false} RankFalls(f: Field, c: Clock, orders: seq<seq<nat>>, w: nat)
    requires ValidField(f) && ValidClock(f, c) && Legal(f, c, orders) && Quiet(f, c, orders)
    requires w in f.eligible && Unserved(f, orders, w)
    ensures |orders| <= Rank(f, c, w, |f.all|)
    decreases |orders|
  {
    if orders != [] {
      assert w !in Scheduled(f, orders[0]);
      RoundKeeps(f, c, orders[0]);
      WaitingRound(f, c, orders[0], w);
      RankFalls(f, Round(f, c, orders[0]), orders[1..], w);
    }
  }

  /** No starvation: in a run without resets longer than its rank, every keyed witness that is not elected gets a
      slot. */
  lemma NoStarvation(f: Field, c: Clock, orders: seq<seq<nat>>, w: nat) returns (i: nat)
    requires ValidField(f) && ValidClock(f, c) && Legal(f, c, orders) && Quiet(f, c, orders)
    requires w in f.eligible && |orders| > Rank(f, c, w, |f.all|)
    ensures i < |orders| && w in Scheduled(f, orders[i])
  {
    i := ServedOr(f, orders, w);
    if Unserved(f, orders, w) { RankFalls(f, c, orders, w); }
  }

  /** The laps of x that fit into one lap of w, summed over all witnesses. */
  ghost function LapRatio(f: Field, w: nat, k: nat): nat
    requires ValidField(f) && w in f.laps && k <= |f.all|
  {
    if k == 0 then 0
    else
      assert f.all[k - 1] in f.all;
      LapRatio(f, w, k - 1) + Waits(f.laps[w], f.laps[f.all[k - 1]])
  }

  lemma {:induction false} RankAfterTurn(f: Field, c: Clock, w: nat, k: nat)
    requires ValidField(f) && ValidClock(f, c) && w in f.laps && k <= |f.all|
    requires c.times[w] == c.now + f.laps[w]
    ensures Rank(f, c, w, k) <= LapRatio(f, w, k)
  {
    if k > 0 {
      RankAfterTurn(f, c, w, k - 1);
      var x := f.all[k - 1];
      assert x in f.all;
      if c.times[x] <= c.times[w] { WaitsMonotone(c.times[w] - c.times[x], f.laps[w], f.laps[x]); }
    }
  }

  lemma TurnResetsWait(f: Field, c: Clock, order: seq<nat>, w: nat)
    requires ValidField(f) && ValidClock(f, c) && IsOrder(f, c, order) && !Resets(f, c, order) &&
             w in Scheduled(f, order)
    ensures ValidClock(f, Round(f, c, order))
    ensures Rank(f, Round(f, c, order), w, |f.all|) <= LapRatio(f, w, |f.all|)
  {
    RoundKeeps(f, c, order);
    RoundIsTurn(f, c, order);
    RankAfterTurn(f, Round(f, c, order), w, |f.all|);
  }

  /** Fairness: after a turn, a witness waits at most as many rounds as laps of all the others fit into its own. */
  lemma NextTurn(f: Field, c: Clock, orders: seq<seq<nat>>, w: nat) returns (i: nat)
    requires ValidField(f) && ValidClock(f, c) && Legal(f, c, orders) && Quiet(f, c, orders)
    requires w in f.eligible && |orders| > LapRatio(f, w, |f.all|) + 1 && w in Scheduled(f, orders[0])
    ensures 0 < i < |orders| && w in Scheduled(f, orders[i])
  {
    var c' := Round(f, c, orders[0]);
    TurnResetsWait(f, c, orders[0], w);
    assert Legal(f, c', orders[1..]) && Quiet(f, c', orders[1..]);
    i := NoStarvation(f, c', orders[1..], w);
    i := i + 1;
  }

  // ---- Resets

  /** The clock of a witness that has been waiting since the last reset. */
  ghost predicate SinceReset(f: Field, c: Clock, w: nat) {
    ValidClock(f, c) && w in f.laps && c.times[w] == f.laps[w] && forall x <- c.times :: f.laps[x] <= c.times[x]
  }

  lemma ResetIsValid(f: Field, w: nat)
    requires ValidField(f) && w in f.laps
    ensures SinceReset(f, Reset(f), w)
  {
  }

  /** While a witness with a vote waits after a reset, no further reset happens. */
  lemma NoResetWhileWaiting(f: Field, c: Clock, order: seq<nat>, w: nat)
    requires ValidField(f) && IsOrder(f, c, order) && SinceReset(f, c, w) && 2 * f.laps[w] <= LAP
    requires w in f.eligible && w !in Scheduled(f, order)
    ensures !Resets(f, c, order) && SinceReset(f, Round(f, c, order), w)
  {
    ProcessedInOrder(f, c, order);
    assert forall x <- Processed(f, order) :: f.laps[x] <= NewTime(f, c, order) <= f.laps[w];
    assert !Resets(f, c, order);
    RoundKeeps(f, c, order);
  }

  lemma {:induction false} WaitSinceReset(f: Field, c: Clock, orders: seq<seq<nat>>, w: nat)
    requires ValidField(f) && Legal(f, c, orders) && SinceReset(f, c, w) && 2 * f.laps[w] <= LAP
    requires w in f.eligible && Unserved(f, orders, w)
    ensures |orders| <= Rank(f, c, w, |f.all|)
    decreases |orders|
  {
    if orders != [] {
      assert w !in Scheduled(f, orders[0]);
      NoResetWhileWaiting(f, c, orders[0], w);
      WaitingRound(f, c, orders[0], w);
      WaitSinceReset(f, Round(f, c, orders[0]), orders[1..], w);
    }
  }

  lemma {:induction false} WaitAcrossReset(f: Field, c: Clock, orders: seq<seq<nat>>, w: nat)
    requires ValidField(f) && ValidClock(f, c) && ValidClock(f, Reset(f)) && Legal(f, c, orders)
    requires w in f.eligible && 2 * f.laps[w] <= LAP && Unserved(f, orders, w)
    ensures |orders| <= Rank(f, c, w, |f.all|) + 1 + Rank(f, Reset(f), w, |f.all|)
    decreases |orders|
  {
    if orders != [] {
      assert w !in Scheduled(f, orders[0]);
      if Resets(f, c, orders[0]) {
        ResetIsValid(f, w);
        WaitSinceReset(f, Reset(f), orders[1..], w);
      } else {
        RoundKeeps(f, c, orders[0]);
        WaitingRound(f, c, orders[0], w);
        WaitAcrossReset(f, Round(f, c, orders[0]), orders[1..], w);
      }
    }
  }

  /** Over any run, resets included, every keyed witness with at least one vote that is not elected gets a slot. */
  lemma EveryVoteCounts(f: Field, c: Clock, orders: seq<seq<nat>>, w: nat) returns (i: nat)
    requires ValidField(f) && ValidClock(f, c) && ValidClock(f, Reset(f)) && Legal(f, c, orders)
    requires w in f.eligible && 2 * f.laps[w] <= LAP
    requires |orders| > Rank(f, c, w, |f.all|) + 1 + Rank(f, Reset(f), w, |f.all|)
    ensures i < |orders| && w in Scheduled(f, orders[i])
  {
    i := ServedOr(f, orders, w);
    if Unserved(f, orders, w) { WaitAcrossReset(f, c, orders, w); }
  }

  const HALF: nat := 0x7FFF_FFFF_FFFF_FFFF_FFFF_FFFF_FFFF_FFFF

  lemma LapValues(votes: nat)
    requires 2 <= votes < 0x1_0000_0000_0000_0000
    ensures Lap(0) == LAP && Lap(1) == HALF && 0 < Lap(votes) < HALF
    ensures 2 * Lap(1) <= LAP && 2 * Lap(votes) <= LAP
  {
    LapRange(2, votes);
  }

  /** One free slot, wanted by a witness with one vote and one with none; all the elected have more votes. */
  ghost predicate TwoRivals(f: Field, one: nat, none: nat) {
    && ValidField(f) && f.slots == 1 && f.eligible == {one, none} && one != none
    && f.laps[one] == HALF && f.laps[none] == LAP
    && forall x <- f.laps :: x !in f.eligible ==> f.laps[x] < HALF
  }

  lemma {:induction false} ReachOne(order: seq<nat>, eligible: set<nat>, i: nat)
    requires i < |order| && order[i] in eligible && forall j :: 0 <= j < i ==> order[j] !in eligible
    ensures Reach(order, eligible, 1) == i + 1
  {
    if i > 0 { ReachOne(order[1..], eligible, i - 1); }
  }

  /** The two rivals are the last of the order, the one with a vote first. */
  ghost predicate RivalsLast(c: Clock, one: nat, none: nat) {
    && one in c.times && none in c.times && one != none && c.times[one] < c.times[none]
    && forall x <- c.times :: x != one && x != none ==> c.times[x] < c.times[one]
  }

  lemma LastIsGreatest(c: Clock, order: seq<nat>, x: nat)
    requires Increasing(c, order) && x in order
    ensures order[|order| - 1] in order && c.times[x] <= c.times[order[|order| - 1]]
  {
    var i :| 0 <= i < |order| && order[i] == x;
    if i < |order| - 1 { assert Before(c, order[i], order[|order| - 1]); }
  }

  lemma LatestIsLast(c: Clock, order: seq<nat>, x: nat)
    requires Increasing(c, order) && x in order && forall y <- order :: y != x ==> c.times[y] < c.times[x]
    ensures order[|order| - 1] == x && x !in order[..|order| - 1]
  {
    var n := |order| - 1;
    LastIsGreatest(c, order, x);
    assert order[n] in order;
    forall j | 0 <= j < n ensures order[j] != x { assert Before(c, order[j], order[n]); }
  }

  lemma RivalsAtEnd(c: Clock, order: seq<nat>, one: nat, none: nat)
    requires Increasing(c, order) && one in order && none in order && RivalsLast(c, one, none)
    ensures |order| >= 2 && order[|order| - 2] == one && order[|order| - 1] == none
    ensures forall i :: 0 <= i < |order| - 2 ==> order[i] != one && order[i] != none
  {
    var n := |order| - 1;
    var front := order[..n];
    LatestIsLast(c, order, none);
    assert order == front + [none];
    assert one in front;
    assert Increasing(c, front);
    LatestIsLast(c, front, one);
    forall i | 0 <= i < n - 1 ensures order[i] != one && order[i] != none {
      assert order[i] == front[i] == front[..n - 1][i];
    }
  }

  lemma AllButLast(order: seq<nat>, keys: set<nat>, n: nat)
    requires |order| == n + 1 && order[n] !in order[..n] && forall x :: x in order <==> x in keys
    ensures (set x | x in order[..n]) == keys - {order[n]}
  {
    assert order == order[..n] + [order[n]];
    assert forall x :: x in order <==> x in order[..n] || x == order[n];
  }

  lemma LastIsLeftOut(f: Field, c: Clock, order: seq<nat>, one: nat, none: nat)
    requires f.slots == 1 && f.eligible == {one, none} && IsOrder(f, c, order) && RivalsLast(c, one, none)
    ensures Processed(f, order) == c.times.Keys - {none} && NewTime(f, c, order) == c.times[one]
  {
    assert Increasing(c, order);
    RivalsAtEnd(c, order, one, none);
    ReachOne(order, f.eligible, |order| - 2);
    AllButLast(order, c.times.Keys, |order| - 1);
  }

  function AfterReset(f: Field, none: nat): Clock
    requires none in f.laps
  {
    Clock(HALF, map x <- f.laps :: if x == none then LAP else HALF + f.laps[x])
  }

  lemma ResetShape(f: Field, one: nat, none: nat)
    requires TwoRivals(f, one, none)
    ensures RivalsLast(Reset(f), one, none) && Reset(f).times.Keys == f.laps.Keys && Reset(f).times[one] == HALF
    ensures !Overflows(f, f.laps.Keys - {none}, HALF)
    ensures Advance(f, Reset(f), f.laps.Keys - {none}, HALF) == AfterReset(f, none)
  {
  }

  lemma RoundFromReset(f: Field, c: Clock, order: seq<nat>, one: nat, none: nat)
    requires TwoRivals(f, one, none) && c == Reset(f) && IsOrder(f, c, order)
    ensures none !in Scheduled(f, order) && c.times.Keys == f.laps.Keys && Round(f, c, order) == AfterReset(f, none)
  {
    ResetShape(f, one, none);
    LastIsLeftOut(f, c, order, one, none);
    assert !Resets(f, c, order);
  }

  lemma RoundToReset(f: Field, order: seq<nat>, one: nat, none: nat)
    requires TwoRivals(f, one, none) && IsOrder(f, AfterReset(f, none), order)
    ensures none !in Scheduled(f, order) && Round(f, AfterReset(f, none), order) == Reset(f)
  {
    var c := AfterReset(f, none);
    LastIsLeftOut(f, c, order, one, none);
    assert one in Processed(f, order) && c.times[one] + f.laps[one] >= B128;
  }

  lemma UnservedLonger(f: Field, orders: seq<seq<nat>>, w: nat)
    requires orders != [] && w !in Scheduled(f, orders[0]) && Unserved(f, orders[1..], w)
    ensures Unserved(f, orders, w)
  {
    assert forall i :: 0 < i < |orders| ==> orders[i] == orders[1..][i - 1];
  }

  /** Across overflow resets a witness without votes can starve: in no run from a reset does it get the slot. */
  lemma {:induction false} ResetsStarve(f: Field, c: Clock, orders: seq<seq<nat>>, one: nat, none: nat)
    requires TwoRivals(f, one, none) && (c == Reset(f) || c == AfterReset(f, none)) && Legal(f, c, orders)
    ensures Unserved(f, orders, none)
    decreases |orders|
  {
    if orders != [] {
      if c == Reset(f) {
        RoundFromReset(f, c, orders[0], one, none);
      } else {
        RoundToReset(f, orders[0], one, none);
      }
      ResetsStarve(f, Round(f, c, orders[0]), orders[1..], one, none);
      UnservedLonger(f, orders, none);
    }
  }

  /** Such a field: twenty elected witnesses with two votes each, and one slot left. */
  lemma RivalsExist()
    ensures exists f, one, none :: TwoRivals(f, one, none) && |f.all| == 22
  {
    LapValues(2);
    var all := seq(22, i => i);
    var laps: map<nat, nat> := map x | x in all :: if x < 20 then Lap(2) else if x == 20 then HALF else LAP;
    assert all[20] in laps && all[21] in laps;
    assert TwoRivals(Field(all, laps, {20, 21}, 1), 20, 21);
  }
}
