/** What votes buy: the turns of the witnesses that are not voted in, over runs without a reset
    (witness_schedule.cpp). */
module VoteShares {
  import opened Common
  import opened VirtualTime
  import opened Witnesses
  import opened WitnessRounds

  // ---- Laps

  /** A lap is the lap length divided among the votes and one more, rounded down. */
  lemma LapIsShare(votes: nat)
    ensures (votes + 1) * Lap(votes) <= LAP < (votes + 1) * (Lap(votes) + 1)
  {
    FloorBounds(LAP, votes + 1, Lap(votes));
  }

  // ---- Turns and times

  /** How often a witness is processed. */
  function Turns(f: Field, orders: seq<seq<nat>>, x: nat): nat {
    if orders == [] then 0 else (if x in Processed(f, orders[0]) then 1 else 0) + Turns(f, orders[1..], x)
  }

  ghost function Final(f: Field, c: Clock, orders: seq<seq<nat>>): Clock
    requires Legal(f, c, orders)
    decreases |orders|
  {
    if orders == [] then c else Final(f, Round(f, c, orders[0]), orders[1..])
  }

  /** How long after its scheduled times a witness has its turns, altogether. */
  ghost function Late(f: Field, c: Clock, orders: seq<seq<nat>>, x: nat): int
    requires Legal(f, c, orders)
    decreases |orders|
  {
    if orders == [] then 0
    else
      (if x in Processed(f, orders[0]) && x in c.times then Round(f, c, orders[0]).now - c.times[x] else 0)
      + Late(f, Round(f, c, orders[0]), orders[1..], x)
  }

  /** The laps of its turns, added up. */
  function Covered(f: Field, orders: seq<seq<nat>>, x: nat): nat
    requires x in f.laps
  {
    if orders == [] then 0
    else (if x in Processed(f, orders[0]) then f.laps[x] else 0) + Covered(f, orders[1..], x)
  }

  lemma {:induction false} CoveredIsTurns(f: Field, orders: seq<seq<nat>>, x: nat)
    requires x in f.laps
    ensures Covered(f, orders, x) == Turns(f, orders, x) * f.laps[x]
  {
    if orders != [] {
      CoveredIsTurns(f, orders[1..], x);
      OneMore(f.laps[x], Turns(f, orders[1..], x));
    }
  }

  /** Every turn moves the scheduled time by a lap and by what it is late; so over a run. */
  lemma {:induction false} TurnsMoveTime(f: Field, c: Clock, orders: seq<seq<nat>>, x: nat)
    requires ValidField(f) && ValidClock(f, c) && Legal(f, c, orders) && Quiet(f, c, orders) && x in f.laps
    ensures ValidClock(f, Final(f, c, orders)) && Late(f, c, orders, x) >= 0
    ensures Final(f, c, orders).times[x] == c.times[x] + Covered(f, orders, x) + Late(f, c, orders, x)
    decreases |orders|
  {
    if orders != [] {
      var c' := Round(f, c, orders[0]);
      RoundKeeps(f, c, orders[0]);
      assert x in orders[0];
      RoundIsTurn(f, c, orders[0]);
      TurnsMoveTime(f, c', orders[1..], x);
    }
  }

  /** At most one lap ahead of the virtual time. */
  ghost predicate WithinLap(f: Field, c: Clock, x: nat) {
    x in f.laps && x in c.times && c.times[x] <= c.now + f.laps[x]
  }

  /** Once within a lap always within a lap, and every turn leads there. */
  lemma {:induction false} StaysWithinLap(f: Field, c: Clock, orders: seq<seq<nat>>, x: nat)
    requires ValidField(f) && ValidClock(f, c) && Legal(f, c, orders) && Quiet(f, c, orders) && x in f.laps
    requires WithinLap(f, c, x) || Turns(f, orders, x) > 0
    ensures WithinLap(f, Final(f, c, orders), x)
    decreases |orders|
  {
    if orders != [] {
      RoundKeeps(f, c, orders[0]);
      assert x in orders[0];
      RoundIsTurn(f, c, orders[0]);
      StaysWithinLap(f, Round(f, c, orders[0]), orders[1..], x);
    }
  }

  // ---- One slot

  lemma {:induction false} OneSlotStops(order: seq<nat>, eligible: set<nat>, x: nat)
    requires x in eligible && x in order[..Reach(order, eligible, 1)]
    ensures order[Reach(order, eligible, 1) - 1] == x
  {
    if order[0] !in eligible {
      var n := Reach(order[1..], eligible, 1);
      assert order[..n + 1] == [order[0]] + order[1..][..n];
      OneSlotStops(order[1..], eligible, x);
    } else {
      assert Reach(order[1..], eligible, 0) == 0;
    }
  }

  lemma OnTimeRound(f: Field, c: Clock, order: seq<nat>, x: nat)
    requires f.slots == 1 && x in f.eligible && c.times.Keys == f.laps.Keys && (forall y <- order :: y in c.times)
    requires !Resets(f, c, order)
    ensures x in Processed(f, order) ==> x in c.times && Round(f, c, order).now == c.times[x]
  {
    if x in Processed(f, order) { OneSlotStops(order, f.eligible, x); }
  }

  /** With one slot, whoever gets it is on time. */
  lemma {:induction false} OneSlotOnTime(f: Field, c: Clock, orders: seq<seq<nat>>, x: nat)
    requires ValidField(f) && f.slots == 1 && x in f.eligible
    requires ValidClock(f, c) && Legal(f, c, orders) && Quiet(f, c, orders)
    ensures Late(f, c, orders, x) == 0
    decreases |orders|
  {
    if orders != [] {
      RoundKeeps(f, c, orders[0]);
      OnTimeRound(f, c, orders[0], x);
      OneSlotOnTime(f, Round(f, c, orders[0]), orders[1..], x);
    }
  }

  /** Shares: with one slot, two witnesses that are not voted in never come further apart than one lap each. */
  lemma Shares(f: Field, c: Clock, orders: seq<seq<nat>>, x: nat, y: nat)
    requires ValidField(f) && f.slots == 1 && x in f.eligible && y in f.eligible
    requires ValidClock(f, c) && Legal(f, c, orders) && Quiet(f, c, orders) && Turns(f, orders, x) > 0
    ensures c.times[x] + Covered(f, orders, x) <= c.times[y] + Covered(f, orders, y) + f.laps[x]
  {
    TurnsMoveTime(f, c, orders, x);
    TurnsMoveTime(f, c, orders, y);
    OneSlotOnTime(f, c, orders, x);
    OneSlotOnTime(f, c, orders, y);
    StaysWithinLap(f, c, orders, x);
  }

  /** What two witnesses have covered differs by no more than a lap of each. */
  ghost predicate LevelUpToALap(f: Field, orders: seq<seq<nat>>, x: nat, y: nat)
    requires x in f.laps && y in f.laps
  {
    Turns(f, orders, x) > 0 ==> Covered(f, orders, x) <= Covered(f, orders, y) + f.laps[x] + f.laps[y]
  }

  /** Hence from a start within a lap they stay level up to a lap. */
  lemma SharesOfLaps(f: Field, c: Clock, orders: seq<seq<nat>>, x: nat, y: nat)
    requires ValidField(f) && f.slots == 1 && x in f.eligible && y in f.eligible
    requires ValidClock(f, c) && Legal(f, c, orders) && Quiet(f, c, orders) && WithinLap(f, c, y)
    ensures LevelUpToALap(f, orders, x, y)
  {
    if Turns(f, orders, x) > 0 { Shares(f, c, orders, x, y); }
  }

  lemma OneTurnEach(p: nat, m: nat, x: nat, q: nat, n: nat, y: nat)
    requires p > 0 && x == p * m && y == q * n && x <= y + m + n
    ensures (p - 1) * m <= (q + 1) * n
  {
    OneMore(m, p - 1);
    OneMore(n, q);
  }

  // ---- From laps to votes

  lemma Times(a: int, b: int, c: nat)
    requires a <= b
    ensures c * a <= c * b
  {
  }

  lemma Regroup(p: nat, a: nat, n: nat)
    ensures p * (a * (n + 1)) == a * (p * n) + p * a
  {
    assert a * (n + 1) == a * n + a;
    assert p * (a * n + a) == p * (a * n) + p * a;
    assert p * (a * n) == a * (p * n);
  }

  lemma ScaleUp(p: nat, q: nat, a: nat, b: nat, m: nat, n: nat, lap: nat)
    requires p * m <= q * n && lap <= a * (m + 1) && b * n <= lap
    ensures b * (p * lap) <= a * (q * lap) + b * (p * a)
  {
    Times(lap, a * (m + 1), p);
    Regroup(p, a, m);
    Times(p * m, q * n, a);
    assert p * lap <= a * (q * n) + p * a;
    Times(p * lap, a * (q * n) + p * a, b);
    Distribute(b, a * (q * n), p * a);
    Times(b * n, lap, a * q);
    Rotate(b, a, q, n);
  }

  lemma Distribute(b: nat, x: nat, y: nat)
    ensures b * (x + y) == b * x + b * y
  {
  }

  lemma Rotate(b: nat, a: nat, q: nat, n: nat)
    ensures b * (a * (q * n)) == (a * q) * (b * n)
    ensures forall lap :: (a * q) * lap == a * (q * lap)
  {
    assert b * (a * (q * n)) == (b * a) * (q * n) == (a * q) * (b * n);
  }

  /** p turns with a votes (plus one) against q turns with b votes: in proportion, up to the rounding of the laps. */
  ghost predicate InProportion(p: int, a: nat, q: int, b: nat) {
    && b * (p * LAP) <= a * (q * LAP) + b * (p * a)
    && (b * (p * a) < LAP ==> b * p <= a * q)
  }

  lemma Unscale(p: nat, q: nat, a: nat, b: nat, lap: nat)
    requires b * (p * lap) <= a * (q * lap) + b * (p * a) && b * (p * a) < lap
    ensures b * p <= a * q
  {
    Gather(b, p, lap);
    Gather(a, q, lap);
    Cancel(b * p, a * q, b * (p * a), lap);
  }

  lemma Gather(b: nat, p: nat, lap: nat)
    ensures b * (p * lap) == (b * p) * lap
  {
  }

  lemma Cancel(x: nat, y: nat, r: nat, lap: nat)
    requires x * lap <= y * lap + r && r < lap
    ensures x <= y
  {
    if x > y {
      Times(y + 1, x, lap);
      Distribute(lap, y, 1);
    }
  }

  lemma LapsToVotes(p: nat, a: nat, q: nat, b: nat)
    requires p * Lap(a) <= q * Lap(b)
    ensures InProportion(p, a + 1, q, b + 1)
  {
    LapIsShare(a);
    LapIsShare(b);
    ScaleUp(p, q, a + 1, b + 1, Lap(a), Lap(b), LAP);
    if (b + 1) * (p * (a + 1)) < LAP { Unscale(p, q, a + 1, b + 1, LAP); }
  }

  lemma CompareTurns(p: nat, a: nat, x: nat, q: nat, b: nat, y: nat)
    requires p > 0 && x == p * Lap(a) && y == q * Lap(b) && x <= y + Lap(a) + Lap(b)
    ensures InProportion(p - 1, a + 1, q + 1, b + 1)
  {
    OneTurnEach(p, Lap(a), x, q, Lap(b), y);
    LapsToVotes(p - 1, a, q + 1, b);
  }

  /** Witnesses that are level up to a lap have had turns in proportion to their votes plus one, up to one turn each
      and the rounding of the laps, a relative error below 2^-64. */
  lemma SharesOfVotes(f: Field, orders: seq<seq<nat>>, x: nat, a: nat, y: nat, b: nat)
    requires x in f.laps && f.laps[x] == Lap(a) && y in f.laps && f.laps[y] == Lap(b)
    requires LevelUpToALap(f, orders, x, y) && Turns(f, orders, x) > 0
    ensures InProportion(Turns(f, orders, x) - 1, a + 1, Turns(f, orders, y) + 1, b + 1)
  {
    CoveredIsTurns(f, orders, x);
    CoveredIsTurns(f, orders, y);
    CompareTurns(Turns(f, orders, x), a, Covered(f, orders, x), Turns(f, orders, y), b, Covered(f, orders, y));
  }

  // ---- More slots

  function Waiting(order: seq<nat>, eligible: set<nat>): set<nat> { set y | y in order && y in eligible }

  lemma FewerWaiting(order: seq<nat>, eligible: set<nat>)
    requires Distinct(order) && order != []
    ensures Distinct(order[1..]) && Waiting(order[1..], eligible) == Waiting(order, eligible) - {order[0]}
  {
    assert order == [order[0]] + order[1..];
    assert forall y :: y in order <==> y == order[0] || y in order[1..];
    assert order[0] !in order[1..];
  }

  lemma SomeWait(s: set<nat>, x: nat)
    requires x in s
    ensures |s| > 0
  {
    assert s != {};
  }

  lemma {:induction false} ReachAll(order: seq<nat>, eligible: set<nat>, slots: nat, x: nat)
    requires Distinct(order) && |Waiting(order, eligible)| <= slots && x in Waiting(order, eligible)
    ensures x in order[..Reach(order, eligible, slots)]
  {
    FewerWaiting(order, eligible);
    SomeWait(Waiting(order, eligible), x);
    var left := if order[0] in eligible then slots - 1 else slots;
    var n := Reach(order[1..], eligible, left);
    assert order[..n + 1] == [order[0]] + order[1..][..n];
    if x != order[0] { ReachAll(order[1..], eligible, left, x); }
  }

  /** With as many slots as witnesses waiting for one, votes buy nothing: each has a turn in every round. */
  lemma {:induction false} EnoughSlots(f: Field, c: Clock, orders: seq<seq<nat>>, x: nat)
    requires ValidField(f) && |f.eligible| <= f.slots && x in f.eligible
    requires c.times.Keys == f.laps.Keys && Legal(f, c, orders)
    ensures Turns(f, orders, x) == |orders|
    decreases |orders|
  {
    if orders != [] {
      var order := orders[0];
      assert Waiting(order, f.eligible) == f.eligible;
      ReachAll(order, f.eligible, f.slots, x);
      EnoughSlots(f, Round(f, c, order), orders[1..], x);
    }
  }

  /** No lap is longer than one number and no time past another. */
  ghost predicate Small(f: Field, c: Clock, top: nat, lap: nat) {
    && c.times.Keys == f.laps.Keys
    && (forall x <- f.laps :: f.laps[x] <= lap) && (forall x <- c.times :: c.times[x] <= top)
  }

  lemma SmallTime(f: Field, c: Clock, order: seq<nat>, top: nat, x: nat)
    requires f.slots > 0 && x in c.times && IsOrder(f, c, order) && forall y <- c.times :: c.times[y] <= top
    ensures NewTime(f, c, order) <= top
  {
    assert x in order;
    var n := Reach(order, f.eligible, f.slots);
    if n > 0 { assert order[n - 1] in order; }
  }

  /** While times and laps are small, a round does not reset. */
  lemma SmallRound(f: Field, c: Clock, order: seq<nat>, top: nat, lap: nat, x: nat)
    requires Small(f, c, top, lap) && f.slots > 0 && x in f.laps && IsOrder(f, c, order) && top + lap < B128
    ensures !Resets(f, c, order) && Small(f, Round(f, c, order), top + lap, lap)
  {
    SmallTime(f, c, order, top, x);
  }

  /** A run without reset of witnesses with a and b votes, in which the first had a turn and the second starts within
      a lap. */
  ghost predicate QuietRun(f: Field, c: Clock, orders: seq<seq<nat>>, x: nat, a: nat, y: nat, b: nat) {
    && ValidField(f) && x in f.eligible && y in f.eligible && f.laps[x] == Lap(a) && f.laps[y] == Lap(b)
    && ValidClock(f, c) && Legal(f, c, orders) && Quiet(f, c, orders) && WithinLap(f, c, y) && Turns(f, orders, x) > 0
  }

  /** In all such runs with this number of slots, turns are in proportion to votes. */
  ghost predicate Proportional(slots: nat) {
    forall f: Field, c, orders, x, a: nat, y, b: nat :: f.slots == slots && QuietRun(f, c, orders, x, a, y, b) ==>
      InProportion(Turns(f, orders, x) - 1, a + 1, Turns(f, orders, y) + 1, b + 1)
  }

  function TwoWitnesses(slots: nat): Field { Field([0, 1], map[0 := Lap(9), 1 := Lap(39)], {0, 1}, slots) }

  lemma TwoAreSmall(slots: nat)
    requires slots >= 2
    ensures var f := TwoWitnesses(slots);
            ValidField(f) && ValidClock(f, Reset(f)) && Small(f, Reset(f), Lap(9), Lap(9)) && 3 * Lap(9) < B128
  {
  }

  /** From a reset, witnesses with short laps and a slot each have two quiet rounds together. */
  lemma TwoRounds(f: Field, x: nat, y: nat, lap: nat) returns (orders: seq<seq<nat>>)
    requires ValidField(f) && Small(f, Reset(f), lap, lap) && 3 * lap < B128
    requires x in f.eligible && y in f.eligible && |f.eligible| <= f.slots
    ensures Legal(f, Reset(f), orders) && Quiet(f, Reset(f), orders)
    ensures Turns(f, orders, x) == 2 == Turns(f, orders, y)
  {
    orders := RunsExist(f, Reset(f), 2);
    SmallRound(f, Reset(f), orders[0], lap, lap, x);
    SmallRound(f, Round(f, Reset(f), orders[0]), orders[1], lap + lap, lap, x);
    EnoughSlots(f, Reset(f), orders, x);
    EnoughSlots(f, Reset(f), orders, y);
  }

  /** Two witnesses with 9 and 39 votes share two slots or more: after two rounds each has had two turns. */
  lemma SharedSlots(slots: nat) returns (orders: seq<seq<nat>>)
    requires slots >= 2
    ensures var f := TwoWitnesses(slots);
            QuietRun(f, Reset(f), orders, 0, 9, 1, 39) && Turns(f, orders, 0) == 2 == Turns(f, orders, 1)
  {
    TwoAreSmall(slots);
    orders := TwoRounds(TwoWitnesses(slots), 0, 1, Lap(9));
  }

  /** Turns are in proportion to votes in all runs exactly when there is one slot. */
  lemma ProportionalIffOneSlot(slots: nat)
    requires slots > 0
    ensures Proportional(slots) <==> slots == 1
  {
    if slots == 1 {
      forall f: Field, c, orders, x, a: nat, y, b: nat | f.slots == slots && QuietRun(f, c, orders, x, a, y, b)
        ensures InProportion(Turns(f, orders, x) - 1, a + 1, Turns(f, orders, y) + 1, b + 1)
      {
        SharesOfLaps(f, c, orders, x, y);
        SharesOfVotes(f, orders, x, a, y, b);
      }
    } else {
      var orders := SharedSlots(slots);
      assert !InProportion(1, 10, 3, 40);
      assert QuietRun(TwoWitnesses(slots), Reset(TwoWitnesses(slots)), orders, 0, 9, 1, 39);
    }
  }

  // ---- Witness objects

  /** With the usual limit, one below the number of slots, there is one slot whenever somebody waits for it. */
  lemma OneSlotLeft(ws: Index, byVote: seq<nat>, maxVoted: nat, w: nat)
    requires IsVoteOrder(ws, byVote) && maxVoted == MAX_WITNESSES - 1
    requires w in KeyedIds(ws) && w !in Elected(ws, byVote, maxVoted)
    ensures Slots(Elected(ws, byVote, maxVoted)) == 1
  {
    OnlyMembers(byVote, KeyedIds(ws));
    assert w in Only(byVote, KeyedIds(ws));
  }

  /** In every run of updates without a reset, under the usual limit, two keyed witnesses that are not elected stay
      level up to a lap; by SharesOfVotes they are processed in proportion to their votes plus one. */
  lemma VotesBuyTurns(ws: Index, now: nat, byVote: seq<nat>, maxVoted: nat, orders: seq<seq<nat>>, x: nat, y: nat)
    requires ValidIndex(ws) && IsVoteOrder(ws, byVote) && maxVoted == MAX_WITNESSES - 1
    requires ValidClock(RunField(ws, byVote, maxVoted), ClockOf(now, ws))
    requires x in KeyedIds(ws) && x !in Elected(ws, byVote, maxVoted)
    requires y in KeyedIds(ws) && y !in Elected(ws, byVote, maxVoted) && ws[y].time <= now + Lap(ws[y].votes)
    requires Rounds(ws, now, byVote, maxVoted, orders) && NoReset(ws, now, byVote, maxVoted, orders)
    ensures var f := RunField(ws, byVote, maxVoted);
            && x in f.laps && f.laps[x] == Lap(ws[x].votes) && y in f.laps && f.laps[y] == Lap(ws[y].votes)
            && LevelUpToALap(f, orders, x, y)
  {
    var f, c := RunField(ws, byVote, maxVoted), ClockOf(now, ws);
    FieldIsValid(ws, byVote, maxVoted);
    RoundsAreLegal(ws, now, byVote, maxVoted, orders);
    NoResetIsQuiet(ws, now, byVote, maxVoted, orders);
    OneSlotLeft(ws, byVote, maxVoted, x);
    SharesOfLaps(f, c, orders, x, y);
  }

  // ---- The formula of the schedule

  /** The documented formula: the scheduled time is a lap, less the distance already covered, after the last update. */
  predicate OnFormula(w: Witness) {
    w.position <= LAP && w.time == w.lastUpdate + (LAP - w.position) / (w.votes + 1)
  }

  /** An update keeps the formula; it puts every processed witness, and on a reset every witness, onto it, with the
      new virtual time as its last update. */
  lemma UpdateKeepsFormula(ws: Index, now: nat, voted: seq<nat>, byTime: seq<nat>, x: nat)
    requires (forall y <- byTime :: y in ws) && x in ws
    ensures var ws' := NextWitnesses(ws, now, voted, byTime);
            var processed := ProcessedSeq(ws, voted, byTime);
            && (OnFormula(ws[x]) ==> OnFormula(ws'[x]))
            && (x in processed || TimeOverflows(ws, processed, LastTime(ws, processed, now)) ==>
                OnFormula(ws'[x]) && ws'[x].lastUpdate == NextNow(ws, now, voted, byTime) && ws'[x].position == 0)
            && (x !in processed && !TimeOverflows(ws, processed, LastTime(ws, processed, now)) ==>
                ws'[x].time == ws[x].time && ws'[x].lastUpdate == ws[x].lastUpdate && ws'[x].position == ws[x].position)
  {
  }
}
