/** One update of the schedule on values, and how runs of updates are runs of virtual-time rounds
    (witness_schedule.cpp). */
module WitnessRounds {
  import opened Common
  import opened VirtualTime
  import opened Witnesses

  /** Everyone advances to at least the time of the last witness processed. */
  function LastTime(ws: Index, processed: seq<nat>, now: nat): nat
    requires forall x <- processed :: x in ws
  {
    if processed == [] then now else assert processed[|processed| - 1] in processed; ws[processed[|processed| - 1]].time
  }

  function Marked(ws: Index, voted: seq<nat>, chosen: seq<nat>): Index {
    Mark(Mark(ws, voted, Top20), chosen, Timeshare)
  }

  /** The virtual time and the witness objects after an update with these votes and this order of times. */
  function NextNow(ws: Index, now: nat, voted: seq<nat>, byTime: seq<nat>): nat
    requires forall x <- byTime :: x in ws
  {
    var processed := ProcessedSeq(ws, voted, byTime);
    var t := LastTime(ws, processed, now);
    if TimeOverflows(ws, processed, t) then 0 else t
  }

  function NextWitnesses(ws: Index, now: nat, voted: seq<nat>, byTime: seq<nat>): Index
    requires forall x <- byTime :: x in ws
  {
    var processed := ProcessedSeq(ws, voted, byTime);
    var t := LastTime(ws, processed, now);
    var marked := Marked(ws, voted, Chosen(ws, voted, byTime));
    if TimeOverflows(ws, processed, t) then ResetTimes(marked) else Retime(marked, processed, t)
  }

  /** Marking and retiming leave owners, keys and votes alone. */
  ghost predicate SameVoters(ws: Index, ws': Index) {
    && ws.Keys == ws'.Keys
    && forall x <- ws ::
         ws[x].owner == ws'[x].owner && ws[x].keyed == ws'[x].keyed && ws[x].votes == ws'[x].votes
  }

  lemma NextSameVoters(ws: Index, now: nat, voted: seq<nat>, byTime: seq<nat>)
    requires forall x <- byTime :: x in ws
    ensures SameVoters(ws, NextWitnesses(ws, now, voted, byTime))
  {
  }

  /** What the choice depends on stays the same from round to round. */
  lemma FieldKept(ws: Index, ws': Index, byVote: seq<nat>, maxVoted: nat)
    requires SameVoters(ws, ws')
    ensures Elected(ws', byVote, maxVoted) == Elected(ws, byVote, maxVoted)
    ensures forall voted :: FieldOf(ws', voted, byVote) == FieldOf(ws, voted, byVote)
    ensures IsVoteOrder(ws, byVote) ==> IsVoteOrder(ws', byVote)
  {
    assert KeyedIds(ws') == KeyedIds(ws);
    forall voted ensures FieldOf(ws', voted, byVote) == FieldOf(ws, voted, byVote) {
      assert Eligible(ws', voted) == Eligible(ws, voted);
    }
  }

  lemma SameOverflow(ws: Index, f: Field, processed: seq<nat>, t: nat)
    requires f.laps == LapsOf(ws) && forall x <- processed :: x in ws
    ensures TimeOverflows(ws, processed, t) <==> Overflows(f, (set x | x in processed), t)
  {
    if TimeOverflows(ws, processed, t) {
      var x :| x in processed && t + Lap(ws[x].votes) >= B128;
      assert t + f.laps[x] >= B128;
    }
  }

  lemma SameReset(ws: Index, voted: seq<nat>, chosen: seq<nat>)
    ensures ClockOf(0, ResetTimes(Marked(ws, voted, chosen))) == Clock(0, LapsOf(ws))
  {
  }

  lemma SameAdvance(ws: Index, now: nat, f: Field, voted: seq<nat>, chosen: seq<nat>, processed: seq<nat>, t: nat)
    requires f.laps == LapsOf(ws)
    ensures ClockOf(t, Retime(Marked(ws, voted, chosen), processed, t)) ==
            Advance(f, ClockOf(now, ws), (set x | x in processed), t)
  {
  }

  /** An update moves the clock as a virtual-time round does. */
  lemma NextIsRound(ws: Index, now: nat, voted: seq<nat>, byVote: seq<nat>, byTime: seq<nat>)
    requires forall x <- byTime :: x in ws
    ensures ClockOf(NextNow(ws, now, voted, byTime), NextWitnesses(ws, now, voted, byTime)) ==
            Round(FieldOf(ws, voted, byVote), ClockOf(now, ws), byTime)
  {
    var f, c, processed := FieldOf(ws, voted, byVote), ClockOf(now, ws), ProcessedSeq(ws, voted, byTime);
    var t := LastTime(ws, processed, now);
    SameNewTime(ws, now, voted, byVote, byTime);
    SameOverflow(ws, f, processed, t);
    SameReset(ws, voted, Chosen(ws, voted, byTime));
    SameAdvance(ws, now, f, voted, Chosen(ws, voted, byTime), processed, t);
  }

  lemma SameNewTime(ws: Index, now: nat, voted: seq<nat>, byVote: seq<nat>, byTime: seq<nat>)
    requires forall x <- byTime :: x in ws
    ensures NewTime(FieldOf(ws, voted, byVote), ClockOf(now, ws), byTime) ==
            LastTime(ws, ProcessedSeq(ws, voted, byTime), now)
  {
  }

  lemma ChosenAreScheduled(ws: Index, voted: seq<nat>, byVote: seq<nat>, byTime: seq<nat>)
    ensures forall x :: x in Chosen(ws, voted, byTime) <==> x in Scheduled(FieldOf(ws, voted, byVote), byTime)
  {
    OnlyMembers(ProcessedSeq(ws, voted, byTime), Eligible(ws, voted));
  }

  /** A run of updates with votes and keys fixed: the orders the index by time shows in successive updates. */
  ghost predicate Rounds(ws: Index, now: nat, byVote: seq<nat>, maxVoted: nat, orders: seq<seq<nat>>)
    decreases |orders|
  {
    orders == [] ||
    var voted := Elected(ws, byVote, maxVoted);
    && IsOrder(FieldOf(ws, voted, byVote), ClockOf(now, ws), orders[0])
    && Rounds(NextWitnesses(ws, now, voted, orders[0]), NextNow(ws, now, voted, orders[0]), byVote, maxVoted,
              orders[1..])
  }

  /** The field of a run: it is the same in every round. */
  function RunField(ws: Index, byVote: seq<nat>, maxVoted: nat): Field {
    FieldOf(ws, Elected(ws, byVote, maxVoted), byVote)
  }

  lemma {:induction false} RoundsAreLegal(ws: Index, now: nat, byVote: seq<nat>, maxVoted: nat, orders: seq<seq<nat>>)
    requires Rounds(ws, now, byVote, maxVoted, orders)
    ensures Legal(RunField(ws, byVote, maxVoted), ClockOf(now, ws), orders)
    decreases |orders|
  {
    if orders != [] {
      var voted := Elected(ws, byVote, maxVoted);
      var ws', now' := NextWitnesses(ws, now, voted, orders[0]), NextNow(ws, now, voted, orders[0]);
      NextSameVoters(ws, now, voted, orders[0]);
      FieldKept(ws, ws', byVote, maxVoted);
      NextIsRound(ws, now, voted, byVote, orders[0]);
      RoundsAreLegal(ws', now', byVote, maxVoted, orders[1..]);
    }
  }

  lemma FieldIsValid(ws: Index, byVote: seq<nat>, maxVoted: nat)
    requires ValidIndex(ws) && IsVoteOrder(ws, byVote) && maxVoted < MAX_WITNESSES
    ensures var f := RunField(ws, byVote, maxVoted); ValidField(f) && ValidClock(f, Reset(f))
  {
    ElectedSound(ws, byVote, maxVoted);
    OrderIsDistinct(ws, byVote);
    forall x <- ws ensures 0 < Lap(ws[x].votes) < B128 { LapRange(0, ws[x].votes); }
  }

  /** How long a witness can be kept waiting while no reset happens: its rank now. */
  ghost function Waiting(ws: Index, now: nat, byVote: seq<nat>, maxVoted: nat, w: nat): nat
    requires ValidIndex(ws) && IsVoteOrder(ws, byVote) && maxVoted < MAX_WITNESSES && w in ws
    requires ValidClock(RunField(ws, byVote, maxVoted), ClockOf(now, ws))
  {
    FieldIsValid(ws, byVote, maxVoted);
    Rank(RunField(ws, byVote, maxVoted), ClockOf(now, ws), w, |byVote|)
  }

  /** How long a witness can be kept waiting: its rank now, one reset, and its rank after the reset. */
  ghost function Patience(ws: Index, now: nat, byVote: seq<nat>, maxVoted: nat, w: nat): nat
    requires ValidIndex(ws) && IsVoteOrder(ws, byVote) && maxVoted < MAX_WITNESSES && w in ws
    requires ValidClock(RunField(ws, byVote, maxVoted), ClockOf(now, ws))
  {
    var f := RunField(ws, byVote, maxVoted);
    FieldIsValid(ws, byVote, maxVoted);
    Rank(f, ClockOf(now, ws), w, |f.all|) + 1 + Rank(f, Reset(f), w, |f.all|)
  }

  /** No update of the run overflows. */
  ghost predicate NoReset(ws: Index, now: nat, byVote: seq<nat>, maxVoted: nat, orders: seq<seq<nat>>)
    requires Rounds(ws, now, byVote, maxVoted, orders)
    decreases |orders|
  {
    orders == [] ||
    var voted := Elected(ws, byVote, maxVoted);
    var processed := ProcessedSeq(ws, voted, orders[0]);
    && !TimeOverflows(ws, processed, LastTime(ws, processed, now))
    && NoReset(NextWitnesses(ws, now, voted, orders[0]), NextNow(ws, now, voted, orders[0]), byVote, maxVoted,
               orders[1..])
  }

  lemma {:induction false} NoResetIsQuiet(ws: Index, now: nat, byVote: seq<nat>, maxVoted: nat, orders: seq<seq<nat>>)
    requires Rounds(ws, now, byVote, maxVoted, orders) && NoReset(ws, now, byVote, maxVoted, orders)
    requires Legal(RunField(ws, byVote, maxVoted), ClockOf(now, ws), orders)
    ensures Quiet(RunField(ws, byVote, maxVoted), ClockOf(now, ws), orders)
    decreases |orders|
  {
    if orders != [] {
      var voted, order := Elected(ws, byVote, maxVoted), orders[0];
      var ws', now' := NextWitnesses(ws, now, voted, order), NextNow(ws, now, voted, order);
      NextSameVoters(ws, now, voted, order);
      FieldKept(ws, ws', byVote, maxVoted);
      NextIsRound(ws, now, voted, byVote, order);
      QuietRound(ws, now, voted, byVote, order);
      NoResetIsQuiet(ws', now', byVote, maxVoted, orders[1..]);
    }
  }

  lemma QuietRound(ws: Index, now: nat, voted: seq<nat>, byVote: seq<nat>, byTime: seq<nat>)
    requires forall x <- byTime :: x in ws
    requires var processed := ProcessedSeq(ws, voted, byTime);
             !TimeOverflows(ws, processed, LastTime(ws, processed, now))
    ensures !Resets(FieldOf(ws, voted, byVote), ClockOf(now, ws), byTime)
  {
    var processed := ProcessedSeq(ws, voted, byTime);
    SameNewTime(ws, now, voted, byVote, byTime);
    SameOverflow(ws, FieldOf(ws, voted, byVote), processed, LastTime(ws, processed, now));
  }

  /** No witness starves without a reset, with votes or without: each keyed one that is not elected is chosen within
      its rank at the start. */
  lemma WitnessIsChosen(ws: Index, now: nat, byVote: seq<nat>, maxVoted: nat, orders: seq<seq<nat>>, w: nat)
    returns (i: nat)
    requires ValidIndex(ws) && IsVoteOrder(ws, byVote) && maxVoted < MAX_WITNESSES
    requires ValidClock(RunField(ws, byVote, maxVoted), ClockOf(now, ws))
    requires w in KeyedIds(ws) && w !in Elected(ws, byVote, maxVoted)
    requires Rounds(ws, now, byVote, maxVoted, orders) && NoReset(ws, now, byVote, maxVoted, orders)
    requires |orders| > Waiting(ws, now, byVote, maxVoted, w)
    ensures i < |orders| && w in Chosen(ws, Elected(ws, byVote, maxVoted), orders[i])
  {
    var f, c := RunField(ws, byVote, maxVoted), ClockOf(now, ws);
    FieldIsValid(ws, byVote, maxVoted);
    RoundsAreLegal(ws, now, byVote, maxVoted, orders);
    NoResetIsQuiet(ws, now, byVote, maxVoted, orders);
    i := NoStarvation(f, c, orders, w);
    ChosenAreScheduled(ws, Elected(ws, byVote, maxVoted), byVote, orders[i]);
  }

  /** No voted-for witness starves: with votes and keys fixed, each keyed one that is not elected and has a vote is
      chosen within a bound fixed at the start, through any number of overflow resets. */
  lemma VotedWitnessIsChosen(ws: Index, now: nat, byVote: seq<nat>, maxVoted: nat, orders: seq<seq<nat>>, w: nat)
    returns (i: nat)
    requires ValidIndex(ws) && IsVoteOrder(ws, byVote) && maxVoted < MAX_WITNESSES
    requires ValidClock(RunField(ws, byVote, maxVoted), ClockOf(now, ws))
    requires w in KeyedIds(ws) && w !in Elected(ws, byVote, maxVoted) && ws[w].votes > 0
    requires Rounds(ws, now, byVote, maxVoted, orders) && |orders| > Patience(ws, now, byVote, maxVoted, w)
    ensures i < |orders| && w in Chosen(ws, Elected(ws, byVote, maxVoted), orders[i])
  {
    var f, c := RunField(ws, byVote, maxVoted), ClockOf(now, ws);
    FieldIsValid(ws, byVote, maxVoted);
    RoundsAreLegal(ws, now, byVote, maxVoted, orders);
    LapValues(2);
    LapRange(1, ws[w].votes);
    i := EveryVoteCounts(f, c, orders, w);
    ChosenAreScheduled(ws, Elected(ws, byVote, maxVoted), byVote, orders[i]);
  }
}
