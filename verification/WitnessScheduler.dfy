/** The witness schedule as an object that each round updates in place (witness_schedule.cpp). */
module WitnessScheduler {
  import opened Common
  import opened VirtualTime
  import opened WitnessVotes
  import opened Witnesses
  import opened WitnessRounds
  import opened WitnessOutcomes

  /** Sort by each property in turn and take the middle. */
  method TakeMedians(scheduled: seq<Witness>) returns (p: Props)
    requires scheduled != []
    ensures p == MediansOf(scheduled)
  {
    SortsKeepLength(scheduled);
    var active := SortBy(scheduled, CreationFee);
    var fee := active[|active| / 2].props.creationFee;
    active := SortBy(active, BlockSize);
    var size := active[|active| / 2].props.blockSize;
    active := SortBy(active, InterestRate);
    var rate := active[|active| / 2].props.interestRate;
    active := SortBy(active, SubsidyLimit);
    p := Props(fee, size, rate, active[|active| / 2].props.subsidyLimit);
  }

  class WitnessSchedule {
    var witnesses: Index
    var now: nat                     // current_virtual_time
    const slots: array<Name>         // current_shuffled_witnesses
    var scheduled: nat               // num_scheduled_witnesses
    var payFactor: nat
    var majorityVersion: nat
    var nextHardfork: Vote
    var medians: Props
    var maximumBlockSize: nat        // of the dynamic global properties
    var interestRate: nat
    const maxVoted: nat
    const required: nat
    const topWeight: nat
    const timeshareWeight: nat

    ghost predicate Valid()
      reads this, slots
    {
      && ValidIndex(witnesses) && now < B128 && maxVoted <= MAX_WITNESSES
      && slots.Length == MAX_WITNESSES && scheduled <= MAX_WITNESSES
    }

    ghost function View(): Board
      reads this, slots
    {
      Board(witnesses, now, slots[..], scheduled, payFactor, majorityVersion, nextHardfork)
    }

    function TheRules(): Rules { Rules(maxVoted, required, topWeight, timeshareWeight) }

    /** The schedule of a new chain: one witness, found by name. */
    constructor (ws: Index, first: Name)
      requires ValidIndex(ws)
      ensures Valid() && fresh(slots) && witnesses == ws && scheduled == 1 && slots[0] == first
      ensures maxVoted == 20 && required == 17 && topWeight == 1 && timeshareWeight == 5
    {
      witnesses, now, scheduled, payFactor := ws, 0, 1, 25;
      majorityVersion, nextHardfork := 0, Vote(0, 0);
      medians, maximumBlockSize, interestRate := Props(1, 131072, 1000, 0), 131072, 1000;
      maxVoted, required, topWeight, timeshareWeight := 20, 17, 1, 5;
      slots := new Name[MAX_WITNESSES](i => if i == 0 then first else EMPTY);
    }

    /** Add the highest voted witnesses. */
    method SelectVoted(byVote: seq<nat>) returns (voted: seq<nat>)
      requires forall x <- byVote :: x in witnesses
      modifies `witnesses
      ensures voted == Elected(old(witnesses), byVote, maxVoted)
      ensures witnesses == Mark(old(witnesses), voted, Top20)
    {
      ghost var ws := witnesses;
      voted := [];
      var i := 0;
      while i < |byVote| && |voted| < maxVoted
        invariant 0 <= i <= |byVote| && |voted| <= maxVoted
        invariant voted == Only(byVote[..i], KeyedIds(ws))
        invariant witnesses == Mark(ws, voted, Top20)
      {
        var id := byVote[i];
        OnlyOne(byVote, i, KeyedIds(ws));
        if witnesses[id].keyed {
          MarkOne(ws, voted, id, Top20);
          voted := voted + [id];
          witnesses := witnesses[id := witnesses[id].(kind := Top20)];
        }
        i := i + 1;
      }
      ElectedSoFar(ws, byVote, maxVoted, i);
    }

    /** Add the running witnesses in the lead. */
    method SelectTimeshare(byTime: seq<nat>, voted: seq<nat>) returns (chosen: seq<nat>, processed: seq<nat>, time: nat)
      requires (forall x <- byTime :: x in witnesses) && |voted| <= MAX_WITNESSES
      modifies `witnesses
      ensures processed == ProcessedSeq(old(witnesses), voted, byTime) &&
              chosen == Chosen(old(witnesses), voted, byTime)
      ensures witnesses == Mark(old(witnesses), chosen, Timeshare)
      ensures time == LastTime(old(witnesses), processed, now)
    {
      ghost var ws, eligible, left := witnesses, Eligible(witnesses, voted), Slots(voted);
      ghost var n := Reach(byTime, eligible, left);
      chosen, processed, time := [], [], now;
      var i := 0;
      while i < |byTime| && |voted| + |chosen| < MAX_WITNESSES
        invariant 0 <= i <= |byTime| && |voted| + |chosen| + left == MAX_WITNESSES
        invariant n == i + Reach(byTime[i..], eligible, left)
        invariant processed == byTime[..i] && chosen == Only(processed, eligible)
        invariant witnesses == Mark(ws, chosen, Timeshare)
        invariant time == LastTime(ws, processed, now)
      {
        var id := byTime[i];
        var w := witnesses[id];
        var fits := w.keyed && id !in voted;
        assert fits <==> id in eligible;
        OnlyOne(byTime, i, eligible);
        ReachStep(byTime, i, eligible, left);
        left := if id in eligible then left - 1 else left;
        time := w.time;
        processed := processed + [id];
        if fits {
          MarkOne(ws, chosen, id, Timeshare);
          chosen := chosen + [id];
          witnesses := witnesses[id := w.(kind := Timeshare)];
        }
        i := i + 1;
      }
    }

    method ResetVirtualTime()
      modifies `witnesses, `now
      ensures now == 0 && witnesses == ResetTimes(old(witnesses))
    {
      now := 0;
      ghost var ws := witnesses;
      var todo := witnesses.Keys;
      while todo != {}
        invariant todo <= ws.Keys && now == 0
        invariant witnesses == map x <- ws ::
          if x in todo then ws[x] else ws[x].(position := 0, lastUpdate := 0, time := Lap(ws[x].votes))
        decreases todo
      {
        var id :| id in todo;
        var w := witnesses[id];
        witnesses := witnesses[id := w.(position := 0, lastUpdate := now, time := Lap(w.votes))];
        todo := todo - {id};
      }
    }

    /** Update the virtual schedule of the processed witnesses, or reset everything on overflow. */
    method AdvanceTimes(processed: seq<nat>, time: nat) returns (newTime: nat)
      requires ValidIndex(witnesses) && (forall x <- processed :: x in witnesses) && time < B128
      modifies `witnesses, `now
      ensures if TimeOverflows(old(witnesses), processed, time)
              then newTime == 0 && witnesses == ResetTimes(old(witnesses))
              else newTime == time && witnesses == Retime(old(witnesses), processed, time)
    {
      ghost var ws := witnesses;
      newTime := time;
      var i := 0;
      while i < |processed|
        invariant 0 <= i <= |processed| && newTime == time
        invariant witnesses == Retime(ws, processed[..i], time)
        invariant !TimeOverflows(ws, processed[..i], time)
      {
        var id := processed[i];
        var w := witnesses[id];
        LapRange(0, w.votes);
        OverflowOne(ws, processed, i, time);
        var next := Sum(time, Lap(w.votes));
        if next < time {
          ResetForgets(ws, processed[..i], time);
          ResetVirtualTime();
          newTime := 0;
          return;
        }
        RetimeOne(ws, processed[..i], id, time);
        assert processed[..i + 1] == processed[..i] + [id];
        witnesses := witnesses[id := w.(position := 0, lastUpdate := time, time := next)];
        i := i + 1;
      }
      assert processed[..i] == processed;
    }

    /** Write the names and pad with empty ones. */
    method FillSlots(active: seq<Name>)
      requires slots.Length == MAX_WITNESSES && |active| <= MAX_WITNESSES
      modifies slots
      ensures slots[..] == Padded(active)
    {
      for i := 0 to |active|
        invariant slots[..i] == active[..i]
      {
        slots[i] := active[i];
      }
      for i := |active| to MAX_WITNESSES
        invariant slots[..i] == Padded(active)[..i]
      {
        slots[i] := EMPTY;
      }
    }

    /** Shuffle the scheduled slots with the generator's values. */
    method ShuffleSlots(n: nat, random: nat -> nat)
      requires n <= slots.Length
      modifies slots
      ensures slots[..] == Shuffled(old(slots[..]), 0, n, random)
    {
      for i := 0 to n
        invariant Shuffled(old(slots[..]), 0, n, random) == Shuffled(slots[..], i, n, random)
      {
        var j := i + random(i) % (n - i);
        ghost var s := slots[..];
        slots[i], slots[j] := slots[j], slots[i];
        assert slots[..] == Swap(s, i, j);
      }
    }

    /** Look the scheduled witnesses up by name; fails if one does not exist. */
    method FetchScheduled() returns (ok: bool, found: seq<Witness>)
      requires ValidIndex(witnesses) && scheduled <= slots.Length
      ensures ok <==> AllKnown(witnesses, slots[..scheduled])
      ensures ok ==> found == FindAll(witnesses, slots[..scheduled])
    {
      ok, found := false, [];
      for i := 0 to scheduled
        invariant AllKnown(witnesses, slots[..i]) && found == FindAll(witnesses, slots[..i])
      {
        if x :| x in witnesses && witnesses[x].owner == slots[i] {
          assert Known(witnesses, slots[i]) && Find(witnesses, slots[i]) == witnesses[x];
          found := found + [witnesses[x]];
          assert slots[..i + 1][..i] == slots[..i];
        } else {
          AllKnownEach(witnesses, slots[..scheduled]);
          assert !Known(witnesses, slots[..scheduled][i]);
          return;
        }
      }
      ok := true;
    }

    /** Choose the next schedule and advance virtual time. */
    method Choose(byVote: seq<nat>, byTime: seq<nat>) returns (voted: seq<nat>, chosen: seq<nat>, newTime: nat)
      requires Valid() && IsVoteOrder(witnesses, byVote) && forall x <- byTime :: x in witnesses
      modifies `witnesses, `now
      ensures voted == Elected(old(witnesses), byVote, maxVoted) && chosen == Chosen(old(witnesses), voted, byTime)
      ensures newTime == NextNow(old(witnesses), old(now), voted, byTime)
      ensures witnesses == NextWitnesses(old(witnesses), old(now), voted, byTime)
    {
      ghost var ws := witnesses;
      ElectedSound(ws, byVote, maxVoted);
      voted := SelectVoted(byVote);
      MarkKeeps(ws, voted, byTime);
      var processed, time;
      chosen, processed, time := SelectTimeshare(byTime, voted);
      NextByParts(ws, now, voted, byTime);
      newTime := AdvanceTimes(processed, time);
    }

    /** Count the versions and hardfork votes of the witnesses scheduled so far. */
    method TallyVotes(active: seq<Witness>, currentHardfork: nat) returns (version: nat)
      modifies `nextHardfork
      ensures version == VersionAfter(Versions(active), required, majorityVersion)
      ensures nextHardfork == HardforkAfter(Hardforks(active), required, currentHardfork, old(nextHardfork))
    {
      version := MajorityVersion(Versions(active), required, majorityVersion);
      var winner := MajorityVote(Hardforks(active), required);
      if winner.Some? {
        if nextHardfork != winner.value { nextHardfork := winner.value; }
      } else {
        nextHardfork := nextHardfork.(version := currentHardfork);
      }
    }

    /** Store the medians of the properties of the scheduled witnesses; fails when one is unknown. */
    method UpdateMedians() returns (ok: bool)
      requires ValidIndex(witnesses) && 0 < scheduled <= slots.Length
      modifies `medians, `maximumBlockSize, `interestRate
      ensures ok <==> AllKnown(witnesses, slots[..scheduled])
      ensures ok ==> medians == MediansOf(FindAll(witnesses, slots[..scheduled]))
      ensures ok ==> maximumBlockSize == medians.blockSize && interestRate == medians.interestRate
    {
      var active;
      ok, active := FetchScheduled();
      if ok {
        medians := TakeMedians(active);
        maximumBlockSize, interestRate := medians.blockSize, medians.interestRate;
      }
    }

    /** Write and shuffle the new schedule, and set the pay normalisation factor. */
    method WriteSchedule(names: seq<Name>, elected: nat, timeshare: nat, random: nat -> nat)
      requires slots.Length == MAX_WITNESSES && |names| <= MAX_WITNESSES
      modifies slots, `scheduled, `payFactor
      ensures slots[..] == NextSlots(names, random) && scheduled == InUse(names)
      ensures payFactor == topWeight * elected + timeshareWeight * timeshare
    {
      FillSlots(names);
      scheduled := if |names| > 1 then |names| else 1;
      payFactor := topWeight * elected + timeshareWeight * timeshare;
      ShuffleSlots(scheduled, random);
    }

    /** Choose, write and shuffle the new schedule; all its names can be looked up unless nobody has a key. */
    method Reschedule(byVote: seq<nat>, byTime: seq<nat>, random: nat -> nat) returns (active: seq<nat>)
      requires Valid() && IsVoteOrder(witnesses, byVote)
      requires Distinct(byTime) && forall x :: x in byTime <==> x in witnesses
      modifies `witnesses, `now, `scheduled, `payFactor, slots
      ensures witnesses == NextWitnesses(old(witnesses), old(now), Elected(old(witnesses), byVote, maxVoted), byTime)
      ensures now == NextNow(old(witnesses), old(now), Elected(old(witnesses), byVote, maxVoted), byTime)
      ensures active == Active(old(witnesses), byVote, byTime, maxVoted) && |active| <= MAX_WITNESSES
      ensures forall x <- active :: x in old(witnesses) && x in witnesses
      ensures slots[..] == NextSlots(Owners(old(witnesses), active), random)
      ensures scheduled == InUse(Owners(old(witnesses), active))
      ensures payFactor == PayFactor(old(witnesses), byVote, byTime, maxVoted, topWeight, timeshareWeight)
      ensures Valid()
      ensures AllKnown(witnesses, slots[..scheduled]) <==> KeyedIds(old(witnesses)) != {}
    {
      ghost var ws, time := witnesses, now;
      var voted, chosen, newTime := Choose(byVote, byTime);
      active := voted + chosen;
      NextSchedule(ws, time, byVote, byTime, maxVoted, random);
      WriteSchedule(Owners(witnesses, active), |voted|, |chosen|, random);
      now := newTime;
    }

    /** Count the votes of the old schedule and replace it; fails when it names an unknown witness. */
    method Rotate(byVote: seq<nat>, byTime: seq<nat>, currentHardfork: nat, random: nat -> nat) returns (ok: bool)
      requires Valid() && Ready(View(), TheRules(), byVote, byTime)
      modifies `witnesses, `now, `scheduled, `payFactor, `nextHardfork, `majorityVersion, slots
      ensures ok <==> old(AllKnown(witnesses, slots[..scheduled]))
      ensures ok ==> View() == NextBoard(old(View()), TheRules(), byVote, byTime, currentHardfork, random)
      ensures ok ==> Valid() && 0 < scheduled
      ensures ok ==> (AllKnown(witnesses, slots[..scheduled]) <==> KeyedIds(old(witnesses)) != {})
    {
      ghost var b := View();
      assert b.slots[..scheduled] == slots[..scheduled];
      var before;
      ok, before := FetchScheduled();
      if ok {
        var version := TallyVotes(before, currentHardfork);
        var active := Reschedule(byVote, byTime, random);
        majorityVersion := version;
      }
    }

    /** One update of the schedule, medians included. It fails when the old schedule names an unknown witness or
        nobody has a key. */
    method Update(byVote: seq<nat>, byTime: seq<nat>, currentHardfork: nat, random: nat -> nat) returns (ok: bool)
      requires Valid() && Ready(View(), TheRules(), byVote, byTime)
      modifies this, slots
      ensures ok <==> old(AllKnown(witnesses, slots[..scheduled])) && KeyedIds(old(witnesses)) != {}
      ensures ok ==> View() == NextBoard(old(View()), TheRules(), byVote, byTime, currentHardfork, random)
      ensures ok ==> Valid() && 0 < scheduled && AllKnown(witnesses, slots[..scheduled])
      ensures ok ==> medians == MediansOf(FindAll(witnesses, slots[..scheduled]))
      ensures ok ==> maximumBlockSize == medians.blockSize && interestRate == medians.interestRate
    {
      ok := Rotate(byVote, byTime, currentHardfork, random);
      if ok {
        ghost var b := View();
        ok := UpdateMedians();
        assert View() == b;
      }
    }
  }
}
