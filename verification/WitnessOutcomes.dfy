/** What one update of the witness schedule writes, and the steps of its loops (witness_schedule.cpp). */
module WitnessOutcomes {
  import opened Common
  import opened VirtualTime
  import opened WitnessVotes
  import opened Witnesses
  import opened WitnessRounds

  lemma MarkOne(ws: Index, ids: seq<nat>, x: nat, kind: Kind)
    requires x in ws
    ensures Mark(ws, ids + [x], kind) == Mark(ws, ids, kind)[x := ws[x].(kind := kind)]
  {
  }

  lemma OnlyOne(order: seq<nat>, i: nat, s: set<nat>)
    requires i < |order|
    ensures order[..i + 1] == order[..i] + [order[i]]
    ensures Only(order[..i] + [order[i]], s) == Only(order[..i], s) + if order[i] in s then [order[i]] else []
  {
    assert order[..i + 1] == order[..i] + [order[i]];
    assert order[..i + 1][..i] == order[..i];
  }

  /** The scan of the vote order that stops after i entries has found the elected. */
  lemma ElectedSoFar(ws: Index, byVote: seq<nat>, maxVoted: nat, i: nat)
    requires i <= |byVote| && |Only(byVote[..i], KeyedIds(ws))| <= maxVoted
    requires i == |byVote| || |Only(byVote[..i], KeyedIds(ws))| == maxVoted
    ensures Only(byVote[..i], KeyedIds(ws)) == Elected(ws, byVote, maxVoted)
  {
    assert byVote == byVote[..i] + byVote[i..];
    OnlyConcat(byVote[..i], byVote[i..], KeyedIds(ws));
  }

  lemma ReachStep(order: seq<nat>, i: nat, s: set<nat>, slots: nat)
    requires i < |order| && slots > 0
    ensures Reach(order[i..], s, slots) == 1 + Reach(order[i + 1..], s, if order[i] in s then slots - 1 else slots)
  {
    assert order[i..][1..] == order[i + 1..];
  }

  lemma RetimeOne(ws: Index, done: seq<nat>, x: nat, t: nat)
    requires x in ws
    ensures Retime(ws, done + [x], t) ==
            Retime(ws, done, t)[x := ws[x].(position := 0, lastUpdate := t, time := t + Lap(ws[x].votes))]
  {
  }

  lemma OverflowOne(ws: Index, processed: seq<nat>, i: nat, t: nat)
    requires (forall x <- processed :: x in ws) && i < |processed|
    ensures t + Lap(ws[processed[i]].votes) >= B128 ==> TimeOverflows(ws, processed, t)
    ensures TimeOverflows(ws, processed[..i + 1], t) <==>
            TimeOverflows(ws, processed[..i], t) || t + Lap(ws[processed[i]].votes) >= B128
  {
    assert processed[..i + 1] == processed[..i] + [processed[i]];
  }

  /** The 128-bit sum, and whether it wrapped. */
  function Sum(a: nat, b: nat): (r: nat)
    requires a < B128 && b < B128
    ensures (r < a <==> a + b >= B128) && (r >= a ==> r == a + b)
  {
    WrapsBelow(a, b);
    (a + b) % B128
  }

  lemma ResetForgets(ws: Index, done: seq<nat>, t: nat)
    ensures ResetTimes(Retime(ws, done, t)) == ResetTimes(ws)
  {
  }

  lemma MarkKeeps(ws: Index, voted: seq<nat>, byTime: seq<nat>)
    ensures ProcessedSeq(Mark(ws, voted, Top20), voted, byTime) == ProcessedSeq(ws, voted, byTime)
    ensures Chosen(Mark(ws, voted, Top20), voted, byTime) == Chosen(ws, voted, byTime)
  {
    assert Eligible(Mark(ws, voted, Top20), voted) == Eligible(ws, voted);
  }

  /** The choice may be marked before the times advance: marking moves no time and no votes. */
  lemma NextByParts(ws: Index, now: nat, voted: seq<nat>, byTime: seq<nat>)
    requires ValidIndex(ws) && now < B128 && forall x <- byTime :: x in ws
    ensures var processed := ProcessedSeq(ws, voted, byTime);
            var t := LastTime(Mark(ws, voted, Top20), processed, now);
            var marked := Marked(ws, voted, Chosen(ws, voted, byTime));
            && t < B128 && ValidIndex(marked)
            && NextWitnesses(ws, now, voted, byTime) ==
               (if TimeOverflows(marked, processed, t) then ResetTimes(marked) else Retime(marked, processed, t))
            && NextNow(ws, now, voted, byTime) == (if TimeOverflows(marked, processed, t) then 0 else t)
  {
    var processed := ProcessedSeq(ws, voted, byTime);
    var t := LastTime(ws, processed, now);
    var marked := Marked(ws, voted, Chosen(ws, voted, byTime));
    assert LastTime(Mark(ws, voted, Top20), processed, now) == t;
    MarkedOverflow(ws, voted, Chosen(ws, voted, byTime), processed, t);
  }

  lemma MarkedOverflow(ws: Index, voted: seq<nat>, chosen: seq<nat>, processed: seq<nat>, t: nat)
    requires ValidIndex(ws) && forall x <- processed :: x in ws
    ensures TimeOverflows(Marked(ws, voted, chosen), processed, t) == TimeOverflows(ws, processed, t)
    ensures ValidIndex(Marked(ws, voted, chosen))
  {
  }

  predicate Known(ws: Index, name: Name) {
    exists x <- ws :: ws[x].owner == name
  }

  predicate AllKnown(ws: Index, names: seq<Name>) {
    names == [] || (AllKnown(ws, names[..|names| - 1]) && Known(ws, names[|names| - 1]))
  }

  lemma {:induction false} AllKnownEach(ws: Index, names: seq<Name>)
    ensures AllKnown(ws, names) <==> forall i :: 0 <= i < |names| ==> Known(ws, names[i])
  {
    if names != [] { AllKnownEach(ws, names[..|names| - 1]); }
  }

  ghost function Find(ws: Index, name: Name): Witness
    requires Known(ws, name)
  {
    var x :| x in ws && ws[x].owner == name;
    ws[x]
  }

  /** The witness objects of a list of names. */
  ghost function FindAll(ws: Index, names: seq<Name>): (r: seq<Witness>)
    requires AllKnown(ws, names)
    ensures |r| == |names|
  {
    if names == [] then [] else FindAll(ws, names[..|names| - 1]) + [Find(ws, names[|names| - 1])]
  }

  function CreationFee(w: Witness): int { w.props.creationFee }
  function BlockSize(w: Witness): int { w.props.blockSize }
  function InterestRate(w: Witness): int { w.props.interestRate }
  function SubsidyLimit(w: Witness): int { w.props.subsidyLimit }

  function Middle<T>(xs: seq<T>): T
    requires xs != []
  {
    xs[|xs| / 2]
  }

  ghost predicate AreMedians(active: seq<Witness>, p: Props) {
    && IsMedian(active, CreationFee, p.creationFee) && IsMedian(active, BlockSize, p.blockSize)
    && IsMedian(active, InterestRate, p.interestRate) && IsMedian(active, SubsidyLimit, p.subsidyLimit)
  }

  /** The middle of each of the four successive sorts. */
  function MediansOf(active: seq<Witness>): Props
    requires active != []
  {
    SortsKeepLength(active);
    var byFee := Sorted(active, CreationFee);
    var bySize := Sorted(byFee, BlockSize);
    var byRate := Sorted(bySize, InterestRate);
    var byLimit := Sorted(byRate, SubsidyLimit);
    Props(Middle(byFee).props.creationFee, Middle(bySize).props.blockSize,
          Middle(byRate).props.interestRate, Middle(byLimit).props.subsidyLimit)
  }

  lemma SortsKeepLength(active: seq<Witness>)
    ensures |Sorted(active, CreationFee)| == |Sorted(Sorted(active, CreationFee), BlockSize)| == |active|
    ensures |Sorted(Sorted(Sorted(active, CreationFee), BlockSize), InterestRate)| == |active|
    ensures |Sorted(Sorted(Sorted(Sorted(active, CreationFee), BlockSize), InterestRate), SubsidyLimit)| == |active|
  {
    SortedSorts(active, CreationFee);
    SortedSorts(Sorted(active, CreationFee), BlockSize);
    SortedSorts(Sorted(Sorted(active, CreationFee), BlockSize), InterestRate);
    SortedSorts(Sorted(Sorted(Sorted(active, CreationFee), BlockSize), InterestRate), SubsidyLimit);
  }

  /** What is stored are the medians of the scheduled witnesses' properties, though each sort starts from the last. */
  lemma MediansExact(active: seq<Witness>)
    requires active != []
    ensures AreMedians(active, MediansOf(active))
  {
    var byFee := Sorted(active, CreationFee);
    var bySize := Sorted(byFee, BlockSize);
    var byRate := Sorted(bySize, InterestRate);
    SortedSorts(active, CreationFee);
    SortedSorts(byFee, BlockSize);
    SortedSorts(bySize, InterestRate);
    SortedSorts(byRate, SubsidyLimit);
    MiddleIsMedian(active, byFee, CreationFee);
    MiddleIsMedian(active, bySize, BlockSize);
    MiddleIsMedian(active, byRate, InterestRate);
    MiddleIsMedian(active, Sorted(byRate, SubsidyLimit), SubsidyLimit);
  }

  function Versions(active: seq<Witness>): seq<nat> {
    seq(|active|, i requires 0 <= i < |active| => active[i].version)
  }

  function Hardforks(active: seq<Witness>): seq<Vote> {
    seq(|active|, i requires 0 <= i < |active| => active[i].hardfork)
  }

  /** The slots in use after names are written: at least one. */
  function InUse(names: seq<Name>): nat {
    if |names| > 1 then |names| else 1
  }

  function Padded(names: seq<Name>): seq<Name>
    requires |names| <= MAX_WITNESSES
  {
    names + seq(MAX_WITNESSES - |names|, _ => EMPTY)
  }

  /** The slots after names are written, padded and shuffled. */
  function NextSlots(names: seq<Name>, random: nat -> nat): seq<Name>
    requires |names| <= MAX_WITNESSES
  {
    Shuffled(Padded(names), 0, InUse(names), random)
  }

  /** The first n slots are a permutation of the names (one empty name if there are none), the rest are empty. */
  ghost predicate IsSchedule(slots: seq<Name>, n: nat, names: seq<Name>) {
    && n == (if names == [] then 1 else |names|) && n <= |slots|
    && multiset(slots[..n]) == multiset(if names == [] then [EMPTY] else names)
    && forall i :: n <= i < |slots| ==> slots[i] == EMPTY
  }

  /** Whatever the generator yields, the slots hold a permutation of the names, and the padding stays empty. */
  lemma NextSlotsSound(names: seq<Name>, random: nat -> nat)
    requires |names| <= MAX_WITNESSES
    ensures IsSchedule(NextSlots(names, random), InUse(names), names) && |NextSlots(names, random)| == MAX_WITNESSES
  {
    var s, n := Padded(names), InUse(names);
    var r := NextSlots(names, random);
    ShufflePermutes(s, 0, n, random);
    assert s[..n] == if names == [] then [EMPTY] else names;
    forall i | n <= i < |r| ensures r[i] == EMPTY { assert r[n..][i - n] == s[n..][i - n]; }
  }

  lemma OwnersDistinct(ws: Index, ids: seq<nat>)
    requires ValidIndex(ws) && Distinct(ids) && forall x <- ids :: x in ws
    ensures Distinct(Owners(ws, ids))
  {
    forall i, j | 0 <= i < j < |ids| ensures Owners(ws, ids)[i] != Owners(ws, ids)[j] {
      assert ids[i] in ids && ids[j] in ids;
    }
  }

  ghost predicate OwnedBy(ws: Index, ids: seq<nat>, name: Name)
    requires forall x <- ids :: x in ws
  {
    exists x <- ids :: ws[x].owner == name
  }

  /** The names in a schedule are distinct, and each belongs to one of the chosen witnesses. */
  lemma ScheduleSound(ws: Index, slots: seq<Name>, n: nat, ids: seq<nat>)
    requires ValidIndex(ws) && Distinct(ids) && ids != [] && forall x <- ids :: x in ws
    requires IsSchedule(slots, n, Owners(ws, ids))
    ensures Distinct(slots[..n]) && forall i :: 0 <= i < n ==> OwnedBy(ws, ids, slots[i])
  {
    var names := Owners(ws, ids);
    OwnersDistinct(ws, ids);
    PermutedDistinct(names, slots[..n]);
    forall i | 0 <= i < n ensures OwnedBy(ws, ids, slots[i]) {
      assert slots[i] in multiset(slots[..n]);
      var k :| 0 <= k < |names| && names[k] == slots[i];
      assert ids[k] in ids && ws[ids[k]].owner == slots[i];
    }
  }

  lemma SameOwners(ws: Index, ws': Index, ids: seq<nat>)
    requires SameVoters(ws, ws') && forall x <- ids :: x in ws
    ensures Owners(ws', ids) == Owners(ws, ids)
  {
    forall i | 0 <= i < |ids| ensures Owners(ws', ids)[i] == Owners(ws, ids)[i] { assert ids[i] in ids; }
  }

  /** The names of the new schedule can all be looked up, unless there was nobody to schedule. */
  lemma ScheduleKnown(ws: Index, ws': Index, slots: seq<Name>, n: nat, ids: seq<nat>)
    requires ValidIndex(ws) && Distinct(ids) && forall x <- ids :: x in ws
    requires IsSchedule(slots, n, Owners(ws, ids)) && SameVoters(ws, ws')
    ensures AllKnown(ws', slots[..n]) <==> ids != []
  {
    AllKnownEach(ws', slots[..n]);
    if ids == [] {
      assert slots[..n][0] in multiset{EMPTY};
      assert !Known(ws', slots[..n][0]);
    } else {
      ScheduleSound(ws, slots, n, ids);
      forall i | 0 <= i < n ensures Known(ws', slots[..n][i]) {
        assert OwnedBy(ws, ids, slots[i]);
        var x :| x in ids && ws[x].owner == slots[i];
        assert ws'[x].owner == slots[i];
      }
    }
  }

  lemma SomeoneActive(ws: Index, byVote: seq<nat>, byTime: seq<nat>, maxVoted: nat)
    requires IsVoteOrder(ws, byVote) && Distinct(byTime) && (forall x :: x in byTime <==> x in ws) &&
             maxVoted <= MAX_WITNESSES
    ensures Active(ws, byVote, byTime, maxVoted) != [] <==> KeyedIds(ws) != {}
  {
    ActiveIsSound(ws, byVote, byTime, maxVoted);
    ActiveIsFull(ws, byVote, byTime, maxVoted);
    var active := Active(ws, byVote, byTime, maxVoted);
    if active != [] { assert active[0] in KeyedIds(ws); }
    if x :| x in KeyedIds(ws) { assert active != [] by { assert |active| == MAX_WITNESSES || x in active; } }
  }

  lemma {:induction false} SameKinds(ws: Index, ws': Index, ids: seq<nat>, top: nat, share: nat)
    requires forall x <- ids :: x in ws && x in ws' && ws[x].kind == ws'[x].kind
    ensures TotalWeight(ws', ids, top, share) == TotalWeight(ws, ids, top, share)
  {
    if ids != [] { SameKinds(ws, ws', ids[..|ids| - 1], top, share); }
  }

  function PayFactor(ws: Index, byVote: seq<nat>, byTime: seq<nat>, maxVoted: nat, top: nat, share: nat): int {
    var voted := Elected(ws, byVote, maxVoted);
    top * |voted| + share * |Chosen(ws, voted, byTime)|
  }

  /** The factor written is the sum of the weights of the new schedule's witnesses. */
  lemma PayFollowsKinds(ws: Index, now: nat, byVote: seq<nat>, byTime: seq<nat>, maxVoted: nat, top: nat, share: nat)
    requires IsVoteOrder(ws, byVote) && Distinct(byTime) && (forall x <- byTime :: x in ws)
    ensures var active := Active(ws, byVote, byTime, maxVoted);
            var ws' := NextWitnesses(ws, now, Elected(ws, byVote, maxVoted), byTime);
            && (forall x <- active :: x in ws')
            && TotalWeight(ws', active, top, share) == PayFactor(ws, byVote, byTime, maxVoted, top, share)
  {
    var voted := Elected(ws, byVote, maxVoted);
    var chosen := Chosen(ws, voted, byTime);
    ElectedSound(ws, byVote, maxVoted);
    ChosenSound(ws, voted, byTime);
    PayIsSum(ws, voted, chosen, top, share);
    SameKinds(Marked(ws, voted, chosen), NextWitnesses(ws, now, voted, byTime), voted + chosen, top, share);
  }

  /** What the update writes is well defined and can be read back, unless nobody has a key. */
  lemma NextSchedule(ws: Index, now: nat, byVote: seq<nat>, byTime: seq<nat>, maxVoted: nat, random: nat -> nat)
    requires ValidIndex(ws) && IsVoteOrder(ws, byVote) && Distinct(byTime) && (forall x :: x in byTime <==> x in ws)
    requires maxVoted <= MAX_WITNESSES && now < B128
    ensures var active := Active(ws, byVote, byTime, maxVoted);
            var ws' := NextWitnesses(ws, now, Elected(ws, byVote, maxVoted), byTime);
            && |active| <= MAX_WITNESSES && ValidIndex(ws') &&
               NextNow(ws, now, Elected(ws, byVote, maxVoted), byTime) < B128
            && (forall x <- active :: x in ws && x in ws')
            && Owners(ws', active) == Owners(ws, active)
            && (AllKnown(ws', NextSlots(Owners(ws, active), random)[..InUse(Owners(ws, active))]) <==>
               KeyedIds(ws) != {})
  {
    var voted := Elected(ws, byVote, maxVoted);
    var active := Active(ws, byVote, byTime, maxVoted);
    var ws' := NextWitnesses(ws, now, voted, byTime);
    ActiveIsSound(ws, byVote, byTime, maxVoted);
    SomeoneActive(ws, byVote, byTime, maxVoted);
    NextSameVoters(ws, now, voted, byTime);
    NextIsValid(ws, now, voted, byTime);
    SameOwners(ws, ws', active);
    NextSlotsSound(Owners(ws, active), random);
    ScheduleKnown(ws, ws', NextSlots(Owners(ws, active), random), InUse(Owners(ws, active)), active);
  }

  lemma NextIsValid(ws: Index, now: nat, voted: seq<nat>, byTime: seq<nat>)
    requires ValidIndex(ws) && now < B128 && forall x <- byTime :: x in ws
    ensures ValidIndex(NextWitnesses(ws, now, voted, byTime)) && NextNow(ws, now, voted, byTime) < B128
  {
    var ws', processed := NextWitnesses(ws, now, voted, byTime), ProcessedSeq(ws, voted, byTime);
    var t := LastTime(ws, processed, now);
    NextSameVoters(ws, now, voted, byTime);
    forall x <- ws ensures ws'[x].time < B128 {
      LapRange(0, ws[x].votes);
      if x in processed { assert TimeOverflows(ws, processed, t) || t + Lap(ws[x].votes) < B128; }
    }
  }

  // ---- The whole update

  /** What an update reads and writes besides the medians, as a value. */
  datatype Board = Board(witnesses: Index, now: nat, slots: seq<Name>, scheduled: nat, payFactor: int,
                         version: nat, hardfork: Vote)

  /** The limits and weights of the schedule object. */
  datatype Rules = Rules(maxVoted: nat, required: nat, topWeight: nat, timeshareWeight: nat)

  /** The two witness indexes list all the witnesses, each in its order. */
  ghost predicate Ready(b: Board, rules: Rules, byVote: seq<nat>, byTime: seq<nat>) {
    && ValidIndex(b.witnesses) && b.now < B128 && b.scheduled <= |b.slots| && rules.maxVoted <= MAX_WITNESSES
    && IsVoteOrder(b.witnesses, byVote) && Distinct(byTime) && (forall x :: x in byTime <==> x in b.witnesses)
  }

  /** The board after an update, when the names of the old schedule are known. */
  ghost function NextBoard(b: Board, rules: Rules, byVote: seq<nat>, byTime: seq<nat>, currentHardfork: nat,
                           random: nat -> nat): Board
    requires Ready(b, rules, byVote, byTime) && AllKnown(b.witnesses, b.slots[..b.scheduled])
  {
    NextSchedule(b.witnesses, b.now, byVote, byTime, rules.maxVoted, random);
    var voted := Elected(b.witnesses, byVote, rules.maxVoted);
    var names := Owners(b.witnesses, Active(b.witnesses, byVote, byTime, rules.maxVoted));
    var before := FindAll(b.witnesses, b.slots[..b.scheduled]);
    Board(NextWitnesses(b.witnesses, b.now, voted, byTime), NextNow(b.witnesses, b.now, voted, byTime),
          NextSlots(names, random), InUse(names),
          PayFactor(b.witnesses, byVote, byTime, rules.maxVoted, rules.topWeight, rules.timeshareWeight),
          VersionAfter(Versions(before), rules.required, b.version),
          HardforkAfter(Hardforks(before), rules.required, currentHardfork, b.hardfork))
  }
}
