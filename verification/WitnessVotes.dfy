/** Counting among the scheduled witnesses: the version a majority runs, the hardfork a majority votes for, and the
    medians of their chain properties (witness_schedule.cpp). */
module WitnessVotes {
  import opened Common

  // ---- Ordered tallies (a flat_map from key to count)

  type Table<K> = seq<(K, nat)>

  ghost predicate StrictOrder<K(!new)>(less: (K, K) -> bool) {
    && (forall a, b :: less(a, b) ==> !less(b, a))
    && (forall a, b :: less(a, b) || less(b, a) || a == b)
    && (forall a, b, c :: less(a, b) && less(b, c) ==> less(a, c))
  }

  predicate Ordered<K>(t: Table<K>, less: (K, K) -> bool) {
    |t| <= 1 || (less(t[0].0, t[1].0) && Ordered(t[1..], less))
  }

  /** One more vote for k: its count goes up, or it enters at its place in the order. */
  function Bump<K(==)>(t: Table<K>, k: K, less: (K, K) -> bool): Table<K> {
    if t == [] then [(k, 1)]
    else if t[0].0 == k then [(k, t[0].1 + 1)] + t[1..]
    else if less(k, t[0].0) then [(k, 1)] + t
    else [t[0]] + Bump(t[1..], k, less)
  }

  function Tally<K(==)>(votes: seq<K>, less: (K, K) -> bool): Table<K> {
    if votes == [] then [] else Bump(Tally(votes[..|votes| - 1], less), votes[|votes| - 1], less)
  }

  /** The votes for keys that come no later than k, in a table and in the votes themselves. */
  function TableUpTo<K>(t: Table<K>, k: K, less: (K, K) -> bool): nat {
    if t == [] then 0 else (if less(k, t[0].0) then 0 else t[0].1) + TableUpTo(t[1..], k, less)
  }

  function UpTo<K>(votes: seq<K>, k: K, less: (K, K) -> bool): nat {
    if votes == [] then 0
    else UpTo(votes[..|votes| - 1], k, less) + if less(k, votes[|votes| - 1]) then 0 else 1
  }

  function TableCount<K(==)>(t: Table<K>, k: K): nat {
    if t == [] then 0 else (if t[0].0 == k then t[0].1 else 0) + TableCount(t[1..], k)
  }

  lemma {:induction false} BumpKeeps<K(!new)>(t: Table<K>, v: K, k: K, less: (K, K) -> bool)
    requires StrictOrder(less) && Ordered(t, less)
    ensures var t' := Bump(t, v, less);
            && Ordered(t', less) && t' != [] && (t'[0].0 == v || (t != [] && t'[0].0 == t[0].0))
            && TableUpTo(t', k, less) == TableUpTo(t, k, less) + (if less(k, v) then 0 else 1)
            && TableCount(t', k) == TableCount(t, k) + (if k == v then 1 else 0)
  {
    var t' := Bump(t, v, less);
    if t != [] {
      if t[0].0 == v {
        assert t'[1..] == t[1..];
      } else if less(v, t[0].0) {
        assert t'[1..] == t;
      } else {
        BumpKeeps(t[1..], v, k, less);
        assert t'[1..] == Bump(t[1..], v, less);
      }
    }
  }

  /** The table of a list of votes agrees with the votes on every count. */
  lemma {:induction false} TallyCounts<K(!new)>(votes: seq<K>, k: K, less: (K, K) -> bool)
    requires StrictOrder(less)
    ensures var t := Tally(votes, less);
            Ordered(t, less) && TableUpTo(t, k, less) == UpTo(votes, k, less) && TableCount(t, k) == multiset(votes)[k]
  {
    if votes != [] {
      var n := |votes| - 1;
      TallyCounts(votes[..n], k, less);
      BumpKeeps(Tally(votes[..n], less), votes[n], k, less);
      assert votes == votes[..n] + [votes[n]];
    }
  }

  lemma {:induction false} HeadIsFirst<K(!new)>(t: Table<K>, i: nat, less: (K, K) -> bool)
    requires StrictOrder(less) && Ordered(t, less) && 0 < i < |t|
    ensures less(t[0].0, t[i].0)
  {
    if i > 1 { HeadIsFirst(t[1..], i - 1, less); }
  }

  lemma {:induction false} NothingBefore<K(!new)>(t: Table<K>, k: K, less: (K, K) -> bool)
    requires forall i :: 0 <= i < |t| ==> less(k, t[i].0)
    ensures TableUpTo(t, k, less) == 0
  {
    if t != [] { NothingBefore(t[1..], k, less); }
  }

  lemma {:induction false} NotCounted<K(!new)>(t: Table<K>, k: K)
    requires forall i :: 0 <= i < |t| ==> t[i].0 != k
    ensures TableCount(t, k) == 0
  {
    if t != [] { NotCounted(t[1..], k); }
  }

  // ---- The scan for the majority version

  /** Cumulative scan: the first key at which the running total reaches what is required. */
  function Scan<K>(t: Table<K>, sum: nat, required: nat): Option<K> {
    if t == [] then None
    else if sum + t[0].1 >= required then Some(t[0].0)
    else Scan(t[1..], sum + t[0].1, required)
  }

  ghost predicate IsKey<K(!new)>(t: Table<K>, k: K) {
    exists i :: 0 <= i < |t| && t[i].0 == k
  }

  lemma HeadCount<K(!new)>(t: Table<K>, less: (K, K) -> bool)
    requires StrictOrder(less) && Ordered(t, less) && t != []
    ensures TableUpTo(t, t[0].0, less) == t[0].1 == TableCount(t, t[0].0)
  {
    forall i | 0 <= i < |t[1..]| ensures less(t[0].0, t[1..][i].0) { HeadIsFirst(t, i + 1, less); }
    NothingBefore(t[1..], t[0].0, less);
    NotCounted(t[1..], t[0].0);
  }

  ghost predicate Reaches<K>(t: Table<K>, sum: nat, required: nat, k: K, less: (K, K) -> bool) {
    sum + TableUpTo(t, k, less) >= required
  }

  /** The scan stops at the first key whose cumulative count reaches the requirement, if there is one. */
  lemma {:induction false} ScanExact<K(!new)>(t: Table<K>, sum: nat, required: nat, i: nat, less: (K, K) -> bool)
    requires StrictOrder(less) && Ordered(t, less) && i < |t|
    ensures var r := Scan(t, sum, required);
            && (r == Some(t[i].0) ==> Reaches(t, sum, required, t[i].0, less))
            && (r.None? || less(t[i].0, r.value) ==> !Reaches(t, sum, required, t[i].0, less))
  {
    HeadCount(t, less);
    if i > 0 {
      HeadIsFirst(t, i, less);
      if sum + t[0].1 < required { ScanExact(t[1..], sum + t[0].1, required, i - 1, less); }
    } else {
      ScanFindsKey(t[1..], sum + t[0].1, required);
      if j :| 0 <= j < |t[1..]| && Scan(t, sum, required) == Some(t[1..][j].0) {
        HeadIsFirst(t, j + 1, less);
      }
    }
  }

  lemma {:induction false} ScanFindsKey<K(!new)>(t: Table<K>, sum: nat, required: nat)
    ensures Scan(t, sum, required).Some? ==> IsKey(t, Scan(t, sum, required).value)
  {
    if t != [] && sum + t[0].1 < required {
      ScanFindsKey(t[1..], sum + t[0].1, required);
      if Scan(t, sum, required).Some? {
        var i :| 0 <= i < |t[1..]| && t[1..][i].0 == Scan(t, sum, required).value;
        assert t[i + 1].0 == Scan(t, sum, required).value;
      }
    }
  }

  predicate Positive<K>(t: Table<K>) {
    t == [] || (t[0].1 > 0 && Positive(t[1..]))
  }

  lemma {:induction false} BumpPositive<K(!new)>(t: Table<K>, v: K, less: (K, K) -> bool)
    requires Positive(t)
    ensures Positive(Bump(t, v, less))
  {
    var t' := Bump(t, v, less);
    if t != [] {
      BumpPositive(t[1..], v, less);
      assert t'[1..] == if t[0].0 == v then t[1..] else if less(v, t[0].0) then t else Bump(t[1..], v, less);
    }
  }

  lemma {:induction false} TallyPositive<K(!new)>(votes: seq<K>, less: (K, K) -> bool)
    ensures Positive(Tally(votes, less))
  {
    if votes != [] {
      TallyPositive(votes[..|votes| - 1], less);
      BumpPositive(Tally(votes[..|votes| - 1], less), votes[|votes| - 1], less);
    }
  }

  lemma {:induction false} EntryCounts<K(!new)>(t: Table<K>, i: nat, less: (K, K) -> bool)
    requires StrictOrder(less) && Ordered(t, less) && Positive(t) && i < |t|
    ensures TableCount(t, t[i].0) == t[i].1 > 0
  {
    if i == 0 {
      HeadCount(t, less);
    } else {
      HeadIsFirst(t, i, less);
      EntryCounts(t[1..], i - 1, less);
    }
  }

  /** The keys of the table are the values voted for, each with the number of its votes. */
  lemma TallyKeys<K(!new)>(votes: seq<K>, less: (K, K) -> bool)
    requires StrictOrder(less)
    ensures var t := Tally(votes, less);
            && Ordered(t, less)
            && (forall k :: k in votes <==> IsKey(t, k))
            && (forall i :: 0 <= i < |t| ==> t[i].1 == multiset(votes)[t[i].0])
  {
    var t := Tally(votes, less);
    TallyPositive(votes, less);
    if votes != [] { TallyCounts(votes, votes[0], less); }
    forall i | 0 <= i < |t| ensures t[i].1 == multiset(votes)[t[i].0] && t[i].0 in votes {
      TallyCounts(votes, t[i].0, less);
      EntryCounts(t, i, less);
    }
    forall k <- votes ensures IsKey(t, k) {
      TallyCounts(votes, k, less);
      if !IsKey(t, k) { NotCounted(t, k); }
    }
  }

  /** k is the first value voted for at which the votes up to it reach what is required. */
  ghost predicate FirstReaching<K(!new)>(votes: seq<K>, required: nat, k: K, less: (K, K) -> bool) {
    && k in votes && UpTo(votes, k, less) >= required
    && forall k' <- votes :: less(k', k) ==> UpTo(votes, k', less) < required
  }

  lemma TallyScan<K(!new)>(votes: seq<K>, required: nat, less: (K, K) -> bool)
    requires StrictOrder(less)
    ensures var r := Scan(Tally(votes, less), 0, required);
            && (r.Some? ==> FirstReaching(votes, required, r.value, less))
            && (r.None? ==> forall k <- votes :: UpTo(votes, k, less) < required)
  {
    var t := Tally(votes, less);
    TallyKeys(votes, less);
    ScanFindsKey(t, 0, required);
    forall k <- votes
      ensures var r := Scan(t, 0, required);
              && (r == Some(k) ==> UpTo(votes, k, less) >= required)
              && (r.None? || less(k, r.value) ==> UpTo(votes, k, less) < required)
    {
      TallyCounts(votes, k, less);
      var i :| 0 <= i < |t| && t[i].0 == k;
      ScanExact(t, 0, required, i, less);
    }
  }

  /** Counting loop: one pass over the votes. */
  method CountVotes<K(==,!new)>(votes: seq<K>, less: (K, K) -> bool) returns (t: Table<K>)
    ensures t == Tally(votes, less)
  {
    t := [];
    for i := 0 to |votes|
      invariant t == Tally(votes[..i], less)
    {
      t := Bump(t, votes[i], less);
      assert votes[..i + 1][..i] == votes[..i];
    }
    assert votes[..|votes|] == votes;
  }

  // ---- Versions, highest first

  predicate Newer(a: nat, b: nat) { a > b }

  /** The scheduled witnesses that run at least version v. */
  function AtLeast(versions: seq<nat>, v: nat): nat {
    if versions == [] then 0
    else AtLeast(versions[..|versions| - 1], v) + if versions[|versions| - 1] >= v then 1 else 0
  }

  lemma {:induction false} AtLeastIsUpTo(versions: seq<nat>, v: nat)
    ensures AtLeast(versions, v) == UpTo(versions, v, Newer)
  {
    if versions != [] { AtLeastIsUpTo(versions[..|versions| - 1], v); }
  }

  /** v is the highest running version that at least the required number of witnesses run or exceed. */
  ghost predicate IsMajorityVersion(versions: seq<nat>, required: nat, v: nat) {
    && v in versions && AtLeast(versions, v) >= required
    && forall w <- versions :: w > v ==> AtLeast(versions, w) < required
  }

  /** The version after the descending cumulative scan; it stays as it is when no majority exists. */
  function VersionAfter(versions: seq<nat>, required: nat, current: nat): nat {
    match Scan(Tally(versions, Newer), 0, required)
    case None => current
    case Some(v) => v
  }

  lemma VersionExact(versions: seq<nat>, required: nat, current: nat)
    ensures var v := VersionAfter(versions, required, current);
            IsMajorityVersion(versions, required, v) ||
            (v == current && forall w <- versions :: AtLeast(versions, w) < required)
  {
    TallyScan(versions, required, Newer);
    forall w: nat ensures AtLeast(versions, w) == UpTo(versions, w, Newer) { AtLeastIsUpTo(versions, w); }
  }

  method MajorityVersion(versions: seq<nat>, required: nat, current: nat) returns (v: nat)
    ensures v == VersionAfter(versions, required, current)
  {
    var t := CountVotes(versions, Newer);
    var sum: nat, i := 0, 0;
    v := current;
    while i < |t|
      invariant 0 <= i <= |t| && v == current
      invariant Scan(t, 0, required) == Scan(t[i..], sum, required)
    {
      sum := sum + t[i].1;
      if sum >= required {
        v := t[i].0;
        break;
      }
      i := i + 1;
    }
  }

  // ---- Hardfork votes

  datatype Vote = Vote(version: nat, time: nat)

  predicate Sooner(a: Vote, b: Vote) {
    a.version < b.version || (a.version == b.version && a.time < b.time)
  }

  lemma {:induction false} TwoCounts<K>(votes: seq<K>, a: K, b: K)
    requires a != b
    ensures multiset(votes)[a] + multiset(votes)[b] <= |votes|
  {
    if votes != [] {
      var n := |votes| - 1;
      TwoCounts(votes[..n], a, b);
      assert votes == votes[..n] + [votes[n]];
    }
  }

  ghost predicate Wins(votes: seq<Vote>, required: nat, k: Vote) {
    k in votes && multiset(votes)[k] >= required
  }

  /** With more than half required, at most one pair of hardfork and time can win. */
  lemma OneWinner(votes: seq<Vote>, required: nat, a: Vote, b: Vote)
    requires 2 * required > |votes| && Wins(votes, required, a) && Wins(votes, required, b)
    ensures a == b
  {
    if a != b { TwoCounts(votes, a, b); }
  }

  /** The first entry with the required number of votes. */
  function Winner(t: Table<Vote>, required: nat): Option<Vote> {
    if t == [] then None else if t[0].1 >= required then Some(t[0].0) else Winner(t[1..], required)
  }

  /** The next hardfork and its time after the votes: the winner, or the current version with the time untouched. */
  function HardforkAfter(votes: seq<Vote>, required: nat, current: nat, next: Vote): Vote {
    match Winner(Tally(votes, Sooner), required)
    case None => next.(version := current)
    case Some(k) => k
  }

  ghost predicate IsFirst(t: Table<Vote>, required: nat, i: int) {
    0 <= i < |t| && t[i].1 >= required && forall j :: 0 <= j < i ==> t[j].1 < required
  }

  lemma {:induction false} WinnerIsFirst(t: Table<Vote>, required: nat)
    requires Ordered(t, Sooner)
    ensures match Winner(t, required)
            case None => forall i :: 0 <= i < |t| ==> t[i].1 < required
            case Some(k) => exists i :: IsFirst(t, required, i) && t[i].0 == k
  {
    if t != [] && t[0].1 >= required {
      assert IsFirst(t, required, 0);
    } else if t != [] {
      WinnerIsFirst(t[1..], required);
      if Winner(t, required).Some? {
        var i :| IsFirst(t[1..], required, i) && t[1..][i].0 == Winner(t, required).value;
        assert forall j :: 0 < j <= i + 1 ==> t[j] == t[1..][j - 1];
        assert IsFirst(t, required, i + 1);
      }
    }
  }

  /** The pair stored is the first in order with the required votes; if nobody has them, the current version is. */
  lemma HardforkExact(votes: seq<Vote>, required: nat, current: nat, next: Vote)
    ensures var r := HardforkAfter(votes, required, current, next);
            (Wins(votes, required, r) && forall k <- votes :: Sooner(k, r) ==> !Wins(votes, required, k)) ||
            (r == next.(version := current) && forall k <- votes :: !Wins(votes, required, k))
  {
    var t := Tally(votes, Sooner);
    TallyKeys(votes, Sooner);
    WinnerIsFirst(t, required);
    forall k <- votes ensures IsKey(t, k) {}
    if Winner(t, required).Some? {
      var i :| IsFirst(t, required, i) && t[i].0 == Winner(t, required).value;
      assert IsKey(t, t[i].0);
      forall k <- votes | Sooner(k, t[i].0) ensures !Wins(votes, required, k) {
        var j :| 0 <= j < |t| && t[j].0 == k;
        if j > i { EntriesInOrder(t, i, j, Sooner); }
      }
    }
  }

  /** A pair with the required votes, when that is more than half, is the one stored. */
  lemma WinnerStored(votes: seq<Vote>, required: nat, current: nat, next: Vote, k: Vote)
    requires 2 * required > |votes| && Wins(votes, required, k)
    ensures HardforkAfter(votes, required, current, next) == k
  {
    HardforkExact(votes, required, current, next);
    OneWinner(votes, required, HardforkAfter(votes, required, current, next), k);
  }

  method MajorityVote(votes: seq<Vote>, required: nat) returns (r: Option<Vote>)
    ensures r == Winner(Tally(votes, Sooner), required)
  {
    var t := CountVotes(votes, Sooner);
    var i := 0;
    while i < |t|
      invariant 0 <= i <= |t| && Winner(t, required) == Winner(t[i..], required)
    {
      if t[i].1 >= required { return Some(t[i].0); }
      i := i + 1;
    }
    return None;
  }

  lemma {:induction false} EntriesInOrder<K(!new)>(t: Table<K>, i: nat, j: nat, less: (K, K) -> bool)
    requires StrictOrder(less) && Ordered(t, less) && i < j < |t|
    ensures less(t[i].0, t[j].0)
  {
    if i == 0 { HeadIsFirst(t, j, less); } else { EntriesInOrder(t[1..], i - 1, j - 1, less); }
  }

  // ---- Medians

  /** How many elements have a key below m, and how many within a range. */
  function Below<T>(xs: seq<T>, key: T -> int, m: int): nat {
    if xs == [] then 0 else Below(xs[..|xs| - 1], key, m) + if key(xs[|xs| - 1]) < m then 1 else 0
  }

  function Within<T>(xs: seq<T>, key: T -> int, lo: int, hi: int): nat {
    if xs == [] then 0 else Within(xs[..|xs| - 1], key, lo, hi) + if lo <= key(xs[|xs| - 1]) <= hi then 1 else 0
  }

  /** The upper median of the keys: at most half of them lie below it, and more than half lie at or below it. */
  ghost predicate IsMedian<T>(xs: seq<T>, key: T -> int, m: int) {
    Below(xs, key, m) <= |xs| / 2 < Below(xs, key, m + 1)
  }

  predicate SortedBy<T>(xs: seq<T>, key: T -> int) {
    forall i, j :: 0 <= i < j < |xs| ==> key(xs[i]) <= key(xs[j])
  }

  function Insert<T>(xs: seq<T>, x: T, key: T -> int): seq<T> {
    if xs == [] || key(xs[|xs| - 1]) <= key(x) then xs + [x] else Insert(xs[..|xs| - 1], x, key) + [xs[|xs| - 1]]
  }

  lemma {:induction false} InsertElements<T>(xs: seq<T>, x: T, key: T -> int)
    ensures multiset(Insert(xs, x, key)) == multiset(xs) + multiset{x}
  {
    if xs != [] && key(xs[|xs| - 1]) > key(x) {
      var n := |xs| - 1;
      InsertElements(xs[..n], x, key);
      assert xs == xs[..n] + [xs[n]];
    }
  }

  lemma {:induction false} InsertSorts<T>(xs: seq<T>, x: T, key: T -> int)
    requires SortedBy(xs, key)
    ensures SortedBy(Insert(xs, x, key), key)
  {
    if xs != [] && key(xs[|xs| - 1]) > key(x) {
      var n := |xs| - 1;
      var r := Insert(xs[..n], x, key);
      InsertSorts(xs[..n], x, key);
      InsertElements(xs[..n], x, key);
      forall i | 0 <= i < |r| ensures key(r[i]) <= key(xs[n]) {
        assert r[i] in multiset(r);
        assert r[i] in xs[..n] || r[i] == x;
      }
    }
  }

  function Sorted<T>(xs: seq<T>, key: T -> int): seq<T> {
    if xs == [] then [] else Insert(Sorted(xs[..|xs| - 1], key), xs[|xs| - 1], key)
  }

  lemma {:induction false} SortedSorts<T>(xs: seq<T>, key: T -> int)
    ensures SortedBy(Sorted(xs, key), key) && multiset(Sorted(xs, key)) == multiset(xs) && |Sorted(xs, key)| == |xs|
  {
    if xs != [] {
      var n := |xs| - 1;
      SortedSorts(xs[..n], key);
      InsertSorts(Sorted(xs[..n], key), xs[n], key);
      InsertElements(Sorted(xs[..n], key), xs[n], key);
      assert xs == xs[..n] + [xs[n]];
      assert |multiset(Sorted(xs, key))| == |multiset(xs)|;
    }
  }

  method SortBy<T>(xs: seq<T>, key: T -> int) returns (r: seq<T>)
    ensures r == Sorted(xs, key)
  {
    r := [];
    for i := 0 to |xs|
      invariant r == Sorted(xs[..i], key)
    {
      r := Insert(r, xs[i], key);
      assert xs[..i + 1][..i] == xs[..i];
    }
    assert xs[..|xs|] == xs;
  }

  lemma {:induction false} BelowConcat<T>(xs: seq<T>, ys: seq<T>, key: T -> int, m: int)
    ensures Below(xs + ys, key, m) == Below(xs, key, m) + Below(ys, key, m)
  {
    if ys == [] {
      assert xs + ys == xs;
    } else {
      var n := |ys| - 1;
      BelowConcat(xs, ys[..n], key, m);
      assert (xs + ys)[..|xs + ys| - 1] == xs + ys[..n];
    }
  }

  lemma TakeOut<T>(ys: seq<T>, x: T, key: T -> int, m: int) returns (rest: seq<T>)
    requires x in ys
    ensures multiset(ys) == multiset(rest) + multiset{x}
    ensures Below(ys, key, m) == Below(rest, key, m) + if key(x) < m then 1 else 0
  {
    var i :| 0 <= i < |ys| && ys[i] == x;
    var front, back := ys[..i], ys[i + 1..];
    rest := front + back;
    assert ys == (front + [x]) + back;
    BelowConcat(front, back, key, m);
    BelowConcat(front + [x], back, key, m);
    assert (front + [x])[..i] == front;
  }

  lemma {:induction false} BelowPermuted<T>(xs: seq<T>, ys: seq<T>, key: T -> int, m: int)
    requires multiset(xs) == multiset(ys)
    ensures Below(xs, key, m) == Below(ys, key, m)
  {
    if xs == [] {
      assert |multiset(ys)| == 0;
    } else {
      var n := |xs| - 1;
      assert xs == xs[..n] + [xs[n]];
      assert xs[n] in multiset(ys);
      var rest := TakeOut(ys, xs[n], key, m);
      assert multiset(xs[..n]) == multiset(xs) - multiset{xs[n]};
      assert multiset(rest) == multiset(ys) - multiset{xs[n]};
      BelowPermuted(xs[..n], rest, key, m);
    }
  }

  lemma {:induction false} BelowBounds<T>(xs: seq<T>, key: T -> int, m: int)
    ensures Below(xs, key, m) <= |xs|
    ensures (forall x <- xs :: key(x) < m) ==> Below(xs, key, m) == |xs|
    ensures (forall x <- xs :: key(x) >= m) ==> Below(xs, key, m) == 0
  {
    if xs != [] { BelowBounds(xs[..|xs| - 1], key, m); }
  }

  lemma BelowSplit<T>(r: seq<T>, key: T -> int, m: int, h: nat)
    requires h <= |r|
    ensures (forall i :: h <= i < |r| ==> key(r[i]) >= m) ==> Below(r, key, m) <= h
    ensures (forall i :: 0 <= i < h ==> key(r[i]) < m) ==> Below(r, key, m) >= h
  {
    assert r == r[..h] + r[h..];
    BelowConcat(r[..h], r[h..], key, m);
    BelowBounds(r[..h], key, m);
    BelowBounds(r[h..], key, m);
  }

  /** The middle of the sorted list is the median of any list with the same elements. */
  lemma MiddleIsMedian<T>(xs: seq<T>, r: seq<T>, key: T -> int)
    requires SortedBy(r, key) && multiset(r) == multiset(xs) && xs != []
    ensures |r| == |xs| && IsMedian(xs, key, key(r[|r| / 2]))
  {
    assert |r| == |multiset(r)| == |xs|;
    var h := |r| / 2;
    BelowSplit(r, key, key(r[h]), h);
    BelowSplit(r, key, key(r[h]) + 1, h + 1);
    BelowPermuted(r, xs, key, key(r[h]));
    BelowPermuted(r, xs, key, key(r[h]) + 1);
  }

  lemma {:induction false} WithinIsDifference<T>(xs: seq<T>, key: T -> int, lo: int, hi: int)
    requires lo <= hi
    ensures Within(xs, key, lo, hi) + Below(xs, key, lo) == Below(xs, key, hi + 1)
  {
    if xs != [] { WithinIsDifference(xs[..|xs| - 1], key, lo, hi); }
  }

  lemma {:induction false} BelowMonotone<T>(xs: seq<T>, key: T -> int, m: int, n: int)
    requires m <= n
    ensures Below(xs, key, m) <= Below(xs, key, n)
  {
    if xs != [] { BelowMonotone(xs[..|xs| - 1], key, m, n); }
  }

  lemma {:induction false} NoneWithin<T>(xs: seq<T>, key: T -> int, lo: int, hi: int)
    requires lo > hi
    ensures Within(xs, key, lo, hi) == 0
  {
    if xs != [] { NoneWithin(xs[..|xs| - 1], key, lo, hi); }
  }

  /** No minority moves a median outside the range of a strict majority. */
  lemma MajorityHoldsMedian<T>(xs: seq<T>, key: T -> int, m: int, lo: int, hi: int)
    requires IsMedian(xs, key, m) && 2 * Within(xs, key, lo, hi) > |xs|
    ensures lo <= m <= hi
  {
    if lo > hi { NoneWithin(xs, key, lo, hi); } else { WithinIsDifference(xs, key, lo, hi); }
    BelowBounds(xs, key, hi + 1);
    if m < lo { BelowMonotone(xs, key, m + 1, lo); }
    if m > hi { BelowMonotone(xs, key, hi + 1, m); }
  }

  /** The median is determined by the keys. */
  lemma OneMedian<T>(xs: seq<T>, key: T -> int, m: int, n: int)
    requires IsMedian(xs, key, m) && IsMedian(xs, key, n)
    ensures m == n
  {
    if m < n { BelowMonotone(xs, key, m + 1, n); }
    if n < m { BelowMonotone(xs, key, n + 1, m); }
  }
}
