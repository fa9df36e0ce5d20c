/** The part of a blockchain synopsis taken from the ids a peer has announced (node.cpp). */
module Synopses {
  import opened Common
  import opened SyncState

  /** The ids at distance m, m/2, m/4, ... from the end of the list, those that reach back before the list left out. */
  function Tail(ids: seq<ItemId>, m: nat): seq<ItemId> {
    if m == 0 then []
    else (if m <= |ids| then [ids[|ids| - m]] else []) + Tail(ids, m / 2)
  }

  /** The blocks between the first one of the client's synopsis and the last announced one, both included. */
  function Span(front: seq<ItemId>, ids: seq<ItemId>): int
    requires ids != []
  {
    ids[0].num + |ids| - if front == [] then 1 else front[0].num
  }

  /** low_block_num += (true_high_block_num - low_block_num + 2) / 2 in 32 bits. */
  function NextLow(low: nat, high: nat): nat { (low + ((high - low) % B32 + 2) % B32 / 2) % B32 }

  /** It halves what is left. */
  lemma NextLowHalves(low: nat, high: nat)
    requires low <= high && high + 1 < B32 && high - low + 2 < B32
    ensures high + 1 - NextLow(low, high) == (high + 1 - low) / 2
  {
    assert (high - low) % B32 == high - low;
    assert (high - low + 2) % B32 == high - low + 2;
  }

  /** Only for a span of at least 2^32 - 1 blocks it stands still, and the loop would not end. */
  lemma NextLowStuck(low: nat, high: nat)
    requires low <= high < B32
    ensures NextLow(low, high) == low <==> high - low >= B32 - 2
  {
    var d := high - low;
    assert d % B32 == d;
    if d >= B32 - 2 {
      assert (d + 2) % B32 == d + 2 - B32;
    } else {
      assert (d + 2) % B32 == d + 2;
      var step := (d + 2) / 2;
      assert 1 <= step && low + step < B32 + B32 / 2;
      assert (low + step) % B32 == if low + step >= B32 then low + step - B32 else low + step;
    }
  }

  /** The rounds of the loop over a span of m blocks, those that add no id included. */
  function Rounds(m: nat): nat { if m == 0 then 0 else 1 + Rounds(m / 2) }

  /** Logarithmically many rounds, exactly: one more than the logarithm of the span, rounded down. */
  lemma {:induction false} RoundsAreFew(m: nat)
    requires m >= 1
    ensures Rounds(m) >= 1 && Pow2(Rounds(m) - 1) <= m < Pow2(Rounds(m))
  {
    if m > 1 { RoundsAreFew(m / 2); } else { assert Rounds(0) == 0; }
  }

  /** One round of the loop appends the next part of the tail. */
  lemma TailStep(done: seq<ItemId>, ids: seq<ItemId>, m: nat)
    requires m > 0
    ensures done + Tail(ids, m) == (if m <= |ids| then done + [ids[|ids| - m]] else done) + Tail(ids, m / 2)
  {
  }

  /** create_blockchain_synopsis_for_peer: front is what the client returned. None is the failed range assertion,
      which happens exactly when the client's synopsis starts beyond the announced ids. The rounds
      counted include those before the first announced id, which add nothing. */
  method CreateSynopsis(front: seq<ItemId>, ids: seq<ItemId>) returns (r: Option<seq<ItemId>>, ghost rounds: nat)
    requires Consecutive(ids) && (ids != [] ==> ids[0].num + |ids| < B32 && Span(front, ids) < B32 - 1)
    requires front != [] ==> front[0].num < B32
    ensures ids == [] ==> r == Some(front)
    ensures ids != [] && Span(front, ids) < 1 ==> r.None?
    ensures ids != [] && Span(front, ids) >= 1 ==> r == Some(front + Tail(ids, Span(front, ids)))
    ensures ids == [] ==> rounds == 0
    ensures ids != [] ==> rounds == if Span(front, ids) < 1 then 1 else Rounds(Span(front, ids))
  {
    var synopsis := front;
    rounds := 0;
    if |ids| == 0 { return Some(synopsis), rounds; }
    var first := ids[0].num;
    var high := first + |ids| - 1;
    var low := if synopsis == [] then 1 else synopsis[0].num;
    ghost var span := Span(front, ids);
    while true
      invariant 0 <= low < B32
      invariant low > high ==> span < 1 && rounds == 0
      invariant low <= high ==> high - low + 2 < B32
      invariant low <= high ==> span >= 1 && rounds + Rounds(high + 1 - low) == Rounds(span)
      invariant low <= high ==> span >= 1 && synopsis + Tail(ids, high + 1 - low) == front + Tail(ids, span)
      decreases high + 1 - low
    {
      if low <= high {
        NextLowHalves(low, high);
        TailStep(synopsis, ids, high + 1 - low);
      }
      rounds := rounds + 1;
      if low >= first {
        var idx := low - first;
        if idx >= |ids| { return None, rounds; }
        synopsis := synopsis + [ids[idx]];
      }
      low := NextLow(low, high);
      if low > high {
        assert synopsis + Tail(ids, 0) == synopsis;
        return Some(synopsis), rounds;
      }
    }
  }

  /** It ends exactly on the last announced id. */
  lemma {:induction false} TailEnds(ids: seq<ItemId>, m: nat)
    requires ids != [] && m >= 1
    ensures Tail(ids, m) != [] && Tail(ids, m)[|Tail(ids, m)| - 1] == ids[|ids| - 1]
  {
    if m == 1 { assert Tail(ids, 0) == []; } else { TailEnds(ids, m / 2); }
  }

  function Halved(m: nat, k: nat): nat { if k == 0 then m else Halved(m / 2, k - 1) }

  /** Once the distance lies within the list, every round adds an id. */
  lemma {:induction false} TailIsWhole(ids: seq<ItemId>, m: nat)
    ensures |Tail(ids, m)| <= Rounds(m) && (m <= |ids| ==> |Tail(ids, m)| == Rounds(m))
  {
    if m > 0 { TailIsWhole(ids, m / 2); }
  }

  /** Round by round the distance from the end of the list is halved: the first rounds reach back before the list, each
      later one adds the id at its distance. */
  lemma {:induction false} TailHalves(ids: seq<ItemId>, m: nat, k: nat)
    requires k < Rounds(m)
    ensures var d, skipped := Halved(m, k), Rounds(m) - |Tail(ids, m)|;
            && d > 0 && (d > |ids| <==> k < skipped)
            && (d <= |ids| ==> 0 <= k - skipped < |Tail(ids, m)| && Tail(ids, m)[k - skipped] == ids[|ids| - d])
    decreases k
  {
    TailIsWhole(ids, m);
    TailIsWhole(ids, m / 2);
    if k > 0 { TailHalves(ids, m / 2, k - 1); }
  }

  /** Its block numbers are strictly increasing, and all come from the last m announced ids. */
  lemma {:induction false} TailIncreases(ids: seq<ItemId>, m: nat)
    requires Consecutive(ids) && (ids != [] ==> ids[0].num + |ids| < B32)
    ensures forall x <- Tail(ids, m) :: x in ids && x.num >= ids[0].num + |ids| - m
    ensures forall i, j :: 0 <= i < j < |Tail(ids, m)| ==> Tail(ids, m)[i].num < Tail(ids, m)[j].num
  {
    if m > 0 {
      TailIncreases(ids, m / 2);
      if m <= |ids| { assert ids[|ids| - m].num == ids[0].num + |ids| - m; }
    }
  }

  /** Logarithmically many: n ids need a span of at least 2^(n-1) blocks. */
  lemma {:induction false} TailIsShort(ids: seq<ItemId>, m: nat)
    requires Tail(ids, m) != []
    ensures Pow2(|Tail(ids, m)| - 1) <= m
  {
    if Tail(ids, m / 2) != [] { TailIsShort(ids, m / 2); }
  }
}
