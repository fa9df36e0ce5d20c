/** The verdict of verification in terms of what a transaction asks for (transaction_util.hpp). */
module Verdicts {
  import opened Authorities
  import opened AuthorityMeaning
  import opened RequiredSignatures

  /** What holds in plain recursion of a posting, active, owner or other authority that is asked for: a posting
      authority may be replaced by the active or the owner authority of the account, an active one by the owner
      authority. */
  ghost predicate PostingHolds(w: World, n: nat, getters: Getters, id: Account) {
    || PlainHolds(w, n, ById(id))
    || PlainHolds(w, n, ByAuthority(getters.active(id)))
    || PlainHolds(w, n, ByAuthority(getters.owner(id)))
  }

  ghost predicate ActiveHolds(w: World, n: nat, getters: Getters, id: Account) {
    PlainHolds(w, n, ById(id)) || PlainHolds(w, n, ByAuthority(getters.owner(id)))
  }

  ghost predicate OwnerHolds(w: World, n: nat, getters: Getters, id: Account) {
    PlainHolds(w, n, ByAuthority(getters.owner(id)))
  }

  ghost predicate OtherHolds(w: World, n: nat, auth: Authority) {
    PlainHolds(w, n, ByAuthority(auth))
  }

  /** Posting authorities cannot be mixed with any of the others. */
  lemma MixedVerdict(keys: set<Key>, getters: Getters, req: Required, limits: Limits)
    ensures VerifyAuthority(keys, getters, req, limits).Mixed? <==>
            req.posting != [] && (req.active != [] || req.owner != [] || req.other != [])
  {
    NeverMixed(SignContext(req, getters, {}, limits), Demands(req, getters), Initial(keys));
  }

  lemma {:induction false} NeverMixed(ctx: Context, demands: seq<Demand>, mem: Memory)
    requires forall d <- demands :: Missing(d.missing)
    ensures var v := RunDemands(ctx, demands, mem).0; v.Accepted? || Missing(v)
  {
    if demands != [] {
      assert demands[0] in demands;
      var (ok, mem1) := TryEach(ctx, [demands[0].first] + demands[0].rest, mem);
      if ok { NeverMixed(ctx, demands[1..], mem1); }
    }
  }

  ghost predicate Holds(w: World, n: nat, d: Demand) {
    SomeHolds(w, n, Alternatives(d))
  }

  /** The first demand without an alternative that holds gives the verdict. */
  lemma {:induction false} FirstMissing(ctx: Context, demands: seq<Demand>, mem: Memory, i: nat)
    requires Grown(ctx, mem, {"temp"}) && DemandsFit(ctx, demands) && i < |demands|
    requires var w := View(ctx, mem, {"temp"});
             && !Holds(w, ctx.maxRecursion, demands[i])
             && forall j :: 0 <= j < i ==> Holds(w, ctx.maxRecursion, demands[j])
    ensures RunDemands(ctx, demands, mem).0 == demands[i].missing
  {
    assert demands[0] in demands;
    TryEachExact(ctx, Alternatives(demands[0]), mem);
    var (ok, mem1) := TryEach(ctx, Alternatives(demands[0]), mem);
    assert View(ctx, mem1, {"temp"}) == View(ctx, mem, {"temp"});
    if i > 0 {
      assert Holds(View(ctx, mem, {"temp"}), ctx.maxRecursion, demands[0]);
      FirstMissing(ctx, demands[1..], mem1, i - 1);
    }
  }

  ghost predicate Block(w: World, n: nat, demands: seq<Demand>, lo: nat, hi: nat)
    requires hi <= |demands|
  {
    forall i :: lo <= i < hi ==> Holds(w, n, demands[i])
  }

  /** Verification within the limits, demand by demand: nothing is missing exactly when all hold. */
  lemma AllDemands(keys: set<Key>, getters: Getters, req: Required, limits: Limits, w: World)
    requires VerifyFits(req, getters, limits) && !VerifyAuthority(keys, getters, req, limits).Mixed?
    requires w == View(SignContext(req, getters, {}, limits), Initial(keys), {"temp"})
    ensures var demands := Demands(req, getters);
            !Missing(VerifyAuthority(keys, getters, req, limits)) <==>
            Block(w, limits.recursion, demands, 0, |demands|)
  {
    var ctx, demands := SignContext(req, getters, {}, limits), Demands(req, getters);
    FittingDemands(req, getters, limits);
    DemandsExact(ctx, demands, Initial(keys));
    assert (forall d <- demands :: SomeHolds(w, limits.recursion, Alternatives(d))) <==>
           Block(w, limits.recursion, demands, 0, |demands|);
  }

  lemma FirstDemand(keys: set<Key>, getters: Getters, req: Required, limits: Limits, w: World, i: nat)
    requires VerifyFits(req, getters, limits) && !VerifyAuthority(keys, getters, req, limits).Mixed?
    requires w == View(SignContext(req, getters, {}, limits), Initial(keys), {"temp"})
    requires var demands := Demands(req, getters);
             i < |demands| && !Holds(w, limits.recursion, demands[i]) && Block(w, limits.recursion, demands, 0, i)
    ensures VerifyAuthority(keys, getters, req, limits) == Demands(req, getters)[i].missing
  {
    var ctx, demands := SignContext(req, getters, {}, limits), Demands(req, getters);
    FittingDemands(req, getters, limits);
    DemandsExact(ctx, demands, Initial(keys));
    FirstMissing(ctx, demands, Initial(keys), i);
  }

  lemma TwoAlternatives(w: World, n: nat, d: Demand, c: Check)
    requires d.rest == [c]
    ensures Holds(w, n, d) <==> PlainHolds(w, n, d.first) || PlainHolds(w, n, c)
  {
    assert Alternatives(d) == [d.first, c];
    assert d.first in Alternatives(d) && c in Alternatives(d);
  }

  lemma ThreeAlternatives(w: World, n: nat, d: Demand, c: Check, c': Check)
    requires d.rest == [c, c']
    ensures Holds(w, n, d) <==> PlainHolds(w, n, d.first) || PlainHolds(w, n, c) || PlainHolds(w, n, c')
  {
    assert Alternatives(d) == [d.first, c, c'];
    assert d.first in Alternatives(d) && c in Alternatives(d) && c' in Alternatives(d);
  }

  lemma OneAlternative(w: World, n: nat, d: Demand)
    requires d.rest == []
    ensures Holds(w, n, d) <==> PlainHolds(w, n, d.first)
  {
    assert Alternatives(d) == [d.first];
    assert d.first in Alternatives(d);
  }

  // ---- Posting authorities

  ghost predicate PostingsHold(w: World, n: nat, getters: Getters, req: Required, k: nat)
    requires k <= |req.posting|
  {
    forall i :: 0 <= i < k ==> PostingHolds(w, n, getters, req.posting[i])
  }

  lemma PostingDemand(w: World, n: nat, getters: Getters, req: Required, i: nat)
    requires i < |req.posting|
    ensures |Demands(req, getters)| == |req.posting|
    ensures var d := Demands(req, getters)[i];
            && d.missing == MissingPosting(req.posting[i])
            && (Holds(w, n, d) <==> PostingHolds(w, n, getters, req.posting[i]))
  {
    var id := req.posting[i];
    ThreeAlternatives(w, n, Demands(req, getters)[i], ByAuthority(getters.active(id)), ByAuthority(getters.owner(id)));
  }

  lemma PostingBlock(w: World, n: nat, getters: Getters, req: Required, k: nat)
    requires req.posting != [] && k <= |req.posting|
    ensures |Demands(req, getters)| == |req.posting|
    ensures Block(w, n, Demands(req, getters), 0, k) <==> PostingsHold(w, n, getters, req, k)
  {
    forall i | 0 <= i < k
      ensures Holds(w, n, Demands(req, getters)[i]) <==> PostingHolds(w, n, getters, req.posting[i])
    {
      PostingDemand(w, n, getters, req, i);
    }
  }

  /** A transaction that asks for posting authorities: none is missing exactly when each holds, by itself or through the
      active or the owner authority of its account. */
  lemma NoPostingMissing(keys: set<Key>, getters: Getters, req: Required, limits: Limits)
    requires req.posting != [] && req.active == [] && req.owner == [] && req.other == []
    requires VerifyFits(req, getters, limits)
    ensures !Missing(VerifyAuthority(keys, getters, req, limits)) <==>
            PostingsHold(World(getters.posting, keys, {"temp"}), limits.recursion, getters, req, |req.posting|)
  {
    var w := World(getters.posting, keys, {"temp"});
    MixedVerdict(keys, getters, req, limits);
    AllDemands(keys, getters, req, limits, w);
    PostingBlock(w, limits.recursion, getters, req, |req.posting|);
  }

  /** Otherwise the verdict names the first that does not hold. */
  lemma PostingVerdict(keys: set<Key>, getters: Getters, req: Required, limits: Limits, i: nat)
    requires i < |req.posting| && req.active == [] && req.owner == [] && req.other == []
    requires VerifyFits(req, getters, limits)
    requires var w, n := World(getters.posting, keys, {"temp"}), limits.recursion;
             PostingsHold(w, n, getters, req, i) && !PostingHolds(w, n, getters, req.posting[i])
    ensures VerifyAuthority(keys, getters, req, limits) == MissingPosting(req.posting[i])
  {
    var w := World(getters.posting, keys, {"temp"});
    MixedVerdict(keys, getters, req, limits);
    PostingBlock(w, limits.recursion, getters, req, i);
    PostingDemand(w, limits.recursion, getters, req, i);
    FirstDemand(keys, getters, req, limits, w, i);
  }

  // ---- Without posting authorities

  /** The first k of a kind hold. */
  ghost predicate OthersHold(w: World, n: nat, req: Required, k: nat)
    requires k <= |req.other|
  {
    forall i :: 0 <= i < k ==> OtherHolds(w, n, req.other[i])
  }

  ghost predicate ActivesHold(w: World, n: nat, getters: Getters, req: Required, k: nat)
    requires k <= |req.active|
  {
    forall i :: 0 <= i < k ==> ActiveHolds(w, n, getters, req.active[i])
  }

  ghost predicate OwnersHold(w: World, n: nat, getters: Getters, req: Required, k: nat)
    requires k <= |req.owner|
  {
    forall i :: 0 <= i < k ==> OwnerHolds(w, n, getters, req.owner[i])
  }

  lemma OtherDemand(w: World, n: nat, getters: Getters, req: Required, i: nat)
    requires req.posting == [] && i < |req.other|
    ensures var d := Demands(req, getters)[i];
            d.missing == MissingOther(req.other[i]) && (Holds(w, n, d) <==> OtherHolds(w, n, req.other[i]))
  {
    OneAlternative(w, n, Demands(req, getters)[i]);
  }

  lemma ActiveDemand(w: World, n: nat, getters: Getters, req: Required, i: nat)
    requires req.posting == [] && i < |req.active|
    ensures var d := Demands(req, getters)[|req.other| + i];
            && d.missing == MissingActive(req.active[i])
            && (Holds(w, n, d) <==> ActiveHolds(w, n, getters, req.active[i]))
  {
    TwoAlternatives(w, n, Demands(req, getters)[|req.other| + i], ByAuthority(getters.owner(req.active[i])));
  }

  lemma OwnerDemand(w: World, n: nat, getters: Getters, req: Required, i: nat)
    requires req.posting == [] && i < |req.owner|
    ensures var d := Demands(req, getters)[|req.other| + |req.active| + i];
            && d.missing == MissingOwner(req.owner[i])
            && (Holds(w, n, d) <==> OwnerHolds(w, n, getters, req.owner[i]))
  {
    OneAlternative(w, n, Demands(req, getters)[|req.other| + |req.active| + i]);
  }

  lemma OthersBlock(w: World, n: nat, getters: Getters, req: Required, k: nat)
    requires req.posting == [] && k <= |req.other|
    ensures Block(w, n, Demands(req, getters), 0, k) <==> OthersHold(w, n, req, k)
  {
    forall i | 0 <= i < k ensures Holds(w, n, Demands(req, getters)[i]) <==> OtherHolds(w, n, req.other[i]) {
      OtherDemand(w, n, getters, req, i);
    }
  }

  lemma ActivesBlock(w: World, n: nat, getters: Getters, req: Required, k: nat)
    requires req.posting == [] && k <= |req.active|
    ensures var a := |req.other|;
            Block(w, n, Demands(req, getters), a, a + k) <==> ActivesHold(w, n, getters, req, k)
  {
    var a := |req.other|;
    forall i | a <= i < a + k
      ensures Holds(w, n, Demands(req, getters)[i]) <==> ActiveHolds(w, n, getters, req.active[i - a])
    {
      ActiveDemand(w, n, getters, req, i - a);
    }
    if Block(w, n, Demands(req, getters), a, a + k) {
      forall i | 0 <= i < k ensures ActiveHolds(w, n, getters, req.active[i]) {
        assert Holds(w, n, Demands(req, getters)[a + i]);
      }
    }
  }

  lemma OwnersBlock(w: World, n: nat, getters: Getters, req: Required, k: nat)
    requires req.posting == [] && k <= |req.owner|
    ensures var b := |req.other| + |req.active|;
            Block(w, n, Demands(req, getters), b, b + k) <==> OwnersHold(w, n, getters, req, k)
  {
    var b := |req.other| + |req.active|;
    forall i | b <= i < b + k
      ensures Holds(w, n, Demands(req, getters)[i]) <==> OwnerHolds(w, n, getters, req.owner[i - b])
    {
      OwnerDemand(w, n, getters, req, i - b);
    }
    if Block(w, n, Demands(req, getters), b, b + k) {
      forall i | 0 <= i < k ensures OwnerHolds(w, n, getters, req.owner[i]) {
        assert Holds(w, n, Demands(req, getters)[b + i]);
      }
    }
  }

  /** A transaction that asks for no posting authority: nothing is missing exactly when every other authority holds,
      every active authority by itself or through the owner authority of its account, and every owner authority. */
  lemma NothingMissing(keys: set<Key>, getters: Getters, req: Required, limits: Limits)
    requires req.posting == [] && VerifyFits(req, getters, limits)
    ensures var w, n := World(getters.active, keys, {"temp"}), limits.recursion;
            !Missing(VerifyAuthority(keys, getters, req, limits)) <==>
            && OthersHold(w, n, req, |req.other|) && ActivesHold(w, n, getters, req, |req.active|)
            && OwnersHold(w, n, getters, req, |req.owner|)
  {
    var w := World(getters.active, keys, {"temp"});
    MixedVerdict(keys, getters, req, limits);
    AllDemands(keys, getters, req, limits, w);
    OthersBlock(w, limits.recursion, getters, req, |req.other|);
    ActivesBlock(w, limits.recursion, getters, req, |req.active|);
    OwnersBlock(w, limits.recursion, getters, req, |req.owner|);
  }

  /** Otherwise the verdict names the first that does not hold: of the other authorities, */
  lemma OtherVerdict(keys: set<Key>, getters: Getters, req: Required, limits: Limits, i: nat)
    requires req.posting == [] && VerifyFits(req, getters, limits) && i < |req.other|
    requires var w := World(getters.active, keys, {"temp"});
             OthersHold(w, limits.recursion, req, i) && !OtherHolds(w, limits.recursion, req.other[i])
    ensures VerifyAuthority(keys, getters, req, limits) == MissingOther(req.other[i])
  {
    var w, n := World(getters.active, keys, {"temp"}), limits.recursion;
    MixedVerdict(keys, getters, req, limits);
    OthersBlock(w, n, getters, req, i);
    OtherDemand(w, n, getters, req, i);
    FirstDemand(keys, getters, req, limits, w, i);
  }

  /** then of the active ones, */
  lemma ActiveVerdict(keys: set<Key>, getters: Getters, req: Required, limits: Limits, i: nat)
    requires req.posting == [] && VerifyFits(req, getters, limits) && i < |req.active|
    requires var w, n := World(getters.active, keys, {"temp"}), limits.recursion;
             && OthersHold(w, n, req, |req.other|) && ActivesHold(w, n, getters, req, i)
             && !ActiveHolds(w, n, getters, req.active[i])
    ensures VerifyAuthority(keys, getters, req, limits) == MissingActive(req.active[i])
  {
    var w, n := World(getters.active, keys, {"temp"}), limits.recursion;
    MixedVerdict(keys, getters, req, limits);
    OthersBlock(w, n, getters, req, |req.other|);
    ActivesBlock(w, n, getters, req, i);
    ActiveDemand(w, n, getters, req, i);
    FirstDemand(keys, getters, req, limits, w, |req.other| + i);
  }

  /** then of the owner authorities. */
  lemma OwnerVerdict(keys: set<Key>, getters: Getters, req: Required, limits: Limits, i: nat)
    requires req.posting == [] && VerifyFits(req, getters, limits) && i < |req.owner|
    requires var w, n := World(getters.active, keys, {"temp"}), limits.recursion;
             && OthersHold(w, n, req, |req.other|) && ActivesHold(w, n, getters, req, |req.active|)
             && OwnersHold(w, n, getters, req, i) && !OwnerHolds(w, n, getters, req.owner[i])
    ensures VerifyAuthority(keys, getters, req, limits) == MissingOwner(req.owner[i])
  {
    var w, n := World(getters.active, keys, {"temp"}), limits.recursion;
    MixedVerdict(keys, getters, req, limits);
    OthersBlock(w, n, getters, req, |req.other|);
    ActivesBlock(w, n, getters, req, |req.active|);
    OwnersBlock(w, n, getters, req, i);
    OwnerDemand(w, n, getters, req, i);
    FirstDemand(keys, getters, req, limits, w, |req.other| + |req.active| + i);
  }
}
