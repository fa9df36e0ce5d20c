/** Both hypotheses of monotonicity are needed: a graph too high for the depth limit, and one too wide for the account
    budget, on each of which one more signature turns a yes into a no (sign_state.cpp). */
module AuthorityExamples {
  import opened Authorities
  import opened AuthorityMeaning

  const BASE := {"temp"}

  // ---- Too high

  const TOP := Authority(2, [AccountAuth("a", 1), AccountAuth("c", 1)], [])

  function DeepGraph(name: Account): Authority {
    if name == "a" then Authority(1, [AccountAuth("b", 1)], [KeyAuth(1, 1)])
    else if name == "b" then Authority(1, [], [KeyAuth(2, 1)])
    else if name == "c" then Authority(1, [AccountAuth("d", 1)], [])
    else if name == "d" then Authority(1, [AccountAuth("b", 1)], [])
    else Authority(1, [], [])
  }

  /** The limits the chain database passes. */
  function DeepContext(): Context { Context(DeepGraph, {}, 2, 40, 125) }

  /** One level beyond the depth limit: signing with key 1 as well as key 2 makes account "a" exit early, so "b" is
      never remembered, and the check of "c" hits the limit. No other limit is near. */
  lemma NotMonotoneBeyondHeight()
    ensures Roomy(DeepContext(), BASE, 2, TOP, 0) && HeightAtMost(DeepGraph, BASE, 3, TOP)
    ensures CheckImpl(DeepContext(), TOP, 0, Initial({2}), 0).ok
    ensures !CheckImpl(DeepContext(), TOP, 0, Initial({1, 2}), 0).ok
  {
    DeepHeight();
    DeepRoom();
    OneSignature();
    TwoSignatures();
  }

  /** An authority over one account is one level higher than that account's. */
  lemma OneHigher(getActive: Account -> Authority, n: nat, auth: Authority, a: AccountAuth)
    requires auth.accountAuths == [a] && HeightAtMost(getActive, BASE, n, getActive(a.account))
    ensures HeightAtMost(getActive, BASE, n + 1, auth)
  {
  }

  lemma DeepHeight()
    ensures HeightAtMost(DeepGraph, BASE, 3, TOP)
  {
    assert HeightAtMost(DeepGraph, BASE, 0, DeepGraph("b")) && HeightAtMost(DeepGraph, BASE, 1, DeepGraph("b"));
    OneHigher(DeepGraph, 0, DeepGraph("d"), AccountAuth("b", 1));
    OneHigher(DeepGraph, 1, DeepGraph("a"), AccountAuth("b", 1));
    OneHigher(DeepGraph, 1, DeepGraph("c"), AccountAuth("d", 1));
  }

  lemma DeepRoom()
    ensures Roomy(DeepContext(), BASE, 2, TOP, 0)
  {
    DeepFits();
    DeepVisits();
  }

  lemma DeepFits()
    ensures Fits(DeepContext(), BASE, 2, TOP)
  {
    var ctx := DeepContext();
    forall a: Account ensures Fits(ctx, BASE, 0, DeepGraph(a)) {}
    forall a: Account ensures Fits(ctx, BASE, 1, DeepGraph(a)) {}
  }

  lemma DeepVisits()
    ensures Visits(DeepGraph, BASE, 2, TOP, 0) <= 4
  {
    assert Visits(DeepGraph, BASE, 1, DeepGraph("a"), 1) == 0 && Visits(DeepGraph, BASE, 1, DeepGraph("a"), 0) <= 1;
    assert Visits(DeepGraph, BASE, 1, DeepGraph("c"), 1) == 0 && Visits(DeepGraph, BASE, 1, DeepGraph("c"), 0) <= 1;
    assert Visits(DeepGraph, BASE, 2, TOP, 2) == 0 && Visits(DeepGraph, BASE, 2, TOP, 1) <= 2;
  }

  lemma OneSignature()
    ensures CheckImpl(DeepContext(), TOP, 0, Initial({2}), 0).ok
  {
    var ctx, m0 := DeepContext(), Initial({2});
    var m1 := m0.(provided := m0.provided[2 := true]);
    assert CheckImpl(ctx, DeepGraph("b"), 2, m0, 2) == Outcome(true, m1, 2);
    var m2 := m1.(approved := m1.approved + {"b"});
    assert SubCheck(ctx, "b", 1, m0, 1) == Outcome(true, m2, 2);
    assert ScanKeys(ctx, DeepGraph("a"), 0, 0, 0, m0) == Go(0, 1, m0);
    assert CheckImpl(ctx, DeepGraph("a"), 1, m0, 1) == Outcome(true, m2, 2);
    var m3 := m2.(approved := m2.approved + {"a"});
    assert SubCheck(ctx, "a", 0, m0, 0) == Outcome(true, m3, 2);
    assert CheckImpl(ctx, DeepGraph("d"), 2, m3, 4).ok;
    assert CheckImpl(ctx, DeepGraph("c"), 1, m3, 3).ok;
    assert SubCheck(ctx, "c", 0, m3, 2).ok;
    assert ScanAccounts(ctx, TOP, 1, 1, 1, 0, m3, 2).ok;
  }

  lemma TwoSignatures()
    ensures !CheckImpl(DeepContext(), TOP, 0, Initial({1, 2}), 0).ok
  {
    var ctx, m0 := DeepContext(), Initial({1, 2});
    var m1 := m0.(provided := m0.provided[1 := true]);
    assert CheckImpl(ctx, DeepGraph("a"), 1, m0, 1) == Outcome(true, m1, 1);
    var m2 := m1.(approved := m1.approved + {"a"});
    assert SubCheck(ctx, "a", 0, m0, 0) == Outcome(true, m2, 1);
    assert CheckImpl(ctx, DeepGraph("d"), 2, m2, 3) == Outcome(false, m2, 3);
    assert SubCheck(ctx, "d", 1, m2, 2) == Outcome(false, m2, 3);
    assert CheckImpl(ctx, DeepGraph("c"), 1, m2, 2) == Outcome(false, m2, 3);
    assert SubCheck(ctx, "c", 0, m2, 1) == Outcome(false, m2, 3);
    assert !ScanAccounts(ctx, TOP, 1, 1, 1, 0, m2, 1).ok;
  }

  // ---- Too wide

  const WIDE := Authority(2, [AccountAuth("a", 1), AccountAuth("f", 1), AccountAuth("h", 1)], [])

  function WideGraph(name: Account): Authority {
    if name == "a" then Authority(1, [AccountAuth("h", 1)], [KeyAuth(1, 1)])
    else if name == "f" then Authority(1, [AccountAuth("g", 1)], [])
    else if name == "g" then Authority(1, [], [KeyAuth(3, 1)])
    else Authority(1, [], [KeyAuth(2, 1)])
  }

  /** An account budget of three. */
  function WideContext(): Context { Context(WideGraph, {}, 2, 40, 3) }

  /** Within the depth limit but not within the budget: with key 1 as well as key 2, account "a" exits early and the
      visits of "f" and "g" use the budget up before "h" is reached; with key 2 alone, "h" is remembered from "a". */
  lemma NotMonotoneBeyondBudget()
    ensures Fits(WideContext(), BASE, 2, WIDE) && HeightAtMost(WideGraph, BASE, 2, WIDE)
    ensures !InBudget(WideContext(), BASE, 2, WIDE, 0, 0)
    ensures CheckImpl(WideContext(), WIDE, 0, Initial({2}), 0).ok
    ensures !CheckImpl(WideContext(), WIDE, 0, Initial({1, 2}), 0).ok
  {
    WideFits();
    WideHeight();
    WideVisits();
    WideOne();
    WideTwo();
  }

  lemma WideFits()
    ensures Fits(WideContext(), BASE, 2, WIDE)
  {
    var ctx := WideContext();
    forall a: Account ensures Fits(ctx, BASE, 0, WideGraph(a)) {}
    forall a: Account ensures Fits(ctx, BASE, 1, WideGraph(a)) {}
  }

  lemma WideHeight()
    ensures HeightAtMost(WideGraph, BASE, 2, WIDE)
  {
    assert HeightAtMost(WideGraph, BASE, 0, WideGraph("g"));
    assert HeightAtMost(WideGraph, BASE, 0, WideGraph("h")) && HeightAtMost(WideGraph, BASE, 1, WideGraph("h"));
    OneHigher(WideGraph, 0, WideGraph("f"), AccountAuth("g", 1));
    OneHigher(WideGraph, 0, WideGraph("a"), AccountAuth("h", 1));
  }

  lemma WideVisits()
    ensures Visits(WideGraph, BASE, 2, WIDE, 0) == 5
  {
    assert Visits(WideGraph, BASE, 1, WideGraph("a"), 1) == 0 && Visits(WideGraph, BASE, 1, WideGraph("a"), 0) == 1;
    assert Visits(WideGraph, BASE, 1, WideGraph("f"), 1) == 0 && Visits(WideGraph, BASE, 1, WideGraph("f"), 0) == 1;
    assert Visits(WideGraph, BASE, 1, WideGraph("h"), 0) == 0;
    assert Visits(WideGraph, BASE, 2, WIDE, 3) == 0 && Visits(WideGraph, BASE, 2, WIDE, 2) == 1;
    assert Visits(WideGraph, BASE, 2, WIDE, 1) == 3;
  }

  lemma WideOne()
    ensures CheckImpl(WideContext(), WIDE, 0, Initial({2}), 0).ok
  {
    var ctx, m0 := WideContext(), Initial({2});
    var m1 := m0.(provided := m0.provided[2 := true]);
    assert CheckImpl(ctx, WideGraph("h"), 2, m0, 2) == Outcome(true, m1, 2);
    var m2 := m1.(approved := m1.approved + {"h"});
    assert SubCheck(ctx, "h", 1, m0, 1) == Outcome(true, m2, 2);
    assert ScanKeys(ctx, WideGraph("a"), 0, 0, 0, m0) == Go(0, 1, m0);
    assert CheckImpl(ctx, WideGraph("a"), 1, m0, 1) == Outcome(true, m2, 2);
    var m3 := m2.(approved := m2.approved + {"a"});
    assert SubCheck(ctx, "a", 0, m0, 0) == Outcome(true, m3, 2);
    assert ScanAccounts(ctx, WideGraph("f"), 0, 0, 0, 1, m3, 3) == Outcome(false, m3, 3);
    assert CheckImpl(ctx, WideGraph("f"), 1, m3, 3) == Outcome(false, m3, 3);
    assert SubCheck(ctx, "f", 0, m3, 2) == Outcome(false, m3, 3);
    assert ScanAccounts(ctx, WIDE, 2, 1, 2, 0, m3, 3).ok;
    assert ScanAccounts(ctx, WIDE, 1, 1, 1, 0, m3, 2).ok;
  }

  lemma WideTwo()
    ensures !CheckImpl(WideContext(), WIDE, 0, Initial({1, 2}), 0).ok
  {
    var ctx, m0 := WideContext(), Initial({1, 2});
    var m1 := m0.(provided := m0.provided[1 := true]);
    assert CheckImpl(ctx, WideGraph("a"), 1, m0, 1) == Outcome(true, m1, 1);
    var m2 := m1.(approved := m1.approved + {"a"});
    assert SubCheck(ctx, "a", 0, m0, 0) == Outcome(true, m2, 1);
    assert ScanKeys(ctx, WideGraph("g"), 0, 0, 0, m2) == Go(0, 1, m2);
    assert CheckImpl(ctx, WideGraph("g"), 2, m2, 3) == Outcome(false, m2, 3);
    assert SubCheck(ctx, "g", 1, m2, 2) == Outcome(false, m2, 3);
    assert CheckImpl(ctx, WideGraph("f"), 1, m2, 2) == Outcome(false, m2, 3);
    assert SubCheck(ctx, "f", 0, m2, 1) == Outcome(false, m2, 3);
    assert ScanAccounts(ctx, WIDE, 2, 1, 2, 0, m2, 3) == Outcome(false, m2, 3);
    assert ScanAccounts(ctx, WIDE, 1, 1, 1, 0, m2, 1) == Outcome(false, m2, 3);
  }
}
