/** What a check means on an account graph that may be cyclic: the memoising, early-exit checker lies between
    plain recursion cut off at the depth limit and the least fixed point (sign_state.cpp). */
module AuthorityMeaning {
  import opened Common
  import opened Authorities
  import opened AuthorityReplay

  // ---- The declarative side

  /** An account graph, the signed keys, and the accounts approved from the start. */
  datatype World = World(getActive: Account -> Authority, keys: set<Key>, base: set<Account>)

  function View(ctx: Context, mem: Memory, base: set<Account>): World {
    World(ctx.getActive, Full(ctx, mem), base)
  }

  function KeyWeight(auth: Authority, i: nat, keys: set<Key>): nat
    requires i <= |auth.keyAuths|
  {
    if i == 0 then 0
    else KeyWeight(auth, i - 1, keys) + if auth.keyAuths[i - 1].key in keys then auth.keyAuths[i - 1].weight else 0
  }

  ghost function AccountWeight(auth: Authority, i: nat, accounts: iset<Account>): nat
    requires i <= |auth.accountAuths|
  {
    if i == 0 then 0
    else AccountWeight(auth, i - 1, accounts) +
         if auth.accountAuths[i - 1].account in accounts then auth.accountAuths[i - 1].weight else 0
  }

  /** The signed keys and the given accounts together reach the threshold. */
  ghost predicate Meets(auth: Authority, keys: set<Key>, accounts: iset<Account>) {
    KeyWeight(auth, |auth.keyAuths|, keys) + AccountWeight(auth, |auth.accountAuths|, accounts) >= auth.threshold
  }

  /** Plain recursion without memo or early exit: the accounts approved by following n levels of accounts. */
  ghost function Level(w: World, n: nat): iset<Account> {
    iset a: Account | a in w.base || (n > 0 && Meets(w.getActive(a), w.keys, Level(w, n - 1)))
  }

  /** A set of accounts that contains the base and every account whose authority it meets. */
  ghost predicate Closed(w: World, accounts: iset<Account>) {
    && (forall a <- w.base :: a in accounts)
    && (forall a: Account {:trigger Meets(w.getActive(a), w.keys, accounts)} ::
       Meets(w.getActive(a), w.keys, accounts) ==> a in accounts)
  }

  /** Member of the least fixed point. */
  ghost predicate Approvable(w: World, a: Account) {
    forall accounts: iset<Account> :: Closed(w, accounts) ==> a in accounts
  }

  /** Satisfied in the least fixed point. */
  ghost predicate Satisfied(w: World, auth: Authority) {
    forall accounts: iset<Account> :: Closed(w, accounts) ==> Meets(auth, w.keys, accounts)
  }

  ghost predicate CheckIn(keys: set<Key>, accounts: iset<Account>, c: Check) {
    match c
    case ById(id) => id in accounts
    case ByAuthority(auth) => Meets(auth, keys, accounts)
  }

  ghost predicate CheckHolds(w: World, c: Check) {
    forall accounts: iset<Account> :: Closed(w, accounts) ==> CheckIn(w.keys, accounts, c)
  }

  lemma {:induction false} KeyWeightGrows(auth: Authority, i: nat, j: nat, small: set<Key>, large: set<Key>)
    requires i <= j <= |auth.keyAuths| && small <= large
    ensures KeyWeight(auth, i, small) <= KeyWeight(auth, j, large)
  {
    if j > 0 { KeyWeightGrows(auth, if i < j then i else i - 1, j - 1, small, large); }
  }

  lemma {:induction false} AccountWeightGrows(auth: Authority, i: nat, j: nat, small: iset<Account>,
                                              large: iset<Account>)
    requires i <= j <= |auth.accountAuths| && small <= large
    ensures AccountWeight(auth, i, small) <= AccountWeight(auth, j, large)
  {
    if j > 0 { AccountWeightGrows(auth, if i < j then i else i - 1, j - 1, small, large); }
  }

  lemma MeetsMonotone(auth: Authority, keys: set<Key>, small: iset<Account>, keys': set<Key>, large: iset<Account>)
    requires keys <= keys' && small <= large && Meets(auth, keys, small)
    ensures Meets(auth, keys', large)
  {
    KeyWeightGrows(auth, |auth.keyAuths|, |auth.keyAuths|, keys, keys');
    AccountWeightGrows(auth, |auth.accountAuths|, |auth.accountAuths|, small, large);
  }

  // ---- The least fixed point is plain recursion to unbounded depth

  lemma {:induction false} LevelGrows(w: World, m: nat, keys': set<Key>, n: nat)
    requires m <= n && w.keys <= keys'
    ensures Level(w, m) <= Level(w.(keys := keys'), n)
  {
    if m > 0 {
      LevelGrows(w, m - 1, keys', n - 1);
      forall a | a in Level(w, m) && a !in w.base ensures a in Level(w.(keys := keys'), n) {
        MeetsMonotone(w.getActive(a), w.keys, Level(w, m - 1), keys', Level(w.(keys := keys'), n - 1));
      }
    }
  }

  lemma {:induction false} LevelSound(w: World, n: nat, accounts: iset<Account>)
    requires Closed(w, accounts)
    ensures Level(w, n) <= accounts
  {
    if n > 0 {
      LevelSound(w, n - 1, accounts);
      forall a | a in Level(w, n) && a !in w.base ensures a in accounts {
        MeetsMonotone(w.getActive(a), w.keys, Level(w, n - 1), w.keys, accounts);
      }
    }
  }

  ghost predicate InSomeLevel(w: World, a: Account) {
    exists n: nat :: a in Level(w, n)
  }

  ghost function Levels(w: World): iset<Account> {
    iset a: Account | InSomeLevel(w, a)
  }

  /** A finite authority needs only finitely many levels. */
  lemma {:induction false} LevelFor(w: World, auth: Authority, i: nat) returns (n: nat)
    requires i <= |auth.accountAuths|
    ensures AccountWeight(auth, i, Levels(w)) <= AccountWeight(auth, i, Level(w, n))
  {
    if i == 0 { return 0; }
    n := LevelFor(w, auth, i - 1);
    var a, m := auth.accountAuths[i - 1].account, n;
    if a in Levels(w) {
      var s: nat :| a in Level(w, s);
      n := if m <= s then s else m;
      LevelGrows(w, s, w.keys, n);
    }
    LevelGrows(w, m, w.keys, n);
    AccountWeightGrows(auth, i - 1, i - 1, Level(w, m), Level(w, n));
  }

  lemma LevelsClosed(w: World)
    ensures Closed(w, Levels(w))
  {
    forall a <- w.base ensures a in Levels(w) { assert a in Level(w, 0); }
    forall a: Account | Meets(w.getActive(a), w.keys, Levels(w)) ensures a in Levels(w) {
      var n := LevelFor(w, w.getActive(a), |w.getActive(a).accountAuths|);
      assert a in Level(w, n + 1);
    }
  }

  lemma PlainIsSatisfied(w: World, n: nat, auth: Authority)
    requires Meets(auth, w.keys, Level(w, n))
    ensures Satisfied(w, auth)
  {
    forall accounts: iset<Account> | Closed(w, accounts) ensures Meets(auth, w.keys, accounts) {
      LevelSound(w, n, accounts);
      MeetsMonotone(auth, w.keys, Level(w, n), w.keys, accounts);
    }
  }

  /** Being satisfied in the least fixed point is being met at some level of plain recursion. */
  lemma SatisfiedIsPlain(w: World, auth: Authority)
    ensures Satisfied(w, auth) <==> exists n: nat :: Meets(auth, w.keys, Level(w, n))
  {
    LevelsClosed(w);
    if Satisfied(w, auth) {
      var n := LevelFor(w, auth, |auth.accountAuths|);
      assert Meets(auth, w.keys, Levels(w));
      assert Meets(auth, w.keys, Level(w, n));
    }
    if n: nat :| Meets(auth, w.keys, Level(w, n)) { PlainIsSatisfied(w, n, auth); }
  }

  /** The least fixed point is a fixed point: an account is in it exactly when it is in the base or its
      authority is satisfied there. */
  lemma FixedPoint(w: World, a: Account)
    ensures Approvable(w, a) <==> a in w.base || Satisfied(w, w.getActive(a))
  {
    LevelsClosed(w);
    if Approvable(w, a) && a !in w.base {
      assert a in Levels(w);
      var n: nat :| a in Level(w, n);
      PlainIsSatisfied(w, n - 1, w.getActive(a));
    } else if Satisfied(w, w.getActive(a)) {
      assert Approvable(w, a);
    }
  }

  // ---- Soundness: nothing is approved outside the least fixed point

  ghost predicate Within(mem: Memory, accounts: iset<Account>) {
    forall a :: a in mem.approved ==> a in accounts
  }

  lemma {:induction false} KeysSound(ctx: Context, auth: Authority, i: nat, total: Word32, membership: nat, mem: Memory)
    requires i <= |auth.keyAuths| && total <= KeyWeight(auth, i, Full(ctx, mem))
    ensures var r := ScanKeys(ctx, auth, i, total, membership, mem);
            var all := KeyWeight(auth, |auth.keyAuths|, Full(ctx, mem));
            (r.Stop? && r.ok ==> all >= auth.threshold) && (r.Go? ==> r.total <= all)
    decreases |auth.keyAuths| - i
  {
    if i < |auth.keyAuths| {
      var k := auth.keyAuths[i];
      SignedByFacts(ctx, k.key, mem);
      var (signed, mem1) := SignedBy(ctx, k.key, mem);
      KeyWeightGrows(auth, i + 1, |auth.keyAuths|, Full(ctx, mem), Full(ctx, mem));
      KeysSound(ctx, auth, i + 1, if signed then Wrap(total + k.weight) else total, membership + 1, mem1);
    }
  }

  lemma {:induction false} ImplSound(ctx: Context, auth: Authority, depth: Word32, mem: Memory, count: Word32,
                                     accounts: iset<Account>)
    requires Closed(View(ctx, mem, {}), accounts) && Within(mem, accounts)
    ensures var r := CheckImpl(ctx, auth, depth, mem, count);
            Within(r.mem, accounts) && (r.ok ==> Meets(auth, Full(ctx, mem), accounts))
    decreases Remaining(ctx, depth), 2, 0
  {
    var r := ScanKeys(ctx, auth, 0, 0, 0, mem);
    ScanKeysExtends(ctx, auth, 0, 0, 0, mem);
    KeysSound(ctx, auth, 0, 0, 0, mem);
    if r.Go? { AccountsSound(ctx, auth, 0, r.total, r.membership, depth, r.mem, count, accounts); }
  }

  lemma {:induction false} SubSound(ctx: Context, account: Account, depth: Word32, mem: Memory, count: Word32,
                                    accounts: iset<Account>)
    requires account in mem.approved || depth != ctx.maxRecursion
    requires Closed(View(ctx, mem, {}), accounts) && Within(mem, accounts)
    ensures var r := SubCheck(ctx, account, depth, mem, count);
            Within(r.mem, accounts) && (r.ok ==> account in accounts)
    decreases Remaining(ctx, depth), 0, 0
  {
    if account !in mem.approved {
      ImplSound(ctx, ctx.getActive(account), Wrap(depth + 1), mem, Wrap(count + 1), accounts);
    }
  }

  lemma AddSound(auth: Authority, i: nat, total: Word32, ok: bool, keys: set<Key>, accounts: iset<Account>)
    requires i < |auth.accountAuths| && (ok ==> auth.accountAuths[i].account in accounts)
    requires total <= KeyWeight(auth, |auth.keyAuths|, keys) + AccountWeight(auth, i, accounts)
    ensures (if ok then Wrap(total + auth.accountAuths[i].weight) else total) <=
            KeyWeight(auth, |auth.keyAuths|, keys) + AccountWeight(auth, i + 1, accounts)
  {
    assert Wrap(total + auth.accountAuths[i].weight) <= total + auth.accountAuths[i].weight;
  }

  lemma {:induction false} AccountsSound(ctx: Context, auth: Authority, i: nat, total: Word32, membership: nat,
                                         depth: Word32, mem: Memory, count: Word32, accounts: iset<Account>)
    requires i <= |auth.accountAuths|
    requires Closed(View(ctx, mem, {}), accounts) && Within(mem, accounts)
    requires total <= KeyWeight(auth, |auth.keyAuths|, Full(ctx, mem)) + AccountWeight(auth, i, accounts)
    ensures var r := ScanAccounts(ctx, auth, i, total, membership, depth, mem, count);
            Within(r.mem, accounts) && (r.ok ==> Meets(auth, Full(ctx, mem), accounts))
    decreases Remaining(ctx, depth), 1, |auth.accountAuths| - i
  {
    if i == |auth.accountAuths| { return; }
    var a := auth.accountAuths[i];
    AccountWeightGrows(auth, i + 1, |auth.accountAuths|, accounts, accounts);
    if a.account !in mem.approved && depth == ctx.maxRecursion {
      AccountsSound(ctx, auth, i + 1, total, membership, depth, mem, count, accounts);
    } else if a.account in mem.approved || ctx.maxAccountAuths == 0 || count < ctx.maxAccountAuths {
      SubCheckExtends(ctx, a.account, depth, mem, count);
      SubSound(ctx, a.account, depth, mem, count, accounts);
      var sub := SubCheck(ctx, a.account, depth, mem, count);
      var total1 := if sub.ok then Wrap(total + a.weight) else total;
      AddSound(auth, i, total, sub.ok, Full(ctx, mem), accounts);
      if !(sub.ok && total1 >= auth.threshold) && !AtMembershipLimit(ctx, membership + 1) {
        AccountsSound(ctx, auth, i + 1, total1, membership + 1, depth, sub.mem, sub.count, accounts);
      }
    }
  }

  lemma CheckSound(ctx: Context, c: Check, mem: Memory, accounts: iset<Account>)
    requires Closed(View(ctx, mem, {}), accounts) && Within(mem, accounts)
    ensures var r := RunCheck(ctx, c, mem);
            Within(r.mem, accounts) && (r.ok ==> CheckIn(Full(ctx, mem), accounts, c))
  {
    match c
    case ById(id) => ImplSound(ctx, ctx.getActive(id), 0, mem, 1, accounts);
    case ByAuthority(auth) => ImplSound(ctx, auth, 0, mem, 0, accounts);
  }

  /** Soundness of whole runs, on any graph and under any limits: a positive answer holds in the least fixed
      point over the accounts approved at the start, and the approved accounts never leave it. */
  lemma {:induction false} RunSound(ctx: Context, checks: seq<Check>, mem: Memory, base: set<Account>)
    requires forall a <- mem.approved :: Approvable(View(ctx, mem, base), a)
    ensures var (answers, final) := RunChecks(ctx, checks, mem);
            && (forall a <- final.approved :: Approvable(View(ctx, mem, base), a))
            && forall i :: 0 <= i < |checks| && answers[i] ==> CheckHolds(View(ctx, mem, base), checks[i])
  {
    if checks == [] { return; }
    var first := RunCheck(ctx, checks[0], mem);
    RunCheckExtends(ctx, checks[0], mem);
    forall accounts: iset<Account> | Closed(View(ctx, mem, base), accounts)
      ensures Within(first.mem, accounts) && (first.ok ==> CheckIn(Full(ctx, mem), accounts, checks[0]))
    {
      CheckSound(ctx, checks[0], mem, accounts);
    }
    assert View(ctx, first.mem, base) == View(ctx, mem, base);
    forall a <- first.mem.approved ensures Approvable(View(ctx, mem, base), a) {}
    RunSound(ctx, checks[1..], first.mem, base);
  }

  // ---- Completeness up to the depth limit

  function Sum(auth: Authority, i: nat): nat
    requires i <= |auth.keyAuths| + |auth.accountAuths|
  {
    if i == 0 then 0
    else if i <= |auth.keyAuths| then Sum(auth, i - 1) + auth.keyAuths[i - 1].weight
    else Sum(auth, i - 1) + auth.accountAuths[i - 1 - |auth.keyAuths|].weight
  }

  /** No 32-bit total can wrap: the early exit keeps totals below the threshold, and a weight has 16 bits. */
  predicate NoWrap(auth: Authority) {
    auth.threshold <= B32 - 0x1_0000 || Sum(auth, |auth.keyAuths| + |auth.accountAuths|) < B32
  }

  predicate FitsMembership(ctx: Context, auth: Authority) {
    ctx.maxMembership == 0 || |auth.keyAuths| + |auth.accountAuths| < ctx.maxMembership
  }

  /** No total wraps and no membership limit strikes in an authority and those up to n levels below it. */
  predicate Fits(ctx: Context, base: set<Account>, n: nat, auth: Authority) {
    && NoWrap(auth) && FitsMembership(ctx, auth)
    && (n > 0 ==> forall a <- auth.accountAuths ::
          a.account in base || Fits(ctx, base, n - 1, ctx.getActive(a.account)))
  }

  /** How many accounts the entries from i on can charge to the account budget when n more levels may be followed. */
  function Visits(getActive: Account -> Authority, base: set<Account>, n: nat, auth: Authority, i: nat): nat
    requires i <= |auth.accountAuths|
    decreases n, |auth.accountAuths| - i
  {
    if n == 0 || i == |auth.accountAuths| then 0
    else
      var a := auth.accountAuths[i].account;
      (if a in base then 0 else 1 + Visits(getActive, base, n - 1, getActive(a), 0))
      + Visits(getActive, base, n, auth, i + 1)
  }

  /** The account budget cannot run out: zero switches it off. */
  predicate InBudget(ctx: Context, base: set<Account>, n: nat, auth: Authority, i: nat, count: nat)
    requires i <= |auth.accountAuths|
  {
    ctx.maxAccountAuths == 0 || count + Visits(ctx.getActive, base, n, auth, i) <= ctx.maxAccountAuths
  }

  /** None of the limits besides the depth can end a check. */
  predicate Roomy(ctx: Context, base: set<Account>, n: nat, auth: Authority, count: nat) {
    Fits(ctx, base, n, auth) && InBudget(ctx, base, n, auth, 0, count)
  }

  lemma {:induction false} SumGrows(auth: Authority, i: nat, j: nat)
    requires i <= j <= |auth.keyAuths| + |auth.accountAuths|
    ensures Sum(auth, i) <= Sum(auth, j)
  {
    if i < j { SumGrows(auth, i, j - 1); }
  }

  /** A running total that has not yet ended the scan. */
  ghost predicate Running(auth: Authority, entries: nat, total: nat)
    requires entries <= |auth.keyAuths| + |auth.accountAuths|
  {
    total <= Sum(auth, entries) && (total < auth.threshold || total == 0)
  }

  lemma AddExact(auth: Authority, i: nat, total: Word32, weight: Weight)
    requires i < |auth.keyAuths| + |auth.accountAuths| && NoWrap(auth) && Running(auth, i, total)
    requires Sum(auth, i + 1) == Sum(auth, i) + weight
    ensures Wrap(total + weight) == total + weight <= Sum(auth, i + 1)
  {
    SumGrows(auth, i + 1, |auth.keyAuths| + |auth.accountAuths|);
  }

  lemma {:induction false} KeysComplete(ctx: Context, auth: Authority, i: nat, total: Word32, membership: nat,
                                        mem: Memory)
    requires i <= |auth.keyAuths| && membership <= i && NoWrap(auth) && FitsMembership(ctx, auth)
    requires total == KeyWeight(auth, i, Full(ctx, mem)) && Running(auth, i, total)
    ensures var r := ScanKeys(ctx, auth, i, total, membership, mem);
            && (r.Stop? ==> r.ok)
            && (r.Go? ==> && r.total == KeyWeight(auth, |auth.keyAuths|, Full(ctx, mem))
                          && r.membership <= |auth.keyAuths| && Running(auth, |auth.keyAuths|, r.total))
    decreases |auth.keyAuths| - i
  {
    if i < |auth.keyAuths| {
      var k := auth.keyAuths[i];
      SignedByFacts(ctx, k.key, mem);
      AddExact(auth, i, total, k.weight);
      var (signed, mem1) := SignedBy(ctx, k.key, mem);
      var total1 := if signed then Wrap(total + k.weight) else total;
      if !(signed && total1 >= auth.threshold) { KeysComplete(ctx, auth, i + 1, total1, membership + 1, mem1); }
    }
  }

  /** With a budget, a check charges no more than its visits, and the budget is never exceeded. */
  lemma {:induction false} ImplCount(ctx: Context, auth: Authority, depth: Word32, mem: Memory, count: Word32,
                                     base: set<Account>)
    requires base <= mem.approved && count <= ctx.maxAccountAuths
    ensures var r := CheckImpl(ctx, auth, depth, mem, count).count;
            ctx.maxAccountAuths > 0 ==>
              r <= ctx.maxAccountAuths && r <= count + Visits(ctx.getActive, base, Remaining(ctx, depth), auth, 0)
    decreases Remaining(ctx, depth), 2, 0
  {
    ScanKeysExtends(ctx, auth, 0, 0, 0, mem);
    var r := ScanKeys(ctx, auth, 0, 0, 0, mem);
    if r.Go? { AccountsCount(ctx, auth, 0, r.total, r.membership, depth, r.mem, count, base); }
  }

  lemma {:induction false} SubCount(ctx: Context, account: Account, depth: Word32, mem: Memory, count: Word32,
                                    base: set<Account>)
    requires base <= mem.approved && ctx.maxAccountAuths > 0 && depth != ctx.maxRecursion
    requires account !in mem.approved && count < ctx.maxAccountAuths
    ensures var r := SubCheck(ctx, account, depth, mem, count).count;
            var n := Remaining(ctx, depth);
            && n > 0 && r <= ctx.maxAccountAuths
            && r <= count + 1 + Visits(ctx.getActive, base, n - 1, ctx.getActive(account), 0)
    decreases Remaining(ctx, depth), 0, 0
  {
    assert Remaining(ctx, Wrap(depth + 1)) == Remaining(ctx, depth) - 1;
    ImplCount(ctx, ctx.getActive(account), Wrap(depth + 1), mem, Wrap(count + 1), base);
  }

  lemma {:induction false} AccountsCount(ctx: Context, auth: Authority, i: nat, total: Word32, membership: nat,
                                         depth: Word32, mem: Memory, count: Word32, base: set<Account>)
    requires i <= |auth.accountAuths| && base <= mem.approved && count <= ctx.maxAccountAuths
    ensures var r := ScanAccounts(ctx, auth, i, total, membership, depth, mem, count).count;
            ctx.maxAccountAuths > 0 ==>
              r <= ctx.maxAccountAuths && r <= count + Visits(ctx.getActive, base, Remaining(ctx, depth), auth, i)
    decreases Remaining(ctx, depth), 1, |auth.accountAuths| - i
  {
    if i == |auth.accountAuths| || ctx.maxAccountAuths == 0 { return; }
    var a := auth.accountAuths[i];
    if a.account !in mem.approved && depth == ctx.maxRecursion {
      AccountsCount(ctx, auth, i + 1, total, membership, depth, mem, count, base);
    } else if a.account in mem.approved || count < ctx.maxAccountAuths {
      if a.account !in mem.approved { SubCount(ctx, a.account, depth, mem, count, base); }
      SubCheckExtends(ctx, a.account, depth, mem, count);
      var sub := SubCheck(ctx, a.account, depth, mem, count);
      var total1 := if sub.ok then Wrap(total + a.weight) else total;
      AccountsCount(ctx, auth, i + 1, total1, membership + 1, depth, sub.mem, sub.count, base);
    }
  }

  lemma {:induction false} ImplComplete(ctx: Context, auth: Authority, depth: Word32, mem: Memory, count: Word32,
                                        base: set<Account>)
    requires Roomy(ctx, base, Remaining(ctx, depth), auth, count) && base <= mem.approved
    requires Meets(auth, Full(ctx, mem), Level(View(ctx, mem, base), Remaining(ctx, depth)))
    ensures CheckImpl(ctx, auth, depth, mem, count).ok
    decreases Remaining(ctx, depth), 2, 0
  {
    ScanKeysExtends(ctx, auth, 0, 0, 0, mem);
    KeysComplete(ctx, auth, 0, 0, 0, mem);
    var r := ScanKeys(ctx, auth, 0, 0, 0, mem);
    if r.Go? { AccountsComplete(ctx, auth, 0, r.total, r.membership, depth, r.mem, count, base); }
  }

  lemma {:induction false} AccountsComplete(ctx: Context, auth: Authority, i: nat, total: Word32, membership: nat,
                                            depth: Word32, mem: Memory, count: Word32, base: set<Account>)
    requires i <= |auth.accountAuths| && membership <= |auth.keyAuths| + i
    requires Fits(ctx, base, Remaining(ctx, depth), auth) && InBudget(ctx, base, Remaining(ctx, depth), auth, i, count)
    requires base <= mem.approved && Running(auth, |auth.keyAuths| + i, total)
    requires var level := Level(View(ctx, mem, base), Remaining(ctx, depth));
             && KeyWeight(auth, |auth.keyAuths|, Full(ctx, mem)) + AccountWeight(auth, i, level) <= total
             && Meets(auth, Full(ctx, mem), level)
    ensures ScanAccounts(ctx, auth, i, total, membership, depth, mem, count).ok
    decreases Remaining(ctx, depth), 1, |auth.accountAuths| - i
  {
    if i == |auth.accountAuths| { return; }
    var a := auth.accountAuths[i];
    if a.account !in mem.approved && depth == ctx.maxRecursion {
      SumGrows(auth, |auth.keyAuths| + i, |auth.keyAuths| + i + 1);
      AccountsComplete(ctx, auth, i + 1, total, membership, depth, mem, count, base);
    } else {
      EntryComplete(ctx, auth, i, total, depth, mem, count, base);
      EntryBudget(ctx, auth, i, depth, mem, count, base);
      Unlimit(ctx, auth, i, total, membership, depth, mem, count);
      var sub := SubCheck(ctx, a.account, depth, mem, count);
      var total1 := if sub.ok then Wrap(total + a.weight) else total;
      if !(sub.ok && total1 >= auth.threshold) {
        AccountsComplete(ctx, auth, i + 1, total1, membership + 1, depth, sub.mem, sub.count, base);
      }
    }
  }

  /** A budget that suffices for the entries from i on still suffices after entry i. */
  lemma {:induction false} EntryBudget(ctx: Context, auth: Authority, i: nat, depth: Word32, mem: Memory, count: Word32,
                                       base: set<Account>)
    requires i < |auth.accountAuths| && base <= mem.approved
    requires auth.accountAuths[i].account in mem.approved || depth != ctx.maxRecursion
    requires InBudget(ctx, base, Remaining(ctx, depth), auth, i, count)
    ensures var a := auth.accountAuths[i].account;
            && (a in mem.approved || ctx.maxAccountAuths == 0 || count < ctx.maxAccountAuths)
            && InBudget(ctx, base, Remaining(ctx, depth), auth, i + 1, SubCheck(ctx, a, depth, mem, count).count)
  {
    var a := auth.accountAuths[i].account;
    if a !in mem.approved && ctx.maxAccountAuths > 0 { SubCount(ctx, a, depth, mem, count, base); }
  }

  /** Without limits, an entry that is not skipped decides the scan by reaching the threshold, or leaves it to the
      rest. */
  lemma Unlimit(ctx: Context, auth: Authority, i: nat, total: Word32, membership: nat, depth: Word32, mem: Memory,
                count: Word32)
    requires i < |auth.accountAuths| && membership <= |auth.keyAuths| + i && FitsMembership(ctx, auth)
    requires var a := auth.accountAuths[i].account;
             && (a in mem.approved || depth != ctx.maxRecursion)
             && (a in mem.approved || ctx.maxAccountAuths == 0 || count < ctx.maxAccountAuths)
    ensures var a := auth.accountAuths[i];
            var sub := SubCheck(ctx, a.account, depth, mem, count);
            var total1 := if sub.ok then Wrap(total + a.weight) else total;
            ScanAccounts(ctx, auth, i, total, membership, depth, mem, count) ==
            if sub.ok && total1 >= auth.threshold then Outcome(true, sub.mem, sub.count)
            else ScanAccounts(ctx, auth, i + 1, total1, membership + 1, depth, sub.mem, sub.count)
  {
  }

  /** One entry that is not skipped adds its weight if plain recursion would. */
  lemma {:induction false} EntryComplete(ctx: Context, auth: Authority, i: nat, total: Word32,
                                         depth: Word32, mem: Memory, count: Word32, base: set<Account>)
    requires i < |auth.accountAuths| && base <= mem.approved
    requires Fits(ctx, base, Remaining(ctx, depth), auth) && InBudget(ctx, base, Remaining(ctx, depth), auth, i, count)
    requires auth.accountAuths[i].account in mem.approved || depth != ctx.maxRecursion
    requires Running(auth, |auth.keyAuths| + i, total)
    ensures var a := auth.accountAuths[i];
            var sub := SubCheck(ctx, a.account, depth, mem, count);
            && Full(ctx, sub.mem) == Full(ctx, mem) && base <= sub.mem.approved
            && (a.account in Level(View(ctx, mem, base), Remaining(ctx, depth)) ==> sub.ok)
            && Wrap(total + a.weight) == total + a.weight
            && total <= total + a.weight <= Sum(auth, |auth.keyAuths| + i + 1)
    decreases Remaining(ctx, depth), 1, 0, 0
  {
    var a := auth.accountAuths[i];
    SubCheckExtends(ctx, a.account, depth, mem, count);
    if a.account in Level(View(ctx, mem, base), Remaining(ctx, depth)) && a.account !in mem.approved {
      SubRoomy(ctx, auth, i, depth, count, base);
      ImplComplete(ctx, ctx.getActive(a.account), Wrap(depth + 1), mem, Wrap(count + 1), base);
    }
    AddExact(auth, |auth.keyAuths| + i, total, a.weight);
  }

  lemma SubRoomy(ctx: Context, auth: Authority, i: nat, depth: Word32, count: Word32, base: set<Account>)
    requires i < |auth.accountAuths| && auth.accountAuths[i].account !in base && depth != ctx.maxRecursion
    requires Fits(ctx, base, Remaining(ctx, depth), auth) && InBudget(ctx, base, Remaining(ctx, depth), auth, i, count)
    ensures var n := Remaining(ctx, Wrap(depth + 1));
            && n == Remaining(ctx, depth) - 1
            && Roomy(ctx, base, n, ctx.getActive(auth.accountAuths[i].account), Wrap(count + 1))
  {
    assert auth.accountAuths[i] in auth.accountAuths;
  }

  /** The sandwich, on any graph, cyclic or not: what plain recursion approves within the depth limit, the
      checker approves; what the checker approves, plain recursion approves at some depth. */
  lemma Sandwich(ctx: Context, auth: Authority, depth: Word32, mem: Memory, count: Word32, base: set<Account>)
    requires Roomy(ctx, base, Remaining(ctx, depth), auth, count) && Grown(ctx, mem, base)
    ensures var ok, w := CheckImpl(ctx, auth, depth, mem, count).ok, View(ctx, mem, base);
            && (Meets(auth, w.keys, Level(w, Remaining(ctx, depth))) ==> ok)
            && (ok ==> exists n: nat :: Meets(auth, w.keys, Level(w, n)))
  {
    var w := View(ctx, mem, base);
    if Meets(auth, w.keys, Level(w, Remaining(ctx, depth))) { ImplComplete(ctx, auth, depth, mem, count, base); }
    if CheckImpl(ctx, auth, depth, mem, count).ok {
      forall accounts: iset<Account> | Closed(w, accounts) ensures Meets(auth, w.keys, accounts) {
        ImplSound(ctx, auth, depth, mem, count, accounts);
      }
      SatisfiedIsPlain(w, auth);
    }
  }

  /** A memo that grew out of the accounts approved at the start. */
  ghost predicate Grown(ctx: Context, mem: Memory, base: set<Account>) {
    base <= mem.approved && forall a <- mem.approved :: Approvable(View(ctx, mem, base), a)
  }

  // ---- Exactness on graphs of bounded height

  /** Every chain of accounts below the authority, cut at accounts of the base, has at most n links. */
  predicate HeightAtMost(getActive: Account -> Authority, base: set<Account>, n: nat, auth: Authority) {
    forall a <- auth.accountAuths ::
      a.account in base || (n > 0 && HeightAtMost(getActive, base, n - 1, getActive(a.account)))
  }

  lemma {:induction false} HeightBounds(w: World, n: nat, m: nat, auth: Authority, i: nat)
    requires i <= |auth.accountAuths| && HeightAtMost(w.getActive, w.base, n, auth) && n <= m
    ensures AccountWeight(auth, i, Level(w, m)) == AccountWeight(auth, i, Level(w, n))
    decreases n, i
  {
    if i > 0 {
      HeightBounds(w, n, m, auth, i - 1);
      var a := auth.accountAuths[i - 1];
      assert a in auth.accountAuths;
      if a.account !in w.base {
        HeightBounds(w, n - 1, m - 1, w.getActive(a.account), |w.getActive(a.account).accountAuths|);
      }
    }
  }

  lemma HeightDecides(w: World, n: nat, auth: Authority)
    requires HeightAtMost(w.getActive, w.base, n, auth)
    ensures Satisfied(w, auth) <==> Meets(auth, w.keys, Level(w, n))
  {
    SatisfiedIsPlain(w, auth);
    forall m: nat | Meets(auth, w.keys, Level(w, m)) ensures Meets(auth, w.keys, Level(w, n)) {
      if m <= n {
        LevelGrows(w, m, w.keys, n);
        MeetsMonotone(auth, w.keys, Level(w, m), w.keys, Level(w, n));
      } else {
        HeightBounds(w, n, m, auth, |auth.accountAuths|);
      }
    }
  }

  /** Exactness: when the graph below the authority is no higher than the depth limit and no other limit strikes,
      memo and early exit are invisible: whatever earlier checks have remembered, the answer is the one of plain
      recursion, and of the least fixed point, over the accounts approved at the start. */
  lemma Exact(ctx: Context, auth: Authority, depth: Word32, mem: Memory, count: Word32, base: set<Account>)
    requires Roomy(ctx, base, Remaining(ctx, depth), auth, count) && Grown(ctx, mem, base)
    requires HeightAtMost(ctx.getActive, base, Remaining(ctx, depth), auth)
    ensures var ok, w := CheckImpl(ctx, auth, depth, mem, count).ok, View(ctx, mem, base);
            && (ok <==> Meets(auth, w.keys, Level(w, Remaining(ctx, depth))))
            && (ok <==> Satisfied(w, auth))
  {
    var w, n := View(ctx, mem, base), Remaining(ctx, depth);
    Sandwich(ctx, auth, depth, mem, count, base);
    SatisfiedIsPlain(w, auth);
    HeightDecides(w, n, auth);
  }

  /** A top-level check whose limits cannot strike, over the accounts approved at the start. */
  predicate CheckFits(ctx: Context, base: set<Account>, c: Check) {
    match c
    case ById(id) =>
      id in base || (&& Roomy(ctx, base, ctx.maxRecursion, ctx.getActive(id), 1)
                     && HeightAtMost(ctx.getActive, base, ctx.maxRecursion, ctx.getActive(id)))
    case ByAuthority(auth) =>
      Roomy(ctx, base, ctx.maxRecursion, auth, 0) && HeightAtMost(ctx.getActive, base, ctx.maxRecursion, auth)
  }

  /** What a top-level check means in plain recursion: a check by name follows the account itself first. */
  ghost predicate PlainHolds(w: World, n: nat, c: Check) {
    match c
    case ById(id) => id in Level(w, n + 1)
    case ByAuthority(auth) => Meets(auth, w.keys, Level(w, n))
  }

  lemma CheckExact(ctx: Context, c: Check, mem: Memory, base: set<Account>)
    requires Grown(ctx, mem, base) && CheckFits(ctx, base, c)
    ensures RunCheck(ctx, c, mem).ok <==> PlainHolds(View(ctx, mem, base), ctx.maxRecursion, c)
  {
    var w := View(ctx, mem, base);
    match c
    case ByAuthority(auth) => Exact(ctx, auth, 0, mem, 0, base);
    case ById(id) =>
      if id !in base {
        HeightDecides(w, ctx.maxRecursion, ctx.getActive(id));
        FixedPoint(w, id);
        if id !in mem.approved { Exact(ctx, ctx.getActive(id), 0, mem, 1, base); }
      }
  }

  /** Exactness of whole runs: every answer of a run is the one of plain recursion over the accounts approved before
      the first check, so nothing that earlier checks remembered shows. */
  lemma {:induction false} RunExact(ctx: Context, checks: seq<Check>, mem: Memory, base: set<Account>)
    requires Grown(ctx, mem, base) && forall c <- checks :: CheckFits(ctx, base, c)
    ensures forall i :: 0 <= i < |checks| ==>
              (RunChecks(ctx, checks, mem).0[i] <==> PlainHolds(View(ctx, mem, base), ctx.maxRecursion, checks[i]))
  {
    if checks == [] { return; }
    CheckExact(ctx, checks[0], mem, base);
    var first := RunCheck(ctx, checks[0], mem);
    CheckGrows(ctx, checks[0], mem, base);
    assert View(ctx, first.mem, base) == View(ctx, mem, base);
    RunExact(ctx, checks[1..], first.mem, base);
    assert forall i :: 0 < i < |checks| ==> checks[i] == checks[1..][i - 1];
  }

  lemma CheckGrows(ctx: Context, c: Check, mem: Memory, base: set<Account>)
    requires Grown(ctx, mem, base)
    ensures Grown(ctx, RunCheck(ctx, c, mem).mem, base) && Full(ctx, RunCheck(ctx, c, mem).mem) == Full(ctx, mem)
  {
    var r := RunCheck(ctx, c, mem).mem;
    RunCheckExtends(ctx, c, mem);
    var w := View(ctx, mem, base);
    forall accounts: iset<Account> | Closed(w, accounts) ensures Within(r, accounts) {
      CheckSound(ctx, c, mem, accounts);
    }
    assert View(ctx, r, base) == w;
  }

  /** Where no limit strikes, more signatures or more approvals never turn a yes into a no. */
  lemma MonotoneWithinLimits(ctx: Context, avail: set<Key>, auth: Authority, depth: Word32, mem: Memory, mem': Memory,
                             count: Word32, base: set<Account>)
    requires Roomy(ctx, base, Remaining(ctx, depth), auth, count) && Grown(ctx, mem, base) && base <= mem'.approved
    requires HeightAtMost(ctx.getActive, base, Remaining(ctx, depth), auth)
    requires Full(ctx, mem) <= Full(ctx.(available := avail), mem')
    requires CheckImpl(ctx, auth, depth, mem, count).ok
    ensures CheckImpl(ctx.(available := avail), auth, depth, mem', count).ok
  {
    var w, n, keys' := View(ctx, mem, base), Remaining(ctx, depth), Full(ctx.(available := avail), mem');
    Exact(ctx, auth, depth, mem, count, base);
    LevelGrows(w, n, keys', n);
    MeetsMonotone(auth, w.keys, Level(w, n), keys', Level(w.(keys := keys'), n));
    SameRoom(ctx, avail, base, n, auth);
    ImplComplete(ctx.(available := avail), auth, depth, mem', count, base);
  }

  lemma {:induction false} SameRoom(ctx: Context, avail: set<Key>, base: set<Account>, n: nat, auth: Authority)
    ensures Fits(ctx.(available := avail), base, n, auth) == Fits(ctx, base, n, auth)
  {
    if n > 0 {
      forall a <- auth.accountAuths { SameRoom(ctx, avail, base, n - 1, ctx.getActive(a.account)); }
    }
  }
}
