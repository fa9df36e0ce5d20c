/** Where the limits of the checker strike, and which keys it marks as used (sign_state.cpp). */
module AuthorityLimits {
  import opened Authorities
  import opened AuthorityReplay
  import opened AuthorityMeaning

  // ---- The membership limit

  lemma {:induction false} KeysCut(ctx: Context, auth: Authority, i: nat, total: Word32, mem: Memory)
    requires i < ctx.maxMembership <= |auth.keyAuths| && total <= KeyWeight(auth, i, Full(ctx, mem))
    ensures var r := ScanKeys(ctx, auth, i, total, i, mem);
            r.Stop? && (r.ok ==> KeyWeight(auth, ctx.maxMembership, Full(ctx, mem)) >= auth.threshold)
    decreases |auth.keyAuths| - i
  {
    var k := auth.keyAuths[i];
    SignedByFacts(ctx, k.key, mem);
    var (signed, mem1) := SignedBy(ctx, k.key, mem);
    KeyWeightGrows(auth, i + 1, ctx.maxMembership, Full(ctx, mem), Full(ctx, mem));
    if i + 1 < ctx.maxMembership { KeysCut(ctx, auth, i + 1, if signed then Wrap(total + k.weight) else total, mem1); }
  }

  lemma {:induction false} KeysReach(ctx: Context, auth: Authority, i: nat, total: Word32, mem: Memory)
    requires i < ctx.maxMembership <= |auth.keyAuths| && NoWrap(auth) && auth.threshold > 0
    requires total == KeyWeight(auth, i, Full(ctx, mem)) && Running(auth, i, total)
    requires KeyWeight(auth, ctx.maxMembership, Full(ctx, mem)) >= auth.threshold
    ensures var r := ScanKeys(ctx, auth, i, total, i, mem); r.Stop? && r.ok
    decreases |auth.keyAuths| - i
  {
    var k := auth.keyAuths[i];
    SignedByFacts(ctx, k.key, mem);
    AddExact(auth, i, total, k.weight);
    var (signed, mem1) := SignedBy(ctx, k.key, mem);
    var total1 := if signed then Wrap(total + k.weight) else total;
    if !(signed && total1 >= auth.threshold) { KeysReach(ctx, auth, i + 1, total1, mem1); }
  }

  /** An authority with at least as many keys as the membership limit is decided by the first keys, as many as the
      limit: no later key and no account can help, at any depth and whatever is remembered. */
  lemma MembershipCutsKeys(ctx: Context, auth: Authority, depth: Word32, mem: Memory, count: Word32)
    requires 0 < ctx.maxMembership <= |auth.keyAuths|
    ensures var ok := CheckImpl(ctx, auth, depth, mem, count).ok;
            var enough := KeyWeight(auth, ctx.maxMembership, Full(ctx, mem)) >= auth.threshold;
            (ok ==> enough) && (NoWrap(auth) && auth.threshold > 0 && enough ==> ok)
  {
    KeysCut(ctx, auth, 0, 0, mem);
    if NoWrap(auth) && auth.threshold > 0 && KeyWeight(auth, ctx.maxMembership, Full(ctx, mem)) >= auth.threshold {
      KeysReach(ctx, auth, 0, 0, mem);
    }
  }

  lemma {:induction false} GoCounts(ctx: Context, auth: Authority, i: nat, total: Word32, membership: nat, mem: Memory)
    requires i <= |auth.keyAuths|
    ensures var r := ScanKeys(ctx, auth, i, total, membership, mem);
            r.Go? ==> r.membership == membership + |auth.keyAuths| - i
    decreases |auth.keyAuths| - i
  {
    if i < |auth.keyAuths| {
      var (signed, mem1) := SignedBy(ctx, auth.keyAuths[i].key, mem);
      var total1 := if signed then Wrap(total + auth.keyAuths[i].weight) else total;
      GoCounts(ctx, auth, i + 1, total1, membership + 1, mem1);
    }
  }

  lemma {:induction false} AccountsCut(ctx: Context, auth: Authority, i: nat, total: Word32, depth: Word32, mem: Memory,
                                       count: Word32, accounts: iset<Account>)
    requires var last := ctx.maxMembership - |auth.keyAuths|; 0 <= i < last <= |auth.accountAuths|
    requires depth != ctx.maxRecursion && Closed(View(ctx, mem, {}), accounts) && Within(mem, accounts)
    requires total <= KeyWeight(auth, |auth.keyAuths|, Full(ctx, mem)) + AccountWeight(auth, i, accounts)
    ensures var last := ctx.maxMembership - |auth.keyAuths|;
            ScanAccounts(ctx, auth, i, total, |auth.keyAuths| + i, depth, mem, count).ok ==>
            KeyWeight(auth, |auth.keyAuths|, Full(ctx, mem)) + AccountWeight(auth, last, accounts) >= auth.threshold
    decreases |auth.accountAuths| - i
  {
    var a, last := auth.accountAuths[i], ctx.maxMembership - |auth.keyAuths|;
    AccountWeightGrows(auth, i + 1, last, accounts, accounts);
    if a.account in mem.approved || ctx.maxAccountAuths == 0 || count < ctx.maxAccountAuths {
      SubCheckExtends(ctx, a.account, depth, mem, count);
      SubSound(ctx, a.account, depth, mem, count, accounts);
      var sub := SubCheck(ctx, a.account, depth, mem, count);
      AddSound(auth, i, total, sub.ok, Full(ctx, mem), accounts);
      var total1 := if sub.ok then Wrap(total + a.weight) else total;
      if i + 1 < last { AccountsCut(ctx, auth, i + 1, total1, depth, sub.mem, sub.count, accounts); }
    }
  }

  /** With fewer keys than the limit and levels remaining, a yes is reached by all the keys and the first accounts
      that make up the limit, whatever set of accounts is closed under approval. */
  lemma MembershipCutsAccounts(ctx: Context, auth: Authority, depth: Word32, mem: Memory, count: Word32,
                               accounts: iset<Account>)
    requires |auth.keyAuths| < ctx.maxMembership <= |auth.keyAuths| + |auth.accountAuths| && depth != ctx.maxRecursion
    requires Closed(View(ctx, mem, {}), accounts) && Within(mem, accounts)
    ensures CheckImpl(ctx, auth, depth, mem, count).ok ==>
            KeyWeight(auth, |auth.keyAuths|, Full(ctx, mem)) +
            AccountWeight(auth, ctx.maxMembership - |auth.keyAuths|, accounts) >= auth.threshold
  {
    ScanKeysExtends(ctx, auth, 0, 0, 0, mem);
    KeysSound(ctx, auth, 0, 0, 0, mem);
    GoCounts(ctx, auth, 0, 0, 0, mem);
    var r := ScanKeys(ctx, auth, 0, 0, 0, mem);
    if r.Go? { AccountsCut(ctx, auth, 0, r.total, depth, r.mem, count, accounts); }
  }

  /** The limit of 40 that the chain database passes: of 41 keys only the last is signed, and the answer is no. */
  lemma FortyFirstKeyIsIgnored(ctx: Context, auth: Authority, mem: Memory)
    requires ctx.maxMembership == 40 && |auth.keyAuths| == 41 && auth.threshold > 0
    requires forall i :: 0 <= i < 40 ==> auth.keyAuths[i].key !in Full(ctx, mem)
    ensures !CheckImpl(ctx, auth, 0, mem, 0).ok
  {
    NoKeyWeight(auth, 40, Full(ctx, mem));
    MembershipCutsKeys(ctx, auth, 0, mem, 0);
  }

  lemma {:induction false} NoKeyWeight(auth: Authority, n: nat, keys: set<Key>)
    requires n <= |auth.keyAuths| && forall i :: 0 <= i < n ==> auth.keyAuths[i].key !in keys
    ensures KeyWeight(auth, n, keys) == 0
  {
    if n > 0 { NoKeyWeight(auth, n - 1, keys); }
  }

  // ---- The depth limit and the account budget

  ghost function Remembered(mem: Memory): iset<Account> { iset a | a in mem.approved }

  /** No account can be followed: the depth limit is reached, or the account budget is spent. */
  predicate Exhausted(ctx: Context, depth: Word32, count: Word32) {
    depth == ctx.maxRecursion || 0 < ctx.maxAccountAuths <= count
  }

  lemma {:induction false} AccountsExhausted(ctx: Context, auth: Authority, i: nat, total: Word32, membership: nat,
                                             depth: Word32, mem: Memory, count: Word32)
    requires i <= |auth.accountAuths| && Exhausted(ctx, depth, count)
    requires total <= KeyWeight(auth, |auth.keyAuths|, Full(ctx, mem)) + AccountWeight(auth, i, Remembered(mem))
    ensures var r := ScanAccounts(ctx, auth, i, total, membership, depth, mem, count);
            r.mem == mem && r.count == count && (r.ok ==> Meets(auth, Full(ctx, mem), Remembered(mem)))
    decreases |auth.accountAuths| - i
  {
    if i == |auth.accountAuths| { return; }
    var a := auth.accountAuths[i];
    AccountWeightGrows(auth, i + 1, |auth.accountAuths|, Remembered(mem), Remembered(mem));
    if a.account in mem.approved {
      AddSound(auth, i, total, true, Full(ctx, mem), Remembered(mem));
      AccountsExhausted(ctx, auth, i + 1, Wrap(total + a.weight), membership + 1, depth, mem, count);
    } else if depth == ctx.maxRecursion {
      AccountsExhausted(ctx, auth, i + 1, total, membership, depth, mem, count);
    }
  }

  /** Then a yes takes signed keys and remembered accounts alone, and nothing is charged or newly remembered. */
  lemma NothingIsFollowed(ctx: Context, auth: Authority, depth: Word32, mem: Memory, count: Word32)
    requires Exhausted(ctx, depth, count)
    ensures var r := CheckImpl(ctx, auth, depth, mem, count);
            && r.mem.approved == mem.approved && r.count == count
            && (r.ok ==> Meets(auth, Full(ctx, mem), Remembered(mem)))
  {
    ScanKeysExtends(ctx, auth, 0, 0, 0, mem);
    ScanKeysApproves(ctx, auth, 0, 0, 0, mem);
    KeysSound(ctx, auth, 0, 0, 0, mem);
    var r := ScanKeys(ctx, auth, 0, 0, 0, mem);
    if r.Go? {
      AccountsExhausted(ctx, auth, 0, r.total, r.membership, depth, r.mem, count);
    } else if r.ok {
      AccountWeightGrows(auth, 0, |auth.accountAuths|, Remembered(mem), Remembered(mem));
    }
  }

  lemma {:induction false} ScanKeysApproves(ctx: Context, auth: Authority, i: nat, total: Word32, membership: nat,
                                            mem: Memory)
    requires i <= |auth.keyAuths|
    ensures ScanKeys(ctx, auth, i, total, membership, mem).mem.approved == mem.approved
    decreases |auth.keyAuths| - i
  {
    if i < |auth.keyAuths| {
      var (signed, mem1) := SignedBy(ctx, auth.keyAuths[i].key, mem);
      var total1 := if signed then Wrap(total + auth.keyAuths[i].weight) else total;
      ScanKeysApproves(ctx, auth, i + 1, total1, membership + 1, mem1);
    }
  }

  /** A check by name charges the account itself: a budget of one is spent before any account is followed. */
  lemma NameIsCharged(ctx: Context, id: Account, mem: Memory)
    requires ctx.maxAccountAuths == 1 && id !in mem.approved
    ensures RunCheck(ctx, ById(id), mem).ok ==> Meets(ctx.getActive(id), Full(ctx, mem), Remembered(mem))
  {
    NothingIsFollowed(ctx, ctx.getActive(id), 0, mem, 1);
  }

  // ---- The used keys

  /** The key occurs in the authority, or in one within n levels of accounts below it. */
  predicate Mentions(getActive: Account -> Authority, n: nat, auth: Authority, k: Key) {
    || (exists ka <- auth.keyAuths :: ka.key == k)
    || (n > 0 && exists a <- auth.accountAuths :: Mentions(getActive, n - 1, getActive(a.account), k))
  }

  /** Every key newly marked as used is signed and mentioned. */
  ghost predicate UsesMentioned(ctx: Context, n: nat, auth: Authority, mem: Memory, mem': Memory) {
    forall k <- Used(mem') :: k in Used(mem) || (k in Full(ctx, mem) && Mentions(ctx.getActive, n, auth, k))
  }

  lemma {:induction false} KeysUse(ctx: Context, n: nat, auth: Authority, i: nat, total: Word32, membership: nat,
                                   mem: Memory)
    requires i <= |auth.keyAuths|
    ensures UsesMentioned(ctx, n, auth, mem, ScanKeys(ctx, auth, i, total, membership, mem).mem)
    decreases |auth.keyAuths| - i
  {
    if i < |auth.keyAuths| {
      var k := auth.keyAuths[i];
      assert k in auth.keyAuths;
      SignedByFacts(ctx, k.key, mem);
      var (signed, mem1) := SignedBy(ctx, k.key, mem);
      KeysUse(ctx, n, auth, i + 1, if signed then Wrap(total + k.weight) else total, membership + 1, mem1);
    }
  }

  lemma {:induction false} ImplUses(ctx: Context, auth: Authority, depth: Word32, mem: Memory, count: Word32)
    ensures UsesMentioned(ctx, Remaining(ctx, depth), auth, mem, CheckImpl(ctx, auth, depth, mem, count).mem)
    decreases Remaining(ctx, depth), 2, 0
  {
    KeysUse(ctx, Remaining(ctx, depth), auth, 0, 0, 0, mem);
    ScanKeysExtends(ctx, auth, 0, 0, 0, mem);
    var r := ScanKeys(ctx, auth, 0, 0, 0, mem);
    if r.Go? { AccountsUse(ctx, auth, 0, r.total, r.membership, depth, r.mem, count); }
  }

  lemma {:induction false} EntryUses(ctx: Context, auth: Authority, i: nat, depth: Word32, mem: Memory, count: Word32)
    requires i < |auth.accountAuths|
    requires auth.accountAuths[i].account in mem.approved || depth != ctx.maxRecursion
    ensures UsesMentioned(ctx, Remaining(ctx, depth), auth, mem,
                          SubCheck(ctx, auth.accountAuths[i].account, depth, mem, count).mem)
    decreases Remaining(ctx, depth), 0, 0
  {
    var a := auth.accountAuths[i];
    assert a in auth.accountAuths;
    if a.account !in mem.approved {
      assert Remaining(ctx, Wrap(depth + 1)) == Remaining(ctx, depth) - 1;
      ImplUses(ctx, ctx.getActive(a.account), Wrap(depth + 1), mem, Wrap(count + 1));
    }
  }

  lemma {:induction false} AccountsUse(ctx: Context, auth: Authority, i: nat, total: Word32, membership: nat,
                                       depth: Word32, mem: Memory, count: Word32)
    requires i <= |auth.accountAuths|
    ensures UsesMentioned(ctx, Remaining(ctx, depth), auth, mem,
                          ScanAccounts(ctx, auth, i, total, membership, depth, mem, count).mem)
    decreases Remaining(ctx, depth), 1, |auth.accountAuths| - i
  {
    if i == |auth.accountAuths| { return; }
    var a := auth.accountAuths[i];
    if a.account !in mem.approved && depth == ctx.maxRecursion {
      AccountsUse(ctx, auth, i + 1, total, membership, depth, mem, count);
    } else if a.account in mem.approved || ctx.maxAccountAuths == 0 || count < ctx.maxAccountAuths {
      EntryUses(ctx, auth, i, depth, mem, count);
      SubCheckExtends(ctx, a.account, depth, mem, count);
      var sub := SubCheck(ctx, a.account, depth, mem, count);
      var total1 := if sub.ok then Wrap(total + a.weight) else total;
      AccountsUse(ctx, auth, i + 1, total1, membership + 1, depth, sub.mem, sub.count);
    }
  }

  /** The authority a top-level check starts from. */
  function Start(ctx: Context, c: Check): Authority {
    match c
    case ById(id) => ctx.getActive(id)
    case ByAuthority(auth) => auth
  }

  /** Over a whole run, a key is marked as used only if it is signed and some check of the run can come to it within
      the depth limit. */
  lemma {:induction false} RunUses(ctx: Context, checks: seq<Check>, mem: Memory, k: Key)
    requires k in Used(RunChecks(ctx, checks, mem).1) && k !in Used(mem)
    ensures k in Full(ctx, mem) && exists c <- checks :: Mentions(ctx.getActive, ctx.maxRecursion, Start(ctx, c), k)
  {
    if checks == [] { return; }
    var c := checks[0];
    assert c in checks;
    var r := RunCheck(ctx, c, mem);
    RunCheckExtends(ctx, c, mem);
    ImplUses(ctx, Start(ctx, c), 0, mem, if c.ById? then 1 else 0);
    if k !in Used(r.mem) {
      RunUses(ctx, checks[1..], r.mem, k);
      var c' :| c' in checks[1..] && Mentions(ctx.getActive, ctx.maxRecursion, Start(ctx, c'), k);
      assert c' in checks;
    } else {
      assert Mentions(ctx.getActive, ctx.maxRecursion, Start(ctx, c), k);
    }
  }
}
