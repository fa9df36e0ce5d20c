/** Rerunning checks with fewer keys: any key set between the keys a run flagged as used and the keys it
    counted as signed gives the same run (sign_state.cpp). */
module AuthorityReplay {
  import opened Authorities

  lemma SignedByFacts(ctx: Context, k: Key, mem: Memory)
    ensures var r := SignedBy(ctx, k, mem);
            && (r.0 <==> k in Full(ctx, mem))
            && r.1.approved == mem.approved
            && Full(ctx, r.1) == Full(ctx, mem)
            && Used(r.1) == if r.0 then Used(mem) + {k} else Used(mem)
  {
  }

  lemma {:induction false} ScanKeysExtends(ctx: Context, auth: Authority, i: nat, total: Word32, membership: nat,
                                           mem: Memory)
    requires i <= |auth.keyAuths|
    ensures var r := ScanKeys(ctx, auth, i, total, membership, mem);
            Extends(ctx, mem, r.mem) && r.mem.approved == mem.approved
    decreases |auth.keyAuths| - i
  {
    if i < |auth.keyAuths| {
      var k := auth.keyAuths[i];
      SignedByFacts(ctx, k.key, mem);
      var (signed, mem1) := SignedBy(ctx, k.key, mem);
      ScanKeysExtends(ctx, auth, i + 1, if signed then Wrap(total + k.weight) else total, membership + 1, mem1);
    }
  }

  lemma {:induction false} CheckImplExtends(ctx: Context, auth: Authority, depth: Word32, mem: Memory, count: Word32)
    ensures Extends(ctx, mem, CheckImpl(ctx, auth, depth, mem, count).mem)
    decreases Remaining(ctx, depth), 2, 0
  {
    ScanKeysExtends(ctx, auth, 0, 0, 0, mem);
    var r := ScanKeys(ctx, auth, 0, 0, 0, mem);
    if r.Go? { ScanAccountsExtends(ctx, auth, 0, r.total, r.membership, depth, r.mem, count); }
  }

  lemma {:induction false} SubCheckExtends(ctx: Context, account: Account, depth: Word32, mem: Memory, count: Word32)
    requires account in mem.approved || depth != ctx.maxRecursion
    ensures Extends(ctx, mem, SubCheck(ctx, account, depth, mem, count).mem)
    decreases Remaining(ctx, depth), 0, 0
  {
    if account !in mem.approved {
      CheckImplExtends(ctx, ctx.getActive(account), Wrap(depth + 1), mem, Wrap(count + 1));
    }
  }

  lemma {:induction false} ScanAccountsExtends(ctx: Context, auth: Authority, i: nat, total: Word32, membership: nat,
                                               depth: Word32, mem: Memory, count: Word32)
    requires i <= |auth.accountAuths|
    ensures Extends(ctx, mem, ScanAccounts(ctx, auth, i, total, membership, depth, mem, count).mem)
    decreases Remaining(ctx, depth), 1, |auth.accountAuths| - i
  {
    if i == |auth.accountAuths| { return; }
    var a := auth.accountAuths[i];
    if a.account !in mem.approved && depth == ctx.maxRecursion {
      ScanAccountsExtends(ctx, auth, i + 1, total, membership, depth, mem, count);
    } else {
      SubCheckExtends(ctx, a.account, depth, mem, count);
      var sub := SubCheck(ctx, a.account, depth, mem, count);
      var total1 := if sub.ok then Wrap(total + a.weight) else total;
      ScanAccountsExtends(ctx, auth, i + 1, total1, membership + 1, depth, sub.mem, sub.count);
    }
  }

  /** Two memories that agree on everything but which unused keys they hold. */
  ghost predicate Alike(mem: Memory, mem': Memory) {
    mem'.approved == mem.approved && Used(mem') == Used(mem)
  }

  /** The second run sees a key set between the keys the first one ends up using and the keys it counts as signed. */
  ghost predicate Between(ctx: Context, used: set<Key>, mem: Memory, avail: set<Key>, mem': Memory) {
    used <= Full(ctx.(available := avail), mem') <= Full(ctx, mem)
  }

  lemma {:induction false} ReplayKeys(ctx: Context, avail: set<Key>, auth: Authority, i: nat, total: Word32,
                                      membership: nat,
                                      mem: Memory, mem': Memory)
    requires i <= |auth.keyAuths| && Alike(mem, mem')
    requires Between(ctx, Used(ScanKeys(ctx, auth, i, total, membership, mem).mem), mem, avail, mem')
    ensures var r, r' := ScanKeys(ctx, auth, i, total, membership, mem),
                         ScanKeys(ctx.(available := avail), auth, i, total, membership, mem');
            && Alike(r.mem, r'.mem)
            && Full(ctx.(available := avail), r'.mem) == Full(ctx.(available := avail), mem')
            && (r.Stop? ==> r'.Stop? && r'.ok == r.ok)
            && (r.Go? ==> r'.Go? && r'.total == r.total && r'.membership == r.membership)
    decreases |auth.keyAuths| - i
  {
    if i < |auth.keyAuths| {
      var k := auth.keyAuths[i];
      var ctx' := ctx.(available := avail);
      SignedByFacts(ctx, k.key, mem);
      SignedByFacts(ctx', k.key, mem');
      var (signed, mem1) := SignedBy(ctx, k.key, mem);
      var total1 := if signed then Wrap(total + k.weight) else total;
      ScanKeysExtends(ctx, auth, i + 1, total1, membership + 1, mem1);
      if !(signed && total1 >= auth.threshold) && !AtMembershipLimit(ctx, membership + 1) {
        ReplayKeys(ctx, avail, auth, i + 1, total1, membership + 1, mem1, SignedBy(ctx', k.key, mem').1);
      }
    }
  }

  ghost predicate SameOutcome(ctx': Context, mem': Memory, r: Outcome, r': Outcome) {
    r'.ok == r.ok && r'.count == r.count && Alike(r.mem, r'.mem) && Full(ctx', r'.mem) == Full(ctx', mem')
  }

  lemma {:induction false} ReplayImpl(ctx: Context, avail: set<Key>, auth: Authority, depth: Word32,
                                      mem: Memory, mem': Memory, count: Word32)
    requires Alike(mem, mem')
    requires Between(ctx, Used(CheckImpl(ctx, auth, depth, mem, count).mem), mem, avail, mem')
    ensures SameOutcome(ctx.(available := avail), mem', CheckImpl(ctx, auth, depth, mem, count),
                        CheckImpl(ctx.(available := avail), auth, depth, mem', count))
    decreases Remaining(ctx, depth), 2, 0
  {
    var r := ScanKeys(ctx, auth, 0, 0, 0, mem);
    ScanKeysExtends(ctx, auth, 0, 0, 0, mem);
    if r.Go? { ScanAccountsExtends(ctx, auth, 0, r.total, r.membership, depth, r.mem, count); }
    ReplayKeys(ctx, avail, auth, 0, 0, 0, mem, mem');
    var r' := ScanKeys(ctx.(available := avail), auth, 0, 0, 0, mem');
    if r.Go? { ReplayAccounts(ctx, avail, auth, 0, r.total, r.membership, depth, r.mem, r'.mem, count); }
  }

  lemma {:induction false} ReplaySub(ctx: Context, avail: set<Key>, account: Account, depth: Word32,
                                     mem: Memory, mem': Memory, count: Word32)
    requires Alike(mem, mem')
    requires account in mem.approved || depth != ctx.maxRecursion
    requires Between(ctx, Used(SubCheck(ctx, account, depth, mem, count).mem), mem, avail, mem')
    ensures SameOutcome(ctx.(available := avail), mem', SubCheck(ctx, account, depth, mem, count),
                        SubCheck(ctx.(available := avail), account, depth, mem', count))
    decreases Remaining(ctx, depth), 0, 0
  {
    if account !in mem.approved {
      ReplayImpl(ctx, avail, ctx.getActive(account), Wrap(depth + 1), mem, mem', Wrap(count + 1));
    }
  }

  lemma {:induction false} ReplayAccounts(ctx: Context, avail: set<Key>, auth: Authority, i: nat, total: Word32,
                                          membership: nat,
                                          depth: Word32, mem: Memory, mem': Memory, count: Word32)
    requires i <= |auth.accountAuths| && Alike(mem, mem')
    requires Between(ctx, Used(ScanAccounts(ctx, auth, i, total, membership, depth, mem, count).mem), mem, avail, mem')
    ensures SameOutcome(ctx.(available := avail), mem',
                        ScanAccounts(ctx, auth, i, total, membership, depth, mem, count),
                        ScanAccounts(ctx.(available := avail), auth, i, total, membership, depth, mem', count))
    decreases Remaining(ctx, depth), 1, |auth.accountAuths| - i
  {
    if i == |auth.accountAuths| { return; }
    var a := auth.accountAuths[i];
    var known := a.account in mem.approved;
    if !known && depth == ctx.maxRecursion {
      ReplayAccounts(ctx, avail, auth, i + 1, total, membership, depth, mem, mem', count);
    } else if !known && ctx.maxAccountAuths > 0 && count >= ctx.maxAccountAuths {
    } else {
      ReplayEntry(ctx, avail, auth, i, total, membership, depth, mem, mem', count);
    }
  }

  lemma {:induction false} ReplayEntry(ctx: Context, avail: set<Key>, auth: Authority, i: nat, total: Word32,
                                       membership: nat,
                                       depth: Word32, mem: Memory, mem': Memory, count: Word32)
    requires i < |auth.accountAuths| && Alike(mem, mem')
    requires auth.accountAuths[i].account in mem.approved ||
             (depth != ctx.maxRecursion && !(ctx.maxAccountAuths > 0 && count >= ctx.maxAccountAuths))
    requires Between(ctx, Used(ScanAccounts(ctx, auth, i, total, membership, depth, mem, count).mem), mem, avail, mem')
    ensures SameOutcome(ctx.(available := avail), mem',
                        ScanAccounts(ctx, auth, i, total, membership, depth, mem, count),
                        ScanAccounts(ctx.(available := avail), auth, i, total, membership, depth, mem', count))
    decreases Remaining(ctx, depth), 1, |auth.accountAuths| - i, 0
  {
    var a := auth.accountAuths[i];
    var ctx' := ctx.(available := avail);
    SubCheckExtends(ctx, a.account, depth, mem, count);
    var sub := SubCheck(ctx, a.account, depth, mem, count);
    var total1 := if sub.ok then Wrap(total + a.weight) else total;
    ScanAccountsExtends(ctx, auth, i + 1, total1, membership + 1, depth, sub.mem, sub.count);
    ReplaySub(ctx, avail, a.account, depth, mem, mem', count);
    var sub' := SubCheck(ctx', a.account, depth, mem', count);
    if !(sub.ok && total1 >= auth.threshold) && !AtMembershipLimit(ctx, membership + 1) {
      ReplayAccounts(ctx, avail, auth, i + 1, total1, membership + 1, depth, sub.mem, sub'.mem, sub.count);
    }
  }

  lemma RunCheckExtends(ctx: Context, c: Check, mem: Memory)
    ensures Extends(ctx, mem, RunCheck(ctx, c, mem).mem)
  {
    match c
    case ById(id) => CheckImplExtends(ctx, ctx.getActive(id), 0, mem, 1);
    case ByAuthority(auth) => CheckImplExtends(ctx, auth, 0, mem, 0);
  }

  lemma {:induction false} RunChecksExtends(ctx: Context, checks: seq<Check>, mem: Memory)
    ensures Extends(ctx, mem, RunChecks(ctx, checks, mem).1)
  {
    if checks != [] {
      RunCheckExtends(ctx, checks[0], mem);
      RunChecksExtends(ctx, checks[1..], RunCheck(ctx, checks[0], mem).mem);
    }
  }

  /** Replay: same answers, same approvals and same used keys, for every run of checks under every limit. */
  lemma {:induction false} Replay(ctx: Context, avail: set<Key>, checks: seq<Check>, mem: Memory, mem': Memory)
    requires Alike(mem, mem')
    requires Between(ctx, Used(RunChecks(ctx, checks, mem).1), mem, avail, mem')
    ensures var (answers, final), (answers', final') :=
              RunChecks(ctx, checks, mem), RunChecks(ctx.(available := avail), checks, mem');
            answers' == answers && Alike(final, final')
  {
    if checks != [] {
      var c, first := checks[0], RunCheck(ctx, checks[0], mem);
      RunCheckExtends(ctx, c, mem);
      RunChecksExtends(ctx, checks[1..], first.mem);
      match c {
        case ById(id) =>
          if id !in mem.approved { ReplayImpl(ctx, avail, ctx.getActive(id), 0, mem, mem', 1); }
        case ByAuthority(auth) => ReplayImpl(ctx, avail, auth, 0, mem, mem', 0);
      }
      Replay(ctx, avail, checks[1..], first.mem, RunCheck(ctx.(available := avail), c, mem').mem);
    }
  }
}
