/** Choosing and minimising the keys a transaction must be signed with (transaction.cpp, transaction_util.hpp). */
module RequiredSignatures {
  import opened Common
  import opened Authorities
  import opened AuthorityMeaning
  import opened AuthorityReplay
  import opened SignStates

  datatype Getters = Getters(active: Account -> Authority, owner: Account -> Authority, posting: Account -> Authority)

  /** What the operations of a transaction ask for; the account sets in iteration order. */
  datatype Required = Required(active: seq<Account>, owner: seq<Account>, posting: seq<Account>, other: seq<Authority>)

  datatype Limits = Limits(recursion: Word32, membership: Word32, accountAuths: Word32)

  function SignContext(req: Required, getters: Getters, avail: set<Key>, limits: Limits): Context {
    Context(if req.posting != [] then getters.posting else getters.active, avail,
            limits.recursion, limits.membership, limits.accountAuths)
  }

  function Names(ids: seq<Account>): seq<Check> { seq(|ids|, i requires 0 <= i < |ids| => ById(ids[i])) }

  function Owners(getters: Getters, ids: seq<Account>): seq<Check> {
    seq(|ids|, i requires 0 <= i < |ids| => ByAuthority(getters.owner(ids[i])))
  }

  function Others(auths: seq<Authority>): seq<Check> {
    seq(|auths|, i requires 0 <= i < |auths| => ByAuthority(auths[i]))
  }

  /** The checks of get_required_signatures, in its order. */
  function Checks(req: Required, getters: Getters): seq<Check> {
    if req.posting != [] then Names(req.posting)
    else Others(req.other) + Owners(getters, req.owner) + Names(req.active)
  }

  ghost function RequiredRun(sigs: set<Key>, avail: set<Key>, getters: Getters, req: Required, limits: Limits)
    : (seq<bool>, Memory)
  {
    RunChecks(SignContext(req, getters, avail, limits), Checks(req, getters), Initial(sigs))
  }

  method CheckEach(s: SignState, checks: seq<Check>)
    modifies s`provided, s`approved
    ensures s.Mem() == RunChecks(s.Ctx(), checks, old(s.Mem())).1
  {
    for i := 0 to |checks|
      invariant RunChecks(s.Ctx(), checks[i..], s.Mem()).1 == RunChecks(s.Ctx(), checks, old(s.Mem())).1
    {
      var _ := s.CheckAuthority(checks[i]);
      assert checks[i..][1..] == checks[i + 1..];
    }
  }

  /** The available keys that the run of checks used; nothing when posting is mixed with the other kinds. */
  method GetRequiredSignatures(sigs: set<Key>, avail: set<Key>, getters: Getters, req: Required, limits: Limits)
    returns (r: Option<set<Key>>)
    ensures r.None? <==> req.posting != [] && (req.owner != [] || req.active != [])
    ensures r.Some? ==> r.value == Used(RequiredRun(sigs, avail, getters, req, limits).1) * avail
  {
    if req.posting != [] && (req.owner != [] || req.active != []) { return None; }
    var s := new SignState(sigs, if req.posting != [] then getters.posting else getters.active, avail);
    s.maxRecursion, s.maxMembership, s.maxAccountAuths := limits.recursion, limits.membership, limits.accountAuths;
    CheckEach(s, Checks(req, getters));
    var _ := s.RemoveUnusedSignatures();
    return Some(set k | k in s.provided && k in avail);
  }

  // ---- Verification of the signed transaction

  datatype Verdict =
    | Accepted
    | MissingPosting(id: Account) | MissingActive(id: Account) | MissingOwner(id: Account)
    | MissingOther(auth: Authority)
    | Irrelevant
    | Mixed

  predicate Missing(v: Verdict) { v.MissingPosting? || v.MissingActive? || v.MissingOwner? || v.MissingOther? }

  /** One assertion of verify_authority: alternatives tried in order, and the error when none holds. */
  datatype Demand = Demand(first: Check, rest: seq<Check>, missing: Verdict)

  function Demands(req: Required, getters: Getters): seq<Demand> {
    if req.posting != [] then
      seq(|req.posting|, i requires 0 <= i < |req.posting| =>
        var id := req.posting[i];
        Demand(ById(id), [ByAuthority(getters.active(id)), ByAuthority(getters.owner(id))], MissingPosting(id)))
    else
      seq(|req.other|, i requires 0 <= i < |req.other| =>
        Demand(ByAuthority(req.other[i]), [], MissingOther(req.other[i])))
      + seq(|req.active|, i requires 0 <= i < |req.active| =>
          Demand(ById(req.active[i]), [ByAuthority(getters.owner(req.active[i]))], MissingActive(req.active[i])))
      + seq(|req.owner|, i requires 0 <= i < |req.owner| =>
          Demand(ByAuthority(getters.owner(req.owner[i])), [], MissingOwner(req.owner[i])))
  }

  function TryEach(ctx: Context, alternatives: seq<Check>, mem: Memory): (bool, Memory) {
    if alternatives == [] then (false, mem)
    else
      var r := RunCheck(ctx, alternatives[0], mem);
      if r.ok then (true, r.mem) else TryEach(ctx, alternatives[1..], r.mem)
  }

  function RunDemands(ctx: Context, demands: seq<Demand>, mem: Memory): (Verdict, Memory) {
    if demands == [] then (Accepted, mem)
    else
      var (ok, mem1) := TryEach(ctx, [demands[0].first] + demands[0].rest, mem);
      if ok then RunDemands(ctx, demands[1..], mem1) else (demands[0].missing, mem1)
  }

  /** verify_authority with no pre-approved accounts, as signed_transaction calls it. */
  function VerifyAuthority(sigs: set<Key>, getters: Getters, req: Required, limits: Limits): Verdict {
    if req.posting != [] && (req.active != [] || req.owner != [] || req.other != []) then Mixed
    else
      var (verdict, mem) := RunDemands(SignContext(req, getters, {}, limits), Demands(req, getters), Initial(sigs));
      if verdict.Accepted? && Used(mem) != sigs then Irrelevant else verdict
  }

  method TryAlternatives(s: SignState, alternatives: seq<Check>) returns (ok: bool)
    modifies s`provided, s`approved
    ensures (ok, s.Mem()) == TryEach(s.Ctx(), alternatives, old(s.Mem()))
  {
    for i := 0 to |alternatives|
      invariant TryEach(s.Ctx(), alternatives[i..], s.Mem()) == TryEach(s.Ctx(), alternatives, old(s.Mem()))
    {
      ok := s.CheckAuthority(alternatives[i]);
      if ok { return; }
      assert alternatives[i..][1..] == alternatives[i + 1..];
    }
    return false;
  }

  method Verify(sigs: set<Key>, getters: Getters, req: Required, limits: Limits) returns (v: Verdict)
    ensures v == VerifyAuthority(sigs, getters, req, limits)
  {
    if req.posting != [] && (req.active != [] || req.owner != [] || req.other != []) { return Mixed; }
    var s := new SignState(sigs, if req.posting != [] then getters.posting else getters.active, {});
    s.maxRecursion, s.maxMembership, s.maxAccountAuths := limits.recursion, limits.membership, limits.accountAuths;
    var demands := Demands(req, getters);
    for i := 0 to |demands|
      invariant RunDemands(s.Ctx(), demands[i..], s.Mem()) == RunDemands(s.Ctx(), demands, Initial(sigs))
      invariant s.provided.Keys == sigs
      invariant s.Ctx() == SignContext(req, getters, {}, limits)
    {
      ghost var mem := s.Mem();
      var ok := TryAlternatives(s, [demands[i].first] + demands[i].rest);
      assert demands[i..][1..] == demands[i + 1..];
      if !ok { return demands[i].missing; }
      TryEachExtends(s.Ctx(), [demands[i].first] + demands[i].rest, mem);
    }
    var removed := s.RemoveUnusedSignatures();
    return if removed then Irrelevant else Accepted;
  }

  lemma {:induction false} TryEachExtends(ctx: Context, alternatives: seq<Check>, mem: Memory)
    ensures Extends(ctx, mem, TryEach(ctx, alternatives, mem).1)
  {
    if alternatives != [] {
      RunCheckExtends(ctx, alternatives[0], mem);
      TryEachExtends(ctx, alternatives[1..], RunCheck(ctx, alternatives[0], mem).mem);
    }
  }

  /** When every first alternative holds, the demands are met by exactly that run of checks. */
  lemma {:induction false} FirstAlternatives(ctx: Context, demands: seq<Demand>, checks: seq<Check>, mem: Memory)
    requires |checks| == |demands| && forall i :: 0 <= i < |demands| ==> checks[i] == demands[i].first
    requires forall i :: 0 <= i < |checks| ==> RunChecks(ctx, checks, mem).0[i]
    ensures RunDemands(ctx, demands, mem) == (Accepted, RunChecks(ctx, checks, mem).1)
  {
    if demands != [] {
      var first := RunCheck(ctx, checks[0], mem);
      assert RunChecks(ctx, checks, mem).0[0] == first.ok;
      forall i | 0 <= i < |checks[1..]| ensures RunChecks(ctx, checks[1..], first.mem).0[i] {
        assert RunChecks(ctx, checks, mem).0[i + 1] == RunChecks(ctx, checks[1..], first.mem).0[i];
      }
      FirstAlternatives(ctx, demands[1..], checks[1..], first.mem);
    }
  }

  /** The checks and the demands line up: posting is alone, and owner and active authorities are not mixed. */
  predicate Unmixed(req: Required) {
    if req.posting != [] then req.active == [] && req.owner == [] && req.other == []
    else req.active == [] || req.owner == []
  }

  /** Sufficiency: if every check succeeded while keys were being chosen, then of all the key sets between the
      used keys and everything at hand, verification accepts the used keys and calls any larger set irrelevant. */
  lemma UsedKeysVerify(sigs: set<Key>, avail: set<Key>, getters: Getters, req: Required, limits: Limits, keys: set<Key>)
    requires Unmixed(req)
    requires var (answers, final) := RequiredRun(sigs, avail, getters, req, limits);
             (forall i :: 0 <= i < |answers| ==> answers[i]) && Used(final) <= keys <= sigs + avail
    ensures VerifyAuthority(keys, getters, req, limits) ==
            if keys == Used(RequiredRun(sigs, avail, getters, req, limits).1) then Accepted else Irrelevant
  {
    var ctx, checks, demands := SignContext(req, getters, avail, limits), Checks(req, getters), Demands(req, getters);
    var bare := SignContext(req, getters, {}, limits);
    assert bare == ctx.(available := {});
    Replay(ctx, {}, checks, Initial(sigs), Initial(keys));
    FirstAlternatives(bare, demands, checks, Initial(keys));
  }

  /** Every authority asked for fits the limits: it is no higher than the depth limit, and no other limit strikes. */
  predicate AllFit(req: Required, getters: Getters, limits: Limits) {
    forall c <- Checks(req, getters) :: CheckFits(SignContext(req, getters, {}, limits), {"temp"}, c)
  }

  /** The first alternatives of the demands, in the order of verification: the checks, with owners moved behind
      actives. */
  function Firsts(req: Required, getters: Getters): seq<Check> {
    Others(req.other) + Names(req.active) + Owners(getters, req.owner)
  }

  lemma FirstsAreChecks(req: Required, getters: Getters, i: nat) returns (j: nat)
    requires req.posting == [] && i < |Firsts(req, getters)|
    ensures j < |Checks(req, getters)| && Checks(req, getters)[j] == Firsts(req, getters)[i]
  {
    var n, m := |req.other|, |req.active|;
    j := if i < n then i else if i < n + m then i + |req.owner| else i - m;
  }

  /** The order of the checks does not matter when all fit. */
  lemma ReorderedHold(ctx: Context, req: Required, getters: Getters, keys: set<Key>)
    requires req.posting == [] && forall c <- Checks(req, getters) :: CheckFits(ctx, {"temp"}, c)
    requires forall i :: 0 <= i < |Checks(req, getters)| ==> RunChecks(ctx, Checks(req, getters), Initial(keys)).0[i]
    ensures forall i :: 0 <= i < |Firsts(req, getters)| ==> RunChecks(ctx, Firsts(req, getters), Initial(keys)).0[i]
  {
    var checks, firsts, mem := Checks(req, getters), Firsts(req, getters), Initial(keys);
    forall c <- firsts ensures CheckFits(ctx, {"temp"}, c) {
      var i :| 0 <= i < |firsts| && firsts[i] == c;
      var j := FirstsAreChecks(req, getters, i);
      assert checks[j] in checks;
    }
    RunExact(ctx, checks, mem, {"temp"});
    RunExact(ctx, firsts, mem, {"temp"});
    forall i | 0 <= i < |firsts| ensures RunChecks(ctx, firsts, mem).0[i] {
      var j := FirstsAreChecks(req, getters, i);
      assert RunChecks(ctx, checks, mem).0[j];
    }
  }

  /** The checks succeed again for every key set between the used keys and everything at hand. */
  lemma RequiredReplays(sigs: set<Key>, avail: set<Key>, getters: Getters, req: Required, limits: Limits,
                        keys: set<Key>)
    requires Used(RequiredRun(sigs, avail, getters, req, limits).1) <= keys <= sigs + avail
    ensures RunChecks(SignContext(req, getters, {}, limits), Checks(req, getters), Initial(keys)).0 ==
            RequiredRun(sigs, avail, getters, req, limits).0
  {
    var ctx := SignContext(req, getters, avail, limits);
    assert SignContext(req, getters, {}, limits) == ctx.(available := {});
    Replay(ctx, {}, Checks(req, getters), Initial(sigs), Initial(keys));
  }

  /** Mixed or not, within the limits: no authority is missing for any key set between the used keys and everything at
      hand. */
  lemma FittingKeysVerify(sigs: set<Key>, avail: set<Key>, getters: Getters, req: Required, limits: Limits,
                          keys: set<Key>)
    requires req.posting == [] && AllFit(req, getters, limits)
    requires var (answers, final) := RequiredRun(sigs, avail, getters, req, limits);
             (forall i :: 0 <= i < |answers| ==> answers[i]) && Used(final) <= keys <= sigs + avail
    ensures var v := VerifyAuthority(keys, getters, req, limits); v.Accepted? || v.Irrelevant?
  {
    var bare := SignContext(req, getters, {}, limits);
    RequiredReplays(sigs, avail, getters, req, limits, keys);
    ReorderedHold(bare, req, getters, keys);
    FirstAlternatives(bare, Demands(req, getters), Firsts(req, getters), Initial(keys));
  }

  /** The keys returned by get_required_signatures, added to the signatures already present, leave no authority
      missing; without mixing they verify exactly when every present signature was used. */
  lemma RequiredSignaturesSuffice(sigs: set<Key>, avail: set<Key>, getters: Getters, req: Required, limits: Limits)
    requires Unmixed(req) || (req.posting == [] && AllFit(req, getters, limits))
    requires var answers := RequiredRun(sigs, avail, getters, req, limits).0;
             forall i :: 0 <= i < |answers| ==> answers[i]
    ensures var used := Used(RequiredRun(sigs, avail, getters, req, limits).1);
            var v := VerifyAuthority(sigs + used * avail, getters, req, limits);
            && used <= sigs + used * avail
            && (v.Accepted? || v.Irrelevant?)
            && (Unmixed(req) ==> (v.Accepted? <==> sigs <= used))
  {
    var ctx, checks := SignContext(req, getters, avail, limits), Checks(req, getters);
    RunChecksExtends(ctx, checks, Initial(sigs));
    var used := Used(RequiredRun(sigs, avail, getters, req, limits).1);
    if Unmixed(req) {
      UsedKeysVerify(sigs, avail, getters, req, limits, sigs + used * avail);
    } else {
      FittingKeysVerify(sigs, avail, getters, req, limits, sigs + used * avail);
    }
  }

  const DEFAULTS := Limits(2, 40, 125)

  function Deep(name: Account): Authority {
    if name == "e" then Authority(1, [AccountAuth("c", 1)], [])
    else if name == "c" then Authority(1, [AccountAuth("d", 1)], [])
    else if name == "d" then Authority(1, [AccountAuth("b", 1)], [])
    else Authority(1, [], [KeyAuth(2, 1)])
  }

  function DeepOwner(name: Account): Authority {
    if name == "o" then Authority(1, [AccountAuth("b", 1)], []) else Authority(1, [], [])
  }

  /** With owner and active authorities mixed the law fails: keys are chosen with owners first, which remembers
      "b" in time for the deep check of "e"; verification checks "e" first. */
  lemma MixedMayNotVerify()
    ensures var getters, req := Getters(Deep, DeepOwner, Deep), Required(["e"], ["o"], [], []);
            && RequiredRun({}, {2}, getters, req, DEFAULTS).0 == [true, true]
            && Used(RequiredRun({}, {2}, getters, req, DEFAULTS).1) == {2}
            && VerifyAuthority({2}, getters, req, DEFAULTS) == MissingActive("e")
  {
    var getters, req := Getters(Deep, DeepOwner, Deep), Required(["e"], ["o"], [], []);
    ChoosingRemembers(getters, req);
    VerifyingForgets(getters, req);
  }

  /** An authority that only delegates to one account. */
  lemma Link(ctx: Context, to: Account, depth: Word32, mem: Memory, count: Word32)
    requires ctx.maxMembership != 1 && count < ctx.maxAccountAuths
    ensures CheckImpl(ctx, Authority(1, [AccountAuth(to, 1)], []), depth, mem, count) ==
            if to !in mem.approved && depth == ctx.maxRecursion then Outcome(false, mem, count)
            else SubCheck(ctx, to, depth, mem, count)
  {
    var auth := Authority(1, [AccountAuth(to, 1)], []);
    assert CheckImpl(ctx, auth, depth, mem, count) == ScanAccounts(ctx, auth, 0, 0, 0, depth, mem, count);
    assert auth.accountAuths[0] == AccountAuth(to, 1);
    if to !in mem.approved && depth == ctx.maxRecursion {
      assert ScanAccounts(ctx, auth, 1, 0, 0, depth, mem, count) == Outcome(false, mem, count);
    } else {
      var sub := SubCheck(ctx, to, depth, mem, count);
      assert ScanAccounts(ctx, auth, 1, 0, 1, depth, sub.mem, sub.count) == Outcome(false, sub.mem, sub.count);
    }
  }

  lemma ChoosingRemembers(getters: Getters, req: Required)
    requires getters == Getters(Deep, DeepOwner, Deep) && req == Required(["e"], ["o"], [], [])
    ensures RequiredRun({}, {2}, getters, req, DEFAULTS).0 == [true, true]
    ensures Used(RequiredRun({}, {2}, getters, req, DEFAULTS).1) == {2}
  {
    var ctx, m0 := Context(Deep, {2}, 2, 40, 125), Initial({});
    var m1, m2 := Memory(map[2 := true], {"temp"}), Memory(map[2 := true], {"temp", "b"});
    assert CheckImpl(ctx, Deep("b"), 1, m0, 1) == Outcome(true, m1, 1)
      by { assert Deep("b").keyAuths[0] == KeyAuth(2, 1); }
    Link(ctx, "b", 0, m0, 0);
    Link(ctx, "b", 2, m2, 3);
    Link(ctx, "d", 1, m2, 2);
    Link(ctx, "c", 0, m2, 1);
    var final := RunCheck(ctx, ById("e"), m2).mem;
    assert Used(final) == {2};
    assert Checks(req, getters) == [ByAuthority(DeepOwner("o"))] + [ById("e")];
    assert RunCheck(ctx, ById("e"), m2).ok;
    assert RunChecks(ctx, [ById("e")], m2) == ([true] + [], final)
      by { assert RunChecks(ctx, [], final) == ([], final); }
    assert [true] + [] == [true];
    var checks := Checks(req, getters);
    assert checks[0] == ByAuthority(DeepOwner("o")) && checks[1..] == [ById("e")];
    var first := RunCheck(ctx, checks[0], m0);
    assert first.ok && first.mem == m2;
    assert RunChecks(ctx, checks[1..], first.mem) == ([true], final);
    assert RunChecks(ctx, checks, m0).0 == [true] + [true] && RunChecks(ctx, checks, m0).1 == final;
    assert RequiredRun({}, {2}, getters, req, DEFAULTS) == RunChecks(ctx, checks, m0);
  }

  lemma VerifyingForgets(getters: Getters, req: Required)
    requires getters == Getters(Deep, DeepOwner, Deep) && req == Required(["e"], ["o"], [], [])
    ensures VerifyAuthority({2}, getters, req, DEFAULTS) == MissingActive("e")
  {
    var ctx, m0 := Context(Deep, {}, 2, 40, 125), Initial({2});
    Link(ctx, "b", 2, m0, 3);
    Link(ctx, "d", 1, m0, 2);
    Link(ctx, "c", 0, m0, 1);
    var none := DeepOwner("e");
    assert ScanKeys(ctx, none, 0, 0, 0, m0) == Go(0, 0, m0);
    assert ScanAccounts(ctx, none, 0, 0, 0, 0, m0, 0) == Outcome(false, m0, 0);
    var first := Demands(req, getters)[0];
    assert TryEach(ctx, first.rest, m0) == (false, m0);
    assert TryEach(ctx, [first.first] + first.rest, m0) == (false, m0)
      by { assert ([first.first] + first.rest)[1..] == first.rest; }
  }

  // ---- Within the limits, more keys never make an authority go missing

  function Alternatives(d: Demand): seq<Check> { [d.first] + d.rest }

  /** Every alternative of every demand fits the limits. */
  predicate DemandsFit(ctx: Context, demands: seq<Demand>) {
    forall d <- demands :: forall c <- Alternatives(d) :: CheckFits(ctx, {"temp"}, c)
  }

  /** One of the checks holds in plain recursion. */
  ghost predicate SomeHolds(w: World, n: nat, checks: seq<Check>) {
    exists c <- checks :: PlainHolds(w, n, c)
  }

  lemma {:induction false} TryEachExact(ctx: Context, checks: seq<Check>, mem: Memory)
    requires Grown(ctx, mem, {"temp"}) && forall c <- checks :: CheckFits(ctx, {"temp"}, c)
    ensures var (ok, mem1) := TryEach(ctx, checks, mem);
            && Grown(ctx, mem1, {"temp"}) && Full(ctx, mem1) == Full(ctx, mem)
            && (ok <==> SomeHolds(View(ctx, mem, {"temp"}), ctx.maxRecursion, checks))
  {
    if checks != [] {
      CheckExact(ctx, checks[0], mem, {"temp"});
      CheckGrows(ctx, checks[0], mem, {"temp"});
      var r := RunCheck(ctx, checks[0], mem);
      assert View(ctx, r.mem, {"temp"}) == View(ctx, mem, {"temp"});
      if !r.ok {
        TryEachExact(ctx, checks[1..], r.mem);
        assert checks == [checks[0]] + checks[1..];
      } else {
        assert checks[0] in checks;
      }
    }
  }

  /** Verification accepts the demands exactly when each has an alternative that holds in plain recursion. */
  lemma {:induction false} DemandsExact(ctx: Context, demands: seq<Demand>, mem: Memory)
    requires Grown(ctx, mem, {"temp"}) && DemandsFit(ctx, demands) && forall d <- demands :: Missing(d.missing)
    ensures var v := RunDemands(ctx, demands, mem).0;
            && (v.Accepted? || Missing(v))
            && (v.Accepted? <==>
                forall d <- demands :: SomeHolds(View(ctx, mem, {"temp"}), ctx.maxRecursion, Alternatives(d)))
  {
    if demands != [] {
      assert demands[0] in demands;
      TryEachExact(ctx, Alternatives(demands[0]), mem);
      var (ok, mem1) := TryEach(ctx, Alternatives(demands[0]), mem);
      assert View(ctx, mem1, {"temp"}) == View(ctx, mem, {"temp"});
      if ok {
        DemandsExact(ctx, demands[1..], mem1);
        assert demands == [demands[0]] + demands[1..];
      }
    }
  }

  lemma PlainGrows(w: World, n: nat, c: Check, keys: set<Key>)
    requires w.keys <= keys && PlainHolds(w, n, c)
    ensures PlainHolds(w.(keys := keys), n, c)
  {
    match c
    case ById(id) => LevelGrows(w, n + 1, keys, n + 1);
    case ByAuthority(auth) =>
      LevelGrows(w, n, keys, n);
      MeetsMonotone(auth, w.keys, Level(w, n), keys, Level(w.(keys := keys), n));
  }

  /** All that verification may check for the transaction fits the limits. */
  predicate VerifyFits(req: Required, getters: Getters, limits: Limits) {
    var ctx := SignContext(req, getters, {}, limits);
    if req.posting != [] then
      forall id <- req.posting ::
        && CheckFits(ctx, {"temp"}, ById(id)) && CheckFits(ctx, {"temp"}, ByAuthority(getters.active(id)))
        && CheckFits(ctx, {"temp"}, ByAuthority(getters.owner(id)))
    else
      && (forall auth <- req.other :: CheckFits(ctx, {"temp"}, ByAuthority(auth)))
      && (forall id <- req.active ::
            CheckFits(ctx, {"temp"}, ById(id)) && CheckFits(ctx, {"temp"}, ByAuthority(getters.owner(id))))
      && (forall id <- req.owner :: CheckFits(ctx, {"temp"}, ByAuthority(getters.owner(id))))
  }

  lemma FittingDemands(req: Required, getters: Getters, limits: Limits)
    requires VerifyFits(req, getters, limits)
    ensures DemandsFit(SignContext(req, getters, {}, limits), Demands(req, getters))
  {
    var ctx, demands := SignContext(req, getters, {}, limits), Demands(req, getters);
    forall d <- demands ensures forall c <- Alternatives(d) :: CheckFits(ctx, {"temp"}, c) {
      var i :| 0 <= i < |demands| && demands[i] == d;
      var n, m := |req.other|, |req.active|;
      if req.posting != [] {
        assert req.posting[i] in req.posting;
      } else if i < n {
        assert req.other[i] in req.other;
      } else if i < n + m {
        assert req.active[i - n] in req.active;
      } else {
        assert req.owner[i - n - m] in req.owner;
      }
    }
  }

  /** Within the limits, adding keys never makes an authority go missing. */
  lemma NeverGoesMissing(small: set<Key>, large: set<Key>, getters: Getters, req: Required, limits: Limits)
    requires VerifyFits(req, getters, limits) && small <= large
    requires !Missing(VerifyAuthority(small, getters, req, limits))
    ensures !Missing(VerifyAuthority(large, getters, req, limits))
  {
    var ctx, demands := SignContext(req, getters, {}, limits), Demands(req, getters);
    var w := View(ctx, Initial(small), {"temp"});
    FittingDemands(req, getters, limits);
    DemandsExact(ctx, demands, Initial(small));
    DemandsExact(ctx, demands, Initial(large));
    assert View(ctx, Initial(large), {"temp"}) == w.(keys := large);
    if RunDemands(ctx, demands, Initial(small)).0.Accepted? {
      forall d <- demands ensures SomeHolds(w.(keys := large), ctx.maxRecursion, Alternatives(d)) {
        assert SomeHolds(w, ctx.maxRecursion, Alternatives(d));
        var c :| c in Alternatives(d) && PlainHolds(w, ctx.maxRecursion, c);
        PlainGrows(w, ctx.maxRecursion, c, large);
      }
    }
  }

  // ---- Minimisation

  predicate Distinct(keys: seq<Key>) {
    forall i, j :: 0 <= i < j < |keys| ==> keys[i] != keys[j]
  }

  function ToSet(keys: seq<Key>): set<Key> { set k | k in keys }

  ghost predicate MonotoneWithin(verify: set<Key> -> Verdict, all: set<Key>) {
    forall s, t {:trigger verify(s), verify(t)} :: s <= t <= all && verify(s).Accepted? ==> verify(t).Accepted?
  }

  /** Some key set above this one has an authority missing. */
  ghost predicate Blocked(verify: set<Key> -> Verdict, all: set<Key>, s: set<Key>) {
    exists t :: s <= t <= all && Missing(verify(t))
  }

  /** Drops one key at a time while verification still accepts. An error other than the four missing-authority
      ones escapes (None). The result is a subset that still verifies, and every proper subset of it lies below a
      key set with an authority missing; so the result is minimal when verification is monotone. */
  method Minimize(required: seq<Key>, verify: set<Key> -> Verdict) returns (r: Option<set<Key>>)
    requires Distinct(required)
    ensures r.Some? ==> r.value <= ToSet(required)
    ensures r.Some? && verify(ToSet(required)).Accepted? ==> verify(r.value).Accepted?
    ensures r.Some? ==> forall s :: s < r.value ==> Blocked(verify, ToSet(required), s)
    ensures r.Some? && MonotoneWithin(verify, ToSet(required)) ==> forall s :: s < r.value ==> !verify(s).Accepted?
    ensures r.None? ==> exists s :: s <= ToSet(required) && !verify(s).Accepted? && !Missing(verify(s))
  {
    var all := ToSet(required);
    var result := all;
    for i := 0 to |required|
      invariant result <= all && forall j :: i <= j < |required| ==> required[j] in result
      invariant verify(all).Accepted? ==> verify(result).Accepted?
      invariant forall j :: 0 <= j < i && required[j] in result ==> Blocked(verify, all, result - {required[j]})
    {
      var k := required[i];
      ghost var before := result;
      result := result - {k};
      var verdict := verify(result);
      if verdict.Accepted? {
        forall j | 0 <= j < i && required[j] in result ensures Blocked(verify, all, result - {required[j]}) {
          BlockedBelow(verify, all, result - {required[j]}, before - {required[j]});
        }
      } else if Missing(verdict) {
        assert Blocked(verify, all, result);
        result := result + {k};
        assert result == before && result - {k} == before - {k};
      } else {
        return None;
      }
    }
    forall s | s < result ensures Blocked(verify, all, s) {
      assert exists k :: k in result && k !in s;
      var k :| k in result && k !in s;
      var j :| 0 <= j < |required| && required[j] == k;
      BlockedBelow(verify, all, s, result - {required[j]});
    }
    return Some(result);
  }

  lemma BlockedBelow(verify: set<Key> -> Verdict, all: set<Key>, s: set<Key>, t: set<Key>)
    requires s <= t && Blocked(verify, all, t)
    ensures Blocked(verify, all, s)
  {
    var u :| t <= u <= all && Missing(verify(u));
    assert s <= u;
  }

  /** minimize_required_signatures: the keys to start from are chosen under the default membership and account
      limits, whatever limits verification uses. */
  method MinimizeRequiredSignatures(sigs: set<Key>, avail: set<Key>, getters: Getters, req: Required, limits: Limits)
    returns (r: Option<set<Key>>)
    ensures var chosen := RequiredRun(sigs, avail, getters, req, DEFAULTS.(recursion := limits.recursion)).1;
            var start := Used(chosen) * avail;
            var verify := (keys: set<Key>) => VerifyAuthority(keys, getters, req, limits);
            && (r.Some? ==> r.value <= start && (verify(start).Accepted? ==> verify(r.value).Accepted?))
            && (r.Some? && MonotoneWithin(verify, start) ==> forall s :: s < r.value ==> !verify(s).Accepted?)
            && (r.Some? && VerifyFits(req, getters, limits) ==> forall s :: s < r.value ==> Missing(verify(s)))
            && (r.None? ==> (req.posting != [] && (req.owner != [] || req.active != [])) ||
                            exists s :: s <= start && !verify(s).Accepted? && !Missing(verify(s)))
  {
    var s := GetRequiredSignatures(sigs, avail, getters, req, DEFAULTS.(recursion := limits.recursion));
    if s.None? { return None; }
    var order := Enumerate(s.value);
    var verify := (keys: set<Key>) => VerifyAuthority(keys, getters, req, limits);
    r := Minimize(order, verify);
    if r.Some? && VerifyFits(req, getters, limits) {
      forall s | s < r.value ensures Missing(verify(s)) {
        var t :| s <= t <= ToSet(order) && Missing(verify(t));
        if !Missing(verify(s)) { NeverGoesMissing(s, t, getters, req, limits); }
      }
    }
  }

  method Enumerate(keys: set<Key>) returns (order: seq<Key>)
    ensures Distinct(order) && ToSet(order) == keys
  {
    order := [];
    var todo := keys;
    while todo != {}
      invariant Distinct(order) && todo <= keys && ToSet(order) == keys - todo
    {
      var k :| k in todo;
      assert ToSet(order + [k]) == ToSet(order) + {k};
      assert k !in ToSet(order);
      order, todo := order + [k], todo - {k};
    }
  }
}
