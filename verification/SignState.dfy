/** Weighted multi-signature authorities, and what the memoising checker computes
    as a function of its state (sign_state.cpp). */
module Authorities {
  import opened Common

  type Key = nat
  type Account = string

  type Word32 = x: nat | x < B32
  type Weight = x: nat | x < 0x1_0000

  function Wrap(x: nat): Word32 { x % B32 }

  datatype KeyAuth = KeyAuth(key: Key, weight: Weight)
  datatype AccountAuth = AccountAuth(account: Account, weight: Weight)

  /** The two maps of an authority, as sequences in their iteration order. */
  datatype Authority = Authority(threshold: Word32, accountAuths: seq<AccountAuth>, keyAuths: seq<KeyAuth>)

  /** The parts of a sign_state that no check changes. */
  datatype Context = Context(
    getActive: Account -> Authority,
    available: set<Key>,
    maxRecursion: Word32,
    maxMembership: Word32,
    maxAccountAuths: Word32)

  /** The parts that checks update: the signatures with their "used" flags, and the memo of approved accounts. */
  datatype Memory = Memory(provided: map<Key, bool>, approved: set<Account>)

  /** Every key that counts as signed. */
  function Full(ctx: Context, mem: Memory): set<Key> {
    mem.provided.Keys + ctx.available
  }

  /** The keys flagged as used. */
  function Used(mem: Memory): set<Key> {
    set k | k in mem.provided && mem.provided[k]
  }

  /** Checks never change which keys count as signed, and never retract a flag or an approval. */
  ghost predicate Extends(ctx: Context, mem: Memory, mem': Memory) {
    && Full(ctx, mem') == Full(ctx, mem)
    && Used(mem) <= Used(mem') <= Used(mem) + Full(ctx, mem)
    && mem.approved <= mem'.approved
  }

  function SignedBy(ctx: Context, k: Key, mem: Memory): (r: (bool, Memory))
  {
    if k in mem.provided || k in ctx.available then (true, mem.(provided := mem.provided[k := true]))
    else (false, mem)
  }

  /** How far the recursion still is from the depth limit; depth is a 32-bit counter compared for equality,
      so a start beyond the limit goes round. */
  function Remaining(ctx: Context, depth: Word32): nat {
    if depth <= ctx.maxRecursion then ctx.maxRecursion - depth else ctx.maxRecursion + B32 - depth
  }

  predicate AtMembershipLimit(ctx: Context, membership: nat) {
    ctx.maxMembership > 0 && membership >= ctx.maxMembership
  }

  datatype KeyScan = Stop(ok: bool, mem: Memory) | Go(total: Word32, membership: nat, mem: Memory)

  function ScanKeys(ctx: Context, auth: Authority, i: nat, total: Word32, membership: nat, mem: Memory): (r: KeyScan)
    requires i <= |auth.keyAuths|
    decreases |auth.keyAuths| - i
  {
    if i == |auth.keyAuths| then Go(total, membership, mem)
    else
      var k := auth.keyAuths[i];
      var (signed, mem1) := SignedBy(ctx, k.key, mem);
      var total1 := if signed then Wrap(total + k.weight) else total;
      if signed && total1 >= auth.threshold then Stop(true, mem1)
      else if AtMembershipLimit(ctx, membership + 1) then Stop(false, mem1)
      else ScanKeys(ctx, auth, i + 1, total1, membership + 1, mem1)
  }

  datatype Outcome = Outcome(ok: bool, mem: Memory, count: Word32)

  function CheckImpl(ctx: Context, auth: Authority, depth: Word32, mem: Memory, count: Word32): (r: Outcome)
    decreases Remaining(ctx, depth), 2, 0
  {
    match ScanKeys(ctx, auth, 0, 0, 0, mem)
    case Stop(ok, mem1) => Outcome(ok, mem1, count)
    case Go(total, membership, mem1) => ScanAccounts(ctx, auth, 0, total, membership, depth, mem1, count)
  }

  /** One account entry: answered from the memo, or by recursion and then remembered. */
  function SubCheck(ctx: Context, account: Account, depth: Word32, mem: Memory, count: Word32): (r: Outcome)
    requires account in mem.approved || depth != ctx.maxRecursion
    decreases Remaining(ctx, depth), 0, 0
  {
    if account in mem.approved then Outcome(true, mem, count)
    else
      var sub := CheckImpl(ctx, ctx.getActive(account), Wrap(depth + 1), mem, Wrap(count + 1));
      if sub.ok then sub.(mem := sub.mem.(approved := sub.mem.approved + {account})) else sub
  }

  function ScanAccounts(ctx: Context, auth: Authority, i: nat, total: Word32, membership: nat,
                        depth: Word32, mem: Memory, count: Word32): (r: Outcome)
    requires i <= |auth.accountAuths|
    decreases Remaining(ctx, depth), 1, |auth.accountAuths| - i
  {
    if i == |auth.accountAuths| then Outcome(total >= auth.threshold, mem, count)
    else
      var a := auth.accountAuths[i];
      var known := a.account in mem.approved;
      if !known && depth == ctx.maxRecursion then
        ScanAccounts(ctx, auth, i + 1, total, membership, depth, mem, count)
      else if !known && ctx.maxAccountAuths > 0 && count >= ctx.maxAccountAuths then
        Outcome(false, mem, count)
      else
        var sub := SubCheck(ctx, a.account, depth, mem, count);
        var total1 := if sub.ok then Wrap(total + a.weight) else total;
        if sub.ok && total1 >= auth.threshold then Outcome(true, sub.mem, sub.count)
        else if AtMembershipLimit(ctx, membership + 1) then Outcome(false, sub.mem, sub.count)
        else ScanAccounts(ctx, auth, i + 1, total1, membership + 1, depth, sub.mem, sub.count)
  }

  /** A top-level check: of an account by name, or of an authority with the default depth and count. */
  datatype Check = ById(id: Account) | ByAuthority(auth: Authority)

  function RunCheck(ctx: Context, c: Check, mem: Memory): (r: Outcome)
  {
    match c
    case ById(id) =>
      if id in mem.approved then Outcome(true, mem, 1) else CheckImpl(ctx, ctx.getActive(id), 0, mem, 1)
    case ByAuthority(auth) => CheckImpl(ctx, auth, 0, mem, 0)
  }

  /** A whole run of checks: the answers in order, and the final memory. */
  function RunChecks(ctx: Context, checks: seq<Check>, mem: Memory): (r: (seq<bool>, Memory))
    ensures |r.0| == |checks|
  {
    if checks == [] then ([], mem)
    else
      var first := RunCheck(ctx, checks[0], mem);
      var (rest, final) := RunChecks(ctx, checks[1..], first.mem);
      ([first.ok] + rest, final)
  }

  /** The memory of a freshly constructed sign_state. */
  function Initial(sigs: set<Key>): (mem: Memory)
    ensures mem.provided.Keys == sigs && Used(mem) == {} && mem.approved == {"temp"}
  {
    Memory(map k | k in sigs :: false, {"temp"})
  }
}

/** The checker as the source has it: one object whose methods update the flags and the memo in place. */
module SignStates {
  import opened Common
  import opened Authorities

  class SignState {
    const getActive: Account -> Authority
    const available: set<Key>
    var provided: map<Key, bool>
    var approved: set<Account>
    var maxRecursion: Word32
    var maxMembership: Word32
    var maxAccountAuths: Word32

    ghost function Ctx(): Context
      reads this
    {
      Context(getActive, available, maxRecursion, maxMembership, maxAccountAuths)
    }

    ghost function Mem(): Memory
      reads this
    {
      Memory(provided, approved)
    }

    constructor (sigs: set<Key>, getActive: Account -> Authority, keys: set<Key>)
      ensures this.getActive == getActive && available == keys
      ensures Mem() == Initial(sigs)
      ensures maxRecursion == 2 && maxMembership == B32 - 1 && maxAccountAuths == B32 - 1
    {
      this.getActive, available := getActive, keys;
      provided, approved := map k | k in sigs :: false, {"temp"};
      maxRecursion, maxMembership, maxAccountAuths := 2, B32 - 1, B32 - 1;
    }

    method SignedByKey(k: Key) returns (signed: bool)
      modifies this`provided
      ensures (signed, Mem()) == SignedBy(Ctx(), k, old(Mem()))
    {
      if k !in provided {
        if k in available {
          provided := provided[k := true];
          return true;
        }
        return false;
      }
      provided := provided[k := true];
      return true;
    }

    /** The first loop of check_authority_impl; decided says whether it returned from inside the loop. */
    method CheckKeys(auth: Authority) returns (decided: bool, ok: bool, total: Word32, membership: nat)
      modifies this`provided
      ensures ScanKeys(Ctx(), auth, 0, 0, 0, old(Mem())) ==
              if decided then Stop(ok, Mem()) else Go(total, membership, Mem())
    {
      decided, ok, total, membership := true, false, 0, 0;
      for i := 0 to |auth.keyAuths|
        invariant ScanKeys(Ctx(), auth, i, total, membership, Mem()) == ScanKeys(Ctx(), auth, 0, 0, 0, old(Mem()))
        invariant decided && !ok
      {
        var signed := SignedByKey(auth.keyAuths[i].key);
        if signed {
          total := Wrap(total + auth.keyAuths[i].weight);
          if total >= auth.threshold {
            ok := true;
            return;
          }
        }
        membership := membership + 1;
        if maxMembership > 0 && membership >= maxMembership { return; }
      }
      decided := false;
    }

    method CheckAuthorityImpl(auth: Authority, depth: Word32, count0: Word32) returns (ok: bool, count: Word32)
      modifies this`provided, this`approved
      ensures Outcome(ok, Mem(), count) == CheckImpl(Ctx(), auth, depth, old(Mem()), count0)
      decreases Remaining(Ctx(), depth), 1
    {
      var decided: bool, total: Word32, membership: nat;
      decided, ok, total, membership := CheckKeys(auth);
      count := count0;
      if decided { return; }
      ghost var goal := CheckImpl(Ctx(), auth, depth, old(Mem()), count0);
      var i := 0;
      while i < |auth.accountAuths|
        invariant i <= |auth.accountAuths|
        invariant ScanAccounts(Ctx(), auth, i, total, membership, depth, Mem(), count) == goal
      {
        var a := auth.accountAuths[i];
        i := i + 1;
        if a.account !in approved {
          if depth == maxRecursion { continue; }
          if maxAccountAuths > 0 && count >= maxAccountAuths { return false, count; }
        }
        var sub;
        sub, count := CheckAccount(a.account, depth, count);
        if sub {
          total := Wrap(total + a.weight);
          if total >= auth.threshold { return true, count; }
        }
        membership := membership + 1;
        if maxMembership > 0 && membership >= maxMembership { return false, count; }
      }
      return total >= auth.threshold, count;
    }

    /** The body of the second loop: an approved account counts at once, any other is checked and remembered. */
    method CheckAccount(account: Account, depth: Word32, count0: Word32) returns (ok: bool, count: Word32)
      requires account in approved || depth != maxRecursion
      modifies this`provided, this`approved
      ensures Outcome(ok, Mem(), count) == SubCheck(Ctx(), account, depth, old(Mem()), count0)
      decreases Remaining(Ctx(), depth), 0
    {
      if account in approved { return true, count0; }
      ok, count := CheckAuthorityImpl(getActive(account), Wrap(depth + 1), Wrap(count0 + 1));
      if ok { approved := approved + {account}; }
    }

    method CheckAuthority(c: Check) returns (ok: bool)
      modifies this`provided, this`approved
      ensures ok == RunCheck(Ctx(), c, old(Mem())).ok && Mem() == RunCheck(Ctx(), c, old(Mem())).mem
    {
      match c
      case ById(id) =>
        if id in approved { return true; }
        var count;
        ok, count := CheckAuthorityImpl(getActive(id), 0, 1);
      case ByAuthority(auth) =>
        var count;
        ok, count := CheckAuthorityImpl(auth, 0, 0);
    }

    /** Afterwards exactly the used keys are left; the answer says whether any was dropped. */
    method RemoveUnusedSignatures() returns (removed: bool)
      modifies this`provided
      ensures provided.Keys == Used(old(Mem())) && Used(Mem()) == Used(old(Mem()))
      ensures removed <==> Used(old(Mem())) != old(provided.Keys)
    {
      var todo, unused := provided.Keys, [];
      while todo != {}
        invariant todo <= provided.Keys
        invariant forall k :: k in unused <==> k in provided.Keys - todo && !provided[k]
      {
        var k :| k in todo;
        todo := todo - {k};
        if !provided[k] { unused := unused + [k]; }
      }
      for i := 0 to |unused|
        invariant provided == old(provided) - set k | k in unused[..i]
      {
        provided := provided - {unused[i]};
      }
      assert unused[..|unused|] == unused;
      assert provided.Keys == Used(old(Mem()));
      assert unused != [] ==> unused[0] in unused;
      return |unused| != 0;
    }
  }
}
