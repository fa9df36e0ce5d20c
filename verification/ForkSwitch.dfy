/** When switching from one fork to another along the branches of fetch_branch_from is exact (fork_database.cpp). */
module ForkSwitches {
  import opened Common
  import opened ForkState
  import opened ForkDatabases

  /** Dropping the first branch from the first chain and putting the second branch on the rest gives the second
      chain. */
  ghost predicate Switches(db: Db, first: Item, second: Item, b: (seq<Item>, seq<Item>))
    requires Inv(db) && Indexed(db, first) && Indexed(db, second) && |b.0| <= |Chain(db, first)|
  {
    b.1 + Chain(db, first)[|b.0|..] == Chain(db, second)
  }

  // ---- One pair of branches

  /** What follows an item in a chain is determined by its link, and determines it. */
  lemma ChainRest(db: Db, item: Item, k: nat)
    requires Inv(db) && Indexed(db, item) && 0 < k <= |Chain(db, item)|
    ensures var up := Lock(db, Chain(db, item)[k - 1]);
            && (up.Some? ==> Indexed(db, up.value))
            && Chain(db, item)[k..] == if up.Some? then Chain(db, up.value) else []
  {
    ChainNext(db, item, k - 1);
    if k < |Chain(db, item)| { ChainAt(db, item, k); }
  }

  lemma SameRest(db: Db, first: Item, k: nat, second: Item, l: nat)
    requires Inv(db) && Indexed(db, first) && Indexed(db, second)
    requires 0 < k <= |Chain(db, first)| && 0 < l <= |Chain(db, second)|
    ensures Chain(db, first)[k..] == Chain(db, second)[l..] <==>
            Lock(db, Chain(db, first)[k - 1]) == Lock(db, Chain(db, second)[l - 1])
  {
    ChainRest(db, first, k);
    ChainRest(db, second, l);
  }

  lemma SamePrefix<T>(p: seq<T>, c: seq<T>, d: seq<T>)
    ensures p + c == p + d <==> c == d
  {
    if p + c == p + d { assert (p + c)[|p|..] == c && (p + d)[|p|..] == d; }
  }

  /** A pair of branches switches exactly when both end alike: linked to the same live block, or both without one. */
  lemma SwitchExact(db: Db, first: Item, second: Item, b: (seq<Item>, seq<Item>))
    requires Inv(db) && Indexed(db, first) && Indexed(db, second)
    requires Branches(Chain(db, first), Chain(db, second), b)
    ensures Switches(db, first, second, b) <==> Lock(db, b.0[|b.0| - 1]) == Lock(db, b.1[|b.1| - 1])
  {
    var c, d := Chain(db, first)[|b.0|..], Chain(db, second)[|b.1|..];
    assert Chain(db, second) == b.1 + d;
    SamePrefix(b.1, c, d);
    SameRest(db, first, |b.0|, second, |b.1|);
    assert Chain(db, first)[|b.0| - 1] == b.0[|b.0| - 1] && Chain(db, second)[|b.1| - 1] == b.1[|b.1| - 1];
  }

  // ---- All branches of a database

  /** Blocks with the same previous block are linked alike: to the same live item, or both to none. */
  ghost predicate Siblings(db: Db) {
    forall i, j :: i in db.index && j in db.index && db.index[i].block.previous == db.index[j].block.previous ==>
      Lock(db, db.index[i]) == Lock(db, db.index[j])
  }

  /** Whatever two blocks are asked for, the branches that fetch_branch_from returns switch exactly. */
  ghost predicate AllSwitch(db: Db)
    requires Inv(db)
  {
    forall first, second, b ::
      (Indexed(db, first) && Indexed(db, second) && Branches(Chain(db, first), Chain(db, second), b)) ==>
      Switches(db, first, second, b)
  }

  /** Differently linked siblings are branches of one block each, and switching between them fails. */
  lemma UnequalLinksFail(db: Db, x: Item, y: Item)
    requires Inv(db) && Indexed(db, x) && Indexed(db, y) && x.block.previous == y.block.previous
    requires Lock(db, x) != Lock(db, y)
    ensures Branches(Chain(db, x), Chain(db, y), ([x], [y])) && !Switches(db, x, y, ([x], [y]))
  {
    assert [x] <= Chain(db, x) && [y] <= Chain(db, y);
    assert Meet(Chain(db, x), Chain(db, y), 0, 0);
    SwitchExact(db, x, y, ([x], [y]));
  }

  lemma SiblingsSwitch(db: Db, first: Item, second: Item, b: (seq<Item>, seq<Item>))
    requires Inv(db) && Siblings(db) && Indexed(db, first) && Indexed(db, second)
    requires Branches(Chain(db, first), Chain(db, second), b)
    ensures Switches(db, first, second, b)
  {
    ChainAt(db, first, |b.0| - 1);
    ChainAt(db, second, |b.1| - 1);
    var x, y := b.0[|b.0| - 1], b.1[|b.1| - 1];
    assert Indexed(db, x) && Indexed(db, y) && x.block.previous == y.block.previous;
    SwitchExact(db, first, second, b);
  }

  /** Fork switching is exact for all pairs of blocks if and only if siblings are linked alike. */
  lemma SwitchesIffSiblings(db: Db)
    requires Inv(db)
    ensures AllSwitch(db) <==> Siblings(db)
  {
    if Siblings(db) {
      forall first, second, b |
        Indexed(db, first) && Indexed(db, second) && Branches(Chain(db, first), Chain(db, second), b)
        ensures Switches(db, first, second, b)
      {
        SiblingsSwitch(db, first, second, b);
      }
    } else {
      var i, j :| i in db.index && j in db.index && db.index[i].block.previous == db.index[j].block.previous &&
        Lock(db, db.index[i]) != Lock(db, db.index[j]);
      UnequalLinksFail(db, db.index[i], db.index[j]);
    }
  }

  // ---- Runs

  /** Every block is linked to its parent, or lies on the lowest level. */
  ghost predicate Rooted(db: Db) {
    forall id <- db.index :: Lock(db, db.index[id]).Some? || Lowermost(db, id)
  }

  ghost predicate Lowermost(db: Db, id: BlockId) {
    forall j <- db.index :: id.num <= j.num
  }

  lemma LinkedSibling(db: Db, x: Item, y: Item)
    requires Inv(db) && Indexed(db, x) && Indexed(db, y) && x.block.previous == y.block.previous
    requires Lock(db, x).Some? && (Lock(db, y).Some? || Lowermost(db, y.Id()))
    ensures Lock(db, y) == Lock(db, x)
  {
    ParentHeight(db, x);
    assert Lock(db, x).value.Id() in db.index;
  }

  lemma RootedSiblings(db: Db)
    requires Inv(db) && Rooted(db)
    ensures Siblings(db)
  {
    forall i, j | i in db.index && j in db.index && db.index[i].block.previous == db.index[j].block.previous
      ensures Lock(db, db.index[i]) == Lock(db, db.index[j])
    {
      var x, y := db.index[i], db.index[j];
      if Lock(db, x).Some? { LinkedSibling(db, x, y); } else if Lock(db, y).Some? { LinkedSibling(db, y, x); }
    }
  }

  /** A new block with a parent in the index is linked, and no other link changes. */
  lemma InsertLinks(db: Db, item: Item, id: BlockId)
    requires Inv(db) && Rooted(db) && item.Id() !in db.index && id in Insert(db, item).index
    requires var p := item.block.previous;
             p in db.index && item.prev == Some(db.index[p].serial) && p.num + 1 == item.Num()
    ensures var db1 := Insert(db, item); Lock(db1, db1.index[id]).Some? || Lowermost(db1, id)
  {
    var db1 := Insert(db, item);
    if id != item.Id() {
      assert db1.index[id] == db.index[id];
      if Lock(db, db.index[id]).None? { assert Lowermost(db, id); }
    }
  }

  lemma ParentBelow(db: Db, b: Block)
    requires Inv(db) && Push(db, b).Pushed? && db.head.Some? && b.previous != NULL_ID
    ensures b.previous in db.index && b.previous.num + 1 == b.Num()
  {
    var p := db.index[b.previous];
    assert p.Id() == b.previous && b.previous.num < B32;
    assert b.Num() > 0;
  }

  lemma PushRooted(db: Db, b: Block)
    requires Inv(db) && Rooted(db) && Push(db, b).Pushed?
    requires b.previous == NULL_ID ==> db.head.None? || b.Id() in db.index
    ensures Rooted(Push(db, b).db)
  {
    var db1 := Push(db, b).db;
    if b.Id() in db.index {
      SameIndexRooted(db, db1);
    } else if db.head.Some? {
      ParentBelow(db, b);
      var item := Item(db.next, b, Some(db.index[b.previous].serial));
      assert db1 == Insert(db, item);
      forall id <- db1.index ensures Lock(db1, db1.index[id]).Some? || Lowermost(db1, id) { InsertLinks(db, item, id); }
    } else {
      assert db1.index.Keys == {b.Id()};
    }
  }

  lemma SameIndexRooted(db: Db, db1: Db)
    requires Rooted(db) && db1.index == db.index
    ensures Rooted(db1)
  {
    forall id <- db1.index ensures Lock(db1, db1.index[id]).Some? || Lowermost(db1, id) {
      assert Lock(db, db.index[id]).Some? || Lowermost(db, id);
    }
  }

  lemma PruneRooted(db: Db, s: nat)
    requires Inv(db) && Rooted(db)
    ensures Rooted(SetMaxSize(db, s))
  {
    if db.head.Some? { PruneExact(db, s); }
  }

  /** The run starts no second tree: a block without a previous one comes first, or is known already. */
  ghost predicate OneRoot(db: Db, actions: seq<Action>)
    decreases |actions|
  {
    actions == [] ||
    (&& (actions[0].PushBlock? && actions[0].b.previous == NULL_ID ==> db.head.None? || actions[0].b.Id() in db.index)
     && OneRoot(Act(db, actions[0]), actions[1..]))
  }

  lemma {:induction false} RunRooted(db: Db, actions: seq<Action>)
    requires Inv(db) && Rooted(db) && OneRoot(db, actions)
    ensures Inv(RunAll(db, actions)) && Rooted(RunAll(db, actions))
    decreases |actions|
  {
    if actions != [] {
      ActKeeps(db, actions[0]);
      match actions[0] {
        case PushBlock(b) => if Push(db, b).Pushed? { PushRooted(db, b); }
        case Resize(s) => PruneRooted(db, s);
        case MarkInvalid(id) =>
      }
      RunRooted(Act(db, actions[0]), actions[1..]);
    }
  }

  /** From an empty or freshly started database, every run that starts no second tree leaves a database in which all
      pairs of blocks switch exactly. */
  lemma RunSwitches(start: Db, b: Block, maxSize: nat, actions: seq<Action>)
    requires start == Empty(maxSize) || start == Started(b, maxSize)
    requires OneRoot(start, actions)
    ensures Inv(RunAll(start, actions)) && AllSwitch(RunAll(start, actions))
  {
    StartsSafe(b, maxSize);
    RunRooted(start, actions);
    RootedSiblings(RunAll(start, actions));
    SwitchesIffSiblings(RunAll(start, actions));
  }

  // ---- Runs that do start a second tree

  /** Switching from one block to the other fails although fetch_branch_from returns branches for them. */
  ghost predicate SwitchFails(db: Db, x: BlockId, y: BlockId) {
    && Inv(db) && x in db.index && y in db.index
    && var p, q := db.index[x], db.index[y];
       && Indexed(db, p) && Indexed(db, q)
       && Branches(Chain(db, p), Chain(db, q), ([p], [q])) && !Switches(db, p, q, ([p], [q]))
  }

  lemma {:induction false} RunOn(db: Db, a: Action, actions: seq<Action>)
    ensures RunAll(db, [a] + actions) == RunAll(Act(db, a), actions)
  {
    assert ([a] + actions)[1..] == actions;
  }

  /** A database started at a block whose parent arrives later: the block never gets a link to it. */
  lemma StartedBlockFails(h1: nat, h2: nat, h3: nat)
    requires h2 != h3
    ensures var b1 := Block(NULL_ID, h1);
            var b2, b3 := Block(b1.Id(), h2), Block(b1.Id(), h3);
            SwitchFails(RunAll(Started(b2, 1024), [PushBlock(b1), PushBlock(b3)]), b2.Id(), b3.Id())
  {
    var b1 := Block(NULL_ID, h1);
    var b2, b3 := Block(b1.Id(), h2), Block(b1.Id(), h3);
    var s0 := Started(b2, 1024);
    var s1 := Act(s0, PushBlock(b1));
    var s2 := Act(s1, PushBlock(b3));
    assert [PushBlock(b1), PushBlock(b3)] == [PushBlock(b1)] + ([PushBlock(b3)] + []);
    RunOn(s0, PushBlock(b1), [PushBlock(b3)] + []);
    RunOn(s1, PushBlock(b3), []);
    assert s2.index[b2.Id()] == Item(0, b2, None) && s2.index[b3.Id()] == Item(2, b3, Some(1));
    StartsSafe(b2, 1024);
    RunSafe(s0, [PushBlock(b1), PushBlock(b3)]);
    UnequalLinksFail(s2, s2.index[b2.Id()], s2.index[b3.Id()]);
  }

  lemma PruneParent(b1: Block, b2: Block)
    requires b1.previous == NULL_ID && b2.previous == b1.Id()
    ensures RunAll(Empty(1024), [PushBlock(b1), PushBlock(b2), Resize(0), Resize(1024)]) ==
            Db(map[b2.Id() := Item(1, b2, Some(0))], Some(Item(1, b2, Some(0))), 1024, 2, {})
  {
    var i1, i2 := Item(0, b1, None), Item(1, b2, Some(0));
    var s1 := Act(Empty(1024), PushBlock(b1));
    assert s1 == Db(map[b1.Id() := i1], Some(i1), 1024, 1, {});
    var s2 := Act(s1, PushBlock(b2));
    assert s2 == Db(map[b1.Id() := i1, b2.Id() := i2], Some(i2), 1024, 2, {});
    var s3 := Act(s2, Resize(0));
    assert s3 == Db(map[b2.Id() := i2], Some(i2), 0, 2, {});
    var last := [Resize(1024)];
    var resize := [Resize(0)] + last;
    assert [PushBlock(b1), PushBlock(b2), Resize(0), Resize(1024)] == [PushBlock(b1)] + ([PushBlock(b2)] + resize);
    RunOn(Empty(1024), PushBlock(b1), [PushBlock(b2)] + resize);
    RunOn(s1, PushBlock(b2), resize);
    RunOn(s2, Resize(0), last);
    assert last[1..] == [];
  }

  lemma {:induction false} RunTwice(db: Db, first: seq<Action>, second: seq<Action>)
    ensures RunAll(db, first + second) == RunAll(RunAll(db, first), second)
    decreases |first|
  {
    if first == [] {
      assert first + second == second;
    } else {
      assert (first + second)[1..] == first[1..] + second;
      RunTwice(Act(db, first[0]), first[1..], second);
    }
  }

  /** A parent that is pruned and pushed again after the size has been raised: its old child keeps the dead link. */
  lemma PrunedParentFails(h1: nat, h2: nat, h3: nat)
    requires h2 != h3
    ensures var b1 := Block(NULL_ID, h1);
            var b2, b3 := Block(b1.Id(), h2), Block(b1.Id(), h3);
            var prune := [PushBlock(b1), PushBlock(b2), Resize(0), Resize(1024)];
            SwitchFails(RunAll(Empty(1024), prune + [PushBlock(b1), PushBlock(b3)]), b2.Id(), b3.Id())
  {
    var b1 := Block(NULL_ID, h1);
    var b2, b3 := Block(b1.Id(), h2), Block(b1.Id(), h3);
    var prune, again := [PushBlock(b1), PushBlock(b2), Resize(0), Resize(1024)], [PushBlock(b1), PushBlock(b3)];
    var s0 := RunAll(Empty(1024), prune);
    PruneParent(b1, b2);
    RunTwice(Empty(1024), prune, again);
    var s1 := Act(s0, PushBlock(b1));
    var s2 := Act(s1, PushBlock(b3));
    assert again == [PushBlock(b1)] + ([PushBlock(b3)] + []);
    RunOn(s0, PushBlock(b1), [PushBlock(b3)] + []);
    RunOn(s1, PushBlock(b3), []);
    assert s2.index[b2.Id()] == Item(1, b2, Some(0)) && s2.index[b3.Id()] == Item(3, b3, Some(2));
    StartsSafe(b1, 1024);
    RunSafe(Empty(1024), prune + again);
    UnequalLinksFail(s2, s2.index[b2.Id()], s2.index[b3.Id()]);
  }
}
