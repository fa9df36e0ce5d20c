/** Branches of the fork tree, and the database object that walks and updates it (fork_database.cpp). */
module ForkDatabases {
  import opened Common
  import opened ForkState

  // ---- Chains

  ghost predicate Indexed(db: Db, item: Item) {
    item.Id() in db.index && db.index[item.Id()] == item
  }

  /** An item followed by its ancestors, as far as the links are live. */
  ghost function Chain(db: Db, item: Item): (c: seq<Item>)
    requires Inv(db) && Indexed(db, item)
    ensures c != [] && c[0] == item
    decreases item.Num()
  {
    ParentHeight(db, item);
    [item] + if Lock(db, item).Some? then Chain(db, Lock(db, item).value) else []
  }

  /** The k-th item of a chain is k blocks lower, and the rest of the chain is its own. */
  lemma {:induction false} ChainAt(db: Db, item: Item, k: nat)
    requires Inv(db) && Indexed(db, item) && k < |Chain(db, item)|
    ensures var x := Chain(db, item)[k];
            Indexed(db, x) && x.Num() == item.Num() - k && Chain(db, item)[k..] == Chain(db, x)
    decreases k
  {
    if k > 0 {
      ParentHeight(db, item);
      var up := Lock(db, item).value;
      ChainAt(db, up, k - 1);
      assert Chain(db, item) == [item] + Chain(db, up);
      assert Chain(db, item)[k..] == Chain(db, up)[k - 1..];
    }
  }

  lemma ChainNext(db: Db, item: Item, k: nat)
    requires Inv(db) && Indexed(db, item) && k < |Chain(db, item)|
    ensures var x := Chain(db, item)[k];
            Lock(db, x) == if k + 1 < |Chain(db, item)| then Some(Chain(db, item)[k + 1]) else None
  {
    ChainAt(db, item, k);
    var x := Chain(db, item)[k];
    assert |Chain(db, item)[k..]| == |Chain(db, x)|;
    if k + 1 < |Chain(db, item)| { assert Chain(db, item)[k..][1] == Chain(db, x)[1]; }
  }

  /** Positions of two chains whose blocks have the same previous block. */
  ghost predicate Meet(c: seq<Item>, d: seq<Item>, i: int, j: int) {
    0 <= i < |c| && 0 <= j < |d| && c[i].block.previous == d[j].block.previous
  }

  lemma MeetLevel(db: Db, first: Item, second: Item, i: nat, j: nat)
    requires Inv(db) && Indexed(db, first) && Indexed(db, second) && Meet(Chain(db, first), Chain(db, second), i, j)
    ensures first.Num() - i == second.Num() - j
  {
    ChainAt(db, first, i);
    ChainAt(db, second, j);
  }

  /** The two branches: prefixes of the chains whose last blocks share their previous block, and no higher pair does. */
  ghost predicate Branches(c: seq<Item>, d: seq<Item>, b: (seq<Item>, seq<Item>)) {
    && b.0 != [] && b.1 != [] && b.0 <= c && b.1 <= d
    && Meet(c, d, |b.0| - 1, |b.1| - 1)
    && forall i, j :: Meet(c, d, i, j) ==> i >= |b.0| - 1 && j >= |b.1| - 1
  }

  /** An item of a chain, and the items passed on the way to it. */
  ghost predicate At(c: seq<Item>, path: seq<Item>, item: Item) {
    |path| < |c| && path == c[..|path|] && item == c[|path|]
  }

  /** All the pairs of positions that meet lie level with or below the given pair. */
  ghost predicate NoneAbove(c: seq<Item>, d: seq<Item>, m: nat, n: nat) {
    forall i, j :: Meet(c, d, i, j) ==> i - m == j - n >= 0
  }

  lemma NoneHere(c: seq<Item>, d: seq<Item>, m: nat, n: nat)
    requires NoneAbove(c, d, m, n) && !Meet(c, d, m, n)
    ensures NoneAbove(c, d, m + 1, n + 1)
  {
  }

  ghost predicate SomeMeet(c: seq<Item>, d: seq<Item>) {
    exists i, j :: Meet(c, d, i, j)
  }

  lemma Found(c: seq<Item>, d: seq<Item>, left: seq<Item>, a: Item, right: seq<Item>, b: Item)
    requires At(c, left, a) && At(d, right, b) && NoneAbove(c, d, |left|, |right|) &&
             a.block.previous == b.block.previous
    ensures SomeMeet(c, d) && Branches(c, d, (left + [a], right + [b]))
  {
    assert Meet(c, d, |left|, |right|);
  }

  // ---- The object

  class ForkDatabase {
    var index: map<BlockId, Item>
    var head: Option<Item>
    var maxSize: nat
    var next: nat
    var invalid: set<BlockId>

    function V(): Db
      reads this
    {
      Db(index, head, maxSize, next, invalid)
    }

    constructor ()
      ensures V() == Empty(1024)
    {
      index, head, maxSize, next, invalid := map[], None, 1024, 0, {};
    }

    method StartBlock(b: Block)
      modifies this
      ensures V() == Start(old(V()), b)
    {
      var item := Item(next, b, None);
      next := next + 1;
      if item.Id() !in index { index := index[item.Id() := item]; }
      head := Some(item);
    }

    /** push_block; on failure nothing changes. */
    method PushBlock(b: Block) returns (r: PushResult)
      modifies this
      ensures r == Push(old(V()), b)
      ensures V() == if r.Pushed? then r.db else old(V())
    {
      if head.Some? {
        var bound := head.value.Num() - maxSize;
        if b.Num() <= if bound > 0 then bound else 0 { return TooOld; }
      }
      var item := Item(next, b, None);
      if head.Some? && b.previous != NULL_ID {
        if b.previous !in index { return Unlinkable; }
        if b.previous in invalid { return InvalidParent; }
        item := item.(prev := Some(index[b.previous].serial));
      }
      next := next + 1;
      if item.Id() !in index { index := index[item.Id() := item]; }
      if head.None? || item.Num() > head.value.Num() { head := Some(item); }
      return Pushed(V());
    }

    /** begin() of the index by number. */
    method Lowest() returns (low: BlockId)
      requires index != map[]
      ensures low in index && forall id <- index :: low.num <= id.num
    {
      var todo := index.Keys;
      low :| low in todo;
      while todo != {}
        invariant todo <= index.Keys && low in index
        invariant forall id <- index.Keys - todo :: low.num <= id.num
      {
        var id :| id in todo;
        todo := todo - {id};
        if id.num < low.num { low := id; }
      }
    }

    method SetMaximum(s: nat)
      modifies this`maxSize, this`index, this`invalid
      ensures V() == SetMaxSize(old(V()), s)
    {
      maxSize := s;
      if head.None? { return; }
      var bound := if head.value.Num() < maxSize then 0 else head.value.Num() - maxSize;
      while index != map[]
        invariant maxSize == s && index.Keys <= old(index).Keys
        invariant forall id <- index :: index[id] == old(index)[id]
        invariant forall id <- old(index).Keys - index.Keys :: id.num < bound
        invariant invalid == old(invalid) - (old(index).Keys - index.Keys)
        decreases index.Keys
      {
        var low := Lowest();
        if low.num >= bound { break; }
        index, invalid := index - {low}, invalid - {low};
      }
      assert index == SetMaxSize(old(V()), s).index;
    }

    /** Moves one step up a chain: the position in the chain goes with it. */
    method Parent(item: Item, ghost start: Item, ghost k: nat) returns (r: Option<Item>)
      requires Inv(V()) && Indexed(V(), start) && k < |Chain(V(), start)| && Chain(V(), start)[k] == item
      ensures r.Some? <==> k + 1 < |Chain(V(), start)|
      ensures r.Some? ==> r.value == Chain(V(), start)[k + 1] && r.value.Num() + 1 == item.Num()
    {
      ChainAt(V(), start, k);
      ChainNext(V(), start, k);
      ParentHeight(V(), item);
      r := Lock(V(), item);
    }

    /** Walks up from a block to the given height, collecting the blocks on the way. */
    method ClimbTo(start: Item, num: nat) returns (r: Option<Item>, path: seq<Item>)
      requires Inv(V()) && Indexed(V(), start)
      ensures r.Some? ==> At(Chain(V(), start), path, r.value)
      ensures r.Some? ==> if start.Num() > num then r.value.Num() == num else path == []
      ensures r.None? ==> forall x <- Chain(V(), start) :: x.Num() > num
    {
      ghost var c := Chain(V(), start);
      forall k | 0 <= k < |c| ensures c[k].Num() == start.Num() - k { ChainAt(V(), start, k); }
      var a := start;
      path := [];
      while a.Num() > num
        invariant At(c, path, a)
        invariant path != [] ==> a.Num() >= num
        decreases a.Num()
      {
        var p := Parent(a, start, |path|);
        path := path + [a];
        if p.None? { return None, path; }
        a := p.value;
      }
      return Some(a), path;
    }

    /** Both branches back to the highest proper common ancestor; None exactly when a block is unknown or the
        chains never come together. */
    method FetchBranchFrom(first: BlockId, second: BlockId) returns (r: Option<(seq<Item>, seq<Item>)>)
      requires Inv(V())
      ensures r.Some? <==>
              first in index && second in index && SomeMeet(Chain(V(), index[first]), Chain(V(), index[second]))
      ensures r.Some? ==> Branches(Chain(V(), index[first]), Chain(V(), index[second]), r.value)
    {
      if first !in index { return None; }
      if second !in index { return None; }
      var x, y := index[first], index[second];
      ghost var c, d := Chain(V(), x), Chain(V(), y);
      forall i, j | Meet(c, d, i, j) ensures x.Num() - i == y.Num() - j { MeetLevel(V(), x, y, i, j); }
      forall k | 0 <= k < |c| ensures c[k].Num() == x.Num() - k { ChainAt(V(), x, k); }
      forall k | 0 <= k < |d| ensures d[k].Num() == y.Num() - k { ChainAt(V(), y, k); }
      var a, left := ClimbTo(x, y.Num());
      if a.None? { return None; }
      var b, right := ClimbTo(y, a.value.Num());
      if b.None? { return None; }
      assert NoneAbove(c, d, |left|, |right|);
      r := Converge(x, y, a.value, b.value, left, right);
    }

    /** The third loop: both sides climb together until the previous blocks agree. */
    method Converge(ghost x: Item, ghost y: Item, a0: Item, b0: Item, left0: seq<Item>, right0: seq<Item>)
      returns (r: Option<(seq<Item>, seq<Item>)>)
      requires Inv(V()) && Indexed(V(), x) && Indexed(V(), y)
      requires At(Chain(V(), x), left0, a0) && At(Chain(V(), y), right0, b0)
      requires NoneAbove(Chain(V(), x), Chain(V(), y), |left0|, |right0|)
      ensures r.Some? <==> SomeMeet(Chain(V(), x), Chain(V(), y))
      ensures r.Some? ==> Branches(Chain(V(), x), Chain(V(), y), r.value)
    {
      ghost var c, d := Chain(V(), x), Chain(V(), y);
      var a, b, left, right := a0, b0, left0, right0;
      while a.block.previous != b.block.previous
        invariant At(c, left, a) && At(d, right, b) && NoneAbove(c, d, |left|, |right|)
        decreases |c| - |left|
      {
        NoneHere(c, d, |left|, |right|);
        var p := Parent(a, x, |left|);
        var q := Parent(b, y, |right|);
        left, right := left + [a], right + [b];
        if p.None? || q.None? { return None; }
        a, b := p.value, q.value;
      }
      Found(c, d, left, a, right, b);
      return Some((left + [a], right + [b]));
    }

    /** The block of the main branch with that number, if the branch reaches it. */
    method WalkMainBranchToNum(num: nat) returns (r: Option<Item>)
      requires Inv(V()) && head.Some?
      ensures r.Some? ==> r.value in Chain(V(), head.value) && r.value.Num() == num
      ensures r.None? ==> forall x <- Chain(V(), head.value) :: x.Num() != num
    {
      ghost var c := Chain(V(), head.value);
      forall k | 0 <= k < |c| ensures c[k].Num() == head.value.Num() - k { ChainAt(V(), head.value, k); }
      if num > head.value.Num() { return None; }
      r := head;
      ghost var k := 0;
      while r.Some? && r.value.Num() > num
        invariant r.Some? ==> k < |c| && r.value == c[k] && r.value.Num() >= num
        invariant r.None? ==> forall x <- c :: x.Num() != num
        decreases if r.Some? then 1 + r.value.Num() else 0
      {
        r := Parent(r.value, head.value, k);
        k := k + 1;
      }
    }

    /** The shortcut by number agrees with the walk whenever the main branch reaches the number; it differs exactly
        when the only block of that number lies off the main branch. */
    method FetchBlockOnMainBranchByNumber(num: nat) returns (r: Option<Item>)
      requires Inv(V())
      ensures head.None? ==> r.None?
      ensures head.Some? && (exists x <- Chain(V(), head.value) :: x.Num() == num) ==>
                r.Some? && r.value in Chain(V(), head.value) && r.value.Num() == num
      ensures head.Some? && !(exists x <- Chain(V(), head.value) :: x.Num() == num) ==>
                (r.Some? <==> |set id | id in index && id.num == num| == 1)
    {
      var blocks := set id | id in index && id.num == num;
      if head.Some? {
        forall x <- Chain(V(), head.value) ensures Indexed(V(), x) {
          var k :| 0 <= k < |Chain(V(), head.value)| && Chain(V(), head.value)[k] == x;
          ChainAt(V(), head.value, k);
        }
        forall x <- Chain(V(), head.value) | x.Num() == num ensures x.Id() in blocks {}
      }
      if |blocks| == 1 {
        var id :| id in blocks;
        Singleton(blocks, id);
        return Some(index[id]);
      }
      if |blocks| == 0 { return None; }
      r := WalkMainBranchToNum(num);
    }
  }

  lemma Singleton(s: set<BlockId>, x: BlockId)
    requires |s| == 1 && x in s
    ensures s == {x}
  {
    assert |s - {x}| == 0;
  }
}
