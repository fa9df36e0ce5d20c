/** The fork database as a value: a tree of blocks with a longest-chain head (fork_database.cpp). */
module ForkState {
  import opened Common

  /** A block id carries the block number in its first word. */
  datatype BlockId = BlockId(num: nat, hash: nat)

  const NULL_ID := BlockId(0, 0)

  datatype Block = Block(previous: BlockId, hash: nat) {
    function Num(): nat { (previous.num + 1) % B32 }
    function Id(): BlockId { BlockId(Num(), hash) }
  }

  /** A fork_item: serial is its identity, prev the item its weak pointer refers to. */
  datatype Item = Item(serial: nat, block: Block, prev: Option<nat>) {
    function Num(): nat { block.Num() }
    function Id(): BlockId { block.Id() }
  }

  datatype Db = Db(index: map<BlockId, Item>, head: Option<Item>, maxSize: nat, next: nat, invalid: set<BlockId>)

  /** prev.lock(): only the index keeps items alive. */
  function Lock(db: Db, item: Item): Option<Item> {
    var parent := item.block.previous;
    if item.prev.Some? && parent in db.index && db.index[parent].serial == item.prev.value then Some(db.index[parent])
    else None
  }

  // ---- Operations

  datatype PushResult = TooOld | Unlinkable | InvalidParent | Pushed(db: Db)

  function Oldest(db: Db): int
    requires db.head.Some?
  {
    var bound := db.head.value.Num() - db.maxSize;
    if bound < 0 then 0 else bound
  }

  function Insert(db: Db, item: Item): Db {
    var index := if item.Id() in db.index then db.index else db.index[item.Id() := item];
    var head := if db.head.None? || item.Num() > db.head.value.Num() then Some(item) else db.head;
    db.(index := index, head := head, next := db.next + 1)
  }

  function Push(db: Db, b: Block): PushResult {
    if db.head.Some? && b.Num() <= Oldest(db) then TooOld
    else if db.head.Some? && b.previous != NULL_ID then
      if b.previous !in db.index then Unlinkable
      else if b.previous in db.invalid then InvalidParent
      else Pushed(Insert(db, Item(db.next, b, Some(db.index[b.previous].serial))))
    else Pushed(Insert(db, Item(db.next, b, None)))
  }

  /** A block is refused as too old when the head stands the size of the database or more above it, or when its number
      wraps to 0; otherwise a block that names a parent needs a known, unmarked one; every other block is taken. */
  lemma PushExact(db: Db, b: Block)
    ensures var r := Push(db, b);
            var tooOld := db.head.Some? && (b.Num() == 0 || b.Num() + db.maxSize <= db.head.value.Num());
            var linked := db.head.Some? && b.previous != NULL_ID;
            && (r.TooOld? <==> tooOld)
            && (r.Unlinkable? <==> !tooOld && linked && b.previous !in db.index)
            && (r.InvalidParent? <==> !tooOld && linked && b.previous in db.index && b.previous in db.invalid)
            && (r.Pushed? <==> !tooOld && (linked ==> b.previous in db.index && b.previous !in db.invalid))
  {
  }

  /** An accepted block is recent and indexed; no other entry changes, an entry of its own id stays, and it becomes the
      head when it is higher. A new one hangs from the indexed parent that it names. */
  lemma AcceptedBlock(db: Db, b: Block)
    requires Inv(db) && Push(db, b).Pushed?
    ensures var db1 := Push(db, b).db;
            && (db.head.Some? ==> b.Num() + db.maxSize > db.head.value.Num())
            && db1.index.Keys == db.index.Keys + {b.Id()} && (forall id <- db.index :: db1.index[id] == db.index[id])
            && (b.Id() !in db.index ==> db1.index[b.Id()].block == b)
            && (if db.head.None? || b.Num() > db.head.value.Num() then db1.head == Some(db1.index[b.Id()])
                else db1.head == db.head)
            && db1.maxSize == db.maxSize && db1.invalid == db.invalid
            && (b.Id() !in db.index && db.head.Some? && b.previous != NULL_ID ==>
                Lock(db1, db1.index[b.Id()]) == Some(db.index[b.previous]))
  {
  }

  function SetMaxSize(db: Db, s: nat): Db {
    var db1 := db.(maxSize := s);
    if db.head.None? then db1
    else
      var index := map id | id in db.index && id.num >= Oldest(db1) :: db.index[id];
      db1.(index := index, invalid := db.invalid - (db.index.Keys - index.Keys))
  }

  function Empty(maxSize: nat): Db { Db(map[], None, maxSize, 0, {}) }

  /** start_block: the block becomes the head unconditionally. */
  function Start(db: Db, b: Block): Db {
    var item := Item(db.next, b, None);
    var index := if b.Id() in db.index then db.index else db.index[b.Id() := item];
    db.(index := index, head := Some(item), next := db.next + 1)
  }

  function Started(b: Block, maxSize: nat): Db { Start(Empty(maxSize), b) }

  // ---- What every run keeps

  ghost predicate Inv(db: Db) {
    Keyed(db.index, db.next) && Headed(db.index, db.head)
  }

  /** Items lie under their own ids, with serials of their own. */
  ghost predicate Keyed(index: map<BlockId, Item>, next: nat) {
    && (forall id <- index :: index[id].Id() == id && index[id].serial < next)
    && (forall i, j :: i in index && j in index && i != j ==> index[i].serial != index[j].serial)
    && (forall id <- index :: index[id].prev.Some? ==> id.num > 0)
  }

  /** The head is indexed and stands above every item. */
  ghost predicate Headed(index: map<BlockId, Item>, head: Option<Item>) {
    && (head.None? ==> index == map[])
    && (head.Some? ==> head.value.Id() in index && index[head.value.Id()] == head.value)
    && (forall id <- index :: Below(index[id], head))
  }

  /** The head has the greatest height, and among equal heights it came first. */
  ghost predicate Below(item: Item, head: Option<Item>) {
    head.Some? && (item.Num() < head.value.Num() ||
      (item.Num() == head.value.Num() && item.serial >= head.value.serial))
  }

  lemma InsertKeeps(db: Db, item: Item)
    requires Inv(db) && item.serial == db.next && (item.prev.Some? ==> item.Num() > 0)
    ensures Inv(Insert(db, item))
  {
    InsertKeyed(db.index, item);
    if item.Id() !in db.index { InsertHeaded(db, item); }
  }

  lemma InsertKeyed(index: map<BlockId, Item>, item: Item)
    requires Keyed(index, item.serial) && (item.prev.Some? ==> item.Num() > 0)
    ensures Keyed(index, item.serial + 1) && Keyed(index[item.Id() := item], item.serial + 1)
  {
  }

  lemma InsertHeaded(db: Db, item: Item)
    requires Inv(db) && item.serial == db.next && item.Id() !in db.index
    ensures Headed(Insert(db, item).index, Insert(db, item).head)
  {
  }

  lemma PushKeeps(db: Db, b: Block)
    requires Inv(db) && Push(db, b).Pushed?
    ensures Inv(Push(db, b).db)
  {
    var prev := if db.head.Some? && b.previous != NULL_ID then Some(db.index[b.previous].serial) else None;
    InsertKeeps(db, Item(db.next, b, prev));
  }

  lemma SetMaxSizeKeeps(db: Db, s: nat)
    requires Inv(db)
    ensures Inv(SetMaxSize(db, s))
  {
  }

  /** Marking an item invalid is up to the owner of the database; the mark goes with the item. */
  datatype Action = PushBlock(b: Block) | Resize(s: nat) | MarkInvalid(id: BlockId)

  /** A failed push throws and leaves the database alone. */
  function Act(db: Db, a: Action): Db {
    match a
    case PushBlock(b) => var r := Push(db, b); if r.Pushed? then r.db else db
    case Resize(s) => SetMaxSize(db, s)
    case MarkInvalid(id) => if id in db.index then db.(invalid := db.invalid + {id}) else db
  }

  function RunAll(db: Db, actions: seq<Action>): Db
    decreases |actions|
  {
    if actions == [] then db else RunAll(Act(db, actions[0]), actions[1..])
  }

  lemma ActKeeps(db: Db, a: Action)
    requires Inv(db)
    ensures Inv(Act(db, a))
  {
    match a
    case PushBlock(b) => if Push(db, b).Pushed? { PushKeeps(db, b); }
    case Resize(s) => SetMaxSizeKeeps(db, s);
    case MarkInvalid(id) =>
  }

  /** Every run from an empty or freshly started database: the head is the highest block, first seen wins. */
  lemma {:induction false} RunSafe(db: Db, actions: seq<Action>)
    requires Inv(db)
    ensures Inv(RunAll(db, actions))
    decreases |actions|
  {
    if actions != [] {
      ActKeeps(db, actions[0]);
      RunSafe(Act(db, actions[0]), actions[1..]);
    }
  }

  lemma StartsSafe(b: Block, maxSize: nat)
    ensures Inv(Empty(maxSize)) && Inv(Started(b, maxSize))
  {
  }

  /** Pruning keeps exactly the blocks at or above the bound, among them the head, and every parent link between
      them. */
  lemma PruneExact(db: Db, s: nat)
    requires Inv(db) && db.head.Some?
    ensures var db1 := SetMaxSize(db, s);
            var bound := if db.head.value.Num() < s then 0 else db.head.value.Num() - s;
            && db1.head == db.head && db.head.value.Id() in db1.index
            && (forall id :: id in db1.index <==> id in db.index && id.num >= bound)
            && (forall id <- db1.index :: db1.index[id] == db.index[id] &&
                 Lock(db1, db1.index[id]) == if id.num > bound then Lock(db, db.index[id]) else None)
  {
    var db1 := SetMaxSize(db, s);
    forall id <- db1.index
      ensures Lock(db1, db1.index[id]) == if id.num > Oldest(db1) then Lock(db, db.index[id]) else None
    {
      ParentHeight(db, db.index[id]);
    }
  }

  /** Along a live link the height falls by exactly one. */
  lemma ParentHeight(db: Db, item: Item)
    requires Inv(db) && item.Id() in db.index && db.index[item.Id()] == item
    ensures Lock(db, item).Some? ==>
            Lock(db, item).value.Num() + 1 == item.Num() && Lock(db, item).value.Id() == item.block.previous
  {
    if Lock(db, item).Some? { assert item.block.previous.num < B32; }
  }
}
