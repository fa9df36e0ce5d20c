/** The sync bookkeeping of the network node as a state machine: every handler, or iteration of a loop, is one
    atomic step (node.cpp). */
module SyncState {
  import opened Common

  type PeerId = nat

  /** A block id carries its 32-bit block number. */
  datatype ItemId = ItemId(num: nat, tag: nat)

  datatype Peer = Peer(
    connected: bool,                  // in _active_connections, not yet closing
    idsToGet: seq<ItemId>,            // ids_of_items_to_get
    outstanding: set<ItemId>,         // sync_items_requested_from_peer
    asked: Option<seq<ItemId>>,       // item_ids_requested_from_peer: the synopsis sent
    normalRequests: set<ItemId>,      // items_requested_from_peer
    unfetched: nat,                   // number_of_unfetched_item_ids
    weNeedItems: bool,                // we_need_sync_items_from_peer
    peerNeedsItems: bool,             // peer_needs_sync_items_from_us
    inhibited: bool)                  // inhibit_fetching_sync_blocks
  {
    predicate Idle() { outstanding == {} && asked.None? && normalRequests == {} }
  }

  datatype State = State(
    peers: map<PeerId, Peer>,         // live connections
    active: set<ItemId>,              // _active_sync_requests
    received: multiset<ItemId>)       // _received_sync_items and _new_received_sync_items

  // ---- Lists of consecutive block numbers

  predicate Consecutive(ids: seq<ItemId>) {
    forall i :: 0 <= i < |ids| ==> ids[i].num < B32 && ids[i].num == (ids[0].num + i) % B32
  }

  lemma Slice(ids: seq<ItemId>, from: nat, to: nat)
    requires Consecutive(ids) && from <= to <= |ids|
    ensures Consecutive(ids[from..to])
  {
    if from < to {
      forall i | 0 <= i < to - from ensures ids[from..to][i].num == (ids[from..to][0].num + i) % B32 {
        assert ids[from + i].num == (ids[0].num + (from + i)) % B32;
        AddMod(ids[0].num + from, i);
      }
    }
  }

  lemma AddMod(a: nat, b: nat)
    ensures (a % B32 + b) % B32 == (a + b) % B32
  {
  }

  /** A list without its last element followed by a list that starts with that element. */
  lemma Joined(ids: seq<ItemId>, items: seq<ItemId>)
    requires Consecutive(ids) && Consecutive(items) && ids != [] && items != [] && ids[|ids| - 1] == items[0]
    ensures Consecutive(ids[..|ids| - 1] + items)
    ensures |ids| > 1 ==> ids[|ids| - 2] != items[0]
  {
    var joined, n := ids[..|ids| - 1] + items, |ids| - 1;
    forall i | 0 <= i < |joined| ensures joined[i].num < B32 && joined[i].num == (joined[0].num + i) % B32 {
      if i >= n && n > 0 {
        assert items[i - n].num == (items[0].num + (i - n)) % B32;
        assert items[0].num == (ids[0].num + n) % B32;
        AddMod(ids[0].num + n, i - n);
      }
    }
    if n > 0 { assert ids[n].num == (ids[0].num + n) % B32 && ids[n - 1].num == (ids[0].num + (n - 1)) % B32; }
  }

  lemma Suffix(ids: seq<ItemId>, n: nat)
    requires Consecutive(ids) && n <= |ids|
    ensures Consecutive(ids[n..])
  {
    Slice(ids, n, |ids|);
    assert ids[n..|ids|] == ids[n..];
  }

  // ---- Merging an inventory into a peer's list

  /** Items at the front that the client already has. */
  function DropKnown(items: seq<ItemId>, known: set<ItemId>): (r: seq<ItemId>)
    ensures |r| <= |items| && r == items[|items| - |r|..]
    ensures r != [] ==> r[0] !in known
    ensures forall i :: 0 <= i < |items| - |r| ==> items[i] in known
  {
    if items == [] || items[0] !in known then items else DropKnown(items[1..], known)
  }

  /** The list up to and including the last occurrence of an item; empty when there is none. */
  function PopBackTo(ids: seq<ItemId>, item: ItemId): (r: seq<ItemId>)
    ensures |r| <= |ids| && r == ids[..|r|]
    ensures r != [] ==> r[|r| - 1] == item
    ensures forall i :: |r| <= i < |ids| ==> ids[i] != item
  {
    if ids == [] || ids[|ids| - 1] == item then ids else PopBackTo(ids[..|ids| - 1], item)
  }

  /** The peer's list and the received items just before they are joined (line 2679 of node.cpp). */
  function Aligned(ids: seq<ItemId>, items: seq<ItemId>, keepKnown: bool, known: set<ItemId>)
    : (seq<ItemId>, seq<ItemId>)
  {
    if items == [] then (ids, items)
    else if ids == [] then ([], if keepKnown then items else DropKnown(items, known))
    else
      var kept := PopBackTo(ids, items[0]);
      if kept == [] then ([], items[1..]) else (kept[..|kept| - 1], items)
  }

  /** The assertion at line 2680 holds, and the joined list is consecutive again: on append, after a fork switch
      and when items already seen are dropped. */
  lemma MergeKeepsConsecutive(ids: seq<ItemId>, items: seq<ItemId>, keepKnown: bool, known: set<ItemId>)
    requires Consecutive(ids) && Consecutive(items)
    ensures var (left, right) := Aligned(ids, items, keepKnown, known);
            && (left != [] && right != [] ==> right[0] != left[|left| - 1])
            && Consecutive(left + right)
  {
    var (left, right) := Aligned(ids, items, keepKnown, known);
    if items == [] {
      assert left + right == ids;
    } else if ids == [] {
      assert left + right == right;
      Suffix(items, |items| - |right|);
    } else {
      var kept := PopBackTo(ids, items[0]);
      if kept == [] {
        Suffix(items, 1);
        assert left + right == items[1..];
      } else {
        Slice(ids, 0, |kept|);
        assert ids[0..|kept|] == kept;
        Joined(kept, items);
      }
    }
  }

  // ---- The steps

  /** Requests planned by one pass of the fetch loop: idle, uninhibited peers are asked for items of their lists
      that are not on hand, not requested before and not planned for two peers. */
  ghost predicate ValidPlan(s: State, plan: map<PeerId, set<ItemId>>) {
    && plan.Keys <= s.peers.Keys
    && (forall p <- plan :: Plannable(s, s.peers[p], plan[p]))
    && (forall p, q :: p in plan && q in plan && p != q ==> plan[p] !! plan[q])
  }

  ghost predicate Plannable(s: State, peer: Peer, items: set<ItemId>) {
    && peer.connected && peer.weNeedItems && !peer.inhibited && peer.Idle()
    && (forall x <- items :: x in peer.idsToGet && x !in s.active && x !in s.received)
  }

  ghost function AllPlanned(plan: map<PeerId, set<ItemId>>): set<ItemId> {
    set p, x | p in plan && x in plan[p] :: x
  }

  function Requested(peer: Peer, plan: map<PeerId, set<ItemId>>, p: PeerId): Peer {
    if p in plan then peer.(outstanding := peer.outstanding + plan[p]) else peer
  }

  datatype Event =
    | Fetch(plan: map<PeerId, set<ItemId>>)
    | BlockMessage(p: PeerId, message: ItemId, id: ItemId)
    | NotAvailable(p: PeerId, id: ItemId)
    | ConnectionClosed(p: PeerId)
    | Connected(p: PeerId, peerNeedsItems: bool)
    | AskForIds(p: PeerId, synopsis: seq<ItemId>)
    | Inventory(p: PeerId, items: seq<ItemId>, remaining: nat, known: set<ItemId>, implausible: bool)
    | Backlog(id: ItemId, accepted: bool)
    | Restart(p: PeerId)
    | NormalRequest(p: PeerId, wanted: set<ItemId>)
    | Disconnect(p: PeerId)

  ghost predicate Enabled(s: State, e: Event) {
    match e
    case Fetch(plan) => ValidPlan(s, plan)
    case Connected(p, _) => p !in s.peers
    case Inventory(p, items, _, _, _) => p in s.peers && forall x <- items :: x.num < B32
    case Backlog(id, _) => id in s.received
    case BlockMessage(p, _, _) => p in s.peers
    case NotAvailable(p, _) => p in s.peers
    case ConnectionClosed(p) => p in s.peers
    case AskForIds(p, _) => p in s.peers
    case Restart(p) => p in s.peers
    case NormalRequest(p, _) => p in s.peers
    case Disconnect(p) => p in s.peers
  }

  function Fresh(peerNeedsItems: bool): Peer { Peer(true, [], {}, None, {}, 0, true, peerNeedsItems, false) }

  function SetPeer(s: State, p: PeerId, peer: Peer): State { s.(peers := s.peers[p := peer]) }

  /** Normal requests are keyed by message hash, sync requests by block id. */
  function OnBlock(s: State, p: PeerId, message: ItemId, id: ItemId): State
    requires p in s.peers
  {
    var peer := s.peers[p];
    if message in peer.normalRequests then SetPeer(s, p, peer.(normalRequests := peer.normalRequests - {message}))
    else if id in peer.outstanding then
      State(s.peers[p := peer.(outstanding := peer.outstanding - {id})], s.active - {id}, s.received + multiset{id})
    else SetPeer(s, p, peer.(connected := false))
  }

  function OnNotAvailable(s: State, p: PeerId, id: ItemId): State
    requires p in s.peers
  {
    var peer := s.peers[p];
    if id in peer.normalRequests then SetPeer(s, p, peer.(normalRequests := peer.normalRequests - {id}))
    else if id in peer.outstanding then
      var peer1 := peer.(outstanding := peer.outstanding - {id});
      SetPeer(s, p, if peer.peerNeedsItems then peer1.(inhibited := true) else peer1.(connected := false))
    else s
  }

  function OnClosed(s: State, p: PeerId): State
    requires p in s.peers
  {
    State(s.peers - {p}, s.active - s.peers[p].outstanding, s.received)
  }

  predicate FirstElsewhere(s: State, p: PeerId, item: ItemId) {
    exists q <- s.peers :: q != p && s.peers[q].connected && s.peers[q].idsToGet != [] && s.peers[q].idsToGet[0] == item
  }

  /** The reply is sequential and builds on the synopsis that was sent. */
  predicate ValidReply(synopsis: seq<ItemId>, items: seq<ItemId>) {
    items != [] ==> Consecutive(items) && if synopsis == [] then items[0].num == 1 else items[0] in synopsis
  }

  function OnInventory(s: State, p: PeerId, items: seq<ItemId>, remaining: nat, known: set<ItemId>,
                       implausible: bool): State
    requires p in s.peers
  {
    var peer := s.peers[p];
    if peer.asked.None? then s
    else if !ValidReply(peer.asked.value, items) then SetPeer(s, p, peer.(connected := false))
    else if remaining == 0 && (items == [] || (|items| == 1 && items[0] in known)) && peer.idsToGet == [] &&
      peer.unfetched == 0 then
      SetPeer(s, p, peer.(asked := None, weNeedItems := false))
    else
      var (left, right) := Aligned(peer.idsToGet, items, items != [] && FirstElsewhere(s, p, items[0]), known);
      SetPeer(s, p, peer.(asked := None, unfetched := remaining, idsToGet := left + right,
        connected := peer.connected && !implausible))
  }

  function PopFront(peer: Peer, id: ItemId): Peer {
    if peer.connected && peer.idsToGet != [] && peer.idsToGet[0] == id then peer.(idsToGet := peer.idsToGet[1..])
    else peer
  }

  function PopAll(peers: map<PeerId, Peer>, id: ItemId): map<PeerId, Peer> {
    map p <- peers :: PopFront(peers[p], id)
  }

  /** The block is at the front of the list of one of these peers. */
  predicate SomeFront(peers: map<PeerId, Peer>, keys: set<PeerId>, id: ItemId) {
    exists p <- keys :: p in peers && PopFront(peers[p], id) != peers[p]
  }

  /** One received block is offered to every peer list; a block at the front of some list leaves the backlog. */
  function OnBacklog(s: State, id: ItemId, accepted: bool): State {
    State(PopAll(s.peers, id), s.active,
          if SomeFront(s.peers, s.peers.Keys, id) && !accepted then s.received - multiset{id} else s.received)
  }

  ghost function OnFetch(s: State, plan: map<PeerId, set<ItemId>>): State {
    State(map p <- s.peers :: Requested(s.peers[p], plan, p), s.active + AllPlanned(plan), s.received)
  }

  ghost function Apply(s: State, e: Event): State
    requires Enabled(s, e)
  {
    match e
    case Fetch(plan) => OnFetch(s, plan)
    case BlockMessage(p, message, id) => OnBlock(s, p, message, id)
    case NotAvailable(p, id) => OnNotAvailable(s, p, id)
    case ConnectionClosed(p) => OnClosed(s, p)
    case Connected(p, needs) => SetPeer(s, p, Fresh(needs))
    case AskForIds(p, synopsis) => SetPeer(s, p, s.peers[p].(asked := Some(synopsis)))
    case Inventory(p, items, remaining, known, implausible) => OnInventory(s, p, items, remaining, known, implausible)
    case Backlog(id, accepted) => OnBacklog(s, id, accepted)
    case Restart(p) => SetPeer(s, p,
      s.peers[p].(idsToGet := [], unfetched := 0, weNeedItems := true, inhibited := false))
    case NormalRequest(p, wanted) => SetPeer(s, p, s.peers[p].(normalRequests := s.peers[p].normalRequests + wanted))
    case Disconnect(p) => SetPeer(s, p, s.peers[p].(connected := false))
  }

  // ---- The invariant of every run

  /** No block is outstanding at two live peers. */
  ghost predicate Exclusive(s: State) {
    forall p, q :: p in s.peers && q in s.peers && p != q ==> s.peers[p].outstanding !! s.peers[q].outstanding
  }

  /** Every outstanding block is registered. */
  ghost predicate Registered(s: State) {
    forall p <- s.peers :: s.peers[p].outstanding <= s.active
  }

  ghost predicate Sequential(s: State) {
    forall p <- s.peers :: Consecutive(s.peers[p].idsToGet)
  }

  ghost predicate Inv(s: State) { Exclusive(s) && Registered(s) && Sequential(s) }

  lemma FetchKeeps(s: State, plan: map<PeerId, set<ItemId>>)
    requires Inv(s) && ValidPlan(s, plan)
    ensures Inv(OnFetch(s, plan))
  {
    var s' := OnFetch(s, plan);
    forall p, q | p in s.peers && q in s.peers && p != q ensures s'.peers[p].outstanding !! s'.peers[q].outstanding {
      assert s'.peers[p] == Requested(s.peers[p], plan, p) && s'.peers[q] == Requested(s.peers[q], plan, q);
    }
  }

  /** Replacing a peer by one with a consecutive list and no more outstanding blocks, and unregistering only
      blocks that were outstanding at that peer alone. */
  lemma UpdateKeeps(s: State, p: PeerId, peer: Peer, gone: set<ItemId>, received: multiset<ItemId>)
    requires Inv(s) && Consecutive(peer.idsToGet)
    requires if p in s.peers then peer.outstanding <= s.peers[p].outstanding - gone && gone <= s.peers[p].outstanding
             else peer.outstanding == {} == gone
    ensures Inv(State(s.peers[p := peer], s.active - gone, received))
  {
    var s' := State(s.peers[p := peer], s.active - gone, received);
    forall q <- s'.peers ensures s'.peers[q].outstanding <= s'.active {
      if q != p && p in s.peers { assert s.peers[q].outstanding !! s.peers[p].outstanding; }
    }
  }

  lemma SetPeerKeeps(s: State, p: PeerId, peer: Peer)
    requires Inv(s) && Consecutive(peer.idsToGet)
    requires if p in s.peers then peer.outstanding <= s.peers[p].outstanding else peer.outstanding == {}
    ensures Inv(SetPeer(s, p, peer))
  {
    UpdateKeeps(s, p, peer, {}, s.received);
    assert s.active - {} == s.active;
  }

  lemma InventoryKeeps(s: State, p: PeerId, items: seq<ItemId>, remaining: nat, known: set<ItemId>, implausible: bool)
    requires Inv(s) && p in s.peers
    ensures Inv(OnInventory(s, p, items, remaining, known, implausible))
  {
    var peer := s.peers[p];
    if peer.asked.Some? {
      if ValidReply(peer.asked.value, items) {
        MergeKeepsConsecutive(peer.idsToGet, items, items != [] && FirstElsewhere(s, p, items[0]), known);
      }
      SetPeerKeeps(s, p, OnInventory(s, p, items, remaining, known, implausible).peers[p]);
    }
  }

  lemma BlockKeeps(s: State, p: PeerId, message: ItemId, id: ItemId)
    requires Inv(s) && p in s.peers
    ensures Inv(OnBlock(s, p, message, id))
  {
    var s' := OnBlock(s, p, message, id);
    if message !in s.peers[p].normalRequests && id in s.peers[p].outstanding {
      UpdateKeeps(s, p, s'.peers[p], {id}, s'.received);
    } else {
      SetPeerKeeps(s, p, s'.peers[p]);
    }
  }

  lemma ClosedKeeps(s: State, p: PeerId)
    requires Inv(s) && p in s.peers
    ensures Inv(OnClosed(s, p))
  {
  }

  /** Only the lists change. */
  lemma ListsKeep(s: State, s': State)
    requires Inv(s) && s'.active == s.active && s'.peers.Keys == s.peers.Keys
    requires forall p <- s.peers ::
             s'.peers[p].outstanding == s.peers[p].outstanding && Consecutive(s'.peers[p].idsToGet)
    ensures Inv(s')
  {
  }

  lemma BacklogKeeps(s: State, id: ItemId, accepted: bool)
    requires Inv(s)
    ensures Inv(OnBacklog(s, id, accepted))
  {
    PopFrontKeeps(s, id);
    ListsKeep(s, OnBacklog(s, id, accepted));
  }

  lemma PopFrontKeeps(s: State, id: ItemId)
    requires Inv(s)
    ensures forall p <- s.peers :: PopFront(s.peers[p], id).outstanding == s.peers[p].outstanding
    ensures forall p <- s.peers :: Consecutive(PopFront(s.peers[p], id).idsToGet)
  {
    forall p <- s.peers ensures Consecutive(PopFront(s.peers[p], id).idsToGet) {
      var ids := s.peers[p].idsToGet;
      if ids != [] {
        Slice(ids, 1, |ids|);
        assert ids[1..|ids|] == ids[1..];
      }
    }
  }

  lemma StepKeeps(s: State, e: Event)
    requires Inv(s) && Enabled(s, e)
    ensures Inv(Apply(s, e))
  {
    match e
    case Fetch(plan) => FetchKeeps(s, plan);
    case BlockMessage(p, message, id) => BlockKeeps(s, p, message, id);
    case NotAvailable(p, id) => SetPeerKeeps(s, p, OnNotAvailable(s, p, id).peers[p]);
    case ConnectionClosed(p) => ClosedKeeps(s, p);
    case Inventory(p, items, remaining, known, implausible) =>
      InventoryKeeps(s, p, items, remaining, known, implausible);
    case Backlog(id, accepted) => BacklogKeeps(s, id, accepted);
    case _ => SetPeerKeeps(s, e.p, Apply(s, e).peers[e.p]);
  }

  ghost predicate Run(states: seq<State>, events: seq<Event>) {
    && |states| == |events| + 1
    && states[0] == State(map[], {}, multiset{})
    && forall i :: 0 <= i < |events| ==> Enabled(states[i], events[i]) && states[i + 1] == Apply(states[i], events[i])
  }

  /** Safety of every run: exclusive and registered requests, and consecutive lists, in every state. */
  lemma {:induction false} RunSafe(states: seq<State>, events: seq<Event>, i: nat)
    requires Run(states, events) && i < |states|
    ensures Inv(states[i])
  {
    if i > 0 {
      RunSafe(states, events, i - 1);
      StepKeeps(states[i - 1], events[i - 1]);
    }
  }

  /** Alone, exclusiveness is not kept: without registration a second peer may be asked for an outstanding block. */
  lemma ExclusiveAloneNotInductive(x: ItemId)
    ensures var busy, idle := Fresh(false).(outstanding := {x}), Fresh(false).(idsToGet := [x]);
            var s := State(map[1 := busy, 2 := idle], {}, multiset{});
            var e := Fetch(map[2 := {x}]);
            Exclusive(s) && Enabled(s, e) && !Exclusive(Apply(s, e))
  {
    var busy, idle := Fresh(false).(outstanding := {x}), Fresh(false).(idsToGet := [x]);
    var s := State(map[1 := busy, 2 := idle], {}, multiset{});
    var s' := Apply(s, Fetch(map[2 := {x}]));
    assert x in s'.peers[1].outstanding && x in s'.peers[2].outstanding;
  }

  /** Alone, registration is not kept: a block outstanding at two peers is unregistered when one of them sends it. */
  lemma RegisteredAloneNotInductive(x: ItemId, message: ItemId)
    ensures var busy := Fresh(false).(outstanding := {x});
            var s := State(map[1 := busy, 2 := busy], {x}, multiset{});
            var e := BlockMessage(1, message, x);
            Registered(s) && Enabled(s, e) && !Registered(Apply(s, e))
  {
    var busy := Fresh(false).(outstanding := {x});
    var s' := Apply(State(map[1 := busy, 2 := busy], {x}, multiset{}), BlockMessage(1, message, x));
    assert x in s'.peers[2].outstanding && x !in s'.active;
  }
}
