/** The handlers of the network node that keep the sync bookkeeping (node.cpp). */
module SyncNodes {
  import opened Common
  import opened SyncState

  predicate Wanted(s: State, planned: set<ItemId>, x: ItemId) {
    x !in s.received && x !in planned && x !in s.active
  }

  /** The items come from the first n ids of the list, of which everything that could be requested is planned for some
      peer; below the maximum that is the whole list. */
  ghost predicate CoveredTo(s: State, ids: seq<ItemId>, items: set<ItemId>, planned: set<ItemId>, maximum: nat, n: int)
  {
    && 0 <= n <= |ids| && (|items| < maximum ==> n == |ids|)
    && (forall x <- items :: x in ids[..n])
    && (forall x <- ids[..n] :: Wanted(s, {}, x) ==> x in planned)
  }

  ghost predicate Covered(s: State, ids: seq<ItemId>, items: set<ItemId>, planned: set<ItemId>, maximum: nat) {
    exists n :: CoveredTo(s, ids, items, planned, maximum, n)
  }

  /** Every peer of the plan has at most the maximum, and at least as much as could be found for it. */
  ghost predicate GoodPlan(s: State, plan: map<PeerId, set<ItemId>>, planned: set<ItemId>, maximum: nat) {
    forall p <- plan ::
      && (|plan[p]| <= maximum || |plan[p]| <= 1)
      && p in s.peers && Covered(s, s.peers[p].idsToGet, plan[p], planned, maximum)
  }

  ghost predicate IsPlan(s: State, plan: map<PeerId, set<ItemId>>, planned: set<ItemId>, maximum: nat) {
    ValidPlan(s, plan) && GoodPlan(s, plan, planned, maximum) && planned == AllPlanned(plan)
  }

  predicate MayAsk(s: State, p: PeerId) {
    p in s.peers && s.peers[p].connected && s.peers[p].weNeedItems && s.peers[p].Idle() && !s.peers[p].inhibited
  }

  /** All that nobody has among the first n ids of the list. */
  ghost predicate FirstWanted(s: State, ids: seq<ItemId>, planned: set<ItemId>, items: set<ItemId>, n: int) {
    0 <= n <= |ids| && items == set x <- ids[..n] | Wanted(s, planned, x)
  }

  /** What the inner loop finds for one peer: the first of what nobody has, up to the maximum. */
  ghost predicate Found(s: State, ids: seq<ItemId>, maximum: nat, planned: set<ItemId>, items: set<ItemId>) {
    && (|items| <= maximum || |items| <= 1)
    && exists n :: FirstWanted(s, ids, planned, items, n) && (|items| < maximum ==> n == |ids|)
  }

  lemma AllPlannedGrows(plan: map<PeerId, set<ItemId>>, p: PeerId, items: set<ItemId>)
    requires p !in plan
    ensures AllPlanned(plan[p := items]) == AllPlanned(plan) + items
  {
    var plan' := plan[p := items];
    forall x | x in items ensures x in AllPlanned(plan') { assert p in plan' && x in plan'[p]; }
    forall x | x in AllPlanned(plan) ensures x in AllPlanned(plan') {
      var q :| q in plan && x in plan[q];
      assert q in plan' && x in plan'[q];
    }
  }

  lemma ValidPlanGrows(s: State, plan: map<PeerId, set<ItemId>>, p: PeerId, items: set<ItemId>)
    requires ValidPlan(s, plan) && p !in plan && p in s.peers && Plannable(s, s.peers[p], items) &&
             items !! AllPlanned(plan)
    ensures ValidPlan(s, plan[p := items])
  {
    forall q <- plan ensures plan[q] !! items {
      forall x | x in plan[q] ensures x in AllPlanned(plan) {}
    }
  }

  lemma PlanGrows(s: State, plan: map<PeerId, set<ItemId>>, planned: set<ItemId>, p: PeerId, items: set<ItemId>,
                  maximum: nat)
    requires IsPlan(s, plan, planned, maximum) && p !in plan && MayAsk(s, p)
    requires Found(s, s.peers[p].idsToGet, maximum, planned, items)
    ensures IsPlan(s, plan[p := items], planned + items, maximum)
  {
    AllPlannedGrows(plan, p, items);
    ValidPlanGrows(s, plan, p, items);
    GoodPlanGrows(s, plan, planned, p, items, maximum);
  }

  lemma GoodPlanGrows(s: State, plan: map<PeerId, set<ItemId>>, planned: set<ItemId>, p: PeerId, items: set<ItemId>,
                      maximum: nat)
    requires GoodPlan(s, plan, planned, maximum) && p !in plan && p in s.peers
    requires Found(s, s.peers[p].idsToGet, maximum, planned, items)
    ensures GoodPlan(s, plan[p := items], planned + items, maximum)
  {
    forall q <- plan ensures Covered(s, s.peers[q].idsToGet, plan[q], planned + items, maximum) {
      var n :| CoveredTo(s, s.peers[q].idsToGet, plan[q], planned, maximum, n);
      assert CoveredTo(s, s.peers[q].idsToGet, plan[q], planned + items, maximum, n);
    }
    var ids := s.peers[p].idsToGet;
    var n :| FirstWanted(s, ids, planned, items, n) && (|items| < maximum ==> n == |ids|);
    assert CoveredTo(s, ids, items, planned + items, maximum, n);
  }

  /** The inner loop of one pass: the first items of the list nobody has, up to the maximum and at least one. */
  method PlanPeer(s: State, ids: seq<ItemId>, maximum: nat, planned: set<ItemId>) returns (items: set<ItemId>)
    ensures Found(s, ids, maximum, planned, items)
  {
    items := {};
    for i := 0 to |ids|
      invariant |items| < maximum || items == {}
      invariant FirstWanted(s, ids, planned, items, i)
    {
      assert ids[..i + 1] == ids[..i] + [ids[i]];
      if Wanted(s, planned + items, ids[i]) {
        items := items + {ids[i]};
        if |items| >= maximum {
          assert FirstWanted(s, ids, planned, items, i + 1);
          return;
        }
      }
    }
  }

  method ExtendPlan(s: State, p: PeerId, maximum: nat, plan: map<PeerId, set<ItemId>>, planned: set<ItemId>)
    returns (plan': map<PeerId, set<ItemId>>, planned': set<ItemId>)
    requires IsPlan(s, plan, planned, maximum) && p !in plan && MayAsk(s, p)
    ensures IsPlan(s, plan', planned', maximum) && plan'.Keys == plan.Keys + {p}
  {
    var items := PlanPeer(s, s.peers[p].idsToGet, maximum, planned);
    PlanGrows(s, plan, planned, p, items, maximum);
    plan', planned' := plan[p := items], planned + items;
  }

  /** Everyone on the list who may be asked is. */
  ghost predicate AllAsked(s: State, order: seq<PeerId>, asked: set<PeerId>) {
    forall p <- order :: MayAsk(s, p) ==> p in asked
  }

  lemma AskedMore(s: State, order: seq<PeerId>, i: nat, asked: set<PeerId>)
    requires i < |order| && AllAsked(s, order[..i], asked)
    ensures AllAsked(s, order[..i + 1], asked + {order[i]})
    ensures !MayAsk(s, order[i]) || order[i] in asked ==> AllAsked(s, order[..i + 1], asked)
  {
    assert order[..i + 1] == order[..i] + [order[i]];
  }

  lemma NothingPlanned(s: State, maximum: nat)
    ensures IsPlan(s, map[], {}, maximum)
  {
    assert AllPlanned(map[]) == {};
  }

  /** One pass of the fetch loop over the active connections. The plan is valid, and it leaves out an item a peer
      could be asked for only when the peer has its maximum or another peer was planned for the item. */
  method PlanRequests(s: State, order: seq<PeerId>, maximum: nat)
    returns (plan: map<PeerId, set<ItemId>>, ghost planned: set<ItemId>)
    ensures IsPlan(s, plan, planned, maximum)
    ensures AllAsked(s, order, plan.Keys)
  {
    plan := map[];
    var sofar := {};
    NothingPlanned(s, maximum);
    for i := 0 to |order|
      invariant IsPlan(s, plan, sofar, maximum) && AllAsked(s, order[..i], plan.Keys)
    {
      AskedMore(s, order, i, plan.Keys);
      if MayAsk(s, order[i]) && order[i] !in plan {
        plan, sofar := ExtendPlan(s, order[i], maximum, plan, sofar);
      }
    }
    planned := sofar;
    assert order[..|order|] == order;
  }

  lemma OneMoreFront(peers: map<PeerId, Peer>, keys: set<PeerId>, p: PeerId, id: ItemId)
    requires p in peers
    ensures SomeFront(peers, keys + {p}, id) <==>
            SomeFront(peers, keys, id) ||
            (peers[p].connected && peers[p].idsToGet != [] && peers[p].idsToGet[0] == id)
  {
    if peers[p].idsToGet != [] { assert |peers[p].idsToGet[1..]| != |peers[p].idsToGet|; }
    assert SomeFront(peers, {p}, id) <==> PopFront(peers[p], id) != peers[p];
  }

  class SyncNode {
    var peers: map<PeerId, Peer>
    var active: set<ItemId>
    var received: multiset<ItemId>

    function S(): State
      reads this
    {
      State(peers, active, received)
    }

    constructor ()
      ensures S() == State(map[], {}, multiset{})
    {
      peers, active, received := map[], {}, multiset{};
    }

    /** request_sync_items_from_peer */
    method RequestItems(p: PeerId, items: set<ItemId>)
      requires p in peers
      modifies this`peers, this`active
      ensures peers == old(peers)[p := old(peers)[p].(outstanding := old(peers)[p].outstanding + items)]
      ensures active == old(active) + items
    {
      var todo := items;
      while todo != {}
        invariant todo <= items && peers.Keys == old(peers).Keys
        invariant forall q <- peers :: q != p ==> peers[q] == old(peers)[q]
        invariant peers[p] == old(peers)[p].(outstanding := peers[p].outstanding)
        invariant peers[p].outstanding == old(peers)[p].outstanding + (items - todo)
        invariant active == old(active) + (items - todo)
      {
        var x :| x in todo;
        active := active + {x};
        peers := peers[p := peers[p].(outstanding := peers[p].outstanding + {x})];
        todo := todo - {x};
      }
      assert items - todo == items;
    }

    method SendRequests(plan: map<PeerId, set<ItemId>>)
      requires plan.Keys <= peers.Keys
      modifies this`peers, this`active
      ensures S() == OnFetch(old(S()), plan)
    {
      var todo := plan.Keys;
      while todo != {}
        invariant todo <= plan.Keys && peers.Keys == old(peers).Keys
        invariant forall p <- peers ::
          peers[p] == if p in todo then old(peers)[p] else Requested(old(peers)[p], plan, p)
        invariant old(active) <= active <= old(active) + AllPlanned(plan)
        invariant forall p <- plan.Keys - todo :: plan[p] <= active
      {
        var p :| p in todo;
        assert plan[p] <= AllPlanned(plan);
        RequestItems(p, plan[p]);
        todo := todo - {p};
      }
      assert peers == OnFetch(old(S()), plan).peers;
      assert AllPlanned(plan) <= active;
    }

    /** One iteration of the fetch loop: plan, then send; nothing while fetching is suspended. */
    method FetchSyncItems(order: seq<PeerId>, maximum: nat, suspended: bool) returns (plan: map<PeerId, set<ItemId>>)
      modifies this`peers, this`active
      ensures if suspended then S() == old(S())
              else Enabled(old(S()), Fetch(plan)) && S() == Apply(old(S()), Fetch(plan))
      ensures !suspended ==> IsPlan(old(S()), plan, AllPlanned(plan), maximum) && AllAsked(old(S()), order, plan.Keys)
      ensures suspended ==> plan == map[]
    {
      plan := map[];
      if !suspended {
        ghost var planned;
        plan, planned := PlanRequests(S(), order, maximum);
        SendRequests(plan);
      }
    }

    method OnBlockMessage(p: PeerId, message: ItemId, id: ItemId)
      requires p in peers
      modifies this
      ensures S() == OnBlock(old(S()), p, message, id)
    {
      var peer := peers[p];
      if message in peer.normalRequests {
        peers := peers[p := peer.(normalRequests := peer.normalRequests - {message})];
        return;
      }
      if id in peer.outstanding {
        peers := peers[p := peer.(outstanding := peer.outstanding - {id})];
        active := active - {id};
        received := received + multiset{id};
        return;
      }
      peers := peers[p := peer.(connected := false)];
    }

    method OnItemNotAvailable(p: PeerId, id: ItemId)
      requires p in peers
      modifies this`peers
      ensures S() == OnNotAvailable(old(S()), p, id)
    {
      var peer := peers[p];
      if id in peer.normalRequests {
        peers := peers[p := peer.(normalRequests := peer.normalRequests - {id})];
      } else if id in peer.outstanding {
        peers := peers[p := peer.(outstanding := peer.outstanding - {id})];
        if peer.peerNeedsItems {
          peers := peers[p := peers[p].(inhibited := true)];
        } else {
          peers := peers[p := peers[p].(connected := false)];
        }
      }
    }

    method OnConnectionClosed(p: PeerId)
      requires p in peers
      modifies this`peers, this`active
      ensures S() == OnClosed(old(S()), p)
    {
      var todo := peers[p].outstanding;
      peers := peers - {p};
      while todo != {}
        invariant todo <= old(peers)[p].outstanding && peers == old(peers) - {p}
        invariant active == old(active) - (old(peers)[p].outstanding - todo)
      {
        var x :| x in todo;
        active := active - {x};
        todo := todo - {x};
      }
      assert active == old(active) - old(peers)[p].outstanding;
    }

    method StartSynchronizing(p: PeerId)
      requires p in peers
      modifies this`peers
      ensures S() == Apply(old(S()), Restart(p))
    {
      peers := peers[p := peers[p].(idsToGet := [])];
      peers := peers[p := peers[p].(unfetched := 0)];
      peers := peers[p := peers[p].(weNeedItems := true)];
      peers := peers[p := peers[p].(inhibited := false)];
    }

    /** Takes a block off the front of every list that starts with it; the answer says whether any did. */
    method PopFronts(id: ItemId) returns (first: bool)
      modifies this`peers
      ensures peers == PopAll(old(peers), id)
      ensures first <==> SomeFront(old(peers), old(peers).Keys, id)
    {
      first := false;
      var todo := peers.Keys;
      ghost var done: set<PeerId> := {};
      while todo != {}
        invariant todo !! done && todo + done == peers.Keys == old(peers).Keys
        invariant forall p <- peers :: peers[p] == if p in done then PopFront(old(peers)[p], id) else old(peers)[p]
        invariant first <==> SomeFront(old(peers), done, id)
        decreases todo
      {
        var p :| p in todo;
        var peer := peers[p];
        OneMoreFront(old(peers), done, p, id);
        todo, done := todo - {p}, done + {p};
        if peer.connected && peer.idsToGet != [] && peer.idsToGet[0] == id {
          first := true;
          peers := peers[p := peer.(idsToGet := peer.idsToGet[1..])];
        }
      }
      assert peers == PopAll(old(peers), id);
    }

    /** The body of the backlog loop for one received block. */
    method ProcessBacklogItem(id: ItemId, accepted: bool)
      requires id in received
      modifies this`peers, this`received
      ensures S() == OnBacklog(old(S()), id, accepted)
    {
      var first := PopFronts(id);
      if first && !accepted { received := received - multiset{id}; }
    }

    method IsFirstElsewhere(p: PeerId, item: ItemId) returns (first: bool)
      ensures first <==> FirstElsewhere(S(), p, item)
    {
      var todo := peers.Keys;
      while todo != {}
        invariant todo <= peers.Keys
        invariant forall q <- peers.Keys - todo ::
                    !(q != p && peers[q].connected && peers[q].idsToGet != [] && peers[q].idsToGet[0] == item)
      {
        var q :| q in todo;
        if q != p && peers[q].connected && peers[q].idsToGet != [] && peers[q].idsToGet[0] == item { return true; }
        todo := todo - {q};
      }
      return false;
    }

    method CheckSequential(items: seq<ItemId>) returns (ok: bool)
      requires items != [] && forall x <- items :: x.num < B32
      ensures ok <==> Consecutive(items)
    {
      for i := 1 to |items|
        invariant forall j :: 0 <= j < i ==> items[j].num == (items[0].num + j) % B32
      {
        if items[i].num != (items[0].num + i) % B32 { return false; }
      }
      return true;
    }

    method CheckReply(synopsis: seq<ItemId>, items: seq<ItemId>) returns (ok: bool)
      requires forall x <- items :: x.num < B32
      ensures ok <==> ValidReply(synopsis, items)
    {
      if items == [] { return true; }
      var sequential := CheckSequential(items);
      if !sequential { return false; }
      return if synopsis == [] then items[0].num == 1 else items[0] in synopsis;
    }

    /** The three ways of lining up the peer's list with the received items. */
    method Align(p: PeerId, items: seq<ItemId>, known: set<ItemId>) returns (left: seq<ItemId>, right: seq<ItemId>)
      requires p in peers
      ensures (left, right) == Aligned(peers[p].idsToGet, items, items != [] && FirstElsewhere(S(), p, items[0]), known)
    {
      left, right := peers[p].idsToGet, items;
      if right != [] && left == [] {
        var elsewhere := IsFirstElsewhere(p, items[0]);
        if !elsewhere {
          while right != [] && right[0] in known
            invariant DropKnown(right, known) == DropKnown(items, known)
            decreases right
          {
            right := right[1..];
          }
        }
      } else if right != [] {
        while left != [] && right[0] != left[|left| - 1]
          invariant PopBackTo(left, items[0]) == PopBackTo(peers[p].idsToGet, items[0])
          decreases left
        {
          left := left[..|left| - 1];
        }
        if left == [] { right := right[1..]; } else { left := left[..|left| - 1]; }
      }
    }

    method OnInventoryMessage(p: PeerId, items: seq<ItemId>, remaining: nat, known: set<ItemId>, implausible: bool)
      requires p in peers && forall x <- items :: x.num < B32
      modifies this`peers
      ensures S() == OnInventory(old(S()), p, items, remaining, known, implausible)
    {
      var peer := peers[p];
      if peer.asked.None? { return; }
      var valid := CheckReply(peer.asked.value, items);
      if !valid {
        peers := peers[p := peer.(connected := false)];
        return;
      }
      if remaining == 0 && (items == [] || (|items| == 1 && items[0] in known)) && peer.idsToGet == [] &&
        peer.unfetched == 0 {
        peers := peers[p := peer.(asked := None, weNeedItems := false)];
        return;
      }
      var left, right := Align(p, items, known);
      peer := peer.(asked := None, unfetched := remaining, idsToGet := left + right);
      if implausible { peer := peer.(connected := false); }
      peers := peers[p := peer];
    }
  }
}
