/** What becomes of blocks and lists in the steps and runs of the sync bookkeeping (node.cpp). */
module SyncLifecycles {
  import opened Common
  import opened SyncState

  // ---- Inventories

  /** A reply that the node accepts: consecutive, and building on the synopsis that was sent. */
  ghost predicate Builds(synopsis: seq<ItemId>, items: seq<ItemId>) {
    && Consecutive(items)
    && (items != [] && synopsis == [] ==> items[0].num == 1)
    && (items != [] && synopsis != [] ==> items[0] in synopsis)
  }

  /** The peer has nothing more to offer. */
  predicate InSync(peer: Peer, items: seq<ItemId>, remaining: nat, known: set<ItemId>) {
    && peer.idsToGet == [] && peer.unfetched == 0 && remaining == 0
    && (items == [] || (|items| == 1 && items[0] in known))
  }

  /** Unasked replies are ignored; one that does not build on the synopsis disconnects the peer; one with nothing to
      offer ends syncing from the peer. */
  lemma InventoryRefused(s: State, p: PeerId, items: seq<ItemId>, remaining: nat, known: set<ItemId>, implausible: bool)
    requires p in s.peers
    ensures var s', peer := OnInventory(s, p, items, remaining, known, implausible), s.peers[p];
            && (peer.asked.None? ==> s' == s)
            && (peer.asked.Some? && !Builds(peer.asked.value, items) ==>
                s' == SetPeer(s, p, peer.(connected := false)))
            && (peer.asked.Some? && Builds(peer.asked.value, items) && InSync(peer, items, remaining, known) ==>
                s' == SetPeer(s, p, peer.(asked := None, weNeedItems := false)))
  {
  }

  ghost predicate LastAt(ids: seq<ItemId>, x: ItemId, m: int) {
    0 <= m < |ids| && ids[m] == x && forall i :: m < i < |ids| ==> ids[i] != x
  }

  /** The list of the peer after a reply that is taken: a reply that starts on the list replaces what follows the last
      place of its first id; one that does not replaces the list but for that id, which the node has; on an empty list
      the reply is taken without the ids at its front that the node has, unless another peer's list starts with its
      first id. */
  ghost predicate Merged(before: seq<ItemId>, items: seq<ItemId>, elsewhere: bool, known: set<ItemId>,
                         after: seq<ItemId>)
  {
    if items == [] then after == before
    else if before == [] then
      exists k :: 0 <= k <= |items| && after == items[k..] && (forall i :: 0 <= i < k ==> items[i] in known) &&
                  (if elsewhere then k == 0 else k < |items| ==> items[k] !in known)
    else if items[0] in before then exists m :: LastAt(before, items[0], m) && after == before[..m] + items
    else after == items[1..]
  }

  lemma AlignedMerges(ids: seq<ItemId>, items: seq<ItemId>, elsewhere: bool, known: set<ItemId>)
    ensures var (left, right) := Aligned(ids, items, items != [] && elsewhere, known);
            Merged(ids, items, elsewhere, known, left + right)
  {
    var (left, right) := Aligned(ids, items, items != [] && elsewhere, known);
    if items == [] {
      assert left + right == ids;
    } else if ids == [] {
      assert left + right == right == items[|items| - |right|..];
      var k := |items| - |right|;
      assert k < |items| ==> items[k] == right[0];
    } else {
      var kept := PopBackTo(ids, items[0]);
      if kept == [] {
        assert items[0] !in ids;
        assert left + right == items[1..];
      } else {
        assert LastAt(ids, items[0], |kept| - 1) && left + right == ids[..|kept| - 1] + items;
      }
    }
  }

  /** A reply that is taken: the list is merged, the number still unfetched noted, and nothing else changes but that an
      implausible reply disconnects the peer. */
  lemma InventoryTaken(s: State, p: PeerId, items: seq<ItemId>, remaining: nat, known: set<ItemId>, implausible: bool)
    requires p in s.peers && s.peers[p].asked.Some? && Builds(s.peers[p].asked.value, items)
    requires !InSync(s.peers[p], items, remaining, known)
    ensures var s', peer := OnInventory(s, p, items, remaining, known, implausible), s.peers[p];
            var elsewhere := items != [] && exists q <- s.peers ::
              q != p && s.peers[q].connected && s.peers[q].idsToGet != [] && s.peers[q].idsToGet[0] == items[0];
            && p in s'.peers && Merged(peer.idsToGet, items, elsewhere, known, s'.peers[p].idsToGet)
            && s' == SetPeer(s, p, peer.(idsToGet := s'.peers[p].idsToGet, asked := None, unfetched := remaining,
                                         connected := peer.connected && !implausible))
  {
    AlignedMerges(s.peers[p].idsToGet, items, items != [] && FirstElsewhere(s, p, items[0]), known);
  }

  /** No announced id is lost: behind the first, every one is on the new list, unless the list was empty and the node
      has it. */
  lemma NothingAnnouncedIsLost(before: seq<ItemId>, items: seq<ItemId>, elsewhere: bool, known: set<ItemId>,
                               after: seq<ItemId>, i: nat)
    requires Merged(before, items, elsewhere, known, after) && i < |items| && (i > 0 || before == [])
    ensures items[i] in after || (before == [] && items[i] in known)
  {
    if before == [] {
      var k :| 0 <= k <= |items| && after == items[k..] && (forall j :: 0 <= j < k ==> items[j] in known);
      if i >= k { assert after[i - k] == items[i]; }
    } else if items[0] in before {
      var m :| LastAt(before, items[0], m) && after == before[..m] + items;
      assert after[m + i] == items[i];
    } else {
      assert after[i - 1] == items[i];
    }
  }

  // ---- Requests

  /** A peer that is asked had nothing else to deliver, and afterwards owes exactly what is planned for it. */
  lemma OnlyIdlePeersAreAsked(s: State, plan: map<PeerId, set<ItemId>>, p: PeerId)
    requires ValidPlan(s, plan) && p in plan
    ensures && p in s.peers && s.peers[p].outstanding == {} && s.peers[p].normalRequests == {}
            && s.peers[p].asked.None? && s.peers[p].connected && s.peers[p].weNeedItems && !s.peers[p].inhibited
            && p in OnFetch(s, plan).peers && OnFetch(s, plan).peers[p].outstanding == plan[p]
  {
  }

  ghost predicate Asks(s: State, e: Event, x: ItemId) {
    e.Fetch? && exists p <- e.plan :: x in e.plan[p]
  }

  /** The block arrives from a peer that owes it, and not as the answer to a normal request. */
  ghost predicate Delivers(s: State, e: Event, x: ItemId) {
    && e.BlockMessage? && e.id == x && e.p in s.peers
    && e.message !in s.peers[e.p].normalRequests && x in s.peers[e.p].outstanding
  }

  /** The connection to the peer that owes the block is closed. */
  ghost predicate LosesPeer(s: State, e: Event, x: ItemId) {
    e.ConnectionClosed? && e.p in s.peers && x in s.peers[e.p].outstanding
  }

  /** The peer that owes the block does not have it. */
  ghost predicate Denies(s: State, e: Event, x: ItemId) {
    && e.NotAvailable? && e.id == x && e.p in s.peers
    && x !in s.peers[e.p].normalRequests && x in s.peers[e.p].outstanding
  }

  /** The block is next on some list, and goes from the backlog to the client. */
  ghost predicate HandsOver(s: State, e: Event, x: ItemId) {
    && e.Backlog? && e.id == x && !e.accepted
    && exists p <- s.peers :: s.peers[p].connected && s.peers[p].idsToGet != [] && s.peers[p].idsToGet[0] == x
  }

  /** A block is registered by being asked for, and stays so until it is delivered or its peer lost. */
  lemma RegistryExact(s: State, e: Event, x: ItemId)
    requires Enabled(s, e)
    ensures x in Apply(s, e).active <==> Asks(s, e, x) || (x in s.active && !Delivers(s, e, x) && !LosesPeer(s, e, x))
  {
    if e.Fetch? { assert x in AllPlanned(e.plan) <==> Asks(s, e, x); }
  }

  lemma FrontExact(peers: map<PeerId, Peer>, x: ItemId)
    ensures SomeFront(peers, peers.Keys, x) <==>
            exists p <- peers :: peers[p].connected && peers[p].idsToGet != [] && peers[p].idsToGet[0] == x
  {
    forall p <- peers
      ensures PopFront(peers[p], x) != peers[p] <==>
              peers[p].connected && peers[p].idsToGet != [] && peers[p].idsToGet[0] == x
    {
      if peers[p].idsToGet != [] { assert |peers[p].idsToGet[1..]| != |peers[p].idsToGet|; }
    }
  }

  /** A block enters the backlog by being delivered and leaves it by being handed over. */
  lemma ReceivedExact(s: State, e: Event, x: ItemId)
    requires Enabled(s, e)
    ensures Apply(s, e).received[x] ==
            s.received[x] + (if Delivers(s, e, x) then 1 else 0) - (if HandsOver(s, e, x) then 1 else 0)
  {
    if e.Backlog? { FrontExact(s.peers, e.id); }
  }

  lemma OthersOweTheSame(s: State, e: Event, p: PeerId)
    requires Enabled(s, e) && !e.Fetch? && !e.BlockMessage? && !e.NotAvailable?
    requires p in s.peers && p in Apply(s, e).peers
    ensures Apply(s, e).peers[p].outstanding == s.peers[p].outstanding
  {
  }

  /** A peer owes a block once it is asked, until it delivers or denies it. */
  lemma OutstandingExact(s: State, e: Event, p: PeerId, x: ItemId)
    requires Enabled(s, e) && p in s.peers && p in Apply(s, e).peers
    ensures x in Apply(s, e).peers[p].outstanding <==>
            || (e.Fetch? && p in e.plan && x in e.plan[p])
            || (x in s.peers[p].outstanding && !(e.BlockMessage? && e.p == p && Delivers(s, e, x)) &&
                !(e.NotAvailable? && e.p == p && Denies(s, e, x)))
  {
    if e.Fetch? {
      assert Apply(s, e).peers[p] == Requested(s.peers[p], e.plan, p);
    } else if !e.BlockMessage? && !e.NotAvailable? {
      OthersOweTheSame(s, e, p);
    }
  }

  /** A denial inhibits asking a peer that is syncing from us, and disconnects any other. */
  lemma DenialExact(s: State, e: Event, x: ItemId)
    requires Enabled(s, e) && Denies(s, e, x)
    ensures var peer, peer' := s.peers[e.p], Apply(s, e).peers[e.p];
            if peer.peerNeedsItems then peer'.inhibited && peer'.connected == peer.connected
            else !peer'.connected && peer'.inhibited == peer.inhibited
  {
  }

  /** A block that nobody asked the peer for disconnects it and changes nothing else. */
  lemma UnrequestedBlock(s: State, e: Event)
    requires Enabled(s, e) && e.BlockMessage?
    requires e.message !in s.peers[e.p].normalRequests && e.id !in s.peers[e.p].outstanding
    ensures Apply(s, e) == SetPeer(s, e.p, s.peers[e.p].(connected := false))
  {
  }

  // ---- Runs

  /** Steps from any state. */
  ghost predicate Path(states: seq<State>, events: seq<Event>) {
    && |states| == |events| + 1
    && forall i {:trigger events[i]} :: 0 <= i < |events| ==>
         Enabled(states[i], events[i]) && states[i + 1] == Apply(states[i], events[i])
  }

  ghost predicate Settled(states: seq<State>, events: seq<Event>, x: ItemId, k: int) {
    && 0 <= k < |events| && |states| == |events| + 1
    && (HandsOver(states[k], events[k], x) || LosesPeer(states[k], events[k], x))
  }

  /** No requested block drops out of sight: in every later state it is registered or in the backlog, unless it was
      handed to the client or the peer that owed it was lost on the way. */
  lemma {:induction false} RequestedIsAccounted(states: seq<State>, events: seq<Event>, x: ItemId, i: nat, j: nat)
    requires Path(states, events) && i <= j < |states| && x in states[i].active
    ensures x in states[j].active || x in states[j].received || exists k :: i <= k < j && Settled(states, events, x, k)
    decreases j
  {
    if i < j {
      RequestedIsAccounted(states, events, x, i, j - 1);
      RegistryExact(states[j - 1], events[j - 1], x);
      ReceivedExact(states[j - 1], events[j - 1], x);
      if HandsOver(states[j - 1], events[j - 1], x) || LosesPeer(states[j - 1], events[j - 1], x) {
        assert Settled(states, events, x, j - 1);
      }
    }
  }

  /** Registered, but owed by nobody. */
  ghost predicate Orphaned(s: State, x: ItemId) {
    x in s.active && forall p <- s.peers :: x !in s.peers[p].outstanding
  }

  /** A denial orphans the block: only the peer's side is cleared. */
  lemma DenialOrphans(s: State, e: Event, x: ItemId)
    requires Inv(s) && Enabled(s, e) && Denies(s, e, x)
    ensures Orphaned(Apply(s, e), x)
  {
    var s' := Apply(s, e);
    forall p <- s'.peers ensures x !in s'.peers[p].outstanding {
      if p != e.p { assert s.peers[p].outstanding !! s.peers[e.p].outstanding; }
    }
  }

  lemma OrphanStays(s: State, e: Event, x: ItemId)
    requires Orphaned(s, x) && Enabled(s, e)
    ensures Orphaned(Apply(s, e), x) && !Asks(s, e, x)
  {
    RegistryExact(s, e, x);
    var s' := Apply(s, e);
    if e.Fetch? {
      forall p <- e.plan ensures x !in e.plan[p] { assert Plannable(s, s.peers[p], e.plan[p]); }
    }
    forall p <- s'.peers ensures x !in s'.peers[p].outstanding {
      if p in s.peers { OutstandingExact(s, e, p, x); }
    }
  }

  /** Asking elsewhere for a denied block never happens: an orphaned block stays orphaned in every run, and no peer is
      asked for it again. */
  lemma {:induction false} OrphanForever(states: seq<State>, events: seq<Event>, x: ItemId, j: nat)
    requires Path(states, events) && Orphaned(states[0], x) && j < |states|
    ensures Orphaned(states[j], x) && (j < |events| ==> !Asks(states[j], events[j], x))
  {
    if j > 0 {
      OrphanForever(states, events, x, j - 1);
      OrphanStays(states[j - 1], events[j - 1], x);
    }
    if j < |events| { OrphanStays(states[j], events[j], x); }
  }

  lemma AskedIsOwed(s: State, e: Event, x: ItemId)
    requires Enabled(s, e) && Asks(s, e, x)
    ensures !Orphaned(Apply(s, e), x)
  {
    var p :| p in e.plan && x in e.plan[p];
    assert x in Apply(s, e).peers[p].outstanding;
  }

  lemma OwedUntilDenied(s: State, e: Event, x: ItemId)
    requires Enabled(s, e) && !Orphaned(s, x) && Orphaned(Apply(s, e), x)
    ensures Denies(s, e, x)
  {
    RegistryExact(s, e, x);
    var s' := Apply(s, e);
    if Asks(s, e, x) {
      AskedIsOwed(s, e, x);
    } else {
      var p :| p in s.peers && x in s.peers[p].outstanding;
      if p in s'.peers { OutstandingExact(s, e, p, x); }
    }
  }

  ghost predicate DeniedBefore(states: seq<State>, events: seq<Event>, x: ItemId, j: int) {
    exists k :: 0 <= k < j && DeniedAt(states, events, x, k)
  }

  ghost predicate DeniedAt(states: seq<State>, events: seq<Event>, x: ItemId, k: int) {
    0 <= k < |events| && |states| == |events| + 1 && Denies(states[k], events[k], x)
  }

  /** In every state of every run, a registered block is owed by some peer, unless the peer that owed it denied it. */
  lemma {:induction false} OrphanedIffDenied(states: seq<State>, events: seq<Event>, x: ItemId, j: nat)
    requires Run(states, events) && j < |states|
    ensures Orphaned(states[j], x) <==> DeniedBefore(states, events, x, j)
  {
    if j > 0 {
      OrphanedIffDenied(states, events, x, j - 1);
      var s, e := states[j - 1], events[j - 1];
      RunSafe(states, events, j - 1);
      assert DeniedAt(states, events, x, j - 1) <==> Denies(s, e, x);
      if Orphaned(s, x) { OrphanStays(s, e, x); }
      if Denies(s, e, x) { DenialOrphans(s, e, x); }
      if Orphaned(Apply(s, e), x) && !Orphaned(s, x) { OwedUntilDenied(s, e, x); }
    }
  }

  /** After a lost connection the block can be asked for again: it is no longer registered. */
  lemma LossFrees(s: State, e: Event, x: ItemId)
    requires Enabled(s, e) && LosesPeer(s, e, x)
    ensures x !in Apply(s, e).active
  {
    RegistryExact(s, e, x);
  }
}
