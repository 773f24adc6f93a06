/** Slot claims heard in any order.

    One observer hears fixed claims of other masters, from the claimants themselves or relayed in
    UPDATE messages, in any order and with repeats. The module says exactly when every complete
    order leaves each claimed slot with its highest-epoch claimant. */
module SlotConfluence {
  import opened Basics
  import opened ClusterModel

  /** What each claimant publishes. */
  type Claims = map<NodeId, Header>

  datatype Delivery =
    | FromClaimant(n: NodeId, adopt: bool)
    | Relayed(hdr: Header, n: NodeId, adopt: bool)

  function Known(v: View, n: NodeId): nat
    requires n in v.peers
  {
    v.peers[n].configEpoch
  }

  /** The claims are those of known masters other than the observer, no older than what is known,
      and no two masters, the observer included, publish the same epoch. */
  ghost predicate Fixed(v: View, claims: Claims) {
    && WellFormed(v)
    && (forall n | n in claims :: ClaimOk(v, n, claims[n]))
    && (forall n, m | n in claims && m in claims && n != m :: claims[n].configEpoch != claims[m].configEpoch)
  }

  predicate ClaimOk(v: View, n: NodeId, hdr: Header)
    requires WellFormed(v)
  {
    && n in v.peers && n != v.me && hdr.sender == n && hdr.slaveOf.None?
    && Known(v, n) <= hdr.configEpoch
    && (v.peers[v.me].isMaster ==> hdr.configEpoch != MyConfigEpoch(v))
  }

  /** The epoch the observer knows n by once every claim has been heard. */
  function Eventual(v: View, claims: Claims, n: NodeId): nat
    requires n in v.peers
  {
    if n in claims then claims[n].configEpoch else Known(v, n)
  }

  /** A relayed claim comes from another known node whose own header is not newer than its claim. */
  predicate Admissible(v: View, claims: Claims, d: Delivery) {
    && d.n in claims
    && (d.Relayed? ==> d.hdr.sender in v.peers && d.hdr.sender != v.me
                       && d.hdr.configEpoch <= Eventual(v, claims, d.hdr.sender))
  }

  predicate AllAdmissible(v: View, claims: Claims, order: seq<Delivery>) {
    forall k | 0 <= k < |order| :: Admissible(v, claims, order[k])
  }

  function Hear(v: View, claims: Claims, d: Delivery): View
    requires WellFormed(v) && d.n in claims && claims[d.n].sender != v.me && (d.Relayed? ==> d.hdr.sender != v.me)
  {
    match d
    case FromClaimant(n, adopt) => HandleGossip(v, claims[n], adopt).view
    case Relayed(hdr, n, adopt) => HandleUpdate(v, hdr, n, claims[n].configEpoch, claims[n].slots, adopt)
  }

  ghost function HearAll(v: View, claims: Claims, order: seq<Delivery>): (v': View)
    requires Fixed(v, claims) && AllAdmissible(v, claims, order)
    ensures WellFormed(v') && v'.me == v.me
    decreases |order|
  {
    if order == [] then v
    else
      var last := order[|order| - 1];
      var before := HearAll(v, claims, order[..|order| - 1]);
      assert Admissible(v, claims, last) && ClaimOk(v, last.n, claims[last.n]);
      HearShape(before, claims, last);
      Hear(before, claims, last)
  }

  lemma HearShape(v: View, claims: Claims, d: Delivery)
    requires WellFormed(v) && d.n in claims && claims[d.n].sender != v.me && (d.Relayed? ==> d.hdr.sender != v.me)
    ensures WellFormed(Hear(v, claims, d)) && Hear(v, claims, d).me == v.me
  {
    hide DirtySlots, StaleClaimReply, LosesASlot, SlotsOf, Rebind, Collides;
  }

  predicate Complete(claims: Claims, order: seq<Delivery>) {
    forall n | n in claims :: Mentions(order, n)
  }

  /** A claimant is heard directly. */
  predicate Mentions(order: seq<Delivery>, n: NodeId) {
    exists k :: 0 <= k < |order| && order[k].FromClaimant? && order[k].n == n
  }

  /** Slot j, if anyone claims it, is bound to its claimant with the highest epoch. */
  predicate BoundToHighest(owner: seq<Option<NodeId>>, claims: Claims, j: nat)
    requires j < |owner|
  {
    forall n | n in claims && j in claims[n].slots ::
      && owner[j].Some? && owner[j].value in claims && j in claims[owner[j].value].slots
      && claims[n].configEpoch <= claims[owner[j].value].configEpoch
  }

  predicate Settled(v: View, claims: Claims) {
    forall j | 0 <= j < |v.owner| :: BoundToHighest(v.owner, claims, j)
  }

  /** The present owner of j does not stand in the way: it claims j itself, or it will be known by
      a smaller epoch than some claimant of j. */
  predicate Yields(v: View, claims: Claims, j: nat)
    requires WellFormed(v) && j < |v.owner|
  {
    v.owner[j].Some? && !(v.owner[j].value in claims && j in claims[v.owner[j].value].slots)
    && (exists n :: n in claims && j in claims[n].slots)
    ==> exists n :: n in claims && j in claims[n].slots && Eventual(v, claims, v.owner[j].value) < claims[n].configEpoch
  }

  // ---- one delivery ----

  /** v' is v with claimant n known by epoch e and slots rebound to n where that is allowed. */
  predicate Claimed(v: View, n: NodeId, e: nat, slots: set<nat>, v': View) {
    && WellFormed(v) && WellFormed(v') && v'.me == v.me && v'.peers.Keys == v.peers.Keys && n in v.peers
    && |v'.owner| == |v.owner|
    && (forall m | m in v.peers :: Known(v', m) == if m == n then e else Known(v, m))
    && (v'.peers[v.me].isMaster ==> v.peers[v.me].isMaster)
    && (forall j | 0 <= j < |v.owner| :: v'.owner[j] ==
          if j in slots && v.owner[j] != Some(n) && (v.owner[j].None? || Known(v, v.owner[j].value) < e)
          then Some(n) else v.owner[j])
  }

  lemma UpdateClaims(v: View, n: NodeId, e: nat, slots: set<nat>, adopt: bool)
    requires WellFormed(v) && n in v.peers && n != v.me && Known(v, n) == e
    ensures Claimed(v, n, e, slots, UpdateSlots(v, n, e, slots, adopt))
  {
    hide LosesASlot, SlotsOf;
  }

  /** Skipping the update when the bitmaps match changes nothing. */
  lemma SkipIsHarmless(v: View, n: NodeId, e: nat, slots: set<nat>)
    requires WellFormed(v) && n in v.peers && n != v.me && SlotsOf(v.owner, n) == slots
    ensures Rebind(v, n, e, slots) == v.owner
  {
    forall j | 0 <= j < |v.owner| ensures !Rebinds(v, n, e, slots, j) {
      assert j in slots <==> j in SlotsOf(v.owner, n);
    }
  }

  lemma ClaimedFrom(v: View, v1: View, n: NodeId, e: nat, slots: set<nat>, v': View)
    requires WellFormed(v) && v1.me == v.me && v1.owner == v.owner && v1.peers.Keys == v.peers.Keys
    requires n in v.peers && n != v.me && v1.peers == v.peers[n := v1.peers[n]] && Claimed(v1, n, e, slots, v')
    ensures Claimed(v, n, e, slots, v')
  {
  }

  lemma HeaderOfClaimant(v: View, hdr: Header)
    requires WellFormed(v) && ClaimOk(v, hdr.sender, hdr)
    ensures var v1 := SwitchRole(ApplyHeader(v, hdr), hdr);
            && v1.owner == v.owner && v1.me == v.me && v1.peers.Keys == v.peers.Keys
            && v1.peers == v.peers[hdr.sender := v1.peers[hdr.sender]]
            && Known(v1, hdr.sender) == hdr.configEpoch && v1.peers[hdr.sender].isMaster
  {
  }

  lemma NoCollision(v: View, hdr: Header, v2: View)
    requires WellFormed(v) && ClaimOk(v, hdr.sender, hdr) && Claimed(v, hdr.sender, hdr.configEpoch, hdr.slots, v2)
    ensures RepairCollision(v2, hdr) == v2
  {
  }

  lemma GossipClaims(v: View, hdr: Header, adopt: bool)
    requires WellFormed(v) && ClaimOk(v, hdr.sender, hdr)
    ensures Claimed(v, hdr.sender, hdr.configEpoch, hdr.slots, HandleGossip(v, hdr, adopt).view)
  {
    hide SlotsOf, StaleClaimReply, UpdateSlots, RepairCollision, Claimed, SwitchRole, ApplyHeader, WellFormed;
    var n := hdr.sender;
    var v1 := SwitchRole(ApplyHeader(v, hdr), hdr);
    HeaderOfClaimant(v, hdr);
    UpdateClaims(v1, n, hdr.configEpoch, hdr.slots, adopt);
    if !DirtySlots(v1, hdr) { RebindIsNone(v1, n, hdr.configEpoch, hdr.slots); }
    var v2 := ApplyClaim(v1, hdr, adopt);
    ClaimedFrom(v, v1, n, hdr.configEpoch, hdr.slots, v2);
    NoCollision(v, hdr, v2);
  }

  lemma RebindIsNone(v: View, n: NodeId, e: nat, slots: set<nat>)
    requires WellFormed(v) && n in v.peers && n != v.me && SlotsOf(v.owner, n) == slots && Known(v, n) == e
    ensures Claimed(v, n, e, slots, v)
  {
    SkipIsHarmless(v, n, e, slots);
    forall j | 0 <= j < |v.owner| ensures v.owner[j] == Rebind(v, n, e, slots)[j] {}
  }

  lemma UpdateMessageClaims(v: View, hdr: Header, n: NodeId, e: nat, slots: set<nat>, adopt: bool)
    requires WellFormed(v) && hdr.sender in v.peers && hdr.sender != v.me && n in v.peers && n != v.me
    ensures var v1 := ApplyHeader(v, hdr);
            var v' := HandleUpdate(v, hdr, n, e, slots, adopt);
            if Known(v1, n) >= e then v' == v1 else Claimed(v1, n, e, slots, v')
  {
    hide UpdateSlots, Claimed, ApplyHeader;
    var v1 := ApplyHeader(v, hdr);
    if Known(v1, n) < e {
      var v2 := SetPeer(v1, n, SetAsMaster(v1.peers[n]).(configEpoch := e));
      UpdateClaims(v2, n, e, slots, adopt);
      ClaimedFrom(v1, v2, n, e, slots, UpdateSlots(v2, n, e, slots, adopt));
    }
  }

  /** Every rebind gives the slot to an owner known by a strictly greater epoch. */
  lemma RebindRaises(v: View, n: NodeId, e: nat, slots: set<nat>, v': View, j: nat)
    requires Claimed(v, n, e, slots, v') && j < |v.owner| && v'.owner[j] != v.owner[j]
    ensures v'.owner[j] == Some(n) && j in slots
    ensures v.owner[j].Some? ==> Known(v, v.owner[j].value) < Known(v', n)
  {
  }

  // ---- what every order keeps ----

  /** The owner of j is the initial one or a claimant already heard, and is known by an epoch no
      smaller than that of any claimant of j already heard. */
  predicate OwnerOk(v0: View, claims: Claims, heard: set<NodeId>, v: View, j: nat)
    requires WellFormed(v) && j < |v0.owner| == |v.owner| && heard <= claims.Keys
  {
    && (v.owner[j] == v0.owner[j]
        || (v.owner[j].Some? && v.owner[j].value in heard && j in claims[v.owner[j].value].slots))
    && (forall n | n in heard && j in claims[n].slots ::
          v.owner[j].Some? && claims[n].configEpoch <= Known(v, v.owner[j].value))
  }

  ghost predicate Inv(v0: View, claims: Claims, heard: set<NodeId>, v: View) {
    && WellFormed(v0) && WellFormed(v) && v.me == v0.me && v.peers.Keys == v0.peers.Keys
    && |v.owner| == |v0.owner| && heard <= claims.Keys
    && (v.peers[v.me].isMaster ==> v0.peers[v.me].isMaster)
    && (forall n | n in v.peers :: Known(v0, n) <= Known(v, n) <= Eventual(v0, claims, n))
    && (forall n | n in heard :: n in v.peers && Known(v, n) == claims[n].configEpoch)
    && (forall j | 0 <= j < |v.owner| :: OwnerOk(v0, claims, heard, v, j))
  }

  lemma ClaimKeepsOwner(v0: View, claims: Claims, heard: set<NodeId>, v: View, n: NodeId, v': View, j: nat)
    requires heard <= claims.Keys && n in claims && Claimed(v, n, claims[n].configEpoch, claims[n].slots, v')
    requires Known(v, n) <= claims[n].configEpoch
    requires j < |v0.owner| == |v.owner| && OwnerOk(v0, claims, heard, v, j)
    ensures OwnerOk(v0, claims, heard + {n}, v', j)
  {
  }

  lemma ClaimKeeps(v0: View, claims: Claims, heard: set<NodeId>, v: View, n: NodeId, v': View)
    requires Fixed(v0, claims) && Inv(v0, claims, heard, v) && n in claims
    requires Claimed(v, n, claims[n].configEpoch, claims[n].slots, v')
    ensures Inv(v0, claims, heard + {n}, v')
  {
    hide OwnerOk, WellFormed;
    assert ClaimOk(v0, n, claims[n]);
    forall j | 0 <= j < |v.owner| ensures OwnerOk(v0, claims, heard + {n}, v', j) {
      ClaimKeepsOwner(v0, claims, heard, v, n, v', j);
    }
  }

  lemma HeaderKeeps(v0: View, claims: Claims, heard: set<NodeId>, v: View, hdr: Header)
    requires Fixed(v0, claims) && Inv(v0, claims, heard, v)
    requires hdr.sender in v0.peers && hdr.sender != v.me && hdr.configEpoch <= Eventual(v0, claims, hdr.sender)
    ensures Inv(v0, claims, heard, ApplyHeader(v, hdr))
  {
    hide OwnerOk, WellFormed, Fixed;
    var v' := ApplyHeader(v, hdr);
    assert forall n | n in v.peers :: Known(v, n) <= Known(v', n);
    forall j | 0 <= j < |v.owner| ensures OwnerOk(v0, claims, heard, v', j) {
      OwnerOkLater(v0, claims, heard, v, v', j);
    }
  }

  lemma OwnerOkLater(v0: View, claims: Claims, heard: set<NodeId>, v: View, v': View, j: nat)
    requires WellFormed(v) && WellFormed(v') && heard <= claims.Keys && v'.owner == v.owner
             && v'.peers.Keys == v.peers.Keys
    requires forall n | n in v.peers :: Known(v, n) <= Known(v', n)
    requires j < |v0.owner| == |v.owner| && OwnerOk(v0, claims, heard, v, j)
    ensures OwnerOk(v0, claims, heard, v', j)
  {
  }

  lemma InvClaimOk(v0: View, claims: Claims, heard: set<NodeId>, v: View, n: NodeId)
    requires Fixed(v0, claims) && Inv(v0, claims, heard, v) && n in claims
    ensures ClaimOk(v, n, claims[n])
  {
    assert ClaimOk(v0, n, claims[n]);
    assert v.me !in claims;
  }

  /** The claimants whose slots have been taken over by the observer. */
  lemma HearKeeps(v0: View, claims: Claims, heard: set<NodeId>, v: View, d: Delivery) returns (heard': set<NodeId>)
    requires Fixed(v0, claims) && Inv(v0, claims, heard, v) && Admissible(v0, claims, d)
    ensures claims[d.n].sender != v.me && (d.Relayed? ==> d.hdr.sender != v.me)
    ensures Inv(v0, claims, heard', Hear(v, claims, d))
    ensures heard <= heard' && (d.FromClaimant? ==> d.n in heard')
  {
    InvClaimOk(v0, claims, heard, v, d.n);
    hide Fixed, Claimed, HandleGossip, HandleUpdate, ApplyHeader;
    match d
    case FromClaimant(n, adopt) =>
      GossipClaims(v, claims[n], adopt);
      ClaimKeeps(v0, claims, heard, v, n, HandleGossip(v, claims[n], adopt).view);
      heard' := heard + {n};
    case Relayed(hdr, n, adopt) =>
      HeaderKeeps(v0, claims, heard, v, hdr);
      UpdateMessageClaims(v, hdr, n, claims[n].configEpoch, claims[n].slots, adopt);
      var v1 := ApplyHeader(v, hdr);
      if Known(v1, n) >= claims[n].configEpoch {
        heard' := heard;
      } else {
        ClaimKeeps(v0, claims, heard, v1, n, HandleUpdate(v, hdr, n, claims[n].configEpoch, claims[n].slots, adopt));
        heard' := heard + {n};
      }
  }

  lemma NothingHeard(v: View, claims: Claims)
    requires Fixed(v, claims)
    ensures Inv(v, claims, {}, v)
  {
    hide WellFormed;
    assert forall n | n in claims :: ClaimOk(v, n, claims[n]);
  }

  lemma {:induction false} HearAllKeeps(v: View, claims: Claims, order: seq<Delivery>) returns (heard: set<NodeId>)
    requires Fixed(v, claims) && AllAdmissible(v, claims, order)
    ensures Inv(v, claims, heard, HearAll(v, claims, order))
    ensures forall k | 0 <= k < |order| && order[k].FromClaimant? :: order[k].n in heard
    decreases |order|
  {
    hide Hear, Admissible, Fixed, Inv;
    if order == [] {
      heard := {};
      NothingHeard(v, claims);
    } else {
      var before := HearAllKeeps(v, claims, order[..|order| - 1]);
      heard := HearKeeps(v, claims, before, HearAll(v, claims, order[..|order| - 1]), order[|order| - 1]);
    }
  }

  // ---- the two halves ----

  lemma YieldsThenBound(v0: View, claims: Claims, v: View, j: nat)
    requires Fixed(v0, claims) && Inv(v0, claims, claims.Keys, v) && j < |v0.owner| && Yields(v0, claims, j)
    ensures BoundToHighest(v.owner, claims, j)
  {
    assert OwnerOk(v0, claims, claims.Keys, v, j);
  }

  lemma AllYieldThenSettled(v: View, claims: Claims, order: seq<Delivery>)
    requires Fixed(v, claims) && AllAdmissible(v, claims, order) && Complete(claims, order)
    requires forall j | 0 <= j < |v.owner| :: Yields(v, claims, j)
    ensures Settled(HearAll(v, claims, order), claims)
  {
    hide HearAll, Admissible, Yields, BoundToHighest, Fixed;
    var heard := HearAllKeeps(v, claims, order);
    assert heard == claims.Keys;
    forall j | 0 <= j < |v.owner| ensures BoundToHighest(HearAll(v, claims, order).owner, claims, j) {
      YieldsThenBound(v, claims, HearAll(v, claims, order), j);
    }
  }

  /** An order in which `first` is heard before the claimants in `names`. */
  lemma OrderOf(first: seq<Delivery>, names: set<NodeId>) returns (order: seq<Delivery>)
    ensures first <= order
    ensures forall k | |first| <= k < |order| :: order[k].FromClaimant? && order[k].n in names
    ensures forall n | n in names || Mentions(first, n) :: Mentions(order, n)
  {
    if names == {} {
      order := first;
    } else {
      var n :| n in names;
      var rest := OrderOf(first, names - {n});
      order := rest + [FromClaimant(n, false)];
      assert order[|rest|] == FromClaimant(n, false);
      forall m | Mentions(rest, m) ensures Mentions(order, m) {
        var k :| 0 <= k < |rest| && rest[k].FromClaimant? && rest[k].n == m;
        assert order[k] == rest[k];
      }
    }
  }

  /** Nobody who claims j can take it from o, which does not claim it. */
  predicate Blocks(v: View, claims: Claims, o: NodeId, j: nat)
    requires o in v.peers
  {
    && (o in claims ==> j !in claims[o].slots)
    && (forall n | n in claims && j in claims[n].slots :: claims[n].configEpoch <= Eventual(v, claims, o))
  }

  lemma OwnerStaysOnce(v0: View, claims: Claims, heard: set<NodeId>, v: View, n: NodeId, adopt: bool, o: NodeId, j: nat)
    requires Fixed(v0, claims) && Inv(v0, claims, heard, v) && n in claims && claims[n].sender != v.me
    requires j < |v.owner| && v.owner[j] == Some(o) && o in v0.peers && Blocks(v0, claims, o, j)
    requires o in claims ==> o in heard || n == o
    ensures var owner := HandleGossip(v, claims[n], adopt).view.owner; |owner| == |v.owner| && owner[j] == Some(o)
  {
    InvClaimOk(v0, claims, heard, v, n);
    hide HandleGossip, Fixed;
    GossipClaims(v, claims[n], adopt);
  }

  lemma {:induction false} OwnerStays(v: View, claims: Claims, order: seq<Delivery>, o: NodeId, j: nat)
    requires Fixed(v, claims) && AllAdmissible(v, claims, order)
    requires forall k | 0 <= k < |order| :: order[k].FromClaimant?
    requires j < |v.owner| && v.owner[j] == Some(o) && Blocks(v, claims, o, j)
    requires o in claims && order != [] ==> order[0].n == o
    ensures |HearAll(v, claims, order).owner| == |v.owner| && HearAll(v, claims, order).owner[j] == Some(o)
    decreases |order|
  {
    hide Admissible, Fixed, Blocks, HandleGossip;
    if order != [] {
      var prefix, last := order[..|order| - 1], order[|order| - 1];
      var heard := HearAllKeeps(v, claims, prefix);
      OwnerStays(v, claims, prefix, o, j);
      var before := HearAll(v, claims, prefix);
      assert Admissible(v, claims, last);
      var all := HearAllKeeps(v, claims, order);
      if o in claims && prefix != [] { assert prefix[0] == order[0]; }
      AdmissibleSender(v, claims, last);
      OwnerStaysOnce(v, claims, heard, before, last.n, last.adopt, o, j);
    }
  }

  lemma AdmissibleSender(v: View, claims: Claims, d: Delivery)
    requires Fixed(v, claims) && Admissible(v, claims, d)
    ensures d.n in claims && claims[d.n].sender != v.me
  {
    assert ClaimOk(v, d.n, claims[d.n]);
  }

  lemma BlockedOrder(v: View, claims: Claims, j: nat) returns (order: seq<Delivery>)
    requires Fixed(v, claims) && j < |v.owner| && !Yields(v, claims, j)
    ensures AllAdmissible(v, claims, order) && Complete(claims, order) && !Settled(HearAll(v, claims, order), claims)
  {
    var o := v.owner[j].value;
    assert Blocks(v, claims, o, j);
    var first := if o in claims then [FromClaimant(o, false)] else [];
    order := OrderOf(first, claims.Keys);
    assert AllAdmissible(v, claims, order) by {
      hide Fixed, Yields, Blocks;
      forall k | 0 <= k < |order| ensures Admissible(v, claims, order[k]) {
        if k < |first| { assert order[k] == first[k]; }
      }
    }
    hide HearAll, Fixed, Blocks;
    OwnerStays(v, claims, order, o, j);
    assert !BoundToHighest(HearAll(v, claims, order).owner, claims, j);
  }

  // ---- the theorem ----

  ghost predicate Confluent(v: View, claims: Claims) {
    Fixed(v, claims) &&
    forall order | AllAdmissible(v, claims, order) && Complete(claims, order) ::
      Settled(HearAll(v, claims, order), claims)
  }

  /** Every complete order, with any repeats and any relayed claims in between, binds every claimed
      slot to its highest-epoch claimant, exactly when every present owner yields. */
  lemma ConfluentIffYields(v: View, claims: Claims)
    requires Fixed(v, claims)
    ensures Confluent(v, claims) <==> forall j | 0 <= j < |v.owner| :: Yields(v, claims, j)
  {
    assert WellFormed(v);
    hide Fixed, AllAdmissible, Complete, Settled, HearAll, Yields;
    if j :| 0 <= j < |v.owner| && !Yields(v, claims, j) {
      var order := BlockedOrder(v, claims, j);
    } else {
      forall order | AllAdmissible(v, claims, order) && Complete(claims, order)
        ensures Settled(HearAll(v, claims, order), claims)
      {
        AllYieldThenSettled(v, claims, order);
      }
    }
  }

  /** Node 1 owns both slots but claims only slot 1, with a greater epoch than node 2, which claims
      slot 0. */
  lemma ShedSlot() returns (v: View, claims: Claims)
    ensures Fixed(v, claims) && |v.owner| == 2 && !Yields(v, claims, 0)
    ensures forall j | 0 <= j < |v.owner| :: v.owner[j].Some? && v.owner[j].value in claims
    ensures forall n, j | n in claims && j in claims[n].slots :: j < |v.owner|
  {
    var peer := Peer(1, true, None, false, false);
    v := View(0, 5, 0, Auth(false, false, 0, 0), map[0 := peer, 1 := peer, 2 := peer], [Some(1), Some(1)]);
    var h1, h2 := Header(1, 5, 5, {1}, None, false), Header(2, 5, 3, {0}, None, false);
    claims := map[1 := h1, 2 := h2];
    assert ClaimOk(v, 1, h1) && ClaimOk(v, 2, h2);
    assert 2 in claims && 0 in claims[2].slots;
  }

  /** Being owned by a claimant is not enough for a slot to settle. */
  lemma OwnedByClaimantMayNotSettle() returns (v: View, claims: Claims, order: seq<Delivery>)
    ensures Fixed(v, claims) && AllAdmissible(v, claims, order) && Complete(claims, order)
    ensures forall j | 0 <= j < |v.owner| :: v.owner[j].Some? && v.owner[j].value in claims
    ensures !Settled(HearAll(v, claims, order), claims)
  {
    hide Fixed, AllAdmissible, Complete, Settled, HearAll, Yields;
    v, claims := ShedSlot();
    order := BlockedOrder(v, claims, 0);
  }
}
