/** What each packet does to a view, said from outside: the views before and after and the message decide
    it, without a word about how the handler works. */
module PacketEffects {
  import opened Basics
  import opened ClusterModel

  /** The config epoch n is known by once the header has been taken in. */
  function Learned(v: View, hdr: Header, n: NodeId): nat
    requires n in v.peers
  {
    if n == hdr.sender && hdr.configEpoch > v.peers[n].configEpoch then hdr.configEpoch else v.peers[n].configEpoch
  }

  lemma HeaderLearned(v: View, hdr: Header)
    requires WellFormed(v) && hdr.sender in v.peers
    ensures var v1 := ApplyHeader(v, hdr);
            && v1.owner == v.owner && v1.me == v.me && v1.auth == v.auth && v1.lastVoteEpoch == v.lastVoteEpoch
            && v1.currentEpoch == (if hdr.currentEpoch > v.currentEpoch then hdr.currentEpoch else v.currentEpoch)
            && v1.peers.Keys == v.peers.Keys
            && forall n | n in v.peers :: v1.peers[n] == v.peers[n].(configEpoch := Learned(v, hdr, n))
  {
  }

  /** What a node publishes: a master its own slots and epoch, a replica its master's. */
  lemma Published(v: View, j: nat)
    requires WellFormed(v)
    ensures var hdr, self := MakeHeader(v), v.peers[v.me];
            && hdr.sender == v.me && hdr.currentEpoch == v.currentEpoch && hdr.slaveOf == self.master
            && var n := if self.isMaster then v.me else self.master.value;
               && hdr.configEpoch == v.peers[n].configEpoch
               && (j in hdr.slots <==> j < |v.owner| && v.owner[j] == Some(n))
  {
  }

  // ---- votes ----

  /** An owner of a claimed slot is known by a greater epoch than the request's. */
  predicate ClaimOutdated(v: View, hdr: Header)
    requires WellFormed(v)
  {
    exists j | 0 <= j < |v.owner| ::
      j in hdr.slots && v.owner[j].Some? && Learned(v, hdr, v.owner[j].value) > hdr.currentEpoch
  }

  /** Whom a vote may go to: this node is a voter, the epoch is current and not voted in, and the sender is a
      replica whose master is down. */
  predicate Deserves(v: View, hdr: Header, force: bool, timely: bool)
    requires WellFormed(v)
  {
    var self := v.peers[v.me];
    && hdr.sender in v.peers
    && ((self.isMaster && exists j | 0 <= j < |v.owner| :: v.owner[j] == Some(v.me)) || self.arbiter)
    && v.currentEpoch <= hdr.currentEpoch != v.lastVoteEpoch
    && hdr.slaveOf.Some? && v.peers[hdr.sender].master.Some?
    && (v.peers[v.peers[hdr.sender].master.value].failed || force)
    && timely && !ClaimOutdated(v, hdr)
  }

  lemma OwnsSome(owner: seq<Option<NodeId>>, n: NodeId)
    ensures SlotsOf(owner, n) != {} <==> exists j | 0 <= j < |owner| :: owner[j] == Some(n)
  {
    if j :| 0 <= j < |owner| && owner[j] == Some(n) { assert j in SlotsOf(owner, n); }
    if SlotsOf(owner, n) != {} { var j :| j in SlotsOf(owner, n); }
  }

  /** A request is answered exactly if its sender deserves the vote; the vote is for the request's epoch and is
      recorded, and nothing else is decided by it. */
  lemma VoteGrantedIff(v: View, hdr: Header, force: bool, timely: bool)
    requires WellFormed(v) && hdr.sender != v.me
    ensures var r := HandleAuthRequest(v, hdr, force, timely);
            && (r.reply.Some? <==> Deserves(v, hdr, force, timely))
            && (r.reply.Some? ==> && r.reply.value.AuthAck? && r.reply.value.hdr.sender == v.me
                                  && r.reply.value.hdr.currentEpoch == hdr.currentEpoch
                                  && r.view.lastVoteEpoch == r.view.currentEpoch == hdr.currentEpoch)
            && (r.reply.None? ==> r.view.lastVoteEpoch == v.lastVoteEpoch)
            && r.view.owner == v.owner && r.view.auth == v.auth
  {
    if hdr.sender in v.peers {
      HeaderLearned(v, hdr);
      OwnsSome(v.owner, v.me);
      hide SlotsOf, ApplyHeader;
    }
  }

  /** An ack is counted exactly if it comes from a voter and is not older than the request. */
  lemma AckCountedIff(v: View, hdr: Header)
    requires WellFormed(v) && hdr.sender != v.me
    ensures var v' := HandleAuthAck(v, hdr);
            var counts := && hdr.sender in v.peers && v.peers[hdr.sender].isMaster
                          && (v.peers[hdr.sender].arbiter
                            || exists j | 0 <= j < |v.owner| :: v.owner[j] == Some(hdr.sender))
                          && hdr.currentEpoch >= v.auth.epoch;
            && v'.auth == (if counts then v.auth.(count := v.auth.count + 1) else v.auth)
            && v'.owner == v.owner && v'.lastVoteEpoch == v.lastVoteEpoch
  {
    if hdr.sender in v.peers {
      HeaderLearned(v, hdr);
      OwnsSome(v.owner, hdr.sender);
      hide SlotsOf, ApplyHeader;
    }
  }

  /** FAIL marks the node named and nothing else, and never this node itself. */
  lemma FailMarks(v: View, hdr: Header, n: NodeId, m: NodeId)
    requires WellFormed(v) && hdr.sender != v.me && m in v.peers
    ensures var v' := HandleFail(v, hdr, n);
            && m in v'.peers && v'.owner == v.owner
            && v'.peers[m].failed == (v.peers[m].failed || (hdr.sender in v.peers && m == n && n != v.me))
            && v'.peers[m].isMaster == v.peers[m].isMaster && v'.peers[m].master == v.peers[m].master
  {
    if hdr.sender in v.peers {
      HeaderLearned(v, hdr);
      hide ApplyHeader;
    }
  }

  // ---- roles ----

  predicate RoleChanged(v: View, v': View)
    requires v.me in v.peers && v.me in v'.peers
  {
    v'.peers[v.me].isMaster != v.peers[v.me].isMaster || v'.peers[v.me].master != v.peers[v.me].master
  }

  /** This node, or its master, was left without slots in favour of n, and this node is free to follow. */
  predicate LeftFor(v: View, v': View, n: NodeId, adopt: bool)
    requires WellFormed(v)
  {
    var self := v.peers[v.me];
    var former := if self.isMaster then v.me else self.master.value;
    && adopt
    && |v'.owner| == |v.owner|
    && (exists j | 0 <= j < |v.owner| :: v.owner[j] == Some(former) && v'.owner[j] == Some(n))
    && (forall j | 0 <= j < |v'.owner| :: v'.owner[j] != Some(former) && v'.owner[j] != Some(v.me))
    && !self.arbiter
  }

  lemma OwnsNone(owner: seq<Option<NodeId>>, n: NodeId)
    ensures SlotsOf(owner, n) == {} <==> forall j | 0 <= j < |owner| :: owner[j] != Some(n)
  {
    OwnsSome(owner, n);
  }

  lemma UpdateFollows(v: View, n: NodeId, epoch: nat, slots: set<nat>, adopt: bool)
    requires WellFormed(v) && n in v.peers && n != v.me
    ensures var v' := UpdateSlots(v, n, epoch, slots, adopt);
            && v'.me == v.me && v.me in v'.peers
            && (RoleChanged(v, v') <==> LeftFor(v, v', n, adopt))
            && (RoleChanged(v, v') ==> !v'.peers[v.me].isMaster && v'.peers[v.me].master == Some(n))
  {
    var owner := Rebind(v, n, epoch, slots);
    OwnsNone(owner, CurMaster(v));
    OwnsNone(owner, v.me);
    assert forall j | 0 <= j < |v.owner| :: owner[j] == if Rebinds(v, n, epoch, slots, j) then Some(n) else v.owner[j];
    hide SlotsOf, Rebind;
  }

  /** Where no slot went to n, nobody was left for n. */
  lemma NothingLeft(v: View, v': View, n: NodeId, adopt: bool)
    requires WellFormed(v) && |v'.owner| == |v.owner|
    requires forall j | 0 <= j < |v.owner| :: v'.owner[j] == v.owner[j] || v'.owner[j].None?
    ensures !LeftFor(v, v', n, adopt)
  {
  }

  /** The sender's role and master become what its header says, and a master that reports a master loses
      exactly its slots. */
  lemma SenderRole(v: View, hdr: Header)
    requires WellFormed(v) && hdr.sender in v.peers && hdr.sender != v.me
    ensures var v1 := SwitchRole(ApplyHeader(v, hdr), hdr);
            && v1.me == v.me && v1.peers.Keys == v.peers.Keys && |v1.owner| == |v.owner|
            && v1.peers[hdr.sender].isMaster == hdr.slaveOf.None? && v1.peers[hdr.sender].arbiter == hdr.arbiter
            && v1.peers[hdr.sender].configEpoch == Learned(v, hdr, hdr.sender)
            && (hdr.slaveOf.Some? && hdr.slaveOf.value in v.peers ==> v1.peers[hdr.sender].master == hdr.slaveOf)
            && (forall n | n in v.peers && n != hdr.sender :: v1.peers[n] == v.peers[n])
            && forall j | 0 <= j < |v.owner| ::
                 v1.owner[j] == if hdr.slaveOf.Some? && v.peers[hdr.sender].isMaster && v.owner[j] == Some(hdr.sender)
                                then None else v.owner[j]
  {
    HeaderLearned(v, hdr);
    hide ApplyHeader;
  }

  lemma ReplicaClaimsNothing(v: View, hdr: Header, adopt: bool)
    requires WellFormed(v) && hdr.sender in v.peers && hdr.sender != v.me && hdr.slaveOf.Some?
    ensures HandleGossip(v, hdr, adopt).view == SwitchRole(ApplyHeader(v, hdr), hdr)
  {
    SenderRole(v, hdr);
    hide SwitchRole, ApplyHeader;
  }

  /** What the role switch, the claim and the repair of a collision do to this node's own entry and the table. */
  lemma GossipStages(v: View, hdr: Header, adopt: bool)
    requires WellFormed(v) && hdr.sender in v.peers && hdr.sender != v.me && hdr.slaveOf.None?
    ensures var v1 := SwitchRole(ApplyHeader(v, hdr), hdr);
            var v2 := UpdateSlots(v1, hdr.sender, hdr.configEpoch, hdr.slots, adopt);
            var v' := HandleGossip(v, hdr, adopt).view;
            && v'.me == v.me && v.me in v'.peers && v.me in v2.peers && v1.owner == v.owner
            && v1.peers[v.me] == v.peers[v.me]
            && if SlotsOf(v1.owner, hdr.sender) == hdr.slots then v'.owner == v.owner && !RoleChanged(v, v')
               else && v'.owner == v2.owner && v'.peers[v.me].isMaster == v2.peers[v.me].isMaster
                    && v'.peers[v.me].master == v2.peers[v.me].master
  {
    SenderRole(v, hdr);
    hide SwitchRole, ApplyHeader, UpdateSlots, SlotsOf;
    var v1 := SwitchRole(ApplyHeader(v, hdr), hdr);
    assert v1.owner == v.owner;
    UpdateShape(v1, hdr.sender, hdr.configEpoch, hdr.slots, adopt);
  }

  lemma UpdateShape(v: View, n: NodeId, epoch: nat, slots: set<nat>, adopt: bool)
    requires WellFormed(v) && n in v.peers
    ensures var v' := UpdateSlots(v, n, epoch, slots, adopt);
            v'.me == v.me && v'.peers.Keys == v.peers.Keys && |v'.owner| == |v.owner|
  {
  }

  /** Gossip makes this node change its role or master exactly if it, or its master, lost its last slot and one
      to the sender, and it serves none, is no arbiter and may adopt; then it follows the sender. */
  lemma GossipFollows(v: View, hdr: Header, adopt: bool)
    requires WellFormed(v) && hdr.sender != v.me
    ensures var v' := HandleGossip(v, hdr, adopt).view;
            && v'.me == v.me && v.me in v'.peers
            && (RoleChanged(v, v') <==> LeftFor(v, v', hdr.sender, adopt))
            && (RoleChanged(v, v') ==> !v'.peers[v.me].isMaster && v'.peers[v.me].master == Some(hdr.sender))
  {
    if hdr.sender !in v.peers {
      NothingLeft(v, v, hdr.sender, adopt);
    } else if hdr.slaveOf.Some? {
      ReplicaClaimsNothing(v, hdr, adopt);
      SenderRole(v, hdr);
      NothingLeft(v, HandleGossip(v, hdr, adopt).view, hdr.sender, adopt);
    } else {
      GossipStages(v, hdr, adopt);
      SenderRole(v, hdr);
      hide HandleGossip, SwitchRole, ApplyHeader, UpdateSlots, SlotsOf;
      var v1 := SwitchRole(ApplyHeader(v, hdr), hdr);
      var v' := HandleGossip(v, hdr, adopt).view;
      if SlotsOf(v1.owner, hdr.sender) == hdr.slots {
        NothingLeft(v, v', hdr.sender, adopt);
      } else {
        UpdateFollows(v1, hdr.sender, hdr.configEpoch, hdr.slots, adopt);
      }
    }
  }

  /** So does an UPDATE about another node. An UPDATE about this node itself makes a replica a master if it is
      newer than what is known. */
  lemma UpdateMessageFollows(v: View, hdr: Header, n: NodeId, epoch: nat, slots: set<nat>, adopt: bool)
    requires WellFormed(v) && hdr.sender != v.me
    ensures var v' := HandleUpdate(v, hdr, n, epoch, slots, adopt);
            && v'.me == v.me && v.me in v'.peers
            && (n != v.me ==>
                  && (RoleChanged(v, v') <==> LeftFor(v, v', n, adopt))
                  && (RoleChanged(v, v') ==> !v'.peers[v.me].isMaster && v'.peers[v.me].master == Some(n)))
            && (n == v.me ==>
                  && v'.owner == v.owner
                  && (RoleChanged(v, v')
                      <==> hdr.sender in v.peers && !v.peers[v.me].isMaster && v.peers[v.me].configEpoch < epoch)
                  && (RoleChanged(v, v') ==> v'.peers[v.me].isMaster && v'.peers[v.me].master.None?))
  {
    if hdr.sender !in v.peers || n !in v.peers || Learned(v, hdr, n) >= epoch {
      UpdateDropped(v, hdr, n, epoch, slots, adopt);
    } else if n != v.me {
      UpdateAboutOther(v, hdr, n, epoch, slots, adopt);
    } else {
      UpdateAboutMe(v, hdr, epoch, slots, adopt);
    }
  }

  lemma UpdateDropped(v: View, hdr: Header, n: NodeId, epoch: nat, slots: set<nat>, adopt: bool)
    requires WellFormed(v) && hdr.sender != v.me
    requires hdr.sender !in v.peers || n !in v.peers || Learned(v, hdr, n) >= epoch
    ensures var v' := HandleUpdate(v, hdr, n, epoch, slots, adopt);
            && v'.me == v.me && v.me in v'.peers && v'.owner == v.owner
            && !RoleChanged(v, v') && !LeftFor(v, v', n, adopt)
  {
    if hdr.sender in v.peers { HeaderLearned(v, hdr); }
    NothingLeft(v, HandleUpdate(v, hdr, n, epoch, slots, adopt), n, adopt);
  }

  lemma UpdateAboutOther(v: View, hdr: Header, n: NodeId, epoch: nat, slots: set<nat>, adopt: bool)
    requires WellFormed(v) && hdr.sender != v.me && hdr.sender in v.peers && n in v.peers && n != v.me
    requires Learned(v, hdr, n) < epoch
    ensures var v' := HandleUpdate(v, hdr, n, epoch, slots, adopt);
            && v'.me == v.me && v.me in v'.peers
            && (RoleChanged(v, v') <==> LeftFor(v, v', n, adopt))
            && (RoleChanged(v, v') ==> !v'.peers[v.me].isMaster && v'.peers[v.me].master == Some(n))
  {
    HeaderLearned(v, hdr);
    hide ApplyHeader, UpdateSlots;
    var v1 := ApplyHeader(v, hdr);
    var v2 := SetPeer(v1, n, SetAsMaster(v1.peers[n]).(configEpoch := epoch));
    UpdateFollows(v2, n, epoch, slots, adopt);
  }

  lemma UpdateAboutMe(v: View, hdr: Header, epoch: nat, slots: set<nat>, adopt: bool)
    requires WellFormed(v) && hdr.sender != v.me && hdr.sender in v.peers && v.peers[v.me].configEpoch < epoch
    ensures var v' := HandleUpdate(v, hdr, v.me, epoch, slots, adopt);
            && v'.me == v.me && v.me in v'.peers && v'.owner == v.owner
            && (RoleChanged(v, v') <==> !v.peers[v.me].isMaster)
            && (RoleChanged(v, v') ==> v'.peers[v.me].isMaster && v'.peers[v.me].master.None?)
  {
    HeaderLearned(v, hdr);
    hide ApplyHeader;
  }

  // ---- answers to outdated claims ----

  predicate Outdated(v: View, hdr: Header, j: nat)
    requires WellFormed(v) && j < |v.owner|
  {
    && j in hdr.slots && v.owner[j].Some? && v.owner[j] != Some(hdr.sender)
    && v.peers[v.owner[j].value].configEpoch > hdr.configEpoch
  }

  lemma {:induction false} NewerOwnerIs(v: View, hdr: Header, i: nat)
    requires WellFormed(v) && i <= |v.owner|
    ensures var o := NewerOwner(v, hdr, i);
            && (o.None? <==> forall j | i <= j < |v.owner| :: !Outdated(v, hdr, j))
            && (o.Some? ==> exists j | i <= j < |v.owner| ::
                              Outdated(v, hdr, j) && v.owner[j] == o && forall k | i <= k < j :: !Outdated(v, hdr, k))
    decreases |v.owner| - i
  {
    if i < |v.owner| {
      NewerOwnerIs(v, hdr, i + 1);
      if Outdated(v, hdr, i) { assert NewerOwner(v, hdr, i) == v.owner[i]; }
    }
  }

  /** A claim is answered exactly if a slot of it is outdated, with an UPDATE that names the owner of the first
      such slot, its epoch and all its slots. */
  lemma StaleClaimAnswered(v: View, hdr: Header)
    requires WellFormed(v)
    ensures var reply := StaleClaimReply(v, hdr);
            && (reply.Some? <==> exists j | 0 <= j < |v.owner| :: Outdated(v, hdr, j))
            && (reply.Some? ==>
                  var m := reply.value;
                  && m.Update? && m.hdr.sender == v.me && m.node in v.peers && m.epoch == v.peers[m.node].configEpoch
                  && (exists j | 0 <= j < |v.owner| :: Outdated(v, hdr, j) && v.owner[j] == Some(m.node))
                  && (forall j :: j in m.slots <==> 0 <= j < |v.owner| && v.owner[j] == Some(m.node)))
  {
    NewerOwnerIs(v, hdr, 0);
    hide NewerOwner, MakeHeader;
  }

  /** Slot j is claimed, but belongs to o, which was known by a greater epoch. */
  predicate Superseded(v: View, o: Option<NodeId>, hdr: Header, j: nat) {
    && j in hdr.slots && o.Some? && o != Some(hdr.sender)
    && o.value in v.peers && v.peers[o.value].configEpoch > hdr.configEpoch
  }

  /** So a master's gossip is answered exactly if, after it, one of the slots it claims is another's that was known
      by a greater epoch; leaving out the search when the bitmaps match loses no answer. */
  lemma GossipAnswered(v: View, hdr: Header, adopt: bool)
    requires WellFormed(v) && hdr.sender in v.peers && hdr.sender != v.me && hdr.slaveOf.None?
    ensures var r := HandleGossip(v, hdr, adopt);
            && |r.view.owner| == |v.owner|
            && (r.reply.Some? <==> exists j | 0 <= j < |v.owner| :: Superseded(v, r.view.owner[j], hdr, j))
  {
    SenderRole(v, hdr);
    hide SwitchRole, ApplyHeader, StaleClaimReply;
    var v1 := SwitchRole(ApplyHeader(v, hdr), hdr);
    var v2 := ApplyClaim(v1, hdr, adopt);
    ClaimKeepsEpochs(v1, hdr, adopt);
    StaleClaimAnswered(v2, hdr);
    assert HandleGossip(v, hdr, adopt).view.owner == v2.owner;
    forall j | 0 <= j < |v.owner| ensures Outdated(v2, hdr, j) <==> Superseded(v, v2.owner[j], hdr, j) {}
    if !DirtySlots(v1, hdr) {
      forall j | 0 <= j < |v2.owner| ensures !Outdated(v2, hdr, j) {
        if j in hdr.slots { assert j in SlotsOf(v1.owner, hdr.sender); }
      }
    }
  }

  lemma ClaimKeepsEpochs(v: View, hdr: Header, adopt: bool)
    requires WellFormed(v) && hdr.sender in v.peers
    ensures var v' := ApplyClaim(v, hdr, adopt);
            && v'.peers.Keys == v.peers.Keys && |v'.owner| == |v.owner| && v'.me == v.me
            && (forall n | n in v.peers :: v'.peers[n].configEpoch == v.peers[n].configEpoch)
            && (!DirtySlots(v, hdr) ==> v' == v)
  {
    hide LosesASlot, SlotsOf;
  }

  /** The node that claimed slot j with too small an epoch loses it to the node the UPDATE names, exactly if the
      UPDATE tells it a greater epoch than it knows. A master that answers about itself has told its epoch in the
      header, so that its UPDATE moves nothing. */
  lemma UpdateTakesSlot(v: View, m: Msg, j: nat, adopt: bool)
    requires WellFormed(v) && m.Update? && m.hdr.sender in v.peers && m.hdr.sender != v.me
    requires m.node in v.peers && m.node != v.me && j < |v.owner| && v.owner[j] == Some(v.me) && j in m.slots
    requires v.peers[v.me].configEpoch < m.epoch
    ensures var v' := HandleUpdate(v, m.hdr, m.node, m.epoch, m.slots, adopt);
            |v'.owner| == |v.owner|
            && (v'.owner[j] == Some(m.node) <==> Learned(v, m.hdr, m.node) < m.epoch)
            && (m.node == m.hdr.sender && m.hdr.configEpoch == m.epoch ==> v'.owner == v.owner)
  {
    HeaderLearned(v, m.hdr);
    hide ApplyHeader, SlotsOf;
  }

  // ---- winning ----

  /** After the election and the takeover the winner is a master with a config epoch no smaller than that of the
      election. Its next header gives it every slot of its old master whose owner, in the view of whoever hears
      it, is known by a smaller epoch. */
  lemma WinnerTakesSlots(v: View, u: View, j: nat, adopt: bool)
    requires WellFormed(v) && !v.peers[v.me].isMaster && j < |v.owner| && v.owner[j] == v.peers[v.me].master
    requires WellFormed(u) && v.me in u.peers && v.me != u.me && j < |u.owner|
    requires u.owner[j].None? || u.owner[j] == Some(v.me) || u.peers[u.owner[j].value].configEpoch < v.auth.epoch
    ensures var v' := TakeOver(WinElection(v));
            && v'.peers[v.me].isMaster && v'.peers[v.me].master.None? && v'.me == v.me
            && MyConfigEpoch(v') >= v.auth.epoch && MyConfigEpoch(v') >= MyConfigEpoch(v)
            && v'.owner[j] == Some(v.me)
            && var owner := HandleGossip(u, MakeHeader(v'), adopt).view.owner;
               |owner| == |u.owner| && owner[j] == Some(v.me)
  {
    var v' := TakeOver(WinElection(v));
    var hdr := MakeHeader(v');
    assert j in SlotsOf(v'.owner, v.me);
    assert hdr.slaveOf.None? && hdr.sender == v.me && j in hdr.slots;
    hide TakeOver, WinElection, MakeHeader;
    HeardClaim(u, hdr, j, adopt);
  }

  /** A master's claim of slot j, heard by u, takes it if j is unassigned or its owner is known by a smaller epoch. */
  lemma HeardClaim(u: View, hdr: Header, j: nat, adopt: bool)
    requires WellFormed(u) && hdr.sender in u.peers && hdr.sender != u.me && hdr.slaveOf.None?
    requires j < |u.owner| && j in hdr.slots
    requires u.owner[j].None? || u.owner[j] == Some(hdr.sender)
             || u.peers[u.owner[j].value].configEpoch < hdr.configEpoch
    ensures var owner := HandleGossip(u, hdr, adopt).view.owner;
            |owner| == |u.owner| && owner[j] == Some(hdr.sender)
  {
    GossipStages(u, hdr, adopt);
    SenderRole(u, hdr);
    hide HandleGossip, SwitchRole, ApplyHeader;
    var u1 := SwitchRole(ApplyHeader(u, hdr), hdr);
    if u.owner[j] != Some(hdr.sender) { assert j !in SlotsOf(u1.owner, hdr.sender); }
  }

  // ---- local changes ----

  /** A bump leaves this node with a positive config epoch that no epoch it knows exceeds; a newly taken one is
      above all of them. */
  lemma BumpIsNewest(v: View)
    requires WellFormed(v) && forall n | n in v.peers :: v.peers[n].configEpoch <= v.currentEpoch
    ensures var v' := Bump(v);
            && v'.me == v.me && v'.owner == v.owner && v'.peers.Keys == v.peers.Keys
            && MyConfigEpoch(v') > 0 && MyConfigEpoch(v') >= v'.currentEpoch
            && (forall n | n in v.peers :: v'.peers[n].configEpoch <= MyConfigEpoch(v'))
            && (MyConfigEpoch(v') != MyConfigEpoch(v) ==>
                  forall n | n in v.peers :: v.peers[n].configEpoch < MyConfigEpoch(v'))
            && (MyConfigEpoch(v') == MyConfigEpoch(v) ==> v' == v)
  {
  }

  /** An assignment gives n all the slots asked for if none of them is unassigned, and otherwise those before the
      first unassigned one; only a complete one, to this node, is followed by a bump. */
  lemma AssignedSlots(v: View, n: NodeId, slots: set<nat>, j: nat)
    requires WellFormed(v) && n in v.peers && j < |v.owner|
    ensures var v' := SetSlots(v, n, slots);
            && |v'.owner| == |v.owner|
            && (v'.owner[j] == if j in slots && forall i | 0 <= i <= j && i in slots :: v.owner[i].Some?
                               then Some(n) else v.owner[j])
            && (v'.peers != v.peers ==> n == v.me && forall i | 0 <= i < |v.owner| && i in slots :: v.owner[i].Some?)
            && (n == v.me && (forall i | 0 <= i < |v.owner| && i in slots :: v.owner[i].Some?) ==>
                  MyConfigEpoch(v') > 0 && MyConfigEpoch(v') >= v.currentEpoch)
  {
    hide WellFormed;
  }
}
