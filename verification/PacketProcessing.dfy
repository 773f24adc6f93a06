/** Packets as the node handles them, in place: every handler changes a `ClusterState` object the way its
    counterpart on views says. */
module PacketProcessing {
  import opened Basics
  import opened ClusterModel
  import opened NodeState

  /** The part every packet goes through. */
  method ReceiveHeader(st: ClusterState, hdr: Header)
    requires st.Valid()
    modifies st`currentEpoch, st.nodes.Values`configEpoch
    ensures st.Valid() && st.AsView() == ApplyHeader(old(st.AsView()), hdr)
  {
    st.NodeView(hdr.sender);
    hide ClusterState.Valid, WellFormed;
    if hdr.sender !in st.nodes { return; }
    ghost var v := st.AsView();
    var n := st.nodes[hdr.sender];
    if hdr.currentEpoch > st.currentEpoch { st.currentEpoch := hdr.currentEpoch; }
    ghost var v1 := v.(currentEpoch := Max(v.currentEpoch, hdr.currentEpoch));
    assert st.AsView() == v1;
    SamePeer(v1, hdr.sender);
    if hdr.configEpoch > n.configEpoch { st.SetConfigEpoch(n, hdr.configEpoch); }
  }

  lemma SamePeer(v: View, n: NodeId)
    requires n in v.peers
    ensures SetPeer(v, n, v.peers[n]) == v
  {
    assert v.peers[n := v.peers[n]] == v.peers;
  }

  /** This node is a master or has one; the slot update counts on it. */
  predicate HasMaster(st: ClusterState)
    reads st.myself`isMaster, st.myself`master
  {
    st.myself.isMaster || st.myself.master != null
  }

  method SenderIsMaster(st: ClusterState, n: ClusterNode, arbiter: bool)
    requires st.Valid() && st.Known(n)
    modifies n`isMaster, n`master, n`arbiter
    ensures st.Valid()
    ensures st.AsView() == (var v := old(st.AsView());
                            SetPeer(v, n.name, SetAsMaster(v.peers[n.name].(arbiter := arbiter))))
  {
    st.MyView(n);
    hide ClusterState.Valid, ClusterState.AsView, WellFormed, SetPeer;
    if n.isMaster { st.SetArbiter(n, arbiter); } else { st.SetRole(n, true, null, arbiter); }
  }

  /** A sender that was a master and now has a master loses its slots. */
  method SenderIsReplica(st: ClusterState, n: ClusterNode, master: ClusterNode?, arbiter: bool)
    requires st.Valid() && st.Known(n) && (master == null || st.Known(master))
    modifies st.allSlots, st.nodes.Values`mySlots, st.nodes.Values`numSlots, n`isMaster, n`master, n`arbiter
    ensures st.Valid()
    ensures var m := if master == null then None else Some(master.name);
            st.AsView() == (var v := old(st.AsView());
                            var v1 := if v.peers[n.name].isMaster then v.(owner := ClearOwner(v.owner, n.name)) else v;
                            SetPeer(v1, n.name, v.peers[n.name].(isMaster := false, master := m, arbiter := arbiter)))
  {
    st.MyView(n);
    hide ClusterState.Valid, ClusterState.AsView, WellFormed, ClearOwner, ClusterState.Known;
    if n.isMaster { DropSlots(st, n); }
    st.SetRole(n, false, master, arbiter);
  }

  method DropSlots(st: ClusterState, n: ClusterNode)
    requires st.Valid() && st.Known(n)
    modifies st.allSlots, st.nodes.Values`mySlots, st.nodes.Values`numSlots
    ensures st.Valid() && st.AsView() == (var v := old(st.AsView()); v.(owner := ClearOwner(v.owner, n.name)))
  {
    hide ClusterState.Valid, ClusterState.Owner, WellFormed, ClearOwner;
    var deleted := st.DelNodeSlots(n);
  }

  lemma RoleCases(v: View, hdr: Header)
    requires WellFormed(v) && hdr.sender in v.peers && hdr.sender != v.me
    ensures var p := v.peers[hdr.sender];
            SwitchRole(v, hdr) ==
            if hdr.slaveOf.None? then SetPeer(v, hdr.sender, SetAsMaster(p.(arbiter := hdr.arbiter)))
            else
              SetPeer(if p.isMaster then v.(owner := ClearOwner(v.owner, hdr.sender)) else v, hdr.sender,
                      p.(isMaster := false, arbiter := hdr.arbiter,
                         master := if hdr.slaveOf.value in v.peers then hdr.slaveOf else p.master))
  {
  }

  method SwitchSenderRole(st: ClusterState, hdr: Header)
    requires st.Valid() && HasMaster(st) && hdr.sender in st.nodes && hdr.sender != st.myself.name
    modifies st.allSlots, st.nodes.Values`mySlots, st.nodes.Values`numSlots
    modifies st.nodes.Values`isMaster, st.nodes.Values`master, st.nodes.Values`arbiter
    ensures st.Valid() && HasMaster(st) && st.AsView() == SwitchRole(old(st.AsView()), hdr)
  {
    st.NodeView(hdr.sender);
    if hdr.slaveOf.Some? { st.NodeView(hdr.slaveOf.value); }
    ViewWell(st);
    RoleCases(st.AsView(), hdr);
    hide ClusterState.Valid, ClusterState.AsView, WellFormed, SetPeer, ClearOwner, ClusterState.Known, SetAsMaster,
      SwitchRole, HasMaster;
    var n := st.nodes[hdr.sender];
    if hdr.slaveOf.None? {
      SenderIsMaster(st, n, hdr.arbiter);
    } else {
      SenderIsReplica(st, n, if hdr.slaveOf.value in st.nodes then st.nodes[hdr.slaveOf.value] else n.master,
        hdr.arbiter);
    }
  }

  /** A replica publishes its master's slots and config epoch. */
  method BuildHeader(st: ClusterState) returns (hdr: Header)
    requires st.Valid() && HasMaster(st)
    ensures hdr == MakeHeader(st.AsView())
  {
    st.MyselfKnown();
    st.NodeView(st.myself.name);
    var self := st.myself;
    var master := if !self.isMaster && self.master != null then self.master else self;
    st.SlotsAgree(master);
    st.MyView(master);
    hdr := Header(self.name, st.currentEpoch, master.configEpoch, master.mySlots,
                  if self.master == null then None else Some(self.master.name), self.arbiter);
  }

  /** The first owner of a claimed slot with a greater epoch than the claim's. */
  method FindNewerOwner(st: ClusterState, hdr: Header) returns (n: ClusterNode?)
    requires st.Valid() && HasMaster(st)
    ensures n != null ==> st.Known(n)
    ensures NewerOwner(st.AsView(), hdr, 0) == if n == null then None else Some(n.name)
  {
    ViewWell(st);
    hide ClusterState.Valid, ClusterState.Owner, ClusterState.Known, WellFormed;
    ghost var v := st.AsView();
    for j := 0 to st.allSlots.Length
      invariant NewerOwner(v, hdr, 0) == NewerOwner(v, hdr, j)
    {
      st.SlotTable(j);
      if j in hdr.slots {
        var nodej := st.allSlots[j];
        if nodej == null || nodej.name == hdr.sender { continue; }
        if nodej.configEpoch > hdr.configEpoch { return nodej; }
      }
    }
    n := null;
  }

  /** The claim is compared with the bitmap kept for the sender or, if it is a replica, for its master. */
  method ClaimDiffers(st: ClusterState, hdr: Header) returns (dirty: bool)
    requires st.Valid() && HasMaster(st) && hdr.sender in st.nodes
    ensures dirty == DirtySlots(st.AsView(), hdr)
  {
    st.NodeView(hdr.sender);
    var sender := st.nodes[hdr.sender];
    var owner := if sender.isMaster then sender else sender.master;
    if owner == null { return false; }
    st.SlotsAgree(owner);
    return owner.mySlots != hdr.slots;
  }

  method TakeClaim(st: ClusterState, hdr: Header, dirty: bool, adopt: bool)
    requires st.Valid() && HasMaster(st) && hdr.sender in st.nodes && hdr.sender != st.myself.name
    requires dirty == DirtySlots(st.AsView(), hdr)
    modifies st.allSlots, st.nodes.Values`mySlots, st.nodes.Values`numSlots
    modifies st.myself`isMaster, st.myself`master, st.myself`arbiter
    ensures st.Valid() && HasMaster(st) && st.AsView() == ApplyClaim(old(st.AsView()), hdr, adopt)
  {
    st.NodeView(hdr.sender);
    hide ClusterState.Valid, ClusterState.AsView, WellFormed, UpdateSlots, DirtySlots;
    var sender := st.nodes[hdr.sender];
    if dirty && sender.isMaster {
      st.UpdateSlotsConfigWith(sender, hdr.configEpoch, hdr.slots, adopt);
    }
  }

  method AnswerStaleClaim(st: ClusterState, hdr: Header) returns (reply: Option<Msg>)
    requires st.Valid() && HasMaster(st)
    ensures reply == StaleClaimReply(st.AsView(), hdr)
  {
    hide NewerOwner;
    var n := FindNewerOwner(st, hdr);
    if n == null { return None; }
    st.SlotsAgree(n);
    st.MyView(n);
    var h := BuildHeader(st);
    return Some(Update(h, n.name, n.configEpoch, n.mySlots));
  }

  /** Of two masters with one epoch, the one with the smaller name moves on. */
  method HandleCollision(st: ClusterState, hdr: Header)
    requires st.Valid() && HasMaster(st) && hdr.sender in st.nodes && hdr.sender != st.myself.name
    modifies st`currentEpoch, st.myself`configEpoch
    ensures st.Valid() && HasMaster(st) && st.AsView() == RepairCollision(old(st.AsView()), hdr)
  {
    st.NodeView(hdr.sender);
    st.NodeView(st.myself.name);
    st.MyselfKnown();
    hide ClusterState.Valid, ClusterState.AsView, WellFormed;
    var sender, myself := st.nodes[hdr.sender], st.myself;
    if myself.isMaster && sender.isMaster && hdr.configEpoch == myself.configEpoch {
      if sender.configEpoch != myself.configEpoch || sender.name <= myself.name { return; }
      st.TakeNextEpoch();
    }
  }

  method ProcessRole(st: ClusterState, hdr: Header)
    requires st.Valid() && HasMaster(st) && hdr.sender in st.nodes && hdr.sender != st.myself.name
    modifies st`currentEpoch, st.allSlots, st.nodes.Values
    ensures st.Valid() && HasMaster(st) && st.AsView() == SwitchRole(ApplyHeader(old(st.AsView()), hdr), hdr)
  {
    st.NodeView(hdr.sender);
    st.MyselfKnown();
    hide ClusterState.Valid, ClusterState.AsView, WellFormed, ApplyHeader, SwitchRole, ClusterState.Known;
    ReceiveHeader(st, hdr);
    SwitchSenderRole(st, hdr);
  }

  method ProcessSlots(st: ClusterState, hdr: Header, adopt: bool) returns (reply: Option<Msg>)
    requires st.Valid() && HasMaster(st) && hdr.sender in st.nodes && hdr.sender != st.myself.name
    modifies st`currentEpoch, st.allSlots, st.nodes.Values
    ensures st.Valid() && HasMaster(st)
    ensures hdr.sender in old(st.AsView()).peers
    ensures var v1 := old(st.AsView());
            var v2 := ApplyClaim(v1, hdr, adopt);
            && reply == (if DirtySlots(v1, hdr) then StaleClaimReply(v2, hdr) else None)
            && hdr.sender in v2.peers && st.AsView() == RepairCollision(v2, hdr)
  {
    hide *;
    st.NodeView(hdr.sender);
    st.MyselfKnown();
    var dirty := ClaimDiffers(st, hdr);
    TakeClaim(st, hdr, dirty, adopt);
    st.NodeView(hdr.sender);
    reply := None;
    if dirty { reply := AnswerStaleClaim(st, hdr); }
    HandleCollision(st, hdr);
  }

  /** Gossip: roles, slots, an answer to an outdated claim, and epoch collisions, in this order. */
  method ProcessGossip(st: ClusterState, hdr: Header, adopt: bool) returns (reply: Option<Msg>)
    requires st.Valid() && HasMaster(st) && hdr.sender != st.myself.name
    modifies st`currentEpoch, st.allSlots, st.nodes.Values
    ensures st.Valid() && HasMaster(st)
    ensures Reaction(st.AsView(), reply) == HandleGossip(old(st.AsView()), hdr, adopt)
  {
    st.NodeView(hdr.sender);
    hide ClusterState.Valid, ClusterState.AsView, WellFormed, ApplyHeader, SwitchRole, ApplyClaim, DirtySlots,
      RepairCollision, StaleClaimReply, ClusterState.Known;
    if hdr.sender !in st.nodes { return None; }
    ProcessRole(st, hdr);
    reply := ProcessSlots(st, hdr, adopt);
  }

  /** UPDATE: another node's claim, relayed; outdated ones are dropped. */
  method ProcessUpdate(st: ClusterState, hdr: Header, name: NodeId, epoch: nat, slots: set<nat>, adopt: bool)
    requires st.Valid() && HasMaster(st) && hdr.sender != st.myself.name
    modifies st`currentEpoch, st.allSlots, st.nodes.Values
    ensures st.Valid() && HasMaster(st)
    ensures st.AsView() == HandleUpdate(old(st.AsView()), hdr, name, epoch, slots, adopt)
  {
    st.NodeView(hdr.sender);
    hide ClusterState.Valid, ClusterState.AsView, WellFormed, ApplyHeader, UpdateSlots, ClusterState.Known, SetPeer;
    if hdr.sender !in st.nodes { return; }
    ReceiveHeader(st, hdr);
    st.NodeView(name);
    if name !in st.nodes || st.nodes[name].configEpoch >= epoch { return; }
    RaiseClaimant(st, st.nodes[name], epoch);
    st.MyselfKnown();
    st.UpdateSlotsConfigWith(st.nodes[name], epoch, slots, adopt);
  }

  lemma RaiseParts(v: View, n: NodeId, epoch: nat)
    requires n in v.peers
    ensures var p := v.peers[n];
            var v1 := if p.isMaster then v
                      else SetPeer(v, n, p.(isMaster := true, master := None, arbiter := p.arbiter));
            && n in v1.peers
            && SetPeer(v1, n, v1.peers[n].(configEpoch := epoch))
              == SetPeer(v, n, SetAsMaster(p).(configEpoch := epoch))
  {
  }

  method RaiseClaimant(st: ClusterState, n: ClusterNode, epoch: nat)
    requires st.Valid() && HasMaster(st) && st.Known(n)
    modifies n`isMaster, n`master, n`arbiter, n`configEpoch
    ensures st.Valid() && HasMaster(st)
    ensures st.AsView() == (var v := old(st.AsView());
                            SetPeer(v, n.name, SetAsMaster(v.peers[n.name]).(configEpoch := epoch)))
  {
    st.MyView(n);
    RaiseParts(st.AsView(), n.name, epoch);
    hide ClusterState.Valid, ClusterState.AsView, WellFormed, ClusterState.Known, SetPeer, SetAsMaster;
    if !n.isMaster { st.SetRole(n, true, null, n.arbiter); }
    st.SetConfigEpoch(n, epoch);
  }

  // ---- elections ----

  /** No claimed slot is known to be served with a greater epoch than the request's. */
  method SlotsAllowVote(st: ClusterState, hdr: Header) returns (ok: bool)
    requires st.Valid() && HasMaster(st)
    ensures var v := st.AsView();
            ok == forall j | 0 <= j < |v.owner| ::
              j in hdr.slots && v.owner[j].Some? ==> v.peers[v.owner[j].value].configEpoch <= hdr.currentEpoch
  {
    ghost var v := st.AsView();
    for j := 0 to st.allSlots.Length
      invariant forall i | 0 <= i < j ::
                  i in hdr.slots && v.owner[i].Some? ==> v.peers[v.owner[i].value].configEpoch <= hdr.currentEpoch
    {
      st.SlotTable(j);
      if j !in hdr.slots { continue; }
      if st.allSlots[j] == null || st.allSlots[j].configEpoch <= hdr.currentEpoch { continue; }
      return false;
    }
    return true;
  }

  /** The checks of a vote, one after the other. `timely` is the clock condition. */
  method VoteAllowed(st: ClusterState, hdr: Header, force: bool, timely: bool) returns (ok: bool)
    requires st.Valid() && HasMaster(st) && hdr.sender in st.nodes
    ensures ok == GrantsVote(st.AsView(), hdr, force, timely)
  {
    st.NodeView(hdr.sender);
    st.NodeView(st.myself.name);
    st.MyselfKnown();
    st.SlotsAgree(st.myself);
    var node, myself := st.nodes[hdr.sender], st.myself;
    var master := node.master;
    if (!myself.isMaster || myself.numSlots == 0) && !myself.arbiter { return false; }
    if hdr.currentEpoch < st.currentEpoch { return false; }
    if st.lastVoteEpoch == st.currentEpoch { return false; }
    if hdr.slaveOf.None? || master == null { return false; }
    st.NodeView(master.name);
    if !master.failed && !force { return false; }
    if !timely { return false; }
    ok := SlotsAllowVote(st, hdr);
  }

  method RecordVote(st: ClusterState)
    requires st.Valid()
    modifies st`lastVoteEpoch
    ensures st.Valid() && st.AsView() == (var v := old(st.AsView()); v.(lastVoteEpoch := v.currentEpoch))
  {
    hide ClusterState.Valid, ClusterState.Owner, ClusterState.Peers, WellFormed;
    st.lastVoteEpoch := st.currentEpoch;
  }

  method ProcessAuthRequest(st: ClusterState, hdr: Header, force: bool, timely: bool) returns (reply: Option<Msg>)
    requires st.Valid() && HasMaster(st) && hdr.sender != st.myself.name
    modifies st`currentEpoch, st`lastVoteEpoch, st.nodes.Values`configEpoch
    ensures st.Valid() && HasMaster(st)
    ensures Reaction(st.AsView(), reply) == HandleAuthRequest(old(st.AsView()), hdr, force, timely)
  {
    hide *;
    st.NodeView(hdr.sender);
    ViewWell(st);
    RequestCases(st.AsView(), hdr, force, timely);
    if hdr.sender !in st.nodes { return None; }
    ReceiveHeader(st, hdr);
    var ok := VoteAllowed(st, hdr, force, timely);
    if !ok { return None; }
    RecordVote(st);
    var h := BuildHeader(st);
    return Some(AuthAck(h));
  }

  lemma RequestCases(v: View, hdr: Header, force: bool, timely: bool)
    requires WellFormed(v) && hdr.sender != v.me
    ensures HandleAuthRequest(v, hdr, force, timely) ==
            if hdr.sender !in v.peers then Reaction(v, None)
            else
              var v1 := ApplyHeader(v, hdr);
              if !GrantsVote(v1, hdr, force, timely) then Reaction(v1, None)
              else
                var v2 := v1.(lastVoteEpoch := v1.currentEpoch);
                Reaction(v2, Some(AuthAck(MakeHeader(v2))))
  {
  }

  method AckCounts(st: ClusterState, hdr: Header) returns (ok: bool)
    requires st.Valid() && hdr.sender in st.nodes
    ensures hdr.sender in st.AsView().peers && ok == CountsAck(st.AsView(), hdr)
  {
    st.NodeView(hdr.sender);
    var sender := st.nodes[hdr.sender];
    st.SlotsAgree(sender);
    return sender.isMaster && (sender.numSlots > 0 || sender.arbiter) && hdr.currentEpoch >= st.auth.epoch;
  }

  lemma AckCases(v: View, hdr: Header)
    requires WellFormed(v) && hdr.sender != v.me
    ensures HandleAuthAck(v, hdr) ==
            if hdr.sender !in v.peers then v
            else
              var v1 := ApplyHeader(v, hdr);
              if CountsAck(v1, hdr) then v1.(auth := v1.auth.(count := v1.auth.count + 1)) else v1
  {
  }

  method SetAuth(st: ClusterState, auth: Auth)
    requires st.Valid()
    modifies st`auth
    ensures st.Valid() && st.auth == auth && st.AsView() == old(st.AsView()).(auth := auth)
  {
    hide ClusterState.Valid, ClusterState.Owner, ClusterState.Peers, WellFormed;
    st.auth := auth;
  }

  method ProcessAuthAck(st: ClusterState, hdr: Header)
    requires st.Valid() && HasMaster(st) && hdr.sender != st.myself.name
    modifies st`currentEpoch, st`auth, st.nodes.Values`configEpoch
    ensures st.Valid() && HasMaster(st) && st.AsView() == HandleAuthAck(old(st.AsView()), hdr)
  {
    hide *;
    st.NodeView(hdr.sender);
    ViewWell(st);
    AckCases(st.AsView(), hdr);
    if hdr.sender !in st.nodes { return; }
    ReceiveHeader(st, hdr);
    ViewFields(st);
    var counts := AckCounts(st, hdr);
    if counts { SetAuth(st, st.auth.(count := st.auth.count + 1)); }
  }

  /** What the clocks say about the round: time for a new one, not yet due, too old. */
  datatype Clock = Clock(retry: bool, early: bool, expired: bool)

  datatype Progress = Scheduled | Waiting | Expired | Asked | Won | Lacking

  /** The election part of a replica's failover, as often as it is called. */
  method HandleSlaveFailover(st: ClusterState, clock: Clock, size: nat) returns (r: Progress)
    requires st.Valid() && HasMaster(st)
    modifies st`currentEpoch, st`auth, st.myself`configEpoch
    ensures st.Valid() && HasMaster(st)
    ensures var v := old(st.AsView());
            && r == (if clock.retry then Scheduled
                     else if clock.early then Waiting
                     else if clock.expired then Expired
                     else if !v.auth.sent then Asked
                     else if v.auth.count >= Quorum(size) then Won else Lacking)
            && st.AsView() == match r
                              case Scheduled => Schedule(v)
                              case Expired => Expire(v)
                              case Asked => StartRequest(v)
                              case Won => WinElection(v)
                              case _ => v
  {
    ViewFields(st);
    hide ClusterState.Valid, ClusterState.AsView, WellFormed, ClusterState.Known, MyConfigEpoch, WinElection;
    var auth := st.auth;
    if clock.retry {
      SetAuth(st, Auth(true, false, 0, auth.epoch));
      return Scheduled;
    }
    if clock.early { return Waiting; }
    if clock.expired {
      SetAuth(st, Auth(false, auth.sent, 0, 0));
      return Expired;
    }
    if !auth.sent {
      st.NextEpoch();
      SetAuth(st, Auth(auth.armed, true, auth.count, st.currentEpoch));
      return Asked;
    }
    if auth.count >= Quorum(size) {
      AdoptElectionEpoch(st);
      return Won;
    }
    return Lacking;
  }

  lemma ViewWell(st: ClusterState)
    requires st.Valid() && HasMaster(st)
    ensures WellFormed(st.AsView()) && st.AsView().me == st.myself.name
  {
  }

  lemma ViewFields(st: ClusterState)
    requires st.Valid()
    ensures st.AsView().me == st.myself.name && st.AsView().currentEpoch == st.currentEpoch
            && st.AsView().auth == st.auth
  {
  }

  method AdoptElectionEpoch(st: ClusterState)
    requires st.Valid() && HasMaster(st)
    modifies st.myself`configEpoch
    ensures st.Valid() && HasMaster(st) && st.AsView() == WinElection(old(st.AsView()))
  {
    st.NodeView(st.myself.name);
    st.MyselfKnown();
    ViewFields(st);
    SamePeer(st.AsView(), st.myself.name);
    hide ClusterState.Valid, ClusterState.AsView, WellFormed, ClusterState.Known;
    if st.myself.configEpoch < st.auth.epoch { st.SetConfigEpoch(st.myself, st.auth.epoch); }
  }
}
