/** Epochs over whole runs: in every view and every packet in flight a config epoch never
    exceeds the matching current epoch, and no epoch ever decreases. */
module EpochSafety {
  import opened Basics
  import opened ClusterModel
  import opened ClusterRuns

  predicate ViewEpochs(v: View) {
    && (forall n | n in v.peers :: v.peers[n].configEpoch <= v.currentEpoch)
    && v.auth.epoch <= v.currentEpoch
    && v.lastVoteEpoch <= v.currentEpoch
  }

  predicate MsgEpochs(m: Msg) {
    && m.hdr.configEpoch <= m.hdr.currentEpoch
    && (m.Update? ==> m.epoch <= m.hdr.currentEpoch)
  }

  predicate EpochInv(s: Cluster)
    requires Sane(s)
  {
    && (forall i | i in s.views :: ViewEpochs(s.views[i]))
    && (forall p | p in s.net :: PacketEpochs(s, p))
  }

  predicate PacketEpochs(s: Cluster, p: Packet) {
    && PacketOk(s, p)
    && MsgEpochs(p.msg)
    && p.msg.hdr.currentEpoch <= s.views[p.msg.hdr.sender].currentEpoch
  }

  /** The same peers, and no epoch smaller. */
  predicate NotBelow(v: View, v': View) {
    && v'.me == v.me
    && v'.peers.Keys == v.peers.Keys
    && v.currentEpoch <= v'.currentEpoch
    && v.lastVoteEpoch <= v'.lastVoteEpoch
    && (forall n | n in v.peers :: v.peers[n].configEpoch <= v'.peers[n].configEpoch)
  }

  lemma ApplyHeaderEpochs(v: View, hdr: Header)
    requires WellFormed(v) && ViewEpochs(v) && hdr.configEpoch <= hdr.currentEpoch
    ensures ViewEpochs(ApplyHeader(v, hdr)) && NotBelow(v, ApplyHeader(v, hdr))
    ensures hdr.sender in v.peers ==> hdr.currentEpoch <= ApplyHeader(v, hdr).currentEpoch
  {
  }

  lemma UpdateSlotsEpochs(v: View, n: NodeId, epoch: nat, slots: set<nat>, adopt: bool)
    requires WellFormed(v) && ViewEpochs(v) && n in v.peers
    ensures var v' := UpdateSlots(v, n, epoch, slots, adopt);
            ViewEpochs(v') && NotBelow(v, v') && v'.currentEpoch == v.currentEpoch
  {
  }

  lemma SwitchRoleEpochs(v: View, hdr: Header)
    requires WellFormed(v) && ViewEpochs(v) && hdr.sender in v.peers && hdr.sender != v.me
    ensures ViewEpochs(SwitchRole(v, hdr)) && NotBelow(v, SwitchRole(v, hdr))
  {
  }

  lemma FinishEpochs(v: View, hdr: Header)
    requires WellFormed(v) && ViewEpochs(v) && hdr.sender in v.peers
    ensures ViewEpochs(RepairCollision(v, hdr)) && NotBelow(v, RepairCollision(v, hdr))
    ensures var reply := StaleClaimReply(v, hdr);
            reply.Some? ==> MsgEpochs(reply.value) && reply.value.hdr.currentEpoch == v.currentEpoch
  {
  }

  lemma NotBelowTransitive(v: View, v1: View, v2: View)
    requires NotBelow(v, v1) && NotBelow(v1, v2)
    ensures NotBelow(v, v2)
  {
  }

  lemma GossipEpochs(v: View, hdr: Header, adopt: bool)
    requires WellFormed(v) && ViewEpochs(v) && hdr.sender != v.me && hdr.configEpoch <= hdr.currentEpoch
    ensures var r := HandleGossip(v, hdr, adopt);
            && ViewEpochs(r.view) && NotBelow(v, r.view)
            && (r.reply.Some? ==> MsgEpochs(r.reply.value) && r.reply.value.hdr.currentEpoch <= r.view.currentEpoch)
  {
    if hdr.sender in v.peers {
      var v0 := ApplyHeader(v, hdr);
      ApplyHeaderEpochs(v, hdr);
      var v1 := SwitchRole(v0, hdr);
      SwitchRoleEpochs(v0, hdr);
      NotBelowTransitive(v, v0, v1);
      var v2 := ApplyClaim(v1, hdr, adopt);
      if DirtySlots(v1, hdr) { UpdateSlotsEpochs(v1, hdr.sender, hdr.configEpoch, hdr.slots, adopt); }
      assert ViewEpochs(v2) && NotBelow(v1, v2);
      NotBelowTransitive(v, v1, v2);
      FinishEpochs(v2, hdr);
      NotBelowTransitive(v, v2, RepairCollision(v2, hdr));
    }
  }

  lemma UpdateEpochs(v: View, hdr: Header, n: NodeId, epoch: nat, slots: set<nat>, adopt: bool)
    requires WellFormed(v) && ViewEpochs(v) && hdr.sender != v.me
    requires hdr.configEpoch <= hdr.currentEpoch && epoch <= hdr.currentEpoch
    ensures var v' := HandleUpdate(v, hdr, n, epoch, slots, adopt);
            ViewEpochs(v') && NotBelow(v, v')
  {
    if hdr.sender in v.peers {
      ApplyHeaderEpochs(v, hdr);
      var v1 := ApplyHeader(v, hdr);
      if n in v1.peers && v1.peers[n].configEpoch < epoch {
        var v2 := SetPeer(v1, n, SetAsMaster(v1.peers[n]).(configEpoch := epoch));
        assert ViewEpochs(v2) && NotBelow(v1, v2);
        UpdateSlotsEpochs(v2, n, epoch, slots, adopt);
      }
    }
  }

  lemma RequestEpochs(v: View, hdr: Header, force: bool, timely: bool)
    requires WellFormed(v) && ViewEpochs(v) && hdr.sender != v.me && hdr.configEpoch <= hdr.currentEpoch
    ensures var r := HandleAuthRequest(v, hdr, force, timely);
            && ViewEpochs(r.view) && NotBelow(v, r.view)
            && (r.reply.Some? ==> MsgEpochs(r.reply.value) && r.reply.value.hdr.currentEpoch <= r.view.currentEpoch)
  {
    ApplyHeaderEpochs(v, hdr);
  }

  /** Handling any packet whose own epochs are consistent. */
  lemma ReactEpochs(v: View, msg: Msg, adopt: bool, timely: bool)
    requires WellFormed(v) && ViewEpochs(v) && msg.hdr.sender != v.me && MsgEpochs(msg)
    ensures var r := React(v, msg, adopt, timely);
            && ViewEpochs(r.view) && NotBelow(v, r.view)
            && (r.reply.Some? ==> MsgEpochs(r.reply.value) && r.reply.value.hdr.currentEpoch <= r.view.currentEpoch)
  {
    hide HandleGossip, HandleUpdate, HandleAuthRequest;
    match msg
    case Gossip(hdr) => GossipEpochs(v, hdr, adopt);
    case Update(hdr, n, epoch, slots) => UpdateEpochs(v, hdr, n, epoch, slots, adopt);
    case AuthRequest(hdr, force) => RequestEpochs(v, hdr, force, timely);
    case AuthAck(hdr) => ApplyHeaderEpochs(v, hdr);
    case Fail(hdr, n) => ApplyHeaderEpochs(v, hdr);
  }

  lemma BumpEpochs(v: View)
    requires WellFormed(v) && ViewEpochs(v)
    ensures ViewEpochs(Bump(v)) && NotBelow(v, Bump(v))
  {
  }

  lemma LocalEpochs(v: View, step: Step)
    requires WellFormed(v) && ViewEpochs(v) && !step.Deliver? && LocalEnabled(v, step)
    ensures ViewEpochs(LocalView(v, step)) && NotBelow(v, LocalView(v, step))
  {
    match step
    case BumpEpoch(_) => BumpEpochs(v);
    case AssignSlots(_, n, slots) =>
      var v1 := v.(owner := ClusterModel.AssignSlots(v.owner, n, slots));
      assert ViewEpochs(v1) && NotBelow(v, v1);
      BumpEpochs(v1);
    case _ =>
  }

  lemma PacketEpochsKept(s: Cluster, s': Cluster, q: Packet, q': Packet, i: NodeId, v: View)
    requires PacketEpochs(s, q) && q'.msg == q.msg && q'.dsts <= q.dsts
    requires i in s.views && s'.views == s.views[i := v] && s.views[i].currentEpoch <= v.currentEpoch
    ensures PacketEpochs(s', q')
  {
  }

  lemma LandPacketEpochs(s: Cluster, p: Packet, d: NodeId, r: Reaction, q: Packet)
    requires p in s.net && d in s.views && d in s.hist.tallies && q in Land(s, p, d, r).net
    requires forall p | p in s.net :: PacketEpochs(s, p)
    requires s.views[d].currentEpoch <= r.view.currentEpoch
    requires d !in p.dsts - {d} && p.msg.hdr.sender != d
    requires r.reply.Some? ==> r.reply.value.hdr.sender == d && MsgEpochs(r.reply.value)
                               && r.reply.value.hdr.currentEpoch <= r.view.currentEpoch
    ensures PacketEpochs(Land(s, p, d, r), q)
  {
    LandPacket(s, p, d, r, q);
    if q in s.net {
      PacketEpochsKept(s, Land(s, p, d, r), q, q, d, r.view);
    } else if q == Passed(p, d) {
      PacketEpochsKept(s, Land(s, p, d, r), p, q, d, r.view);
    } else {
      assert r.reply == Some(q.msg);
    }
  }

  lemma LandEpochs(s: Cluster, p: Packet, d: NodeId, r: Reaction)
    requires Sane(s) && EpochInv(s) && p in s.net && d in p.dsts && d in s.views
    requires ViewOk(r.view, d) && ViewEpochs(r.view) && NotBelow(s.views[d], r.view)
    requires r.reply.Some? ==> r.reply.value.hdr.sender == d && MsgEpochs(r.reply.value)
                               && r.reply.value.hdr.currentEpoch <= r.view.currentEpoch
    ensures Sane(Land(s, p, d, r)) && EpochInv(Land(s, p, d, r))
  {
    hide ViewEpochs, PacketEpochs, LandHistory, MsgEpochs, Sane, WellFormed;
    LandSane(s, p, d, r);
    SanePacket(s, p);
    SaneView(s, d);
    forall q | q in Land(s, p, d, r).net ensures PacketEpochs(Land(s, p, d, r), q) {
      LandPacketEpochs(s, p, d, r, q);
    }
  }

  lemma OutgoingEpochs(v: View, step: Step)
    requires !step.Deliver? && ViewOk(v, step.i) && ViewEpochs(v)
    ensures var m := Outgoing(v, step);
            m.Some? ==> MsgEpochs(m.value) && m.value.hdr.sender == step.i && m.value.hdr.currentEpoch <= v.currentEpoch
  {
  }

  lemma CommitEpochs(s: Cluster, step: Step, v: View)
    requires Sane(s) && EpochInv(s) && !step.Deliver? && step.i in s.views
    requires ViewOk(v, step.i) && ViewEpochs(v) && NotBelow(s.views[step.i], v)
    ensures Sane(Commit(s, step, v)) && EpochInv(Commit(s, step, v))
  {
    hide ViewEpochs, MsgEpochs, CommitHistory, Outgoing, Sane, WellFormed;
    SaneView(s, step.i);
    CommitSane(s, step, v);
    OutgoingEpochs(v, step);
    var s' := Commit(s, step, v);
    forall q | q in s'.net ensures PacketEpochs(s', q) {
      if q in s.net { PacketEpochsKept(s, s', q, q, step.i, v); } else { assert Outgoing(v, step) == Some(q.msg); }
    }
  }

  /** The same nodes, and no epoch smaller in any view. */
  predicate NoneBelow(s: Cluster, s': Cluster) {
    s'.views.Keys == s.views.Keys && forall i | i in s.views :: NotBelow(s.views[i], s'.views[i])
  }

  lemma OneViewNotBelow(s: Cluster, s': Cluster, i: NodeId, v: View)
    requires i in s.views && s'.views == s.views[i := v] && NotBelow(s.views[i], v)
    ensures NoneBelow(s, s')
  {
  }

  lemma NoneBelowTransitive(s: Cluster, s1: Cluster, s2: Cluster)
    requires NoneBelow(s, s1) && NoneBelow(s1, s2)
    ensures NoneBelow(s, s2)
  {
    forall i | i in s.views ensures NotBelow(s.views[i], s2.views[i]) {
      NotBelowTransitive(s.views[i], s1.views[i], s2.views[i]);
    }
  }

  lemma DeliverEpochs(s: Cluster, p: Packet, d: NodeId, r: Reaction, adopt: bool, timely: bool)
    requires Sane(s) && EpochInv(s) && p in s.net && d in p.dsts && d in s.views && PacketOk(s, p)
    requires r == React(s.views[d], p.msg, adopt, timely)
    ensures Sane(Land(s, p, d, r)) && EpochInv(Land(s, p, d, r)) && NoneBelow(s, Land(s, p, d, r))
  {
    ReactEpochs(s.views[d], p.msg, adopt, timely);
    ReactShape(s.views[d], p.msg, adopt, timely);
    LandEpochs(s, p, d, r);
    OneViewNotBelow(s, Land(s, p, d, r), d, r.view);
  }

  lemma OwnStepEpochs(s: Cluster, step: Step, v: View)
    requires Sane(s) && EpochInv(s) && !step.Deliver? && step.i in s.views && LocalEnabled(s.views[step.i], step)
    requires v == LocalView(s.views[step.i], step)
    ensures Sane(Commit(s, step, v)) && EpochInv(Commit(s, step, v)) && NoneBelow(s, Commit(s, step, v))
  {
    LocalEpochs(s.views[step.i], step);
    CommitEpochs(s, step, v);
    OneViewNotBelow(s, Commit(s, step, v), step.i, v);
  }

  lemma StepEpochs(s: Cluster, step: Step)
    requires Sane(s) && EpochInv(s) && Enabled(s, step)
    ensures Sane(Apply(s, step)) && EpochInv(Apply(s, step)) && NoneBelow(s, Apply(s, step))
  {
    if step.Deliver? {
      DeliverEpochs(s, step.p, step.d, React(s.views[step.d], step.p.msg, step.adopt, step.timely), step.adopt,
        step.timely);
    } else {
      OwnStepEpochs(s, step, LocalView(s.views[step.i], step));
    }
  }

  lemma TakenStepEpochs(s: Cluster, step: Step, s': Cluster)
    requires Takes(s, step, s') && EpochInv(s)
    ensures Sane(s') && EpochInv(s') && NoneBelow(s, s')
  {
    StepEpochs(s, step);
  }

  lemma {:induction false} RunEpochs(states: seq<Cluster>, steps: seq<Step>, k: nat)
    requires IsRun(states, steps) && EpochInv(states[0]) && k < |states|
    ensures Sane(states[k]) && EpochInv(states[k])
    decreases k
  {
    hide Apply, EpochInv, Sane;
    if k > 0 {
      RunEpochs(states, steps, k - 1);
      TakenStepEpochs(states[k - 1], steps[k - 1], states[k]);
    }
  }

  /** If the first state of a run has consistent epochs, so has every state, and from any state of
      the run to any later one no node's current epoch and no config epoch in any view decreases. */
  lemma {:induction false} EpochsOverRuns(states: seq<Cluster>, steps: seq<Step>, i: nat, j: nat)
    requires IsRun(states, steps) && EpochInv(states[0]) && i <= j < |states|
    ensures Sane(states[j]) && EpochInv(states[j]) && NoneBelow(states[i], states[j])
    decreases j
  {
    hide Apply, EpochInv, Sane;
    RunEpochs(states, steps, j);
    if i < j {
      EpochsOverRuns(states, steps, i, j - 1);
      TakenStepEpochs(states[j - 1], steps[j - 1], states[j]);
      NoneBelowTransitive(states[i], states[j - 1], states[j]);
    }
  }
}
