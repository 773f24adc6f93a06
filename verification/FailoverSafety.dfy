/** Failovers over whole runs: every vote was deserved when it was cast, and whoever has won an election carries an
    epoch that lets its claims through. */
module FailoverSafety {
  import opened Basics
  import opened ClusterModel
  import opened ClusterRuns
  import opened EpochSafety
  import opened ElectionSafety
  import opened PacketEffects

  // ---- votes ----

  /** Step `step`, taken in state s, is the handling of the request that vote w answers. */
  predicate Casts(s: Cluster, step: Step, w: Vote) {
    && step.Deliver? && step.p in s.net && step.d == w.voter && step.d in s.views
    && step.p.msg.AuthRequest? && step.p.msg.hdr.sender == w.cand && step.p.msg.hdr.currentEpoch == w.epoch
    && WellFormed(s.views[w.voter])
    && Deserves(s.views[w.voter], step.p.msg.hdr, step.p.msg.force, step.timely)
  }

  lemma ReactionVotes(v: View, msg: Msg, adopt: bool, timely: bool)
    requires WellFormed(v) && msg.hdr.sender != v.me
    ensures var r := React(v, msg, adopt, timely);
            r.reply.Some? && r.reply.value.AuthAck? ==>
              && msg.AuthRequest? && Deserves(v, msg.hdr, msg.force, timely)
              && r.view.currentEpoch == msg.hdr.currentEpoch
  {
    if msg.AuthRequest? { VoteGrantedIff(v, msg.hdr, msg.force, timely); }
    hide Deserves, WellFormed, SwitchRole, ApplyClaim, RepairCollision, HandleAuthRequest;
  }

  lemma StepCasts(s: Cluster, step: Step, s': Cluster, w: Vote)
    requires Takes(s, step, s') && w in s'.hist.votes && w !in s.hist.votes
    ensures Casts(s, step, w)
  {
    hide Deserves, React, WellFormed, LocalView, LocalEnabled;
    if step.Deliver? {
      SaneView(s, step.d);
      SanePacket(s, step.p);
      ReactionVotes(s.views[step.d], step.p.msg, step.adopt, step.timely);
    }
  }

  /** Every vote of every run was cast on a request of the candidate for that epoch, by a voter in whose view the
      candidate deserved it: unless the request was forced, its master was down. */
  lemma {:induction false} VotesAreDeserved(states: seq<Cluster>, steps: seq<Step>, k: nat, w: Vote) returns (i: nat)
    requires IsRun(states, steps) && Initial(states[0]) && k < |states| && w in states[k].hist.votes
    ensures i < k && Casts(states[i], steps[i], w)
    ensures var v, msg := states[i].views[w.voter], steps[i].p.msg;
            !msg.force ==> && w.cand in v.peers && v.peers[w.cand].master.Some?
                           && v.peers[w.cand].master.value in v.peers && v.peers[v.peers[w.cand].master.value].failed
    decreases k
  {
    hide Casts, Takes;
    if w in states[k - 1].hist.votes {
      i := VotesAreDeserved(states, steps, k - 1, w);
    } else {
      i := k - 1;
      StepCasts(states[i], steps[i], states[k], w);
      DeservedIsDown(states[i], steps[i], w);
    }
  }

  lemma DeservedIsDown(s: Cluster, step: Step, w: Vote)
    requires Casts(s, step, w)
    ensures w.voter in s.views && step.Deliver? && step.p.msg.AuthRequest?
    ensures var v, msg := s.views[w.voter], step.p.msg;
            !msg.force ==> && w.cand in v.peers && v.peers[w.cand].master.Some?
                           && v.peers[w.cand].master.value in v.peers && v.peers[v.peers[w.cand].master.value].failed
  {
  }

  // ---- winners ----

  predicate Carries(s: Cluster, w: Victory) {
    w.cand in s.views && w.cand in s.views[w.cand].peers && s.views[w.cand].peers[w.cand].configEpoch >= w.epoch
  }

  lemma WinCarries(s: Cluster, step: Step, s': Cluster, w: Victory)
    requires Takes(s, step, s') && w in s'.hist.wins && w !in s.hist.wins
    ensures Carries(s', w) && step.Win? && step.i == w.cand && w.size == step.size
    ensures s.views[step.i].auth.epoch == w.epoch
  {
    hide React, WellFormed;
    if !step.Deliver? { SaneView(s, step.i); }
  }

  /** In every state of every run, whoever has won an election has a config epoch no smaller than that election's. */
  lemma {:induction false} WinnersCarryTheirEpoch(states: seq<Cluster>, steps: seq<Step>, k: nat, w: Victory)
    requires IsRun(states, steps) && Initial(states[0]) && k < |states| && w in states[k].hist.wins
    ensures Carries(states[k], w)
    decreases k
  {
    hide Takes, Sane, EpochInv, ElectionInv;
    if w in states[k - 1].hist.wins {
      WinnersCarryTheirEpoch(states, steps, k - 1, w);
      InitialInv(states[0]);
      EpochsOfElection(states[0]);
      EpochsOverRuns(states, steps, k - 1, k);
      StillCarries(states[k - 1], states[k], w);
    } else {
      WinCarries(states[k - 1], steps[k - 1], states[k], w);
    }
  }

  lemma EpochsOfElection(s: Cluster)
    requires Sane(s) && ElectionInv(s)
    ensures EpochInv(s)
  {
  }

  lemma StillCarries(s: Cluster, s': Cluster, w: Victory)
    requires Carries(s, w) && NoneBelow(s, s')
    ensures Carries(s', w)
  {
  }

  /** Slot j is the master's of the node whose view this is. */
  predicate OfItsMaster(v: View, j: nat) {
    v.me in v.peers && j < |v.owner| && v.owner[j] == v.peers[v.me].master
  }

  /** Slot j is c's, or unassigned, or its owner is known by a smaller epoch. */
  predicate GivesWay(u: View, c: NodeId, epoch: nat, j: nat) {
    && WellFormed(u) && c in u.peers && c != u.me && j < |u.owner|
    && (u.owner[j].None? || u.owner[j] == Some(c) || u.peers[u.owner[j].value].configEpoch < epoch)
  }

  /** Hearing a fresh header of v.me, whoever has view u gives it slot j. */
  predicate GetsSlot(v: View, u: View, j: nat, adopt: bool) {
    && WellFormed(v) && WellFormed(u) && v.me != u.me
    && var owner := HandleGossip(u, MakeHeader(v), adopt).view.owner;
       j < |owner| && owner[j] == Some(v.me)
  }

  /** A replica that has won an election takes over: whoever knows its old master, or any other owner of one of the
      old master's slots, by a smaller epoch than the election's, gives it that slot on its next header. */
  lemma TakeOverIsHeard(states: seq<Cluster>, steps: seq<Step>, k: nat, w: Victory, d: NodeId, j: nat, adopt: bool)
    requires IsRun(states, steps) && Initial(states[0]) && k < |steps| && w in states[k].hist.wins
    requires steps[k] == ReplaceMaster(w.cand) && w.cand in states[k].views && OfItsMaster(states[k].views[w.cand], j)
    requires d in states[k + 1].views && GivesWay(states[k + 1].views[d], w.cand, w.epoch, j)
    ensures w.cand in states[k + 1].views && GetsSlot(states[k + 1].views[w.cand], states[k + 1].views[d], j, adopt)
  {
    hide HandleGossip, Carries, Sane, Initial, OfItsMaster;
    WinnersCarryTheirEpoch(states, steps, k, w);
    var s, s' := states[k], states[k + 1];
    assert Takes(s, steps[k], s');
    hide Takes;
    TakenOver(s, s', w, j);
    HeardClaim(s'.views[d], MakeHeader(s'.views[w.cand]), j, adopt);
  }

  lemma TakenOver(s: Cluster, s': Cluster, w: Victory, j: nat)
    requires Takes(s, ReplaceMaster(w.cand), s') && Carries(s, w) && OfItsMaster(s.views[w.cand], j)
    ensures w.cand in s'.views && ViewOk(s'.views[w.cand], w.cand)
    ensures var hdr := MakeHeader(s'.views[w.cand]);
            hdr.sender == w.cand && hdr.slaveOf.None? && j in hdr.slots && hdr.configEpoch >= w.epoch
  {
    hide Takes, TakeOver, MakeHeader, WellFormed, OfItsMaster;
    TakeOverStep(s, s', w.cand);
    TakeOverHeader(s.views[w.cand], j);
  }

  lemma TakeOverStep(s: Cluster, s': Cluster, c: NodeId)
    requires Takes(s, ReplaceMaster(c), s')
    ensures c in s.views && ViewOk(s.views[c], c) && !s.views[c].peers[c].isMaster
    ensures c in s'.views && s'.views[c] == TakeOver(s.views[c]) && ViewOk(s'.views[c], c)
  {
    SaneView(s, c);
    SaneView(s', c);
    hide Sane, TakeOver, WellFormed;
  }

  lemma TakeOverHeader(v: View, j: nat)
    requires WellFormed(v) && !v.peers[v.me].isMaster && OfItsMaster(v, j)
    ensures var hdr := MakeHeader(TakeOver(v));
            && hdr.sender == v.me && hdr.slaveOf.None? && j in hdr.slots && hdr.configEpoch == MyConfigEpoch(v)
  {
    assert TakeOver(v).owner[j] == Some(v.me);
    hide ReplaceOwner;
  }
}
