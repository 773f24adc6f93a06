/** Elections over whole runs: a voter votes at most once in an epoch, and a candidate that
    counted no ack before sending its request counts exactly the votes cast for it in its epoch.
    Hence two such candidates never both reach a quorum of the same voters in one epoch. */
module ElectionSafety {
  import opened Basics
  import opened ClusterModel
  import opened ClusterRuns
  import opened EpochSafety

  // ---- the invariant ----

  predicate VoteOk(s: Cluster, w: Vote) {
    && w.voter in s.views && w.epoch <= s.views[w.voter].lastVoteEpoch
    && w.cand in s.hist.tallies && w.epoch <= s.hist.tallies[w.cand].asked
  }

  predicate OneVotePerEpoch(votes: set<Vote>) {
    forall w1, w2 | w1 in votes && w2 in votes && w1.voter == w2.voter && w1.epoch == w2.epoch :: w1 == w2
  }

  predicate TallyOk(v: View, t: Tally, votes: set<Vote>, delivered: set<Vote>) {
    && t.asked <= v.currentEpoch
    && (v.auth.armed ==>
          forall w | w in t.early :: w in votes && w in delivered && w.cand == v.me && w.epoch <= t.asked)
    && (v.auth.armed && !v.auth.sent ==> t.acks == {} && v.auth.count == |t.early|)
    && (v.auth.armed && v.auth.sent ==>
          && v.auth.epoch == t.asked
          && v.auth.count == |t.early| + |t.acks|
          && (forall w | w in t.early :: w.epoch < t.asked)
          && forall a | a in t.acks :: Vote(a, t.asked, v.me) in votes && Vote(a, t.asked, v.me) in delivered)
  }

  predicate VictoryOk(votes: set<Vote>, w: Victory) {
    && |w.early| + |w.acks| >= Quorum(w.size)
    && (forall u | u in w.early :: u in votes && u.cand == w.cand && u.epoch < w.epoch)
    && forall a | a in w.acks :: Vote(a, w.epoch, w.cand) in votes
  }

  predicate HistoryOk(s: Cluster)
    requires Sane(s)
  {
    && (forall w | w in s.hist.votes :: VoteOk(s, w))
    && OneVotePerEpoch(s.hist.votes)
    && s.hist.delivered <= s.hist.votes
    && (forall c | c in s.views :: TallyOk(s.views[c], s.hist.tallies[c], s.hist.votes, s.hist.delivered))
    && (forall w | w in s.hist.wins :: VictoryOk(s.hist.votes, w))
  }

  predicate PacketInv(s: Cluster, p: Packet) {
    && p.id < s.nextId
    && p.msg.hdr.sender in s.hist.tallies
    && (p.msg.AuthRequest? ==> p.msg.hdr.currentEpoch <= s.hist.tallies[p.msg.hdr.sender].asked)
    && (p.msg.AuthAck? ==> forall c | c in p.dsts :: Pending(s.hist, AckVote(p.msg.hdr, c)))
  }

  function AckVote(hdr: Header, c: NodeId): Vote { Vote(hdr.sender, hdr.currentEpoch, c) }

  predicate Pending(h: History, w: Vote) { w in h.votes && w !in h.delivered }

  predicate SameAck(p: Packet, q: Packet) {
    && p.msg.AuthAck? && q.msg.AuthAck? && p.dsts != {} && q.dsts != {}
    && p.msg.hdr.sender == q.msg.hdr.sender && p.msg.hdr.currentEpoch == q.msg.hdr.currentEpoch
  }

  predicate NetOk(s: Cluster) {
    && (forall p | p in s.net :: PacketInv(s, p))
    && (forall p, q | p in s.net && q in s.net && p.id == q.id :: p == q)
    && (forall p, q | p in s.net && q in s.net && SameAck(p, q) :: p.id == q.id)
  }

  predicate ElectionInv(s: Cluster)
    requires Sane(s)
  {
    EpochInv(s) && HistoryOk(s) && NetOk(s)
  }

  /** Nothing in flight, no round under way, no history. */
  predicate Initial(s: Cluster) {
    && Sane(s)
    && (forall i | i in s.views :: ViewEpochs(s.views[i]) && !s.views[i].auth.armed
                                   && s.hist.tallies[i] == Tally({}, {}, 0))
    && s.net == {} && s.hist.votes == {} && s.hist.delivered == {} && s.hist.wins == {}
  }

  lemma InitialInv(s: Cluster)
    requires Initial(s)
    ensures ElectionInv(s)
  {
  }

  // ---- packets ----

  /** What a step may do to the history: it only grows, a delivered vote is named, and a
      candidate's last request is not forgotten. */
  predicate HistoryGrows(h: History, h': History, w: Option<Vote>) {
    && h.votes <= h'.votes
    && h'.tallies.Keys == h.tallies.Keys
    && (forall c | c in h.tallies :: h.tallies[c].asked <= h'.tallies[c].asked)
    && (forall u | u in h'.delivered && u !in h.delivered :: w == Some(u))
  }

  /** A packet that was in flight, perhaps with destinations removed, stays well formed. */
  lemma PacketInvKept(s: Cluster, s': Cluster, q: Packet, q': Packet, w: Option<Vote>)
    requires PacketInv(s, q) && q'.id == q.id && q'.msg == q.msg && q'.dsts <= q.dsts
    requires s.nextId < s'.nextId && HistoryGrows(s.hist, s'.hist, w)
    requires q.msg.AuthAck? ==> forall c | c in q'.dsts :: w != Some(AckVote(q.msg.hdr, c))
    ensures PacketInv(s', q')
  {
    if q.msg.AuthAck? {
      forall c | c in q'.dsts ensures Pending(s'.hist, AckVote(q'.msg.hdr, c)) {
        assert Pending(s.hist, AckVote(q.msg.hdr, c));
      }
    }
  }

  /** The packet of s that packet q of the state after a delivery comes from. */
  function Origin(p: Packet, d: NodeId, q: Packet): Packet {
    if q == Passed(p, d) then p else q
  }

  lemma LandOrigin(s: Cluster, p: Packet, d: NodeId, r: Reaction, q: Packet)
    requires d in s.hist.tallies && d in s.views && p in s.net && q in Land(s, p, d, r).net && d in p.dsts
    ensures Origin(p, d, q) in s.net || (r.reply == Some(q.msg) && q.id == s.nextId)
    ensures Origin(p, d, q).id == q.id && Origin(p, d, q).msg == q.msg && q.dsts <= Origin(p, d, q).dsts
    ensures q != p || p !in s.net - {p}
  {
    LandPacket(s, p, d, r, q);
  }

  /** No packet keeps a destination it was delivered to. */
  lemma LandUnique(s: Cluster, p: Packet, d: NodeId, r: Reaction, q1: Packet, q2: Packet)
    requires d in s.hist.tallies && d in s.views && p in s.net && d in p.dsts && NetOk(s)
    requires q1 in Land(s, p, d, r).net && q2 in Land(s, p, d, r).net && q1.id == q2.id
    ensures q1 == q2
  {
    LandOrigin(s, p, d, r, q1);
    LandOrigin(s, p, d, r, q2);
    var o1, o2 := Origin(p, d, q1), Origin(p, d, q2);
    if o1 in s.net { assert PacketInv(s, o1); }
    if o2 in s.net { assert PacketInv(s, o2); }
    if o1 in s.net && o2 in s.net {
      assert o1 == o2;
      if o1 == p {
        LandNotDelivered(s, p, d, r, q1);
        LandNotDelivered(s, p, d, r, q2);
      }
    } else if o1 !in s.net && o2 !in s.net {
      LandPacket(s, p, d, r, q1);
      LandPacket(s, p, d, r, q2);
    }
  }

  lemma LandNotDelivered(s: Cluster, p: Packet, d: NodeId, r: Reaction, q: Packet)
    requires d in s.hist.tallies && d in s.views && p in s.net && d in p.dsts && NetOk(s)
    requires q in Land(s, p, d, r).net && Origin(p, d, q) == p
    ensures q == Passed(p, d)
  {
    assert PacketInv(s, p);
    LandPacket(s, p, d, r, q);
  }

  // ---- what a reaction does to the election state ----

  predicate Effect(v: View, msg: Msg, r: Reaction) {
    && r.view.me == v.me && v.currentEpoch <= r.view.currentEpoch
    && match msg
       case AuthAck(hdr) =>
         && r.reply.None? && r.view.lastVoteEpoch == v.lastVoteEpoch
         && (r.view.auth == v.auth
             || (r.view.auth == v.auth.(count := v.auth.count + 1) && hdr.currentEpoch >= v.auth.epoch))
       case AuthRequest(hdr, _) =>
         && r.view.auth == v.auth
         && (r.reply.None? ==> r.view.lastVoteEpoch == v.lastVoteEpoch)
         && (r.reply.Some? ==>
               && r.reply.value.AuthAck? && r.reply.value.hdr.sender == v.me
               && r.reply.value.hdr.currentEpoch == r.view.currentEpoch == r.view.lastVoteEpoch
               && r.view.currentEpoch == hdr.currentEpoch && v.lastVoteEpoch < r.view.lastVoteEpoch)
       case _ =>
         && r.view.auth == v.auth && r.view.lastVoteEpoch == v.lastVoteEpoch
         && (r.reply.Some? ==> r.reply.value.Update? && r.reply.value.hdr.sender == v.me)
  }

  lemma UpdateSlotsAuth(v: View, n: NodeId, epoch: nat, slots: set<nat>, adopt: bool)
    requires WellFormed(v) && n in v.peers
    ensures var v' := UpdateSlots(v, n, epoch, slots, adopt);
            v'.auth == v.auth && v'.lastVoteEpoch == v.lastVoteEpoch && v'.currentEpoch == v.currentEpoch
              && v'.me == v.me
  {
  }

  lemma GossipAuth(v: View, hdr: Header, adopt: bool)
    requires WellFormed(v) && hdr.sender != v.me
    ensures Effect(v, Gossip(hdr), HandleGossip(v, hdr, adopt))
  {
    if hdr.sender in v.peers {
      var v1 := SwitchRole(ApplyHeader(v, hdr), hdr);
      UpdateSlotsAuth(v1, hdr.sender, hdr.configEpoch, hdr.slots, adopt);
    }
  }

  lemma ReactEffect(v: View, msg: Msg, adopt: bool, timely: bool)
    requires WellFormed(v) && ViewEpochs(v) && msg.hdr.sender != v.me
    ensures Effect(v, msg, React(v, msg, adopt, timely))
  {
    hide HandleGossip, HandleUpdate;
    match msg
    case Gossip(hdr) => GossipAuth(v, hdr, adopt);
    case Update(hdr, n, epoch, slots) => UpdateAuth(v, hdr, n, epoch, slots, adopt);
    case AuthRequest(hdr, _) => hide SlotsOf;
    case _ => hide SlotsOf;
  }

  lemma UpdateAuth(v: View, hdr: Header, n: NodeId, epoch: nat, slots: set<nat>, adopt: bool)
    requires WellFormed(v) && hdr.sender != v.me
    ensures Effect(v, Update(hdr, n, epoch, slots), Reaction(HandleUpdate(v, hdr, n, epoch, slots, adopt), None))
  {
    hide UpdateSlots;
    if hdr.sender in v.peers {
      var v1 := ApplyHeader(v, hdr);
      if n in v1.peers {
        UpdateSlotsAuth(SetPeer(v1, n, SetAsMaster(v1.peers[n]).(configEpoch := epoch)), n, epoch, slots, adopt);
      }
    }
  }

  // ---- deliveries ----

  function LandedVote(p: Packet, d: NodeId): Option<Vote> {
    if p.msg.AuthAck? then Some(AckVote(p.msg.hdr, d)) else None
  }

  /** A vote cast now is the voter's first in its epoch. */
  lemma NewVote(s: Cluster, p: Packet, d: NodeId, r: Reaction)
    requires Sane(s) && ElectionInv(s) && d in s.views
    requires Effect(s.views[d], p.msg, r) && p.msg.AuthRequest? && r.reply.Some?
    ensures forall u | u in s.hist.votes && u.voter == d :: u.epoch < r.view.currentEpoch
  {
    forall u | u in s.hist.votes && u.voter == d ensures u.epoch < r.view.currentEpoch {
      assert VoteOk(s, u);
    }
  }

  lemma LandHistoryGrows(s: Cluster, p: Packet, d: NodeId, r: Reaction)
    requires d in s.hist.tallies && d in s.views
    ensures HistoryGrows(s.hist, Land(s, p, d, r).hist, LandedVote(p, d))
  {
  }

  lemma LandPacketInv(s: Cluster, p: Packet, d: NodeId, r: Reaction, q: Packet)
    requires Sane(s) && ElectionInv(s) && d in s.views && p in s.net && d in p.dsts
    requires Effect(s.views[d], p.msg, r) && q in Land(s, p, d, r).net
    ensures PacketInv(Land(s, p, d, r), q)
  {
    hide Sane, EpochInv, HistoryOk, Effect;
    SaneView(s, d);
    LandHistoryGrows(s, p, d, r);
    LandOrigin(s, p, d, r, q);
    var o := Origin(p, d, q);
    if o in s.net {
      assert PacketInv(s, o);
      if q.msg.AuthAck? {
        forall c | c in q.dsts ensures LandedVote(p, d) != Some(AckVote(q.msg.hdr, c)) {
          if LandedVote(p, d) == Some(AckVote(q.msg.hdr, c)) {
            assert SameAck(o, p);
            assert o == p;
            LandNotDelivered(s, p, d, r, q);
          }
        }
      }
      PacketInvKept(s, Land(s, p, d, r), o, q, LandedVote(p, d));
    } else {
      LandReplyInv(s, p, d, r, q);
    }
  }

  lemma LandReplyInv(s: Cluster, p: Packet, d: NodeId, r: Reaction, q: Packet)
    requires Sane(s) && ElectionInv(s) && d in s.views && p in s.net && d in p.dsts
    requires Effect(s.views[d], p.msg, r) && Sent(s, {p.msg.hdr.sender}, r.reply) == {q}
    ensures PacketInv(Land(s, p, d, r), q)
  {
    var s' := Land(s, p, d, r);
    assert r.reply == Some(q.msg) && q.id == s.nextId;
    if q.msg.AuthAck? {
      NewVote(s, p, d, r);
      assert q.dsts <= {p.msg.hdr.sender};
      var w := Vote(d, r.view.currentEpoch, p.msg.hdr.sender);
      assert w in s'.hist.votes && w !in s.hist.votes && s'.hist.delivered == s.hist.delivered;
    }
  }

  lemma LandSameAck(s: Cluster, p: Packet, d: NodeId, r: Reaction, q1: Packet, q2: Packet)
    requires Sane(s) && ElectionInv(s) && d in s.views && p in s.net && d in p.dsts
    requires Effect(s.views[d], p.msg, r)
    requires q1 in Land(s, p, d, r).net && q2 in Land(s, p, d, r).net && SameAck(q1, q2)
    ensures q1.id == q2.id
  {
    LandOrigin(s, p, d, r, q1);
    LandOrigin(s, p, d, r, q2);
    var o1, o2 := Origin(p, d, q1), Origin(p, d, q2);
    if o1 in s.net && o2 in s.net {
      assert SameAck(o1, o2);
    } else if o1 in s.net {
      NoOlderAck(s, p, d, r, o1, q2);
    } else if o2 in s.net {
      NoOlderAck(s, p, d, r, o2, q1);
    }
  }

  /** An ack in flight never carries the vote that is being cast. */
  lemma NoOlderAck(s: Cluster, p: Packet, d: NodeId, r: Reaction, o: Packet, q: Packet)
    requires Sane(s) && ElectionInv(s) && d in s.views && Effect(s.views[d], p.msg, r)
    requires o in s.net && o.dsts != {} && o.msg.AuthAck? && r.reply == Some(q.msg) && q.msg.AuthAck?
    ensures !(o.msg.hdr.sender == q.msg.hdr.sender && o.msg.hdr.currentEpoch == q.msg.hdr.currentEpoch)
  {
    NewVote(s, p, d, r);
    assert PacketInv(s, o);
    var c :| c in o.dsts;
    assert Pending(s.hist, AckVote(o.msg.hdr, c));
  }

  lemma LandNetOk(s: Cluster, p: Packet, d: NodeId, r: Reaction)
    requires Sane(s) && ElectionInv(s) && d in s.views && p in s.net && d in p.dsts
    requires Effect(s.views[d], p.msg, r)
    ensures NetOk(Land(s, p, d, r))
  {
    var s' := Land(s, p, d, r);
    forall q | q in s'.net ensures PacketInv(s', q) { LandPacketInv(s, p, d, r, q); }
    forall q1, q2 | q1 in s'.net && q2 in s'.net && q1.id == q2.id ensures q1 == q2 { LandUnique(s, p, d, r, q1, q2); }
    forall q1, q2 | q1 in s'.net && q2 in s'.net && SameAck(q1, q2) ensures q1.id == q2.id {
      LandSameAck(s, p, d, r, q1, q2);
    }
  }

  lemma VoteOkKept(s: Cluster, s': Cluster, i: NodeId, v: View, u: Vote)
    requires VoteOk(s, u) && i in s.views && s'.views == s.views[i := v]
    requires s.views[i].lastVoteEpoch <= v.lastVoteEpoch
    requires s'.hist.tallies.Keys == s.hist.tallies.Keys
    requires forall c | c in s.hist.tallies :: s.hist.tallies[c].asked <= s'.hist.tallies[c].asked
    ensures VoteOk(s', u)
  {
  }

  lemma TallyOkKept(v: View, t: Tally, votes: set<Vote>, delivered: set<Vote>, votes': set<Vote>, delivered': set<Vote>)
    requires TallyOk(v, t, votes, delivered) && votes <= votes' && delivered <= delivered'
    ensures TallyOk(v, t, votes', delivered')
  {
  }

  lemma VictoriesKept(votes: set<Vote>, votes': set<Vote>, wins: set<Victory>)
    requires votes <= votes' && forall w | w in wins :: VictoryOk(votes, w)
    ensures forall w | w in wins :: VictoryOk(votes', w)
  {
    forall w | w in wins ensures VictoryOk(votes', w) {
      assert VictoryOk(votes, w);
    }
  }

  /** Counting an ack keeps the tally right: after the request an ack for the candidate carries
      the epoch of the request, and one not counted yet. */
  lemma CountedAck(v: View, t: Tally, h: History, hdr: Header, v': View)
    requires TallyOk(v, t, h.votes, h.delivered) && Pending(h, AckVote(hdr, v.me))
    requires hdr.currentEpoch <= t.asked && hdr.currentEpoch >= v.auth.epoch
    requires v'.me == v.me && v.currentEpoch <= v'.currentEpoch && v'.auth == v.auth.(count := v.auth.count + 1)
    ensures TallyOk(v', CountAck(t, v, AckVote(hdr, v.me)), h.votes, h.delivered + {AckVote(hdr, v.me)})
  {
    if v.auth.armed && v.auth.sent {
      assert hdr.currentEpoch == t.asked;
      assert hdr.sender !in t.acks;
    } else if v.auth.armed {
      assert AckVote(hdr, v.me) !in t.early;
    }
  }

  lemma LandTally(s: Cluster, p: Packet, d: NodeId, r: Reaction)
    requires Sane(s) && ElectionInv(s) && d in s.views && p in s.net && d in p.dsts
    requires Effect(s.views[d], p.msg, r)
    ensures var h := Land(s, p, d, r).hist; TallyOk(r.view, h.tallies[d], h.votes, h.delivered)
  {
    var v, t, h := s.views[d], s.hist.tallies[d], s.hist;
    assert TallyOk(v, t, h.votes, h.delivered);
    if p.msg.AuthAck? {
      assert PacketInv(s, p);
      assert Pending(h, AckVote(p.msg.hdr, d));
      assert VoteOk(s, AckVote(p.msg.hdr, d));
      if r.view.auth.count != v.auth.count {
        CountedAck(v, t, h, p.msg.hdr, r.view);
      }
    }
  }

  lemma LandVoteOk(s: Cluster, p: Packet, d: NodeId, r: Reaction, u: Vote)
    requires Sane(s) && ElectionInv(s) && d in s.views && p in s.net && d in p.dsts
    requires Effect(s.views[d], p.msg, r) && u in Land(s, p, d, r).hist.votes
    ensures VoteOk(Land(s, p, d, r), u)
  {
    hide Sane, EpochInv, WellFormed;
    SaneView(s, d);
    LandHistoryGrows(s, p, d, r);
    assert PacketInv(s, p);
    if u in s.hist.votes { VoteOkKept(s, Land(s, p, d, r), d, r.view, u); }
  }

  lemma LandVotes(s: Cluster, p: Packet, d: NodeId, r: Reaction)
    requires Sane(s) && ElectionInv(s) && d in s.views && p in s.net && d in p.dsts
    requires Effect(s.views[d], p.msg, r)
    ensures OneVotePerEpoch(Land(s, p, d, r).hist.votes)
    ensures Land(s, p, d, r).hist.delivered <= Land(s, p, d, r).hist.votes
  {
    assert PacketInv(s, p);
    if p.msg.AuthRequest? && r.reply.Some? { NewVote(s, p, d, r); }
    if p.msg.AuthAck? { assert Pending(s.hist, AckVote(p.msg.hdr, d)); }
  }

  lemma LandElection(s: Cluster, p: Packet, d: NodeId, r: Reaction)
    requires Sane(s) && ElectionInv(s) && d in s.views && p in s.net && d in p.dsts
    requires Effect(s.views[d], p.msg, r)
    requires Sane(Land(s, p, d, r)) && EpochInv(Land(s, p, d, r))
    ensures ElectionInv(Land(s, p, d, r))
  {
    var s' := Land(s, p, d, r);
    LandNetOk(s, p, d, r);
    LandVotes(s, p, d, r);
    forall u | u in s'.hist.votes ensures VoteOk(s', u) { LandVoteOk(s, p, d, r, u); }
    LandTally(s, p, d, r);
    forall c | c in s'.views ensures TallyOk(s'.views[c], s'.hist.tallies[c], s'.hist.votes, s'.hist.delivered) {
      if c != d {
        TallyOkKept(s.views[c], s.hist.tallies[c], s.hist.votes, s.hist.delivered, s'.hist.votes, s'.hist.delivered);
      }
    }
    VictoriesKept(s.hist.votes, s'.hist.votes, s'.hist.wins);
  }

  // ---- a node's own steps ----

  lemma CommitHistoryGrows(s: Cluster, step: Step, v: View)
    requires Sane(s) && ElectionInv(s) && !step.Deliver? && step.i in s.views && WellFormed(v)
    requires s.views[step.i].currentEpoch <= v.currentEpoch
    ensures HistoryGrows(s.hist, Commit(s, step, v).hist, None)
  {
    assert TallyOk(s.views[step.i], s.hist.tallies[step.i], s.hist.votes, s.hist.delivered);
  }

  lemma CommitPacket(s: Cluster, step: Step, v: View, q: Packet)
    requires !step.Deliver? && step.i in s.hist.tallies && WellFormed(v) && q in Commit(s, step, v).net
    ensures q in s.net || (Outgoing(v, step) == Some(q.msg) && q.id == s.nextId
            && Sent(s, Destinations(v, step), Outgoing(v, step)) == {q})
  {
  }

  lemma CommitPacketInv(s: Cluster, step: Step, v: View, q: Packet)
    requires Sane(s) && ElectionInv(s) && !step.Deliver? && step.i in s.views && ViewOk(v, step.i)
    requires s.views[step.i].currentEpoch <= v.currentEpoch
    requires q in Commit(s, step, v).net
    ensures PacketInv(Commit(s, step, v), q)
  {
    CommitHistoryGrows(s, step, v);
    CommitPacket(s, step, v, q);
    if q in s.net {
      assert PacketInv(s, q);
      PacketInvKept(s, Commit(s, step, v), q, q, None);
    }
  }

  lemma CommitNetOk(s: Cluster, step: Step, v: View)
    requires Sane(s) && ElectionInv(s) && !step.Deliver? && step.i in s.views && ViewOk(v, step.i)
    requires s.views[step.i].currentEpoch <= v.currentEpoch
    ensures NetOk(Commit(s, step, v))
  {
    var s' := Commit(s, step, v);
    forall q | q in s'.net ensures PacketInv(s', q) { CommitPacketInv(s, step, v, q); }
    forall q1, q2 | q1 in s'.net && q2 in s'.net && q1.id == q2.id ensures q1 == q2 {
      CommitPacket(s, step, v, q1);
      CommitPacket(s, step, v, q2);
      if q1 in s.net { assert PacketInv(s, q1); }
      if q2 in s.net { assert PacketInv(s, q2); }
    }
    forall q1, q2 | q1 in s'.net && q2 in s'.net && SameAck(q1, q2) ensures q1.id == q2.id {
      CommitPacket(s, step, v, q1);
      CommitPacket(s, step, v, q2);
    }
  }

  /** What a node's own step does to its part in an election. */
  lemma LocalTally(v: View, t: Tally, h: History, step: Step)
    requires WellFormed(v) && ViewEpochs(v) && !step.Deliver? && LocalEnabled(v, step) && step.i == v.me
    requires v.me in h.tallies && t == h.tallies[v.me] && TallyOk(v, t, h.votes, h.delivered)
    ensures var v' := LocalView(v, step);
            && v'.lastVoteEpoch == v.lastVoteEpoch
            && TallyOk(v', CommitHistory(h, step, v').tallies[v.me], h.votes, h.delivered)
  {
  }

  lemma CommitElection(s: Cluster, step: Step, v: View)
    requires Sane(s) && ElectionInv(s) && !step.Deliver? && step.i in s.views && LocalEnabled(s.views[step.i], step)
    requires v == LocalView(s.views[step.i], step) && s.views[step.i].currentEpoch <= v.currentEpoch
    requires Sane(Commit(s, step, v)) && EpochInv(Commit(s, step, v))
    ensures ElectionInv(Commit(s, step, v))
  {
    var s' := Commit(s, step, v);
    CommitNetOk(s, step, v);
    CommitHistoryGrows(s, step, v);
    assert TallyOk(s.views[step.i], s.hist.tallies[step.i], s.hist.votes, s.hist.delivered);
    LocalTally(s.views[step.i], s.hist.tallies[step.i], s.hist, step);
    CommitHistoryOk(s, step, v);
  }

  lemma CommitWins(s: Cluster, step: Step, v: View, w: Victory)
    requires !step.Deliver? && step.i in s.views && step.i in s.hist.tallies && WellFormed(v)
    requires forall w | w in s.hist.wins :: VictoryOk(s.hist.votes, w)
    requires TallyOk(s.views[step.i], s.hist.tallies[step.i], s.hist.votes, s.hist.delivered)
    requires WellFormed(s.views[step.i]) && LocalEnabled(s.views[step.i], step) && s.views[step.i].me == step.i
    requires v.auth.epoch == s.views[step.i].auth.epoch || !step.Win?
    requires w in Commit(s, step, v).hist.wins
    ensures VictoryOk(s.hist.votes, w)
  {
    if w !in s.hist.wins {
      assert step.Win?;
    }
  }

  lemma CommitHistoryOk(s: Cluster, step: Step, v: View)
    requires Sane(s) && HistoryOk(s) && !step.Deliver? && step.i in s.views && LocalEnabled(s.views[step.i], step)
    requires v.auth.epoch == s.views[step.i].auth.epoch || !step.Win?
    requires WellFormed(v) && Sane(Commit(s, step, v)) && v.lastVoteEpoch == s.views[step.i].lastVoteEpoch
    requires HistoryGrows(s.hist, Commit(s, step, v).hist, None)
    requires TallyOk(v, Commit(s, step, v).hist.tallies[step.i], s.hist.votes, s.hist.delivered)
    ensures HistoryOk(Commit(s, step, v))
  {
    hide Sane, WellFormed, LocalEnabled, VictoryOk, VoteOk, TallyOk;
    SaneView(s, step.i);
    var s' := Commit(s, step, v);
    forall u | u in s'.hist.votes ensures VoteOk(s', u) { VoteOkKept(s, s', step.i, v, u); }
    forall w | w in s'.hist.wins ensures VictoryOk(s'.hist.votes, w) { CommitWins(s, step, v, w); }
  }

  // ---- runs ----

  lemma StepViewEpochs(s: Cluster, step: Step)
    requires Sane(s) && EpochInv(s) && Enabled(s, step)
    ensures ViewEpochs(s.views[if step.Deliver? then step.d else step.i])
  {
  }

  lemma StepElection(s: Cluster, step: Step)
    requires Sane(s) && ElectionInv(s) && Enabled(s, step)
    ensures Sane(Apply(s, step)) && ElectionInv(Apply(s, step))
  {
    hide EpochInv, HistoryOk, NetOk, Sane, React, LocalView, Land, Commit, WellFormed;
    StepEpochs(s, step);
    StepViewEpochs(s, step);
    if step.Deliver? {
      SaneView(s, step.d);
      SanePacket(s, step.p);
      var r := React(s.views[step.d], step.p.msg, step.adopt, step.timely);
      ReactEffect(s.views[step.d], step.p.msg, step.adopt, step.timely);
      LandElection(s, step.p, step.d, r);
    } else {
      SaneView(s, step.i);
      LocalEpochs(s.views[step.i], step);
      CommitElection(s, step, LocalView(s.views[step.i], step));
    }
  }

  lemma TakenStepElection(s: Cluster, step: Step, s': Cluster)
    requires Takes(s, step, s') && ElectionInv(s)
    ensures Sane(s') && ElectionInv(s')
  {
    StepElection(s, step);
  }

  lemma {:induction false} ElectionsOverRuns(states: seq<Cluster>, steps: seq<Step>, k: nat)
    requires IsRun(states, steps) && Initial(states[0]) && k < |states|
    ensures Sane(states[k]) && ElectionInv(states[k])
    decreases k
  {
    hide ElectionInv, Sane, Takes, Initial;
    if k == 0 {
      InitialInv(states[0]);
    } else {
      ElectionsOverRuns(states, steps, k - 1);
      TakenStepElection(states[k - 1], steps[k - 1], states[k]);
    }
  }

  /** In every state of every run: a voter voted at most once in an epoch, and a candidate that
      has sent its request counted distinct voters who voted for it exactly in the epoch it asked
      for, plus the early votes of its round, which were all cast in smaller epochs. So the count is
      the number of votes it has in its epoch if and only if no ack was counted between scheduling
      the round and sending the request. */
  lemma CountedVotesAreExact(states: seq<Cluster>, steps: seq<Step>, k: nat, c: NodeId)
    requires IsRun(states, steps) && Initial(states[0]) && k < |states| && c in states[k].views
    ensures var h := states[k].hist; OneVotePerEpoch(h.votes) && c in h.tallies
    ensures var v, t, h := states[k].views[c], states[k].hist.tallies[c], states[k].hist;
            v.auth.armed && v.auth.sent ==>
              && (forall a | a in t.acks :: Vote(a, v.auth.epoch, c) in h.votes)
              && (forall w | w in t.early :: w in h.votes && w.cand == c && w.epoch < v.auth.epoch)
              && v.auth.count == |t.early| + |t.acks|
              && (v.auth.count == |t.acks| <==> t.early == {})
  {
    ElectionsOverRuns(states, steps, k);
    var s := states[k];
    assert ViewOk(s.views[c], c);
    assert TallyOk(s.views[c], s.hist.tallies[c], s.hist.votes, s.hist.delivered);
  }

  /** A quorum is the smallest number of voters that two sets of them cannot both have apart. */
  lemma QuorumIsLeast(size: nat)
    ensures 2 * Quorum(size) > size && 2 * (Quorum(size) - 1) <= size
  {
  }

  lemma QuorumsMeet(a: set<NodeId>, b: set<NodeId>, voters: set<NodeId>)
    requires a <= voters && b <= voters && |a| >= Quorum(|voters|) && |b| >= Quorum(|voters|)
    ensures a * b != {}
  {
    if a * b == {} {
      assert |a + b| == |a| + |b|;
      SubsetSize(a + b, voters);
    }
  }

  lemma SubsetSize(a: set<NodeId>, b: set<NodeId>)
    requires a <= b
    ensures |a| <= |b|
  {
    assert b == a + (b - a);
  }

  /** Election safety: in any run, if two victories in the same epoch were counted without early
      acks, or had a quorum without them, from the same set of voters, and against a cluster size no
      smaller than that set, then they are victories of one candidate. */
  lemma OneWinnerPerEpoch(states: seq<Cluster>, steps: seq<Step>, k: nat, w1: Victory, w2: Victory, voters: set<NodeId>)
    requires IsRun(states, steps) && Initial(states[0]) && k < |states|
    requires w1 in states[k].hist.wins && w2 in states[k].hist.wins && w1.epoch == w2.epoch
    requires w1.early == {} || |w1.acks| >= Quorum(w1.size)
    requires w2.early == {} || |w2.acks| >= Quorum(w2.size)
    requires w1.acks <= voters && w2.acks <= voters && w1.size >= |voters| && w2.size >= |voters|
    ensures w1.cand == w2.cand
  {
    ElectionsOverRuns(states, steps, k);
    var votes := states[k].hist.votes;
    assert VictoryOk(votes, w1) && VictoryOk(votes, w2);
    QuorumsMeet(w1.acks, w2.acks, voters);
    var a :| a in w1.acks * w2.acks;
    assert Vote(a, w1.epoch, w1.cand) in votes && Vote(a, w2.epoch, w2.cand) in votes;
  }
}
