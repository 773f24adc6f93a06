/** The cluster as a transition system: one view per node, packets in flight, and one
    atomic step per handler. History variables record the votes cast, what every candidate
    counted, and the elections won. */
module ClusterRuns {
  import opened Basics
  import opened ClusterModel

  /** A packet still to be delivered, at most once, to each node of `dsts`. A packet that
      stays in flight for ever is a lost one. */
  datatype Packet = Packet(id: nat, dsts: set<NodeId>, msg: Msg)

  datatype Vote = Vote(voter: NodeId, epoch: nat, cand: NodeId)

  /** What a candidate counted in its present round: the `early` votes between scheduling the round
      and sending its request, and the voters of the acks after it. `asked` is the last epoch it
      requested. */
  datatype Tally = Tally(early: set<Vote>, acks: set<NodeId>, asked: nat)

  datatype Victory = Victory(cand: NodeId, epoch: nat, early: set<Vote>, acks: set<NodeId>, size: nat)

  datatype History = History(votes: set<Vote>, delivered: set<Vote>, tallies: map<NodeId, Tally>, wins: set<Victory>)

  datatype Cluster = Cluster(views: map<NodeId, View>, net: set<Packet>, nextId: nat, hist: History)

  datatype Step =
    | Ping(i: NodeId, dsts: set<NodeId>)
    | Deliver(p: Packet, d: NodeId, adopt: bool, timely: bool)
    | BumpEpoch(i: NodeId)
    | SetConfigEpoch(i: NodeId, epoch: nat)
    | AssignSlots(i: NodeId, n: NodeId, slots: set<nat>)
    | Suspect(i: NodeId, n: NodeId, failed: bool)
    | SendFail(i: NodeId, n: NodeId, dsts: set<NodeId>)
    | ScheduleRound(i: NodeId)
    | ExpireRound(i: NodeId)
    | RequestVotes(i: NodeId, force: bool)
    | Win(i: NodeId, size: nat)
    | ReplaceMaster(i: NodeId)

  function React(v: View, msg: Msg, adopt: bool, timely: bool): (r: Reaction)
    requires WellFormed(v) && msg.hdr.sender != v.me
    ensures WellFormed(r.view)
  {
    match msg
    case Gossip(hdr) => HandleGossip(v, hdr, adopt)
    case Update(hdr, n, epoch, slots) => Reaction(HandleUpdate(v, hdr, n, epoch, slots, adopt), None)
    case AuthRequest(hdr, force) => HandleAuthRequest(v, hdr, force, timely)
    case AuthAck(hdr) => Reaction(HandleAuthAck(v, hdr), None)
    case Fail(hdr, n) => Reaction(HandleFail(v, hdr, n), None)
  }

  predicate ViewOk(v: View, i: NodeId) {
    WellFormed(v) && v.me == i
  }

  predicate PacketOk(s: Cluster, p: Packet) {
    p.msg.hdr.sender in s.views && p.msg.hdr.sender !in p.dsts
  }

  predicate Sane(s: Cluster) {
    && (forall i | i in s.views :: ViewOk(s.views[i], i))
    && (forall p | p in s.net :: PacketOk(s, p))
    && s.hist.tallies.Keys == s.views.Keys
  }

  lemma SaneView(s: Cluster, i: NodeId)
    requires Sane(s) && i in s.views
    ensures ViewOk(s.views[i], i) && i in s.hist.tallies
  {
  }

  lemma SanePacket(s: Cluster, p: Packet)
    requires Sane(s) && p in s.net
    ensures PacketOk(s, p)
  {
  }

  /** The packet that sending o adds; a node never sends to itself. */
  function Sent(s: Cluster, dsts: set<NodeId>, o: Option<Msg>): set<Packet> {
    if o.Some? then {Packet(s.nextId, dsts - {o.value.hdr.sender}, o.value)} else {}
  }

  predicate IsReplica(v: View)
    requires WellFormed(v)
  {
    !v.peers[v.me].isMaster
  }

  /** When node v.me may take a step of its own. */
  predicate LocalEnabled(v: View, step: Step)
    requires WellFormed(v) && !step.Deliver?
  {
    match step
    case SetConfigEpoch(_, _) => v.peers.Keys == {v.me} && MyConfigEpoch(v) == 0
    case AssignSlots(_, n, _) => n in v.peers
    case Suspect(_, n, _) => n in v.peers && n != v.me
    case ScheduleRound(_) => IsReplica(v)
    case ExpireRound(_) => IsReplica(v) && v.auth.armed
    case RequestVotes(_, _) => IsReplica(v) && v.auth.armed && !v.auth.sent
    case Win(_, size) => IsReplica(v) && v.auth.armed && v.auth.sent && v.auth.count >= Quorum(size)
    case ReplaceMaster(_) => IsReplica(v)
    case _ => true
  }

  function LocalView(v: View, step: Step): (v': View)
    requires WellFormed(v) && !step.Deliver? && LocalEnabled(v, step)
    ensures WellFormed(v') && v'.me == v.me
  {
    match step
    case BumpEpoch(_) => Bump(v)
    case SetConfigEpoch(_, epoch) =>
      SetPeer(v.(currentEpoch := Max(v.currentEpoch, epoch)), v.me, v.peers[v.me].(configEpoch := epoch))
    case AssignSlots(_, n, slots) => SetSlots(v, n, slots)
    case Suspect(_, n, failed) => SetPeer(v, n, v.peers[n].(failed := failed))
    case ScheduleRound(_) => Schedule(v)
    case ExpireRound(_) => Expire(v)
    case RequestVotes(_, _) => StartRequest(v)
    case Win(_, _) => WinElection(v)
    case ReplaceMaster(_) => TakeOver(v)
    case _ => v
  }

  /** The message, if any, that a step of node v.me sends. */
  function Outgoing(v: View, step: Step): (o: Option<Msg>)
    requires WellFormed(v) && !step.Deliver?
    ensures o.Some? ==> o.value.hdr == MakeHeader(v) && !o.value.Update? && !o.value.AuthAck?
  {
    match step
    case Ping(_, dsts) => Some(Gossip(MakeHeader(v)))
    case SendFail(_, n, dsts) => Some(Fail(MakeHeader(v), n))
    case RequestVotes(_, force) => Some(AuthRequest(MakeHeader(v), force))
    case _ => None
  }

  function Destinations(v: View, step: Step): set<NodeId> {
    match step
    case Ping(_, dsts) => dsts
    case SendFail(_, _, dsts) => dsts
    case _ => v.peers.Keys
  }

  predicate Enabled(s: Cluster, step: Step)
    requires Sane(s)
  {
    if step.Deliver? then step.p in s.net && step.d in step.p.dsts && step.d in s.views
    else step.i in s.views && LocalEnabled(s.views[step.i], step)
  }

  /** What a candidate with view v recorded after it counted an ack. */
  function CountAck(t: Tally, v: View, w: Vote): Tally {
    if v.auth.sent then t.(acks := t.acks + {w.voter}) else t.(early := t.early + {w})
  }

  /** History after node d, whose view was v, reacted with r to packet p. */
  function LandHistory(h: History, v: View, p: Packet, d: NodeId, r: Reaction): (h': History)
    requires d in h.tallies
    ensures h'.tallies.Keys == h.tallies.Keys
  {
    var hdr := p.msg.hdr;
    if p.msg.AuthAck? then
      var w := Vote(hdr.sender, hdr.currentEpoch, d);
      var t := if r.view.auth.count == v.auth.count then h.tallies[d] else CountAck(h.tallies[d], v, w);
      History(h.votes, h.delivered + {w}, h.tallies[d := t], h.wins)
    else if r.reply.Some? && r.reply.value.AuthAck? then
      h.(votes := h.votes + {Vote(d, r.view.currentEpoch, hdr.sender)})
    else h
  }

  /** Packet p once delivered to d. */
  function Passed(p: Packet, d: NodeId): Packet {
    Packet(p.id, p.dsts - {d}, p.msg)
  }

  /** The state after node d reacted with r to packet p. */
  function Land(s: Cluster, p: Packet, d: NodeId, r: Reaction): Cluster
    requires d in s.hist.tallies && d in s.views
  {
    Cluster(s.views[d := r.view],
            s.net - {p} + {Passed(p, d)} + Sent(s, {p.msg.hdr.sender}, r.reply),
            s.nextId + 1,
            LandHistory(s.hist, s.views[d], p, d, r))
  }

  /** History after a step of node step.i that left it with view v. */
  function CommitHistory(h: History, step: Step, v: View): (h': History)
    requires !step.Deliver? && step.i in h.tallies
    ensures h'.tallies.Keys == h.tallies.Keys && h'.votes == h.votes && h'.delivered == h.delivered
    ensures forall c | c in h.tallies && c != step.i :: h'.tallies[c] == h.tallies[c]
  {
    var t := h.tallies[step.i];
    match step
    case ScheduleRound(i) => h.(tallies := h.tallies[i := Tally({}, {}, t.asked)])
    case RequestVotes(i, _) => h.(tallies := h.tallies[i := Tally(t.early, {}, v.currentEpoch)])
    case Win(i, size) => h.(wins := h.wins + {Victory(i, v.auth.epoch, t.early, t.acks, size)})
    case _ => h
  }

  /** The state after node step.i took a step of its own that left it with view v. */
  function Commit(s: Cluster, step: Step, v: View): Cluster
    requires !step.Deliver? && step.i in s.hist.tallies && WellFormed(v)
  {
    Cluster(s.views[step.i := v], s.net + Sent(s, Destinations(v, step), Outgoing(v, step)), s.nextId + 1,
            CommitHistory(s.hist, step, v))
  }

  function Apply(s: Cluster, step: Step): Cluster
    requires Sane(s) && Enabled(s, step)
  {
    if step.Deliver? then Land(s, step.p, step.d, React(s.views[step.d], step.p.msg, step.adopt, step.timely))
    else Commit(s, step, LocalView(s.views[step.i], step))
  }

  lemma ReactShape(v: View, msg: Msg, adopt: bool, timely: bool)
    requires WellFormed(v) && msg.hdr.sender != v.me
    ensures React(v, msg, adopt, timely).view.me == v.me
    ensures React(v, msg, adopt, timely).reply.Some? ==> React(v, msg, adopt, timely).reply.value.hdr.sender == v.me
  {
    hide HandleGossip, GrantsVote, CountsAck, UpdateSlots;
    match msg
    case Gossip(hdr) => GossipShape(v, hdr, adopt);
    case Update(hdr, n, epoch, slots) =>
      var v1 := ApplyHeader(v, hdr);
      if n in v1.peers {
        UpdateShape(SetPeer(v1, n, SetAsMaster(v1.peers[n]).(configEpoch := epoch)), n, epoch, slots, adopt);
      }
    case _ =>
  }

  lemma UpdateShape(v: View, n: NodeId, epoch: nat, slots: set<nat>, adopt: bool)
    requires WellFormed(v) && n in v.peers
    ensures UpdateSlots(v, n, epoch, slots, adopt).me == v.me
  {
    hide LosesASlot, Rebind, SlotsOf;
  }

  lemma GossipShape(v: View, hdr: Header, adopt: bool)
    requires WellFormed(v) && hdr.sender != v.me
    ensures var r := HandleGossip(v, hdr, adopt);
            r.view.me == v.me && (r.reply.Some? ==> r.reply.value.hdr.sender == v.me)
  {
    hide DirtySlots, UpdateSlots, Collides, ClearOwner, NewerOwner, SlotsOf;
    if hdr.sender in v.peers {
      UpdateShape(SwitchRole(ApplyHeader(v, hdr), hdr), hdr.sender, hdr.configEpoch, hdr.slots, adopt);
    }
  }

  /** A packet in flight after a delivery was in flight before, or is the delivered one with a
      destination less, or is the reply. */
  lemma LandPacket(s: Cluster, p: Packet, d: NodeId, r: Reaction, q: Packet)
    requires d in s.hist.tallies && d in s.views && q in Land(s, p, d, r).net
    ensures (q in s.net && q != p) || q == Passed(p, d) || Sent(s, {p.msg.hdr.sender}, r.reply) == {q}
  {
  }

  /** Every step keeps the shape of the state. */
  lemma LandSane(s: Cluster, p: Packet, d: NodeId, r: Reaction)
    requires Sane(s) && p in s.net && d in p.dsts && d in s.views
    requires ViewOk(r.view, d) && (r.reply.Some? ==> r.reply.value.hdr.sender == d)
    ensures Sane(Land(s, p, d, r))
  {
    var s' := Land(s, p, d, r);
    forall q | q in s'.net ensures PacketOk(s', q) {
      LandPacket(s, p, d, r, q);
      if q in s.net { assert PacketOk(s, q); } else if q == Passed(p, d) { assert PacketOk(s, p); }
    }
  }

  lemma CommitSane(s: Cluster, step: Step, v: View)
    requires Sane(s) && !step.Deliver? && step.i in s.views && ViewOk(v, step.i)
    ensures Sane(Commit(s, step, v))
  {
    var s' := Commit(s, step, v);
    forall q | q in s'.net ensures PacketOk(s', q) {
      if q in s.net { assert PacketOk(s, q); }
    }
  }

  /** Every step keeps the shape of the state. */
  lemma ApplySane(s: Cluster, step: Step)
    requires Sane(s) && Enabled(s, step)
    ensures Sane(Apply(s, step))
    ensures Apply(s, step).views.Keys == s.views.Keys
  {
    if step.Deliver? {
      ReactShape(s.views[step.d], step.p.msg, step.adopt, step.timely);
      LandSane(s, step.p, step.d, React(s.views[step.d], step.p.msg, step.adopt, step.timely));
    } else {
      CommitSane(s, step, LocalView(s.views[step.i], step));
    }
  }

  /** By `ApplySane` the last conjunct follows from the others. */
  predicate Takes(s: Cluster, step: Step, s': Cluster) {
    Sane(s) && Enabled(s, step) && s' == Apply(s, step) && Sane(s')
  }

  /** A run: every state but the first follows from the one before it by a step enabled there. */
  predicate IsRun(states: seq<Cluster>, steps: seq<Step>) {
    && |states| == |steps| + 1
    && Sane(states[0])
    && forall k {:trigger steps[k]} | 0 <= k < |steps| :: Takes(states[k], steps[k], states[k + 1])
  }

  lemma RunSane(states: seq<Cluster>, steps: seq<Step>, k: nat)
    requires IsRun(states, steps) && k < |states|
    ensures Sane(states[k])
  {
    hide Sane, Enabled, Apply;
    if k > 0 { assert Takes(states[k - 1], steps[k - 1], states[k]); }
  }
}
