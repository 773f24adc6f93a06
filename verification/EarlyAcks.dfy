/** Why the election theorem asks for no early acks. Scheduling a round clears the count but
    keeps (or, after an expired round, zeroes) the epoch acks are compared with. An ack of an
    older round that arrives before the new request is sent is counted for the new round. */
module EarlyAcks {
  import opened Basics
  import opened ClusterModel
  import opened ClusterRuns
  import opened EpochSafety
  import opened ElectionSafety

  // ---- a failed master with two replicas, and two masters that vote ----

  const A: NodeId := 1
  const B: NodeId := 2
  const M: NodeId := 3
  const V: NodeId := 4
  const W: NodeId := 5

  function Peers(): map<NodeId, Peer> {
    var replica, voter := Peer(0, false, Some(M), false, false), Peer(0, true, None, false, false);
    map[A := replica, B := replica, M := Peer(0, true, None, false, true), V := voter, W := voter]
  }

  function Owner(): seq<Option<NodeId>> { [Some(M), Some(V), Some(W)] }

  function ViewOf(me: NodeId, current: nat, vote: nat, auth: Auth): View {
    View(me, current, vote, auth, Peers(), Owner())
  }

  function Idle(): Auth { Auth(false, false, 0, 0) }

  /** What a replica publishes are its master's slots. */
  function Slots(n: NodeId): set<nat> { if n == V then {1} else if n == W then {2} else {0} }

  function HeaderOf(n: NodeId, epoch: nat): Header {
    Header(n, epoch, 0, Slots(n), if n in {A, B} then Some(M) else None, false)
  }

  function Request(c: NodeId, epoch: nat): Msg { AuthRequest(HeaderOf(c, epoch), false) }

  function Ack(d: NodeId, epoch: nat): Msg { AuthAck(HeaderOf(d, epoch)) }

  lemma OwnedSlots()
    ensures SlotsOf(Owner(), M) == {0} && SlotsOf(Owner(), V) == {1} && SlotsOf(Owner(), W) == {2}
  {
  }

  lemma ViewOfShape(me: NodeId, current: nat, vote: nat, auth: Auth)
    requires me in {A, B, V, W}
    ensures ViewOk(ViewOf(me, current, vote, auth), me) && ViewOf(me, current, vote, auth).auth == auth
    ensures auth.epoch <= current && vote <= current ==> ViewEpochs(ViewOf(me, current, vote, auth))
    ensures MakeHeader(ViewOf(me, current, vote, auth)) == HeaderOf(me, current)
  {
    OwnedSlots();
  }

  lemma HeaderReaction(me: NodeId, current: nat, vote: nat, auth: Auth, n: NodeId, epoch: nat)
    requires me in {A, B, V, W} && n in {A, B, V, W}
    ensures ApplyHeader(ViewOf(me, current, vote, auth), HeaderOf(n, epoch))
            == ViewOf(me, Max(current, epoch), vote, auth)
  {
    var v := ViewOf(me, current, vote, auth);
    assert v.peers[n := v.peers[n].(configEpoch := 0)] == v.peers;
  }

  lemma Grants(d: NodeId, vote: nat, c: NodeId, epoch: nat)
    requires d in {V, W} && c in {A, B} && epoch != vote
    ensures WellFormed(ViewOf(d, epoch, vote, Idle()))
    ensures GrantsVote(ViewOf(d, epoch, vote, Idle()), HeaderOf(c, epoch), false, true)
  {
    OwnedSlots();
    ViewOfShape(d, epoch, vote, Idle());
    assert Peers()[M].failed && Peers()[c].master == Some(M);
  }

  lemma VoterVotes(d: NodeId, current: nat, vote: nat, c: NodeId, epoch: nat)
    requires d in {V, W} && c in {A, B} && epoch >= current && epoch != vote
    ensures WellFormed(ViewOf(d, current, vote, Idle()))
    ensures React(ViewOf(d, current, vote, Idle()), Request(c, epoch), false, true)
            == Reaction(ViewOf(d, epoch, epoch, Idle()), Some(Ack(d, epoch)))
  {
    ViewOfShape(d, current, vote, Idle());
    HeaderReaction(d, current, vote, Idle(), c, epoch);
    Grants(d, vote, c, epoch);
    ViewOfShape(d, epoch, epoch, Idle());
    hide GrantsVote, ApplyHeader, MakeHeader;
  }

  lemma ReplicaIgnores(me: NodeId, current: nat, auth: Auth, c: NodeId, epoch: nat)
    requires me in {A, B} && c in {A, B} && me != c
    ensures WellFormed(ViewOf(me, current, 0, auth))
    ensures React(ViewOf(me, current, 0, auth), Request(c, epoch), false, true)
            == Reaction(ViewOf(me, Max(current, epoch), 0, auth), None)
  {
    ViewOfShape(me, current, 0, auth);
    HeaderReaction(me, current, 0, auth, c, epoch);
    hide ApplyHeader;
  }

  lemma ReplicaCounts(me: NodeId, current: nat, auth: Auth, d: NodeId, epoch: nat)
    requires me in {A, B} && d in {V, W} && epoch >= auth.epoch
    ensures WellFormed(ViewOf(me, current, 0, auth))
    ensures React(ViewOf(me, current, 0, auth), Ack(d, epoch), false, true)
            == Reaction(ViewOf(me, Max(current, epoch), 0, auth.(count := auth.count + 1)), None)
  {
    ViewOfShape(me, current, 0, auth);
    HeaderReaction(me, current, 0, auth, d, epoch);
    OwnedSlots();
    assert CountsAck(ViewOf(me, Max(current, epoch), 0, auth), HeaderOf(d, epoch));
    hide ApplyHeader, CountsAck;
  }

  function NoTallies(): map<NodeId, Tally> {
    var none := Tally({}, {}, 0);
    map[A := none, B := none, V := none, W := none]
  }

  /** The failed master takes no part. */
  function Start(): Cluster {
    Cluster(map i | i in {A, B, V, W} :: ViewOf(i, 0, 0, Idle()), {}, 0, History({}, {}, NoTallies(), {}))
  }

  lemma StartInitial()
    ensures Initial(Start())
  {
    hide ViewOf, ViewEpochs, ViewOk, MakeHeader, HeaderOf;
    forall i | i in {A, B, V, W}
      ensures var v := ViewOf(i, 0, 0, Idle()); ViewOk(v, i) && ViewEpochs(v) && !v.auth.armed
    {
      ViewOfShape(i, 0, 0, Idle());
    }
  }

  /** A run so far. */
  datatype Trace = Trace(states: seq<Cluster>, steps: seq<Step>)

  predicate LeadsTo(t: Trace, s: Cluster) {
    IsRun(t.states, t.steps) && t.states[|t.steps|] == s && Sane(s)
  }

  function Extend(t: Trace, step: Step, s: Cluster): Trace {
    Trace(t.states + [s], t.steps + [step])
  }

  lemma Go(t: Trace, s: Cluster, step: Step, s': Cluster)
    requires LeadsTo(t, s) && Takes(s, step, s')
    ensures LeadsTo(Extend(t, step, s'), s') && Extend(t, step, s').states[0] == t.states[0]
  {
    hide Sane, Enabled, Apply;
    var n := Extend(t, step, s');
    forall k | 0 <= k < |n.steps| ensures Takes(n.states[k], n.steps[k], n.states[k + 1]) {
      if k < |t.steps| { assert Takes(t.states[k], t.steps[k], t.states[k + 1]); }
    }
  }

  lemma TakesLocal(s: Cluster, step: Step, v: View, v': View)
    requires Sane(s) && !step.Deliver? && step.i in s.views && s.views[step.i] == v && WellFormed(v)
    requires LocalEnabled(v, step) && v' == LocalView(v, step)
    ensures Takes(s, step, Commit(s, step, v'))
  {
    CommitSane(s, step, v');
  }

  lemma TakesDeliver(s: Cluster, p: Packet, d: NodeId, r: Reaction)
    requires Sane(s) && p in s.net && d in p.dsts && d in s.views && PacketOk(s, p)
    requires r == React(s.views[d], p.msg, false, true)
    ensures Takes(s, Deliver(p, d, false, true), Land(s, p, d, r))
  {
    ReactShape(s.views[d], p.msg, false, true);
    LandSane(s, p, d, r);
  }

  lemma GoLocal(t: Trace, s: Cluster, step: Step, v: View, v': View)
    requires LeadsTo(t, s) && !step.Deliver? && step.i in s.views && s.views[step.i] == v && WellFormed(v)
    requires LocalEnabled(v, step) && v' == LocalView(v, step)
    ensures Sane(s)
    ensures LeadsTo(Extend(t, step, Commit(s, step, v')), Commit(s, step, v'))
    ensures Extend(t, step, Commit(s, step, v')).states[0] == t.states[0]
  {
    TakesLocal(s, step, v, v');
    Go(t, s, step, Commit(s, step, v'));
  }

  lemma GoDeliver(t: Trace, s: Cluster, p: Packet, d: NodeId, v: View, r: Reaction)
    requires LeadsTo(t, s) && p in s.net && d in p.dsts && d in s.views && s.views[d] == v && WellFormed(v)
    requires p.msg.hdr.sender != v.me && r == React(v, p.msg, false, true)
    ensures Sane(s)
    ensures LeadsTo(Extend(t, Deliver(p, d, false, true), Land(s, p, d, r)), Land(s, p, d, r))
    ensures Extend(t, Deliver(p, d, false, true), Land(s, p, d, r)).states[0] == t.states[0]
  {
    assert PacketOk(s, p);
    TakesDeliver(s, p, d, r);
    Go(t, s, Deliver(p, d, false, true), Land(s, p, d, r));
  }

  /** Candidate c opens a round. */
  lemma OpenRound(t: Trace, s: Cluster, c: NodeId, e: nat, a: Auth) returns (t': Trace, s': Cluster)
    requires LeadsTo(t, s) && c in {A, B} && c in s.views && s.views[c] == ViewOf(c, e, 0, a) && c in s.hist.tallies
    ensures LeadsTo(t', s') && t'.states[0] == t.states[0] && s'.net == s.net
    ensures s'.views == s.views[c := ViewOf(c, e, 0, Auth(true, false, 0, a.epoch))]
    ensures s'.hist == s.hist.(tallies := s.hist.tallies[c := Tally({}, {}, s.hist.tallies[c].asked)])
  {
    hide LeadsTo, Sane;
    ViewOfShape(c, e, 0, a);
    var v' := ViewOf(c, e, 0, Auth(true, false, 0, a.epoch));
    ViewOfShape(c, e, 0, v'.auth);
    GoLocal(t, s, ScheduleRound(c), s.views[c], v');
    s' := Commit(s, ScheduleRound(c), v');
    t' := Extend(t, ScheduleRound(c), s');
  }

  /** Candidate c sends its request. */
  lemma SendRequest(t: Trace, s: Cluster, c: NodeId, e: nat, a: Auth) returns (t': Trace, s': Cluster, req: Packet)
    requires LeadsTo(t, s) && c in {A, B} && c in s.views && s.views[c] == ViewOf(c, e, 0, a) && c in s.hist.tallies
    requires a.armed && !a.sent
    ensures LeadsTo(t', s') && t'.states[0] == t.states[0]
    ensures s'.views == s.views[c := ViewOf(c, e + 1, 0, Auth(true, true, a.count, e + 1))]
    ensures s'.hist == s.hist.(tallies := s.hist.tallies[c := Tally(s.hist.tallies[c].early, {}, e + 1)])
    ensures s'.net == s.net + {req} && req.dsts == Peers().Keys - {c} && req.msg == Request(c, e + 1)
  {
    hide LeadsTo, Sane;
    ViewOfShape(c, e, 0, a);
    var v' := ViewOf(c, e + 1, 0, Auth(true, true, a.count, e + 1));
    ViewOfShape(c, e + 1, 0, v'.auth);
    GoLocal(t, s, RequestVotes(c, false), s.views[c], v');
    s' := Commit(s, RequestVotes(c, false), v');
    t' := Extend(t, RequestVotes(c, false), s');
    req := Packet(s.nextId, Peers().Keys - {c}, Request(c, e + 1));
  }

  /** A master votes for the sender of a request. */
  lemma CastVote(t: Trace, s: Cluster, req: Packet, d: NodeId, c: NodeId, e: nat, k: nat, vote: nat)
    returns (t': Trace, s': Cluster, ack: Packet)
    requires LeadsTo(t, s) && c in {A, B} && d in {V, W} && d in s.views && s.views[d] == ViewOf(d, k, vote, Idle())
    requires req in s.net && d in req.dsts && req.msg == Request(c, e) && e >= k && e != vote && d in s.hist.tallies
    ensures LeadsTo(t', s') && t'.states[0] == t.states[0] && s'.views == s.views[d := ViewOf(d, e, e, Idle())]
    ensures s'.hist == s.hist.(votes := s.hist.votes + {Vote(d, e, c)})
    ensures s'.net == s.net - {req} + {Passed(req, d)} + {ack} && ack.dsts == {c} && ack.msg == Ack(d, e)
  {
    hide LeadsTo, Sane, React;
    VoterVotes(d, k, vote, c, e);
    var r := Reaction(ViewOf(d, e, e, Idle()), Some(Ack(d, e)));
    GoDeliver(t, s, req, d, s.views[d], r);
    s' := Land(s, req, d, r);
    t' := Extend(t, Deliver(req, d, false, true), s');
    ack := Packet(s.nextId, {c} - {d}, Ack(d, e));
    assert {c} - {d} == {c};
  }

  /** A replica handles another replica's request: it only learns the epoch. */
  lemma LearnEpoch(t: Trace, s: Cluster, req: Packet, d: NodeId, c: NodeId, e: nat, k: nat, a: Auth)
    returns (t': Trace, s': Cluster)
    requires LeadsTo(t, s) && c in {A, B} && d in {A, B} && c != d && d in s.views && s.views[d] == ViewOf(d, k, 0, a)
    requires req in s.net && d in req.dsts && req.msg == Request(c, e) && d in s.hist.tallies
    ensures LeadsTo(t', s') && t'.states[0] == t.states[0] && s'.views == s.views[d := ViewOf(d, Max(k, e), 0, a)]
    ensures s'.hist == s.hist && s'.net == s.net - {req} + {Passed(req, d)}
  {
    hide LeadsTo, Sane, React;
    ReplicaIgnores(d, k, a, c, e);
    var r := Reaction(ViewOf(d, Max(k, e), 0, a), None);
    GoDeliver(t, s, req, d, s.views[d], r);
    s' := Land(s, req, d, r);
    t' := Extend(t, Deliver(req, d, false, true), s');
  }

  /** A candidate counts an ack. */
  lemma Collect(t: Trace, s: Cluster, ack: Packet, d: NodeId, c: NodeId, e: nat, k: nat, a: Auth)
    returns (t': Trace, s': Cluster)
    requires LeadsTo(t, s) && c in {A, B} && c in s.views && s.views[c] == ViewOf(c, k, 0, a) && c in s.hist.tallies
    requires d in {V, W} && ack in s.net && c in ack.dsts && ack.msg == Ack(d, e) && a.epoch <= e <= k
    ensures LeadsTo(t', s') && t'.states[0] == t.states[0]
    ensures s'.views == s.views[c := ViewOf(c, k, 0, a.(count := a.count + 1))]
    ensures s'.hist.wins == s.hist.wins && s'.net == s.net - {ack} + {Passed(ack, c)}
    ensures s'.hist.tallies == s.hist.tallies[c := CountAck(s.hist.tallies[c], s.views[c], Vote(d, e, c))]
  {
    hide LeadsTo, Sane, React;
    ReplicaCounts(c, k, a, d, e);
    var r := Reaction(ViewOf(c, k, 0, a.(count := a.count + 1)), None);
    GoDeliver(t, s, ack, c, s.views[c], r);
    s' := Land(s, ack, c, r);
    t' := Extend(t, Deliver(ack, c, false, true), s');
  }

  lemma GiveUp(t: Trace, s: Cluster, c: NodeId, e: nat, a: Auth) returns (t': Trace, s': Cluster)
    requires LeadsTo(t, s) && c in {A, B} && c in s.views && s.views[c] == ViewOf(c, e, 0, a) && a.armed
             && c in s.hist.tallies
    ensures LeadsTo(t', s') && t'.states[0] == t.states[0] && s'.net == s.net && s'.hist == s.hist
    ensures s'.views == s.views[c := ViewOf(c, e, 0, Auth(false, a.sent, 0, 0))]
  {
    hide LeadsTo, Sane;
    ViewOfShape(c, e, 0, a);
    var v' := ViewOf(c, e, 0, Auth(false, a.sent, 0, 0));
    ViewOfShape(c, e, 0, v'.auth);
    GoLocal(t, s, ExpireRound(c), s.views[c], v');
    s' := Commit(s, ExpireRound(c), v');
    t' := Extend(t, ExpireRound(c), s');
  }

  lemma Claim(t: Trace, s: Cluster, c: NodeId, e: nat, a: Auth) returns (t': Trace, s': Cluster)
    requires LeadsTo(t, s) && c in {A, B} && c in s.views && s.views[c] == ViewOf(c, e, 0, a) && c in s.hist.tallies
    requires a.armed && a.sent && a.count >= 2
    ensures LeadsTo(t', s') && t'.states[0] == t.states[0] && s'.net == s.net && s'.hist.tallies == s.hist.tallies
    ensures s'.views.Keys == s.views.Keys && forall i | i in s.views && i != c :: s'.views[i] == s.views[i]
    ensures s'.hist.wins == s.hist.wins + {Victory(c, a.epoch, s.hist.tallies[c].early, s.hist.tallies[c].acks, 3)}
  {
    hide LeadsTo, Sane;
    ViewOfShape(c, e, 0, a);
    var v' := WinElection(s.views[c]);
    GoLocal(t, s, Win(c, 3), s.views[c], v');
    s' := Commit(s, Win(c, 3), v');
    t' := Extend(t, Win(c, 3), s');
  }

  lemma StartTrace()
    ensures LeadsTo(Trace([Start()], []), Start())
  {
    StartInitial();
  }

  /** Candidate c asks, and both masters vote for it. */
  lemma AskBoth(t: Trace, s: Cluster, c: NodeId, e: nat, a: Auth, vote: nat)
    returns (t': Trace, s': Cluster, req: Packet, ackV: Packet, ackW: Packet)
    requires LeadsTo(t, s) && c in {A, B} && s.views.Keys == s.hist.tallies.Keys == {A, B, V, W} && a.armed && !a.sent
    requires s.views[c] == ViewOf(c, e, 0, a) && vote <= e
    requires s.views[V] == ViewOf(V, e, vote, Idle()) && s.views[W] == ViewOf(W, e, vote, Idle())
    ensures LeadsTo(t', s') && t'.states[0] == t.states[0] && s'.hist.wins == s.hist.wins
    ensures s'.views == s.views[c := ViewOf(c, e + 1, 0, Auth(true, true, a.count, e + 1))]
                        [V := ViewOf(V, e + 1, e + 1, Idle())][W := ViewOf(W, e + 1, e + 1, Idle())]
    ensures s'.hist.tallies == s.hist.tallies[c := Tally(s.hist.tallies[c].early, {}, e + 1)]
    ensures {req, ackV, ackW} <= s'.net && ackV != ackW
    ensures ackV.dsts == ackW.dsts == {c} && ackV.msg == Ack(V, e + 1) && ackW.msg == Ack(W, e + 1)
    ensures req.dsts == Peers().Keys - {c, V, W} && req.msg == Request(c, e + 1)
  {
    hide LeadsTo, ViewOf, HeaderOf;
    t', s', req := SendRequest(t, s, c, e, a);
    t', s', ackV := CastVote(t', s', req, V, c, e + 1, e, vote);
    req := Passed(req, V);
    t', s', ackW := CastVote(t', s', req, W, c, e + 1, e, vote);
    req := Passed(req, W);
    AcksDiffer(e + 1);
  }

  lemma AcksDiffer(e: nat)
    ensures Ack(V, e) != Ack(W, e)
  {
  }

  /** A's first round, in epoch 1, gets both votes, but A gives it up before the acks arrive. */
  lemma FirstRound() returns (t: Trace, s: Cluster, ackV: Packet, ackW: Packet)
    ensures LeadsTo(t, s) && t.states[0] == Start() && s.hist.wins == {}
    ensures s.views == map[A := ViewOf(A, 1, 0, Auth(false, true, 0, 0)), B := ViewOf(B, 1, 0, Idle()),
                           V := ViewOf(V, 1, 1, Idle()), W := ViewOf(W, 1, 1, Idle())]
    ensures s.hist.tallies == NoTallies()[A := Tally({}, {}, 1)]
    ensures {ackV, ackW} <= s.net && ackV != ackW && ackV.dsts == ackW.dsts == {A} && ackV.msg == Ack(V, 1)
            && ackW.msg == Ack(W, 1)
  {
    hide LeadsTo, ViewOf, HeaderOf;
    var req;
    StartTrace();
    t, s := Trace([Start()], []), Start();
    t, s := OpenRound(t, s, A, 0, Idle());
    t, s, req, ackV, ackW := AskBoth(t, s, A, 0, Auth(true, false, 0, 0), 0);
    t, s := LearnEpoch(t, s, req, B, A, 1, 0, Idle());
    t, s := GiveUp(t, s, A, 1, Auth(true, true, 0, 1));
  }

  /** A opens a second round, and the acks of the first arrive before its request is sent. */
  lemma SecondRound() returns (t: Trace, s: Cluster)
    ensures LeadsTo(t, s) && t.states[0] == Start() && s.hist.wins == {}
    ensures s.views == map[A := ViewOf(A, 1, 0, Auth(true, false, 2, 0)), B := ViewOf(B, 1, 0, Idle()),
                           V := ViewOf(V, 1, 1, Idle()), W := ViewOf(W, 1, 1, Idle())]
    ensures s.hist.tallies == NoTallies()[A := Tally(Leftover(), {}, 1)]
  {
    hide LeadsTo, ViewOf, HeaderOf, Start;
    var ackV, ackW;
    t, s, ackV, ackW := FirstRound();
    t, s := OpenRound(t, s, A, 1, Auth(false, true, 0, 0));
    ViewOfAuth(A, 1, Auth(true, false, 0, 0));
    t, s := Collect(t, s, ackV, V, A, 1, 1, Auth(true, false, 0, 0));
    ViewOfAuth(A, 1, Auth(true, false, 1, 0));
    t, s := Collect(t, s, ackW, W, A, 1, 1, Auth(true, false, 1, 0));
    assert s.hist.tallies[A].early == Leftover();
  }

  function Leftover(): set<Vote> { {Vote(V, 1, A), Vote(W, 1, A)} }

  lemma ViewOfAuth(me: NodeId, current: nat, a: Auth)
    ensures ViewOf(me, current, 0, a).auth == a
  {
  }

  /** Meanwhile B is elected in epoch 2 by the votes cast in it. */
  lemma ElectB() returns (t: Trace, s: Cluster)
    ensures LeadsTo(t, s) && t.states[0] == Start() && Victory(B, 2, {}, {V, W}, 3) in s.hist.wins
    ensures A in s.views && s.views[A] == ViewOf(A, 1, 0, Auth(true, false, 2, 0))
    ensures A in s.hist.tallies && s.hist.tallies[A] == Tally(Leftover(), {}, 1)
  {
    hide LeadsTo, ViewOf, HeaderOf, Start;
    var req, ackV, ackW;
    t, s := SecondRound();
    t, s := OpenRound(t, s, B, 1, Idle());
    t, s, req, ackV, ackW := AskBoth(t, s, B, 1, Auth(true, false, 0, 0), 1);
    ViewOfAuth(B, 2, Auth(true, true, 0, 2));
    t, s := Collect(t, s, ackV, V, B, 2, 2, Auth(true, true, 0, 2));
    ViewOfAuth(B, 2, Auth(true, true, 1, 2));
    t, s := Collect(t, s, ackW, W, B, 2, 2, Auth(true, true, 1, 2));
    assert s.hist.tallies[B].acks == {V, W};
    t, s := Claim(t, s, B, 2, Auth(true, true, 2, 2));
  }

  /** Two replicas of one failed master win the same epoch: B by the two votes cast in epoch 2, and A by
      the acks of two votes left over from epoch 1. */
  lemma TwoWinnersInOneEpoch() returns (t: Trace, s: Cluster)
    ensures LeadsTo(t, s) && Initial(t.states[0])
    ensures Victory(B, 2, {}, {V, W}, 3) in s.hist.wins && Victory(A, 2, Leftover(), {}, 3) in s.hist.wins
  {
    hide LeadsTo, Initial, ViewOf, HeaderOf;
    StartInitial();
    var req;
    t, s := ElectB();
    t, s, req := SendRequest(t, s, A, 1, Auth(true, false, 2, 0));
    t, s := Claim(t, s, A, 2, Auth(true, true, 2, 2));
  }
}
