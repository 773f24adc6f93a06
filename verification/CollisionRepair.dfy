/** Repair of equal config epochs. Among masters that exchange gossip and UPDATE packets, in any
    order of delivery, every bump makes a node leave an epoch that a node with a greater name has
    held. So every epoch ever held is some node's now, and at most n(n - 1)/2 bumps happen; and no
    fresh packet causes a bump exactly when all config epochs differ. */
module CollisionRepair {
  import opened Basics
  import opened ClusterModel
  import opened ClusterRuns

  // ---- counting ----

  ghost function MinOf(s: set<NodeId>): (m: NodeId)
    requires s != {}
    ensures m in s && forall x | x in s :: m <= x
  {
    var x :| x in s;
    if s == {x} then x
    else
      var y := MinOf(s - {x});
      assert s == (s - {x}) + {x};
      if x < y then x else y
  }

  ghost function SumSizes(held: map<NodeId, set<nat>>, s: set<NodeId>): nat
    requires s <= held.Keys
    decreases |s|
  {
    if s == {} then 0 else var m := MinOf(s); |held[m]| + SumSizes(held, s - {m})
  }

  /** Every epoch of i but the present one and the stale ones was also held by a node with a greater name. */
  ghost predicate UsedUp(held: map<NodeId, set<nat>>, present: map<NodeId, nat>, stale: set<nat>, i: NodeId,
      s: set<NodeId>)
    requires s <= held.Keys && i in held && i in present
  {
    forall h | h in held[i] && h != present[i] && h !in stale :: exists k | k in s && i < k :: h in held[k]
  }

  ghost function Presents(present: map<NodeId, nat>, s: set<NodeId>): set<nat>
    requires s <= present.Keys
  {
    set k | k in s :: present[k]
  }

  lemma {:induction false} PresentsSize(present: map<NodeId, nat>, s: set<NodeId>)
    requires s <= present.Keys
    ensures |Presents(present, s)| <= |s|
    decreases |s|
  {
    if s != {} {
      var m := MinOf(s);
      PresentsSize(present, s - {m});
      assert Presents(present, s) == Presents(present, s - {m}) + {present[m]};
      assert |s| == |s - {m}| + 1;
    }
  }

  lemma UsedUpAbove(held: map<NodeId, set<nat>>, present: map<NodeId, nat>, stale: set<nat>, s: set<NodeId>, m: NodeId)
    requires s <= held.Keys && s <= present.Keys && m in s && m == MinOf(s)
    requires forall i | i in s :: UsedUp(held, present, stale, i, s)
    ensures forall i | i in s - {m} :: UsedUp(held, present, stale, i, s - {m})
  {
    forall i | i in s - {m} ensures UsedUp(held, present, stale, i, s - {m}) {
      assert UsedUp(held, present, stale, i, s);
      forall h | h in held[i] && h != present[i] && h !in stale
        ensures exists k | k in s - {m} && i < k :: h in held[k] {
        var k :| k in s && i < k && h in held[k];
        assert k in s - {m};
      }
    }
  }

  /** An epoch that some node has held and that is not stale is some node's now: the node with the greatest
      name that has held it cannot have left it. */
  lemma {:induction false} HeldIsPresent(held: map<NodeId, set<nat>>, present: map<NodeId, nat>, stale: set<nat>,
      s: set<NodeId>)
    requires s <= held.Keys && s <= present.Keys
    requires forall i | i in s :: UsedUp(held, present, stale, i, s)
    ensures forall i | i in s :: held[i] <= stale + Presents(present, s)
    decreases |s|
  {
    if s != {} {
      var m := MinOf(s);
      var t := s - {m};
      UsedUpAbove(held, present, stale, s, m);
      HeldIsPresent(held, present, stale, t);
      assert Presents(present, t) <= Presents(present, s);
      forall h | h in held[m] ensures h in stale + Presents(present, s) {
        assert UsedUp(held, present, stale, m, s);
        if h != present[m] && h !in stale {
          var k :| k in s && m < k && h in held[k];
          assert k in t;
        }
      }
    }
  }

  lemma SubsetLeq(a: set<nat>, b: set<nat>)
    requires a <= b
    ensures |a| <= |b|
  {
    assert b == a + (b - a);
  }

  /** So the node with the smallest of n names has held at most n epochs and the stale ones, the next one at
      most n - 1, and so on. */
  lemma {:induction false} HeldBound(held: map<NodeId, set<nat>>, present: map<NodeId, nat>, stale: set<nat>,
      s: set<NodeId>)
    requires s <= held.Keys && s <= present.Keys
    requires forall i | i in s :: UsedUp(held, present, stale, i, s)
    ensures 2 * SumSizes(held, s) <= |s| * (|s| + 1) + 2 * |s| * |stale|
    decreases |s|
  {
    if s != {} {
      var m := MinOf(s);
      var t := s - {m};
      UsedUpAbove(held, present, stale, s, m);
      HeldBound(held, present, stale, t);
      HeldIsPresent(held, present, stale, s);
      PresentsSize(present, s);
      var all := Presents(present, s);
      SubsetLeq(held[m], stale + all);
      assert |stale + all| <= |stale| + |s|;
      assert |s| == |t| + 1;
      Triangle(|t|, |stale|);
    }
  }

  lemma Triangle(n: nat, f: nat)
    ensures n * (n + 1) + 2 * n * f + 2 * (f + n + 1) == (n + 1) * (n + 2) + 2 * (n + 1) * f
  {
  }

  lemma {:induction false} TriangleBelowPower(n: nat)
    ensures n * (n + 1) + 2 <= 2 * Pow2(n)
  {
    if n > 0 {
      TriangleBelowPower(n - 1);
      if n >= 2 { LinearBelowPower(n - 1); }
    }
  }

  lemma {:induction false} LinearBelowPower(n: nat)
    ensures n + 1 <= Pow2(n)
  {
    if n > 0 { LinearBelowPower(n - 1); }
  }

  lemma {:induction false} SumGrows(held: map<NodeId, set<nat>>, held': map<NodeId, set<nat>>, s: set<NodeId>,
      i: NodeId, x: nat)
    requires s <= held.Keys && s <= held'.Keys && i in held && i in held' && x !in held[i] && held'[i] == held[i] + {x}
    requires forall k | k in s && k != i :: held'[k] == held[k]
    ensures SumSizes(held', s) == SumSizes(held, s) + if i in s then 1 else 0
    decreases |s|
  {
    if s != {} {
      var m := MinOf(s);
      SumGrows(held, held', s - {m}, i, x);
    }
  }

  lemma {:induction false} SumAtLeast(held: map<NodeId, set<nat>>, s: set<NodeId>)
    requires s <= held.Keys && forall k | k in s :: held[k] != {}
    ensures SumSizes(held, s) >= |s|
    decreases |s|
  {
    if s != {} {
      var m := MinOf(s);
      SumAtLeast(held, s - {m});
      assert |s| == |s - {m}| + 1;
      var h :| h in held[m];
      SubsetLeq({h}, held[m]);
    }
  }

  // ---- what a reaction does to config epochs ----

  predicate AllMasters(v: View) {
    forall n | n in v.peers :: v.peers[n].isMaster && v.peers[n].master.None?
  }

  /** The packets exchanged: gossip from masters and UPDATEs. */
  predicate RepairMsg(m: Msg) {
    (m.Gossip? && m.hdr.slaveOf.None?) || m.Update?
  }

  /** The config epoch a message reports for node n, or 0. */
  function Reported(m: Msg, n: NodeId): nat {
    Max(if n == m.hdr.sender then m.hdr.configEpoch else 0, if m.Update? && n == m.node then m.epoch else 0)
  }

  /** This node bumps: it leaves the epoch the message carries for a node with a greater name. */
  predicate Bumps(v: View, m: Msg, v': View)
    requires WellFormed(v) && WellFormed(v')
  {
    && m.Gossip? && v.me < m.hdr.sender && m.hdr.configEpoch == MyConfigEpoch(v)
    && v.currentEpoch < MyConfigEpoch(v') == v'.currentEpoch
  }

  predicate RepairEffect(v: View, m: Msg, r: Reaction)
    requires WellFormed(v) && WellFormed(r.view)
  {
    && r.view.me == v.me && r.view.peers.Keys == v.peers.Keys && AllMasters(r.view)
    && v.currentEpoch <= r.view.currentEpoch
    && (MyConfigEpoch(r.view) == MyConfigEpoch(v) || Bumps(v, m, r.view))
    && (forall n | n in v.peers && n != v.me ::
          r.view.peers[n].configEpoch <= Max(v.peers[n].configEpoch, Reported(m, n)))
    && (r.reply.Some? ==>
          && r.reply.value.Update? && r.reply.value.hdr.sender == v.me
          && r.reply.value.hdr.configEpoch == MyConfigEpoch(v)
          && r.reply.value.node in v.peers
          && r.reply.value.epoch <= Max(v.peers[r.reply.value.node].configEpoch, Reported(m, r.reply.value.node)))
  }

  /** Without reconfiguration the slot update touches only the owner table. */
  lemma UpdateSlotsFrame(v: View, n: NodeId, epoch: nat, slots: set<nat>)
    requires WellFormed(v) && n in v.peers
    ensures var v' := UpdateSlots(v, n, epoch, slots, false);
            v'.peers == v.peers && v'.currentEpoch == v.currentEpoch && v'.me == v.me
  {
  }

  /** The header and role stages of gossip from a master. */
  lemma HeaderStage(v: View, hdr: Header)
    requires WellFormed(v) && AllMasters(v) && hdr.sender in v.peers && hdr.sender != v.me && hdr.slaveOf.None?
    ensures var v1 := SwitchRole(ApplyHeader(v, hdr), hdr);
            && v1.me == v.me && v1.peers.Keys == v.peers.Keys && AllMasters(v1)
            && v1.currentEpoch == Max(v.currentEpoch, hdr.currentEpoch)
            && v1.peers[v.me] == v.peers[v.me]
            && forall n | n in v.peers && n != v.me ::
                 v1.peers[n].configEpoch <= Max(v.peers[n].configEpoch, Reported(Gossip(hdr), n))
  {
  }

  lemma ClaimStage(v: View, hdr: Header)
    requires WellFormed(v) && hdr.sender in v.peers
    ensures var v2 := ApplyClaim(v, hdr, false);
            v2.peers == v.peers && v2.currentEpoch == v.currentEpoch && v2.me == v.me
  {
    hide UpdateSlots, DirtySlots;
    UpdateSlotsFrame(v, hdr.sender, hdr.configEpoch, hdr.slots);
  }

  lemma ReplyStage(v: View, hdr: Header)
    requires WellFormed(v) && AllMasters(v)
    ensures var o := StaleClaimReply(v, hdr);
            o.Some? ==> && o.value.Update? && o.value.hdr.sender == v.me && o.value.hdr.configEpoch == MyConfigEpoch(v)
                        && o.value.node in v.peers && o.value.epoch == v.peers[o.value.node].configEpoch
  {
  }

  lemma CombineStages(v: View, hdr: Header, v2: View, o: Option<Msg>)
    requires WellFormed(v) && WellFormed(v2) && v2.me == v.me && v2.peers.Keys == v.peers.Keys && AllMasters(v2)
    requires hdr.sender in v.peers && v2.currentEpoch == Max(v.currentEpoch, hdr.currentEpoch)
             && v2.peers[v.me] == v.peers[v.me]
    requires forall n | n in v.peers && n != v.me ::
               v2.peers[n].configEpoch <= Max(v.peers[n].configEpoch, Reported(Gossip(hdr), n))
    requires o.Some? ==> && o.value.Update? && o.value.hdr.sender == v.me
                         && o.value.hdr.configEpoch == MyConfigEpoch(v2)
                         && o.value.node in v.peers && o.value.epoch == v2.peers[o.value.node].configEpoch
    ensures RepairEffect(v, Gossip(hdr), Reaction(RepairCollision(v2, hdr), o))
  {
    var v3 := RepairCollision(v2, hdr);
    assert v3.peers.Keys == v2.peers.Keys && forall n | n in v2.peers && n != v.me :: v3.peers[n] == v2.peers[n];
    hide WellFormed, Collides;
    if Collides(v2, hdr) { CollisionBumps(v, hdr, v2); }
  }

  lemma CollisionBumps(v: View, hdr: Header, v2: View)
    requires WellFormed(v) && WellFormed(v2) && v2.me == v.me && hdr.sender in v2.peers && Collides(v2, hdr)
    requires v.currentEpoch <= v2.currentEpoch && v2.peers[v.me] == v.peers[v.me]
    ensures Bumps(v, Gossip(hdr), TakeNextEpoch(v2))
  {
  }

  lemma UnknownSender(v: View, hdr: Header)
    requires WellFormed(v) && AllMasters(v)
    ensures RepairEffect(v, Gossip(hdr), Reaction(v, None))
  {
  }

  lemma GossipRepairs(v: View, hdr: Header)
    requires WellFormed(v) && AllMasters(v) && hdr.sender != v.me && hdr.slaveOf.None?
    ensures RepairEffect(v, Gossip(hdr), HandleGossip(v, hdr, false))
  {
    hide ApplyHeader, SwitchRole, ApplyClaim, DirtySlots, StaleClaimReply, RepairCollision, RepairEffect;
    if hdr.sender in v.peers {
      var v1 := SwitchRole(ApplyHeader(v, hdr), hdr);
      HeaderStage(v, hdr);
      var v2 := ApplyClaim(v1, hdr, false);
      ClaimStage(v1, hdr);
      ReplyStage(v2, hdr);
      CombineStages(v, hdr, v2, if DirtySlots(v1, hdr) then StaleClaimReply(v2, hdr) else None);
    } else {
      UnknownSender(v, hdr);
    }
  }

  lemma UpdateRepairs(v: View, m: Msg)
    requires WellFormed(v) && AllMasters(v) && m.hdr.sender != v.me && m.Update?
    requires m.node == v.me ==> m.epoch <= MyConfigEpoch(v)
    ensures RepairEffect(v, m, Reaction(HandleUpdate(v, m.hdr, m.node, m.epoch, m.slots, false), None))
  {
    hide UpdateSlots;
    if m.hdr.sender in v.peers {
      var v1 := ApplyHeader(v, m.hdr);
      if m.node in v1.peers && v1.peers[m.node].configEpoch < m.epoch {
        UpdateSlotsFrame(SetPeer(v1, m.node, SetAsMaster(v1.peers[m.node]).(configEpoch := m.epoch)), m.node, m.epoch,
          m.slots);
      }
    }
  }

  lemma ReactRepairs(v: View, m: Msg, timely: bool)
    requires WellFormed(v) && AllMasters(v) && m.hdr.sender != v.me && RepairMsg(m)
    requires m.Update? && m.node == v.me ==> m.epoch <= MyConfigEpoch(v)
    ensures RepairEffect(v, m, React(v, m, false, timely))
  {
    hide RepairEffect, HandleGossip, HandleUpdate;
    if m.Gossip? { GossipRepairs(v, m.hdr); } else { UpdateRepairs(v, m); }
  }

  // ---- runs ----

  /** The config epochs each node has held, and those that stood in the headers in flight at the start. */
  datatype Held = Held(at: map<NodeId, set<nat>>, stale: set<nat>)

  function Cfg(s: Cluster, i: NodeId): nat
    requires Sane(s) && i in s.views
  {
    assert ViewOk(s.views[i], i);
    MyConfigEpoch(s.views[i])
  }

  function Present(s: Cluster): map<NodeId, nat>
    requires Sane(s)
  {
    map i | i in s.views :: Cfg(s, i)
  }

  predicate NodeInv(s: Cluster, held: Held, i: NodeId)
    requires Sane(s) && i in s.views && held.at.Keys == s.views.Keys
  {
    && AllMasters(s.views[i])
    && Cfg(s, i) in held.at[i] && Cfg(s, i) <= s.views[i].currentEpoch
    && (forall h | h in held.at[i] :: h <= Cfg(s, i))
    && (forall n | n in s.views[i].peers && n in s.views :: s.views[i].peers[n].configEpoch <= Cfg(s, n))
  }

  predicate PacketInv(s: Cluster, held: Held, p: Packet)
    requires Sane(s) && held.at.Keys == s.views.Keys
  {
    && PacketOk(s, p) && RepairMsg(p.msg)
    && p.msg.hdr.configEpoch in held.at[p.msg.hdr.sender]
    && (p.msg.Update? && p.msg.node in s.views ==> p.msg.epoch <= Cfg(s, p.msg.node))
  }

  ghost predicate Inv(s: Cluster, held: Held) {
    && Sane(s) && held.at.Keys == s.views.Keys
    && (forall i | i in s.views :: NodeInv(s, held, i))
    && (forall p | p in s.net :: PacketInv(s, held, p))
    && (forall i | i in s.views :: UsedUp(held.at, Present(s), held.stale, i, s.views.Keys))
  }

  /** The steps of repair: sending gossip, and handling gossip or an UPDATE without changing role. */
  predicate RepairStep(step: Step) {
    step.Ping? || (step.Deliver? && !step.adopt)
  }

  /** What the nodes have held after one more state. */
  function Hold(held: Held, s: Cluster): (held': Held)
    requires Sane(s) && held.at.Keys == s.views.Keys
    ensures held'.at.Keys == held.at.Keys
  {
    held.(at := map i | i in held.at :: held.at[i] + {Cfg(s, i)})
  }

  /** Node i moves to view v: it keeps its config epoch, or it leaves one that a node with a greater
      name has held. */
  predicate Moves(s: Cluster, held: Held, i: NodeId, v: View)
    requires Sane(s) && held.at.Keys == s.views.Keys && i in s.views
  {
    && ViewOk(v, i) && AllMasters(v) && v.peers.Keys == s.views[i].peers.Keys
    && s.views[i].currentEpoch <= v.currentEpoch
    && (forall n | n in v.peers && n != i && n in s.views :: v.peers[n].configEpoch <= Cfg(s, n))
    && (MyConfigEpoch(v) == Cfg(s, i)
        || (s.views[i].currentEpoch < MyConfigEpoch(v) == v.currentEpoch
            && exists k | k in s.views && i < k :: Cfg(s, i) in held.at[k]))
  }

  /** The present config epoch of n is the greatest it has held. */
  predicate Newest(s: Cluster, held: Held, n: NodeId)
    requires Sane(s) && n in s.views && n in held.at
  {
    Cfg(s, n) in held.at[n] && Cfg(s, n) <= s.views[n].currentEpoch && forall h | h in held.at[n] :: h <= Cfg(s, n)
  }

  lemma AllNewest(s: Cluster, held: Held)
    requires Inv(s, held)
    ensures Sane(s) && held.at.Keys == s.views.Keys && forall n | n in s.views :: Newest(s, held, n)
  {
    hide Sane, Cfg, AllMasters;
    forall n | n in s.views ensures Newest(s, held, n) { assert NodeInv(s, held, n); }
  }

  /** Only the node that moves changes its config epoch. */
  lemma MovedOne(s: Cluster, s': Cluster, i: NodeId, v: View, n: NodeId)
    requires Sane(s) && Sane(s') && i in s.views && ViewOk(v, i) && s'.views == s.views[i := v] && n in s.views
    ensures Cfg(s', n) == if n == i then MyConfigEpoch(v) else Cfg(s, n)
  {
  }

  lemma MovedHold(s: Cluster, held: Held, s': Cluster, i: NodeId, v: View)
    requires Sane(s) && Sane(s') && i in s.views && ViewOk(v, i) && s'.views == s.views[i := v]
    requires held.at.Keys == s.views.Keys && forall n | n in s.views :: Newest(s, held, n)
    requires MyConfigEpoch(v) == Cfg(s, i) || s.views[i].currentEpoch < MyConfigEpoch(v)
    ensures forall n | n in s.views ::
              Cfg(s', n) == (if n == i then MyConfigEpoch(v) else Cfg(s, n)) && Cfg(s, n) <= Cfg(s', n)
    ensures Hold(held, s')
            == if MyConfigEpoch(v) == Cfg(s, i) then held
               else held.(at := held.at[i := held.at[i] + {MyConfigEpoch(v)}])
    ensures MyConfigEpoch(v) != Cfg(s, i) ==> MyConfigEpoch(v) !in held.at[i]
  {
    hide Sane, Cfg, WellFormed, MyConfigEpoch;
    assert Newest(s, held, i);
    forall n | n in s.views
      ensures Cfg(s', n) == (if n == i then MyConfigEpoch(v) else Cfg(s, n)) && held.at[n] + {Cfg(s, n)} == held.at[n]
    {
      MovedOne(s, s', i, v, n);
      assert Newest(s, held, n);
    }
  }

  lemma MovedCfg(s: Cluster, held: Held, s': Cluster, i: NodeId, v: View)
    requires Sane(s) && held.at.Keys == s.views.Keys && i in s.views
    requires Inv(s, held) && Moves(s, held, i, v) && Sane(s') && s'.views == s.views[i := v]
    ensures forall n | n in s.views ::
              Cfg(s', n) == (if n == i then MyConfigEpoch(v) else Cfg(s, n)) && Cfg(s, n) <= Cfg(s', n)
    ensures Hold(held, s')
            == if MyConfigEpoch(v) == Cfg(s, i) then held
               else held.(at := held.at[i := held.at[i] + {MyConfigEpoch(v)}])
    ensures MyConfigEpoch(v) != Cfg(s, i) ==> MyConfigEpoch(v) !in held.at[i]
  {
    hide Inv, Sane, Cfg, WellFormed, MyConfigEpoch;
    AllNewest(s, held);
    MovedHold(s, held, s', i, v);
  }

  lemma MovedNode(s: Cluster, held: Held, s': Cluster, i: NodeId, v: View, n: NodeId)
    requires Sane(s) && held.at.Keys == s.views.Keys && i in s.views
    requires Inv(s, held) && Moves(s, held, i, v) && Sane(s') && s'.views == s.views[i := v] && n in s.views
    ensures NodeInv(s', Hold(held, s'), n)
  {
    MovedCfg(s, held, s', i, v);
    NodeInvOf(s, held, n);
    if n == i { MovedSelf(s, held, s', i, v); } else { MovedOther(s, held, s', i, v, n); }
  }

  lemma NodeInvOf(s: Cluster, held: Held, n: NodeId)
    requires Inv(s, held) && n in s.views
    ensures Sane(s) && held.at.Keys == s.views.Keys && NodeInv(s, held, n)
  {
  }

  lemma MovedSelf(s: Cluster, held: Held, s': Cluster, i: NodeId, v: View)
    requires Sane(s) && Sane(s') && held.at.Keys == s.views.Keys && i in s.views && NodeInv(s, held, i)
             && Moves(s, held, i, v)
    requires s'.views == s.views[i := v] && forall n | n in s.views :: Cfg(s, n) <= Cfg(s', n)
    requires Cfg(s', i) == MyConfigEpoch(v)
    ensures NodeInv(s', Hold(held, s'), i)
  {
    hide Sane, Cfg, WellFormed;
  }

  lemma MovedOther(s: Cluster, held: Held, s': Cluster, i: NodeId, v: View, n: NodeId)
    requires Sane(s) && Sane(s') && held.at.Keys == s.views.Keys && i in s.views && n in s.views && n != i
    requires s'.views == s.views[i := v] && NodeInv(s, held, n)
             && (forall k | k in s.views :: Cfg(s, k) <= Cfg(s', k)) && Cfg(s', n) == Cfg(s, n)
    ensures NodeInv(s', Hold(held, s'), n)
  {
    hide Sane, Cfg, WellFormed;
  }

  lemma MovedUsedUp(s: Cluster, held: Held, s': Cluster, i: NodeId, v: View, n: NodeId)
    requires Inv(s, held) && i in s.views && Moves(s, held, i, v) && Sane(s') && s'.views == s.views[i := v]
             && n in s.views
    ensures UsedUp(Hold(held, s').at, Present(s'), held.stale, n, s'.views.Keys)
  {
    hide Sane, Cfg, NodeInv;
    MovedCfg(s, held, s', i, v);
    var held' := Hold(held, s');
    assert UsedUp(held.at, Present(s), held.stale, n, s.views.Keys);
    forall h | h in held'.at[n] && h != Present(s')[n] && h !in held.stale
      ensures exists k | k in s'.views.Keys && n < k :: h in held'.at[k] {
      if h == Cfg(s, n) {
        assert n == i;
        var k :| k in s.views && i < k && Cfg(s, i) in held.at[k];
        assert h in held'.at[k];
      } else {
        var k :| k in s.views.Keys && n < k && h in held.at[k];
        assert h in held'.at[k];
      }
    }
  }

  lemma MovedPacket(s: Cluster, held: Held, s': Cluster, i: NodeId, v: View, p: Packet, p': Packet)
    requires Inv(s, held) && i in s.views && Moves(s, held, i, v) && Sane(s') && s'.views == s.views[i := v]
    requires PacketInv(s, held, p) && p'.msg == p.msg && PacketOk(s', p')
    ensures PacketInv(s', Hold(held, s'), p')
  {
    hide Sane, Cfg, NodeInv;
    MovedCfg(s, held, s', i, v);
  }

  /** A step keeps the invariant, and the epochs held grow by one exactly when a node bumped. */
  lemma MovedInv(s: Cluster, held: Held, s': Cluster, i: NodeId, v: View)
    requires Inv(s, held) && i in s.views && Moves(s, held, i, v) && Sane(s') && s'.views == s.views[i := v]
    requires forall p | p in s'.net :: PacketInv(s', Hold(held, s'), p)
    ensures Inv(s', Hold(held, s'))
    ensures SumSizes(Hold(held, s').at, s.views.Keys)
            == SumSizes(held.at, s.views.Keys) + if Present(s') == Present(s) then 0 else 1
  {
    hide Sane, Cfg, NodeInv, PacketInv, UsedUp;
    forall n | n in s'.views ensures NodeInv(s', Hold(held, s'), n) { MovedNode(s, held, s', i, v, n); }
    forall n | n in s'.views ensures UsedUp(Hold(held, s').at, Present(s'), held.stale, n, s'.views.Keys) {
      MovedUsedUp(s, held, s', i, v, n);
    }
    MovedCfg(s, held, s', i, v);
    if MyConfigEpoch(v) == Cfg(s, i) {
      assert Present(s') == Present(s);
    } else {
      assert Present(s')[i] != Present(s)[i];
      SumGrows(held.at, Hold(held, s').at, s.views.Keys, i, MyConfigEpoch(v));
    }
  }

  lemma FreshGossip(s: Cluster, held: Held, i: NodeId, p: Packet)
    requires Inv(s, held) && i in s.views && ViewOk(s.views[i], i) && i !in p.dsts
             && p.msg == Gossip(MakeHeader(s.views[i]))
    ensures PacketInv(s, held, p)
  {
    hide Sane;
    assert NodeInv(s, held, i);
  }

  lemma PingRepairs(s: Cluster, held: Held, i: NodeId, v: View, s': Cluster, dsts: set<NodeId>)
    requires Inv(s, held) && i in s.views && v == s.views[i] && ViewOk(v, i)
    requires Sane(s') && i in s.hist.tallies && s' == Commit(s, Ping(i, dsts), v)
    ensures Moves(s, held, i, v) && s'.views == s.views[i := v]
    ensures forall p | p in s'.net :: PacketInv(s', Hold(held, s'), p)
  {
    hide Sane;
    assert NodeInv(s, held, i);
    assert s.views[i := v] == s.views;
    forall p | p in s'.net ensures PacketInv(s', Hold(held, s'), p) {
      SanePacket(s', p);
      if p !in s.net { FreshGossip(s, held, i, p); }
      MovedPacket(s, held, s', i, v, p, p);
    }
  }

  /** A reaction to a packet in flight moves the node as required. */
  lemma ReactionMoves(s: Cluster, held: Held, p: Packet, d: NodeId, r: Reaction)
    requires Inv(s, held) && p in s.net && d in s.views && ViewOk(s.views[d], d) && ViewOk(r.view, d)
    requires PacketInv(s, held, p) && RepairEffect(s.views[d], p.msg, r)
    ensures Moves(s, held, d, r.view)
  {
    hide Sane;
    assert NodeInv(s, held, d) && NodeInv(s, held, p.msg.hdr.sender);
    forall n | n in r.view.peers && n != d && n in s.views ensures r.view.peers[n].configEpoch <= Cfg(s, n) {
      assert s.views[d].peers[n].configEpoch <= Cfg(s, n);
    }
  }

  lemma ReplyRepairs(s: Cluster, held: Held, p: Packet, d: NodeId, r: Reaction, q: Packet)
    requires Inv(s, held) && d in s.views && ViewOk(s.views[d], d) && ViewOk(r.view, d)
    requires PacketInv(s, held, p) && RepairEffect(s.views[d], p.msg, r) && r.reply == Some(q.msg) && d !in q.dsts
    ensures PacketInv(s, held, q)
  {
    hide Sane;
    assert NodeInv(s, held, d) && NodeInv(s, held, p.msg.hdr.sender);
    var n := q.msg.node;
    if n in s.views { assert s.views[d].peers[n].configEpoch <= Cfg(s, n); }
  }

  lemma DeliveredPacket(s: Cluster, held: Held, p: Packet, d: NodeId, r: Reaction, s': Cluster, q: Packet)
    requires Inv(s, held) && p in s.net && d in p.dsts && d in s.views && ViewOk(s.views[d], d) && ViewOk(r.view, d)
    requires PacketInv(s, held, p) && RepairEffect(s.views[d], p.msg, r) && Moves(s, held, d, r.view)
    requires d in s.hist.tallies && s' == Land(s, p, d, r) && Sane(s') && q in s'.net
    ensures PacketInv(s', Hold(held, s'), q)
  {
    hide Sane, RepairEffect, Moves, LandHistory;
    LandPacket(s, p, d, r, q);
    SanePacket(s', q);
    if q in s.net {
      MovedPacket(s, held, s', d, r.view, q, q);
    } else if q == Passed(p, d) {
      MovedPacket(s, held, s', d, r.view, p, q);
    } else {
      assert r.reply == Some(q.msg) && q.msg.hdr.sender == d by { ReplySender(s, p, d, r); }
      ReplyRepairs(s, held, p, d, r, q);
      MovedPacket(s, held, s', d, r.view, q, q);
    }
  }

  lemma ReplySender(s: Cluster, p: Packet, d: NodeId, r: Reaction)
    requires d in s.views && ViewOk(s.views[d], d) && WellFormed(r.view) && RepairEffect(s.views[d], p.msg, r)
    ensures r.reply.Some? ==> r.reply.value.hdr.sender == d
  {
  }

  lemma DeliverRepairs(s: Cluster, held: Held, p: Packet, d: NodeId, timely: bool, r: Reaction, s': Cluster)
    requires Inv(s, held) && p in s.net && d in p.dsts && d in s.views && ViewOk(s.views[d], d) && PacketInv(s, held, p)
    requires r == React(s.views[d], p.msg, false, timely) && d in s.hist.tallies && s' == Land(s, p, d, r) && Sane(s')
    ensures Moves(s, held, d, r.view) && s'.views == s.views[d := r.view]
    ensures forall q | q in s'.net :: PacketInv(s', Hold(held, s'), q)
  {
    hide Sane, RepairEffect, Moves, React, LandHistory;
    assert NodeInv(s, held, d);
    ReactRepairs(s.views[d], p.msg, timely);
    ReactShape(s.views[d], p.msg, false, timely);
    ReactionMoves(s, held, p, d, r);
    forall q | q in s'.net ensures PacketInv(s', Hold(held, s'), q) { DeliveredPacket(s, held, p, d, r, s', q); }
  }

  lemma StepRepairs(s: Cluster, held: Held, step: Step, s': Cluster)
    requires Inv(s, held) && Takes(s, step, s') && RepairStep(step)
    ensures Inv(s', Hold(held, s')) && s'.views.Keys == s.views.Keys
    ensures SumSizes(Hold(held, s').at, s.views.Keys)
            == SumSizes(held.at, s.views.Keys) + if Present(s') == Present(s) then 0 else 1
  {
    hide Sane, Inv, Moves, React, Land, Commit, PacketInv;
    if step.Ping? {
      SaneView(s, step.i);
      SaneTallies(s);
      PingRepairs(s, held, step.i, s.views[step.i], s', step.dsts);
      MovedInv(s, held, s', step.i, s.views[step.i]);
    } else {
      SaneView(s, step.d);
      SanePacket(s, step.p);
      InvPacket(s, held, step.p);
      var r := React(s.views[step.d], step.p.msg, false, step.timely);
      SaneTallies(s);
      DeliverRepairs(s, held, step.p, step.d, step.timely, r, s');
      MovedInv(s, held, s', step.d, r.view);
    }
  }

  lemma InvPacket(s: Cluster, held: Held, p: Packet)
    requires Inv(s, held) && p in s.net
    ensures PacketInv(s, held, p)
  {
  }

  lemma SaneTallies(s: Cluster)
    requires Sane(s)
    ensures s.hist.tallies.Keys == s.views.Keys
  {
  }

  /** Nodes that know each other as masters, and neither a view nor a packet in flight gives anyone a greater
      config epoch than it has. */
  ghost predicate Start(s: Cluster) {
    && Sane(s)
    && (forall i | i in s.views ::
          && AllMasters(s.views[i]) && Cfg(s, i) <= s.views[i].currentEpoch
          && forall n | n in s.views[i].peers && n in s.views :: s.views[i].peers[n].configEpoch <= Cfg(s, n))
    && (forall p | p in s.net :: PacketOk(s, p) && StartPacket(s, p))
  }

  predicate StartPacket(s: Cluster, p: Packet)
    requires Sane(s) && PacketOk(s, p)
  {
    && RepairMsg(p.msg) && p.msg.hdr.configEpoch <= Cfg(s, p.msg.hdr.sender)
    && (p.msg.Update? && p.msg.node in s.views ==> p.msg.epoch <= Cfg(s, p.msg.node))
  }

  /** The config epochs in the headers in flight, all or those of one sender. */
  function InFlight(s: Cluster): set<nat> {
    set p | p in s.net :: p.msg.hdr.configEpoch
  }

  function InFlightFrom(s: Cluster, i: NodeId): set<nat> {
    set p | p in s.net && p.msg.hdr.sender == i :: p.msg.hdr.configEpoch
  }

  /** The number of bumps among the first k steps of a run. */
  ghost function BumpCount(states: seq<Cluster>, steps: seq<Step>, k: nat): nat
    requires IsRun(states, steps) && k < |states|
  {
    if k == 0 then 0
    else
      RunSane(states, steps, k);
      RunSane(states, steps, k - 1);
      BumpCount(states, steps, k - 1) + if Present(states[k]) == Present(states[k - 1]) then 0 else 1
  }

  function StartHeld(s: Cluster): Held
    requires Sane(s)
  {
    Held(map i | i in s.views :: {Cfg(s, i)} + InFlightFrom(s, i), InFlight(s))
  }

  lemma StartInv(s: Cluster)
    requires Start(s)
    ensures Inv(s, StartHeld(s)) && SumSizes(StartHeld(s).at, s.views.Keys) >= |s.views.Keys|
  {
    hide Sane, WellFormed, Cfg, NodeInv, SumSizes, PacketInv, PacketOk, StartPacket;
    var held := StartHeld(s);
    SumAtLeast(held.at, s.views.Keys);
    forall i | i in s.views ensures NodeInv(s, held, i) { StartNode(s, i); }
    forall p | p in s.net ensures PacketInv(s, held, p) { StartPacketInv(s, p); }
  }

  lemma StartNode(s: Cluster, i: NodeId)
    requires Start(s) && i in s.views
    ensures NodeInv(s, StartHeld(s), i)
  {
    hide Sane, WellFormed, Cfg;
  }

  lemma StartPacketInv(s: Cluster, p: Packet)
    requires Start(s) && p in s.net
    ensures PacketInv(s, StartHeld(s), p)
  {
    hide Sane, WellFormed, Cfg;
  }

  lemma {:induction false} RepairRun(states: seq<Cluster>, steps: seq<Step>, k: nat) returns (held: Held)
    requires IsRun(states, steps) && k < |states| && Start(states[0])
    requires forall step | step in steps :: RepairStep(step)
    ensures Inv(states[k], held) && states[k].views.Keys == states[0].views.Keys
    ensures SumSizes(held.at, held.at.Keys) >= |states[0].views.Keys| + BumpCount(states, steps, k)
    ensures held.stale == InFlight(states[0])
    decreases k
  {
    hide Sane, Inv, Start, Takes;
    if k == 0 {
      held := StartHeld(states[0]);
      StartInv(states[0]);
      assert held.at.Keys == states[0].views.Keys;
    } else {
      var before := RepairRun(states, steps, k - 1);
      assert steps[k - 1] in steps;
      InvKeys(states[k - 1], before);
      RunSane(states, steps, k);
      RunSane(states, steps, k - 1);
      StepRepairs(states[k - 1], before, steps[k - 1], states[k]);
      held := Hold(before, states[k]);
    }
  }

  lemma InvKeys(s: Cluster, held: Held)
    requires Inv(s, held)
    ensures Sane(s) && held.at.Keys == s.views.Keys
  {
  }

  lemma InvUsedUp(s: Cluster, held: Held)
    requires Inv(s, held)
    ensures held.at.Keys == s.views.Keys == Present(s).Keys
    ensures forall i | i in s.views.Keys :: UsedUp(held.at, Present(s), held.stale, i, s.views.Keys)
  {
  }

  /** Repair terminates: a run of n masters in which only repair steps are taken contains at most n(n - 1)/2
      bumps, and n more for every config epoch that stood in a header in flight at the start, whatever is
      delivered and in whatever order. With nothing in flight that is at most 2^n - n - 1. */
  lemma BumpsAreBounded(states: seq<Cluster>, steps: seq<Step>)
    requires IsRun(states, steps) && Start(states[0])
    requires forall step | step in steps :: RepairStep(step)
    ensures var n, f := |states[0].views|, |InFlight(states[0])|;
            2 * BumpCount(states, steps, |steps|) <= n * (n - 1) + 2 * n * f
    ensures states[0].net == {} ==> BumpCount(states, steps, |steps|) + |states[0].views| + 1 <= Pow2(|states[0].views|)
  {
    hide Sane, Inv, Start, Takes, Pow2, SumSizes, BumpCount, InFlight;
    var held := RepairRun(states, steps, |steps|);
    var s := states[|steps|];
    RunSane(states, steps, |steps|);
    InvUsedUp(s, held);
    HeldBound(held.at, Present(s), held.stale, s.views.Keys);
    BumpsLeft(|states[0].views.Keys|, |held.stale|, SumSizes(held.at, held.at.Keys), BumpCount(states, steps, |steps|));
    NothingInFlight(states[0]);
  }

  lemma NothingInFlight(s: Cluster)
    ensures s.net == {} ==> InFlight(s) == {}
    ensures |s.views| == |s.views.Keys|
  {
  }

  lemma BumpsLeft(n: nat, f: nat, sum: nat, bumps: nat)
    requires n + bumps <= sum && 2 * sum <= n * (n + 1) + 2 * n * f
    ensures 2 * bumps <= n * (n - 1) + 2 * n * f && (f == 0 ==> bumps + n + 1 <= Pow2(n))
  {
    TriangleBelowPower(n);
    assert n * (n + 1) == n * (n - 1) + 2 * n;
    if f == 0 { assert 2 * n * f == 0; }
  }

  // ---- when repair is over ----

  /** A header that k sends now would make i bump. */
  ghost predicate WouldBump(s: Cluster, i: NodeId, k: NodeId)
    requires Sane(s) && i in s.views && k in s.views && i != k
  {
    SaneView(s, i);
    SaneView(s, k);
    MyConfigEpoch(React(s.views[i], Gossip(MakeHeader(s.views[k])), false, true).view) != Cfg(s, i)
  }

  ghost predicate Quiet(s: Cluster)
    requires Sane(s)
  {
    forall i, k | i in s.views && k in s.views && i != k :: !WouldBump(s, i, k)
  }

  ghost predicate DistinctEpochs(s: Cluster)
    requires Sane(s)
  {
    forall i, k | i in s.views && k in s.views && i != k :: Cfg(s, i) != Cfg(s, k)
  }

  /** A fresh header makes its receiver bump exactly when the epochs are equal and the sender's
      name is the greater. */
  lemma FreshHeaderBumps(s: Cluster, held: Held, i: NodeId, k: NodeId)
    requires Inv(s, held) && i in s.views && k in s.views && i != k && ViewOk(s.views[i], i) && ViewOk(s.views[k], k)
    requires k in s.views[i].peers
    ensures WouldBump(s, i, k) <==> Cfg(s, i) == Cfg(s, k) && i < k
  {
    hide Sane, UpdateSlots, DirtySlots, StaleClaimReply, SlotsOf;
    assert NodeInv(s, held, i) && NodeInv(s, held, k);
    var v, hdr := s.views[i], MakeHeader(s.views[k]);
    HeaderStage(v, hdr);
    var v1 := SwitchRole(ApplyHeader(v, hdr), hdr);
    ClaimStage(v1, hdr);
    assert v1.peers[k].configEpoch == Cfg(s, k);
  }

  /** In every state of a run of repair steps among nodes that all know each other, repair is over
      exactly when all config epochs differ. */
  lemma QuietIffDistinct(states: seq<Cluster>, steps: seq<Step>, j: nat)
    requires IsRun(states, steps) && Start(states[0]) && j < |states|
    requires forall step | step in steps :: RepairStep(step)
    requires forall i | i in states[j].views :: states[j].views.Keys <= states[j].views[i].peers.Keys
    ensures Sane(states[j]) && (Quiet(states[j]) <==> DistinctEpochs(states[j]))
  {
    hide Inv, WouldBump, Sane, IsRun, Start, Cfg;
    var held := RepairRun(states, steps, j);
    var s := states[j];
    RunSane(states, steps, j);
    forall i, k | i in s.views && k in s.views && i != k
      ensures WouldBump(s, i, k) <==> Cfg(s, i) == Cfg(s, k) && i < k {
      SaneView(s, i);
      SaneView(s, k);
      FreshHeaderBumps(s, held, i, k);
    }
    if Quiet(s) {
      forall i, k | i in s.views && k in s.views && i != k ensures Cfg(s, i) != Cfg(s, k) {
        assert !WouldBump(s, i, k) && !WouldBump(s, k, i);
      }
    }
  }
}
