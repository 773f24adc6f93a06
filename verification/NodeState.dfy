/** The cluster state as it lies in memory.

    A `ClusterState` keeps every slot twice: as a reference in the slot table and as a bit in the
    bitmap of the node that owns it, with a count beside the bitmap. `Valid` says that the copies
    agree. Every operation keeps it, and refines its counterpart on views. */
module NodeState {
  import opened Basics
  import opened ClusterModel

  /** The owner table when the slots below k have been rebound. */
  function RebindBelow(v: View, n: NodeId, epoch: nat, slots: set<nat>, k: nat): (owner: seq<Option<NodeId>>)
    requires WellFormed(v)
    ensures |owner| == |v.owner|
  {
    seq(|v.owner|, j requires 0 <= j < |v.owner| =>
      if j < k && Rebinds(v, n, epoch, slots, j) then Some(n) else v.owner[j])
  }

  predicate LostBelow(v: View, n: NodeId, epoch: nat, slots: set<nat>, k: nat)
    requires WellFormed(v)
  {
    exists j | 0 <= j < |v.owner| && j < k :: Rebinds(v, n, epoch, slots, j) && v.owner[j] == Some(CurMaster(v))
  }

  lemma RebindNext(v: View, n: NodeId, epoch: nat, slots: set<nat>, k: nat)
    requires WellFormed(v) && k < |v.owner|
    ensures var owner := RebindBelow(v, n, epoch, slots, k);
            && owner[k] == v.owner[k]
            && RebindBelow(v, n, epoch, slots, k + 1)
               == if Rebinds(v, n, epoch, slots, k) then owner[k := Some(n)] else owner
    ensures LostBelow(v, n, epoch, slots, k + 1)
            <==> LostBelow(v, n, epoch, slots, k)
                 || (Rebinds(v, n, epoch, slots, k) && v.owner[k] == Some(CurMaster(v)))
  {
    hide WellFormed, Rebinds, CurMaster;
  }

  lemma RebindEnds(v: View, n: NodeId, epoch: nat, slots: set<nat>)
    requires WellFormed(v)
    ensures RebindBelow(v, n, epoch, slots, 0) == v.owner && !LostBelow(v, n, epoch, slots, 0)
    ensures RebindBelow(v, n, epoch, slots, |v.owner|) == Rebind(v, n, epoch, slots)
    ensures LostBelow(v, n, epoch, slots, |v.owner|) <==> LosesASlot(v, n, epoch, slots)
  {
    hide WellFormed, Rebinds, CurMaster;
  }

  datatype Outcome = Done | AlreadyMaster | NoMaster | DeleteFailed | AddFailed

  lemma OnePeer(m: map<NodeId, Peer>, m': map<NodeId, Peer>, n: NodeId, p: Peer)
    requires n in m && m'.Keys == m.Keys && forall k | k in m :: m'[k] == if k == n then p else m[k]
    ensures m' == m[n := p]
  {
  }

  lemma RoleParts(v: View, n: NodeId, isMaster: bool, m: Option<NodeId>, arbiter: bool)
    requires n in v.peers
    ensures var v1 := SetPeer(v, n, v.peers[n].(isMaster := isMaster));
            && n in v1.peers
            && var v2 := SetPeer(v1, n, v1.peers[n].(master := m));
               && n in v2.peers
               && SetPeer(v2, n, v2.peers[n].(arbiter := arbiter))
                  == SetPeer(v, n, v.peers[n].(isMaster := isMaster, master := m, arbiter := arbiter))
  {
  }

  class ClusterNode {
    const name: NodeId
    var mySlots: set<nat>
    var numSlots: nat
    var configEpoch: nat
    var isMaster: bool
    var master: ClusterNode?
    var arbiter: bool
    var failed: bool

    constructor (name: NodeId, isMaster: bool, arbiter: bool)
      ensures this.name == name && mySlots == {} && numSlots == 0
      ensures AsPeer() == Peer(0, isMaster, None, arbiter, false)
    {
      this.name, this.isMaster, this.arbiter := name, isMaster, arbiter;
      mySlots, numSlots, configEpoch, master, failed := {}, 0, 0, null, false;
    }

    function AsPeer(): Peer
      reads `configEpoch, `isMaster, `master, `arbiter, `failed
    {
      Peer(configEpoch, isMaster, if master == null then None else Some(master.name), arbiter, failed)
    }

    ghost predicate Counted()
      reads `mySlots, `numSlots
    {
      numSlots == |mySlots|
    }

    method AddSlot(slot: nat, slotCount: nat) returns (ok: bool)
      requires Counted()
      modifies `mySlots, `numSlots
      ensures Counted() && ok == (slot < slotCount && slot !in old(mySlots))
      ensures mySlots == if ok then old(mySlots) + {slot} else old(mySlots)
    {
      if slot >= slotCount || slot in mySlots { return false; }
      mySlots := mySlots + {slot};
      numSlots := numSlots + 1;
      return true;
    }

    method ClearSlotBit(slot: nat) returns (was: bool)
      requires Counted()
      modifies `mySlots, `numSlots
      ensures Counted() && was == (slot in old(mySlots)) && mySlots == old(mySlots) - {slot}
    {
      was := slot in mySlots;
      mySlots := mySlots - {slot};
      if was { numSlots := numSlots - 1; }
    }
  }

  class ClusterState {
    const allSlots: array<ClusterNode?>
    const myself: ClusterNode
    var nodes: map<NodeId, ClusterNode>
    var currentEpoch: nat
    var lastVoteEpoch: nat
    var auth: Auth

    /** A cluster of one node and no slots assigned. */
    constructor (myself: ClusterNode, slotCount: nat)
      requires myself.mySlots == {} && myself.numSlots == 0 && myself.master == null
      ensures Valid() && fresh(allSlots) && this.myself == myself && nodes == map[myself.name := myself]
      ensures Owner() == seq(slotCount, _ => None) && currentEpoch == 0 && lastVoteEpoch == 0
    {
      this.myself := myself;
      allSlots := new ClusterNode?[slotCount](_ => null);
      nodes := map[myself.name := myself];
      currentEpoch, lastVoteEpoch, auth := 0, 0, Auth(false, false, 0, 0);
    }

    // ---- the agreement of the two copies ----

    ghost predicate NodeOk(n: ClusterNode)
      reads allSlots, n`mySlots, n`numSlots
    {
      && n.Counted()
      && (forall j :: j in n.mySlots <==> 0 <= j < allSlots.Length && allSlots[j] == n)
    }

    ghost predicate Known(n: ClusterNode)
      reads `nodes
    {
      n.name in nodes && nodes[n.name] == n
    }

    ghost predicate Named()
      reads `nodes
    {
      Known(myself) && forall k | k in nodes :: nodes[k].name == k
    }

    ghost predicate SlotsAgreed()
      reads `nodes, allSlots, nodes.Values`mySlots, nodes.Values`numSlots
    {
      && (forall k | k in nodes :: NodeOk(nodes[k]))
      && (forall j | 0 <= j < allSlots.Length :: allSlots[j] != null ==> Known(allSlots[j]))
    }

    ghost predicate MastersKnown()
      reads `nodes, nodes.Values`master
    {
      forall k | k in nodes :: nodes[k].master != null ==> Known(nodes[k].master)
    }

    ghost predicate Valid()
      reads `nodes, allSlots, nodes.Values`mySlots, nodes.Values`numSlots, nodes.Values`master
    {
      Named() && SlotsAgreed() && MastersKnown()
    }

    function Owner(): (owner: seq<Option<NodeId>>)
      reads allSlots
      ensures |owner| == allSlots.Length
    {
      seq(allSlots.Length, j requires 0 <= j < allSlots.Length reads allSlots =>
        if allSlots[j] == null then None else Some(allSlots[j].name))
    }

    function Peers(): map<NodeId, Peer>
      reads `nodes, nodes.Values`configEpoch, nodes.Values`isMaster, nodes.Values`master
      reads nodes.Values`arbiter, nodes.Values`failed
    {
      map k | k in nodes :: nodes[k].AsPeer()
    }

    function AsView(): (v: View)
      requires Valid()
      reads this, allSlots, nodes.Values
      ensures myself.isMaster || myself.master != null ==> WellFormed(v)
    {
      View(myself.name, currentEpoch, lastVoteEpoch, auth, Peers(), Owner())
    }

    // ---- single slots ----

    method AddSlot(n: ClusterNode, slot: nat) returns (ok: bool)
      requires Valid() && Known(n) && slot < allSlots.Length
      modifies allSlots, n`mySlots, n`numSlots
      ensures Valid() && ok == old(Owner()[slot].None?)
      ensures Owner() == if ok then old(Owner())[slot := Some(n.name)] else old(Owner())
    {
      if allSlots[slot] != null { return false; }
      hide MastersKnown;
      assert NodeOk(n);
      ok := n.AddSlot(slot, allSlots.Length);
      allSlots[slot] := n;
      forall k | k in nodes ensures NodeOk(nodes[k]) {
        if k != n.name { assert old(NodeOk(nodes[k])); }
      }
    }

    method DelSlot(slot: nat) returns (ok: bool)
      requires Valid() && slot < allSlots.Length
      modifies allSlots, nodes.Values`mySlots, nodes.Values`numSlots
      ensures Valid() && ok == old(Owner()[slot].Some?)
      ensures Owner() == old(Owner())[slot := None]
    {
      var n := allSlots[slot];
      if n == null { return false; }
      assert Known(n) && NodeOk(n) && n in nodes.Values;
      hide MastersKnown;
      var was := n.ClearSlotBit(slot);
      assert was;  // the debug assertion of the delete
      allSlots[slot] := null;
      forall k | k in nodes ensures NodeOk(nodes[k]) {
        if k != n.name { assert old(NodeOk(nodes[k])); }
      }
      return true;
    }

    /** Moves an assigned slot; both halves succeed. */
    method MoveSlot(n: ClusterNode, slot: nat) returns (deleted: bool, added: bool)
      requires Valid() && Known(n) && slot < allSlots.Length
      modifies allSlots, nodes.Values`mySlots, nodes.Values`numSlots
      ensures Valid() && added && deleted == old(Owner()[slot].Some?)
      ensures Owner() == old(Owner())[slot := Some(n.name)]
    {
      deleted := DelSlot(slot);
      assert n in nodes.Values;
      added := AddSlot(n, slot);
    }

    /** The bitmap of a node says what the slot table says. */
    lemma SlotsAgree(n: ClusterNode)
      requires Valid() && Known(n)
      ensures n.mySlots == SlotsOf(Owner(), n.name) && n.numSlots == |SlotsOf(Owner(), n.name)|
    {
      assert NodeOk(n);
      forall j ensures j in n.mySlots <==> j in SlotsOf(Owner(), n.name) {
        if 0 <= j < allSlots.Length && allSlots[j] != null { assert Known(allSlots[j]); }
      }
    }

    // ---- many slots ----

    method DelNodeSlots(n: ClusterNode) returns (deleted: nat)
      requires Valid() && Known(n)
      modifies allSlots, nodes.Values`mySlots, nodes.Values`numSlots
      ensures Valid() && Owner() == ClearOwner(old(Owner()), n.name) && deleted == |SlotsOf(old(Owner()), n.name)|
    {
      hide Valid, Owner;
      deleted := 0;
      ghost var before, done := Owner(), {};
      for j := 0 to allSlots.Length
        invariant Valid() && deleted == |done|
        invariant done == set i | 0 <= i < j && before[i] == Some(n.name)
        invariant forall i | 0 <= i < allSlots.Length ::
                    Owner()[i] == if i < j && before[i] == Some(n.name) then None else before[i]
      {
        SlotsAgree(n);
        if j in n.mySlots {
          var _ := DelSlot(j);
          deleted := deleted + 1;
          done := done + {j};
        }
      }
      assert done == SlotsOf(before, n.name);
    }

    /** `adopt` stands for the replication and migration checks that lie between the slot loop and
        the change of master. */
    method UpdateSlotsConfigWith(sender: ClusterNode, epoch: nat, slots: set<nat>, adopt: bool)
      requires Valid() && Known(sender) && (myself.isMaster || myself.master != null)
      modifies allSlots, nodes.Values`mySlots, nodes.Values`numSlots, myself`isMaster, myself`master, myself`arbiter
      ensures Valid() && AsView() == UpdateSlots(old(AsView()), sender.name, epoch, slots, adopt)
    {
      if sender == myself { return; }
      var lost := RebindSlots(sender, epoch, slots);
      SlotsAgree(MyMaster());
      if lost && MyMaster().numSlots == 0 && adopt {
        SetMaster(sender);
      }
    }

    /** This node if it is a master, otherwise its master. */
    function MyMaster(): (m: ClusterNode)
      requires Valid() && (myself.isMaster || myself.master != null)
      reads this, allSlots, nodes.Values
      ensures Known(m) && m.name == CurMaster(AsView())
    {
      if myself.isMaster then myself else myself.master
    }

    lemma SlotTable(j: nat)
      requires Valid() && j < allSlots.Length
      ensures allSlots[j] == null <==> Owner()[j].None?
      ensures allSlots[j] != null ==> Known(allSlots[j]) && Owner()[j] == Some(allSlots[j].name)
                                      && Peers()[allSlots[j].name].configEpoch == allSlots[j].configEpoch
    {
    }

    /** Moves slot j to the claimant if it is unassigned or its owner's epoch is smaller; says whether
        it was taken from `curMaster`. */
    method RebindSlot(sender: ClusterNode, epoch: nat, curMaster: ClusterNode, j: nat) returns (lost: bool)
      requires Valid() && Known(sender) && Known(curMaster) && j < allSlots.Length
      modifies allSlots, nodes.Values`mySlots, nodes.Values`numSlots
      ensures Valid() && Peers() == old(Peers())
      ensures var o := old(Owner()[j]);
              var moves := o != Some(sender.name)
                && (o.None? || (o.value in Peers() && Peers()[o.value].configEpoch < epoch));
              && Owner() == (if moves then old(Owner())[j := Some(sender.name)] else old(Owner()))
              && lost == (moves && o == Some(curMaster.name))
    {
      hide Valid, Owner;
      SlotTable(j);
      lost := false;
      if allSlots[j] == sender { return; }
      if allSlots[j] == null || allSlots[j].configEpoch < epoch {
        lost := allSlots[j] == curMaster;
        var deleted, added := MoveSlot(sender, j);
      }
    }

    method RebindSlots(sender: ClusterNode, epoch: nat, slots: set<nat>) returns (lost: bool)
      requires Valid() && Known(sender) && (myself.isMaster || myself.master != null)
      modifies allSlots, nodes.Values`mySlots, nodes.Values`numSlots
      ensures Valid() && Peers() == old(Peers())
      ensures Owner() == Rebind(old(AsView()), sender.name, epoch, slots)
      ensures lost == LosesASlot(old(AsView()), sender.name, epoch, slots)
    {
      ghost var v := AsView();
      var curMaster := MyMaster();
      lost := false;
      hide Valid, Owner, Peers, WellFormed, CurMaster, RebindBelow, LostBelow, LosesASlot, Rebind;
      RebindEnds(v, sender.name, epoch, slots);
      for j := 0 to allSlots.Length
        invariant Valid() && Peers() == v.peers
        invariant Owner() == RebindBelow(v, sender.name, epoch, slots, j)
        invariant lost == LostBelow(v, sender.name, epoch, slots, j)
      {
        RebindNext(v, sender.name, epoch, slots, j);
        if j in slots {
          var fromMaster := RebindSlot(sender, epoch, curMaster, j);
          lost := lost || fromMaster;
        }
      }
    }

    method SetIsMaster(n: ClusterNode, x: bool)
      requires Valid() && Known(n)
      modifies n`isMaster
      ensures Valid() && n.isMaster == x
      ensures AsView() == (var v := old(AsView()); SetPeer(v, n.name, v.peers[n.name].(isMaster := x)))
    {
      hide SlotsAgreed, Owner, WellFormed, MastersKnown;
      ghost var v, p := AsView(), n.AsPeer().(isMaster := x);
      n.isMaster := x;
      forall k | k in nodes ensures Peers()[k] == if k == n.name then p else v.peers[k] {}
      OnePeer(v.peers, Peers(), n.name, p);
    }

    method SetMasterOf(n: ClusterNode, x: ClusterNode?)
      requires Valid() && Known(n) && (x == null || Known(x))
      modifies n`master
      ensures Valid() && n.master == x
      ensures AsView() == (var v := old(AsView());
                           SetPeer(v, n.name, v.peers[n.name].(master := if x == null then None else Some(x.name))))
    {
      hide SlotsAgreed, Owner, WellFormed;
      ghost var v, p := AsView(), n.AsPeer().(master := if x == null then None else Some(x.name));
      n.master := x;
      assert MastersKnown();
      forall k | k in nodes ensures Peers()[k] == if k == n.name then p else v.peers[k] {}
      OnePeer(v.peers, Peers(), n.name, p);
    }

    method SetArbiter(n: ClusterNode, x: bool)
      requires Valid() && Known(n)
      modifies n`arbiter
      ensures Valid() && n.arbiter == x
      ensures AsView() == (var v := old(AsView()); SetPeer(v, n.name, v.peers[n.name].(arbiter := x)))
    {
      hide SlotsAgreed, Owner, WellFormed, MastersKnown;
      ghost var v, p := AsView(), n.AsPeer().(arbiter := x);
      n.arbiter := x;
      forall k | k in nodes ensures Peers()[k] == if k == n.name then p else v.peers[k] {}
      OnePeer(v.peers, Peers(), n.name, p);
    }

    lemma MyView(n: ClusterNode)
      requires Valid() && Known(n)
      ensures n.name in AsView().peers && AsView().peers[n.name] == n.AsPeer() && n in nodes.Values
    {
    }

    lemma NodeView(k: NodeId)
      requires Valid()
      ensures k in nodes <==> k in AsView().peers
      ensures k in nodes ==> Known(nodes[k]) && nodes[k].name == k && nodes[k] in nodes.Values
      ensures k in nodes ==> AsView().peers[k] == nodes[k].AsPeer()
      ensures k in nodes && nodes[k].master != null ==> Known(nodes[k].master)
    {
    }

    /** Changes the role of one node. */
    method SetRole(n: ClusterNode, isMaster: bool, master: ClusterNode?, arbiter: bool)
      requires Valid() && Known(n) && (master == null || Known(master))
      modifies n`isMaster, n`master, n`arbiter
      ensures Valid() && n.isMaster == isMaster
      ensures var m := if master == null then None else Some(master.name);
              AsView() == (var v := old(AsView());
                           SetPeer(v, n.name, v.peers[n.name].(isMaster := isMaster, master := m, arbiter := arbiter)))
    {
      hide *;
      MyView(n);
      ghost var v := AsView();
      RoleParts(v, n.name, isMaster, if master == null then None else Some(master.name), arbiter);
      SetIsMaster(n, isMaster);
      SetMasterOf(n, master);
      SetArbiter(n, arbiter);
    }

    method SetConfigEpoch(n: ClusterNode, epoch: nat)
      requires Valid() && Known(n)
      modifies n`configEpoch
      ensures Valid()
      ensures AsView() == (var v := old(AsView()); SetPeer(v, n.name, v.peers[n.name].(configEpoch := epoch)))
    {
      hide SlotsAgreed, MastersKnown, Owner, WellFormed;
      ghost var v, p := AsView(), n.AsPeer().(configEpoch := epoch);
      n.configEpoch := epoch;
      forall k | k in nodes ensures Peers()[k] == if k == n.name then p else v.peers[k] {}
      OnePeer(v.peers, Peers(), n.name, p);
    }

    /** Follow n, unless this node still serves slots or is an arbiter. */
    method SetMaster(n: ClusterNode)
      requires Valid() && Known(n) && n != myself
      modifies myself`isMaster, myself`master, myself`arbiter
      ensures Valid()
      ensures AsView() == (var v := old(AsView());
                           if SlotsOf(v.owner, v.me) == {} && !v.peers[v.me].arbiter
                           then SetPeer(v, v.me, v.peers[v.me].(isMaster := false, master := Some(n.name))) else v)
    {
      SlotsAgree(myself);
      hide SlotsAgreed, MastersKnown;
      if myself.numSlots > 0 || myself.arbiter { return; }
      MyselfKnown();
      SetRole(myself, false, n, myself.arbiter);
    }

    // ---- epochs ----

    method MaxEpoch() returns (max: nat)
      ensures currentEpoch <= max && forall k | k in nodes :: nodes[k].configEpoch <= max
      ensures max == 0 || max == currentEpoch || exists k | k in nodes :: max == nodes[k].configEpoch
    {
      max := 0;
      var rest := nodes.Keys;
      while rest != {}
        invariant rest <= nodes.Keys && forall k | k in nodes && k !in rest :: nodes[k].configEpoch <= max
        invariant max == 0 || exists k | k in nodes :: max == nodes[k].configEpoch
      {
        var k :| k in rest;
        if nodes[k].configEpoch > max { max := nodes[k].configEpoch; }
        rest := rest - {k};
      }
      if max < currentEpoch { max := currentEpoch; }
    }

    lemma MaxDecidesBump(max: nat)
      requires Valid() && (myself.isMaster || myself.master != null)
      requires currentEpoch <= max && forall k | k in nodes :: nodes[k].configEpoch <= max
      requires max == 0 || max == currentEpoch || exists k | k in nodes :: max == nodes[k].configEpoch
      ensures NeedsBump(AsView()) <==> myself.configEpoch == 0 || myself.configEpoch != max
    {
      var v := AsView();
      assert forall k | k in nodes :: v.peers[k].configEpoch == nodes[k].configEpoch;
    }

    method TakeNextEpoch()
      requires Valid()
      modifies `currentEpoch, myself`configEpoch
      ensures Valid()
      ensures myself.isMaster || myself.master != null ==> AsView() == ClusterModel.TakeNextEpoch(old(AsView()))
    {
      MyselfKnown();
      hide Valid, WellFormed, AsView, SetPeer;
      NextEpoch();
      SetConfigEpoch(myself, currentEpoch);
    }

    method NextEpoch()
      requires Valid()
      modifies `currentEpoch
      ensures Valid() && currentEpoch == old(currentEpoch) + 1
      ensures AsView() == (var v := old(AsView()); v.(currentEpoch := v.currentEpoch + 1))
      ensures old(AsView()).currentEpoch + 1 == currentEpoch && old(AsView()).me == myself.name
    {
      hide Valid, Owner, Peers, WellFormed;
      currentEpoch := currentEpoch + 1;
    }

    method BumpConfigEpoch()
      requires Valid()
      modifies `currentEpoch, myself`configEpoch
      ensures Valid()
      ensures myself.isMaster || myself.master != null ==> AsView() == Bump(old(AsView()))
    {
      hide Valid, AsView, NeedsBump;
      var max := MaxEpoch();
      if myself.isMaster || myself.master != null { MaxDecidesBump(max); }
      if myself.configEpoch == 0 || myself.configEpoch != max {
        TakeNextEpoch();
      }
    }

    // ---- assignment, takeover, removal ----

    method AssignLoop(n: ClusterNode, slots: set<nat>) returns (ok: bool)
      requires Valid() && Known(n)
      modifies allSlots, nodes.Values`mySlots, nodes.Values`numSlots
      ensures Valid() && Owner() == ClusterModel.AssignSlots(old(Owner()), n.name, slots)
      ensures ok == AssignSucceeds(old(Owner()), slots)
    {
      hide Valid, Owner;
      ghost var before := Owner();
      for j := 0 to allSlots.Length
        invariant Valid() && AssignedBelow(before, slots, j)
        invariant forall i | 0 <= i < allSlots.Length ::
                    Owner()[i] == if i < j && i in slots then Some(n.name) else before[i]
      {
        if j in slots {
          SlotTable(j);
          if allSlots[j] == n { continue; }
          var deleted := DelSlot(j);
          if !deleted { return false; }
          var added := AddSlot(n, j);
          if !added { return false; }
        }
      }
      return true;
    }

    method SetSlots(n: ClusterNode, slots: set<nat>) returns (ok: bool)
      requires Valid() && Known(n)
      modifies allSlots, nodes.Values`mySlots, nodes.Values`numSlots, `currentEpoch, myself`configEpoch
      ensures Valid() && ok == AssignSucceeds(old(Owner()), slots)
      ensures myself.isMaster || myself.master != null
              ==> AsView() == ClusterModel.SetSlots(old(AsView()), n.name, slots)
    {
      MyselfKnown();
      hide Valid, Owner, WellFormed, AssignSlots, AssignedBelow, Bump;
      ok := AssignLoop(n, slots);
      if ok && n == myself { BumpConfigEpoch(); }
    }

    method TakeSlotsOf(from: ClusterNode) returns (r: Outcome)
      requires Valid() && Known(from)
      modifies allSlots, nodes.Values`mySlots, nodes.Values`numSlots
      ensures Valid() && r == Done && Owner() == ReplaceOwner(old(Owner()), from.name, myself.name)
    {
      hide Valid, Owner;
      ghost var before := Owner();
      for j := 0 to allSlots.Length
        invariant Valid()
        invariant forall i | 0 <= i < allSlots.Length ::
                    Owner()[i] == if i < j && before[i] == Some(from.name) then Some(myself.name) else before[i]
      {
        SlotTable(j);
        if allSlots[j] == from {
          var deleted := DelSlot(j);
          if !deleted { return DeleteFailed; }
          MyselfKnown();
          var added := AddSlot(myself, j);
          if !added { return AddFailed; }
        }
      }
      return Done;
    }

    /** As `TakeSlotsOf`, on the view. */
    method MoveSlotsOf(from: ClusterNode) returns (r: Outcome)
      requires Valid() && Known(from)
      modifies allSlots, nodes.Values`mySlots, nodes.Values`numSlots
      ensures Valid() && r == Done
      ensures AsView() == (var v := old(AsView()); v.(owner := ReplaceOwner(v.owner, from.name, v.me)))
    {
      hide Valid, Owner, Peers, WellFormed, ReplaceOwner, Known;
      r := TakeSlotsOf(from);
    }

    lemma MyselfKnown()
      requires Valid()
      ensures Known(myself) && myself in nodes.Values
    {
    }

    method Promote(from: ClusterNode) returns (r: Outcome)
      requires Valid() && Known(from)
      modifies allSlots, nodes.Values`mySlots, nodes.Values`numSlots, myself`isMaster, myself`master, myself`arbiter
      ensures Valid() && r == Done
      ensures AsView() == (var v := old(AsView());
                           SetPeer(v, v.me, v.peers[v.me].(isMaster := true, master := None))
                           .(owner := ReplaceOwner(v.owner, from.name, v.me)))
    {
      MyselfKnown();
      hide Valid, Owner, WellFormed, ReplaceOwner, AsView, SetPeer, Known;
      SetRole(myself, true, null, myself.arbiter);
      r := MoveSlotsOf(from);
    }

    /** The final part of a failover. None of the inner error returns is reached. */
    method ReplaceYourMaster() returns (r: Outcome)
      requires Valid()
      modifies allSlots, nodes.Values`mySlots, nodes.Values`numSlots, myself`isMaster, myself`master, myself`arbiter
      ensures Valid()
      ensures r == old(if myself.isMaster then AlreadyMaster else if myself.master == null then NoMaster else Done)
      ensures AsView() == if r == Done then ClusterModel.TakeOver(old(AsView())).(auth := auth) else old(AsView())
    {
      if myself.isMaster { return AlreadyMaster; }
      var from := myself.master;
      if from == null { return NoMaster; }
      assert Known(from);
      r := Promote(from);
    }

    method UnassignSlotsOf(n: ClusterNode)
      requires Valid() && Known(n)
      modifies allSlots, nodes.Values`mySlots, nodes.Values`numSlots
      ensures Valid() && Owner() == ClearOwner(old(Owner()), n.name)
    {
      hide Valid, Owner;
      ghost var before := Owner();
      for j := 0 to allSlots.Length
        invariant Valid()
        invariant forall i | 0 <= i < allSlots.Length ::
                    Owner()[i] == if i < j && before[i] == Some(n.name) then None else before[i]
      {
        SlotTable(j);
        if allSlots[j] == n { var _ := DelSlot(j); }
      }
    }

    method OrphanReplicas(n: ClusterNode)
      requires Valid()
      modifies nodes.Values`master
      ensures Valid() && forall k | k in nodes ::
              nodes[k].master == if old(nodes[k].master) == n then null else old(nodes[k].master)
    {
      hide SlotsAgreed;
      forall k | k in nodes && nodes[k].master == n { nodes[k].master := null; }
    }

    method Erase(n: ClusterNode)
      requires Valid() && Known(n) && n != myself
      requires SlotsOf(Owner(), n.name) == {} && forall k | k in nodes :: nodes[k].master != n
      modifies `nodes
      ensures Valid() && nodes == old(nodes) - {n.name}
    {
      forall j | 0 <= j < allSlots.Length ensures allSlots[j] != n {
        assert j !in SlotsOf(Owner(), n.name);
      }
      nodes := nodes - {n.name};
      assert Named();
      assert MastersKnown();
    }

    /** Forget a node: its slots become unassigned and its replicas lose their master. */
    method DelNode(n: ClusterNode)
      requires Valid() && n != myself && (n.name in nodes ==> Known(n))
      modifies allSlots, `nodes, nodes.Values`mySlots, nodes.Values`numSlots, nodes.Values`master
      ensures Valid() && nodes == old(nodes) - {n.name} && Owner() == ClearOwner(old(Owner()), n.name)
      ensures forall k | k in nodes ::
              nodes[k].master == if old(nodes[k].master) == n then null else old(nodes[k].master)
    {
      if n.name !in nodes {
        UnknownOwnsNothing(n);
        return;
      }
      UnassignSlotsOf(n);
      OrphanReplicas(n);
      Erase(n);
    }

    lemma UnknownOwnsNothing(n: ClusterNode)
      requires Valid() && n.name !in nodes
      ensures ClearOwner(Owner(), n.name) == Owner()
    {
      forall j | 0 <= j < allSlots.Length ensures Owner()[j] != Some(n.name) { SlotTable(j); }
    }
  }

  /** A takeover makes this node a master, moves exactly the old master's slots, and no slot becomes assigned or
      unassigned. */
  lemma TakeOverMoves(v: View)
    requires WellFormed(v) && !v.peers[v.me].isMaster
    ensures var from, v' := v.peers[v.me].master.value, TakeOver(v);
            && SlotsOf(v'.owner, v.me) == SlotsOf(v.owner, v.me) + SlotsOf(v.owner, from)
            && (from != v.me ==> SlotsOf(v'.owner, from) == {})
            && (forall n | n != v.me && n != from :: SlotsOf(v'.owner, n) == SlotsOf(v.owner, n))
            && (forall j | 0 <= j < |v.owner| :: v'.owner[j].Some? <==> v.owner[j].Some?)
            && v'.peers[v.me].isMaster && v'.peers[v.me].master.None? && MyConfigEpoch(v') == MyConfigEpoch(v)
            && (forall n | n in v.peers && n != v.me :: v'.peers[n] == v.peers[n])
  {
    assert TakeOver(v).owner == ReplaceOwner(v.owner, v.peers[v.me].master.value, v.me);
  }
}
