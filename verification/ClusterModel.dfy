/** One node's view of the cluster and the handlers that change it.

    A `View` is the abstract value of a `ClusterState` object: epochs, the state of
    an election, what is known of every peer, and the owner of every slot. The slot
    bitmaps that each node object also keeps are not part of a view: the agreement
    invariant of `ClusterState` makes them a function of the owner table. */
module ClusterModel {
  import opened Basics

  /** Node names are compared with `<=` only; any total order will do. */
  type NodeId = nat

  datatype Peer = Peer(configEpoch: nat, isMaster: bool, master: Option<NodeId>, arbiter: bool, failed: bool)

  /** `armed` says that an election time is set; `epoch` is the epoch of the last request,
      or 0 after a reset. */
  datatype Auth = Auth(armed: bool, sent: bool, count: nat, epoch: nat)

  datatype View = View(me: NodeId, currentEpoch: nat, lastVoteEpoch: nat, auth: Auth,
                       peers: map<NodeId, Peer>, owner: seq<Option<NodeId>>)

  datatype Header = Header(sender: NodeId, currentEpoch: nat, configEpoch: nat, slots: set<nat>,
                           slaveOf: Option<NodeId>, arbiter: bool)

  datatype Msg =
    | Gossip(hdr: Header)
    | Update(hdr: Header, node: NodeId, epoch: nat, slots: set<nat>)
    | AuthRequest(hdr: Header, force: bool)
    | AuthAck(hdr: Header)
    | Fail(hdr: Header, node: NodeId)

  /** A new view and at most one message to send back. */
  datatype Reaction = Reaction(view: View, reply: Option<Msg>)

  /** What the handlers demand: every node mentioned is known, and this node is a master
      or has one (the slot update dereferences its master unconditionally). */
  predicate WellFormed(v: View) {
    && v.me in v.peers
    && (forall j | 0 <= j < |v.owner| :: v.owner[j].Some? ==> v.owner[j].value in v.peers)
    && (forall n | n in v.peers :: v.peers[n].master.Some? ==> v.peers[n].master.value in v.peers)
    && (v.peers[v.me].isMaster || v.peers[v.me].master.Some?)
  }

  function SlotsOf(owner: seq<Option<NodeId>>, n: NodeId): set<nat> {
    set j | 0 <= j < |owner| && owner[j] == Some(n)
  }

  function SetPeer(v: View, n: NodeId, p: Peer): View {
    v.(peers := v.peers[n := p])
  }

  function MyConfigEpoch(v: View): nat
    requires WellFormed(v)
  {
    v.peers[v.me].configEpoch
  }

  /** A replica publishes its master's slots and config epoch. */
  function MakeHeader(v: View): Header
    requires WellFormed(v)
  {
    var self := v.peers[v.me];
    var master := if !self.isMaster && self.master.Some? then self.master.value else v.me;
    Header(v.me, v.currentEpoch, v.peers[master].configEpoch, SlotsOf(v.owner, master), self.master, self.arbiter)
  }

  /** The part of packet processing that every message type goes through. */
  function ApplyHeader(v: View, hdr: Header): (v': View)
    ensures v'.me == v.me && v'.peers.Keys == v.peers.Keys && (WellFormed(v) ==> WellFormed(v'))
  {
    if hdr.sender !in v.peers then v
    else
      var p := v.peers[hdr.sender];
      SetPeer(v.(currentEpoch := Max(v.currentEpoch, hdr.currentEpoch)), hdr.sender,
              p.(configEpoch := Max(p.configEpoch, hdr.configEpoch)))
  }

  // ---- slots ----

  /** Slot j moves to the claimant n: it is unassigned, or its owner's known epoch is smaller. */
  predicate Rebinds(v: View, n: NodeId, epoch: nat, slots: set<nat>, j: nat)
    requires WellFormed(v) && j < |v.owner|
  {
    && j in slots
    && v.owner[j] != Some(n)
    && (v.owner[j].None? || v.peers[v.owner[j].value].configEpoch < epoch)
  }

  function Rebind(v: View, n: NodeId, epoch: nat, slots: set<nat>): seq<Option<NodeId>>
    requires WellFormed(v)
  {
    seq(|v.owner|, j requires 0 <= j < |v.owner| => if Rebinds(v, n, epoch, slots, j) then Some(n) else v.owner[j])
  }

  /** This node if it is a master, otherwise its master. */
  function CurMaster(v: View): NodeId
    requires WellFormed(v)
  {
    if v.peers[v.me].isMaster then v.me else v.peers[v.me].master.value
  }

  predicate LosesASlot(v: View, n: NodeId, epoch: nat, slots: set<nat>)
    requires WellFormed(v)
  {
    exists j | 0 <= j < |v.owner| :: Rebinds(v, n, epoch, slots, j) && v.owner[j] == Some(CurMaster(v))
  }

  /** The slot update for a claimant n. `adopt` is the outcome of the replication and migration
      checks that decide whether a node left without slots follows the claimant. */
  function UpdateSlots(v: View, n: NodeId, epoch: nat, slots: set<nat>, adopt: bool): (v': View)
    requires WellFormed(v) && n in v.peers
    ensures WellFormed(v')
  {
    if n == v.me then v
    else
      var owner := Rebind(v, n, epoch, slots);
      var v1 := v.(owner := owner);
      var self := v.peers[v.me];
      if adopt && LosesASlot(v, n, epoch, slots) && SlotsOf(owner, CurMaster(v)) == {}
         && SlotsOf(owner, v.me) == {} && !self.arbiter
      then SetPeer(v1, v.me, self.(isMaster := false, master := Some(n)))
      else v1
  }

  function ClearOwner(owner: seq<Option<NodeId>>, n: NodeId): seq<Option<NodeId>> {
    seq(|owner|, j requires 0 <= j < |owner| => if owner[j] == Some(n) then None else owner[j])
  }

  function ReplaceOwner(owner: seq<Option<NodeId>>, n: NodeId, m: NodeId): seq<Option<NodeId>> {
    seq(|owner|, j requires 0 <= j < |owner| => if owner[j] == Some(n) then Some(m) else owner[j])
  }

  // ---- gossip ----

  function SetAsMaster(p: Peer): Peer {
    if p.isMaster then p else p.(isMaster := true, master := None)
  }

  /** The role switch of the sender: a master becoming a replica loses its slots. */
  function SwitchRole(v: View, hdr: Header): (v': View)
    requires WellFormed(v) && hdr.sender in v.peers && hdr.sender != v.me
    ensures WellFormed(v')
  {
    var p := v.peers[hdr.sender].(arbiter := hdr.arbiter);
    if hdr.slaveOf.None? then SetPeer(v, hdr.sender, SetAsMaster(p))
    else
      var v1 := if p.isMaster then v.(owner := ClearOwner(v.owner, hdr.sender)) else v;
      var m := if hdr.slaveOf.value in v.peers then hdr.slaveOf else p.master;
      SetPeer(v1, hdr.sender, p.(isMaster := false, master := m))
  }

  /** The claimed slots differ from what is recorded for the sender or its master. */
  predicate DirtySlots(v: View, hdr: Header)
    requires WellFormed(v) && hdr.sender in v.peers
  {
    var p := v.peers[hdr.sender];
    if p.isMaster then SlotsOf(v.owner, hdr.sender) != hdr.slots
    else p.master.Some? && SlotsOf(v.owner, p.master.value) != hdr.slots
  }

  /** The first owner, from slot j on, that holds a claimed slot with a greater epoch. */
  function NewerOwner(v: View, hdr: Header, j: nat): (o: Option<NodeId>)
    requires WellFormed(v) && j <= |v.owner|
    ensures o.Some? ==> o.value in v.peers && v.peers[o.value].configEpoch > hdr.configEpoch
    decreases |v.owner| - j
  {
    if j == |v.owner| then None
    else if j in hdr.slots && v.owner[j].Some? && v.owner[j] != Some(hdr.sender)
            && v.peers[v.owner[j].value].configEpoch > hdr.configEpoch then v.owner[j]
    else NewerOwner(v, hdr, j + 1)
  }

  function MakeUpdate(v: View, n: NodeId): Msg
    requires WellFormed(v) && n in v.peers
  {
    Update(MakeHeader(v), n, v.peers[n].configEpoch, SlotsOf(v.owner, n))
  }

  predicate Collides(v: View, hdr: Header)
    requires WellFormed(v) && hdr.sender in v.peers
  {
    && v.peers[v.me].isMaster
    && v.peers[hdr.sender].isMaster
    && hdr.configEpoch == MyConfigEpoch(v)
    && v.peers[hdr.sender].configEpoch == MyConfigEpoch(v)
    && v.me < hdr.sender
  }

  /** Take the next epoch as this node's config epoch. */
  function TakeNextEpoch(v: View): (v': View)
    requires WellFormed(v)
    ensures WellFormed(v')
  {
    SetPeer(v.(currentEpoch := v.currentEpoch + 1), v.me,
            v.peers[v.me].(configEpoch := v.currentEpoch + 1))
  }

  /** The slot update on gossip from a master whose claim differs from the recorded one. */
  function ApplyClaim(v: View, hdr: Header, adopt: bool): (v': View)
    requires WellFormed(v) && hdr.sender in v.peers
    ensures WellFormed(v')
  {
    if DirtySlots(v, hdr) && v.peers[hdr.sender].isMaster
    then UpdateSlots(v, hdr.sender, hdr.configEpoch, hdr.slots, adopt) else v
  }

  /** The UPDATE sent back to a node that claims a slot with an outdated epoch. */
  function StaleClaimReply(v: View, hdr: Header): Option<Msg>
    requires WellFormed(v)
  {
    var newer := NewerOwner(v, hdr, 0);
    if newer.Some? then Some(MakeUpdate(v, newer.value)) else None
  }

  function RepairCollision(v: View, hdr: Header): (v': View)
    requires WellFormed(v) && hdr.sender in v.peers
    ensures WellFormed(v')
  {
    if Collides(v, hdr) then TakeNextEpoch(v) else v
  }

  function HandleGossip(v: View, hdr: Header, adopt: bool): (r: Reaction)
    requires WellFormed(v) && hdr.sender != v.me
    ensures WellFormed(r.view)
  {
    if hdr.sender !in v.peers then Reaction(v, None)
    else
      var v1 := SwitchRole(ApplyHeader(v, hdr), hdr);
      var v2 := ApplyClaim(v1, hdr, adopt);
      Reaction(RepairCollision(v2, hdr), if DirtySlots(v1, hdr) then StaleClaimReply(v2, hdr) else None)
  }

  function HandleUpdate(v: View, hdr: Header, n: NodeId, epoch: nat, slots: set<nat>, adopt: bool): (v': View)
    requires WellFormed(v) && hdr.sender != v.me
    ensures WellFormed(v')
  {
    if hdr.sender !in v.peers then v
    else
      var v1 := ApplyHeader(v, hdr);
      if n !in v1.peers || v1.peers[n].configEpoch >= epoch then v1
      else UpdateSlots(SetPeer(v1, n, SetAsMaster(v1.peers[n]).(configEpoch := epoch)), n, epoch, slots, adopt)
  }

  // ---- elections ----

  /** A master serving slots, or an arbiter, may vote. */
  predicate MayVote(v: View)
    requires WellFormed(v)
  {
    (v.peers[v.me].isMaster && SlotsOf(v.owner, v.me) != {}) || v.peers[v.me].arbiter
  }

  /** The voting conditions, once the request's header has been applied. `timely` is the clock
      condition on the last vote about the same master. */
  predicate GrantsVote(v: View, hdr: Header, force: bool, timely: bool)
    requires WellFormed(v) && hdr.sender in v.peers
  {
    && MayVote(v)
    && hdr.currentEpoch >= v.currentEpoch
    && v.lastVoteEpoch != v.currentEpoch
    && hdr.slaveOf.Some?
    && v.peers[hdr.sender].master.Some?
    && (v.peers[v.peers[hdr.sender].master.value].failed || force)
    && timely
    && (forall j | 0 <= j < |v.owner| ::
          j in hdr.slots && v.owner[j].Some? ==> v.peers[v.owner[j].value].configEpoch <= hdr.currentEpoch)
  }

  function HandleAuthRequest(v: View, hdr: Header, force: bool, timely: bool): (r: Reaction)
    requires WellFormed(v) && hdr.sender != v.me
    ensures WellFormed(r.view)
  {
    if hdr.sender !in v.peers then Reaction(v, None)
    else
      var v1 := ApplyHeader(v, hdr);
      if !GrantsVote(v1, hdr, force, timely) then Reaction(v1, None)
      else
        var v2 := v1.(lastVoteEpoch := v1.currentEpoch);
        Reaction(v2, Some(AuthAck(MakeHeader(v2))))
  }

  /** The acks a candidate counts, once the ack's header has been applied. */
  predicate CountsAck(v: View, hdr: Header)
    requires hdr.sender in v.peers
  {
    && v.peers[hdr.sender].isMaster
    && (SlotsOf(v.owner, hdr.sender) != {} || v.peers[hdr.sender].arbiter)
    && hdr.currentEpoch >= v.auth.epoch
  }

  function HandleAuthAck(v: View, hdr: Header): (v': View)
    requires WellFormed(v) && hdr.sender != v.me
    ensures WellFormed(v')
  {
    if hdr.sender !in v.peers then v
    else
      var v1 := ApplyHeader(v, hdr);
      if CountsAck(v1, hdr) then v1.(auth := v1.auth.(count := v1.auth.count + 1)) else v1
  }

  function HandleFail(v: View, hdr: Header, n: NodeId): (v': View)
    requires WellFormed(v) && hdr.sender != v.me
    ensures WellFormed(v')
  {
    if hdr.sender !in v.peers then v
    else
      var v1 := ApplyHeader(v, hdr);
      if n in v1.peers && n != v1.me then SetPeer(v1, n, v1.peers[n].(failed := true)) else v1
  }

  /** Set up a new round: the count is cleared, the epoch of the last request is not. */
  function Schedule(v: View): View {
    v.(auth := Auth(true, false, 0, v.auth.epoch))
  }

  /** A round that is too old: everything but the sent mark is cleared. */
  function Expire(v: View): View {
    v.(auth := Auth(false, v.auth.sent, 0, 0))
  }

  function StartRequest(v: View): View {
    v.(currentEpoch := v.currentEpoch + 1,
       auth := Auth(v.auth.armed, true, v.auth.count, v.currentEpoch + 1))
  }

  function Quorum(size: nat): nat { size / 2 + 1 }

  function WinElection(v: View): (v': View)
    requires WellFormed(v)
    ensures WellFormed(v')
  {
    SetPeer(v, v.me, v.peers[v.me].(configEpoch := Max(MyConfigEpoch(v), v.auth.epoch)))
  }

  /** The replica turns master and takes every slot of its old master. */
  function TakeOver(v: View): (v': View)
    requires WellFormed(v) && !v.peers[v.me].isMaster
    ensures WellFormed(v')
  {
    var from := v.peers[v.me].master.value;
    SetPeer(v.(owner := ReplaceOwner(v.owner, from, v.me), auth := Auth(false, v.auth.sent, 0, 0)), v.me,
            v.peers[v.me].(isMaster := true, master := None))
  }

  // ---- local changes ----

  /** This node's config epoch is zero, or not the greatest epoch it knows. */
  predicate NeedsBump(v: View)
    requires WellFormed(v)
  {
    var c := MyConfigEpoch(v);
    c == 0 || c < v.currentEpoch || exists n | n in v.peers :: v.peers[n].configEpoch > c
  }

  function Bump(v: View): (v': View)
    requires WellFormed(v)
    ensures WellFormed(v')
  {
    if NeedsBump(v) then TakeNextEpoch(v) else v
  }

  /** No slot of `slots` below j is unassigned. */
  predicate AssignedBelow(owner: seq<Option<NodeId>>, slots: set<nat>, j: nat) {
    forall i | 0 <= i < |owner| && i < j && i in slots :: owner[i].Some?
  }

  /** Assigning `slots` to n stops at the first unassigned slot. */
  function AssignSlots(owner: seq<Option<NodeId>>, n: NodeId, slots: set<nat>): seq<Option<NodeId>> {
    seq(|owner|, j requires 0 <= j < |owner| =>
      if j in slots && AssignedBelow(owner, slots, j + 1) then Some(n) else owner[j])
  }

  predicate AssignSucceeds(owner: seq<Option<NodeId>>, slots: set<nat>) {
    AssignedBelow(owner, slots, |owner|)
  }

  function SetSlots(v: View, n: NodeId, slots: set<nat>): (v': View)
    requires WellFormed(v) && n in v.peers
    ensures WellFormed(v')
  {
    var v1 := v.(owner := AssignSlots(v.owner, n, slots));
    if AssignSucceeds(v.owner, slots) && n == v.me then Bump(v1) else v1
  }
}
