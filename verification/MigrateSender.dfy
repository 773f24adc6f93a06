/** The sender's side of one migration task, from the snapshot to the change of ownership. */
module MigrateSender {
  import opened Basics
  import opened Migration

  datatype SendState = Start | SnapshotDone | BinlogDone | LastBinlogDone | SendOverDone | MetaChangeDone

  /** What one turn of the retry loop meets: whether the task is still running, the network, and
      whether a reconnect succeeds. */
  datatype Try = Try(running: bool, net: Net, reconnects: bool)

  /** One catch-up of the unlocked phase and the highest binlog id read after it. */
  datatype Round = Round(running: bool, tries: seq<Try>, high: nat)

  /** What the task meets. `start` is the highest id when the snapshot begins, `snapshotAt` the point
      of its transaction; `lockedAt` is the point at which every chunk lock is held, if ever. */
  datatype Env = Env(start: nat, snapshotAt: nat, brokenSlot: Option<nat>,
                     high: nat, rounds: seq<Round>, distance: nat,
                     lockedAt: Option<nat>, end: nat, lastTries: seq<Try>,
                     versionOk: bool, replied: bool, knownMoved: bool, setOk: bool)

  predicate TriesOk(log: seq<Entry>, tries: seq<Try>, low: nat) {
    |tries| == SEND_RETRY_CNT && forall i | 0 <= i < |tries| :: low <= tries[i].net.visible <= |log|
  }

  /** The positions read are positions of the log, later reads see no less, and no client writes the
      task's slots once the chunk locks are held. */
  ghost predicate EnvOk(log: seq<Entry>, slots: set<nat>, env: Env) {
    && env.start <= env.snapshotAt <= |log|
    && (forall i | 0 <= i < |env.rounds| :: TriesOk(log, env.rounds[i].tries, 0))
    && (env.lockedAt.Some? ==>
          && env.lockedAt.value <= env.end
          && TriesOk(log, env.lastTries, env.lockedAt.value)
          && NoneIn(log, slots, env.lockedAt.value, |log|))
  }

  function Restrict(s: Store, slot: nat): Store {
    map k | k in s && k.slot == slot :: s[k]
  }

  /** The verdict of the retry loop by its last turn: the task runs, and the turn succeeded or was lost on the network
      and followed by a reconnect. */
  predicate EndsWell(attempts: seq<Attempt>) {
    && attempts != []
    && var a := attempts[|attempts| - 1];
       a.running && (a.ok || (a.retry && a.reconnects))
  }

  /** The position recorded after the attempts: the last id acknowledged, or the one before. */
  function LastAcked(cur: nat, attempts: seq<Attempt>): nat {
    if attempts == [] then cur
    else
      var a := attempts[|attempts| - 1];
      if a.running && a.acked != 0 then a.acked else LastAcked(cur, attempts[..|attempts| - 1])
  }

  /** The attempts are those the tries allow. */
  predicate Recorded(tries: seq<Try>, attempts: seq<Attempt>) {
    |attempts| <= |tries| && forall i | 0 <= i < |attempts| :: Fits(tries[i], attempts[i])
  }

  predicate Fits(t: Try, a: Attempt) {
    a.visible == t.net.visible && a.running == t.running && a.reconnects == t.reconnects
  }

  lemma LastTurn(tries: seq<Try>, cur: nat, attempts: seq<Attempt>, a: Attempt)
    requires Recorded(tries, attempts) && |attempts| < |tries| && Fits(tries[|attempts|], a)
    ensures Recorded(tries, attempts + [a])
    ensures EndsWell(attempts + [a]) <==> a.running && (a.ok || (a.retry && a.reconnects))
    ensures LastAcked(cur, attempts + [a]) == if a.running && a.acked != 0 then a.acked else LastAcked(cur, attempts)
  {
    assert (attempts + [a])[..|attempts|] == attempts;
  }

  /** The outcome of one round of the unlocked phase: whether it succeeded, and the position then recorded. */
  datatype Outcome = Outcome(ok: bool, cur: nat)

  predicate Close(high: nat, cur: nat, distance: nat) {
    cur <= high && high - cur <= distance
  }

  /** The last round succeeded and came close enough. */
  predicate CaughtUp(rounds: seq<Round>, distance: nat, outcomes: seq<Outcome>) {
    && 0 < |outcomes| <= |rounds|
    && var k := |outcomes| - 1;
       outcomes[k].ok && Close(rounds[k].high, outcomes[k].cur, distance)
  }

  /** The first attempt of the round meets no failure. */
  predicate GoesWell(round: Round, cur: nat) {
    |round.tries| > 0 && round.tries[0].running && Smooth(round.tries[0].net, cur)
  }

  /** The course of the unlocked phase: rounds are made until one fails, comes close, or may not start. */
  predicate Course(rounds: seq<Round>, distance: nat, cur: nat, outcomes: seq<Outcome>) {
    && |outcomes| <= |rounds|
    && (forall i | 0 <= i < |outcomes| ::
          && rounds[i].running
          && (GoesWell(rounds[i], if i == 0 then cur else outcomes[i - 1].cur) ==> outcomes[i].ok))
    && (forall i | 0 <= i < |outcomes| - 1 :: outcomes[i].ok && !Close(rounds[i].high, outcomes[i].cur, distance))
  }

  lemma CourseMore(rounds: seq<Round>, distance: nat, cur: nat, outcomes: seq<Outcome>, o: Outcome)
    requires Course(rounds, distance, cur, outcomes) && |outcomes| < |rounds| && rounds[|outcomes|].running
    requires var k := |outcomes|;
             && (k > 0 ==> outcomes[k - 1].ok && !Close(rounds[k - 1].high, outcomes[k - 1].cur, distance))
             && (GoesWell(rounds[k], if k == 0 then cur else outcomes[k - 1].cur) ==> o.ok)
    ensures Course(rounds, distance, cur, outcomes + [o])
  {
    hide GoesWell, Close;
  }

  /** It stopped where it had to. */
  predicate Finished(rounds: seq<Round>, distance: nat, outcomes: seq<Outcome>) {
    || CaughtUp(rounds, distance, outcomes)
    || (outcomes != [] && !outcomes[|outcomes| - 1].ok)
    || |outcomes| == |rounds|
    || (|outcomes| < |rounds| && !rounds[|outcomes|].running)
  }

  /** The last binlog has gone out, as far as the sender can tell. */
  predicate LastSent(env: Env, outcomes: seq<Outcome>, last: seq<Attempt>) {
    outcomes != [] && (env.end <= outcomes[|outcomes| - 1].cur || EndsWell(last))
  }

  /** The attempts of the last catch-up are those its tries allow, and it goes out if the first meets no failure. */
  predicate LastCourse(env: Env, outcomes: seq<Outcome>, last: seq<Attempt>) {
    && Recorded(env.lastTries, last)
    && (CaughtUp(env.rounds, env.distance, outcomes) && env.lockedAt.Some? && |env.lastTries| > 0
        && env.lastTries[0].running && Smooth(env.lastTries[0].net, outcomes[|outcomes| - 1].cur)
        ==> LastSent(env, outcomes, last))
  }

  class ChunkMigrateSender {
    const slotCount: nat
    const slots: set<nat>
    const receiver: Receiver
    var cur: nat
    var state: SendState
    var locked: bool
    /** The migrateend messages sent so far: true for "+OK", false for "-ERR". */
    var ends: seq<bool>

    constructor (slotCount: nat, slots: set<nat>, receiver: Receiver)
      ensures this.slotCount == slotCount && this.slots == slots && this.receiver == receiver
      ensures state == Start && !locked && ends == []
    {
      this.slotCount, this.slots, this.receiver := slotCount, slots, receiver;
      cur, state, locked, ends := 0, Start, false, [];
    }

    ghost predicate SlotsOk() {
      forall s | s in slots :: s < slotCount
    }

    function AsLink(): Link
      reads `cur, receiver
    {
      Link(receiver.store, cur)
    }

    predicate NeedToSendFail()
      reads `state
    {
      state == SnapshotDone || state == BinlogDone
    }

    /** Records the position, then copies the slots one by one as of a later point. */
    method SendSnapshot(log: seq<Entry>, src: Store, start: nat, brokenSlot: Option<nat>) returns (ok: bool)
      requires SlotsOk() && forall k | k in receiver.store :: k.slot !in slots
      modifies `cur, receiver
      ensures cur == start && (ok ==> SameOn(src, receiver.store, slots))
      ensures ok <==> brokenSlot.None? || brokenSlot.value !in slots
    {
      cur := start;
      for i := 0 to slotCount
        invariant cur == start
        invariant forall k | k in receiver.store && k.slot in slots ::
                    k.slot < i && k in src && receiver.store[k] == src[k]
        invariant forall k | k in src && k.slot in slots && k.slot < i :: k in receiver.store
        invariant brokenSlot.Some? && brokenSlot.value in slots ==> i <= brokenSlot.value
      {
        if i in slots {
          if brokenSlot == Some(i) { return false; }
          receiver.store := receiver.store + Restrict(src, i);
        }
      }
      return true;
    }

    method CatchupBinlog(log: seq<Entry>, end: nat, tries: seq<Try>) returns (ok: bool, ghost attempts: seq<Attempt>)
      requires SlotsOk() && cur <= |log| && TriesOk(log, tries, 0)
      modifies `cur, receiver
      ensures AllGenuine(log, slots, old(AsLink()), end, attempts) && (old(cur) < end ==> attempts != [])
      ensures var v := Catchup(log, slots, old(AsLink()), end, attempts); ok == v.ok && AsLink() == v.link
      ensures Recorded(tries, attempts)
      ensures ok <==> end <= old(cur) || EndsWell(attempts)
      ensures tries[0].running && Smooth(tries[0].net, old(cur)) ==> ok
      ensures cur == LastAcked(old(cur), attempts)
    {
      attempts := [];
      if end <= cur { return true, []; }
      assert AllGenuine(log, slots, AsLink(), end, [])
        && Retry(log, slots, AsLink(), end, []) == Verdict(AsLink(), true, false, false);
      assert Recorded(tries, []) && LastAcked(cur, []) == cur;
      hide AllGenuine, Retry, Recorded, EndsWell, LastAcked, Smooth;
      ok := true;
      for i := 0 to SEND_RETRY_CNT
        invariant |attempts| == i && AllGenuine(log, slots, old(AsLink()), end, attempts) && cur <= |log|
        invariant Retry(log, slots, old(AsLink()), end, attempts) == Verdict(AsLink(), ok, false, false)
        invariant Recorded(tries, attempts)
        invariant cur == LastAcked(old(cur), attempts) && (i > 0 ==> ok == EndsWell(attempts))
        invariant i > 0 ==> !(tries[0].running && Smooth(tries[0].net, old(cur)))
      {
        var t := tries[i];
        if !t.running {
          ghost var stopped := Attempt(false, t.net.visible, cur, 0, false, false, t.reconnects);
          RetryNext(log, slots, old(AsLink()), end, attempts, stopped);
          LastTurn(tries, old(cur), attempts, stopped);
          return false, attempts + [stopped];
        }
        ghost var upTo;
        var sent, retry, acked;
        sent, retry, acked, upTo := SendSlotsBinlog(receiver, log, slotCount, slots, cur, end, t.net);
        ghost var a := Attempt(true, t.net.visible, upTo, acked, sent, retry, t.reconnects);
        RetryNext(log, slots, old(AsLink()), end, attempts, a);
        LastTurn(tries, old(cur), attempts, a);
        attempts := attempts + [a];
        if acked != 0 { cur := acked; }
        if sent { return true, attempts; }
        ok := retry && t.reconnects;
      }
    }

    /** The unlocked phase: catch up until the distance to the end of the log is small. */
    method SendBinlog(ghost base: Store, log: seq<Entry>, high: nat, rounds: seq<Round>, distance: nat)
      returns (ok: bool, ghost outcomes: seq<Outcome>)
      requires SlotsOk() && LogOk(log) && cur <= |log| && Covers(base, log, slots, cur, receiver.store)
      requires forall i | 0 <= i < |rounds| :: TriesOk(log, rounds[i].tries, 0)
      modifies `cur, receiver
      ensures cur <= |log| && Covers(base, log, slots, cur, receiver.store)
      ensures ok <==> CaughtUp(rounds, distance, outcomes)
      ensures Course(rounds, distance, old(cur), outcomes) && Finished(rounds, distance, outcomes)
      ensures cur == if outcomes == [] then old(cur) else outcomes[|outcomes| - 1].cur
    {
      var binlogHigh: nat := high;
      outcomes := [];
      assert Course(rounds, distance, cur, outcomes);
      hide Covers, LogOk, EndsWell, LastAcked, Smooth, AllGenuine, Catchup, Course;
      for i := 0 to |rounds|
        invariant cur <= |log| && Covers(base, log, slots, cur, receiver.store)
        invariant |outcomes| == i && Course(rounds, distance, old(cur), outcomes)
        invariant i > 0 ==> outcomes[i - 1].ok && !Close(rounds[i - 1].high, outcomes[i - 1].cur, distance)
        invariant cur == if i == 0 then old(cur) else outcomes[i - 1].cur
      {
        if !rounds[i].running { return false, outcomes; }
        ghost var link := AsLink();
        var s, attempts := CatchupBinlog(log, binlogHigh, rounds[i].tries);
        ghost var p := CatchupCovers(base, log, slots, link, binlogHigh, attempts);
        CoversWeaker(base, log, slots, p, cur, receiver.store);
        CourseMore(rounds, distance, old(cur), outcomes, Outcome(s, cur));
        outcomes := outcomes + [Outcome(s, cur)];
        if !s { return false, outcomes; }
        binlogHigh := rounds[i].high;
        if cur <= binlogHigh && binlogHigh - cur <= distance { return true, outcomes; }
      }
      return false, outcomes;
    }

    /** Under the chunk locks. When it reports success and the connection was not lost on every attempt,
        the receiver has all of the task's data. */
    method SendLastBinlog(ghost base: Store, log: seq<Entry>, lockedAt: nat, end: nat, tries: seq<Try>)
      returns (ok: bool, ghost attempts: seq<Attempt>)
      requires SlotsOk() && LogOk(log) && cur <= |log| && Covers(base, log, slots, cur, receiver.store)
      requires lockedAt <= end && TriesOk(log, tries, lockedAt) && NoneIn(log, slots, lockedAt, |log|)
      modifies `cur, receiver
      ensures ok && !Undelivered(attempts) ==> SameOn(State(base, log, |log|), receiver.store, slots)
      ensures Recorded(tries, attempts) && (ok <==> end <= old(cur) || EndsWell(attempts))
      ensures tries[0].running && Smooth(tries[0].net, old(cur)) ==> ok
    {
      hide Covers, LogOk, SameOn;
      ghost var link := AsLink();
      ok, attempts := CatchupBinlog(log, end, tries);
      ghost var p := CatchupCovers(base, log, slots, link, end, attempts);
      FalseSuccess(log, slots, link, end, attempts);
      if ok && !Undelivered(attempts) {
        assert lockedAt <= p;
        CoversAll(base, log, slots, p, receiver.store);
      }
    }

    /** Says how the transfer ended, as the state has it. */
    method SendOver(replied: bool) returns (ok: bool)
      modifies `ends
      ensures ends == old(ends) + [!NeedToSendFail()] && ok == replied
    {
      ends := ends + [!NeedToSendFail()];
      return replied;
    }

    /** The whole task. */
    method SendChunk(base: Store, log: seq<Entry>, env: Env)
      returns (ok: bool, ghost outcomes: seq<Outcome>, ghost last: seq<Attempt>)
      requires SlotsOk() && LogOk(log) && EnvOk(log, slots, env)
      requires state == Start && !locked && ends == [] && forall k | k in receiver.store :: k.slot !in slots
      modifies this, receiver
      // "+OK" is sent exactly if the snapshot, the unlocked rounds, the locks, the last binlog and the version
      // went well; every failure before it, but that of the locks, is told once the snapshot is over.
      ensures Course(env.rounds, env.distance, env.start, outcomes)
      ensures env.brokenSlot.None? || env.brokenSlot.value !in slots ==> Finished(env.rounds, env.distance, outcomes)
      ensures LastCourse(env, outcomes, last)
      ensures true in ends <==> && (env.brokenSlot.None? || env.brokenSlot.value !in slots)
                                && CaughtUp(env.rounds, env.distance, outcomes)
                                && env.lockedAt.Some? && LastSent(env, outcomes, last) && env.versionOk
      ensures false in ends <==> && (env.brokenSlot.None? || env.brokenSlot.value !in slots) && true !in ends
                                 && (env.lockedAt.Some? || !CaughtUp(env.rounds, env.distance, outcomes))
      ensures |ends| <= 1
      // The task succeeds exactly if it was then answered and ownership moved, and only then are the locks
      // released again after "+OK"; before, they are not held.
      ensures ok <==> true in ends && env.replied && (env.knownMoved || env.setOk)
      ensures locked <==> true in ends && !ok
      ensures true in ends <==> state == LastBinlogDone || state == SendOverDone || state == MetaChangeDone
      ensures locked <==> state == LastBinlogDone || state == SendOverDone
      ensures ok <==> state == MetaChangeDone
      // The receiver that is told "+OK" holds exactly the source's data on the task's slots.
      ensures true in ends && !Undelivered(last) ==> SameOn(State(base, log, |log|), receiver.store, slots)
    {
      outcomes, last := [], [];
      assert Course(env.rounds, env.distance, env.start, []) && !CaughtUp(env.rounds, env.distance, []);
      hide CaughtUp, Course, Finished, EndsWell, Undelivered, SameOn;
      var src := State(base, log, env.snapshotAt);
      ok := SendSnapshot(log, src, env.start, env.brokenSlot);
      if !ok { return; }
      SnapshotCovers(base, log, slots, env.start, env.snapshotAt, receiver.store);
      state := SnapshotDone;
      ok, outcomes := SendBinlog(base, log, env.high, env.rounds, env.distance);
      if !ok {
        var _ := SendOver(env.replied);
        return;
      }
      state := BinlogDone;
      if env.lockedAt.None? { return false, outcomes, last; }
      locked := true;
      ok, last := SendLastBinlog(base, log, env.lockedAt.value, env.end, env.lastTries);
      if !ok || !env.versionOk {
        locked := false;
        var _ := SendOver(env.replied);
        return false, outcomes, last;
      }
      state := LastBinlogDone;
      ok := SendOver(env.replied);
      if !ok { return; }
      state := SendOverDone;
      if !env.knownMoved && !env.setOk { return false, outcomes, last; }
      locked := false;
      state := MetaChangeDone;
    }
  }

  lemma SnapshotCovers(base: Store, log: seq<Entry>, slots: set<nat>, p: nat, t: nat, dest: Store)
    requires p <= t <= |log| && SameOn(State(base, log, t), dest, slots)
    ensures Covers(base, log, slots, p, dest)
  {
    forall k: Key | k.slot in slots ensures exists t :: p <= t && AsOf(base, log, t, dest, k) {
      assert AsOf(base, log, t, dest, k);
    }
  }
}
