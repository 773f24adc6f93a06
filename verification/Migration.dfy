/** Online slot migration: a fuzzy snapshot, the binlog replayed at least once, and the last binlog
    under the chunk locks.

    Binlog ids are positions in a log that other clients keep extending. A sender that has recorded
    position p knows only that every key of the task is as new as p at the receiver; what a failed
    attempt applied beyond p is not known to it. */
module Migration {
  import opened Basics

  datatype Key = Key(slot: nat, name: string)

  /** One committed transaction: blind puts (`Some`) and deletes (`None`) on keys of one slot. */
  datatype Entry = Entry(slot: nat, writes: map<Key, Option<string>>)

  type Store = map<Key, string>

  function Lookup(s: Store, k: Key): Option<string> {
    if k in s then Some(s[k]) else None
  }

  function Apply(s: Store, e: Entry): (s': Store)
    ensures forall k :: Lookup(s', k) == if k in e.writes then e.writes[k] else Lookup(s, k)
  {
    map k | k in s.Keys + e.writes.Keys && (k in e.writes ==> e.writes[k].Some?)
      :: if k in e.writes then e.writes[k].value else s[k]
  }

  /** Every entry writes keys of its own slot only. */
  ghost predicate LogOk(log: seq<Entry>) {
    forall i, k | 0 <= i < |log| && k in log[i].writes :: k.slot == log[i].slot
  }

  /** The source store after the first t entries. */
  function State(base: Store, log: seq<Entry>, t: nat): Store
    requires t <= |log|
  {
    if t == 0 then base else Apply(State(base, log, t - 1), log[t - 1])
  }

  /** The receiver's store after the task's entries at positions [lo, hi) were applied in order. */
  function Replay(dest: Store, log: seq<Entry>, slots: set<nat>, lo: nat, hi: nat): Store
    requires hi <= |log|
    decreases hi
  {
    if hi <= lo then dest
    else
      var d := Replay(dest, log, slots, lo, hi - 1);
      if log[hi - 1].slot in slots then Apply(d, log[hi - 1]) else d
  }

  lemma {:induction false} ReplaySplits(dest: Store, log: seq<Entry>, slots: set<nat>, a: nat, b: nat, c: nat)
    requires a <= b <= c <= |log|
    ensures Replay(Replay(dest, log, slots, a, b), log, slots, b, c) == Replay(dest, log, slots, a, c)
    decreases c
  {
    if b < c { ReplaySplits(dest, log, slots, a, b, c - 1); }
  }

  // ---- how new the receiver is ----

  predicate AsOf(base: Store, log: seq<Entry>, t: nat, dest: Store, k: Key) {
    t <= |log| && Lookup(dest, k) == Lookup(State(base, log, t), k)
  }

  /** Every key of the task is as it was in the source at some point from p on. Different keys may be
      at different points: neither the snapshot nor a broken replay is a single point in time. */
  ghost predicate Covers(base: Store, log: seq<Entry>, slots: set<nat>, p: nat, dest: Store) {
    forall k: Key | k.slot in slots :: exists t :: p <= t && AsOf(base, log, t, dest, k)
  }

  predicate SameOn(s: Store, s': Store, slots: set<nat>) {
    && (forall k | k in s && k.slot in slots :: k in s' && s'[k] == s[k])
    && (forall k | k in s' && k.slot in slots :: k in s)
  }

  predicate NoneIn(log: seq<Entry>, slots: set<nat>, lo: nat, hi: nat) {
    forall i | lo <= i < hi && i < |log| :: log[i].slot !in slots
  }

  lemma CoversWeaker(base: Store, log: seq<Entry>, slots: set<nat>, p: nat, q: nat, dest: Store)
    requires Covers(base, log, slots, p, dest) && q <= p
    ensures Covers(base, log, slots, q, dest)
  {
    forall k: Key | k.slot in slots ensures exists t :: q <= t && AsOf(base, log, t, dest, k) {
      var t :| p <= t && AsOf(base, log, t, dest, k);
    }
  }

  /** One more entry is passed over: applied if it is the task's, skipped otherwise. */
  lemma EntryCovers(base: Store, log: seq<Entry>, slots: set<nat>, p: nat, dest: Store, dest': Store)
    requires LogOk(log) && p < |log| && Covers(base, log, slots, p, dest)
    requires dest' == if log[p].slot in slots then Apply(dest, log[p]) else dest
    ensures Covers(base, log, slots, p + 1, dest')
  {
    forall k: Key | k.slot in slots ensures exists t :: p + 1 <= t && AsOf(base, log, t, dest', k) {
      var t :| p <= t && AsOf(base, log, t, dest, k);
      if t == p || k in log[p].writes { assert AsOf(base, log, p + 1, dest', k); }
      else { assert AsOf(base, log, t, dest', k); }
    }
  }

  lemma {:induction false} ReplayCovers(base: Store, log: seq<Entry>, slots: set<nat>, lo: nat, hi: nat, dest: Store)
    requires LogOk(log) && lo <= hi <= |log| && Covers(base, log, slots, lo, dest)
    ensures Covers(base, log, slots, hi, Replay(dest, log, slots, lo, hi))
    decreases hi
  {
    hide Covers, LogOk;
    if lo < hi {
      ReplayCovers(base, log, slots, lo, hi - 1, dest);
      EntryCovers(base, log, slots, hi - 1, Replay(dest, log, slots, lo, hi - 1), Replay(dest, log, slots, lo, hi));
    }
  }

  lemma {:induction false} ReplayNone(dest: Store, log: seq<Entry>, slots: set<nat>, lo: nat, hi: nat)
    requires lo <= hi <= |log| && NoneIn(log, slots, lo, hi)
    ensures Replay(dest, log, slots, lo, hi) == dest
    decreases hi
  {
    if lo < hi { ReplayNone(dest, log, slots, lo, hi - 1); }
  }

  /** Once nothing of the task is left in the log, a covering receiver holds exactly the source's data. */
  lemma CoversAll(base: Store, log: seq<Entry>, slots: set<nat>, p: nat, dest: Store)
    requires LogOk(log) && p <= |log| && Covers(base, log, slots, p, dest) && NoneIn(log, slots, p, |log|)
    ensures SameOn(State(base, log, |log|), dest, slots)
  {
    var src := State(base, log, |log|);
    ReplayCovers(base, log, slots, p, |log|, dest);
    ReplayNone(dest, log, slots, p, |log|);
    forall k: Key | k.slot in slots ensures Lookup(dest, k) == Lookup(src, k) {
      var t :| |log| <= t && AsOf(base, log, t, dest, k);
    }
    assert forall k: Key | k.slot in slots :: Lookup(dest, k) == Lookup(src, k);
    forall k | k in src && k.slot in slots
      ensures k in dest && dest[k] == src[k] { assert Lookup(dest, k) == Lookup(src, k); }
    forall k | k in dest && k.slot in slots ensures k in src { assert Lookup(dest, k) == Lookup(src, k); }
  }

  // ---- one attempt: SendSlotsBinlog ----

  /** What becomes of a batch: it is applied and acknowledged, or the receiver applies it up to some
      position and no good answer arrives. `retry` marks a network failure. */
  datatype Reply = Good | Bad(upTo: nat, retry: bool)

  /** What one attempt meets: how many log entries its cursor reaches, the entries that fill the
      writer, the entries at which the cursor or a heartbeat fails, and the replies. */
  datatype Net = Net(visible: nat, cuts: set<nat>, breaks: map<nat, bool>, replies: seq<Reply>)

  function ReplyAt(net: Net, i: nat): Reply {
    if i < |net.replies| then net.replies[i] else Bad(0, true)
  }

  class Receiver {
    var store: Store

    method ApplyBinlogs(log: seq<Entry>, slots: set<nat>, lo: nat, hi: nat)
      requires lo <= hi <= |log|
      modifies this
      ensures store == Replay(old(store), log, slots, lo, hi)
    {
      for i := lo to hi
        invariant store == Replay(old(store), log, slots, lo, i)
      {
        if log[i].slot in slots { store := Apply(store, log[i]); }
      }
    }

    /** A batch of the task's entries between lo and hi. */
    method Handle(log: seq<Entry>, slots: set<nat>, lo: nat, hi: nat, reply: Reply) returns (ghost upTo: nat)
      requires lo <= hi <= |log|
      modifies this
      ensures lo <= upTo <= hi && store == Replay(old(store), log, slots, lo, upTo) && (reply.Good? ==> upTo == hi)
    {
      var last := if reply.Good? || hi < reply.upTo then hi else if reply.upTo < lo then lo else reply.upTo;
      ApplyBinlogs(log, slots, lo, last);
      upTo := last;
    }
  }

  /** Nothing breaks from pos on, and every batch is answered well. */
  predicate Smooth(net: Net, pos: nat) {
    && (forall i | pos <= i < net.visible :: i !in net.breaks)
    && net.visible - pos <= |net.replies| && forall i | 0 <= i < |net.replies| :: net.replies[i].Good?
  }

  /** The id of the task's last entry between pos and upTo, or 0 if there is none. */
  predicate LastOf(log: seq<Entry>, slots: set<nat>, pos: nat, upTo: nat, id: nat) {
    if id == 0 then NoneIn(log, slots, pos, upTo)
    else pos < id <= upTo <= |log| && log[id - 1].slot in slots && NoneIn(log, slots, id, upTo)
  }

  /** Sends the task's entries after `pos` up to `end`. At the end the receiver has applied exactly the
      task's entries in [pos, upTo); `acked` is the last acknowledged id, or 0. */
  method SendSlotsBinlog(r: Receiver, log: seq<Entry>, slotCount: nat, slots: set<nat>, pos: nat, end: nat, net: Net)
    returns (ok: bool, retry: bool, acked: nat, ghost upTo: nat)
    requires pos <= |log| && net.visible <= |log| && forall s | s in slots :: s < slotCount
    modifies r
    ensures pos <= upTo <= |log| && r.store == Replay(old(r.store), log, slots, pos, upTo)
    ensures acked == 0 || pos < acked <= upTo
    ensures ok ==> (net.visible <= upTo || end <= upTo) && LastOf(log, slots, pos, upTo, acked)
    ensures Smooth(net, pos) ==> ok
  {
    var i, sent, count, last, n := pos, pos, 0, pos, 0;
    acked, retry := 0, false;
    while i < net.visible
      invariant pos <= sent <= i <= |log| && (i <= net.visible || i == pos)
      invariant r.store == Replay(old(r.store), log, slots, pos, sent)
      invariant if count == 0 then NoneIn(log, slots, sent, i) else sent < last <= i && NoneIn(log, slots, last, i)
      invariant acked == 0 || pos < acked <= sent
      invariant LastOf(log, slots, pos, sent, acked) && (count != 0 ==> log[last - 1].slot in slots)
      invariant n + (if count == 0 then 0 else 1) <= i - pos
    {
      if i in net.breaks { return false, net.breaks[i], acked, sent; }
      if log[i].slot >= slotCount {
        i := i + 1;
        continue;
      }
      if i + 1 > end { break; }
      if log[i].slot in slots {
        count, last := count + 1, i + 1;
        if i in net.cuts {
          var reply := ReplyAt(net, n);
          ghost var q := r.Handle(log, slots, sent, last, reply);
          ReplaySplits(old(r.store), log, slots, pos, sent, q);
          if reply.Bad? { return false, reply.retry, acked, q; }
          acked, sent, count, n := last, last, 0, n + 1;
        }
      }
      i := i + 1;
    }
    if count != 0 {
      var reply := ReplyAt(net, n);
      ghost var q := r.Handle(log, slots, sent, last, reply);
      ReplaySplits(old(r.store), log, slots, pos, sent, q);
      if reply.Bad? { return false, reply.retry, acked, q; }
      acked, sent := last, last;
    }
    ReplayNone(r.store, log, slots, sent, i);
    ReplaySplits(old(r.store), log, slots, pos, sent, i);
    return true, false, acked, i;
  }

  // ---- catching up ----

  const SEND_RETRY_CNT := 3

  /** What the receiver holds and the position the sender has recorded. */
  datatype Link = Link(dest: Store, cur: nat)

  /** One turn of the retry loop, as it went. */
  datatype Attempt = Attempt(running: bool, visible: nat, upTo: nat, acked: nat, ok: bool, retry: bool,
      reconnects: bool)

  /** `done` says that an attempt succeeded, `left` that the loop was left. */
  datatype Verdict = Verdict(link: Link, ok: bool, done: bool, left: bool)

  /** What an attempt that sends from link.cur to `end` can look like. */
  predicate Genuine(log: seq<Entry>, link: Link, end: nat, a: Attempt) {
    && link.cur <= a.upTo <= |log|
    && (a.acked == 0 || link.cur < a.acked <= a.upTo)
    && (a.ok ==> a.visible <= a.upTo || end <= a.upTo)
  }

  function After(log: seq<Entry>, slots: set<nat>, link: Link, a: Attempt): Link
    requires a.upTo <= |log|
  {
    Link(Replay(link.dest, log, slots, link.cur, a.upTo), if a.acked == 0 then link.cur else a.acked)
  }

  /** One turn: a successful reconnect overwrites the failure of the attempt before it. */
  function Turn(log: seq<Entry>, slots: set<nat>, v: Verdict, a: Attempt): Verdict
    requires a.upTo <= |log|
  {
    if v.left then v
    else if !a.running then Verdict(v.link, false, false, true)
    else if a.ok then Verdict(After(log, slots, v.link, a), true, true, true)
    else Verdict(After(log, slots, v.link, a), a.retry && a.reconnects, false, false)
  }

  ghost predicate AllGenuine(log: seq<Entry>, slots: set<nat>, link: Link, end: nat, attempts: seq<Attempt>)
    decreases |attempts|, 0
  {
    attempts == [] ||
    (var before, a := attempts[..|attempts| - 1], attempts[|attempts| - 1];
     && AllGenuine(log, slots, link, end, before)
     && a.upTo <= |log|
     && (!Retry(log, slots, link, end, before).left
         ==> Genuine(log, Retry(log, slots, link, end, before).link, end, a)))
  }

  ghost function Retry(log: seq<Entry>, slots: set<nat>, link: Link, end: nat, attempts: seq<Attempt>): Verdict
    requires AllGenuine(log, slots, link, end, attempts)
    decreases |attempts|, 1
  {
    if attempts == [] then Verdict(link, true, false, false)
    else Turn(log, slots, Retry(log, slots, link, end, attempts[..|attempts| - 1]), attempts[|attempts| - 1])
  }

  lemma RetryNext(log: seq<Entry>, slots: set<nat>, link: Link, end: nat, before: seq<Attempt>, a: Attempt)
    requires AllGenuine(log, slots, link, end, before) && a.upTo <= |log|
    requires !Retry(log, slots, link, end, before).left
             ==> Genuine(log, Retry(log, slots, link, end, before).link, end, a)
    ensures AllGenuine(log, slots, link, end, before + [a])
    ensures Retry(log, slots, link, end, before + [a]) == Turn(log, slots, Retry(log, slots, link, end, before), a)
  {
    assert (before + [a])[..|before|] == before;
  }

  /** The whole catch-up: nothing to do if the recorded position is far enough. */
  ghost function Catchup(log: seq<Entry>, slots: set<nat>, link: Link, end: nat, attempts: seq<Attempt>): Verdict
    requires AllGenuine(log, slots, link, end, attempts)
  {
    if end <= link.cur then Verdict(link, true, true, true) else Retry(log, slots, link, end, attempts)
  }

  /** Every attempt ran and failed, and the last one on the network with a successful reconnect. */
  predicate Undelivered(attempts: seq<Attempt>) {
    && attempts != [] && !AnyLeaves(attempts)
    && attempts[|attempts| - 1].retry && attempts[|attempts| - 1].reconnects
  }

  /** The attempt ends the loop: it is not made, or it succeeds. */
  predicate Leaves(a: Attempt) {
    !a.running || a.ok
  }

  predicate AnyLeaves(attempts: seq<Attempt>) {
    exists i :: 0 <= i < |attempts| && Leaves(attempts[i])
  }

  lemma AnyLeavesMore(before: seq<Attempt>, a: Attempt)
    ensures AnyLeaves(before + [a]) <==> AnyLeaves(before) || Leaves(a)
  {
    var all := before + [a];
    assert all[|before|] == a && forall i | 0 <= i < |before| :: all[i] == before[i];
  }

  lemma {:induction false} RetryVerdict(log: seq<Entry>, slots: set<nat>, link: Link, end: nat, attempts: seq<Attempt>)
    requires AllGenuine(log, slots, link, end, attempts)
    ensures var v := Retry(log, slots, link, end, attempts);
            && (v.left <==> AnyLeaves(attempts))
            && (v.left ==> v.ok == v.done)
            && (!v.left ==> !v.done && (attempts != [] ==> v.ok == Undelivered(attempts)))
  {
    hide After, AnyLeaves;
    if attempts == [] {
      NoneLeaves();
    } else {
      var before, a := attempts[..|attempts| - 1], attempts[|attempts| - 1];
      assert attempts == before + [a];
      RetryVerdict(log, slots, link, end, before);
      AnyLeavesMore(before, a);
    }
  }

  lemma NoneLeaves()
    ensures !AnyLeaves([])
  {
  }

  /** Success without a delivered binlog is reported exactly when there was something to send, every
      attempt failed, and the last one ended in a successful reconnect. */
  lemma FalseSuccess(log: seq<Entry>, slots: set<nat>, link: Link, end: nat, attempts: seq<Attempt>)
    requires AllGenuine(log, slots, link, end, attempts) && (link.cur < end ==> attempts != [])
    ensures var v := Catchup(log, slots, link, end, attempts);
            v.ok && !v.done <==> link.cur < end && Undelivered(attempts)
  {
    hide AnyLeaves, AllGenuine, Retry;
    RetryVerdict(log, slots, link, end, attempts);
  }

  /** How far a completed catch-up is known to reach: at least to `end`, or to where its cursor ran out. */
  predicate Reaches(p: nat, end: nat, attempts: seq<Attempt>) {
    end <= p || exists a :: a in attempts && a.ok && a.visible <= p
  }

  /** Whatever happens, the receiver stays at least as new as the position the sender records; and a
      catch-up that completed brings every key of the task up to its goal. */
  lemma {:induction false} RetryCovers(base: Store, log: seq<Entry>, slots: set<nat>, link: Link, end: nat,
                                       attempts: seq<Attempt>) returns (p: nat)
    requires LogOk(log) && link.cur <= |log| && Covers(base, log, slots, link.cur, link.dest)
    requires AllGenuine(log, slots, link, end, attempts)
    ensures var v := Retry(log, slots, link, end, attempts);
            && link.cur <= v.link.cur <= p <= |log|
            && Covers(base, log, slots, p, v.link.dest)
            && (v.done ==> Reaches(p, end, attempts))
  {
    hide Covers, LogOk;
    if attempts == [] {
      p := link.cur;
    } else {
      var before, a := attempts[..|attempts| - 1], attempts[|attempts| - 1];
      assert attempts == before + [a];
      p := RetryCovers(base, log, slots, link, end, before);
      var v := Retry(log, slots, link, end, before);
      if !v.left && a.running {
        CoversWeaker(base, log, slots, p, v.link.cur, v.link.dest);
        ReplayCovers(base, log, slots, v.link.cur, a.upTo, v.link.dest);
        p := a.upTo;
      }
    }
  }

  lemma CatchupCovers(base: Store, log: seq<Entry>, slots: set<nat>, link: Link, end: nat, attempts: seq<Attempt>)
    returns (p: nat)
    requires LogOk(log) && link.cur <= |log| && Covers(base, log, slots, link.cur, link.dest)
    requires AllGenuine(log, slots, link, end, attempts)
    ensures var v := Catchup(log, slots, link, end, attempts);
            && link.cur <= v.link.cur <= p <= |log|
            && Covers(base, log, slots, p, v.link.dest)
            && (v.done ==> Reaches(p, end, attempts))
  {
    if end <= link.cur { p := link.cur; } else { p := RetryCovers(base, log, slots, link, end, attempts); }
  }

  /** Attempts that fail before anything is applied leave the receiver and the position as they were. */
  lemma {:induction false} NothingSent(log: seq<Entry>, slots: set<nat>, link: Link, end: nat, attempts: seq<Attempt>)
    requires link.cur <= |log|
    requires forall a | a in attempts :: a.running && !a.ok && a.upTo == link.cur && a.acked == 0
    ensures AllGenuine(log, slots, link, end, attempts)
    ensures var v := Retry(log, slots, link, end, attempts);
            v.link == link && !v.left && !AnyLeaves(attempts) && v.ok == (attempts == [] || Undelivered(attempts))
  {
    if attempts == [] {
      NoneLeaves();
    } else {
      var before, a := attempts[..|attempts| - 1], attempts[|attempts| - 1];
      assert attempts == before + [a];
      NothingSent(log, slots, link, end, before);
      AnyLeavesMore(before, a);
    }
  }

  /** Three lost connections, each followed by a reconnect: success is reported, nothing was sent, and
      the receiver lacks a key of the task. */
  lemma LostWrite() returns (log: seq<Entry>, slots: set<nat>, link: Link, attempts: seq<Attempt>)
    ensures LogOk(log) && Covers(map[], log, slots, link.cur, link.dest) && |attempts| == SEND_RETRY_CNT
    ensures AllGenuine(log, slots, link, |log|, attempts)
    ensures var v := Catchup(log, slots, link, |log|, attempts);
            v.ok && v.link == link && !SameOn(State(map[], log, |log|), v.link.dest, slots)
  {
    var k := Key(7, "k");
    log, slots, link := [Entry(7, map[k := Some("v")])], {7}, Link(map[], 0);
    var a := Attempt(true, 1, 0, 0, false, true, true);
    attempts := [a, a, a];
    forall k: Key | k.slot in slots ensures exists t :: link.cur <= t && AsOf(map[], log, t, link.dest, k) {
      assert AsOf(map[], log, 0, link.dest, k);
    }
    NothingSent(log, slots, link, 1, attempts);
    assert k in State(map[], log, 1) by { assert Lookup(State(map[], log, 1), k) == Some("v"); }
  }
}