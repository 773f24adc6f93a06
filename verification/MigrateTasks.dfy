/** The source's book-keeping of migration tasks: a request is cut into tasks of one store and bounded
    size, and one bitmap holds the slots of all tasks that are not over. */
module MigrateTasks {
  import opened Basics

  type StoreOf = nat -> nat

  datatype Piece = Piece(store: nat, slots: seq<nat>)

  predicate Distinct(s: seq<nat>) {
    forall i, j | 0 <= i < j < |s| :: s[i] != s[j]
  }

  function Elements(s: seq<nat>): set<nat> {
    set x | x in s
  }

  /** The slots of one store, in order. */
  function OfStore(slots: seq<nat>, storeOf: StoreOf, store: nat): (r: seq<nat>)
    ensures forall x :: x in r <==> x in slots && storeOf(x) == store
  {
    if slots == [] then []
    else
      var init, last := slots[..|slots| - 1], slots[|slots| - 1];
      assert slots == init + [last];
      OfStore(init, storeOf, store) + if storeOf(last) == store then [last] else []
  }

  lemma {:induction false} OfStoreDistinct(slots: seq<nat>, storeOf: StoreOf, store: nat)
    requires Distinct(slots)
    ensures Distinct(OfStore(slots, storeOf, store))
  {
    if slots != [] {
      var init := slots[..|slots| - 1];
      OfStoreDistinct(init, storeOf, store);
      assert slots[|slots| - 1] !in init;
    }
  }

  method GroupByStore(slots: seq<nat>, storeOf: StoreOf) returns (groups: map<nat, seq<nat>>)
    ensures forall store :: (store in groups <==> exists x :: x in slots && storeOf(x) == store)
    ensures forall store | store in groups :: groups[store] == OfStore(slots, storeOf, store)
  {
    groups := map[];
    for i := 0 to |slots|
      invariant forall store | store in groups ::
                  groups[store] == OfStore(slots[..i], storeOf, store) && groups[store] != []
      invariant forall store | store !in groups :: OfStore(slots[..i], storeOf, store) == []
    {
      assert slots[..i + 1][..i] == slots[..i];
      var store := storeOf(slots[i]);
      if store in groups {
        groups := groups[store := groups[store] + [slots[i]]];
      } else {
        groups := groups[store := [slots[i]]];
      }
    }
    assert slots[..|slots|] == slots;
    forall store ensures store in groups <==> exists x :: x in slots && storeOf(x) == store {
      GroupKey(slots, storeOf, store);
    }
  }

  lemma GroupKey(slots: seq<nat>, storeOf: StoreOf, store: nat)
    ensures OfStore(slots, storeOf, store) != [] <==> exists x :: x in slots && storeOf(x) == store
  {
    var r := OfStore(slots, storeOf, store);
    if r != [] { assert r[0] in r; }
  }

  /** Pieces that share no slot. */
  predicate Disjoint(pieces: seq<Piece>) {
    forall a, b | 0 <= a < b < |pieces| :: Elements(pieces[a].slots) !! Elements(pieces[b].slots)
  }

  predicate PieceOk(storeOf: StoreOf, taskSize: nat, p: Piece) {
    && 1 <= |p.slots| <= taskSize && Distinct(p.slots) && forall x | x in p.slots :: storeOf(x) == p.store
  }

  predicate InPieces(pieces: seq<Piece>, x: nat) {
    exists p :: p in pieces && x in p.slots
  }

  /** Pieces of at most taskSize slots that make up `slots`. */
  ghost predicate CutFrom(storeOf: StoreOf, taskSize: nat, pieces: seq<Piece>, slots: set<nat>) {
    && (forall p | p in pieces :: PieceOk(storeOf, taskSize, p))
    && Disjoint(pieces)
    && (forall x :: InPieces(pieces, x) <==> x in slots)
  }

  lemma CutMore(storeOf: StoreOf, taskSize: nat, pieces: seq<Piece>, slots: set<nat>, p: Piece)
    requires CutFrom(storeOf, taskSize, pieces, slots) && PieceOk(storeOf, taskSize, p) && Elements(p.slots) !! slots
    ensures CutFrom(storeOf, taskSize, pieces + [p], slots + Elements(p.slots))
  {
    var pieces' := pieces + [p];
    forall x ensures InPieces(pieces', x) <==> x in slots + Elements(p.slots) {
      if InPieces(pieces, x) {
        var q :| q in pieces && x in q.slots;
        assert q in pieces';
      }
      if x in p.slots { assert p in pieces'; }
    }
    forall a | 0 <= a < |pieces| ensures Elements(pieces[a].slots) !! Elements(p.slots) {
      forall x | x in pieces[a].slots ensures x !in p.slots {
        assert pieces[a] in pieces;
        assert InPieces(pieces, x);
      }
    }
  }

  lemma NoElements(slots: seq<nat>, done: set<nat>)
    ensures done + Elements(slots[..0]) == done
  {
  }

  lemma SliceElements(slots: seq<nat>, i: nat, last: nat)
    requires Distinct(slots) && i <= last <= |slots|
    ensures Elements(slots[i..last]) <= Elements(slots) && Elements(slots[i..last]) !! Elements(slots[..i])
    ensures Distinct(slots[i..last]) && Elements(slots[..i]) + Elements(slots[i..last]) == Elements(slots[..last])
  {
    assert slots[..last] == slots[..i] + slots[i..last];
    forall x | x in slots[i..last] ensures x in slots && x !in slots[..i] {
      var k :| i <= k < last && slots[k] == x;
    }
  }

  lemma CutPiece(storeOf: StoreOf, taskSize: nat, store: nat, slots: seq<nat>, pieces: seq<Piece>, done: set<nat>,
      i: nat, last: nat)
    requires Distinct(slots) && (forall x | x in slots :: storeOf(x) == store) && Elements(slots) !! done
    requires i < last <= |slots| && last - i <= taskSize
             && CutFrom(storeOf, taskSize, pieces, done + Elements(slots[..i]))
    ensures CutFrom(storeOf, taskSize, pieces + [Piece(store, slots[i..last])], done + Elements(slots[..last]))
  {
    hide CutFrom, Distinct;
    var p := Piece(store, slots[i..last]);
    SliceElements(slots, i, last);
    CutMore(storeOf, taskSize, pieces, done + Elements(slots[..i]), p);
    assert done + Elements(slots[..i]) + Elements(p.slots) == done + Elements(slots[..last]);
  }

  /** The slots of one store, in pieces of taskSize; the last may be shorter. */
  method CutStore(storeOf: StoreOf, taskSize: nat, store: nat, slots: seq<nat>, sofar: seq<Piece>, ghost done: set<nat>)
    returns (pieces: seq<Piece>)
    requires taskSize > 0 && Distinct(slots) && (forall x | x in slots :: storeOf(x) == store)
    requires CutFrom(storeOf, taskSize, sofar, done) && Elements(slots) !! done
    ensures CutFrom(storeOf, taskSize, pieces, done + Elements(slots))
  {
    hide CutFrom, Distinct, Elements;
    pieces := sofar;
    var i := 0;
    NoElements(slots, done);
    while i < |slots|
      invariant 0 <= i <= |slots| && CutFrom(storeOf, taskSize, pieces, done + Elements(slots[..i]))
    {
      var last := if |slots| < i + taskSize then |slots| else i + taskSize;
      CutPiece(storeOf, taskSize, store, slots, pieces, done, i, last);
      pieces := pieces + [Piece(store, slots[i..last])];
      i := last;
    }
    assert slots[..|slots|] == slots;
  }

  /** The tasks of a request partition it. */
  method SplitTasks(storeOf: StoreOf, taskSize: nat, slots: seq<nat>) returns (pieces: seq<Piece>)
    requires taskSize > 0 && Distinct(slots)
    ensures CutFrom(storeOf, taskSize, pieces, Elements(slots))
  {
    hide CutFrom, OfStore, Distinct;
    var groups := GroupByStore(slots, storeOf);
    var stores := groups.Keys;
    pieces := [];
    ghost var done: set<nat> := {};
    NothingCut(storeOf, taskSize);
    while stores != {}
      invariant stores <= groups.Keys
      invariant forall x :: x in done <==> x in slots && storeOf(x) !in stores
      invariant CutFrom(storeOf, taskSize, pieces, done)
    {
      var store :| store in stores;
      OfStoreDistinct(slots, storeOf, store);
      pieces := CutStore(storeOf, taskSize, store, groups[store], pieces, done);
      done := done + Elements(groups[store]);
      stores := stores - {store};
    }
    assert done == Elements(slots);
  }

  lemma NothingCut(storeOf: StoreOf, taskSize: nat)
    ensures CutFrom(storeOf, taskSize, [], {})
  {
  }

  // ---- the bitmap ----

  datatype SendState = Wait | Started | Clear | Half | Succ | Err

  datatype SendTask = SendTask(store: nat, slots: set<nat>, state: SendState, running: bool)

  function NewTask(store: nat, slots: set<nat>): SendTask { SendTask(store, slots, Wait, false) }

  /** What the scheduler finds when it looks at a task: whether it is due, whether the destination has failed,
      whether all senders are busy, whether the slots belong to the destination, whether they can be deleted. */
  datatype Look = Look(due: bool, dstFailed: bool, full: bool, belongs: bool, gcOk: bool)

  /** What a look makes of a task, or None if it is erased. */
  function Looked(t: SendTask, e: Look): Option<SendTask> {
    if t.running || !e.due then Some(t)
    else
      match t.state
      case Wait => Some(if e.dstFailed then t.(state := Err) else t)
      case Started => Some(if e.full then t.(state := Wait) else t.(running := true))
      case Clear => Some(t.(state := if e.belongs && e.gcOk then Succ else Err))
      case Half => Some(t.(state := if e.belongs then Clear else Err))
      case _ => None
  }

  /** A task that has been sent is gone after three looks. */
  lemma GoneAfterThree(t: SendTask, e1: Look, e2: Look, e3: Look)
    requires !t.running && t.state != Wait && t.state != Started && e1.due && e2.due && e3.due
    ensures var t1 := Looked(t, e1);
            t1.None? || var t2 := Looked(t1.value, e2);
                        t2.None? || Looked(t2.value, e3).None?
  {
  }

  /** What moves a task that is looked at, from the outside: it succeeds exactly if it is clearing, its slots belong to
      the destination and can be deleted; it fails exactly if it waits for a failed destination or its slots do not
      belong to the destination or cannot be deleted; it is cleared exactly from the middle state with its slots at
      the destination; and it is sent exactly if it has started and a sender is free. */
  lemma WhatMovesATask(t: SendTask, e: Look)
    requires Looked(t, e).Some?
    ensures var t' := Looked(t, e).value;
            var free := !t.running && e.due;
            && t'.slots == t.slots && t'.store == t.store
            && (t'.state == Succ && t.state != Succ <==> free && t.state == Clear && e.belongs && e.gcOk)
            && (t'.state == Err && t.state != Err
                <==> free && ((t.state == Wait && e.dstFailed)
                              || (t.state == Clear && !(e.belongs && e.gcOk)) || (t.state == Half && !e.belongs)))
            && (t'.state == Clear && t.state != Clear <==> free && t.state == Half && e.belongs)
            && (t'.running != t.running <==> free && t.state == Started && !e.full)
            && (t'.state == Wait && t.state != Wait <==> free && t.state == Started && e.full)
  {
  }

  /** Exactly the finished tasks are erased. */
  lemma ErasedIff(t: SendTask, e: Look)
    ensures Looked(t, e).None? <==> !t.running && e.due && (t.state == Succ || t.state == Err)
  {
  }

  class MigrateManager {
    var migrateSlots: set<nat>
    var importSlots: set<nat>
    var tasks: map<nat, SendTask>
    var taskIdGen: nat

    constructor ()
      ensures Valid() && tasks == map[] && migrateSlots == {} && importSlots == {}
    {
      migrateSlots, importSlots, tasks, taskIdGen := {}, {}, map[], 0;
    }

    /** The bitmap is the disjoint union of the slots of the tasks in the map. */
    ghost predicate Valid()
      reads this
    {
      && (forall t | t in tasks :: t < taskIdGen && tasks[t].slots <= migrateSlots)
      && (forall x | x in migrateSlots :: exists t :: t in tasks && x in tasks[t].slots)
      && (forall t, u | t in tasks && u in tasks && t != u :: tasks[t].slots !! tasks[u].slots)
    }

    /** The slots of the request, in order, if all are this node's and in no task. */
    method CheckSlotOK(slotCount: nat, request: set<nat>, mine: set<nat>) returns (ok: bool, slots: seq<nat>)
      requires forall x | x in request :: x < slotCount
      ensures ok == (request <= mine && request !! migrateSlots && request !! importSlots)
      ensures ok ==> Distinct(slots) && Elements(slots) == request
    {
      slots := [];
      for x := 0 to slotCount
        invariant Distinct(slots) && forall y :: y in slots <==> y in request && y < x
        invariant forall y | y in request && y < x :: y in mine && y !in migrateSlots && y !in importSlots
      {
        if x in request {
          if x !in mine || x in migrateSlots || x in importSlots { return false, slots; }
          slots := slots + [x];
        }
      }
      ok := true;
    }

    /** Marks the slots and adds the task. When it fails the marks already set stay, and no task has them. */
    method Migrating(slots: seq<nat>, store: nat, id: nat) returns (ok: bool)
      requires Valid() && Distinct(slots)
      modifies this
      ensures ok <==> Elements(slots) !! old(migrateSlots) && id !in old(tasks)
      ensures ok ==> migrateSlots == old(migrateSlots) + Elements(slots)
                     && tasks == old(tasks)[id := NewTask(store, Elements(slots))]
      ensures !ok ==> tasks == old(tasks) && old(migrateSlots) <= migrateSlots <= old(migrateSlots) + Elements(slots)
      ensures importSlots == old(importSlots) && taskIdGen == old(taskIdGen) && (ok && id < taskIdGen ==> Valid())
    {
      for i := 0 to |slots|
        invariant migrateSlots == old(migrateSlots) + Elements(slots[..i])
        invariant forall k | 0 <= k < i :: slots[k] !in old(migrateSlots)
        invariant tasks == old(tasks) && importSlots == old(importSlots) && taskIdGen == old(taskIdGen)
      {
        if slots[i] in migrateSlots { return false; }
        assert slots[..i + 1] == slots[..i] + [slots[i]];
        migrateSlots := migrateSlots + {slots[i]};
      }
      assert slots[..|slots|] == slots;
      if id in tasks { return false; }
      tasks := tasks[id := NewTask(store, Elements(slots))];
      forall x | x in migrateSlots ensures exists t :: t in tasks && x in tasks[t].slots {
        if x in slots {
          assert x in tasks[id].slots;
        } else {
          var t :| t in old(tasks) && x in old(tasks)[t].slots;
          assert t in tasks && x in tasks[t].slots;
        }
      }
      return true;
    }

    /** A request that passes the check always starts all of its tasks. */
    method Prepare(storeOf: StoreOf, slotCount: nat, taskSize: nat, request: set<nat>, mine: set<nat>)
      returns (ok: bool)
      requires Valid() && taskSize > 0 && forall x | x in request :: x < slotCount
      modifies this
      ensures Valid() && importSlots == old(importSlots)
      ensures ok == (request <= mine && request !! old(migrateSlots) && request !! importSlots)
      ensures migrateSlots == if ok then old(migrateSlots) + request else old(migrateSlots)
      ensures Extends(old(tasks), tasks, storeOf, taskSize, request)
    {
      var slots;
      ok, slots := CheckSlotOK(slotCount, request, mine);
      if !ok { return; }
      var pieces := SplitTasks(storeOf, taskSize, slots);
      StartAll(storeOf, taskSize, pieces, request);
    }

    method StartAll(storeOf: StoreOf, taskSize: nat, pieces: seq<Piece>, ghost request: set<nat>)
      requires Valid() && CutFrom(storeOf, taskSize, pieces, request) && request !! migrateSlots
      modifies this
      ensures Valid() && importSlots == old(importSlots) && migrateSlots == old(migrateSlots) + request
      ensures Extends(old(tasks), tasks, storeOf, taskSize, request)
    {
      hide CutFrom, Valid, TaskFits, Elements, Distinct, Extends, UpTo;
      ExtendsSelf(tasks, storeOf, taskSize, request);
      NoneUpTo(pieces);
      for i := 0 to |pieces|
        invariant Valid() && importSlots == old(importSlots)
        invariant migrateSlots == old(migrateSlots) + UpTo(pieces, i)
        invariant Extends(old(tasks), tasks, storeOf, taskSize, request)
      {
        PieceFits(storeOf, taskSize, pieces, request, i);
        assert Elements(pieces[i].slots) !! migrateSlots;
        ghost var before := tasks;
        var id := StartTask(pieces[i]);
        ExtendsMore(old(tasks), before, storeOf, taskSize, request, id, tasks[id]);
      }
      AllPieces(storeOf, taskSize, pieces, request, |pieces|);
    }

    method StartTask(p: Piece) returns (id: nat)
      requires Valid() && Distinct(p.slots) && Elements(p.slots) !! migrateSlots
      modifies this
      ensures Valid() && id !in old(tasks) && tasks == old(tasks)[id := NewTask(p.store, Elements(p.slots))]
      ensures migrateSlots == old(migrateSlots) + Elements(p.slots) && importSlots == old(importSlots)
    {
      id := taskIdGen;
      taskIdGen := taskIdGen + 1;
      var ok := Migrating(p.slots, p.store, id);
      assert ok;
    }

    /** A finished task is erased with an exclusive or on the bitmap: exactly its slots go. */
    method Erase(t: nat)
      requires Valid() && t in tasks
      modifies `migrateSlots, `tasks
      ensures Valid() && tasks == old(tasks) - {t} && migrateSlots == old(migrateSlots) - old(tasks)[t].slots
    {
      var slots := tasks[t].slots;
      migrateSlots := (migrateSlots - slots) + (slots - migrateSlots);
      tasks := tasks - {t};
      forall x | x in migrateSlots ensures exists u :: u in tasks && x in tasks[u].slots {
        var u :| u in old(tasks) && x in old(tasks)[u].slots;
        assert u in tasks;
      }
    }

    /** The receiver is ready: its task starts, whatever its state was. */
    method ReadyMigrate(t: nat) returns (ok: bool)
      requires Valid()
      modifies `tasks
      ensures Valid() && ok == (t in old(tasks))
      ensures tasks == if ok then old(tasks)[t := old(tasks)[t].(state := Started)] else old(tasks)
    {
      ok := t in tasks;
      if ok { Replace(t, tasks[t].(state := Started)); }
    }

    /** A sender has finished. `waits` says that "+OK" has been sent, `again` that nothing has. */
    method SendSlots(t: nat, sent: bool, waits: bool, again: bool)
      requires Valid() && t in tasks
      modifies `tasks
      ensures Valid() && tasks.Keys == old(tasks.Keys) && (forall u | u in tasks && u != t :: tasks[u] == old(tasks)[u])
      ensures tasks[t].slots == old(tasks)[t].slots && !tasks[t].running && tasks[t].state != Succ
      ensures sent <==> tasks[t].state == Clear
      ensures !sent && waits <==> tasks[t].state == Half
      ensures !sent && !waits ==> tasks[t].state == if again then Wait else Err
    {
      var state;
      if !sent {
        if waits { state := Half; } else if again { state := Wait; } else { state := Err; }
      } else {
        state := Clear;
      }
      Replace(t, tasks[t].(state := state, running := false));
    }

    method Replace(t: nat, task: SendTask)
      requires Valid() && t in tasks && task.slots == tasks[t].slots
      modifies `tasks
      ensures Valid() && tasks == old(tasks)[t := task]
    {
      tasks := tasks[t := task];
      forall x | x in migrateSlots ensures exists u :: u in tasks && x in tasks[u].slots {
        var u :| u in old(tasks) && x in old(tasks)[u].slots;
        assert u in tasks && x in tasks[u].slots;
      }
    }

    /** One look at one task. */
    method LookAt(t: nat, e: Look)
      requires Valid() && t in tasks
      modifies `migrateSlots, `tasks
      ensures Valid()
      ensures var r := Looked(old(tasks)[t], e);
              tasks == if r.None? then old(tasks) - {t} else old(tasks)[t := r.value]
    {
      hide Valid;
      var task := tasks[t];
      if task.running || !e.due {
        Replace(t, task);
      } else if task.state == Wait {
        Replace(t, if e.dstFailed then task.(state := Err) else task);
      } else if task.state == Started {
        Replace(t, if !e.full then task.(running := true) else task.(state := Wait));
      } else if task.state == Clear {
        Replace(t, task.(state := if !e.belongs || !e.gcOk then Err else Succ));
      } else if task.state == Succ || task.state == Err {
        Erase(t);
      } else {
        Replace(t, task.(state := if e.belongs then Clear else Err));
      }
    }

    /** The scheduler looks at every task once; a slot leaves the bitmap exactly when its task is erased. */
    method Schedule(looks: map<nat, Look>)
      requires Valid() && tasks.Keys <= looks.Keys
      modifies `migrateSlots, `tasks
      ensures Valid()
      ensures tasks == map t | t in old(tasks) && Looked(old(tasks)[t], looks[t]).Some? ::
                         Looked(old(tasks)[t], looks[t]).value
      ensures forall x :: x in migrateSlots
                          <==> exists t :: t in old(tasks) && x in old(tasks)[t].slots
                                           && Looked(old(tasks)[t], looks[t]).Some?
    {
      hide Looked, Valid, Halfway;
      var ids := tasks.Keys;
      ghost var before := tasks;
      HalfwayEnds(before, looks);
      while ids != {}
        invariant ids <= before.Keys && Valid()
        invariant tasks == Halfway(before, looks, ids)
      {
        var t :| t in ids;
        HalfwayNext(before, looks, ids, t);
        LookAt(t, looks[t]);
        ids := ids - {t};
      }
      Marked(before, looks);
    }

    lemma Marked(before: map<nat, SendTask>, looks: map<nat, Look>)
      requires Valid() && before.Keys <= looks.Keys && tasks == Halfway(before, looks, {})
      ensures forall x :: x in migrateSlots
                          <==> exists t :: t in before && Looked(before[t], looks[t]).Some? && x in before[t].slots
    {
      forall t | t in tasks ensures tasks[t].slots == before[t].slots { SlotsStay(before[t], looks[t]); }
      hide Looked;
    }
  }

  /** The tasks when all but those in `ids` have been looked at. */
  function Halfway(m: map<nat, SendTask>, looks: map<nat, Look>, ids: set<nat>): map<nat, SendTask>
    requires m.Keys <= looks.Keys
  {
    map t | t in m && (t in ids || Looked(m[t], looks[t]).Some?) ::
      if t in ids then m[t] else Looked(m[t], looks[t]).value
  }

  lemma HalfwayEnds(m: map<nat, SendTask>, looks: map<nat, Look>)
    requires m.Keys <= looks.Keys
    ensures Halfway(m, looks, m.Keys) == m
    ensures Halfway(m, looks, {}) == map t | t in m && Looked(m[t], looks[t]).Some? :: Looked(m[t], looks[t]).value
  {
    hide Looked;
  }

  lemma HalfwayNext(m: map<nat, SendTask>, looks: map<nat, Look>, ids: set<nat>, t: nat)
    requires m.Keys <= looks.Keys && t in ids && ids <= m.Keys
    ensures var now, r := Halfway(m, looks, ids), Looked(m[t], looks[t]);
            && t in now && now[t] == m[t]
            && Halfway(m, looks, ids - {t}) == if r.None? then now - {t} else now[t := r.value]
  {
    hide Looked;
  }

  lemma SlotsStay(t: SendTask, e: Look)
    ensures Looked(t, e).Some? ==> Looked(t, e).value.slots == t.slots
  {
  }

  /** A task of one store, within the request and not too large. */
  predicate TaskFits(storeOf: StoreOf, taskSize: nat, request: set<nat>, t: SendTask) {
    t.slots <= request && 1 <= |t.slots| <= taskSize && forall x | x in t.slots :: storeOf(x) == t.store
  }

  /** The old tasks are as they were, and the new ones fit the request. */
  ghost predicate Extends(m: map<nat, SendTask>, m': map<nat, SendTask>, storeOf: StoreOf, taskSize: nat,
      request: set<nat>) {
    && (forall t | t in m :: t in m' && m'[t] == m[t])
    && (forall t | t in m' && t !in m :: TaskFits(storeOf, taskSize, request, m'[t]))
  }

  lemma ExtendsSelf(m: map<nat, SendTask>, storeOf: StoreOf, taskSize: nat, request: set<nat>)
    ensures Extends(m, m, storeOf, taskSize, request)
  {
  }

  lemma NoneUpTo(pieces: seq<Piece>)
    ensures UpTo(pieces, 0) == {}
  {
  }

  lemma ExtendsMore(m: map<nat, SendTask>, m': map<nat, SendTask>, storeOf: StoreOf, taskSize: nat, request: set<nat>,
                    id: nat, t: SendTask)
    requires Extends(m, m', storeOf, taskSize, request) && id !in m' && TaskFits(storeOf, taskSize, request, t)
    ensures Extends(m, m'[id := t], storeOf, taskSize, request)
  {
    hide TaskFits;
  }

  /** The slots of the first n pieces. */
  ghost function UpTo(pieces: seq<Piece>, n: nat): set<nat>
    requires n <= |pieces|
  {
    if n == 0 then {} else UpTo(pieces, n - 1) + Elements(pieces[n - 1].slots)
  }

  lemma {:induction false} InUpTo(pieces: seq<Piece>, n: nat, x: nat)
    requires n <= |pieces|
    ensures x in UpTo(pieces, n) <==> exists i :: 0 <= i < n && x in pieces[i].slots
  {
    if n > 0 { InUpTo(pieces, n - 1, x); }
  }

  lemma AllPieces(storeOf: StoreOf, taskSize: nat, pieces: seq<Piece>, request: set<nat>, n: nat)
    requires CutFrom(storeOf, taskSize, pieces, request) && n <= |pieces|
    ensures UpTo(pieces, n) <= request && (n == |pieces| ==> UpTo(pieces, n) == request)
  {
    forall x ensures (x in UpTo(pieces, n) ==> x in request)
      && (n == |pieces| && x in request ==> x in UpTo(pieces, n)) {
      InUpTo(pieces, n, x);
      if i :| 0 <= i < n && x in pieces[i].slots { assert InPieces(pieces, x); }
      if x in request {
        var p :| p in pieces && x in p.slots;
        var i :| 0 <= i < |pieces| && pieces[i] == p;
      }
    }
  }

  lemma PieceFits(storeOf: StoreOf, taskSize: nat, pieces: seq<Piece>, request: set<nat>, i: nat)
    requires CutFrom(storeOf, taskSize, pieces, request) && i < |pieces|
    ensures Distinct(pieces[i].slots) && Elements(pieces[i].slots) <= request
            && Elements(pieces[i].slots) !! UpTo(pieces, i)
    ensures TaskFits(storeOf, taskSize, request, NewTask(pieces[i].store, Elements(pieces[i].slots)))
    ensures UpTo(pieces, i + 1) == UpTo(pieces, i) + Elements(pieces[i].slots)
  {
    var p := pieces[i];
    assert p in pieces;
    forall x | x in p.slots ensures x in request && x !in UpTo(pieces, i) {
      assert InPieces(pieces, x);
      InUpTo(pieces, i, x);
      forall a | 0 <= a < i ensures x !in pieces[a].slots {
        assert x in Elements(p.slots) && x !in Elements(pieces[a].slots);
      }
    }
    DistinctSize(p.slots);
  }

  lemma {:induction false} DistinctSize(s: seq<nat>)
    requires Distinct(s)
    ensures |Elements(s)| == |s|
  {
    if s != [] {
      var init, last := s[..|s| - 1], s[|s| - 1];
      DistinctSize(init);
      assert Elements(s) == Elements(init) + {last};
    }
  }
}
