/** Garbage collection of slots that have moved away: the slots to delete are turned into key ranges of
    single stores, and each range is deleted from its own store. */
module SlotGc {
  import opened Basics

  /** The store of each slot. */
  type StoreOf = nat -> nat

  datatype Task = Task(store: nat, first: nat, last: nat)

  /** The slots of the task's own store in its range. Other stores' slots may lie between them. */
  predicate Covers(storeOf: StoreOf, t: Task, j: nat) {
    t.first <= j <= t.last && storeOf(j) == t.store
  }

  predicate InSome(storeOf: StoreOf, tasks: seq<Task>, j: nat) {
    exists t :: t in tasks && Covers(storeOf, t, j)
  }

  /** No slot of the store lies strictly between a and b. */
  predicate Neighbours(storeOf: StoreOf, store: nat, a: int, b: int) {
    forall m: nat | a < m < b :: storeOf(m) != store
  }

  /** Only slots to be deleted are covered, and the range cannot be made longer at either end. */
  ghost predicate Maximal(storeOf: StoreOf, slotCount: nat, deleting: set<nat>, t: Task) {
    && t.first <= t.last < slotCount && storeOf(t.first) == t.store && storeOf(t.last) == t.store
    && (forall j | Covers(storeOf, t, j) :: j in deleting)
    && (forall j: nat | j < t.first && storeOf(j) == t.store
      && Neighbours(storeOf, t.store, j, t.first) :: j !in deleting)
    && (forall j: nat | t.last < j < slotCount && storeOf(j) == t.store
      && Neighbours(storeOf, t.store, t.last, j) :: j !in deleting)
  }

  predicate Before(t: Task, u: Task) {
    t.store < u.store || (t.store == u.store && t.last < u.first)
  }

  predicate InOrder(tasks: seq<Task>) {
    forall a, b | 0 <= a < b < |tasks| :: Before(tasks[a], tasks[b])
  }

  /** Tasks in order cover no slot twice. */
  lemma NoOverlap(storeOf: StoreOf, tasks: seq<Task>, a: nat, b: nat, j: nat)
    requires InOrder(tasks) && a < |tasks| && b < |tasks|
    requires Covers(storeOf, tasks[a], j) && Covers(storeOf, tasks[b], j)
    ensures a == b
  {
  }

  /** The slots of store i below j that are to be deleted and not yet in a task form an open range. */
  ghost predicate Open(storeOf: StoreOf, deleting: set<nat>, i: nat, j: nat, first: int, last: int) {
    if first == -1 then
      forall k: nat | k < j && storeOf(k) == i && Neighbours(storeOf, i, k, j) :: k !in deleting
    else
      && 0 <= first <= last < j && storeOf(first) == i && storeOf(last) == i && Neighbours(storeOf, i, last, j)
      && (forall k: nat | first <= k <= last && storeOf(k) == i :: k in deleting)
      && (forall k: nat | k < first && storeOf(k) == i && Neighbours(storeOf, i, k, first) :: k !in deleting)
  }

  /** One more slot of store i. */
  lemma OpenNext(storeOf: StoreOf, slotCount: nat, deleting: set<nat>, i: nat, j: nat, first: int, last: int)
    requires Open(storeOf, deleting, i, j, first, last) && j < slotCount
    ensures storeOf(j) != i ==> Open(storeOf, deleting, i, j + 1, first, last)
    ensures storeOf(j) == i && j in deleting ==> Open(storeOf, deleting, i, j + 1, if first == -1 then j else first, j)
    ensures storeOf(j) == i && j !in deleting ==> Open(storeOf, deleting, i, j + 1, -1, -1)
    ensures storeOf(j) == i && j !in deleting && first != -1
            ==> Maximal(storeOf, slotCount, deleting, Task(i, first, last))
  {
    if storeOf(j) != i {
      forall k: nat | Neighbours(storeOf, i, k, j + 1) ensures Neighbours(storeOf, i, k, j) {}
      if first != -1 { assert Neighbours(storeOf, i, last, j + 1); }
    }
  }

  lemma OpenEnd(storeOf: StoreOf, slotCount: nat, deleting: set<nat>, i: nat, first: int, last: int)
    requires Open(storeOf, deleting, i, slotCount, first, last) && first != -1
    ensures Maximal(storeOf, slotCount, deleting, Task(i, first, last))
  {
  }

  /** What the tasks so far and the open range say about the slots of store i below j. */
  ghost predicate Scanned(storeOf: StoreOf, slotCount: nat, deleting: set<nat>, i: nat, j: nat, tasks: seq<Task>,
      first: int) {
    && InOrder(tasks)
    && (forall t | t in tasks ::
          t.store == i && Maximal(storeOf, slotCount, deleting, t) && t.last < if first == -1 then j else first)
    && (forall k: nat | k < j && storeOf(k) == i && k in deleting ::
          InSome(storeOf, tasks, k) || (first != -1 && first <= k))
  }

  lemma ScannedTask(storeOf: StoreOf, slotCount: nat, deleting: set<nat>, i: nat, j: nat, tasks: seq<Task>,
      first: int, last: int)
    requires Scanned(storeOf, slotCount, deleting, i, j, tasks, first) && Open(storeOf, deleting, i, j, first, last)
    requires first != -1 && Maximal(storeOf, slotCount, deleting, Task(i, first, last))
    ensures Scanned(storeOf, slotCount, deleting, i, j, tasks + [Task(i, first, last)], -1)
  {
    hide Maximal;
    var t := Task(i, first, last);
    var tasks' := tasks + [t];
    forall k: nat | k < j && storeOf(k) == i && k in deleting ensures InSome(storeOf, tasks', k) {
      if InSome(storeOf, tasks, k) {
        var u :| u in tasks && Covers(storeOf, u, k);
        assert u in tasks';
      } else {
        assert t in tasks' && Covers(storeOf, t, k);
      }
    }
    assert forall a | 0 <= a < |tasks| :: tasks[a] in tasks;
  }

  method StoreTasks(storeOf: StoreOf, slotCount: nat, deleting: set<nat>, i: nat) returns (tasks: seq<Task>)
    ensures Scanned(storeOf, slotCount, deleting, i, slotCount, tasks, -1)
  {
    hide Maximal, Scanned, Open;
    tasks := [];
    var first, last := -1, -1;
    NothingScanned(storeOf, slotCount, deleting, i);
    for j := 0 to slotCount
      invariant first == -1 || 0 <= first <= last < j
      invariant Scanned(storeOf, slotCount, deleting, i, j, tasks, first)
      invariant Open(storeOf, deleting, i, j, first, if first == -1 then -1 else last)
    {
      OpenNext(storeOf, slotCount, deleting, i, j, first, if first == -1 then -1 else last);
      ScannedNext(storeOf, slotCount, deleting, i, j, tasks, first);
      if storeOf(j) != i { continue; }
      if j in deleting {
        if first == -1 { first := j; }
        last := j;
      } else if first != -1 {
        ScannedTask(storeOf, slotCount, deleting, i, j, tasks, first, last);
        tasks := tasks + [Task(i, first, last)];
        ScannedNext(storeOf, slotCount, deleting, i, j, tasks, -1);
        first, last := -1, -1;
      }
    }
    if first != -1 {
      OpenEnd(storeOf, slotCount, deleting, i, first, last);
      ScannedTask(storeOf, slotCount, deleting, i, slotCount, tasks, first, last);
      tasks := tasks + [Task(i, first, last)];
    }
  }

  lemma NothingScanned(storeOf: StoreOf, slotCount: nat, deleting: set<nat>, i: nat)
    ensures Scanned(storeOf, slotCount, deleting, i, 0, [], -1) && Open(storeOf, deleting, i, 0, -1, -1)
  {
  }

  lemma ScannedNext(storeOf: StoreOf, slotCount: nat, deleting: set<nat>, i: nat, j: nat, tasks: seq<Task>, first: int)
    requires Scanned(storeOf, slotCount, deleting, i, j, tasks, first) && first < j
    ensures var first' := if storeOf(j) == i && j in deleting && first == -1 then j else first;
            Scanned(storeOf, slotCount, deleting, i, j + 1, tasks, first')
  {
    hide Maximal;
  }

  /** Exactly the slots to be deleted whose store exists are covered, each by one task, by ranges that
      cannot be joined or made longer. */
  method GenerateTasks(storeOf: StoreOf, storeCount: nat, slotCount: nat, deleting: set<nat>) returns (tasks: seq<Task>)
    ensures InOrder(tasks) && forall t | t in tasks :: t.store < storeCount && Maximal(storeOf, slotCount, deleting, t)
    ensures forall j: nat | j < slotCount && storeOf(j) < storeCount :: InSome(storeOf, tasks, j) <==> j in deleting
  {
    hide Maximal;
    tasks := [];
    for i := 0 to storeCount
      invariant InOrder(tasks) && forall t | t in tasks :: t.store < i && Maximal(storeOf, slotCount, deleting, t)
      invariant forall j: nat | j < slotCount && storeOf(j) < i && j in deleting :: InSome(storeOf, tasks, j)
    {
      var more := StoreTasks(storeOf, slotCount, deleting, i);
      AppendTasks(storeOf, slotCount, deleting, i, tasks, more);
      tasks := tasks + more;
    }
    forall j: nat | InSome(storeOf, tasks, j) ensures j in deleting {
      var t :| t in tasks && Covers(storeOf, t, j);
      MaximalCovers(storeOf, slotCount, deleting, t, j);
    }
  }

  lemma MaximalCovers(storeOf: StoreOf, slotCount: nat, deleting: set<nat>, t: Task, j: nat)
    requires Maximal(storeOf, slotCount, deleting, t) && Covers(storeOf, t, j)
    ensures j in deleting && j < slotCount
  {
  }

  lemma AppendTasks(storeOf: StoreOf, slotCount: nat, deleting: set<nat>, i: nat, tasks: seq<Task>, more: seq<Task>)
    requires InOrder(tasks) && (forall t | t in tasks :: t.store < i && Maximal(storeOf, slotCount, deleting, t))
    requires forall j: nat | j < slotCount && storeOf(j) < i && j in deleting :: InSome(storeOf, tasks, j)
    requires Scanned(storeOf, slotCount, deleting, i, slotCount, more, -1)
    ensures InOrder(tasks + more)
    ensures forall t | t in tasks + more :: t.store < i + 1 && Maximal(storeOf, slotCount, deleting, t)
    ensures forall j: nat | j < slotCount && storeOf(j) < i + 1 && j in deleting :: InSome(storeOf, tasks + more, j)
  {
    hide Maximal;
    forall a, b | 0 <= a < |tasks| <= b < |tasks + more| ensures Before((tasks + more)[a], (tasks + more)[b]) {
      assert tasks[a] in tasks && more[b - |tasks|] in more;
    }
    forall j: nat | j < slotCount && storeOf(j) < i + 1 && j in deleting ensures InSome(storeOf, tasks + more, j) {
      if storeOf(j) < i {
        var t :| t in tasks && Covers(storeOf, t, j);
        assert t in tasks + more;
      } else {
        var t :| t in more && Covers(storeOf, t, j);
        assert t in tasks + more;
      }
    }
  }

  // ---- deleting ----

  datatype Record = Record(store: nat, slot: nat, name: string)

  class GcManager {
    const storeOf: StoreOf
    const storeCount: nat
    const slotCount: nat
    var deleting: set<nat>
    var records: set<Record>

    constructor (storeOf: StoreOf, storeCount: nat, slotCount: nat, deleting: set<nat>, records: set<Record>)
      requires (forall r | r in records :: r.store == storeOf(r.slot)) && forall j | j in deleting :: j < slotCount
      ensures Valid() && this.deleting == deleting && this.records == records
      ensures this.storeOf == storeOf && this.storeCount == storeCount && this.slotCount == slotCount
    {
      this.storeOf, this.storeCount, this.slotCount := storeOf, storeCount, slotCount;
      this.deleting, this.records := deleting, records;
    }

    /** Every record lies in the store of its slot. */
    ghost predicate Valid()
      reads this
    {
      (forall r | r in records :: r.store == storeOf(r.slot)) && forall j | j in deleting :: j < slotCount
    }

    /** A task is refused if it would delete a slot of this node. */
    method DeleteSlots(t: Task, owned: set<nat>) returns (ok: bool)
      requires Valid()
      modifies this
      ensures Valid() && ok == Untouched(storeOf, t, owned)
      ensures records == set r | r in old(records) && !(ok && Covers(storeOf, t, r.slot))
      ensures deleting == set j | j in old(deleting) && !(ok && Covers(storeOf, t, j))
    {
      var i := t.first;
      while i <= t.last
        invariant t.first <= i
        invariant forall j: nat | t.first <= j < i && storeOf(j) == t.store && j <= t.last :: j !in owned
      {
        if storeOf(i) == t.store && i in owned { return false; }
        i := i + 1;
      }
      // The key range of the slots, in the task's store only.
      records := set r | r in records && !(r.store == t.store && t.first <= r.slot <= t.last);
      deleting := set j | j in deleting && !(t.first <= j <= t.last && storeOf(j) == t.store);
      return true;
    }

    /** One round: a record goes exactly if its slot is to be deleted and lies in a range without a slot
        of this node; exactly those slots are done with. */
    method GcSchedule(owned: set<nat>) returns (ghost tasks: seq<Task>)
      requires Valid()
      modifies this
      ensures Valid() && InOrder(tasks)
      ensures forall t | t in tasks :: Maximal(storeOf, slotCount, old(deleting), t)
      ensures records == set r | r in old(records) && !Cleared(storeOf, tasks, owned, r.slot)
      ensures deleting == set j | j in old(deleting) && !Cleared(storeOf, tasks, owned, j)
      // Nothing is lost that was not asked for or is still owned, and everything goes if nothing is owned.
      ensures forall r | r in old(records) && r !in records :: r.slot in old(deleting) && r.slot !in owned
      ensures old(deleting) !! owned ==>
                && records == (set r | r in old(records) && !(r.slot in old(deleting) && r.store < storeCount))
                && deleting == (set j | j in old(deleting) && storeOf(j) >= storeCount)
    {
      hide Maximal, Cleared, InSome;
      var todo := GenerateTasks(storeOf, storeCount, slotCount, deleting);
      tasks := todo;
      forall j: nat | Cleared(storeOf, todo, owned, j) ensures j in deleting && j !in owned && storeOf(j) < storeCount {
        ClearedWasAsked(storeOf, storeCount, slotCount, deleting, todo, owned, j);
      }
      if deleting !! owned {
        forall j: nat | j in deleting && storeOf(j) < storeCount ensures Cleared(storeOf, todo, owned, j) {
          AskedIsCleared(storeOf, slotCount, deleting, todo, owned, j);
        }
      }
      RunTasks(todo, owned);
    }

    method RunTasks(todo: seq<Task>, owned: set<nat>)
      requires Valid()
      modifies this
      ensures Valid()
      ensures records == set r | r in old(records) && !Cleared(storeOf, todo, owned, r.slot)
      ensures deleting == set j | j in old(deleting) && !Cleared(storeOf, todo, owned, j)
    {
      for k := 0 to |todo|
        invariant Valid()
        invariant records == set r | r in old(records) && !Cleared(storeOf, todo[..k], owned, r.slot)
        invariant deleting == set j | j in old(deleting) && !Cleared(storeOf, todo[..k], owned, j)
      {
        forall j: nat ensures Cleared(storeOf, todo[..k + 1], owned, j) <==>
            Cleared(storeOf, todo[..k], owned, j) || Clears(storeOf, todo[k], owned, j) {
          ClearedMore(storeOf, todo, k, owned, j);
        }
        ghost var before, left := records, deleting;
        var ok := DeleteSlots(todo[k], owned);
        assert forall r :: r in records <==> r in before && !Clears(storeOf, todo[k], owned, r.slot);
        assert forall j :: j in deleting <==> j in left && !Clears(storeOf, todo[k], owned, j);
      }
      assert todo[..|todo|] == todo;
    }
  }

  lemma ClearedWasAsked(storeOf: StoreOf, storeCount: nat, slotCount: nat, deleting: set<nat>, tasks: seq<Task>,
                        owned: set<nat>, j: nat)
    requires forall t | t in tasks :: t.store < storeCount && Maximal(storeOf, slotCount, deleting, t)
    requires Cleared(storeOf, tasks, owned, j)
    ensures j in deleting && j !in owned && storeOf(j) < storeCount
  {
    hide Maximal;
    var t :| t in tasks && Clears(storeOf, t, owned, j);
    MaximalCovers(storeOf, slotCount, deleting, t, j);
  }

  lemma AskedIsCleared(storeOf: StoreOf, slotCount: nat, deleting: set<nat>, tasks: seq<Task>, owned: set<nat>, j: nat)
    requires forall t | t in tasks :: Maximal(storeOf, slotCount, deleting, t)
    requires InSome(storeOf, tasks, j) && deleting !! owned
    ensures Cleared(storeOf, tasks, owned, j)
  {
    hide Maximal;
    var t :| t in tasks && Covers(storeOf, t, j);
    forall k: nat | Covers(storeOf, t, k) ensures k !in owned { MaximalCovers(storeOf, slotCount, deleting, t, k); }
  }

  predicate Untouched(storeOf: StoreOf, t: Task, owned: set<nat>) {
    forall j: nat | t.first <= j <= t.last && storeOf(j) == t.store :: j !in owned
  }

  predicate Clears(storeOf: StoreOf, t: Task, owned: set<nat>, j: nat) {
    Covers(storeOf, t, j) && Untouched(storeOf, t, owned)
  }

  predicate Cleared(storeOf: StoreOf, tasks: seq<Task>, owned: set<nat>, j: nat) {
    exists t :: t in tasks && Clears(storeOf, t, owned, j)
  }

  lemma ClearedMore(storeOf: StoreOf, tasks: seq<Task>, k: nat, owned: set<nat>, j: nat)
    requires k < |tasks|
    ensures Cleared(storeOf, tasks[..k + 1], owned, j)
            <==> Cleared(storeOf, tasks[..k], owned, j) || Clears(storeOf, tasks[k], owned, j)
  {
    assert tasks[..k + 1] == tasks[..k] + [tasks[k]];
    if Cleared(storeOf, tasks[..k], owned, j) {
      var t :| t in tasks[..k] && Clears(storeOf, t, owned, j);
      assert t in tasks[..k + 1];
    }
    if Clears(storeOf, tasks[k], owned, j) { assert tasks[k] in tasks[..k + 1]; }
  }
}
