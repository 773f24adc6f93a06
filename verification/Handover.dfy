/** Who serves a slot while it changes hands.

    The source, the destination and the messages between them, from the preparation of a migration
    task to its end. A slot is split when the source lists it as its own and lets clients in while
    the destination has claimed it. */
module Handover {

  type TaskId = nat

  /** Where the source is with a task. The chunk locks are held in `Locked`, `Ended` and `Half`;
      "+OK" has been sent in `Ended` and `Half`. */
  datatype Phase = Copying | Locked | Ended | Half | Clear | Err

  datatype Task = Task(slots: set<nat>, phase: Phase)

  /** `mine` are the slots the source lists as its own, `claimed` those the destination lists as its
      own; `ends` are the migrateend "+OK" messages under way with the slots the receiver holds for
      them, `replies` the tasks answered with "+OK", `claims` the destination's broadcast claims. */
  datatype Sys = Sys(mine: set<nat>, claimed: set<nat>, tasks: map<TaskId, Task>,
                     ends: map<TaskId, set<nat>>, replies: set<TaskId>, claims: set<set<nat>>)

  datatype Step =
    | Prepare(t: TaskId, slots: set<nat>)
    | Lock(t: TaskId)
    | Fail(t: TaskId)
    | SendEnd(t: TaskId)
    | LoseEnd(t: TaskId)
    | HandleEnd(t: TaskId, part: set<nat>)
    | Reply(t: TaskId)
    | ReplyFails(t: TaskId, part: set<nat>)
    | NoReply(t: TaskId)
    | HearClaim(slots: set<nat>)
    | Recheck(t: TaskId)
    | Forget(t: TaskId)

  predicate InPhase(s: Sys, t: TaskId, p: Phase) {
    t in s.tasks && s.tasks[t].phase == p
  }

  /** "+OK" has been sent and the task is not over. */
  predicate Told(s: Sys, t: TaskId) {
    InPhase(s, t, Ended) || InPhase(s, t, Half)
  }

  /** The task's chunk locks are held. */
  predicate Held(s: Sys, t: TaskId) {
    InPhase(s, t, Locked) || Told(s, t)
  }

  /** The task is not finished, so its slots may not be migrated by another. */
  predicate Live(task: Task) {
    task.phase != Err
  }

  predicate Enabled(s: Sys, step: Step) {
    match step
    case Prepare(t, slots) => t !in s.tasks && t !in s.ends && slots <= s.mine
                              && forall u | u in s.tasks && Live(s.tasks[u]) :: s.tasks[u].slots !! slots
    case Lock(t) => InPhase(s, t, Copying)
    case Fail(t) => (InPhase(s, t, Copying) || InPhase(s, t, Locked))
    case SendEnd(t) => InPhase(s, t, Locked)
    case LoseEnd(t) => t in s.ends
    case HandleEnd(t, part) => t in s.ends && part <= s.ends[t]
    case Reply(t) => t in s.replies && InPhase(s, t, Ended)
    case ReplyFails(t, part) => t in s.replies && InPhase(s, t, Ended) && part <= s.tasks[t].slots
    case NoReply(t) => InPhase(s, t, Ended)
    case HearClaim(slots) => slots in s.claims
    case Recheck(t) => InPhase(s, t, Half)
    case Forget(t) => (InPhase(s, t, Clear) || InPhase(s, t, Err))
  }

  function SetPhase(s: Sys, t: TaskId, p: Phase): Sys
    requires t in s.tasks
  {
    s.(tasks := s.tasks[t := s.tasks[t].(phase := p)])
  }

  function Take(s: Sys, step: Step): Sys
    requires Enabled(s, step)
  {
    match step
    case Prepare(t, slots) => s.(tasks := s.tasks[t := Task(slots, Copying)])
    case Lock(t) => SetPhase(s, t, Locked)
    case Fail(t) => SetPhase(s, t, Err)
    case SendEnd(t) => SetPhase(s, t, Ended).(ends := s.ends[t := s.tasks[t].slots])
    case LoseEnd(t) => s.(ends := s.ends - {t})
    // The destination assigns the slots to itself; only a complete assignment is answered with "+OK"
    // and broadcast.
    case HandleEnd(t, part) =>
      var s1 := s.(ends := s.ends - {t}, claimed := s.claimed + part);
      if part == s.ends[t] then s1.(replies := s.replies + {t}, claims := s.claims + {part}) else s1
    // The source gives the slots to the destination and unlocks.
    case Reply(t) => SetPhase(s, t, Clear).(mine := s.mine - s.tasks[t].slots)
    // It was answered, but could not change all of its own slot table.
    case ReplyFails(t, part) => SetPhase(s, t, Half).(mine := s.mine - part)
    case NoReply(t) => SetPhase(s, t, Half)
    case HearClaim(slots) => s.(mine := s.mine - slots)
    // The middle state is looked at again: either way the locks go.
    case Recheck(t) => SetPhase(s, t, if s.tasks[t].slots !! s.mine then Clear else Err)
    case Forget(t) => s.(tasks := s.tasks - {t})
  }

  // ---- safety ----

  predicate ChunkLocked(s: Sys, x: nat) {
    exists t :: t in s.tasks && Held(s, t) && x in s.tasks[t].slots
  }

  predicate SplitAt(s: Sys, x: nat) {
    x in s.mine && x in s.claimed && !ChunkLocked(s, x)
  }

  /** The destination has claimed x or will when a message under way arrives. */
  predicate Spoken(s: Sys, x: nat) {
    x in s.claimed || exists t :: t in s.ends && x in s.ends[t]
  }

  /** A task that has sent "+OK" still holds x. */
  predicate Guarded(s: Sys, x: nat) {
    exists t :: t in s.tasks && Told(s, t) && x in s.tasks[t].slots
  }

  predicate Clean(s: Sys) {
    forall x | x in s.mine :: Spoken(s, x) ==> Guarded(s, x)
  }

  predicate Disjoint(s: Sys) {
    forall t, u | t in s.tasks && u in s.tasks && t != u && Live(s.tasks[t]) && Live(s.tasks[u]) ::
      s.tasks[t].slots !! s.tasks[u].slots
  }

  /** Nothing the source still lists of the task has been or can still be claimed. */
  predicate SafeRecheck(s: Sys, t: TaskId)
    requires t in s.tasks
  {
    forall x | x in s.tasks[t].slots && x in s.mine :: !Spoken(s, x)
  }

  lemma CleanIsUnsplit(s: Sys, x: nat)
    requires Clean(s)
    ensures !SplitAt(s, x)
  {
    if x in s.mine && x in s.claimed {
      assert Spoken(s, x);
      assert Guarded(s, x);
      var t :| t in s.tasks && Told(s, t) && x in s.tasks[t].slots;
      assert Held(s, t);
    }
  }

  lemma StepDisjoint(s: Sys, step: Step)
    requires Disjoint(s) && Enabled(s, step)
    ensures Disjoint(Take(s, step))
  {
  }

  /** Guards survive every step that does not end their task. */
  lemma GuardStays(s: Sys, step: Step, x: nat)
    requires Enabled(s, step) && Guarded(s, x) && x in Take(s, step).mine && !step.Recheck?
    ensures Guarded(Take(s, step), x)
  {
    var t :| t in s.tasks && Told(s, t) && x in s.tasks[t].slots;
    var s' := Take(s, step);
    assert Told(s', t);
  }

  lemma NewlySpoken(s: Sys, step: Step, x: nat)
    requires Enabled(s, step) && !Spoken(s, x) && Spoken(Take(s, step), x)
    ensures Guarded(Take(s, step), x)
  {
    assert step.SendEnd?;
    assert Told(Take(s, step), step.t);
  }

  lemma StepClean(s: Sys, step: Step)
    requires Clean(s) && Enabled(s, step) && !step.Recheck?
    ensures Clean(Take(s, step))
  {
    var s' := Take(s, step);
    assert s'.mine <= s.mine;
    forall x | x in s'.mine && Spoken(s', x) ensures Guarded(s', x) {
      if Spoken(s, x) { GuardStays(s, step, x); } else { NewlySpoken(s, step, x); }
    }
  }

  /** After a re-check the state is clean exactly when the re-check was safe. */
  lemma RecheckClean(s: Sys, t: TaskId)
    requires Clean(s) && Disjoint(s) && Enabled(s, Recheck(t))
    ensures Clean(Take(s, Recheck(t))) <==> SafeRecheck(s, t)
  {
    var s' := Take(s, Recheck(t));
    forall x | x in s.mine ensures Spoken(s', x) <==> Spoken(s, x) {}
    forall x | x in s.mine ensures Guarded(s', x) <==> Guarded(s, x) && x !in s.tasks[t].slots {
      RecheckGuards(s, t, x);
    }
  }

  /** A re-check ends the task well exactly if the source lists none of its slots any more; either way the locks go. */
  lemma RecheckVerdict(s: Sys, t: TaskId)
    requires Enabled(s, Recheck(t))
    ensures var s' := Take(s, Recheck(t));
            && !Held(s', t) && s'.mine == s.mine && s'.claimed == s.claimed
            && (InPhase(s', t, Clear) <==> forall x | x in s.tasks[t].slots :: x !in s.mine)
            && (InPhase(s', t, Err) <==> exists x | x in s.tasks[t].slots :: x in s.mine)
  {
  }

  lemma RecheckGuards(s: Sys, t: TaskId, x: nat)
    requires Disjoint(s) && Enabled(s, Recheck(t))
    ensures Guarded(Take(s, Recheck(t)), x) <==> Guarded(s, x) && x !in s.tasks[t].slots
  {
    var s' := Take(s, Recheck(t));
    if Guarded(s', x) {
      var u :| u in s'.tasks && Told(s', u) && x in s'.tasks[u].slots;
      assert u != t && Told(s, u) && Live(s.tasks[u]) && Live(s.tasks[t]);
    }
    if Guarded(s, x) && x !in s.tasks[t].slots {
      var u :| u in s.tasks && Told(s, u) && x in s.tasks[u].slots;
      assert Told(s', u);
    }
  }

  // ---- runs ----

  predicate IsRun(states: seq<Sys>, steps: seq<Step>) {
    && |states| == |steps| + 1
    && (forall k | 0 <= k < |steps| :: Enabled(states[k], steps[k]) && states[k + 1] == Take(states[k], steps[k]))
  }

  predicate Initial(s: Sys) {
    s.claimed !! s.mine && s.tasks == map[] && s.ends == map[] && s.replies == {} && s.claims == {}
  }

  predicate SafeAt(s: Sys, step: Step)
    requires Enabled(s, step)
  {
    step.Recheck? ==> SafeRecheck(s, step.t)
  }

  lemma StepCleanIff(s: Sys, step: Step)
    requires Clean(s) && Disjoint(s) && Enabled(s, step)
    ensures Disjoint(Take(s, step)) && (Clean(Take(s, step)) <==> SafeAt(s, step))
  {
    StepDisjoint(s, step);
    if step.Recheck? { RecheckClean(s, step.t); } else { StepClean(s, step); }
  }

  lemma {:induction false} CleanUpTo(states: seq<Sys>, steps: seq<Step>, k: nat)
    requires IsRun(states, steps) && Initial(states[0]) && k < |states|
    requires forall i | 0 <= i < k :: SafeAt(states[i], steps[i])
    ensures Clean(states[k]) && Disjoint(states[k])
  {
    if k > 0 {
      CleanUpTo(states, steps, k - 1);
      StepCleanIff(states[k - 1], steps[k - 1]);
    }
  }

  /** Every state of a run is clean, and so no slot is split in it, exactly when every re-check of the
      middle state taken in the run was safe. */
  lemma NoSplitOwnership(states: seq<Sys>, steps: seq<Step>)
    requires IsRun(states, steps) && Initial(states[0])
    ensures (forall k | 0 <= k < |states| :: Clean(states[k]))
            <==> (forall k | 0 <= k < |steps| :: SafeAt(states[k], steps[k]))
    ensures (forall k | 0 <= k < |steps| :: SafeAt(states[k], steps[k]))
            ==> forall k, x | 0 <= k < |states| :: !SplitAt(states[k], x)
  {
    hide Clean, Disjoint, SplitAt, Enabled, Take, SafeAt;
    if forall k | 0 <= k < |steps| :: SafeAt(states[k], steps[k]) {
      forall k | 0 <= k < |states| ensures Clean(states[k]) { CleanUpTo(states, steps, k); }
      forall k, x | 0 <= k < |states| ensures !SplitAt(states[k], x) { CleanIsUnsplit(states[k], x); }
    } else if forall k | 0 <= k < |states| :: Clean(states[k]) {
      FirstUnsafe(states, steps, |steps|);
      assert false;
    }
  }

  lemma {:induction false} FirstUnsafe(states: seq<Sys>, steps: seq<Step>, n: nat)
    requires IsRun(states, steps) && Initial(states[0]) && n <= |steps|
    requires forall k | 0 <= k < |states| :: Clean(states[k])
    ensures forall k | 0 <= k < n :: SafeAt(states[k], steps[k])
  {
    hide Clean, Disjoint, Enabled, Take, SafeAt;
    if n > 0 {
      FirstUnsafe(states, steps, n - 1);
      CleanUpTo(states, steps, n - 1);
      StepCleanIff(states[n - 1], steps[n - 1]);
      assert states[n - 1 + 1] == Take(states[n - 1], steps[n - 1]) && Clean(states[n]);
    }
  }

  /** An unsafe re-check splits a slot at once, or as soon as a message already under way arrives. */
  lemma UnsafeRecheckSplits(s: Sys, t: TaskId) returns (x: nat, rest: seq<Step>)
    requires Clean(s) && Disjoint(s) && Enabled(s, Recheck(t)) && !SafeRecheck(s, t)
    ensures var s' := Take(s, Recheck(t));
            || (rest == [] && SplitAt(s', x))
            || (|rest| == 1 && rest[0].HandleEnd? && Enabled(s', rest[0]) && SplitAt(Take(s', rest[0]), x))
  {
    var s' := Take(s, Recheck(t));
    x :| x in s.tasks[t].slots && x in s.mine && Spoken(s, x);
    assert !ChunkLocked(s', x) by {
      if u :| u in s'.tasks && Held(s', u) && x in s'.tasks[u].slots {
        assert u != t && Live(s.tasks[u]) && Live(s.tasks[t]);
      }
    }
    if x in s.claimed {
      rest := [];
    } else {
      var u :| u in s.ends && x in s.ends[u];
      rest := [HandleEnd(u, s.ends[u])];
      assert Take(s', rest[0]).tasks == s'.tasks;
      assert !ChunkLocked(Take(s', rest[0]), x);
    }
  }

  lemma {:induction false} MineShrinks(states: seq<Sys>, steps: seq<Step>, i: nat, k: nat)
    requires IsRun(states, steps) && i <= k < |states|
    ensures states[k].mine <= states[i].mine
    decreases k
  {
    if i < k {
      MineShrinks(states, steps, i, k - 1);
      assert states[k - 1 + 1] == Take(states[k - 1], steps[k - 1]);
    }
  }

  /** The order the design counts on: a re-check is safe once the source has heard a claim of the
      destination to all of the task's slots. */
  lemma ClaimHeardIsSafe(states: seq<Sys>, steps: seq<Step>, i: nat, k: nat)
    requires IsRun(states, steps) && i < k < |steps|
    requires steps[i].HearClaim? && steps[k].Recheck? && states[k].tasks[steps[k].t].slots <= steps[i].slots
    ensures SafeAt(states[k], steps[k])
  {
    MineShrinks(states, steps, i + 1, k);
    assert states[i + 1] == Take(states[i], steps[i]);
  }

  /** One task for slot 0 in the given phase, its message under way or handled. */
  function OneTask(phase: Phase, sent: bool, handled: bool): Sys {
    Sys({0}, if handled then {0} else {}, map[1 := Task({0}, phase)], if sent then map[1 := {0}] else map[],
        if handled then {1} else {}, if handled then {{0}} else {})
  }

  lemma PhaseMoves(from: Phase, to: Phase, sent: bool)
    requires (from, to) in {(Copying, Locked), (Ended, Half), (Half, Err)}
    ensures var step := if to == Locked then Lock(1) else if to == Half then NoReply(1) else Recheck(1);
            Enabled(OneTask(from, sent, false), step)
              && Take(OneTask(from, sent, false), step) == OneTask(to, sent, false)
  {
    var tasks := map[1 := Task({0}, from)];
    assert tasks[1 := Task({0}, to)] == map[1 := Task({0}, to)];
    assert 0 in {0} * {0};
  }

  lemma EndMoves()
    ensures Enabled(OneTask(Locked, false, false), SendEnd(1))
    ensures Take(OneTask(Locked, false, false), SendEnd(1)) == OneTask(Ended, true, false)
  {
    var tasks := map[1 := Task({0}, Locked)];
    assert tasks[1 := Task({0}, Ended)] == map[1 := Task({0}, Ended)];
  }

  lemma LateHandling()
    ensures Enabled(OneTask(Err, true, false), HandleEnd(1, {0}))
    ensures Take(OneTask(Err, true, false), HandleEnd(1, {0})) == OneTask(Err, false, true)
    ensures SplitAt(OneTask(Err, false, true), 0)
  {
    var ends: map<TaskId, set<nat>> := map[1 := {0}];
    assert ends - {1} == map[];
  }

  /** The destination is slow: the source gives up waiting, looks again, unlocks slot 0 and keeps it;
      then the destination claims it. */
  lemma SlowDestinationSplits() returns (states: seq<Sys>, steps: seq<Step>)
    ensures IsRun(states, steps) && Initial(states[0]) && SplitAt(states[|steps|], 0)
  {
    var s0 := Sys({0}, {}, map[], map[], {}, {});
    assert Enabled(s0, Prepare(1, {0})) && Take(s0, Prepare(1, {0})) == OneTask(Copying, false, false);
    PhaseMoves(Copying, Locked, false);
    EndMoves();
    PhaseMoves(Ended, Half, true);
    PhaseMoves(Half, Err, true);
    LateHandling();
    hide Enabled, Take, SplitAt, OneTask;
    states := [s0, OneTask(Copying, false, false), OneTask(Locked, false, false), OneTask(Ended, true, false),
               OneTask(Half, true, false), OneTask(Err, true, false), OneTask(Err, false, true)];
    steps := [Prepare(1, {0}), Lock(1), SendEnd(1), NoReply(1), Recheck(1), HandleEnd(1, {0})];
  }
}
