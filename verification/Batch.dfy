/**
 Batch signing. The concurrent helpers are a state machine over task steps: slot grants under a
 concurrency limit, staggered starts, calls, first-error cancellation, and time. The sequential helper
 is a loop.
 */
module Batch {
  import opened Core

  /** One task of the group. A task that returned or failed has given its slot back. */
  datatype Task<+R> =
    | Unspawned
    | Staggering(granted: int)
    | Calling(granted: int, started: int)
    | Returned(granted: int, started: int, value: R)
    | Failed(error: SignerError)

  /**
   A batch of `n` tasks: `sign(i)` is what the signer answers to the call for item `i`, an arbitrary
   function since each item is signed at most once. `prompt` restricts the clock to schedulers that start a task as
   soon as it is due.
   */
  datatype Config<!R> = Config(n: nat, limit: int, delay: int, start: int, sign: nat -> Result<R, SignerError>,
                               prompt: bool)

  datatype State<+R> = State(
    now: int, spawned: nat, tasks: seq<Task<R>>, out: seq<Option<R>>, firstError: Option<SignerError>, cancelled: bool)

  datatype Step = Grant | Begin(i: nat) | Abandon(i: nat) | Reply(i: nat) | CancelParent | Tick(span: int)

  predicate HoldsSlot<R>(t: Task<R>) {
    t.Staggering? || t.Calling?
  }

  /** How many tasks hold a slot, which bounds how many sign calls run at once. */
  function Active<R>(tasks: seq<Task<R>>): nat {
    if tasks == [] then 0 else Active(tasks[..|tasks| - 1]) + if HoldsSlot(tasks[|tasks| - 1]) then 1 else 0
  }

  /** `stagger` does not wait at all. */
  predicate NoWait<R>(c: Config<R>, i: nat) {
    c.delay <= 0 || i == 0
  }

  /** The earliest moment the call of task `i` may start. */
  function Target<R>(c: Config<R>, i: nat): int {
    if NoWait(c, i) then c.start else c.start + i * c.delay
  }

  /** The moment task `i` is due, once its slot was granted. */
  function Due<R>(c: Config<R>, i: nat, granted: int): int {
    if Target(c, i) > granted then Target(c, i) else granted
  }

  predicate Init<R>(c: Config<R>, s: State<R>) {
    && s.now == c.start && s.spawned == 0 && s.firstError.None? && !s.cancelled
    && |s.tasks| == c.n && |s.out| == c.n
    && forall i :: 0 <= i < c.n ==> s.tasks[i].Unspawned? && s.out[i].None?
  }

  predicate Enabled<R>(c: Config<R>, s: State<R>, a: Step) {
    match a
    case Grant => s.spawned < |s.tasks| && (c.limit > 0 ==> Active(s.tasks) < c.limit)
    case Begin(i) => i < |s.tasks| && s.tasks[i].Staggering? && Target(c, i) <= s.now
    case Abandon(i) =>
      i < |s.tasks| && s.tasks[i].Staggering? && !NoWait(c, i) && Target(c, i) > s.tasks[i].granted && s.cancelled
    case Reply(i) => i < |s.tasks| && s.tasks[i].Calling?
    case CancelParent => !s.cancelled
    case Tick(span) =>
      && span > 0
      && (c.prompt ==> forall i :: 0 <= i < |s.tasks| && s.tasks[i].Staggering? ==>
                         s.now + span <= Due(c, i, s.tasks[i].granted))
  }

  /** A task ends in failure: the first failure of the group is kept and cancels the rest. */
  function Fail<R>(s: State<R>, i: nat, error: SignerError): State<R>
    requires i < |s.tasks|
  {
    s.(tasks := s.tasks[i := Failed(error)],
       firstError := if s.firstError.None? then Some(error) else s.firstError,
       cancelled := true)
  }

  function Do<R>(c: Config<R>, s: State<R>, a: Step): State<R>
    requires Enabled(c, s, a) && |s.out| == |s.tasks|
  {
    match a
    case Grant => s.(tasks := s.tasks[s.spawned := Staggering(s.now)], spawned := s.spawned + 1)
    case Begin(i) => s.(tasks := s.tasks[i := Calling(s.tasks[i].granted, s.now)])
    case Abandon(i) => Fail(s, i, HttpError(BatchCancelled))
    case Reply(i) =>
      (match c.sign(i)
       case Ok(v) =>
         s.(tasks := s.tasks[i := Returned(s.tasks[i].granted, s.tasks[i].started, v)], out := s.out[i := Some(v)])
       case Err(e) => Fail(s, i, e))
    case CancelParent => s.(cancelled := true)
    case Tick(span) => s.(now := s.now + span)
  }

  /** A run of the group, step by step. */
  ghost predicate Behavior<R>(c: Config<R>, states: seq<State<R>>, steps: seq<Step>) {
    && |states| == |steps| + 1
    && Init(c, states[0])
    && forall k :: 0 <= k < |steps| ==>
         && |states[k].out| == |states[k].tasks|
         && Enabled(c, states[k], steps[k]) && states[k + 1] == Do(c, states[k], steps[k])
  }

  /** `g.Wait()` returns: every task was spawned and has ended. */
  predicate Finished<R>(s: State<R>) {
    forall i :: 0 <= i < |s.tasks| ==> s.tasks[i].Returned? || s.tasks[i].Failed?
  }

  /** What the helper returns: the first error and no results, or all results. */
  function Outcome<R>(s: State<R>): Result<seq<Option<R>>, SignerError> {
    if s.firstError.Some? then Err(s.firstError.value) else Ok(s.out)
  }

  // ---- the invariant ----

  /** What is true of task `i` in every reachable state. */
  ghost predicate TaskOk<R>(c: Config<R>, s: State<R>, i: nat)
    requires i < |s.tasks| == |s.out|
  {
    var t := s.tasks[i];
    && (t.Unspawned? <==> s.spawned <= i)
    && (s.out[i].Some? <==> t.Returned?)
    && (t.Returned? ==> c.sign(i) == Ok(t.value) && s.out[i] == Some(t.value))
    && (t.Failed? ==> s.firstError.Some? && (c.sign(i) == Err(t.error) || t.error == HttpError(BatchCancelled)))
    && (t.Staggering? ==> c.start <= t.granted <= s.now && (c.prompt ==> s.now <= Due(c, i, t.granted)))
    && (t.Calling? || t.Returned? ==> c.start <= t.granted <= t.started <= s.now && Target(c, i) <= t.started
                                      && (c.prompt ==> t.started == Due(c, i, t.granted)))
  }

  ghost predicate Inv<R>(c: Config<R>, s: State<R>) {
    && |s.tasks| == |s.out| == c.n
    && s.spawned <= c.n
    && c.start <= s.now
    && (c.limit > 0 ==> Active(s.tasks) <= c.limit)
    && (s.firstError.Some? ==> s.cancelled && exists i :: 0 <= i < c.n && s.tasks[i] == Failed(s.firstError.value))
    && (forall i :: 0 <= i < c.n ==> TaskOk(c, s, i))
  }

  lemma {:induction false} ActiveUpdate<R>(tasks: seq<Task<R>>, i: nat, t: Task<R>)
    requires i < |tasks|
    ensures Active(tasks[i := t]) ==
      Active(tasks) - (if HoldsSlot(tasks[i]) then 1 else 0) + (if HoldsSlot(t) then 1 else 0)
  {
    var n := |tasks| - 1;
    if i < n {
      assert tasks[i := t][..n] == tasks[..n][i := t];
      ActiveUpdate(tasks[..n], i, t);
    } else {
      assert tasks[i := t][..n] == tasks[..n];
    }
  }

  lemma {:induction false} ActiveNone<R>(tasks: seq<Task<R>>)
    requires forall i :: 0 <= i < |tasks| ==> !HoldsSlot(tasks[i])
    ensures Active(tasks) == 0
  {
    if tasks != [] {
      ActiveNone(tasks[..|tasks| - 1]);
    }
  }

  lemma StepKeepsSlots<R>(c: Config<R>, s: State<R>, a: Step)
    requires Inv(c, s) && Enabled(c, s, a)
    ensures c.limit > 0 ==> Active(Do(c, s, a).tasks) <= c.limit
  {
    match a
    case Grant => ActiveUpdate(s.tasks, s.spawned, Staggering(s.now));
    case Begin(i) => ActiveUpdate(s.tasks, i, Calling(s.tasks[i].granted, s.now));
    case Abandon(i) => ActiveUpdate(s.tasks, i, Failed(HttpError(BatchCancelled)));
    case Reply(i) => ActiveUpdate(s.tasks, i, Do(c, s, a).tasks[i]);
    case CancelParent =>
    case Tick(_) =>
  }

  lemma StepKeepsErrors<R>(c: Config<R>, s: State<R>, a: Step)
    requires Inv(c, s) && Enabled(c, s, a)
    ensures var t := Do(c, s, a);
      t.firstError.Some? ==> t.cancelled && exists i :: 0 <= i < c.n && t.tasks[i] == Failed(t.firstError.value)
  {
    var t := Do(c, s, a);
    if s.firstError.Some? {
      var i :| 0 <= i < c.n && s.tasks[i] == Failed(s.firstError.value);
      assert TaskOk(c, s, i);
      assert t.tasks[i] == s.tasks[i];
    } else if t.firstError.Some? {
      assert t.tasks[a.i] == Failed(t.firstError.value);
    }
  }

  lemma StepKeepsTasks<R>(c: Config<R>, s: State<R>, a: Step, i: nat)
    requires Inv(c, s) && Enabled(c, s, a) && i < c.n
    ensures TaskOk(c, Do(c, s, a), i)
  {
    assert TaskOk(c, s, i);
    if a.Begin? && a.i == i {
      assert s.now >= Due(c, i, s.tasks[i].granted);
    }
  }

  lemma StepKeepsInv<R>(c: Config<R>, s: State<R>, a: Step)
    requires Inv(c, s) && Enabled(c, s, a)
    ensures Inv(c, Do(c, s, a))
  {
    StepKeepsSlots(c, s, a);
    StepKeepsErrors(c, s, a);
    forall i | 0 <= i < c.n
      ensures TaskOk(c, Do(c, s, a), i)
    {
      StepKeepsTasks(c, s, a, i);
    }
  }

  lemma {:induction false} Reachable<R>(c: Config<R>, states: seq<State<R>>, steps: seq<Step>, k: nat)
    requires Behavior(c, states, steps) && k < |states|
    ensures Inv(c, states[k])
  {
    if k == 0 {
      ActiveNone(states[0].tasks);
    } else {
      Reachable(c, states, steps, k - 1);
      StepKeepsInv(c, states[k - 1], steps[k - 1]);
    }
  }

  // ---- safety over whole runs ----

  /** In every reachable state at most `limit` tasks hold a slot, so at most that many calls run at once. */
  lemma ConcurrencyIsBounded<R>(c: Config<R>, states: seq<State<R>>, steps: seq<Step>, k: nat)
    requires Behavior(c, states, steps) && k < |states| && c.limit > 0
    ensures Active(states[k].tasks) <= c.limit
  {
    Reachable(c, states, steps, k);
  }

  /** Refinement: a batch that ends without an error returns the per-index map of the signer over the items. */
  lemma SuccessIsTheMap<R>(c: Config<R>, states: seq<State<R>>, steps: seq<Step>, k: nat)
    requires Behavior(c, states, steps) && k < |states| && Finished(states[k]) && Outcome(states[k]).Ok?
    ensures |Outcome(states[k]).value| == c.n
    ensures forall i :: 0 <= i < c.n ==> c.sign(i).Ok? && Outcome(states[k]).value[i] == Some(c.sign(i).value)
  {
    Reachable(c, states, steps, k);
    forall i | 0 <= i < c.n
      ensures c.sign(i).Ok? && states[k].out[i] == Some(c.sign(i).value)
    {
      assert TaskOk(c, states[k], i);
    }
  }

  /** No step of the run so far was the caller cancelling the parent context. */
  predicate NotCancelledByCaller(steps: seq<Step>, k: nat)
    requires k <= |steps|
  {
    forall j :: 0 <= j < k ==> !steps[j].CancelParent?
  }

  lemma {:induction false} CancelledOnlyByError<R>(c: Config<R>, states: seq<State<R>>, steps: seq<Step>, k: nat)
    requires Behavior(c, states, steps) && k < |states| && NotCancelledByCaller(steps, k)
    ensures states[k].cancelled ==> states[k].firstError.Some?
    ensures states[k].firstError.Some? ==> exists i :: 0 <= i < c.n && c.sign(i) == Err(states[k].firstError.value)
  {
    if k > 0 {
      CancelledOnlyByError(c, states, steps, k - 1);
      Reachable(c, states, steps, k - 1);
      var s, a := states[k - 1], steps[k - 1];
      if s.firstError.None? && states[k].firstError.Some? {
        assert a.Reply?;
        assert c.sign(a.i) == Err(states[k].firstError.value);
      }
    }
  }

  /**
   Unless the caller cancels, a finished batch succeeds exactly when every item signs, and otherwise reports an
   item's own error.
   */
  lemma FinishedBatchDecides<R>(c: Config<R>, states: seq<State<R>>, steps: seq<Step>, k: nat)
    requires Behavior(c, states, steps) && k < |states| && Finished(states[k]) && NotCancelledByCaller(steps, k)
    ensures Outcome(states[k]).Ok? <==> forall i :: 0 <= i < c.n ==> c.sign(i).Ok?
    ensures Outcome(states[k]).Err? ==> exists i :: 0 <= i < c.n && c.sign(i) == Err(Outcome(states[k]).error)
  {
    CancelledOnlyByError(c, states, steps, k);
    if Outcome(states[k]).Ok? {
      SuccessIsTheMap(c, states, steps, k);
    }
  }

  /** No task has failed yet. */
  predicate NoFailure<R>(s: State<R>) {
    forall i :: 0 <= i < |s.tasks| ==> !s.tasks[i].Failed?
  }

  /** Task `i` fails with `error` in step `j`, and nothing failed before it. */
  ghost predicate FirstFailure<R>(states: seq<State<R>>, j: nat, i: nat, error: SignerError)
    requires j + 1 < |states|
  {
    && NoFailure(states[j])
    && i < |states[j + 1].tasks| && states[j + 1].tasks[i] == Failed(error)
  }

  lemma ErrorMeansFailure<R>(c: Config<R>, s: State<R>)
    requires Inv(c, s)
    ensures s.firstError.None? <==> NoFailure(s)
  {
    forall i | 0 <= i < c.n
      ensures s.tasks[i].Failed? ==> s.firstError.Some?
    {
      assert TaskOk(c, s, i);
    }
    if s.firstError.Some? {
      var i :| 0 <= i < c.n && s.tasks[i] == Failed(s.firstError.value);
      assert s.tasks[i].Failed?;
    }
  }

  /**
   The error a failed batch returns is the error of the task that failed first in time, cancellation errors
   included.
   */
  lemma {:induction false} ErrorIsTheFirstFailure<R>(c: Config<R>, states: seq<State<R>>, steps: seq<Step>, k: nat)
    requires Behavior(c, states, steps) && k < |states|
    ensures states[k].firstError.None? <==> NoFailure(states[k])
    ensures states[k].firstError.Some? ==>
              exists j, i :: 0 <= j < k && FirstFailure(states, j, i, states[k].firstError.value)
    ensures Outcome(states[k]).Ok? <==> NoFailure(states[k])
    ensures Outcome(states[k]).Err? ==>
              exists j, i :: 0 <= j < k && FirstFailure(states, j, i, Outcome(states[k]).error)
  {
    Reachable(c, states, steps, k);
    ErrorMeansFailure(c, states[k]);
    if k > 0 {
      ErrorIsTheFirstFailure(c, states, steps, k - 1);
      var s, a := states[k - 1], steps[k - 1];
      if s.firstError.Some? {
        assert states[k].firstError == s.firstError;
      } else if states[k].firstError.Some? {
        assert FirstFailure(states, k - 1, a.i, states[k].firstError.value);
      }
    }
  }

  /** A group is cancelled exactly when its caller cancelled it or a task failed, and stays so. */
  lemma {:induction false} CancelledIff<R>(c: Config<R>, states: seq<State<R>>, steps: seq<Step>, k: nat)
    requires Behavior(c, states, steps) && k < |states|
    ensures states[k].cancelled <==> !NotCancelledByCaller(steps, k) || !NoFailure(states[k])
  {
    Reachable(c, states, steps, k);
    ErrorMeansFailure(c, states[k]);
    if k > 0 {
      CancelledIff(c, states, steps, k - 1);
      Reachable(c, states, steps, k - 1);
      ErrorMeansFailure(c, states[k - 1]);
      assert NotCancelledByCaller(steps, k) <==> NotCancelledByCaller(steps, k - 1) && !steps[k - 1].CancelParent?;
    }
  }

  /**
   A task is given up only while it waits: the group is cancelled, the task holds a slot that was granted before its
   turn, and its call has not started. In every other state of a task a cancellation does not stop it.
   */
  lemma OnlyWaitingTasksAreGivenUp<R>(c: Config<R>, states: seq<State<R>>, steps: seq<Step>, k: nat, i: nat)
    requires Behavior(c, states, steps) && k < |states|
    ensures Enabled(c, states[k], Abandon(i)) <==>
      && i < c.n && |states[k].tasks| == c.n && states[k].tasks[i].Staggering? && states[k].cancelled
      && c.delay > 0 && i > 0 && states[k].tasks[i].granted < c.start + i * c.delay
  {
    Reachable(c, states, steps, k);
    if i < c.n {
      assert TaskOk(c, states[k], i);
    }
  }

  // ---- pacing ----

  /**
   No call starts before its target, and under a prompt scheduler it starts at the later of target and slot
   grant.
   */
  lemma StartsWhenDue<R>(c: Config<R>, states: seq<State<R>>, steps: seq<Step>, k: nat, i: nat)
    requires Behavior(c, states, steps) && k < |states| && i < c.n
    requires |states[k].tasks| == c.n && (states[k].tasks[i].Calling? || states[k].tasks[i].Returned?)
    ensures c.delay > 0 ==> states[k].tasks[i].started >= c.start + i * c.delay
    ensures var granted := states[k].tasks[i].granted;
      c.prompt ==> states[k].tasks[i].started
                     == if c.delay > 0 && c.start + i * c.delay > granted then c.start + i * c.delay else granted
  {
    Reachable(c, states, steps, k);
    assert TaskOk(c, states[k], i);
  }

  lemma TargetsGrow<R>(c: Config<R>, i: nat)
    requires c.delay > 0 && i < c.n
    ensures Target(c, i) <= c.start + (c.n - 1) * c.delay
  {
    assert i * c.delay <= (c.n - 1) * c.delay;
  }

  /** Delays do not compound: once slots were granted at the start, every call has started by start + (n-1)*delay. */
  lemma DelaysDoNotCompound<R>(c: Config<R>, states: seq<State<R>>, steps: seq<Step>, k: nat, i: nat)
    requires Behavior(c, states, steps) && k < |states| && i < c.n && c.prompt && c.delay > 0
    requires |states[k].tasks| == c.n && !states[k].tasks[i].Unspawned? && !states[k].tasks[i].Failed?
    requires states[k].tasks[i].granted == c.start
    ensures states[k].tasks[i].Staggering? ==> states[k].now <= c.start + (c.n - 1) * c.delay
    ensures !states[k].tasks[i].Staggering? ==>
      states[k].tasks[i].started == c.start + i * c.delay <= c.start + (c.n - 1) * c.delay
  {
    Reachable(c, states, steps, k);
    assert TaskOk(c, states[k], i);
    TargetsGrow(c, i);
  }

  // ---- progress ----

  function Work<R>(t: Task<R>): nat {
    match t
    case Unspawned => 3
    case Staggering(_) => 2
    case Calling(_, _) => 1
    case _ => 0
  }

  function Remaining<R>(tasks: seq<Task<R>>): nat {
    if tasks == [] then 0 else Remaining(tasks[..|tasks| - 1]) + Work(tasks[|tasks| - 1])
  }

  lemma {:induction false} RemainingUpdate<R>(tasks: seq<Task<R>>, i: nat, t: Task<R>)
    requires i < |tasks|
    ensures Remaining(tasks[i := t]) == Remaining(tasks) - Work(tasks[i]) + Work(t)
  {
    var n := |tasks| - 1;
    if i < n {
      assert tasks[i := t][..n] == tasks[..n][i := t];
      RemainingUpdate(tasks[..n], i, t);
    } else {
      assert tasks[i := t][..n] == tasks[..n];
    }
  }

  /** A step that moves a task on: every one but the clock and a caller's cancellation. */
  predicate IsWork(a: Step) {
    !a.Tick? && !a.CancelParent?
  }

  /** How many of the first `k` steps moved a task on. */
  function Working(steps: seq<Step>, k: nat): nat
    requires k <= |steps|
  {
    if k == 0 then 0 else Working(steps, k - 1) + if IsWork(steps[k - 1]) then 1 else 0
  }

  /** How many of the first `k` steps gave up a task before its call, which saves the call's reply. */
  function Abandoned(steps: seq<Step>, k: nat): nat
    requires k <= |steps|
  {
    if k == 0 then 0 else Abandoned(steps, k - 1) + if steps[k - 1].Abandon? then 1 else 0
  }

  lemma WorkIsUsedUp<R>(c: Config<R>, s: State<R>, a: Step)
    requires Inv(c, s) && Enabled(c, s, a)
    ensures Remaining(Do(c, s, a).tasks) + (if IsWork(a) then 1 else 0) + (if a.Abandon? then 1 else 0) ==
      Remaining(s.tasks)
  {
    if IsWork(a) {
      var i := if a.Grant? then s.spawned else a.i;
      assert TaskOk(c, s, i);
      RemainingUpdate(s.tasks, i, Do(c, s, a).tasks[i]);
    }
  }

  lemma {:induction false} RemainingAtStart<R>(tasks: seq<Task<R>>)
    requires forall i :: 0 <= i < |tasks| ==> tasks[i].Unspawned?
    ensures Remaining(tasks) == 3 * |tasks|
  {
    if tasks != [] {
      RemainingAtStart(tasks[..|tasks| - 1]);
    }
  }

  lemma {:induction false} NothingRemains<R>(tasks: seq<Task<R>>)
    ensures Remaining(tasks) == 0 <==> forall i :: 0 <= i < |tasks| ==> tasks[i].Returned? || tasks[i].Failed?
  {
    if tasks != [] {
      var n := |tasks| - 1;
      NothingRemains(tasks[..n]);
      assert forall i :: 0 <= i < n ==> tasks[i] == tasks[..n][i];
      assert (forall i :: 0 <= i < |tasks| ==> tasks[i].Returned? || tasks[i].Failed?) <==>
             (tasks[n].Returned? || tasks[n].Failed?)
             && forall i :: 0 <= i < n ==> tasks[..n][i].Returned? || tasks[..n][i].Failed?;
    }
  }

  /**
   Work is conserved: at every point of every run, the working steps taken, the replies saved by giving up and the
   steps still to take add up to 3n. A batch is finished exactly when nothing remains, so it never takes more than 3n
   working steps, and takes exactly that many when no task was given up.
   */
  lemma {:induction false} StepsUseUpWork<R>(c: Config<R>, states: seq<State<R>>, steps: seq<Step>, k: nat)
    requires Behavior(c, states, steps) && k < |states|
    ensures Working(steps, k) + Abandoned(steps, k) + Remaining(states[k].tasks) == 3 * c.n
    ensures Finished(states[k]) <==> Working(steps, k) + Abandoned(steps, k) == 3 * c.n
  {
    if k == 0 {
      RemainingAtStart(states[0].tasks);
    } else {
      StepsUseUpWork(c, states, steps, k - 1);
      Reachable(c, states, steps, k - 1);
      WorkIsUsedUp(c, states[k - 1], steps[k - 1]);
    }
    NothingRemains(states[k].tasks);
  }

  lemma {:induction false} ActiveFinds<R>(tasks: seq<Task<R>>) returns (i: nat)
    requires Active(tasks) > 0
    ensures i < |tasks| && HoldsSlot(tasks[i])
  {
    var n := |tasks| - 1;
    if HoldsSlot(tasks[n]) {
      i := n;
    } else {
      i := ActiveFinds(tasks[..n]);
    }
  }

  /** After letting the clock run for `wait`, step `a` is enabled and uses up work. */
  predicate CanWork<R>(c: Config<R>, s: State<R>, wait: int, a: Step) {
    && (wait == 0 || Enabled(c, s, Tick(wait)))
    && Enabled(c, s.(now := s.now + wait), a)
    && IsWork(a)
  }

  /**
   No deadlock: from every reachable unfinished state, waiting for the clock at most once, some working step is
   enabled.
   */
  lemma NoDeadlock<R>(c: Config<R>, states: seq<State<R>>, steps: seq<Step>, k: nat) returns (wait: int, a: Step)
    requires Behavior(c, states, steps) && k < |states| && !Finished(states[k])
    ensures CanWork(c, states[k], wait, a)
  {
    Reachable(c, states, steps, k);
    var s := states[k];
    var i :| 0 <= i < c.n && !(s.tasks[i].Returned? || s.tasks[i].Failed?);
    assert TaskOk(c, s, i);
    if s.tasks[i].Unspawned? && (c.limit <= 0 || Active(s.tasks) < c.limit) {
      return 0, Grant;
    }
    if s.tasks[i].Unspawned? {
      i := ActiveFinds(s.tasks);
    }
    wait, a := NextFor(c, s, i);
  }

  /**
   A task that holds a slot can reply or begin, or the clock can run to the moment the lowest waiting task is
   due.
   */
  lemma NextFor<R>(c: Config<R>, s: State<R>, i: nat) returns (wait: int, a: Step)
    requires Inv(c, s) && i < c.n && HoldsSlot(s.tasks[i])
    ensures CanWork(c, s, wait, a)
  {
    if s.tasks[i].Calling? {
      return 0, Reply(i);
    }
    var j := 0;
    while !s.tasks[j].Staggering?
      invariant j <= i
      invariant forall l :: 0 <= l < j ==> !s.tasks[l].Staggering?
      decreases i - j
    {
      j := j + 1;
    }
    assert TaskOk(c, s, j);
    if Target(c, j) <= s.now {
      return 0, Begin(j);
    }
    forall l | 0 <= l < c.n && s.tasks[l].Staggering?
      ensures Target(c, j) <= Due(c, l, s.tasks[l].granted)
    {
      assert j * c.delay <= l * c.delay;
    }
    return Target(c, j) - s.now, Begin(j);
  }

  // ---- the sequential form ----

  /**
   `signTransactionsSequential`: `interrupted(i)` says whether the wait before item `i` was cut short by a
   cancelled context. What comes back is the exact prefix of results before the first failure, and no call is made
   beyond it.
   */
  method SignSequential<T, R>(
      signer: Channel<T, Result<R, SignerError>>, items: seq<T>, delay: int, interrupted: nat -> bool)
    returns (out: seq<R>, error: Option<SignerError>)
    requires signer.log == []
    modifies signer`log
    ensures |out| <= |items| && forall i :: 0 <= i < |out| ==> signer.answer(items[..i + 1]) == Ok(out[i])
    ensures error.None? <==> |out| == |items|
    ensures error.None? ==> signer.log == items
    ensures forall i :: 0 < i < |signer.log| ==> !(delay > 0 && interrupted(i))
    ensures error.Some? ==>
      || (signer.log == items[..|out|] && delay > 0 && |out| > 0 && interrupted(|out|)
          && error.value == HttpError(BatchCancelled))
      || (signer.log == items[..|out| + 1] && signer.answer(signer.log) == Err(error.value))
  {
    out := [];
    for i := 0 to |items|
      invariant |out| == i && signer.log == items[..i]
      invariant forall j :: 0 <= j < i ==> signer.answer(items[..j + 1]) == Ok(out[j])
      invariant forall j :: 0 < j < i ==> !(delay > 0 && interrupted(j))
    {
      if delay > 0 && i > 0 && interrupted(i) {
        return out, Some(HttpError(BatchCancelled));
      }
      var signed := signer.Ask(items[i]);
      assert signer.log == items[..i + 1];
      if signed.Err? {
        return out, Some(signed.error);
      }
      out := out + [signed.value];
    }
    return out, None;
  }
}
