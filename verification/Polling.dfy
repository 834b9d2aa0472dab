/**
 Polling engines. `poll_until` (Rust) sleeps before every attempt but the first; the Go loops sleep
 after every attempt but the last. Both are shown to be the same scan for the first decisive answer.
 */
module Polling {
  import opened Core

  /** What one attempt makes of a response. */
  datatype Attempt<+T> = Done(value: T) | Pending | Fail(error: SignerError)

  datatype Outcome<+E, +T> = Outcome(result: Result<T, SignerError>, log: seq<E>)

  /** A poll: whom to ask, how to read the answer, and the two events it leaves in the log. */
  datatype Probe<!E, !R, !T> = Probe(
    answer: seq<E> -> R, classify: R -> Attempt<T>, ask: E, pause: E, timeout: SignerError)

  function Read<E, R, T>(p: Probe<E, R, T>, log: seq<E>): Attempt<T> {
    p.classify(p.answer(log))
  }

  function Verdict<T>(a: Attempt<T>): Result<T, SignerError>
    requires !a.Pending?
  {
    if a.Done? then Ok(a.value) else Err(a.error)
  }

  /** `poll_until`, from attempt `i` on. */
  function PollUntil<E, R, T>(p: Probe<E, R, T>, log: seq<E>, i: nat, max: nat): Outcome<E, T>
    decreases max - i
  {
    if i >= max then Outcome(Err(p.timeout), log)
    else
      var asked := (if i > 0 then log + [p.pause] else log) + [p.ask];
      if Read(p, asked).Pending? then PollUntil(p, asked, i + 1, max) else Outcome(Verdict(Read(p, asked)), asked)
  }

  /** The Go loop, from attempt `i` on; a sleep may be cut short by a cancelled context. */
  function PollGo<E, R, T>(
      p: Probe<E, R, T>, interrupted: seq<E> -> bool, cancelled: SignerError, log: seq<E>, i: nat, max: nat)
    : Outcome<E, T>
    decreases max - i
  {
    if i >= max then Outcome(Err(p.timeout), log)
    else
      var asked := log + [p.ask];
      if !Read(p, asked).Pending? then Outcome(Verdict(Read(p, asked)), asked)
      else if i + 1 >= max then PollGo(p, interrupted, cancelled, asked, i + 1, max)
      else if interrupted(asked + [p.pause]) then Outcome(Err(cancelled), asked + [p.pause])
      else PollGo(p, interrupted, cancelled, asked + [p.pause], i + 1, max)
  }

  method PollUntilLoop<E, R, T>(
      channel: Channel<E, R>, classify: R -> Attempt<T>, ask: E, pause: E, timeout: SignerError, max: nat)
    returns (r: Result<T, SignerError>)
    modifies channel`log
    ensures Outcome(r, channel.log) ==
      PollUntil(Probe(channel.answer, classify, ask, pause, timeout), old(channel.log), 0, max)
  {
    ghost var p := Probe(channel.answer, classify, ask, pause, timeout);
    for i := 0 to max
      invariant PollUntil(p, old(channel.log), 0, max) == PollUntil(p, channel.log, i, max)
    {
      if i > 0 {
        channel.Note(pause);
      }
      var reply := channel.Ask(ask);
      match classify(reply)
      case Done(value) => return Ok(value);
      case Fail(error) => return Err(error);
      case Pending =>
    }
    return Err(timeout);
  }

  method PollGoLoop<E, R, T>(
      channel: Channel<E, R>, interrupted: seq<E> -> bool, cancelled: SignerError,
      classify: R -> Attempt<T>, ask: E, pause: E, timeout: SignerError, max: nat)
    returns (r: Result<T, SignerError>)
    modifies channel`log
    ensures Outcome(r, channel.log)
         == PollGo(Probe(channel.answer, classify, ask, pause, timeout), interrupted, cancelled, old(channel.log), 0,
                   max)
  {
    ghost var p := Probe(channel.answer, classify, ask, pause, timeout);
    for attempt := 0 to max
      invariant PollGo(p, interrupted, cancelled, old(channel.log), 0, max)
             == PollGo(p, interrupted, cancelled, channel.log, attempt, max)
    {
      var reply := channel.Ask(ask);
      match classify(reply)
      case Done(value) => return Ok(value);
      case Fail(error) => return Err(error);
      case Pending =>
        if attempt + 1 < max {
          channel.Note(pause);
          if interrupted(channel.log) {
            return Err(cancelled);
          }
        }
    }
    return Err(timeout);
  }

  // ---- the reference: the first decisive attempt ----

  /** The log right after attempt `k`, when all earlier attempts stayed pending. */
  function AttemptLog<E, R, T>(p: Probe<E, R, T>, log: seq<E>, k: nat): (r: seq<E>)
    ensures |r| == |log| + 2 * k + 1
    ensures r[|r| - 1] == p.ask
    ensures r[..|log|] == log
  {
    if k == 0 then log + [p.ask] else AttemptLog(p, log, k - 1) + [p.pause, p.ask]
  }

  /** Attempt `k` is the first that settles the poll. */
  predicate FirstDecisive<E, R, T>(p: Probe<E, R, T>, log: seq<E>, k: nat) {
    && !Read(p, AttemptLog(p, log, k)).Pending?
    && forall j :: 0 <= j < k ==> Read(p, AttemptLog(p, log, j)).Pending?
  }

  /** Fetches and sleeps alternate, starting and ending with a fetch. */
  lemma {:induction false} AttemptLogShape<E, R, T>(p: Probe<E, R, T>, log: seq<E>, k: nat, i: nat)
    requires i < 2 * k + 1
    ensures AttemptLog(p, log, k)[|log| + i] == if i % 2 == 0 then p.ask else p.pause
  {
    if k > 0 && i < 2 * k - 1 {
      AttemptLogShape(p, log, k - 1, i);
    }
  }

  lemma DecidedAt<E, R, T>(p: Probe<E, R, T>, log: seq<E>, k: nat, max: nat)
    requires k < max && FirstDecisive(p, log, k)
    ensures PollUntil(p, log, 0, max) == Outcome(Verdict(Read(p, AttemptLog(p, log, k))), AttemptLog(p, log, k))
  {
    PendingPrefix(p, log, k, max);
    assert k > 0 ==> AttemptLog(p, log, k) == AttemptLog(p, log, k - 1) + [p.pause] + [p.ask];
  }

  /** Every run of `poll_until` is decided by its first decisive attempt, or times out after exactly `max` of them. */
  lemma PollUntilIsFirstDecisive<E, R, T>(p: Probe<E, R, T>, log: seq<E>, max: nat)
    ensures forall k :: 0 <= k < max && FirstDecisive(p, log, k) ==>
              PollUntil(p, log, 0, max) == Outcome(Verdict(Read(p, AttemptLog(p, log, k))), AttemptLog(p, log, k))
    ensures (forall k :: 0 <= k < max ==> Read(p, AttemptLog(p, log, k)).Pending?) ==>
              PollUntil(p, log, 0, max)
                == Outcome(Err(p.timeout), if max == 0 then log else AttemptLog(p, log, max - 1))
  {
    forall k | 0 <= k < max && FirstDecisive(p, log, k)
      ensures PollUntil(p, log, 0, max) == Outcome(Verdict(Read(p, AttemptLog(p, log, k))), AttemptLog(p, log, k))
    {
      DecidedAt(p, log, k, max);
    }
    if forall k :: 0 <= k < max ==> Read(p, AttemptLog(p, log, k)).Pending? {
      PendingPrefix(p, log, max, max);
    }
  }

  /** While attempts stay pending, the run from the start continues as the run from attempt `k`. */
  lemma {:induction false} PendingPrefix<E, R, T>(p: Probe<E, R, T>, log: seq<E>, k: nat, max: nat)
    requires k <= max
    requires forall j :: 0 <= j < k ==> Read(p, AttemptLog(p, log, j)).Pending?
    ensures PollUntil(p, log, 0, max) == PollUntil(p, if k == 0 then log else AttemptLog(p, log, k - 1), k, max)
  {
    if k > 0 {
      PendingPrefix(p, log, k - 1, max);
      assert Read(p, AttemptLog(p, log, k - 1)).Pending?;
      assert k > 1 ==> AttemptLog(p, log, k - 1) == AttemptLog(p, log, k - 2) + [p.pause] + [p.ask];
    }
  }

  /** After `k` pending attempts, the next one settles the poll, uses up its budget, or is followed by another. */
  lemma EndsWhenDecided<E, R, T>(p: Probe<E, R, T>, log: seq<E>, k: nat, max: nat)
    requires k < max && forall j :: 0 <= j < k ==> Read(p, AttemptLog(p, log, j)).Pending?
    ensures var read, polled := Read(p, AttemptLog(p, log, k)), PollUntil(p, log, 0, max);
      if !read.Pending? then polled == Outcome(Verdict(read), AttemptLog(p, log, k))
      else if k == max - 1 then polled == Outcome(Err(p.timeout), AttemptLog(p, log, k))
      else |polled.log| > |AttemptLog(p, log, k)|
  {
    if !Read(p, AttemptLog(p, log, k)).Pending? {
      DecidedAt(p, log, k, max);
    } else {
      PendingPrefix(p, log, k + 1, max);
      PollAppendsProbes(p, AttemptLog(p, log, k) + [p.pause] + [p.ask], k + 2, max);
    }
  }

  /** Attempt `k` is made: none before it settled the poll. */
  predicate Reached<E, R, T>(p: Probe<E, R, T>, log: seq<E>, k: nat) {
    forall j :: 0 <= j < k ==> Read(p, AttemptLog(p, log, j)).Pending?
  }

  /** The sleep before attempt `k` is not cut short. */
  predicate SleepsThrough<E, R, T>(p: Probe<E, R, T>, interrupted: seq<E> -> bool, log: seq<E>, k: nat) {
    k > 0 ==> !interrupted(AttemptLog(p, log, k - 1) + [p.pause])
  }

  /** The sleep before attempt `k` is the first that is cut short. */
  predicate CutsFirst<E, R, T>(p: Probe<E, R, T>, interrupted: seq<E> -> bool, log: seq<E>, k: nat) {
    && Reached(p, log, k) && !SleepsThrough(p, interrupted, log, k)
    && forall j :: 0 <= j < k ==> SleepsThrough(p, interrupted, log, j)
  }

  /** While attempts stay pending and sleeps are not cut short, the Go run continues as the run from attempt `k`. */
  lemma {:induction false} GoPendingPrefix<E, R, T>(
      p: Probe<E, R, T>, interrupted: seq<E> -> bool, cancelled: SignerError, log: seq<E>, k: nat, max: nat)
    requires k < max && Reached(p, log, k)
    requires forall j :: 0 <= j <= k ==> SleepsThrough(p, interrupted, log, j)
    ensures PollGo(p, interrupted, cancelled, log, 0, max)
         == PollGo(p, interrupted, cancelled, if k == 0 then log else AttemptLog(p, log, k - 1) + [p.pause], k, max)
  {
    if k > 0 {
      GoPendingPrefix(p, interrupted, cancelled, log, k - 1, max);
      assert Read(p, AttemptLog(p, log, k - 1)).Pending? && SleepsThrough(p, interrupted, log, k);
      assert k > 1 ==> AttemptLog(p, log, k - 1) == AttemptLog(p, log, k - 2) + [p.pause] + [p.ask];
    }
  }

  /** After `k` pending attempts and uncut sleeps the next attempt settles the Go poll, or uses up its budget. */
  lemma GoEndsWhenDecided<E, R, T>(
      p: Probe<E, R, T>, interrupted: seq<E> -> bool, cancelled: SignerError, log: seq<E>, k: nat, max: nat)
    requires k < max && Reached(p, log, k)
    requires forall j :: 0 <= j <= k ==> SleepsThrough(p, interrupted, log, j)
    requires !Read(p, AttemptLog(p, log, k)).Pending? || k == max - 1
    ensures PollGo(p, interrupted, cancelled, log, 0, max) == PollUntil(p, log, 0, max)
  {
    GoPendingPrefix(p, interrupted, cancelled, log, k, max);
    assert k > 0 ==> AttemptLog(p, log, k) == AttemptLog(p, log, k - 1) + [p.pause] + [p.ask];
    EndsWhenDecided(p, log, k, max);
  }

  /** The first sleep that is cut short ends the Go poll there. */
  lemma GoStopsWhenCut<E, R, T>(
      p: Probe<E, R, T>, interrupted: seq<E> -> bool, cancelled: SignerError, log: seq<E>, k: nat, max: nat)
    requires 0 < k < max && CutsFirst(p, interrupted, log, k)
    ensures PollGo(p, interrupted, cancelled, log, 0, max)
         == Outcome(Err(cancelled), AttemptLog(p, log, k - 1) + [p.pause])
  {
    GoPendingPrefix(p, interrupted, cancelled, log, k - 1, max);
    assert Read(p, AttemptLog(p, log, k - 1)).Pending?;
    assert k > 1 ==> AttemptLog(p, log, k - 1) == AttemptLog(p, log, k - 2) + [p.pause] + [p.ask];
  }

  /** No sleep of the poll is cut short. */
  predicate NeverCut<E, R, T>(p: Probe<E, R, T>, interrupted: seq<E> -> bool, log: seq<E>, max: nat) {
    forall k :: 0 <= k < max && Reached(p, log, k) ==> SleepsThrough(p, interrupted, log, k)
  }

  lemma FirstCut<E, R, T>(p: Probe<E, R, T>, interrupted: seq<E> -> bool, log: seq<E>, max: nat) returns (k: nat)
    requires !NeverCut(p, interrupted, log, max)
    ensures 0 < k < max && CutsFirst(p, interrupted, log, k)
  {
    k :| 0 <= k < max && Reached(p, log, k) && !SleepsThrough(p, interrupted, log, k);
    while exists j :: 0 <= j < k && !SleepsThrough(p, interrupted, log, j)
      invariant 0 < k < max && Reached(p, log, k) && !SleepsThrough(p, interrupted, log, k)
      decreases k
    {
      var j :| 0 <= j < k && !SleepsThrough(p, interrupted, log, j);
      k := j;
    }
  }

  /** The attempt that ends `poll_until`: the first decisive one, or the last of the budget. */
  lemma LastAttempt<E, R, T>(p: Probe<E, R, T>, log: seq<E>, max: nat) returns (k: nat)
    requires max > 0
    ensures k < max && Reached(p, log, k) && (!Read(p, AttemptLog(p, log, k)).Pending? || k == max - 1)
    ensures PollUntil(p, log, 0, max).log == AttemptLog(p, log, k)
  {
    k := 0;
    while k < max - 1 && Read(p, AttemptLog(p, log, k)).Pending?
      invariant k < max && Reached(p, log, k)
    {
      k := k + 1;
    }
    EndsWhenDecided(p, log, k, max);
  }

  /**
   The Go loop is `poll_until`, event for event, exactly when no sleep of the poll is cut short; otherwise it ends on
   the first cut sleep with the cancellation.
   */
  lemma GoAgrees<E, R, T>(
      p: Probe<E, R, T>, interrupted: seq<E> -> bool, cancelled: SignerError, log: seq<E>, max: nat)
    ensures var go := PollGo(p, interrupted, cancelled, log, 0, max);
      if NeverCut(p, interrupted, log, max) then go == PollUntil(p, log, 0, max)
      else
        && go.result == Err(cancelled)
        && exists k :: 0 < k < max && CutsFirst(p, interrupted, log, k)
                       && go.log == AttemptLog(p, log, k - 1) + [p.pause]
  {
    if !NeverCut(p, interrupted, log, max) {
      var k := FirstCut(p, interrupted, log, max);
      GoStopsWhenCut(p, interrupted, cancelled, log, k, max);
    } else if max > 0 {
      var k := LastAttempt(p, log, max);
      forall j | 0 <= j <= k
        ensures SleepsThrough(p, interrupted, log, j)
      {
        assert Reached(p, log, j);
      }
      GoEndsWhenDecided(p, interrupted, cancelled, log, k, max);
    }
  }

  lemma FirstDecisiveUnique<E, R, T>(p: Probe<E, R, T>, log: seq<E>, j: nat, k: nat)
    requires FirstDecisive(p, log, j) && FirstDecisive(p, log, k)
    ensures j == k
  {
  }

  lemma LeastDecisive<E, R, T>(p: Probe<E, R, T>, log: seq<E>, max: nat) returns (k: nat)
    requires exists k :: 0 <= k < max && !Read(p, AttemptLog(p, log, k)).Pending?
    ensures k < max && FirstDecisive(p, log, k)
  {
    k := 0;
    while Read(p, AttemptLog(p, log, k)).Pending?
      invariant k < max
      invariant forall j :: 0 <= j < k ==> Read(p, AttemptLog(p, log, j)).Pending?
      invariant exists k' :: k <= k' < max && !Read(p, AttemptLog(p, log, k')).Pending?
      decreases max - k
    {
      k := k + 1;
    }
  }

  /** Polling appends fetches and sleeps, nothing else. */
  lemma {:induction false} PollAppendsProbes<E, R, T>(p: Probe<E, R, T>, log: seq<E>, i: nat, max: nat)
    ensures log <= PollUntil(p, log, i, max).log
    ensures forall j :: |log| <= j < |PollUntil(p, log, i, max).log| ==>
              PollUntil(p, log, i, max).log[j] == p.ask || PollUntil(p, log, i, max).log[j] == p.pause
    decreases max - i
  {
    if i < max {
      var asked := (if i > 0 then log + [p.pause] else log) + [p.ask];
      PollAppendsProbes(p, asked, i + 1, max);
    }
  }

  /** A successful poll ends on a fetch whose answer was read as done. */
  lemma OkComesFromDone<E, R, T>(p: Probe<E, R, T>, log: seq<E>, max: nat) returns (k: nat)
    requires PollUntil(p, log, 0, max).result.Ok?
    ensures k < max && FirstDecisive(p, log, k)
    ensures Read(p, AttemptLog(p, log, k)) == Done(PollUntil(p, log, 0, max).result.value)
    ensures PollUntil(p, log, 0, max).log == AttemptLog(p, log, k)
  {
    PollUntilIsFirstDecisive(p, log, max);
    k := LeastDecisive(p, log, max);
  }

  /** A failed poll either ran out of attempts or reports the failure one of its answers was read as. */
  lemma {:induction false} ErrComesFromAnAttempt<E, R, T>(p: Probe<E, R, T>, log: seq<E>, i: nat, max: nat)
    requires PollUntil(p, log, i, max).result.Err?
    ensures var e := PollUntil(p, log, i, max).result.error;
      e == p.timeout || exists l :: Read(p, l) == Fail(e)
    decreases max - i
  {
    if i < max {
      var asked := (if i > 0 then log + [p.pause] else log) + [p.ask];
      if Read(p, asked).Pending? {
        ErrComesFromAnAttempt(p, asked, i + 1, max);
      } else {
        assert Read(p, asked) == Fail(PollUntil(p, log, i, max).result.error);
      }
    }
  }

  // ---- two probes of one stream ----

  lemma {:induction false} SameAttempts<E, R, T>(p: Probe<E, R, T>, q: Probe<E, R, T>, log: seq<E>, k: nat)
    requires p.ask == q.ask && p.pause == q.pause
    ensures AttemptLog(p, log, k) == AttemptLog(q, log, k)
  {
    if k > 0 {
      SameAttempts(p, q, log, k - 1);
    }
  }

  /** Two probes with the same events and the same timeout, which no answer is read as. */
  ghost predicate Comparable<E, R, T>(p: Probe<E, R, T>, q: Probe<E, R, T>, log: seq<E>, max: nat) {
    && p.ask == q.ask && p.pause == q.pause && p.timeout == q.timeout
    && forall k :: 0 <= k < max ==>
         && Read(p, AttemptLog(p, log, k)) != Fail(p.timeout)
         && Read(q, AttemptLog(p, log, k)) != Fail(p.timeout)
  }

  ghost predicate ReadAlikeAt<E, R, T>(p: Probe<E, R, T>, q: Probe<E, R, T>, log: seq<E>, k: nat) {
    Read(p, AttemptLog(p, log, k)) == Read(q, AttemptLog(p, log, k))
  }

  /** The first attempt that two probes read differently sets their runs apart. */
  lemma DivergesAt<E, R, T>(p: Probe<E, R, T>, q: Probe<E, R, T>, log: seq<E>, k: nat, max: nat)
    requires k < max && Comparable(p, q, log, max) && Reached(p, log, k) && Reached(q, log, k)
    requires !ReadAlikeAt(p, q, log, k)
    ensures PollUntil(p, log, 0, max) != PollUntil(q, log, 0, max)
  {
    SameAttempts(p, q, log, k);
    EndsWhenDecided(p, log, k, max);
    EndsWhenDecided(q, log, k, max);
  }

  lemma {:induction false} EqualRunsReadAlike<E, R, T>(
      p: Probe<E, R, T>, q: Probe<E, R, T>, log: seq<E>, k: nat, max: nat)
    requires k < max && Comparable(p, q, log, max) && Reached(p, log, k)
    requires PollUntil(p, log, 0, max) == PollUntil(q, log, 0, max)
    ensures Reached(q, log, k) && ReadAlikeAt(p, q, log, k)
  {
    SameAttempts(p, q, log, k);
    if k > 0 {
      SameAttempts(p, q, log, k - 1);
      EqualRunsReadAlike(p, q, log, k - 1, max);
    }
    if !ReadAlikeAt(p, q, log, k) {
      DivergesAt(p, q, log, k, max);
    }
  }

  lemma {:induction false} AlikeStaysReached<E, R, T>(p: Probe<E, R, T>, q: Probe<E, R, T>, log: seq<E>, k: nat)
    requires p.ask == q.ask && p.pause == q.pause && Reached(p, log, k)
    requires forall j :: 0 <= j < k ==> ReadAlikeAt(p, q, log, j)
    ensures Reached(q, log, k)
  {
    if k > 0 {
      assert ReadAlikeAt(p, q, log, k - 1);
      SameAttempts(p, q, log, k - 1);
      AlikeStaysReached(p, q, log, k - 1);
    }
  }

  lemma AlikeRunsEqual<E, R, T>(p: Probe<E, R, T>, q: Probe<E, R, T>, log: seq<E>, max: nat)
    requires p.ask == q.ask && p.pause == q.pause && p.timeout == q.timeout
    requires forall k :: 0 <= k < max && Reached(p, log, k) ==> ReadAlikeAt(p, q, log, k)
    ensures PollUntil(p, log, 0, max) == PollUntil(q, log, 0, max)
  {
    var k: nat := 0;
    while k < max && Read(p, AttemptLog(p, log, k)).Pending?
      invariant k <= max && Reached(p, log, k)
    {
      k := k + 1;
    }
    if 0 < max {
      var last := if k < max then k else max - 1;
      forall j | 0 <= j <= last
        ensures ReadAlikeAt(p, q, log, j)
      {
        assert Reached(p, log, j);
      }
      assert ReadAlikeAt(p, q, log, last);
      AlikeStaysReached(p, q, log, last);
      SameAttempts(p, q, log, last);
      EndsWhenDecided(p, log, last, max);
      EndsWhenDecided(q, log, last, max);
    }
  }

  /** Two comparable probes run alike exactly when they read alike every answer that is reached. */
  lemma EqualRunsIffReadAlike<E, R, T>(p: Probe<E, R, T>, q: Probe<E, R, T>, log: seq<E>, max: nat)
    requires Comparable(p, q, log, max)
    ensures PollUntil(p, log, 0, max) == PollUntil(q, log, 0, max) <==>
            forall k :: 0 <= k < max && Reached(p, log, k) ==> ReadAlikeAt(p, q, log, k)
  {
    if PollUntil(p, log, 0, max) == PollUntil(q, log, 0, max) {
      forall k | 0 <= k < max && Reached(p, log, k)
        ensures ReadAlikeAt(p, q, log, k)
      {
        EqualRunsReadAlike(p, q, log, k, max);
      }
    }
    if forall k :: 0 <= k < max && Reached(p, log, k) ==> ReadAlikeAt(p, q, log, k) {
      AlikeRunsEqual(p, q, log, max);
    }
  }

  /** Runs that are equal are cut short alike. */
  lemma EqualRunsCutAlike<E, R, T>(
      p: Probe<E, R, T>, q: Probe<E, R, T>, interrupted: seq<E> -> bool, log: seq<E>, max: nat)
    requires Comparable(p, q, log, max) && PollUntil(p, log, 0, max) == PollUntil(q, log, 0, max)
    ensures NeverCut(p, interrupted, log, max) <==> NeverCut(q, interrupted, log, max)
  {
    forall k | 0 <= k < max
      ensures Reached(p, log, k) <==> Reached(q, log, k)
      ensures SleepsThrough(p, interrupted, log, k) <==> SleepsThrough(q, interrupted, log, k)
    {
      if k > 0 {
        SameAttempts(p, q, log, k - 1);
      }
      forall j | 0 <= j < max
        ensures AttemptLog(p, log, j) == AttemptLog(q, log, j)
      {
        SameAttempts(p, q, log, j);
      }
      if Reached(p, log, k) {
        EqualRunsReadAlike(p, q, log, k, max);
      }
      if Reached(q, log, k) {
        EqualRunsReadAlike(q, p, log, k, max);
      }
    }
  }

  /** `poll_until` ends on a fetch, an odd number of events after it began, or makes none. */
  lemma UncutLogsAreOdd<E, R, T>(p: Probe<E, R, T>, log: seq<E>, max: nat)
    ensures max == 0 || (|PollUntil(p, log, 0, max).log| - |log|) % 2 == 1
  {
    if max > 0 {
      var _ := LastAttempt(p, log, max);
    }
  }

  /**
   The Go loop on one probe and `poll_until` on another run alike exactly when, at every attempt that `poll_until`
   reaches, the sleep before it is not cut short and the two probes read its answer alike.
   */
  lemma GoRunEqualsIff<E, R, T>(
      p: Probe<E, R, T>, q: Probe<E, R, T>, interrupted: seq<E> -> bool, cancelled: SignerError, log: seq<E>, max: nat)
    requires Comparable(p, q, log, max)
    ensures PollUntil(p, log, 0, max) == PollGo(q, interrupted, cancelled, log, 0, max) <==>
            forall k :: 0 <= k < max && Reached(p, log, k) ==>
                          SleepsThrough(p, interrupted, log, k) && ReadAlikeAt(p, q, log, k)
  {
    GoAgrees(q, interrupted, cancelled, log, max);
    EqualRunsIffReadAlike(p, q, log, max);
    if PollUntil(p, log, 0, max) == PollUntil(q, log, 0, max) {
      EqualRunsCutAlike(p, q, interrupted, log, max);
    }
    if !NeverCut(q, interrupted, log, max) {
      UncutLogsAreOdd(p, log, max);
    }
  }
}
