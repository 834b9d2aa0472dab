/**
 The Rust and the Go client of Crossmint, side by side. Nothing ties their decoders together, and only the Go client
 can be interrupted: how far their runs agree is stated exactly.
 */
module CrossmintClients {
  import opened Core
  import opened Transactions
  import opened Crossmint
  import opened CrossmintGuarantees

  /** What a client makes of an answer. */
  type Decoded = Result<TransactionResponse, SignerError>

  /** The outcome and the log of a poll. */
  type Polled = (Decoded, seq<Event>)

  // ---- reading a create ----

  /** The error of a create that its caller may blindly retry. */
  predicate Retryable(created: Decoded) {
    created.Err? && !created.error.BroadcastUnconfirmed?
  }

  /** The response a client takes from a body below 400, if it takes one. */
  function Accepted(client: Client, view: View): Option<TransactionResponse> {
    if HasUsableId(client, view) then view.typed else None
  }

  /**
   Whatever the two decoders do, the clients differ on retryability exactly for a refusal whose body cannot be
   read; they accept alike exactly when their decoders agree on the body of a create answered below 400.
   */
  lemma GoAndRustReadCreatesAlike(reply: Reply, key: string)
    ensures var rust, go := ReadCreate(Rust, reply, key), ReadCreate(Go, reply, key);
      && (Retryable(rust) != Retryable(go) <==> WasRefused(reply) && reply.body.Unreadable?)
      && (Retryable(go) ==> Retryable(rust))
      && ((rust.Ok? || go.Ok? ==> rust == go) <==>
            (reply.Response? && reply.status < 400 && reply.body.Json? ==>
               Accepted(Rust, reply.body.rust) == Accepted(Go, reply.body.go)))
  {
  }

  /**
   The decoders do disagree: Go reads a body without a status as one with an empty status and goes on polling,
   where Rust, which demands the field, reports the create as unconfirmed.
   */
  lemma StatuslessCreateDivides(id: string, key: string)
    requires !Blank(id)
    ensures var go := TransactionResponse(id, InFlight(""), None, None);
      var reply := Response(201, Json(View(Text(id), false, None), View(Text(id), false, Some(go))));
      && ReadCreate(Go, reply, key) == Ok(go)
      && ReadCreate(Rust, reply, key) == Err(BroadcastUnconfirmed(Some(id), None, Some(key), None, BadJson))
  {
  }

  // ---- whole runs, with decoders that agree ----

  /** A create answered with a readable body, or below 400, and with one recovery id in both views where it failed. */
  predicate CreateReadAlike(reply: Reply) {
    reply.Response? ==>
      if reply.body.Unreadable? then reply.status < 400
      else Parse(Rust, reply).Ok? || WasRefused(reply) || IdInBody(Rust, reply.body.rust) == IdInBody(Go, reply.body.go)
  }

  /** The two decoders agree on every answer that `log` shows from `from` on. */
  predicate DecodedAlike(env: Env, log: seq<Event>, from: nat) {
    forall i :: from <= i < |log| && log[i].Sent? ==>
                  Parse(Rust, env.answer(log[..i + 1])) == Parse(Go, env.answer(log[..i + 1]))
  }

  /** The sleep at `i` is one that a cancelled context cuts short. */
  predicate CutAt(env: Env, log: seq<Event>, i: nat) {
    i < |log| && log[i].Slept? && env.interrupted(log[..i + 1])
  }

  predicate CutShort(env: Env, log: seq<Event>, from: nat) {
    exists i :: from <= i < |log| && CutAt(env, log, i)
  }

  /** Where the first cut of a Rust log is, the Go log ends. */
  predicate StopsAtFirstCut(env: Env, rust: seq<Event>, go: seq<Event>, from: nat) {
    && from < |go| < |rust| && go == rust[..|go|]
    && CutAt(env, rust, |go| - 1)
    && forall i :: from <= i < |go| - 1 ==> !CutAt(env, rust, i)
  }

  /** The Go poll is the Rust poll up to the first sleep that is cut short, and all of it exactly when none is. */
  predicate Trails(env: Env, rust: Polled,
                   go: Polled, from: nat)
  {
    if CutShort(env, rust.1, from) then
      StopsAtFirstCut(env, rust.1, go.1, from) && go.0.Err? && go.0.error.detail == PollCancelled
    else
      go == rust
  }

  /** One pass of either loop on answers read alike: the same, unless it sleeps and the sleep is cut short. */
  lemma PassesAlike(env: Env, c: Config, prim: Primitives, s: Poll)
    requires c.locator != Some([]) && s.Live? && !Settled(s)
    requires DecodedAlike(env, Advance(env, c.(client := Rust), prim, s).log, |s.log|)
    ensures var rust, go := Advance(env, c.(client := Rust), prim, s), Advance(env, c.(client := Go), prim, s);
      if |rust.log| > |s.log| && CutAt(env, rust.log, |s.log|) then
        && go == Dead(BroadcastUnconfirmed(Some(s.response.id), None, None, None, PollCancelled), s.log + [Slept])
        && |rust.log| == |s.log| + 2
      else
        go == rust && !CutShort(env, rust.log, |s.log|)
  {
    var rust := Advance(env, c.(client := Rust), prim, s);
    assert ApprovalFor(c.(client := Rust), prim, s.response) == ApprovalFor(c.(client := Go), prim, s.response);
    if |rust.log| > |s.log| {
      assert rust.log[..|s.log| + 1] == s.log + [rust.log[|s.log|]];
      var last := |rust.log| - 1;
      assert rust.log[last].Sent? && rust.log[..last + 1] == rust.log;
      assert Parse(Rust, env.answer(rust.log)) == Parse(Go, env.answer(rust.log));
    }
  }

  lemma DecodedAlikeSplits(env: Env, log: seq<Event>, longer: seq<Event>, from: nat)
    requires log <= longer && from <= |log| && DecodedAlike(env, longer, from)
    ensures DecodedAlike(env, log, from) && DecodedAlike(env, longer, |log|)
  {
    forall i | from <= i < |log| && log[i].Sent?
      ensures Parse(Rust, env.answer(log[..i + 1])) == Parse(Go, env.answer(log[..i + 1]))
    {
      assert longer[i].Sent? && log[..i + 1] == longer[..i + 1];
    }
  }

  lemma SameCuts(env: Env, log: seq<Event>, longer: seq<Event>, i: nat)
    requires log <= longer && i < |log|
    ensures CutAt(env, log, i) <==> CutAt(env, longer, i)
  {
    assert log[..i + 1] == longer[..i + 1];
  }

  /** A pass without a cut keeps the relation. */
  lemma UncutPassKeeps(env: Env, log: seq<Event>, rust: Polled,
                       go: Polled, from: nat)
    requires log <= rust.1 && from <= |log| && !CutShort(env, log, from)
    requires Trails(env, rust, go, |log|)
    ensures Trails(env, rust, go, from)
  {
    forall i | from <= i < |log|
      ensures !CutAt(env, rust.1, i)
    {
      SameCuts(env, log, rust.1, i);
    }
  }

  lemma CutPollStops(env: Env, c: Config, prim: Primitives, s: Poll, n: nat, rust: Polled)
    requires n > 0 && s.Live? && !Settled(s) && c.client.Go?
    requires Advance(env, c, prim, s)
          == Dead(BroadcastUnconfirmed(Some(s.response.id), None, None, None, PollCancelled), s.log + [Slept])
    requires s.log + [Slept] <= rust.1 && |s.log| + 1 < |rust.1| && CutAt(env, rust.1, |s.log|)
    ensures Trails(env, rust, PollFrom(env, c, prim, s, n), |s.log|)
  {
    var dead := Advance(env, c, prim, s);
    assert PollFrom(env, c, prim, s, n) == PollFrom(env, c, prim, dead, n - 1) == (Err(dead.error), dead.log);
    assert rust.1[..|s.log| + 1] == s.log + [Slept];
  }

  /**
   Against answers that the decoders read alike, and with no empty locator configured, the Go poll trails the Rust
   poll.
   */
  lemma {:induction false} GoPollTrails(env: Env, c: Config, prim: Primitives, s: Poll, n: nat)
    requires c.locator != Some([])
    requires DecodedAlike(env, PollFrom(env, c.(client := Rust), prim, s, n).1, |s.log|)
    ensures Trails(env, PollFrom(env, c.(client := Rust), prim, s, n), PollFrom(env, c.(client := Go), prim, s, n),
                   |s.log|)
    decreases n
  {
    var r, g := c.(client := Rust), c.(client := Go);
    if n > 0 && !Settled(s) {
      var next, rust := Advance(env, r, prim, s), PollFrom(env, r, prim, s, n);
      PassKeepsTrailing(env, c, prim, s, n, next, rust);
      if Advance(env, g, prim, s) == next {
        assert rust == PollFrom(env, r, prim, next, n - 1);
        GoPollTrails(env, c, prim, next, n - 1);
        UncutPassKeeps(env, next.log, rust, PollFrom(env, g, prim, next, n - 1), |s.log|);
      }
    }
  }

  /** One pass towards `GoPollTrails`: it is cut short, and the claim holds, or the two loops go on alike. */
  lemma PassKeepsTrailing(env: Env, c: Config, prim: Primitives, s: Poll, n: nat, next: Poll,
                          rust: Polled)
    requires c.locator != Some([]) && n > 0 && s.Live? && !Settled(s)
    requires next == Advance(env, c.(client := Rust), prim, s)
    requires rust == PollFrom(env, c.(client := Rust), prim, next, n - 1)
    requires DecodedAlike(env, rust.1, |s.log|)
    ensures s.log <= next.log <= rust.1 && DecodedAlike(env, rust.1, |next.log|)
    ensures if Advance(env, c.(client := Go), prim, s) == next then !CutShort(env, next.log, |s.log|)
            else Trails(env, rust, PollFrom(env, c.(client := Go), prim, s, n), |s.log|)
  {
    PassIsSmall(env, c.(client := Rust), prim, s);
    PollStaysWithinBudget(env, c.(client := Rust), prim, next, n - 1);
    DecodedAlikeSplits(env, next.log, rust.1, |s.log|);
    PassesAlike(env, c, prim, s);
    if |next.log| > |s.log| && CutAt(env, next.log, |s.log|) {
      SameCuts(env, next.log, rust.1, |s.log|);
      CutPollStops(env, c.(client := Go), prim, s, n, rust);
    }
  }

  /**
   Whole runs, against answers that the decoders read alike and with no empty locator configured: the Go client sends
   what the Rust client sends, up to the first sleep that a cancelled context cuts short, where it reports the created
   id as unconfirmed. The logs are equal exactly when no sleep is cut short, and the results then exactly when the
   create was not a failure only one of the clients can describe.
   */
  lemma GoRunTrailsRust(env: Env, c: Config, prim: Primitives, tx: Tx)
    requires c.locator != Some([])
    requires DecodedAlike(env, Execute(env, c.(client := Rust), prim, tx).log, 0)
    ensures var rust, go := Execute(env, c.(client := Rust), prim, tx), Execute(env, c.(client := Go), prim, tx);
      && go.log <= rust.log
      && (go.log == rust.log <==> !CutShort(env, rust.log, 0))
      && (go == rust <==>
            !CutShort(env, rust.log, 0) && (Handed(c, prim, tx) ==> CreateReadAlike(CreateReply(env, c, prim, tx))))
      && (CutShort(env, rust.log, 0) ==>
            && StopsAtFirstCut(env, rust.log, go.log, 0)
            && go.result.Err? && go.result.error.BroadcastUnconfirmed? && go.result.error.detail == PollCancelled)
  {
    var r, g := c.(client := Rust), c.(client := Go);
    if Handed(c, prim, tx) {
      var log, key := CreateLog(c, prim, tx, prim.encodeTx(tx).value), Key(c, prim, tx);
      var run := Execute(env, r, prim, tx);
      OneCreatePerRun(env, r, prim, tx);
      assert run.log[..1] == log;
      assert Parse(Rust, env.answer(run.log[..0 + 1])) == Parse(Go, env.answer(run.log[..0 + 1]));
      var created := ReadCreate(Rust, env.answer(log), key);
      if created.Ok? {
        var start := Live(created.value, false, log);
        assert DecodedAlike(env, PollFrom(env, r, prim, start, c.maxPollAttempts).1, 1);
        GoPollTrails(env, c, prim, start, c.maxPollAttempts);
        CutsComeAfterTheCreate(env, run.log, Execute(env, g, prim, tx).log);
      }
    }
  }

  lemma CutsComeAfterTheCreate(env: Env, rust: seq<Event>, go: seq<Event>)
    requires rust != [] && rust[0].Sent?
    ensures CutShort(env, rust, 0) <==> CutShort(env, rust, 1)
    ensures StopsAtFirstCut(env, rust, go, 1) ==> StopsAtFirstCut(env, rust, go, 0)
  {
  }

  // ---- whole runs, whatever the decoders do ----

  predicate Awaits(r: TransactionResponse, approved: bool) {
    r.status.AwaitingApproval? && !approved
  }

  /** What is left of a poll in the result of its run: the extracted signature, or the text of the failure. */
  function Concluded(prim: Primitives, polled: Decoded): Result<Signature, Detail> {
    match polled
    case Err(e) => Err(e.detail)
    case Ok(r) =>
      match Extract(prim, r)
      case Err(e) => Err(e.detail)
      case Ok(signature) => Ok(signature)
  }

  /** The conclusion of a run that ends on a decoded answer, without another event, if it does. */
  function Ending(c: Config, prim: Primitives, answer: Decoded, approved: bool, left: nat)
    : Option<Result<Signature, Detail>>
  {
    match answer
    case Err(e) => Some(Err(e.detail))
    case Ok(r) =>
      if r.status.Success? then Some(Concluded(prim, answer))
      else if r.status.Failed? then Some(Err(ProviderFailed))
      else if left == 0 then Some(Err(if Awaits(r, approved) then NeedsApproval else PollTimeout))
      else if Awaits(r, approved) && ApprovalFor(c, prim, r).Err? then Some(Err(ApprovalFor(c, prim, r).error.detail))
      else None
  }

  /**
   An answer that Rust decodes as `rust` and Go as `go` leads both to the same end, to the same approval, or through a
   sleep that is not cut short to a fetch of the same id; and so does every answer reached from there.
   */
  predicate ActAlike(env: Env, c: Config, prim: Primitives, rust: Decoded,
                     go: Decoded, approved: bool, log: seq<Event>, left: nat)
    decreases left
  {
    var r, g := c.(client := Rust), c.(client := Go);
    var one, other := Ending(r, prim, rust, approved, left), Ending(g, prim, go, approved, left);
    if one.Some? || other.Some? then one == other
    else if Awaits(rust.value, approved) || Awaits(go.value, approved) then
      && Awaits(rust.value, approved) && Awaits(go.value, approved)
      && ApprovalFor(r, prim, rust.value) == ApprovalFor(g, prim, go.value)
      && var sent := log + [Sent(ApprovalFor(r, prim, rust.value).value)];
         ActAlike(env, c, prim, Parse(Rust, env.answer(sent)), Parse(Go, env.answer(sent)), true, sent, left - 1)
    else
      && rust.value.id == go.value.id && !env.interrupted(log + [Slept])
      && var fetched := log + [Slept] + [Sent(Get(rust.value.id))];
         ActAlike(env, c, prim, Parse(Rust, env.answer(fetched)), Parse(Go, env.answer(fetched)), approved, fetched,
                  left - 1)
  }

  /** The rest of a run from a decoded answer on: its conclusion and its log. */
  function RunFrom(env: Env, c: Config, prim: Primitives, answer: Decoded, approved: bool,
                   log: seq<Event>, left: nat): (Result<Signature, Detail>, seq<Event>)
  {
    var s := match answer case Ok(r) => Live(r, approved, log) case Err(e) => Dead(e, log);
    var polled := PollFrom(env, c, prim, s, left);
    (Concluded(prim, polled.0), polled.1)
  }

  lemma RunExtends(env: Env, c: Config, prim: Primitives, answer: Decoded, approved: bool,
                   log: seq<Event>, left: nat)
    ensures log <= RunFrom(env, c, prim, answer, approved, log, left).1
  {
    var s := match answer case Ok(r) => Live(r, approved, log) case Err(e) => Dead(e, log);
    PollStaysWithinBudget(env, c, prim, s, left);
  }

  lemma RunEnds(env: Env, c: Config, prim: Primitives, answer: Decoded, approved: bool,
                log: seq<Event>, left: nat)
    requires Ending(c, prim, answer, approved, left).Some?
    ensures RunFrom(env, c, prim, answer, approved, log, left) == (Ending(c, prim, answer, approved, left).value, log)
  {
    if answer.Ok? && left > 0 && Awaits(answer.value, approved) {
      DeadPollEnds(env, c, prim, ApprovalFor(c, prim, answer.value).error, log, left - 1);
    }
  }

  lemma DeadPollEnds(env: Env, c: Config, prim: Primitives, error: SignerError, log: seq<Event>, left: nat)
    ensures PollFrom(env, c, prim, Dead(error, log), left) == (Err(error), log)
  {
  }

  /** The event that follows an answer which does not end the run. */
  function Following(c: Config, prim: Primitives, answer: Decoded, approved: bool, left: nat)
    : Event
    requires Ending(c, prim, answer, approved, left).None?
  {
    if Awaits(answer.value, approved) then Sent(ApprovalFor(c, prim, answer.value).value) else Slept
  }

  lemma RunApproves(env: Env, c: Config, prim: Primitives, r: TransactionResponse, log: seq<Event>, left: nat)
    requires Ending(c, prim, Ok(r), false, left).None? && Awaits(r, false)
    ensures var sent := log + [Sent(ApprovalFor(c, prim, r).value)];
      && RunFrom(env, c, prim, Ok(r), false, log, left)
           == RunFrom(env, c, prim, Parse(c.client, env.answer(sent)), true, sent, left - 1)
      && sent <= RunFrom(env, c, prim, Ok(r), false, log, left).1
  {
    var sent := log + [Sent(ApprovalFor(c, prim, r).value)];
    RunExtends(env, c, prim, Parse(c.client, env.answer(sent)), true, sent, left - 1);
  }

  lemma RunFetches(env: Env, c: Config, prim: Primitives, r: TransactionResponse, approved: bool, log: seq<Event>,
                   left: nat)
    requires Ending(c, prim, Ok(r), approved, left).None? && !Awaits(r, approved)
    ensures var slept := log + [Slept];
      var fetched := slept + [Sent(Get(r.id))];
      var run := RunFrom(env, c, prim, Ok(r), approved, log, left);
      if c.client.Go? && env.interrupted(slept) then run == (Err(PollCancelled), slept)
      else
        && run == RunFrom(env, c, prim, Parse(c.client, env.answer(fetched)), approved, fetched, left - 1)
        && fetched <= run.1
  {
    var slept := log + [Slept];
    var fetched := slept + [Sent(Get(r.id))];
    RunExtends(env, c, prim, Parse(c.client, env.answer(fetched)), approved, fetched, left - 1);
    DeadPollEnds(env, c, prim, BroadcastUnconfirmed(Some(r.id), None, None, None, PollCancelled), slept, left - 1);
  }

  /** A run that goes on shows its next event right after what was logged. */
  lemma RunGoesOn(env: Env, c: Config, prim: Primitives, answer: Decoded, approved: bool,
                  log: seq<Event>, left: nat)
    requires Ending(c, prim, answer, approved, left).None?
    ensures var run := RunFrom(env, c, prim, answer, approved, log, left).1;
      |run| > |log| && run[|log|] == Following(c, prim, answer, approved, left)
  {
    if Awaits(answer.value, approved) {
      RunApproves(env, c, prim, answer.value, log, left);
    } else {
      RunFetches(env, c, prim, answer.value, approved, log, left);
    }
  }

  /** The rest of a run is the same in both clients exactly when they act alike on every answer it reaches. */
  lemma {:induction false} RunsEqualIff(
      env: Env, c: Config, prim: Primitives, rust: Decoded,
      go: Decoded, approved: bool, log: seq<Event>, left: nat)
    ensures RunFrom(env, c.(client := Rust), prim, rust, approved, log, left)
              == RunFrom(env, c.(client := Go), prim, go, approved, log, left)
       <==> ActAlike(env, c, prim, rust, go, approved, log, left)
    decreases left
  {
    var r, g := c.(client := Rust), c.(client := Go);
    if Ending(r, prim, rust, approved, left).Some? || Ending(g, prim, go, approved, left).Some? {
      EndsEqualIff(env, c, prim, rust, go, approved, log, left);
    } else if Awaits(rust.value, approved) && Awaits(go.value, approved) {
      RunApproves(env, r, prim, rust.value, log, left);
      RunApproves(env, g, prim, go.value, log, left);
      RunGoesOn(env, r, prim, rust, approved, log, left);
      RunGoesOn(env, g, prim, go, approved, log, left);
      var sent := log + [Sent(ApprovalFor(r, prim, rust.value).value)];
      RunsEqualIff(env, c, prim, Parse(Rust, env.answer(sent)), Parse(Go, env.answer(sent)), true, sent, left - 1);
    } else if Awaits(rust.value, approved) || Awaits(go.value, approved) {
      RunGoesOn(env, r, prim, rust, approved, log, left);
      RunGoesOn(env, g, prim, go, approved, log, left);
    } else {
      RunFetches(env, r, prim, rust.value, approved, log, left);
      RunFetches(env, g, prim, go.value, approved, log, left);
      var fetched := log + [Slept] + [Sent(Get(rust.value.id))];
      FetchShows(log, rust.value.id, RunFrom(env, r, prim, rust, approved, log, left).1);
      if rust.value.id == go.value.id {
        var one, other := Parse(Rust, env.answer(fetched)), Parse(Go, env.answer(fetched));
        RunsEqualIff(env, c, prim, one, other, approved, fetched, left - 1);
      } else if !env.interrupted(log + [Slept]) {
        FetchShows(log, go.value.id, RunFrom(env, g, prim, go, approved, log, left).1);
      }
    }
  }

  lemma FetchShows(log: seq<Event>, id: string, longer: seq<Event>)
    requires log + [Slept] + [Sent(Get(id))] <= longer
    ensures |longer| > |log| + 1 && longer[|log| + 1] == Sent(Get(id))
  {
  }

  lemma EndsEqualIff(env: Env, c: Config, prim: Primitives, rust: Decoded,
                     go: Decoded, approved: bool, log: seq<Event>, left: nat)
    requires var r, g := c.(client := Rust), c.(client := Go);
      Ending(r, prim, rust, approved, left).Some? || Ending(g, prim, go, approved, left).Some?
    ensures var r, g := c.(client := Rust), c.(client := Go);
      RunFrom(env, r, prim, rust, approved, log, left) == RunFrom(env, g, prim, go, approved, log, left)
      <==> Ending(r, prim, rust, approved, left) == Ending(g, prim, go, approved, left)
  {
    var r, g := c.(client := Rust), c.(client := Go);
    if Ending(r, prim, rust, approved, left).Some? {
      RunEnds(env, r, prim, rust, approved, log, left);
    } else {
      RunGoesOn(env, r, prim, rust, approved, log, left);
    }
    if Ending(g, prim, go, approved, left).Some? {
      RunEnds(env, g, prim, go, approved, log, left);
    } else {
      RunGoesOn(env, g, prim, go, approved, log, left);
    }
  }

  /** The two creates were refused alike, or accepted as responses on which the clients act alike throughout. */
  predicate CreatesActAlike(env: Env, c: Config, prim: Primitives, rust: Decoded,
                            go: Decoded, log: seq<Event>)
  {
    if rust.Err? || go.Err? then rust == go
    else
      && ActAlike(env, c, prim, rust, go, false, log, c.maxPollAttempts)
      && (rust.value.id == go.value.id
          || (rust.value.status.Success? && Extract(prim, rust.value).Ok?))
  }

  /** What a run reports for its conclusion. */
  function Reported(created: TransactionResponse, key: string, run: (Result<Signature, Detail>, seq<Event>))
    : ManagedRun
  {
    ManagedRun(match run.0
               case Ok(signature) => Ok(signature)
               case Err(detail) => Err(BroadcastUnconfirmed(Some(created.id), None, Some(key), None, detail)), run.1)
  }

  lemma FinishReports(env: Env, c: Config, prim: Primitives, created: TransactionResponse, key: string, log: seq<Event>)
    ensures Finish(env, c, prim, created, key, log)
         == Reported(created, key, RunFrom(env, c, prim, Ok(created), false, log, c.maxPollAttempts))
  {
  }

  /** A create that one client accepts never ends as one that the other client does not. */
  lemma AcceptedIsNotFailed(env: Env, c: Config, prim: Primitives, created: TransactionResponse, reply: Reply,
                            client: Client, key: string, log: seq<Event>)
    requires ReadCreate(client, reply, key).Err?
    ensures Finish(env, c, prim, created, key, log) != ManagedRun(Err(ReadCreate(client, reply, key).error), log)
  {
    FinishReports(env, c, prim, created, key, log);
    if Ending(c, prim, Ok(created), false, c.maxPollAttempts).Some? {
      RunEnds(env, c, prim, Ok(created), false, log, c.maxPollAttempts);
    } else {
      RunGoesOn(env, c, prim, Ok(created), false, log, c.maxPollAttempts);
    }
  }

  /**
   The exact condition, for arbitrary decoders, providers and cancellations: the two clients send the same requests and
   return the same result exactly when they read the create alike and act alike on every answer the run reaches.
   */
  lemma GoAndRustRunAlikeIff(env: Env, c: Config, prim: Primitives, tx: Tx)
    ensures Execute(env, c.(client := Rust), prim, tx) == Execute(env, c.(client := Go), prim, tx) <==>
      (Handed(c, prim, tx) ==>
         var reply, key := CreateReply(env, c, prim, tx), Key(c, prim, tx);
         CreatesActAlike(env, c, prim, ReadCreate(Rust, reply, key), ReadCreate(Go, reply, key),
                         CreateLog(c, prim, tx, prim.encodeTx(tx).value)))
  {
    if Handed(c, prim, tx) {
      var r, g := c.(client := Rust), c.(client := Go);
      var log, key := CreateLog(c, prim, tx, prim.encodeTx(tx).value), Key(c, prim, tx);
      var reply := CreateReply(env, c, prim, tx);
      var rust, go := ReadCreate(Rust, reply, key), ReadCreate(Go, reply, key);
      if rust.Ok? && go.Ok? {
        FinishReports(env, r, prim, rust.value, key, log);
        FinishReports(env, g, prim, go.value, key, log);
        ReportsEqualIff(env, c, prim, rust.value, go.value, key, log);
      } else if rust.Ok? {
        AcceptedIsNotFailed(env, r, prim, rust.value, reply, Go, key, log);
      } else if go.Ok? {
        AcceptedIsNotFailed(env, g, prim, go.value, reply, Rust, key, log);
      }
    }
  }

  lemma ReportsEqualIff(env: Env, c: Config, prim: Primitives, rust: TransactionResponse, go: TransactionResponse,
                        key: string, log: seq<Event>)
    ensures Reported(rust, key, RunFrom(env, c.(client := Rust), prim, Ok(rust), false, log, c.maxPollAttempts))
              == Reported(go, key, RunFrom(env, c.(client := Go), prim, Ok(go), false, log, c.maxPollAttempts))
       <==> CreatesActAlike(env, c, prim, Ok(rust), Ok(go), log)
  {
    var r, g, left := c.(client := Rust), c.(client := Go), c.maxPollAttempts;
    RunsEqualIff(env, c, prim, Ok(rust), Ok(go), false, log, left);
    if ActAlike(env, c, prim, Ok(rust), Ok(go), false, log, left) && rust.id != go.id {
      assert Ending(r, prim, Ok(rust), false, left).Some?;
      RunEnds(env, r, prim, Ok(rust), false, log, left);
    }
  }
}
