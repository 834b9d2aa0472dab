/**
 What every run of the Crossmint client keeps, against any provider and any cancellation.
 */
module CrossmintGuarantees {
  import opened Core
  import opened Transactions
  import opened Idempotency
  import opened PendingSlot
  import opened Crossmint

  // ---- the poll loop is a scan for the first terminal response ----

  lemma {:induction false} PollReadsAt(env: Env, c: Config, prim: Primitives, s: Poll, n: nat)
    ensures PollFrom(env, c, prim, s, n) == (FinalCheck(At(env, c, prim, s, n)), At(env, c, prim, s, n).log)
    decreases n
  {
    if n > 0 && !Settled(s) {
      PollReadsAt(env, c, prim, Advance(env, c, prim, s), n - 1);
    }
  }

  lemma {:induction false} SettledStays(env: Env, c: Config, prim: Primitives, s: Poll, k: nat, n: nat)
    requires k <= n && Settled(At(env, c, prim, s, k))
    ensures At(env, c, prim, s, n) == At(env, c, prim, s, k)
    decreases k
  {
    if k > 0 && !Settled(s) {
      SettledStays(env, c, prim, Advance(env, c, prim, s), k - 1, n - 1);
    }
  }

  /** Pass `k` is the first whose response is terminal (or whose request failed). */
  predicate FirstSettled(env: Env, c: Config, prim: Primitives, s: Poll, k: nat) {
    && Settled(At(env, c, prim, s, k))
    && forall j :: 0 <= j < k ==> !Settled(At(env, c, prim, s, j))
  }

  /** What a settled poll says: its failure, the successful response, or that the transaction failed. */
  predicate Says(s: Poll, r: Result<TransactionResponse, SignerError>) {
    match s
    case Dead(error, _) => r == Err(error)
    case Live(response, _, _) =>
      || (response.status == Success && r == Ok(response))
      || (response.status == Failed && r == Err(SigningFailed(ProviderFailed)))
  }

  /**
   The loop with its final check is decided by the first terminal response among the first `n + 1`, if there is one;
   otherwise it reports the approval it could not give, or a timeout.
   */
  lemma PollIsFirstTerminal(env: Env, c: Config, prim: Primitives, s: Poll, n: nat)
    ensures forall k :: 0 <= k <= n && FirstSettled(env, c, prim, s, k) ==>
              && Says(At(env, c, prim, s, k), PollFrom(env, c, prim, s, n).0)
              && PollFrom(env, c, prim, s, n).1 == At(env, c, prim, s, k).log
    ensures (forall k :: 0 <= k <= n ==> !Settled(At(env, c, prim, s, k))) ==>
              var last := At(env, c, prim, s, n);
              && last.Live? && last.response.status != Success && last.response.status != Failed
              && PollFrom(env, c, prim, s, n).0
                   == Err(if last.response.status == AwaitingApproval && !last.approved
                          then SigningFailed(NeedsApproval) else RemoteApiError(PollTimeout, None))
              && PollFrom(env, c, prim, s, n).1 == last.log
  {
    PollReadsAt(env, c, prim, s, n);
    forall k | 0 <= k <= n && FirstSettled(env, c, prim, s, k)
      ensures Says(At(env, c, prim, s, k), PollFrom(env, c, prim, s, n).0)
      ensures PollFrom(env, c, prim, s, n).1 == At(env, c, prim, s, k).log
    {
      SettledStays(env, c, prim, s, k, n);
    }
  }

  /** A success found within a budget is the success found, through the same events, within any larger one. */
  lemma OkIsStable(env: Env, c: Config, prim: Primitives, s: Poll, n: nat, m: nat)
    requires n <= m && PollFrom(env, c, prim, s, n).0.Ok?
    ensures PollFrom(env, c, prim, s, m) == PollFrom(env, c, prim, s, n)
  {
    PollReadsAt(env, c, prim, s, n);
    PollReadsAt(env, c, prim, s, m);
    SettledStays(env, c, prim, s, n, m);
  }

  // ---- how an answer is read ----

  /** The body names a usable id: present, not blank, and for Go not null. */
  predicate NamesAnId(client: Client, id: Field) {
    id != Missing && (id.Text? ==> exists i :: 0 <= i < |id.text| && !IsSpace(id.text[i]))
    && !(client == Go && id == Null)
  }

  /**
   An answer is taken exactly when its status is below 400 and the client's view of its body names an id and has a
   typed form; every other answer fails with the reason told here.
   */
  lemma AnswerIsTakenIff(client: Client, status: nat, body: Body)
    ensures var read := Parse(client, Response(status, body));
      if body == Unreadable then read == Err(HttpError(BodyUnreadable))
      else
        var view := if client == Rust then body.rust else body.go;
        if status >= 400 then read == Err(RemoteApiError(RemoteMessage, None))
        else if !NamesAnId(client, view.id) then
          read == Err(if view.namesError then RemoteApiError(RemoteMessage, None) else SerializationError(MissingField))
        else if view.typed == None then read == Err(SerializationError(BadJson))
        else read == Ok(view.typed.value)
    ensures Parse(client, TransportFailure) == Err(HttpError(TransportFailed))
  {
  }

  // ---- what the loop sends ----

  function Requests(log: seq<Event>): nat {
    if log == [] then 0 else Requests(log[..|log| - 1]) + if log[|log| - 1].Sent? then 1 else 0
  }

  predicate IsApproval(e: Event) {
    e.Sent? && e.request.Approve?
  }

  function Approvals(log: seq<Event>): nat {
    if log == [] then 0 else Approvals(log[..|log| - 1]) + if IsApproval(log[|log| - 1]) then 1 else 0
  }

  predicate IsCreate(e: Event) {
    e.Sent? && e.request.Create?
  }

  /** Every event from `from` on is a sleep, a fetch or an approval. */
  predicate NoCreateFrom(log: seq<Event>, from: nat) {
    forall i :: from <= i < |log| ==> !IsCreate(log[i])
  }

  lemma CountsOfOneMore(log: seq<Event>, e: Event)
    ensures Requests(log + [e]) == Requests(log) + if e.Sent? then 1 else 0
    ensures Approvals(log + [e]) == Approvals(log) + if IsApproval(e) then 1 else 0
  {
    assert (log + [e])[..|log|] == log;
  }

  /** `log` is `before` and a few more events, none of them a create. */
  predicate Extends(log: seq<Event>, before: seq<Event>) {
    before <= log && NoCreateFrom(log, |before|)
  }

  lemma ExtendsIsTransitive(a: seq<Event>, b: seq<Event>, c: seq<Event>)
    requires Extends(b, a) && Extends(c, b)
    ensures Extends(c, a)
  {
    assert forall i :: |a| <= i < |b| ==> c[i] == b[i];
  }

  lemma ApprovalPassIsSmall(env: Env, c: Config, prim: Primitives, s: Poll)
    requires s.Live? && s.response.status.AwaitingApproval? && !s.approved
    ensures var t := Advance(env, c, prim, s);
      && Extends(t.log, s.log)
      && Requests(t.log) <= Requests(s.log) + 1
      && Approvals(t.log) <= Approvals(s.log) + 1
      && (t.Live? ==> t.approved)
  {
    var request := ApprovalFor(c, prim, s.response);
    if request.Ok? {
      CountsOfOneMore(s.log, Sent(request.value));
    }
  }

  lemma FetchPassIsSmall(env: Env, c: Config, prim: Primitives, s: Poll)
    requires s.Live? && !Settled(s) && !(s.response.status.AwaitingApproval? && !s.approved)
    ensures var t := Advance(env, c, prim, s);
      && Extends(t.log, s.log)
      && Requests(t.log) <= Requests(s.log) + 1
      && Approvals(t.log) == Approvals(s.log)
      && (t.Live? ==> t.approved == s.approved)
      && (forall i :: |s.log| <= i < |t.log| ==> !IsApproval(t.log[i]))
  {
    QuietEvents(s.log, s.response.id);
  }

  lemma QuietEvents(log: seq<Event>, id: string)
    ensures var slept := log + [Slept];
      Requests(slept) == Requests(log) && Approvals(slept) == Approvals(log) && Extends(slept, log)
    ensures var fetched := log + [Slept] + [Sent(Get(id))];
      Requests(fetched) == Requests(log) + 1 && Approvals(fetched) == Approvals(log) && Extends(fetched, log)
  {
    CountsOfOneMore(log, Slept);
    CountsOfOneMore(log + [Slept], Sent(Get(id)));
  }

  /** One pass appends at most one request, an approval only when none was sent before, and never a create. */
  lemma PassIsSmall(env: Env, c: Config, prim: Primitives, s: Poll)
    requires s.Live? && !Settled(s)
    ensures var t := Advance(env, c, prim, s);
      && Extends(t.log, s.log)
      && Requests(t.log) <= Requests(s.log) + 1
      && Approvals(t.log) + (if t.Live? && !t.approved then 1 else 0)
           <= Approvals(s.log) + (if s.approved then 0 else 1)
  {
    if s.response.status.AwaitingApproval? && !s.approved {
      ApprovalPassIsSmall(env, c, prim, s);
    } else {
      FetchPassIsSmall(env, c, prim, s);
    }
  }

  /** A poll with budget `n` makes at most `n` requests, at most one approval, and no create. */
  lemma {:induction false} PollStaysWithinBudget(env: Env, c: Config, prim: Primitives, s: Poll, n: nat)
    ensures var log := PollFrom(env, c, prim, s, n).1;
      && Extends(log, s.log)
      && Requests(log) <= Requests(s.log) + n
      && Approvals(log) <= Approvals(s.log) + (if s.Live? && !s.approved then 1 else 0)
    decreases n
  {
    if n > 0 && !Settled(s) {
      var next := Advance(env, c, prim, s);
      PassIsSmall(env, c, prim, s);
      PollStaysWithinBudget(env, c, prim, next, n - 1);
      ExtendsIsTransitive(s.log, next.log, PollFrom(env, c, prim, next, n - 1).1);
    }
  }

  /**
   The event at `t` is the approval that answers the challenge of response `r`: its first entry for our
   locator, and that entry's message.
   */
  ghost predicate AnswersOurChallenge(c: Config, prim: Primitives, r: TransactionResponse, e: Event) {
    && IsApproval(e)
    && c.locator.Some? && c.signingKey.Some? && r.approvals.Some?
    && e.request.id == r.id
    && e.request.locator == c.locator.value
    && exists i: nat :: OurEntry(r.approvals.value, c.locator.value, i)
         && r.approvals.value[i].message.Some?
         && prim.base58(r.approvals.value[i].message.value).Some?
         && e.request.signature == prim.sign(c.signingKey.value, prim.base58(r.approvals.value[i].message.value).value)
  }

  lemma ApprovalIsOurs(c: Config, prim: Primitives, r: TransactionResponse)
    requires ApprovalFor(c, prim, r).Ok?
    ensures AnswersOurChallenge(c, prim, r, Sent(ApprovalFor(c, prim, r).value))
  {
    var i := FindEntry(r.approvals.value, c.locator.value).value;
    assert OurEntry(r.approvals.value, c.locator.value, i);
  }

  /** The approval at index `t` was sent for the response that pass `k` looked at, and answers its challenge. */
  ghost predicate SentForPass(env: Env, c: Config, prim: Primitives, s: Poll, k: nat, t: nat, e: Event) {
    var a := At(env, c, prim, s, k);
    && a.Live? && |a.log| == t && a.response.status.AwaitingApproval? && !a.approved
    && AnswersOurChallenge(c, prim, a.response, e)
  }

  lemma ApprovalInPass(env: Env, c: Config, prim: Primitives, s: Poll, t: nat)
    requires s.Live? && !Settled(s)
    requires |s.log| <= t < |Advance(env, c, prim, s).log| && IsApproval(Advance(env, c, prim, s).log[t])
    ensures SentForPass(env, c, prim, s, 0, t, Advance(env, c, prim, s).log[t])
  {
    if s.response.status.AwaitingApproval? && !s.approved {
      ApprovalIsOurs(c, prim, s.response);
    } else {
      FetchPassIsSmall(env, c, prim, s);
    }
  }

  /** Every approval of a poll answers the challenge of the response it was sent for. */
  lemma {:induction false} ApprovalsAnswerOurChallenge(env: Env, c: Config, prim: Primitives, s: Poll, n: nat, t: nat)
    requires |s.log| <= t < |PollFrom(env, c, prim, s, n).1| && IsApproval(PollFrom(env, c, prim, s, n).1[t])
    ensures exists k :: 0 <= k < n && SentForPass(env, c, prim, s, k, t, PollFrom(env, c, prim, s, n).1[t])
    decreases n
  {
    var next := Advance(env, c, prim, s);
    var log := PollFrom(env, c, prim, next, n - 1).1;
    PassIsSmall(env, c, prim, s);
    PollStaysWithinBudget(env, c, prim, next, n - 1);
    if t < |next.log| {
      ApprovalInPass(env, c, prim, s, t);
      assert SentForPass(env, c, prim, s, 0, t, log[t]);
    } else {
      ApprovalsAnswerOurChallenge(env, c, prim, next, n - 1, t);
      var k :| 0 <= k < n - 1 && SentForPass(env, c, prim, next, k, t, log[t]);
      assert SentForPass(env, c, prim, s, k + 1, t, log[t]);
    }
  }

  lemma FoundIsFirst(entries: seq<PendingApproval>, locator: Bytes, i: nat)
    requires OurEntry(entries, locator, i)
    ensures FindEntry(entries, locator) == Some(i)
  {
    assert FindEntry(entries, locator).Some?;
  }

  /**
   A poll that awaits our approval and can give it does: with a key, a locator (for Go not empty) and a decodable
   message in the first entry for that locator, its next event is the approval that signs that message.
   */
  lemma ApprovalIsGiven(env: Env, c: Config, prim: Primitives, s: Poll, n: nat, entries: seq<PendingApproval>, i: nat,
                        locator: Bytes, text: string, challenge: Bytes, key: Bytes)
    requires n > 0 && s.Live? && s.response.status == AwaitingApproval && !s.approved
    requires c.signingKey == Some(key) && c.locator == Some(locator) && !(c.client == Go && locator == [])
    requires s.response.approvals == Some(entries) && OurEntry(entries, locator, i)
    requires entries[i].message == Some(text) && prim.base58(text) == Some(challenge)
    ensures var log := PollFrom(env, c, prim, s, n).1;
      |log| > |s.log| && log[|s.log|] == Sent(Approve(s.response.id, locator, prim.sign(key, challenge)))
  {
    FoundIsFirst(entries, locator, i);
    var next := Advance(env, c, prim, s);
    assert next.log == s.log + [Sent(Approve(s.response.id, locator, prim.sign(key, challenge)))];
    PollStaysWithinBudget(env, c, prim, next, n - 1);
  }

  /** A poll that awaits our approval and cannot give it ends there, and says why. */
  lemma ApprovalIsRefused(env: Env, c: Config, prim: Primitives, s: Poll, n: nat)
    requires n > 0 && s.Live? && s.response.status == AwaitingApproval && !s.approved
    ensures c.signingKey == None || c.locator == None || (c.client == Go && c.locator == Some([]))
            || s.response.approvals == None
            || (forall j :: 0 <= j < |s.response.approvals.value| ==>
                              s.response.approvals.value[j].locator != c.locator)
            ==> PollFrom(env, c, prim, s, n) == (Err(SigningFailed(NeedsApproval)), s.log)
    ensures forall i :: && s.response.approvals.Some? && c.locator.Some? && c.signingKey.Some?
                        && !(c.client == Go && c.locator == Some([]))
                        && 0 <= i && OurEntry(s.response.approvals.value, c.locator.value, i) ==>
              var message := s.response.approvals.value[i].message;
              && (message == None ==> PollFrom(env, c, prim, s, n) == (Err(SigningFailed(NoPendingMessage)), s.log))
              && (message.Some? && prim.base58(message.value) == None ==>
                    PollFrom(env, c, prim, s, n) == (Err(SigningFailed(BadBase58)), s.log))
  {
    var approval := ApprovalFor(c, prim, s.response);
    if approval.Err? {
      assert Advance(env, c, prim, s) == Dead(approval.error, s.log);
      assert PollFrom(env, c, prim, Dead(approval.error, s.log), n - 1) == (Err(approval.error), s.log);
    }
    forall i: nat | s.response.approvals.Some? && c.locator.Some?
                    && OurEntry(s.response.approvals.value, c.locator.value, i)
      ensures FindEntry(s.response.approvals.value, c.locator.value) == Some(i)
    {
      FoundIsFirst(s.response.approvals.value, c.locator.value, i);
    }
  }

  /** The fetch at index `t` was made, after a sleep, for the id that the response of pass `k` carried. */
  ghost predicate FetchedForPass(env: Env, c: Config, prim: Primitives, s: Poll, k: nat, t: nat, log: seq<Event>) {
    var a := At(env, c, prim, s, k);
    a.Live? && 0 < t < |log| && |a.log| == t - 1 && log[t - 1].Slept? && log[t] == Sent(Get(a.response.id))
  }

  predicate IsFetch(e: Event) {
    e.Sent? && e.request.Get?
  }

  lemma FetchInPass(env: Env, c: Config, prim: Primitives, s: Poll, t: nat)
    requires s.Live? && !Settled(s)
    requires |s.log| <= t < |Advance(env, c, prim, s).log| && IsFetch(Advance(env, c, prim, s).log[t])
    ensures FetchedForPass(env, c, prim, s, 0, t, Advance(env, c, prim, s).log)
  {
    if s.response.status.AwaitingApproval? && !s.approved {
      ApprovalIsOurs(c, prim, s.response);
    }
  }

  /** Every fetch of a poll follows a sleep and asks for the id of the latest response, whatever id that is. */
  lemma {:induction false} FetchesFollowTheResponse(env: Env, c: Config, prim: Primitives, s: Poll, n: nat, t: nat)
    requires |s.log| <= t < |PollFrom(env, c, prim, s, n).1| && IsFetch(PollFrom(env, c, prim, s, n).1[t])
    ensures exists k :: 0 <= k < n && FetchedForPass(env, c, prim, s, k, t, PollFrom(env, c, prim, s, n).1)
    decreases n
  {
    var next := Advance(env, c, prim, s);
    var log := PollFrom(env, c, prim, next, n - 1).1;
    PassIsSmall(env, c, prim, s);
    PollStaysWithinBudget(env, c, prim, next, n - 1);
    if t < |next.log| {
      FetchInPass(env, c, prim, s, t);
      assert log[t - 1] == next.log[t - 1];
      assert FetchedForPass(env, c, prim, s, 0, t, log);
    } else {
      FetchesFollowTheResponse(env, c, prim, next, n - 1, t);
      var k :| 0 <= k < n - 1 && FetchedForPass(env, c, prim, next, k, t, log);
      assert FetchedForPass(env, c, prim, s, k + 1, t, log);
    }
  }

  // ---- whole runs ----

  /** The create was handed to the transport. */
  predicate Handed(c: Config, prim: Primitives, tx: Tx) {
    c.publicKey.Some? && prim.encodeTx(tx).Some? && c.urlUsable
  }

  /** The provider's answer to the create of this run. */
  function CreateReply(env: Env, c: Config, prim: Primitives, tx: Tx): Reply
    requires Handed(c, prim, tx)
  {
    env.answer(CreateLog(c, prim, tx, prim.encodeTx(tx).value))
  }

  predicate WasRefused(reply: Reply) {
    reply.Response? && Refused(reply.status)
  }

  /** Each run sends at most one create, as its first event, and carries the key of its message. */
  lemma OneCreatePerRun(env: Env, c: Config, prim: Primitives, tx: Tx)
    ensures var log := Execute(env, c, prim, tx).log;
      && NoCreateFrom(log, 1)
      && (Handed(c, prim, tx) <==> log != [])
      && (Handed(c, prim, tx) ==> log[0] == Sent(Create(prim.encodeTx(tx).value, c.locator, Key(c, prim, tx))))
    ensures Key(c, prim, tx) == KeyOf(prim, CrossmintPreimage(c.locator, prim.messageBytes(tx.message)))
  {
    if Handed(c, prim, tx) {
      var log := CreateLog(c, prim, tx, prim.encodeTx(tx).value);
      var created := ReadCreate(c.client, env.answer(log), Key(c, prim, tx));
      if created.Ok? {
        PollStaysWithinBudget(env, c, prim, Live(created.value, false, log), c.maxPollAttempts);
      }
    }
  }

  /** The create that event `i` of a run sent, if it sent one, was answered by a 4xx other than 408. */
  predicate OnlyRefusedCreates(env: Env, log: seq<Event>) {
    forall i :: 0 <= i < |log| && IsCreate(log[i]) ==> WasRefused(env.answer(log[..i + 1]))
  }

  /**
   Retry safety: an error other than `BroadcastUnconfirmed` means that every create the run handed to
   the transport was refused. The Rust client returns such an error exactly then; the Go client does so
   unless the body of the refusal could not be read.
   */
  lemma RetryableIffNothingCouldHaveRun(env: Env, c: Config, prim: Primitives, tx: Tx)
    ensures var run := Execute(env, c, prim, tx);
      run.result.Err? ==>
        (!run.result.error.BroadcastUnconfirmed? <==>
           OnlyRefusedCreates(env, run.log)
           && (c.client.Go? && run.log != [] ==>
               env.answer(run.log[..1]).Response? && env.answer(run.log[..1]).body.Json?))
  {
    OneCreatePerRun(env, c, prim, tx);
    var run := Execute(env, c, prim, tx);
    if Handed(c, prim, tx) {
      assert IsCreate(run.log[0]);
      assert run.log[..0 + 1] == CreateLog(c, prim, tx, prim.encodeTx(tx).value);
      assert WasRefused(CreateReply(env, c, prim, tx)) ==> OnlyRefusedCreates(env, run.log);
    }
  }

  /**
   The statuses spelled out. A create answered with status `n` leaves an error that may be retried exactly when `n` is a
   4xx other than 408 (for the Go client: with a readable body). In particular a 408 and every status from 500 on are
   unconfirmed under that status (for the Go client: where the body is readable).
   */
  lemma CreateStatusDecides(env: Env, c: Config, prim: Primitives, tx: Tx, n: nat, body: Body)
    requires var log := Execute(env, c, prim, tx).log; log != [] && env.answer(log[..1]) == Response(n, body)
    ensures var result := Execute(env, c, prim, tx).result;
      && ((result.Err? && !result.error.BroadcastUnconfirmed?) <==>
            400 <= n < 500 && n != 408 && (c.client == Go ==> body != Unreadable))
      && (n == 408 || n >= 500 ==>
            && result.Err? && result.error.BroadcastUnconfirmed? && result.error.idempotencyKey.Some?
            && result.error.providerStatus == if c.client == Go && body == Unreadable then None else Some(n))
      && (n < 400 && result.Err? ==> result.error.BroadcastUnconfirmed? && result.error.providerStatus == None)
  {
    OneCreatePerRun(env, c, prim, tx);
    var run := Execute(env, c, prim, tx);
    assert run.log[..1] == CreateLog(c, prim, tx, prim.encodeTx(tx).value);
  }

  /** A create that the transport failed to deliver, as far as the client knows, is unconfirmed under its key. */
  lemma LostCreateIsUnconfirmed(env: Env, c: Config, prim: Primitives, tx: Tx)
    requires var log := Execute(env, c, prim, tx).log; log != [] && env.answer(log[..1]) == TransportFailure
    ensures Execute(env, c, prim, tx).result
         == Err(BroadcastUnconfirmed(None, None, Some(Key(c, prim, tx)), None, TransportFailed))
  {
    OneCreatePerRun(env, c, prim, tx);
    assert Execute(env, c, prim, tx).log[..1] == CreateLog(c, prim, tx, prim.encodeTx(tx).value);
  }

  /** `core` is `text` without the white space at its ends. */
  ghost predicate IsTrimmedTo(text: string, core: string) {
    && core != "" && !IsSpace(core[0]) && !IsSpace(core[|core| - 1])
    && exists i, j :: 0 <= i <= j <= |text| && text[i..j] == core
                      && (forall k :: 0 <= k < i || j <= k < |text| ==> IsSpace(text[k]))
  }

  /** The id by which a caller can look up a failed create: the body's, where it is a text that is not blank. */
  ghost predicate RecoveryId(client: Client, id: Field, found: Option<string>) {
    if id.Text? && exists i :: 0 <= i < |id.text| && !IsSpace(id.text[i]) then
      found.Some? && if client == Rust then found.value == id.text else IsTrimmedTo(id.text, found.value)
    else found == None
  }

  lemma {:induction false} TrimLeftDrops(text: string) returns (i: nat)
    ensures i <= |text| && TrimLeft(text) == text[i..] && forall k :: 0 <= k < i ==> IsSpace(text[k])
    ensures i < |text| ==> !IsSpace(text[i])
  {
    if text != "" && IsSpace(text[0]) {
      var n := TrimLeftDrops(text[1..]);
      i := n + 1;
      assert forall k :: 0 < k <= n ==> text[k] == text[1..][k - 1];
    } else {
      i := 0;
    }
  }

  lemma {:induction false} TrimRightDrops(text: string) returns (j: nat)
    ensures j <= |text| && TrimRight(text) == text[..j] && forall k :: j <= k < |text| ==> IsSpace(text[k])
    ensures 0 < j ==> !IsSpace(text[j - 1])
  {
    var n := |text| - 1;
    if text != "" && IsSpace(text[n]) {
      j := TrimRightDrops(text[..n]);
      assert forall k :: 0 <= k < n ==> text[k] == text[..n][k];
    } else {
      j := |text|;
    }
  }

  lemma TrimIsTrimmed(text: string)
    requires exists i :: 0 <= i < |text| && !IsSpace(text[i])
    ensures IsTrimmedTo(text, Trim(text))
  {
    var i := TrimLeftDrops(text);
    var left := text[i..];
    var j := TrimRightDrops(left);
    assert forall k :: 0 <= k < |left| ==> left[k] == text[i + k];
    assert left != "" && !IsSpace(left[0]);
    assert j > 0;
    CutIsTrimmed(text, i, i + j);
    assert text[i..i + j] == left[..j] == Trim(text);
  }

  lemma CutIsTrimmed(text: string, i: nat, j: nat)
    requires i < j <= |text| && !IsSpace(text[i]) && !IsSpace(text[j - 1])
    requires forall k :: 0 <= k < i || j <= k < |text| ==> IsSpace(text[k])
    ensures IsTrimmedTo(text, text[i..j])
  {
  }

  /**
   A failed create spelled out, case by case: what was lost, what was unreadable, what was refused, and under which id,
   status and key the rest is unconfirmed.
   */
  lemma FailedCreateSpelled(env: Env, c: Config, prim: Primitives, tx: Tx, n: nat, body: Body)
    requires var log := Execute(env, c, prim, tx).log; log != [] && env.answer(log[..1]) == Response(n, body)
    ensures var result, key := Execute(env, c, prim, tx).result, Some(Key(c, prim, tx));
      var refused := 400 <= n < 500 && n != 408;
      var status := if n >= 400 then Some(n) else None;
      if body == Unreadable then
        result == Err(if c.client == Go then BroadcastUnconfirmed(None, None, key, None, BodyUnreadable)
                      else if refused then HttpError(BodyUnreadable)
                      else BroadcastUnconfirmed(None, status, key, None, BodyUnreadable))
      else if refused then result == Err(RemoteApiError(RemoteMessage, None))
      else
        var view := if c.client == Rust then body.rust else body.go;
        (n >= 400 || !NamesAnId(c.client, view.id) || view.typed == None) ==>
          exists found :: RecoveryId(c.client, view.id, found)
            && result == Err(BroadcastUnconfirmed(found, status, key, None,
                               if n >= 400 then RemoteMessage
                               else if NamesAnId(c.client, view.id) then BadJson
                               else if view.namesError then RemoteMessage else MissingField))
  {
    OneCreatePerRun(env, c, prim, tx);
    assert Execute(env, c, prim, tx).log[..1] == CreateLog(c, prim, tx, prim.encodeTx(tx).value);
    if body.Json? {
      RecoveryIdIsFound(c.client, Seen(c.client, body));
      AnswerIsTakenIff(c.client, n, body);
    }
  }

  lemma RecoveryIdIsFound(client: Client, view: View)
    ensures RecoveryId(client, view.id, IdInBody(client, view))
  {
    if view.id.Text? && exists i :: 0 <= i < |view.id.text| && !IsSpace(view.id.text[i]) {
      TrimIsTrimmed(view.id.text);
    }
  }

  /** A run records exactly the id of a create that was taken, and clears it again. */
  lemma RecordsTheCreatedId(env: Env, c: Config, prim: Primitives, tx: Tx)
    ensures var log := Execute(env, c, prim, tx).log;
      Recordings(env, c, prim, tx)
        == if log == [] then []
           else match Parse(c.client, env.answer(log[..1]))
                case Err(_) => []
                case Ok(created) => [Pushed(created.id), Cleared(created.id)]
  {
    OneCreatePerRun(env, c, prim, tx);
    if Handed(c, prim, tx) {
      assert Execute(env, c, prim, tx).log[..1] == CreateLog(c, prim, tx, prim.encodeTx(tx).value);
    }
  }

  /** A run that sends nothing says why: no wallet key yet, a transaction that does not serialize, or no usable URL. */
  lemma UnsentRunsSayWhy(env: Env, c: Config, prim: Primitives, tx: Tx)
    ensures var run := Execute(env, c, prim, tx);
      if c.publicKey == None then run == ManagedRun(Err(ConfigError(NotInitialized)), [])
      else if prim.encodeTx(tx) == None then run == ManagedRun(Err(SerializationError(CannotSerialize)), [])
      else if !c.urlUsable then run == ManagedRun(Err(ConfigError(NoBaseUrl)), [])
      else run.log != [] && run.log[0].Sent? && run.log[0].request.Create?
  {
    OneCreatePerRun(env, c, prim, tx);
  }

  /** A create that got no readable answer below 400 ends the run: nothing else is sent. */
  lemma FailedCreatesStop(env: Env, c: Config, prim: Primitives, tx: Tx)
    requires Handed(c, prim, tx)
    requires var reply := CreateReply(env, c, prim, tx);
      reply.TransportFailure? || reply.status >= 400 || reply.body.Unreadable?
    ensures Execute(env, c, prim, tx).result.Err? && |Execute(env, c, prim, tx).log| == 1
  {
  }

  /**
   Once a create has returned an id, every error names exactly that id, whatever ids later answers show; the id is
   never blank when the typed form agrees with the body it was decoded from.
   */
  lemma ErrorsNameTheCreatedId(env: Env, c: Config, prim: Primitives, tx: Tx)
    requires Handed(c, prim, tx)
    requires ReadCreate(c.client, CreateReply(env, c, prim, tx), Key(c, prim, tx)).Ok?
    ensures var id := ReadCreate(c.client, CreateReply(env, c, prim, tx), Key(c, prim, tx)).value.id;
      var result := Execute(env, c, prim, tx).result;
      result.Err? ==> exists detail ::
        result.error == BroadcastUnconfirmed(Some(id), None, Some(Key(c, prim, tx)), None, detail)
    ensures var reply := CreateReply(env, c, prim, tx);
      && reply.Response? && reply.body.Json?
      && var view := Seen(c.client, reply.body);
         view.typed.Some? && (view.id == Text(view.typed.value.id) ==> !Blank(view.typed.value.id))
  {
    var created := ReadCreate(c.client, CreateReply(env, c, prim, tx), Key(c, prim, tx)).value;
    var run := Execute(env, c, prim, tx);
    if run.result.Err? {
      assert run.result.error ==
          BroadcastUnconfirmed(Some(created.id), None, Some(Key(c, prim, tx)), None, run.result.error.detail);
    }
  }

  /** An id readable in the body of an unrefused create reaches the caller even if the body is otherwise unusable. */
  lemma ReadableIdIsNeverLost(env: Env, c: Config, prim: Primitives, tx: Tx, status: nat, body: Body)
    requires Handed(c, prim, tx) && CreateReply(env, c, prim, tx) == Response(status, body)
    requires body.Json? && !Refused(status) && IdInBody(c.client, Seen(c.client, body)).Some?
    requires var view := Seen(c.client, body); view.typed.Some? ==> view.id == Text(view.typed.value.id)
    ensures var result := Execute(env, c, prim, tx).result;
      result.Err? ==>
        && result.error.BroadcastUnconfirmed?
        && result.error.idempotencyKey == Some(Key(c, prim, tx))
        && result.error.providerStatus == (if status >= 400 then Some(status) else None)
        && var id := Seen(c.client, body).id.text;
           result.error.providerTxId == Some(id) || (c.client.Go? && result.error.providerTxId == Some(Trim(id)))
  {
  }

  // ---- every success is backed by evidence ----

  /** `text` is a transaction that names its fee payer and carries a signature of it, verified or not. */
  predicate Carries(prim: Primitives, text: string, tx: Tx) {
    && prim.base58(text).Some? && prim.decodeTx(prim.base58(text).value) == Some(tx)
    && tx.message.numRequired <= |tx.message.accountKeys| && |tx.message.accountKeys| > 0
    && |tx.signatures| > 0 && tx.signatures[0] != DEFAULT_SIGNATURE
  }

  /** Some transaction stands behind `text`, and names its fee payer's signature. */
  ghost predicate Usable(prim: Primitives, text: Option<string>) {
    text.Some? && exists tx :: Carries(prim, text.value, tx)
  }

  /**
   The signature is a verified fee-payer slot of the landed transaction, or its txId where there is no usable
   transaction.
   */
  ghost predicate Evidence(prim: Primitives, chain: OnChain, signature: Signature) {
    || (chain.transaction.Some?
        && exists tx :: && Carries(prim, chain.transaction.value, tx) && signature == tx.signatures[0]
                        && prim.verifies(tx.signatures[0], tx.message.accountKeys[0], prim.messageBytes(tx.message)))
    || (!Usable(prim, chain.transaction) && chain.txId.Some? && prim.base58(chain.txId.value) == Some(signature))
  }

  lemma CarriedIsLanded(prim: Primitives, text: string, tx: Tx)
    ensures Carries(prim, text, tx) <==> Landed(prim, text) == Ok(tx)
  {
  }

  /**
   How a response is read, whatever its txId: a usable transaction decides by whether its fee payer's signature
   verifies; without one the txId decides, and without either nothing can be extracted.
   */
  lemma ExtractionIsDecided(prim: Primitives, r: TransactionResponse)
    ensures r.onChain == None ==> Extract(prim, r) == Err(SigningFailed(NothingToExtract))
    ensures r.onChain.Some? && r.onChain.value.transaction.Some? ==>
              forall tx :: Carries(prim, r.onChain.value.transaction.value, tx) ==>
                Extract(prim, r)
                  == if prim.verifies(tx.signatures[0], tx.message.accountKeys[0], prim.messageBytes(tx.message))
                     then Ok(tx.signatures[0]) else Err(SigningFailed(NotVerified))
    ensures r.onChain.Some? && !Usable(prim, r.onChain.value.transaction) && r.onChain.value.txId.Some? ==>
              var decoded := prim.base58(r.onChain.value.txId.value);
              Extract(prim, r)
                == if decoded.Some? && |decoded.value| == 64 then Ok(decoded.value) else Err(SigningFailed(BadTxId))
    ensures r.onChain.Some? && !Usable(prim, r.onChain.value.transaction) && r.onChain.value.txId == None ==>
              Extract(prim, r).Err?
  {
    if r.onChain.Some? && r.onChain.value.transaction.Some? {
      var text := r.onChain.value.transaction.value;
      forall tx
        ensures Carries(prim, text, tx) <==> Landed(prim, text) == Ok(tx)
      {
        CarriedIsLanded(prim, text, tx);
      }
      if Landed(prim, text).Ok? {
        assert Carries(prim, text, Landed(prim, text).value);
      }
    }
  }

  /** Without a usable transaction and without a txId the reason is told. */
  lemma NothingToExtractSaysWhy(prim: Primitives, r: TransactionResponse)
    requires r.onChain.Some? && r.onChain.value.txId == None && !Usable(prim, r.onChain.value.transaction)
    ensures Extract(prim, r)
         == Err(match r.onChain.value.transaction
                case None => SigningFailed(NothingToExtract)
                case Some(text) =>
                  match prim.base58(text)
                  case None => SerializationError(BadBase58)
                  case Some(bytes) =>
                    match prim.decodeTx(bytes)
                    case None => SerializationError(CannotDeserialize)
                    case Some(tx) =>
                      if |tx.message.accountKeys| < tx.message.numRequired then SigningFailed(NotEnoughKeys)
                      else if |tx.message.accountKeys| == 0 then SigningFailed(NoAccountKeys)
                      else SigningFailed(SlotMissing))
  {
    if r.onChain.value.transaction.Some? {
      var text := r.onChain.value.transaction.value;
      if prim.base58(text).Some? && prim.decodeTx(prim.base58(text).value).Some? {
        assert !Carries(prim, text, prim.decodeTx(prim.base58(text).value).value);
      }
    }
  }

  /**
   Extraction succeeds exactly on evidence; in particular a transaction that decoded but did not verify is
   never papered over by a txId.
   */
  lemma ExtractIffEvidence(prim: Primitives, r: TransactionResponse, signature: Signature)
    ensures Extract(prim, r) == Ok(signature) <==> r.onChain.Some? && Evidence(prim, r.onChain.value, signature)
  {
    ExtractionIsDecided(prim, r);
  }

  /**
   Every Ok of a run rests on a response, reached by polling, whose status is success and whose on-chain data
   is evidence.
   */
  lemma OkRestsOnEvidence(env: Env, c: Config, prim: Primitives, tx: Tx)
    requires Execute(env, c, prim, tx).result.Ok?
    ensures Handed(c, prim, tx) && ReadCreate(c.client, CreateReply(env, c, prim, tx), Key(c, prim, tx)).Ok?
    ensures exists k :: 0 <= k <= c.maxPollAttempts
              && var created := ReadCreate(c.client, CreateReply(env, c, prim, tx), Key(c, prim, tx)).value;
                 var log := CreateLog(c, prim, tx, prim.encodeTx(tx).value);
                 var final := At(env, c, prim, Live(created, false, log), k);
                 final.Live? && final.response.status.Success? && final.response.onChain.Some?
                 && Evidence(prim, final.response.onChain.value, Execute(env, c, prim, tx).result.value)
  {
    var created := ReadCreate(c.client, CreateReply(env, c, prim, tx), Key(c, prim, tx)).value;
    var start := Live(created, false, CreateLog(c, prim, tx, prim.encodeTx(tx).value));
    PollReadsAt(env, c, prim, start, c.maxPollAttempts);
    var final := At(env, c, prim, start, c.maxPollAttempts);
    assert final.Live? && final.response.status.Success?;
    ExtractIffEvidence(prim, final.response, Execute(env, c, prim, tx).result.value);
  }
}
