/**
 What every run of the Fordefi native signers keeps, against any provider.
 */
module FordefiGuarantees {
  import opened Core
  import opened Transactions
  import opened Idempotency
  import opened Polling
  import PendingSlot
  import opened Fordefi

  /** Every submit that the log shows was answered by a 4xx other than 408. */
  predicate OnlyRefusedSubmits(answer: seq<Event> -> Reply, log: seq<Event>) {
    forall i :: 0 <= i < |log| && log[i].Submitted? ==> WasRefused(answer(log[..i + 1]))
  }

  predicate WasRefused(reply: Reply) {
    reply.Response? && Refused(reply.status)
  }

  /** A submit of the message bytes under the configured terms, with the key those terms and bytes hash to. */
  predicate SubmitsUnderItsTerms(e: Event, c: Config, prim: Primitives, mode: PushMode, message: Message) {
    var terms, bytes := Terms(mode, c.chain, c.vault, c.fee), prim.messageBytes(message);
    e == Submitted(terms, bytes, KeyOf(prim, FordefiPreimage(terms, bytes)))
  }

  /** A run submits at most once, first thing, under the key of its message. */
  lemma OneSubmitPerRun(answer: seq<Event> -> Reply, c: Config, prim: Primitives, tx: Tx)
    ensures var log := SignAndBroadcast(answer, c, prim, tx).log;
      && (log != [] ==>
            && log[..1] == SubmitLog(c, prim, Auto, tx)
            && SubmitsUnderItsTerms(log[0], c, prim, Auto, tx.message))
      && (forall i :: 1 <= i < |log| ==> !log[i].Submitted?)
  {
    var log := SubmitLog(c, prim, Auto, tx);
    var submitted := ReadSubmit(Auto, answer(log), Key(c, prim, Auto, tx.message));
    if submitted.Ok? {
      PollAppendsProbes(StatusProbe(answer, true, submitted.value), log, 0, c.maxPollAttempts);
    }
  }

  /**
   Retry safety: an error other than `BroadcastUnconfirmed` means that every submit the run handed to
   the transport was refused, and a run that submitted returns one exactly then.
   */
  lemma RetryableIffNothingCouldHaveRun(answer: seq<Event> -> Reply, c: Config, prim: Primitives, tx: Tx)
    ensures var run := SignAndBroadcast(answer, c, prim, tx);
      && (run.result.Err? && !run.result.error.BroadcastUnconfirmed? ==> OnlyRefusedSubmits(answer, run.log))
      && (run.log != [] && OnlyRefusedSubmits(answer, run.log) ==>
          run.result.Err? && !run.result.error.BroadcastUnconfirmed?)
  {
    OneSubmitPerRun(answer, c, prim, tx);
    var run := SignAndBroadcast(answer, c, prim, tx);
    if run.log != [] {
      assert run.log[0] == run.log[..1][0] && run.log[..0 + 1] == SubmitLog(c, prim, Auto, tx);
      if OnlyRefusedSubmits(answer, run.log) {
        assert WasRefused(answer(run.log[..0 + 1]));
      }
    }
  }

  /**
   The statuses spelled out. A submit answered with status `n` leaves an error that may be retried exactly when `n` is a
   4xx other than 408; a 408 and every status from 500 on are unconfirmed under that status, and below 400 every error
   is unconfirmed.
   */
  lemma SubmitStatusDecides(answer: seq<Event> -> Reply, c: Config, prim: Primitives, tx: Tx, n: nat, body: Body)
    requires var log := SignAndBroadcast(answer, c, prim, tx).log; log != [] && answer(log[..1]) == Response(n, body)
    ensures var result := SignAndBroadcast(answer, c, prim, tx).result;
      && ((result.Err? && !result.error.BroadcastUnconfirmed?) <==> 400 <= n < 500 && n != 408)
      && (n == 408 || n >= 500 ==>
            && result.Err? && result.error.BroadcastUnconfirmed?
            && result.error.providerStatus == Some(n) && result.error.idempotencyKey.Some?)
      && (n < 400 && result.Err? ==> result.error.BroadcastUnconfirmed? && result.error.providerStatus == None)
  {
    OneSubmitPerRun(answer, c, prim, tx);
  }

  /** A submit that the transport failed to deliver, as far as the client knows, is unconfirmed under its key. */
  lemma LostSubmitIsUnconfirmed(answer: seq<Event> -> Reply, c: Config, prim: Primitives, tx: Tx)
    requires var log := SignAndBroadcast(answer, c, prim, tx).log; log != [] && answer(log[..1]) == TransportFailure
    ensures SignAndBroadcast(answer, c, prim, tx).result
         == Err(BroadcastUnconfirmed(None, None, Some(Key(c, prim, Auto, tx.message)), None, TransportFailed))
  {
    OneSubmitPerRun(answer, c, prim, tx);
  }

  /** The answer to a submit names the id: a 2xx whose body decodes to an id that is not blank. */
  predicate NamesId(reply: Reply, id: string) {
    && reply.Response? && 200 <= reply.status < 300 && reply.body.Json? && reply.body.created == Some(id)
    && exists i :: 0 <= i < |id| && !IsSpace(id[i])
  }

  /** In either mode a submit is accepted under exactly the id its answer names; a manual one otherwise says why. */
  lemma SubmitIsAcceptedIff(mode: PushMode, reply: Reply, key: string)
    ensures forall id :: ReadSubmit(mode, reply, key) == Ok(id) <==> NamesId(reply, id)
    ensures mode == Manual && ReadSubmit(mode, reply, key).Err? ==>
      ReadSubmit(mode, reply, key).error
        == match reply
           case TransportFailure => HttpError(TransportFailed)
           case Response(status, body) =>
             if status < 200 || status >= 300 then RemoteApiError(RemoteStatus, None)
             else if body == Unreadable then HttpError(BodyUnreadable)
             else if body.created == None then SerializationError(BadJson)
             else SerializationError(BlankId)
  {
  }

  /** A failed auto submit spelled out: what was refused, and under which id, status and key the rest is unconfirmed. */
  lemma FailedSubmitSpelled(answer: seq<Event> -> Reply, c: Config, prim: Primitives, tx: Tx, n: nat, body: Body)
    requires var log := SignAndBroadcast(answer, c, prim, tx).log; log != [] && answer(log[..1]) == Response(n, body)
    requires forall id :: !NamesId(Response(n, body), id)
    ensures var readable := && body.Json? && body.id.Text?
                            && exists i :: 0 <= i < |body.id.text| && !IsSpace(body.id.text[i]);
      var found := if readable then Some(body.id.text) else None;
      SignAndBroadcast(answer, c, prim, tx).result
        == Err(if 400 <= n < 500 && n != 408 then RemoteApiError(RemoteStatus, None)
               else BroadcastUnconfirmed(
                 found, if n >= 400 then Some(n) else None, Some(Key(c, prim, Auto, tx.message)), None,
                 if n < 200 || n >= 300 then RemoteStatus
                 else if body == Unreadable then BodyUnreadable
                 else if body.created == None then BadJson
                 else BlankId))
  {
    OneSubmitPerRun(answer, c, prim, tx);
    SubmitIsAcceptedIff(Auto, Response(n, body), Key(c, prim, Auto, tx.message));
  }

  /** Once a submit has returned an id, every error names exactly that id. */
  lemma ErrorsNameTheSubmittedId(answer: seq<Event> -> Reply, c: Config, prim: Primitives, tx: Tx)
    requires ValidateAuto(c, tx).None? && c.requestSigner.None?
    requires ReadSubmit(Auto, answer(SubmitLog(c, prim, Auto, tx)), Key(c, prim, Auto, tx.message)).Ok?
    ensures var id := ReadSubmit(Auto, answer(SubmitLog(c, prim, Auto, tx)), Key(c, prim, Auto, tx.message)).value;
      var result := SignAndBroadcast(answer, c, prim, tx).result;
      result.Err? ==> result.error == BroadcastUnconfirmed(Some(id), None, None, None, result.error.detail)
  {
  }

  /**
   An id readable in the body of an unrefused submit reaches the caller even if the body is otherwise unusable, and a
   blank one is never taken for an id.
   */
  lemma ReadableIdIsNeverLost(answer: seq<Event> -> Reply, c: Config, prim: Primitives, tx: Tx, status: nat, body: Body)
    requires ValidateAuto(c, tx).None? && c.requestSigner.None?
    requires answer(SubmitLog(c, prim, Auto, tx)) == Response(status, body) && !WasRefused(Response(status, body))
    requires body.Json? && (body.created.Some? ==> body.id == Text(body.created.value))
    ensures var result := SignAndBroadcast(answer, c, prim, tx).result;
      result.Err? ==>
        && result.error.BroadcastUnconfirmed?
        && result.error.providerTxId == (if body.id.Text? && !Blank(body.id.text) then Some(body.id.text) else None)
        && result.error.providerStatus == (if status >= 400 then Some(status) else None)
  {
  }

  /**
   The returned signature is the fee payer's over a returned transaction in which the vault's own slot verifies
   too.
   */
  ghost predicate BackedBy(prim: Primitives, c: Config, returned: Tx, signature: Signature) {
    && SlotVerifies(prim, returned, 0)
    && returned.signatures[0] == signature
    && exists p :: Position(returned.message, c.publicKey) == Ok(p) && SlotVerifies(prim, returned, p)
  }

  lemma IdentifyIsBacked(prim: Primitives, c: Config, r: StatusResponse)
    requires Identify(prim, c, r).Ok?
    ensures DecodeRaw(prim, r).Ok? && prim.decodeTx(DecodeRaw(prim, r).value).Some?
    ensures BackedBy(prim, c, prim.decodeTx(DecodeRaw(prim, r).value).value, Identify(prim, c, r).value)
  {
    var returned := prim.decodeTx(DecodeRaw(prim, r).value).value;
    VaultSlotVerifies(prim, DecodeRaw(prim, r).value, c.publicKey);
  }

  lemma VaultSlotVerifies(prim: Primitives, bytes: Bytes, key: Pubkey)
    requires ExtractRewritten(prim, bytes, key).Ok?
    ensures var returned := ExtractRewritten(prim, bytes, key).value.0;
      exists p :: Position(returned.message, key) == Ok(p) && SlotVerifies(prim, returned, p)
                  && returned.signatures[p] == ExtractRewritten(prim, bytes, key).value.1
  {
    var returned := ExtractRewritten(prim, bytes, key).value.0;
    var p := Position(returned.message, key).value;
    assert FilledSlot(returned, key, p);
    assert SlotVerifies(prim, returned, p);
  }

  /** The status carries a raw transaction that decodes to `tx`. */
  predicate RawIs(prim: Primitives, r: StatusResponse, tx: Tx) {
    && r.rawTransaction.Some? && prim.base64(r.rawTransaction.value).Some?
    && prim.decodeTx(prim.base64(r.rawTransaction.value).value) == Some(tx)
  }

  /**
   The status backs the signature up: its raw transaction decodes, the vault signed it at its own slot, and the
   signature is the fee payer's over the same message.
   */
  ghost predicate BackedUp(prim: Primitives, c: Config, r: StatusResponse, signature: Signature) {
    exists tx, p: nat ::
      && RawIs(prim, r, tx) && SignedAt(prim, tx, c.publicKey, p, prim.messageBytes(tx.message))
      && |tx.signatures| > 0 && tx.signatures[0] == signature && signature != DEFAULT_SIGNATURE
      && prim.verifies(signature, tx.message.accountKeys[0], prim.messageBytes(tx.message))
  }

  lemma IdentifiedIffBackedUp(prim: Primitives, c: Config, r: StatusResponse, signature: Signature)
    ensures Identify(prim, c, r) == Ok(signature) <==> BackedUp(prim, c, r, signature)
  {
    if DecodeRaw(prim, r).Ok? && prim.decodeTx(DecodeRaw(prim, r).value).Some? {
      var bytes := DecodeRaw(prim, r).value;
      var tx := prim.decodeTx(bytes).value;
      forall s
        ensures ExtractRewritten(prim, bytes, c.publicKey) == Ok((tx, s)) <==>
                exists p: nat :: && SignedAt(prim, tx, c.publicKey, p, prim.messageBytes(tx.message))
                                 && s == tx.signatures[p]
      {
        ExtractRewrittenIff(prim, bytes, c.publicKey, tx, s);
      }
      if exists p: nat :: SignedAt(prim, tx, c.publicKey, p, prim.messageBytes(tx.message)) {
        var p: nat :| SignedAt(prim, tx, c.publicKey, p, prim.messageBytes(tx.message));
        assert ExtractRewritten(prim, bytes, c.publicKey) == Ok((tx, tx.signatures[p]));
      }
    }
  }

  /** Why a status that ends the poll does not lead to a signature or a replacement. */
  lemma UnusableStatusSaysWhy(prim: Primitives, c: Config, r: StatusResponse)
    ensures r.rawTransaction == None ==>
              && Identify(prim, c, r) == Err(SigningFailed(MissingRawTransaction))
              && Rewritten(prim, c, r) == Err(SigningFailed(MissingRawTransaction))
    ensures r.rawTransaction.Some? && prim.base64(r.rawTransaction.value) == None ==>
              && Identify(prim, c, r) == Err(SerializationError(BadBase64))
              && Rewritten(prim, c, r) == Err(SerializationError(BadBase64))
    ensures r.rawTransaction.Some? && prim.base64(r.rawTransaction.value).Some? ==>
              match ExtractRewritten(prim, prim.base64(r.rawTransaction.value).value, c.publicKey)
              case Err(e) => Identify(prim, c, r) == Err(e) && Rewritten(prim, c, r) == Err(e)
              case Ok((tx, _)) =>
                && (prim.encodeTx(tx) == None ==> Rewritten(prim, c, r) == Err(SerializationError(CannotSerialize)))
                && (|tx.signatures| == 0 || tx.signatures[0] == DEFAULT_SIGNATURE ==>
                      Identify(prim, c, r) == Err(SigningFailed(NoFeePayerSignature)))
                && (|tx.signatures| > 0 && tx.signatures[0] != DEFAULT_SIGNATURE && |tx.message.accountKeys| > 0
                    && !prim.verifies(tx.signatures[0], tx.message.accountKeys[0], prim.messageBytes(tx.message)) ==>
                      Identify(prim, c, r) == Err(SigningFailed(NotVerified)))
  {
  }

  /** The answer that ends `log` is a 2xx whose body carries the status `r`. */
  predicate AnsweredWith(answer: seq<Event> -> Reply, log: seq<Event>, r: StatusResponse) {
    var reply := answer(log);
    reply.Response? && 200 <= reply.status < 300 && reply.body.Json? && reply.body.status == Some(r)
  }

  lemma PolledAnswerIsCompleted(answer: seq<Event> -> Reply, id: string, log: seq<Event>, max: nat)
    requires PollUntil(StatusProbe(answer, true, id), log, 0, max).result.Ok?
    ensures var polled := PollUntil(StatusProbe(answer, true, id), log, 0, max);
      polled.result.value.state.Completed? && AnsweredWith(answer, polled.log, polled.result.value)
  {
    var probe := StatusProbe(answer, true, id);
    var k := OkComesFromDone(probe, log, max);
    assert Read(probe, AttemptLog(probe, log, k)) == ReadStatus(true, answer(AttemptLog(probe, log, k)));
  }

  /** The answer leaves the outcome open: a 2xx whose state is in flight, or signed but still to be pushed. */
  predicate LeavesOpen(pushable: bool, reply: Reply) {
    && reply.Response? && 200 <= reply.status < 300 && reply.body.Json? && reply.body.status.Some?
    && (reply.body.status.value.state.InFlight? || (pushable && reply.body.status.value.state.Signed?))
  }

  /** The fetches ask for the id that was submitted, with a sleep between them. */
  lemma FetchLogSpelled(answer: seq<Event> -> Reply, pushable: bool, id: string, log: seq<Event>, k: nat)
    ensures FetchLog(answer, pushable, id, log, 0) == log + [Fetched(id)]
    ensures FetchLog(answer, pushable, id, log, k + 1) == FetchLog(answer, pushable, id, log, k) + [Slept, Fetched(id)]
  {
  }

  predicate IsFailure(state: State) {
    state in {Aborted, Cancelled, Dropped, CompletedReverted,
              ErrorPushing, ErrorSigning, InsufficientFunds, MinedReverted}
  }

  /** What an answer that does not leave the outcome open says: the status it carries, or why there is none to use. */
  predicate Decides(reply: Reply, result: Result<StatusResponse, SignerError>) {
    match reply
    case TransportFailure => result == Err(HttpError(TransportFailed))
    case Response(status, body) =>
      if status < 200 || status >= 300 then result == Err(RemoteApiError(RemoteStatus, None))
      else if body == Unreadable then result == Err(HttpError(BodyUnreadable))
      else if body.status == None then result == Err(SerializationError(BadJson))
      else if IsFailure(body.status.value.state) then result == Err(SigningFailed(TerminalState))
      else body.status.value.state in {Signed, Completed} && result == Ok(body.status.value)
  }

  /** The log of a poll for `id` right after its fetch number `k`. */
  function FetchLog(answer: seq<Event> -> Reply, pushable: bool, id: string, log: seq<Event>, k: nat): seq<Event> {
    AttemptLog(StatusProbe(answer, pushable, id), log, k)
  }

  /** While every answer leaves the outcome open the poll goes on; the first that does not, or the budget, ends it. */
  lemma PollEndsWhenDecided(answer: seq<Event> -> Reply, pushable: bool, id: string, log: seq<Event>, max: nat, k: nat)
    requires k < max && forall j :: 0 <= j < k ==> LeavesOpen(pushable, answer(FetchLog(answer, pushable, id, log, j)))
    ensures var fetched := FetchLog(answer, pushable, id, log, k);
      var polled := PollUntil(StatusProbe(answer, pushable, id), log, 0, max);
      if !LeavesOpen(pushable, answer(fetched)) then
        polled.log == fetched && Decides(answer(fetched), polled.result)
      else if k == max - 1 then
        polled == Outcome(Err(RemoteApiError(PollTimeout, Some(id))), fetched)
      else
        |polled.log| > |fetched|
  {
    var p := StatusProbe(answer, pushable, id);
    forall j: nat
      ensures Read(p, AttemptLog(p, log, j)).Pending?
         <==> LeavesOpen(pushable, answer(FetchLog(answer, pushable, id, log, j)))
    {
      OpenIsPending(answer, pushable, id, FetchLog(answer, pushable, id, log, j));
    }
    OpenIsPending(answer, pushable, id, FetchLog(answer, pushable, id, log, k));
    EndsWhenDecided(p, log, k, max);
  }

  lemma OpenIsPending(answer: seq<Event> -> Reply, pushable: bool, id: string, log: seq<Event>)
    ensures Read(StatusProbe(answer, pushable, id), log) == ReadStatus(pushable, answer(log))
    ensures ReadStatus(pushable, answer(log)).Pending? <==> LeavesOpen(pushable, answer(log))
  {
  }

  /**
   An auto run ends at the first fetch whose answer is not an open state, and what it shows decides the run: the
   eight failure states are unconfirmed failures, `completed` is worth what its transaction proves, and a budget
   of open answers is a timeout.
   */
  lemma AutoRunEndsWhenDecided(answer: seq<Event> -> Reply, c: Config, prim: Primitives, tx: Tx, id: string, k: nat)
    requires ValidateAuto(c, tx).None? && c.requestSigner.None?
    requires ReadSubmit(Auto, answer(SubmitLog(c, prim, Auto, tx)), Key(c, prim, Auto, tx.message)) == Ok(id)
    requires k < c.maxPollAttempts
    requires forall j :: 0 <= j < k ==>
               LeavesOpen(true, answer(FetchLog(answer, true, id, SubmitLog(c, prim, Auto, tx), j)))
    ensures var fetched := FetchLog(answer, true, id, SubmitLog(c, prim, Auto, tx), k);
      var run, reply := SignAndBroadcast(answer, c, prim, tx), answer(fetched);
      && (run.log == fetched <==> !LeavesOpen(true, reply) || k == c.maxPollAttempts - 1)
      && (LeavesOpen(true, reply) && k == c.maxPollAttempts - 1 ==>
            run.result == Err(BroadcastUnconfirmed(Some(id), None, None, None, PollTimeout)))
      && (forall r :: AnsweredWith(answer, fetched, r) ==>
            && (IsFailure(r.state) ==>
                  run.result == Err(BroadcastUnconfirmed(Some(id), None, None, None, TerminalState)))
            && (r.state == Completed ==> forall s :: run.result == Ok(s) <==> BackedUp(prim, c, r, s))
            && (run.result.Ok? && run.log == fetched ==> r.state == Completed))
  {
    var fetched := FetchLog(answer, true, id, SubmitLog(c, prim, Auto, tx), k);
    PollEndsWhenDecided(answer, true, id, SubmitLog(c, prim, Auto, tx), c.maxPollAttempts, k);
    forall r, s | AnsweredWith(answer, fetched, r) && r.state == Completed
      ensures SignAndBroadcast(answer, c, prim, tx).result == Ok(s) <==> BackedUp(prim, c, r, s)
    {
      IdentifiedIffBackedUp(prim, c, r, s);
    }
  }

  /** Every Ok rests on a completed response, the last answer of the run, whose transaction backs the signature. */
  lemma OkRestsOnEvidence(answer: seq<Event> -> Reply, c: Config, prim: Primitives, tx: Tx) returns (r: StatusResponse)
    requires SignAndBroadcast(answer, c, prim, tx).result.Ok?
    ensures r.state.Completed? && AnsweredWith(answer, SignAndBroadcast(answer, c, prim, tx).log, r)
    ensures DecodeRaw(prim, r).Ok? && prim.decodeTx(DecodeRaw(prim, r).value).Some?
    ensures BackedBy(prim, c, prim.decodeTx(DecodeRaw(prim, r).value).value,
                     SignAndBroadcast(answer, c, prim, tx).result.value)
  {
    var log := SubmitLog(c, prim, Auto, tx);
    var id := ReadSubmit(Auto, answer(log), Key(c, prim, Auto, tx.message)).value;
    PolledAnswerIsCompleted(answer, id, log, c.maxPollAttempts);
    r := PollUntil(StatusProbe(answer, true, id), log, 0, c.maxPollAttempts).result.value;
    IdentifyIsBacked(prim, c, r);
  }

  /**
   An auto run submits exactly when the vault is the transaction's sole required signer, nobody has signed in any slot
   and the request can be signed; otherwise it says why.
   */
  lemma SubmittedOnlyWhenUnsigned(answer: seq<Event> -> Reply, c: Config, prim: Primitives, tx: Tx)
    ensures var run := SignAndBroadcast(answer, c, prim, tx);
      var keys := tx.message.accountKeys;
      var sole := tx.message.numRequired == 1 && |keys| > 0 && keys[0] == c.publicKey;
      var unsigned := forall i :: 0 <= i < |tx.signatures| ==> tx.signatures[i] == DEFAULT_SIGNATURE;
      && (run.log != [] <==> sole && unsigned && c.requestSigner == None)
      && (!sole ==> run.result == Err(SigningFailed(NotSoleSigner)))
      && (sole && !unsigned ==> run.result == Err(SigningFailed(AlreadySigned)))
      && (sole && unsigned && c.requestSigner.Some? ==> run.result == Err(c.requestSigner.value))
  {
    var run := SignAndBroadcast(answer, c, prim, tx);
    if run.log == [] && ValidateAuto(c, tx).None? && c.requestSigner.None? {
      var log := SubmitLog(c, prim, Auto, tx);
      var submitted := ReadSubmit(Auto, answer(log), Key(c, prim, Auto, tx.message));
      if submitted.Ok? {
        PollAppendsProbes(StatusProbe(answer, true, submitted.value), log, 0, c.maxPollAttempts);
      }
    }
  }

  /** An auto run records exactly the id that the answer to its submit names, and clears it again. */
  lemma RecordsTheSubmittedId(answer: seq<Event> -> Reply, c: Config, prim: Primitives, tx: Tx)
    ensures var log := SignAndBroadcast(answer, c, prim, tx).log;
      && (log == [] ==> Recordings(answer, c, prim, tx) == [])
      && (log != [] ==>
            && (forall id :: NamesId(answer(log[..1]), id) ==>
                  Recordings(answer, c, prim, tx) == [PendingSlot.Pushed(id), PendingSlot.Cleared(id)])
            && ((forall id :: !NamesId(answer(log[..1]), id)) ==> Recordings(answer, c, prim, tx) == []))
  {
    OneSubmitPerRun(answer, c, prim, tx);
    SubmittedOnlyWhenUnsigned(answer, c, prim, tx);
    SubmitIsAcceptedIff(Auto, answer(SubmitLog(c, prim, Auto, tx)), Key(c, prim, Auto, tx.message));
  }

  /** A manual run submits exactly when the vault pays the fee and the request can be signed. */
  lemma ManualSubmitsWhenFeePayer(answer: seq<Event> -> Reply, c: Config, prim: Primitives, tx: Tx)
    ensures var run := ModifyAndSign(answer, c, prim, tx);
      var pays := |tx.message.accountKeys| > 0 && tx.message.accountKeys[0] == c.publicKey;
      && (pays && c.requestSigner == None ==>
            && SubmitLog(c, prim, Manual, tx) <= run.log
            && SubmitsUnderItsTerms(run.log[0], c, prim, Manual, tx.message))
      && (!pays ==> run == ManualRun(Err(SigningFailed(NotFeePayer)), tx, []))
      && (pays && c.requestSigner.Some? ==> run == ManualRun(Err(c.requestSigner.value), tx, []))
  {
    var log := SubmitLog(c, prim, Manual, tx);
    var submitted := ReadSubmit(Manual, answer(log), Key(c, prim, Manual, tx.message));
    if submitted.Ok? {
      PollAppendsProbes(StatusProbe(answer, false, submitted.value), log, 0, c.maxPollAttempts);
    }
  }

  /** The status hands over a replacement: its raw transaction, which the vault signed and which serializes. */
  predicate HandsOver(prim: Primitives, c: Config, r: StatusResponse, tx: Tx, p: nat, encoded: Bytes) {
    && RawIs(prim, r, tx) && SignedAt(prim, tx, c.publicKey, p, prim.messageBytes(tx.message))
    && prim.encodeTx(tx) == Some(encoded)
  }

  lemma RewrittenIffHandedOver(prim: Primitives, c: Config, r: StatusResponse, tx: Tx, encoded: Bytes,
                               signature: Signature)
    ensures Rewritten(prim, c, r) == Ok((tx, encoded, signature)) <==>
            exists p: nat :: HandsOver(prim, c, r, tx, p, encoded) && signature == tx.signatures[p]
  {
    if DecodeRaw(prim, r).Ok? {
      ExtractRewrittenIff(prim, DecodeRaw(prim, r).value, c.publicKey, tx, signature);
    }
    if exists p: nat :: HandsOver(prim, c, r, tx, p, encoded) && signature == tx.signatures[p] {
      var p: nat :| HandsOver(prim, c, r, tx, p, encoded) && signature == tx.signatures[p];
      assert SignedAt(prim, tx, c.publicKey, p, prim.messageBytes(tx.message)) && signature == tx.signatures[p];
    }
  }

  /** The run took what the status handed over, or failed and left the transaction alone. */
  ghost predicate TakesWhatIsHandedOver(prim: Primitives, c: Config, r: StatusResponse, tx: Tx, run: ManualRun) {
    && (forall t, p: nat, encoded :: HandsOver(prim, c, r, t, p, encoded) ==>
          && run.tx == t && run.result.Ok?
          && run.result.value.encoded == encoded && run.result.value.signature == t.signatures[p]
          && (run.result.value.Complete? <==> FullySigned(t)))
    && ((forall t, p: nat, encoded :: !HandsOver(prim, c, r, t, p, encoded)) ==> run.result.Err? && run.tx == tx)
  }

  /**
   A manual run ends at the first answer that is not in flight, and that answer decides it: the eight failure states
   fail it and leave the transaction alone; `signed` and `completed` replace the transaction exactly by what they hand
   over, and report its bytes, the vault's signature and whether it is complete; a budget of open answers is a timeout.
   */
  lemma ManualRunEndsWhenDecided(answer: seq<Event> -> Reply, c: Config, prim: Primitives, tx: Tx, id: string, k: nat)
    requires |tx.message.accountKeys| > 0 && tx.message.accountKeys[0] == c.publicKey && c.requestSigner == None
    requires NamesId(answer(SubmitLog(c, prim, Manual, tx)), id) && k < c.maxPollAttempts
    requires forall j :: 0 <= j < k ==>
               LeavesOpen(false, answer(FetchLog(answer, false, id, SubmitLog(c, prim, Manual, tx), j)))
    ensures var fetched := FetchLog(answer, false, id, SubmitLog(c, prim, Manual, tx), k);
      var run, reply := ModifyAndSign(answer, c, prim, tx), answer(fetched);
      && (run.log == fetched <==> !LeavesOpen(false, reply) || k == c.maxPollAttempts - 1)
      && (LeavesOpen(false, reply) && k == c.maxPollAttempts - 1 ==>
            run == ManualRun(Err(RemoteApiError(PollTimeout, Some(id))), tx, fetched))
      && (forall r :: AnsweredWith(answer, fetched, r) ==>
            && (IsFailure(r.state) ==>
                  run == ManualRun(Err(SigningFailed(TerminalState)), tx, fetched))
            && (r.state in {Signed, Completed} ==> TakesWhatIsHandedOver(prim, c, r, tx, run)))
      && (reply == TransportFailure ==> run == ManualRun(Err(HttpError(TransportFailed)), tx, fetched))
      && (reply.Response? && !(200 <= reply.status < 300) ==>
            run == ManualRun(Err(RemoteApiError(RemoteStatus, None)), tx, fetched))
  {
    var log := SubmitLog(c, prim, Manual, tx);
    SubmitIsAcceptedIff(Manual, answer(log), Key(c, prim, Manual, tx.message));
    PollEndsWhenDecided(answer, false, id, log, c.maxPollAttempts, k);
    var fetched := FetchLog(answer, false, id, log, k);
    forall r | AnsweredWith(answer, fetched, r) && r.state in {Signed, Completed}
      ensures TakesWhatIsHandedOver(prim, c, r, tx, ModifyAndSign(answer, c, prim, tx))
    {
      HandedOverIsTaken(prim, c, r, tx, ModifyAndSign(answer, c, prim, tx));
    }
  }

  lemma HandedOverIsTaken(prim: Primitives, c: Config, r: StatusResponse, tx: Tx, run: ManualRun)
    requires match Rewritten(prim, c, r)
             case Err(e) => run.result == Err(e) && run.tx == tx
             case Ok((returned, encoded, signature)) =>
               run.result == Ok(Classify(returned, encoded, signature)) && run.tx == returned
    ensures TakesWhatIsHandedOver(prim, c, r, tx, run)
  {
    forall t, p: nat, encoded | HandsOver(prim, c, r, t, p, encoded)
      ensures Rewritten(prim, c, r) == Ok((t, encoded, t.signatures[p]))
    {
      RewrittenIffHandedOver(prim, c, r, t, encoded, t.signatures[p]);
    }
    if Rewritten(prim, c, r).Ok? {
      var (t, encoded, signature) := Rewritten(prim, c, r).value;
      RewrittenIffHandedOver(prim, c, r, t, encoded, signature);
    }
  }

  /**
   Manual replacement is atomic: on success the caller holds the verified rewrite, on any error what it
   submitted. Only a transaction the vault pays for is submitted.
   */
  lemma ReplacementIsAtomic(answer: seq<Event> -> Reply, c: Config, prim: Primitives, tx: Tx)
    ensures var run := ModifyAndSign(answer, c, prim, tx);
      && (run.log != [] || run.result.Ok? ==> tx.message.accountKeys != [] && tx.message.accountKeys[0] == c.publicKey)
      && (run.result.Err? ==> run.tx == tx)
      && (run.result.Ok? ==>
            && prim.encodeTx(run.tx) == Some(run.result.value.encoded)
            && (run.result.value.Complete? <==> FullySigned(run.tx))
            && exists p :: Position(run.tx.message, c.publicKey) == Ok(p) && SlotVerifies(prim, run.tx, p)
                           && run.tx.signatures[p] == run.result.value.signature)
  {
    var run := ModifyAndSign(answer, c, prim, tx);
    if run.result.Ok? {
      var log := SubmitLog(c, prim, Manual, tx);
      var id := ReadSubmit(Manual, answer(log), Key(c, prim, Manual, tx.message)).value;
      var r := PollUntil(StatusProbe(answer, false, id), log, 0, c.maxPollAttempts).result.value;
      VaultSlotVerifies(prim, DecodeRaw(prim, r).value, c.publicKey);
    }
  }

  /** Manual mode broadcasts nothing and so never reports an unconfirmed broadcast of its own. */
  lemma ManualIsNeverUnconfirmed(answer: seq<Event> -> Reply, c: Config, prim: Primitives, tx: Tx)
    requires c.requestSigner.Some? ==> !c.requestSigner.value.BroadcastUnconfirmed?
    ensures var result := ModifyAndSign(answer, c, prim, tx).result;
      result.Err? ==> !result.error.BroadcastUnconfirmed?
  {
    var log := SubmitLog(c, prim, Manual, tx);
    var submitted := ReadSubmit(Manual, answer(log), Key(c, prim, Manual, tx.message));
    if submitted.Ok? {
      var probe := StatusProbe(answer, false, submitted.value);
      if PollUntil(probe, log, 0, c.maxPollAttempts).result.Err? {
        ErrComesFromAnAttempt(probe, log, 0, c.maxPollAttempts);
      }
    }
  }
}
