/**
 Fordefi's native signers: auto mode, where Fordefi broadcasts what it rewrote, and manual mode, where
 the caller's transaction is replaced by the one Fordefi rewrote and signed.
 */
module Fordefi {
  import opened Core
  import opened Transactions
  import opened Idempotency
  import opened Polling
  import opened PendingSlot

  datatype State =
    | Signed | Completed
    | Aborted | Cancelled | Dropped | CompletedReverted
    | ErrorPushing | ErrorSigning | InsufficientFunds | MinedReverted
    | InFlight(text: string)

  datatype StatusResponse = StatusResponse(state: State, rawTransaction: Option<string>)

  /** A response body as the client observes it: its `id` field and its two typed forms. */
  datatype Body = Unreadable | Json(id: Field, created: Option<string>, status: Option<StatusResponse>)

  datatype Reply = TransportFailure | Response(status: nat, body: Body)

  datatype Event = Submitted(terms: Terms, data: Bytes, key: string) | Fetched(id: string) | Slept

  /** `requestSigner` is the failure of the API-request signer, if it fails. */
  datatype Config = Config(
    publicKey: Pubkey, chain: Chain, vault: Bytes, fee: Option<Fee>, requestSigner: Option<SignerError>,
    maxPollAttempts: nat)

  function TermsOf(c: Config, mode: PushMode): Terms {
    Terms(mode, c.chain, c.vault, c.fee)
  }

  function Key(c: Config, prim: Primitives, mode: PushMode, message: Message): string {
    KeyOf(prim, FordefiPreimage(TermsOf(c, mode), prim.messageBytes(message)))
  }

  // ---- submitting ----

  function IdInBody(body: Body): Option<string> {
    if body.Json? && body.id.Text? && !Blank(body.id.text) then Some(body.id.text) else None
  }

  /** The `classify` closure: only a broadcast-managed submit reports an unresolved failure as unconfirmed. */
  function ClassifySubmit(mode: PushMode, status: Option<nat>, id: Option<string>, key: string, error: SignerError)
    : SignerError
  {
    if mode.Auto? then UnconfirmedUnlessRejected(status, id, Some(key), error) else error
  }

  /** `submit_request`, from the reply on. */
  function ReadSubmit(mode: PushMode, reply: Reply, key: string): Result<string, SignerError> {
    match reply
    case TransportFailure => Err(ClassifySubmit(mode, None, None, key, HttpError(TransportFailed)))
    case Response(status, body) =>
      if !(200 <= status < 300) then
        Err(ClassifySubmit(mode, Some(status), IdInBody(body), key, RemoteApiError(RemoteStatus, None)))
      else if body.Unreadable? then Err(ClassifySubmit(mode, Some(status), None, key, HttpError(BodyUnreadable)))
      else if body.created.None? then
        Err(ClassifySubmit(mode, Some(status), IdInBody(body), key, SerializationError(BadJson)))
      else if Blank(body.created.value) then
        Err(ClassifySubmit(mode, Some(status), IdInBody(body), key, SerializationError(BlankId)))
      else Ok(body.created.value)
  }

  // ---- polling ----

  predicate TerminalFailure(state: State) {
    !state.Signed? && !state.Completed? && !state.InFlight?
  }

  /** One attempt of `poll_for_result`. */
  function ReadStatus(pushable: bool, reply: Reply): Attempt<StatusResponse> {
    match reply
    case TransportFailure => Fail(HttpError(TransportFailed))
    case Response(status, body) =>
      if !(200 <= status < 300) then Fail(RemoteApiError(RemoteStatus, None))
      else if body.Unreadable? then Fail(HttpError(BodyUnreadable))
      else if body.status.None? then Fail(SerializationError(BadJson))
      else
        var r := body.status.value;
        if r.state.Completed? || (!pushable && r.state.Signed?) then Done(r)
        else if TerminalFailure(r.state) then Fail(SigningFailed(TerminalState))
        else Pending
  }

  function StatusProbe(answer: seq<Event> -> Reply, pushable: bool, id: string): Probe<Event, Reply, StatusResponse> {
    Probe(answer, r => ReadStatus(pushable, r), Fetched(id), Slept, RemoteApiError(PollTimeout, Some(id)))
  }

  function DecodeRaw(prim: Primitives, r: StatusResponse): Result<Bytes, SignerError> {
    if r.rawTransaction.None? then Err(SigningFailed(MissingRawTransaction))
    else
      match prim.base64(r.rawTransaction.value)
      case None => Err(SerializationError(BadBase64))
      case Some(bytes) => Ok(bytes)
  }

  // ---- auto: Fordefi broadcasts ----

  datatype ManagedRun = ManagedRun(result: Result<Signature, SignerError>, log: seq<Event>)

  /** `validate_transaction` of the auto signer. */
  function ValidateAuto(c: Config, tx: Tx): Option<SignerError> {
    if tx.message.numRequired != 1 || tx.message.accountKeys == [] || tx.message.accountKeys[0] != c.publicKey then
      Some(SigningFailed(NotSoleSigner))
    else if exists i :: 0 <= i < |tx.signatures| && tx.signatures[i] != DEFAULT_SIGNATURE then
      Some(SigningFailed(AlreadySigned))
    else None
  }

  /**
   `finish_broadcast` after the poll: the vault's slot verifies, and so does the fee payer's, which identifies
   the broadcast.
   */
  function Identify(prim: Primitives, c: Config, r: StatusResponse): Result<Signature, SignerError> {
    match DecodeRaw(prim, r)
    case Err(e) => Err(e)
    case Ok(bytes) =>
      match ExtractRewritten(prim, bytes, c.publicKey)
      case Err(e) => Err(e)
      case Ok((returned, _)) =>
        if returned.signatures == [] || returned.signatures[0] == DEFAULT_SIGNATURE then
          Err(SigningFailed(NoFeePayerSignature))
        else if returned.message.accountKeys == [] then Err(SigningFailed(NoFeePayerSignature))
        else if prim.verifies(returned.signatures[0], returned.message.accountKeys[0],
                              prim.messageBytes(returned.message)) then
          Ok(returned.signatures[0])
        else Err(SigningFailed(NotVerified))
  }

  function SubmitLog(c: Config, prim: Primitives, mode: PushMode, tx: Tx): seq<Event> {
    [Submitted(TermsOf(c, mode), prim.messageBytes(tx.message), Key(c, prim, mode, tx.message))]
  }

  function FinishAuto(answer: seq<Event> -> Reply, c: Config, prim: Primitives, id: string, log: seq<Event>)
    : ManagedRun
  {
    var polled := PollUntil(StatusProbe(answer, true, id), log, 0, c.maxPollAttempts);
    var result := if polled.result.Err? then Err(polled.result.error) else Identify(prim, c, polled.result.value);
    ManagedRun(if result.Ok? then Ok(result.value)
               else Err(BroadcastUnconfirmed(Some(id), None, None, None, result.error.detail)), polled.log)
  }

  /** `sign_and_broadcast` */
  function SignAndBroadcast(answer: seq<Event> -> Reply, c: Config, prim: Primitives, tx: Tx): ManagedRun {
    if ValidateAuto(c, tx).Some? then ManagedRun(Err(ValidateAuto(c, tx).value), [])
    else if c.requestSigner.Some? then ManagedRun(Err(c.requestSigner.value), [])
    else
      var log := SubmitLog(c, prim, Auto, tx);
      match ReadSubmit(Auto, answer(log), Key(c, prim, Auto, tx.message))
      case Err(e) => ManagedRun(Err(e), log)
      case Ok(id) => FinishAuto(answer, c, prim, id, log)
  }

  /** What an auto run does to the list of pending ids: it records the submitted id, and clears it at the end. */
  ghost function Recordings(answer: seq<Event> -> Reply, c: Config, prim: Primitives, tx: Tx): seq<SlotEvent> {
    if ValidateAuto(c, tx).Some? || c.requestSigner.Some? then []
    else
      match ReadSubmit(Auto, answer(SubmitLog(c, prim, Auto, tx)), Key(c, prim, Auto, tx.message))
      case Err(_) => []
      case Ok(id) => [Pushed(id), Cleared(id)]
  }

  method SignAndBroadcastTransaction(channel: Channel<Event, Reply>, c: Config, prim: Primitives,
                                     transaction: Transaction, pending: PendingTransactionId?)
    returns (r: Result<Signature, SignerError>)
    requires channel.log == []
    modifies channel`log, pending
    ensures ManagedRun(r, channel.log) == SignAndBroadcast(channel.answer, c, prim, transaction.Value())
    ensures pending != null ==> multiset(pending.slot) == multiset(old(pending.slot))
    ensures pending != null ==>
      pending.events == old(pending.events) + Recordings(channel.answer, c, prim, transaction.Value())
  {
    var invalid := ValidateAuto(c, transaction.Value());
    if invalid.Some? {
      return Err(invalid.value);
    }
    if c.requestSigner.Some? {
      return Err(c.requestSigner.value);
    }
    var key := Key(c, prim, Auto, transaction.message);
    var reply := channel.Ask(Submitted(TermsOf(c, Auto), prim.messageBytes(transaction.message), key));
    assert channel.log == SubmitLog(c, prim, Auto, transaction.Value());
    var submitted := ReadSubmit(Auto, reply, key);
    if submitted.Err? {
      return Err(submitted.error);
    }
    var id := submitted.value;
    if pending != null {
      pending.Set(id);
    }
    var polled := PollUntilLoop(channel, r => ReadStatus(true, r), Fetched(id), Slept,
                                RemoteApiError(PollTimeout, Some(id)), c.maxPollAttempts);
    var result := if polled.Err? then Err(polled.error) else Identify(prim, c, polled.value);
    r := if result.Ok? then Ok(result.value)
         else Err(BroadcastUnconfirmed(Some(id), None, None, None, result.error.detail));
    if pending != null {
      pending.Clear(id);
    }
  }

  // ---- manual: Fordefi rewrites and signs, the caller broadcasts ----

  datatype ManualRun = ManualRun(result: Result<SignedTransaction, SignerError>, tx: Tx, log: seq<Event>)

  function ValidateManual(c: Config, tx: Tx): Option<SignerError> {
    if tx.message.accountKeys == [] || tx.message.accountKeys[0] != c.publicKey then Some(SigningFailed(NotFeePayer))
    else None
  }

  /** The replacement a status response leads to, or why there is none. */
  function Rewritten(prim: Primitives, c: Config, r: StatusResponse): Result<(Tx, Bytes, Signature), SignerError> {
    match DecodeRaw(prim, r)
    case Err(e) => Err(e)
    case Ok(bytes) =>
      match ExtractRewritten(prim, bytes, c.publicKey)
      case Err(e) => Err(e)
      case Ok((returned, signature)) =>
        match prim.encodeTx(returned)
        case None => Err(SerializationError(CannotSerialize))
        case Some(encoded) => Ok((returned, encoded, signature))
  }

  /** `modify_and_sign_transaction` */
  function ModifyAndSign(answer: seq<Event> -> Reply, c: Config, prim: Primitives, tx: Tx): ManualRun {
    if ValidateManual(c, tx).Some? then ManualRun(Err(ValidateManual(c, tx).value), tx, [])
    else if c.requestSigner.Some? then ManualRun(Err(c.requestSigner.value), tx, [])
    else
      var log := SubmitLog(c, prim, Manual, tx);
      match ReadSubmit(Manual, answer(log), Key(c, prim, Manual, tx.message))
      case Err(e) => ManualRun(Err(e), tx, log)
      case Ok(id) =>
        var polled := PollUntil(StatusProbe(answer, false, id), log, 0, c.maxPollAttempts);
        if polled.result.Err? then ManualRun(Err(polled.result.error), tx, polled.log)
        else
          match Rewritten(prim, c, polled.result.value)
          case Err(e) => ManualRun(Err(e), tx, polled.log)
          case Ok((returned, encoded, signature)) =>
            ManualRun(Ok(Classify(returned, encoded, signature)), returned, polled.log)
  }

  method ModifyAndSignTransaction(channel: Channel<Event, Reply>, c: Config, prim: Primitives, transaction: Transaction)
    returns (r: Result<SignedTransaction, SignerError>)
    requires channel.log == []
    modifies channel`log, transaction
    ensures ManualRun(r, transaction.Value(), channel.log) ==
      ModifyAndSign(channel.answer, c, prim, old(transaction.Value()))
  {
    var invalid := ValidateManual(c, transaction.Value());
    if invalid.Some? {
      return Err(invalid.value);
    }
    if c.requestSigner.Some? {
      return Err(c.requestSigner.value);
    }
    var key := Key(c, prim, Manual, transaction.message);
    var reply := channel.Ask(Submitted(TermsOf(c, Manual), prim.messageBytes(transaction.message), key));
    assert channel.log == SubmitLog(c, prim, Manual, transaction.Value());
    var submitted := ReadSubmit(Manual, reply, key);
    if submitted.Err? {
      return Err(submitted.error);
    }
    var id := submitted.value;
    var polled := PollUntilLoop(channel, r => ReadStatus(false, r), Fetched(id), Slept,
                                RemoteApiError(PollTimeout, Some(id)), c.maxPollAttempts);
    if polled.Err? {
      return Err(polled.error);
    }
    var rewritten := Rewritten(prim, c, polled.value);
    if rewritten.Err? {
      return Err(rewritten.error);
    }
    var (returned, encoded, signature) := rewritten.value;
    transaction.message, transaction.signatures := returned.message, returned.signatures;
    var full := transaction.HasAllRequiredSignatures();
    r := Ok(if full then Complete(encoded, signature) else Partial(encoded, signature));
  }
}
