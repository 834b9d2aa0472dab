/**
 Crossmint's managed broadcast: create, poll, approve at most once, extract, classify. The provider is
 an arbitrary function of everything sent to it so far, so every statement below is about every run.
 */
module Crossmint {
  import opened Core
  import opened Transactions
  import opened Idempotency
  import opened PendingSlot

  datatype Status = Success | Failed | AwaitingApproval | InFlight(text: string)

  /** A challenge for one approver; `locator` is the approver it is addressed to. */
  datatype PendingApproval = PendingApproval(message: Option<string>, locator: Option<Bytes>)

  datatype OnChain = OnChain(transaction: Option<string>, txId: Option<string>)

  datatype TransactionResponse = TransactionResponse(
    id: string, status: Status, onChain: Option<OnChain>, approvals: Option<seq<PendingApproval>>)

  /** What one client's decoder makes of a body: its `id` field, whether it names an error, and its typed form. */
  datatype View = View(id: Field, namesError: bool, typed: Option<TransactionResponse>)

  /** A response body. The two decoders follow different rules, so each client has a view of its own. */
  datatype Body = Unreadable | Json(rust: View, go: View)

  datatype Reply = TransportFailure | Response(status: nat, body: Body)

  datatype Request =
    | Create(transaction: Bytes, signer: Option<Bytes>, key: string)
    | Get(id: string)
    | Approve(id: string, locator: Bytes, signature: Signature)

  datatype Event = Sent(request: Request) | Slept

  /**
   `interrupted` says whether the sleep that ends a log was cut short by a cancelled context. Only the Go client's
   sleep can be: the Rust client sleeps through.
   */
  datatype Env = Env(answer: seq<Event> -> Reply, interrupted: seq<Event> -> bool)

  /**
   The two clients share the machine; they differ in their decoders, in how a create is read, in what an empty locator
   means, and in whether a sleep can be interrupted.
   */
  datatype Client = Rust | Go

  datatype Config = Config(
    client: Client, publicKey: Option<Pubkey>, locator: Option<Bytes>, signingKey: Option<Bytes>, urlUsable: bool,
    maxPollAttempts: nat)

  // ---- reading a response ----

  function Seen(client: Client, body: Body): View
    requires body.Json?
  {
    if client.Rust? then body.rust else body.go
  }

  /** The field check behind `value_to_typed` and `hasUsableField`: Go decodes a null as an empty, so blank, string. */
  predicate HasUsableId(client: Client, view: View) {
    match view.id
    case Missing => false
    case Null => client.Rust?
    case NotText => true
    case Text(id) => !Blank(id)
  }

  /** `value_to_typed` */
  function ValueToTyped(client: Client, status: nat, view: View): Result<TransactionResponse, SignerError> {
    if status >= 400 then Err(RemoteApiError(RemoteMessage, None))
    else if !HasUsableId(client, view) then
      if view.namesError then Err(RemoteApiError(RemoteMessage, None)) else Err(SerializationError(MissingField))
    else if view.typed.None? then Err(SerializationError(BadJson))
    else Ok(view.typed.value)
  }

  /** `parse_response_with_required_field`, transport failure included. */
  function Parse(client: Client, reply: Reply): Result<TransactionResponse, SignerError> {
    match reply
    case TransportFailure => Err(HttpError(TransportFailed))
    case Response(status, body) =>
      if body.Unreadable? then Err(HttpError(BodyUnreadable)) else ValueToTyped(client, status, Seen(client, body))
  }

  /** The recovery handle: a readable, non-blank id in the body, usable or not. The Go client trims it. */
  function IdInBody(client: Client, view: View): Option<string> {
    if !view.id.Text? || Blank(view.id.text) then None
    else Some(if client.Go? then Trim(view.id.text) else view.id.text)
  }

  /**
   `create_transaction`: what the reply to a create means. The Go client has no status for a body it cannot
   read.
   */
  function ReadCreate(client: Client, reply: Reply, key: string): Result<TransactionResponse, SignerError> {
    match reply
    case TransportFailure => Err(UnconfirmedUnlessRejected(None, None, Some(key), HttpError(TransportFailed)))
    case Response(status, body) =>
      if body.Unreadable? then
        var known := if client.Go? then None else Some(status);
        Err(UnconfirmedUnlessRejected(known, None, Some(key), HttpError(BodyUnreadable)))
      else
        var view := Seen(client, body);
        match ValueToTyped(client, status, view)
        case Ok(r) => Ok(r)
        case Err(e) => Err(UnconfirmedUnlessRejected(Some(status), IdInBody(client, view), Some(key), e))
  }

  // ---- approving ----

  /** Entry `i` is the first challenge addressed to `locator`. */
  predicate OurEntry(entries: seq<PendingApproval>, locator: Bytes, i: nat) {
    && i < |entries|
    && entries[i].locator == Some(locator)
    && forall j :: 0 <= j < i ==> entries[j].locator != Some(locator)
  }

  function FindEntry(entries: seq<PendingApproval>, locator: Bytes): (r: Option<nat>)
    ensures r.Some? ==> OurEntry(entries, locator, r.value)
    ensures r.None? ==> forall j :: 0 <= j < |entries| ==> entries[j].locator != Some(locator)
  {
    if entries == [] then None
    else if entries[0].locator == Some(locator) then Some(0)
    else
      match FindEntry(entries[1..], locator)
      case None => None
      case Some(i) => Some(i + 1)
  }

  /** `handle_awaiting_approval` up to the request it sends. */
  function ApprovalFor(c: Config, prim: Primitives, r: TransactionResponse): Result<Request, SignerError> {
    if c.signingKey.None? || c.locator.None? || (c.client.Go? && c.locator.value == []) || r.approvals.None? then
      Err(SigningFailed(NeedsApproval))
    else
      match FindEntry(r.approvals.value, c.locator.value)
      case None => Err(SigningFailed(NeedsApproval))
      case Some(i) =>
        var message := r.approvals.value[i].message;
        if message.None? then Err(SigningFailed(NoPendingMessage))
        else
          match prim.base58(message.value)
          case None => Err(SigningFailed(BadBase58))
          case Some(bytes) => Ok(Approve(r.id, c.locator.value, prim.sign(c.signingKey.value, bytes)))
  }

  // ---- polling ----

  datatype Poll =
    | Live(response: TransactionResponse, approved: bool, log: seq<Event>)
    | Dead(error: SignerError, log: seq<Event>)

  predicate Settled(s: Poll) {
    s.Dead? || s.response.status.Success? || s.response.status.Failed?
  }

  function Resume(client: Client, reply: Reply, approved: bool, log: seq<Event>): Poll {
    match Parse(client, reply)
    case Ok(r) => Live(r, approved, log)
    case Err(e) => Dead(e, log)
  }

  /** One pass through the loop body on a response that settles nothing. */
  function Advance(env: Env, c: Config, prim: Primitives, s: Poll): Poll
    requires !Settled(s)
  {
    if s.response.status.AwaitingApproval? && !s.approved then
      match ApprovalFor(c, prim, s.response)
      case Err(e) => Dead(e, s.log)
      case Ok(request) =>
        var log := s.log + [Sent(request)];
        Resume(c.client, env.answer(log), true, log)
    else
      var slept := s.log + [Slept];
      if c.client.Go? && env.interrupted(slept) then
        Dead(BroadcastUnconfirmed(Some(s.response.id), None, None, None, PollCancelled), slept)
      else
        var log := slept + [Sent(Get(s.response.id))];
        Resume(c.client, env.answer(log), s.approved, log)
  }

  /** The final status check, which also reads a settled state. */
  function FinalCheck(s: Poll): Result<TransactionResponse, SignerError> {
    if s.Dead? then Err(s.error)
    else if s.response.status.Success? then Ok(s.response)
    else if s.response.status.Failed? then Err(SigningFailed(ProviderFailed))
    else if s.response.status.AwaitingApproval? && !s.approved then Err(SigningFailed(NeedsApproval))
    else Err(RemoteApiError(PollTimeout, None))
  }

  /** The reference machine without a budget: its state after `k` loop passes. */
  function At(env: Env, c: Config, prim: Primitives, s: Poll, k: nat): Poll
    decreases k
  {
    if k == 0 || Settled(s) then s else At(env, c, prim, Advance(env, c, prim, s), k - 1)
  }

  /** `poll_transaction` with a budget of `n` passes. */
  function PollFrom(env: Env, c: Config, prim: Primitives, s: Poll, n: nat)
    : (Result<TransactionResponse, SignerError>, seq<Event>)
    decreases n
  {
    if n == 0 || Settled(s) then (FinalCheck(s), s.log) else PollFrom(env, c, prim, Advance(env, c, prim, s), n - 1)
  }

  method PollTransaction(channel: Channel<Event, Reply>, interrupted: seq<Event> -> bool, c: Config, prim: Primitives,
                         first: TransactionResponse)
    returns (r: Result<TransactionResponse, SignerError>)
    modifies channel`log
    ensures (r, channel.log)
         == PollFrom(Env(channel.answer, interrupted), c, prim, Live(first, false, old(channel.log)), c.maxPollAttempts)
  {
    ghost var env := Env(channel.answer, interrupted);
    ghost var start := Live(first, false, channel.log);
    var response, approvalSubmitted := first, false;
    for i := 0 to c.maxPollAttempts
      invariant PollFrom(env, c, prim, start, c.maxPollAttempts)
             == PollFrom(env, c, prim, Live(response, approvalSubmitted, channel.log), c.maxPollAttempts - i)
    {
      if response.status.Success? {
        return Ok(response);
      } else if response.status.Failed? {
        return Err(SigningFailed(ProviderFailed));
      } else if response.status.AwaitingApproval? && !approvalSubmitted {
        var request := ApprovalFor(c, prim, response);
        if request.Err? {
          return Err(request.error);
        }
        var reply := channel.Ask(Sent(request.value));
        var parsed := Parse(c.client, reply);
        if parsed.Err? {
          return Err(parsed.error);
        }
        response, approvalSubmitted := parsed.value, true;
      } else {
        channel.Note(Slept);
        if c.client.Go? && interrupted(channel.log) {
          return Err(BroadcastUnconfirmed(Some(response.id), None, None, None, PollCancelled));
        }
        var reply := channel.Ask(Sent(Get(response.id)));
        var parsed := Parse(c.client, reply);
        if parsed.Err? {
          return Err(parsed.error);
        }
        response := parsed.value;
      }
    }
    return FinalCheck(Live(response, approvalSubmitted, channel.log));
  }

  // ---- extracting the identifying signature ----

  /** `onChain.transaction` decodes to a transaction with enough keys and a filled fee-payer slot. */
  function Landed(prim: Primitives, text: string): (r: Result<Tx, SignerError>)
    ensures r.Ok? ==> EnoughKeys(r.value.message) && r.value.message.accountKeys != [] && r.value.signatures != []
                      && r.value.signatures[0] != DEFAULT_SIGNATURE
  {
    match prim.base58(text)
    case None => Err(SerializationError(BadBase58))
    case Some(bytes) =>
      match prim.decodeTx(bytes)
      case None => Err(SerializationError(CannotDeserialize))
      case Some(tx) =>
        if !EnoughKeys(tx.message) then Err(SigningFailed(NotEnoughKeys))
        else if tx.message.accountKeys == [] then Err(SigningFailed(NoAccountKeys))
        else if tx.signatures == [] || tx.signatures[0] == DEFAULT_SIGNATURE then Err(SigningFailed(SlotMissing))
        else Ok(tx)
  }

  /** `signature_from_base58` */
  function Base58Signature(prim: Primitives, text: string): Option<Signature> {
    match prim.base58(text)
    case None => None
    case Some(bytes) => if |bytes| == 64 then Some(bytes) else None
  }

  /** `extract_signature_from_response` */
  function Extract(prim: Primitives, r: TransactionResponse): Result<Signature, SignerError> {
    if r.onChain.None? then Err(SigningFailed(NothingToExtract))
    else
      var chain := r.onChain.value;
      if chain.transaction.Some? && Landed(prim, chain.transaction.value).Ok? then
        var tx := Landed(prim, chain.transaction.value).value;
        if prim.verifies(tx.signatures[0], tx.message.accountKeys[0], prim.messageBytes(tx.message)) then
          Ok(tx.signatures[0])
        else Err(SigningFailed(NotVerified))
      else if chain.transaction.Some? && chain.txId.None? then Err(Landed(prim, chain.transaction.value).error)
      else if chain.txId.Some? then
        match Base58Signature(prim, chain.txId.value)
        case None => Err(SigningFailed(BadTxId))
        case Some(s) => Ok(s)
      else Err(SigningFailed(NothingToExtract))
  }

  // ---- the whole run ----

  datatype ManagedRun = ManagedRun(result: Result<Signature, SignerError>, log: seq<Event>)

  function Key(c: Config, prim: Primitives, tx: Tx): string {
    KeyOf(prim, CrossmintPreimage(c.locator, prim.messageBytes(tx.message)))
  }

  function CreateLog(c: Config, prim: Primitives, tx: Tx, encoded: Bytes): seq<Event> {
    [Sent(Create(encoded, c.locator, Key(c, prim, tx)))]
  }

  /** What happens after the provider returned `created`; the error is wrapped whatever it was. */
  function Finish(env: Env, c: Config, prim: Primitives, created: TransactionResponse, key: string, log: seq<Event>)
    : ManagedRun
  {
    var (polled, log') := PollFrom(env, c, prim, Live(created, false, log), c.maxPollAttempts);
    var result := if polled.Err? then Err(polled.error) else Extract(prim, polled.value);
    ManagedRun(if result.Ok? then Ok(result.value)
        else Err(BroadcastUnconfirmed(Some(created.id), None, Some(key), None, result.error.detail)), log')
  }

  /** `execute_managed_transaction` */
  function Execute(env: Env, c: Config, prim: Primitives, tx: Tx): ManagedRun {
    if c.publicKey.None? then ManagedRun(Err(ConfigError(NotInitialized)), [])
    else
      match prim.encodeTx(tx)
      case None => ManagedRun(Err(SerializationError(CannotSerialize)), [])
      case Some(encoded) =>
        if !c.urlUsable then ManagedRun(Err(ConfigError(NoBaseUrl)), [])
        else
          var log := CreateLog(c, prim, tx, encoded);
          match ReadCreate(c.client, env.answer(log), Key(c, prim, tx))
          case Err(e) => ManagedRun(Err(e), log)
          case Ok(created) => Finish(env, c, prim, created, Key(c, prim, tx), log)
  }

  /** What a run does to the list of pending ids: it records the created id, and clears it at the end. */
  ghost function Recordings(env: Env, c: Config, prim: Primitives, tx: Tx): seq<SlotEvent> {
    if c.publicKey.None? || prim.encodeTx(tx).None? || !c.urlUsable then []
    else
      var log := CreateLog(c, prim, tx, prim.encodeTx(tx).value);
      match ReadCreate(c.client, env.answer(log), Key(c, prim, tx))
      case Err(_) => []
      case Ok(created) => [Pushed(created.id), Cleared(created.id)]
  }

  /**
   The imperative run, with an optional shared list of pending ids. The caller's transaction is only
   read, and a run that is not cancelled leaves the list holding what it held before.
   */
  method ExecuteManagedTransaction(channel: Channel<Event, Reply>, interrupted: seq<Event> -> bool, c: Config,
                                   prim: Primitives, transaction: Transaction, pending: PendingTransactionId?)
    returns (r: Result<Signature, SignerError>)
    requires channel.log == []
    modifies channel`log, pending
    ensures ManagedRun(r, channel.log) == Execute(Env(channel.answer, interrupted), c, prim, transaction.Value())
    ensures pending != null ==> multiset(pending.slot) == multiset(old(pending.slot))
    ensures pending != null ==>
      pending.events
        == old(pending.events) + Recordings(Env(channel.answer, interrupted), c, prim, transaction.Value())
  {
    if c.publicKey.None? {
      return Err(ConfigError(NotInitialized));
    }
    var encoded := prim.encodeTx(transaction.Value());
    if encoded.None? {
      return Err(SerializationError(CannotSerialize));
    }
    if !c.urlUsable {
      return Err(ConfigError(NoBaseUrl));
    }
    var key := Key(c, prim, transaction.Value());
    var reply := channel.Ask(Sent(Create(encoded.value, c.locator, key)));
    assert channel.log == CreateLog(c, prim, transaction.Value(), encoded.value);
    var created := ReadCreate(c.client, reply, key);
    if created.Err? {
      return Err(created.error);
    }
    var id := created.value.id;
    if pending != null {
      pending.Set(id);
    }
    var polled := PollTransaction(channel, interrupted, c, prim, created.value);
    var extracted := if polled.Err? then Err(polled.error) else Extract(prim, polled.value);
    r := if extracted.Ok? then Ok(extracted.value)
         else Err(BroadcastUnconfirmed(Some(id), None, Some(key), None, extracted.error.detail));
    if pending != null {
      pending.Clear(id);
    }
  }
}
