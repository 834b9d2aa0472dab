/**
 Getting a signed transaction on chain: sign first, broadcast once, and only what is fully signed.
 */
module SendGate {
  import opened Core
  import opened Transactions
  import Fordefi
  import FordefiGuarantees

  /** The caller-supplied network hop: it sees the encoded transactions it was given, in order. */
  type Sender = Channel<Bytes, Result<Signature, SignerError>>

  type SendFn = seq<Bytes> -> Result<Signature, SignerError>

  // ---- the gate, behind any signer ----

  /** `broadcast_complete`, given what the signer returned and slot 0 of the transaction it left behind. */
  method BroadcastComplete(result: SignedTransaction, slot0: Option<Signature>, send: Sender)
    returns (r: Result<Signature, SignerError>)
    modifies send`log
    ensures Gate(result, slot0, send.answer, old(send.log)) == (r, send.log)
  {
    if !result.Complete? {
      return Err(SigningFailed(StillPartial));
    }
    if slot0.None? || slot0.value == DEFAULT_SIGNATURE {
      return Err(SigningFailed(NoFeePayerSignature));
    }
    var sent := send.Ask(result.encoded);
    match sent
    case Ok(signature) => return Ok(signature);
    case Err(e) => return Err(BroadcastUnconfirmed(None, None, None, slot0, e.detail));
  }

  function Gate(result: SignedTransaction, slot0: Option<Signature>, answer: SendFn, log: seq<Bytes>)
    : (Result<Signature, SignerError>, seq<Bytes>)
  {
    if result.Partial? then (Err(SigningFailed(StillPartial)), log)
    else if slot0.None? || slot0.value == DEFAULT_SIGNATURE then (Err(SigningFailed(NoFeePayerSignature)), log)
    else
      match answer(log + [result.encoded])
      case Ok(signature) => (Ok(signature), log + [result.encoded])
      case Err(e) => (Err(BroadcastUnconfirmed(None, None, None, slot0, e.detail)), log + [result.encoded])
  }

  function Slot0(tx: Tx): Option<Signature> {
    if tx.signatures == [] then None else Some(tx.signatures[0])
  }

  /** The gate behind a signer that may not tell the truth: what is partial or names no fee payer is not sent. */
  lemma GateSpelled(encoded: Bytes, signature: Signature, slot0: Option<Signature>, answer: SendFn, log: seq<Bytes>)
    ensures Gate(Partial(encoded, signature), slot0, answer, log) == (Err(SigningFailed(StillPartial)), log)
    ensures Gate(Complete(encoded, signature), slot0, answer, log)
         == if slot0 in {None, Some(DEFAULT_SIGNATURE)} then (Err(SigningFailed(NoFeePayerSignature)), log)
            else (match answer(log + [encoded])
                  case Ok(s) => Ok(s)
                  case Err(e) => Err(BroadcastUnconfirmed(None, None, None, slot0, e.detail)), log + [encoded])
  {
  }

  // ---- the signers behind the gate ----

  /**
   What a signer of the library does with a transaction: attach the signature it produced over the message bytes,
   attach a verified signature extracted from a returned transaction, or replace the transaction by a verified
   rewrite.
   */
  datatype Signer =
    | Attaching(key: Pubkey, sign: Bytes -> Result<Signature, SignerError>)
    | Extracting(key: Pubkey, returned: Bytes)
    | Rewriting(config: Fordefi.Config, answer: seq<Fordefi.Event> -> Fordefi.Reply)

  /** The signer's result together with the transaction it leaves behind. */
  function Sign(prim: Primitives, signer: Signer, tx: Tx): (Result<SignedTransaction, SignerError>, Tx) {
    match signer
    case Attaching(key, sign) => Placed(prim, tx, key, sign(prim.messageBytes(tx.message)))
    case Extracting(key, returned) =>
      (RunResult(prim, tx, SigningRun(key, returned)), AfterRun(prim, tx, SigningRun(key, returned)))
    case Rewriting(config, answer) =>
      var run := Fordefi.ModifyAndSign(answer, config, prim, tx);
      (run.result, run.tx)
  }

  datatype SendRun = SendRun(result: Result<Signature, SignerError>, tx: Tx, sent: seq<Bytes>)

  /** `sign_and_send` and `modify_and_send` */
  function SignAndSend(prim: Primitives, signer: Signer, tx: Tx, answer: SendFn): SendRun {
    var (signed, after) := Sign(prim, signer, tx);
    if signed.Err? then SendRun(Err(signed.error), after, [])
    else
      var (result, sent) := Gate(signed.value, Slot0(after), answer, []);
      SendRun(result, after, sent)
  }

  method SignAndSendAttaching(prim: Primitives, key: Pubkey, signer: Channel<Bytes, Result<Signature, SignerError>>,
                              transaction: Transaction, send: Sender)
    returns (r: Result<Signature, SignerError>)
    requires signer != send && signer.log == [] && send.log == []
    modifies transaction`signatures, signer`log, send`log
    ensures SendRun(r, transaction.Value(), send.log)
         == SignAndSend(prim, Attaching(key, message => signer.answer([message])), old(transaction.Value()),
                        send.answer)
    ensures signer.log == [prim.messageBytes(old(transaction.message))]
  {
    var signed := transaction.SignWith(prim, key, signer);
    if signed.Err? {
      return Err(signed.error);
    }
    var slot0 := if transaction.signatures == [] then None else Some(transaction.signatures[0]);
    r := BroadcastComplete(signed.value, slot0, send);
  }

  method SignAndSendExtracting(prim: Primitives, key: Pubkey, returned: Bytes, transaction: Transaction, send: Sender)
    returns (r: Result<Signature, SignerError>)
    requires send.log == []
    modifies transaction`signatures, send`log
    ensures SendRun(r, transaction.Value(), send.log)
         == SignAndSend(prim, Extracting(key, returned), old(transaction.Value()), send.answer)
  {
    var signed := transaction.SignWithReturned(prim, key, returned);
    if signed.Err? {
      return Err(signed.error);
    }
    var slot0 := if transaction.signatures == [] then None else Some(transaction.signatures[0]);
    r := BroadcastComplete(signed.value, slot0, send);
  }

  method ModifyAndSend(prim: Primitives, config: Fordefi.Config, channel: Channel<Fordefi.Event, Fordefi.Reply>,
                       transaction: Transaction, send: Sender)
    returns (r: Result<Signature, SignerError>)
    requires send.log == [] && channel.log == []
    modifies transaction, channel`log, send`log
    ensures SendRun(r, transaction.Value(), send.log)
         == SignAndSend(prim, Rewriting(config, channel.answer), old(transaction.Value()), send.answer)
  {
    var signed := Fordefi.ModifyAndSignTransaction(channel, config, prim, transaction);
    if signed.Err? {
      return Err(signed.error);
    }
    var slot0 := if transaction.signatures == [] then None else Some(transaction.signatures[0]);
    r := BroadcastComplete(signed.value, slot0, send);
  }

  /** A successful signing result tells the truth about the transaction it leaves behind. */
  lemma SignersTellTheTruth(prim: Primitives, signer: Signer, tx: Tx)
    requires Sign(prim, signer, tx).0.Ok?
    ensures var (signed, after) := Sign(prim, signer, tx);
      && prim.encodeTx(after) == Some(signed.value.encoded)
      && (signed.value.Complete? <==> FullySigned(after))
      && after.message.numRequired >= 1
  {
    match signer
    case Attaching(key, sign) =>
    case Extracting(key, returned) =>
    case Rewriting(config, answer) =>
      FordefiGuarantees.ReplacementIsAtomic(answer, config, prim, tx);
  }

  /**
   In every sign-and-send run `send` is called at most once, and only with the serialization of a fully
   signed transaction whose slot 0 is filled.
   */
  lemma SendsOnceAndOnlyWhenComplete(prim: Primitives, signer: Signer, tx: Tx, answer: SendFn)
    ensures var run := SignAndSend(prim, signer, tx, answer);
      && |run.sent| <= 1
      && (run.sent != [] ==>
            && prim.encodeTx(run.tx) == Some(run.sent[0])
            && FullySigned(run.tx)
            && run.tx.signatures != [] && run.tx.signatures[0] != DEFAULT_SIGNATURE)
  {
    if Sign(prim, signer, tx).0.Ok? {
      SignersTellTheTruth(prim, signer, tx);
    }
  }

  /**
   After a send the run mirrors the sender's answer: success verbatim, failure as unconfirmed under the slot-0
   signature.
   */
  lemma SendFailureIsUnconfirmed(prim: Primitives, signer: Signer, tx: Tx, answer: SendFn)
    requires SignAndSend(prim, signer, tx, answer).sent != []
    ensures var run := SignAndSend(prim, signer, tx, answer);
      && run.tx.signatures != []
      && run.result == match answer(run.sent)
                       case Ok(signature) => Ok(signature)
                       case Err(e) => Err(BroadcastUnconfirmed(None, None, None, Some(run.tx.signatures[0]), e.detail))
  {
    SendsOnceAndOnlyWhenComplete(prim, signer, tx, answer);
  }

  /** Behind these signers the slot-0 guard never rejects: a complete result always has a filled slot 0. */
  lemma Slot0GuardNeverRejects(prim: Primitives, signer: Signer, tx: Tx, answer: SendFn)
    ensures SignAndSend(prim, signer, tx, answer).result != Err(SigningFailed(NoFeePayerSignature))
            || Sign(prim, signer, tx).0 == Err(SigningFailed(NoFeePayerSignature))
    ensures var (signed, after) := Sign(prim, signer, tx);
      signed.Ok? && signed.value.Complete? ==> SignAndSend(prim, signer, tx, answer).sent == [signed.value.encoded]
  {
    if Sign(prim, signer, tx).0.Ok? {
      SignersTellTheTruth(prim, signer, tx);
    }
  }

  /** How a run that sends nothing ends: with the signer's own error, or because the result is still partial. */
  lemma UnsentRunsSayWhy(prim: Primitives, signer: Signer, tx: Tx, answer: SendFn)
    ensures var (signed, after) := Sign(prim, signer, tx);
      var run := SignAndSend(prim, signer, tx, answer);
      && run.tx == after
      && (signed.Err? ==> run.result == Err(signed.error) && run.sent == [])
      && (signed.Ok? && !FullySigned(after) ==> run.result == Err(SigningFailed(StillPartial)) && run.sent == [])
      && (signed.Ok? && FullySigned(after) ==> run.sent == [signed.value.encoded])
  {
    if Sign(prim, signer, tx).0.Ok? {
      SignersTellTheTruth(prim, signer, tx);
    }
  }

  // ---- Go: capabilities, and send checked before signing ----

  /** The interfaces a signer value implements; it may implement several, and the first match wins. */
  datatype Capabilities = Capabilities(sends: bool, signs: bool, rewrites: bool)

  /** One call of the signer, by the interface it goes through. */
  datatype Call = SignAndSendCall(tx: Tx) | SignCall(tx: Tx) | ModifyCall(tx: Tx)

  /**
   What a call comes back with: the signature of a broadcast, or a signed transaction and the transaction the call
   left behind. A sending signer leaves the caller's transaction untouched.
   */
  datatype Answer = Answer(broadcast: Result<Signature, SignerError>, signed: Result<SignedTransaction, SignerError>,
                           after: Tx)

  /** A whole call of `SignAndSendTransaction`: what the signer was asked, and what `send` was given. */
  datatype GoRun = GoRun(result: Result<Signature, SignerError>, tx: Tx, calls: seq<Call>, sent: seq<Bytes>)

  /** `require_broadcast_signature` */
  function RequireBroadcastSignature(r: Result<Signature, SignerError>): Result<Signature, SignerError> {
    if r.Ok? && r.value == DEFAULT_SIGNATURE then Err(SigningFailed(NoBroadcastSignature)) else r
  }

  /** `signOnlyEntryPoint` */
  function SignOnlyCall(can: Capabilities, tx: Tx): Call {
    if can.signs then SignCall(tx) else ModifyCall(tx)
  }

  function SignAndSendGo(answer: seq<Call> -> Answer, can: Capabilities, tx: Tx, send: Option<SendFn>): GoRun {
    if can.sends then
      var calls := [SignAndSendCall(tx)];
      GoRun(RequireBroadcastSignature(answer(calls).broadcast), tx, calls, [])
    else if !can.signs && !can.rewrites then GoRun(Err(SigningFailed(NoCapability)), tx, [], [])
    else if send.None? then GoRun(Err(ConfigError(NoSend)), tx, [], [])
    else
      var calls := [SignOnlyCall(can, tx)];
      var a := answer(calls);
      if a.signed.Err? then GoRun(Err(a.signed.error), a.after, calls, [])
      else if a.signed.value.Partial? then GoRun(Err(SigningFailed(StillPartial)), a.after, calls, [])
      else if Slot0(a.after) in {None, Some(DEFAULT_SIGNATURE)} then
        GoRun(Err(SigningFailed(NoFeePayerSignature)), a.after, calls, [])
      else
        var sent := [a.signed.value.encoded];
        GoRun(match send.value(sent)
              case Ok(signature) => Ok(signature)
              case Err(_) => Err(BroadcastUnconfirmed(None, None, None, Slot0(a.after), ReconcileFirst)),
              a.after, calls, sent)
  }

  /** `SignAndSendTransaction` (Go), with any signer behind its interfaces. */
  method SignAndSendTransaction(signer: Channel<Call, Answer>, can: Capabilities, transaction: Transaction,
                                send: Channel?<Bytes, Result<Signature, SignerError>>)
    returns (r: Result<Signature, SignerError>)
    requires signer.log == [] && (send != null ==> send.log == [])
    modifies signer`log, transaction, send
    ensures GoRun(r, transaction.Value(), signer.log, if send == null then [] else send.log)
         == SignAndSendGo(signer.answer, can, old(transaction.Value()),
                          if send == null then None else Some(send.answer))
    ensures send == null && !can.sends ==> signer.log == [] && transaction.Value() == old(transaction.Value())
    ensures send != null && can.sends ==> send.log == []
  {
    var tx := transaction.Value();
    if can.sends {
      var broadcast := signer.Ask(SignAndSendCall(tx));
      assert signer.log == [SignAndSendCall(tx)];
      if broadcast.broadcast.Err? {
        return Err(broadcast.broadcast.error);
      }
      if broadcast.broadcast.value == DEFAULT_SIGNATURE {
        return Err(SigningFailed(NoBroadcastSignature));
      }
      return Ok(broadcast.broadcast.value);
    }
    if !can.signs && !can.rewrites {
      return Err(SigningFailed(NoCapability));
    }
    if send == null {
      return Err(ConfigError(NoSend));
    }
    var answer := signer.Ask(SignOnlyCall(can, tx));
    assert signer.log == [SignOnlyCall(can, tx)];
    transaction.message, transaction.signatures := answer.after.message, answer.after.signatures;
    if answer.signed.Err? {
      return Err(answer.signed.error);
    }
    if !answer.signed.value.Complete? {
      return Err(SigningFailed(StillPartial));
    }
    if |transaction.signatures| == 0 || transaction.signatures[0] == DEFAULT_SIGNATURE {
      return Err(SigningFailed(NoFeePayerSignature));
    }
    var sent := send.Ask(answer.signed.value.encoded);
    assert send.log == [answer.signed.value.encoded];
    if sent.Ok? {
      return Ok(sent.value);
    }
    return Err(BroadcastUnconfirmed(None, None, None, Some(transaction.signatures[0]), ReconcileFirst));
  }

  /**
   Whatever the signer answers: it is asked at most once, and never when there is no way to use what it would sign;
   a signer that broadcasts makes `send` superfluous and never yields a default signature; and `send` gets only
   what the signer called complete, under a filled slot 0.
   */
  lemma GoNeverWastesASignature(answer: seq<Call> -> Answer, can: Capabilities, tx: Tx, send: Option<SendFn>)
    ensures var run := SignAndSendGo(answer, can, tx, send);
      && |run.calls| <= 1
      && (run.calls == [] <==> !can.sends && (send.None? || (!can.signs && !can.rewrites)))
      && (run.calls == [] ==> run.result.Err? && run.tx == tx && run.sent == [])
      && (can.sends ==> run.sent == [] && run.tx == tx && run.result != Ok(DEFAULT_SIGNATURE))
      && (run.sent != [] ==>
            && run.calls != [] && answer(run.calls).signed.Ok? && answer(run.calls).signed.value.Complete?
            && run.sent == [answer(run.calls).signed.value.encoded]
            && run.tx.signatures != [] && run.tx.signatures[0] != DEFAULT_SIGNATURE)
  {
  }

  /**
   Behind the signers of the library, through whichever interface, the Go function leaves the same transaction and
   makes the same sends as the Rust one. The results are the same exactly when no send failed, or it failed with the
   very text Go writes: of a failed send Rust passes on the sender's text, Go its own, and nothing else differs.
   */
  lemma GoRefinesRust(prim: Primitives, signer: Signer, answer: seq<Call> -> Answer, can: Capabilities, tx: Tx,
                      send: SendFn)
    requires !can.sends && (can.signs || can.rewrites)
    requires var a := answer([SignOnlyCall(can, tx)]); (a.signed, a.after) == Sign(prim, signer, tx)
    ensures var go, rust := SignAndSendGo(answer, can, tx, Some(send)), SignAndSend(prim, signer, tx, send);
      && go.tx == rust.tx && go.sent == rust.sent
      && (go.result == rust.result <==>
            go.sent == [] || send(go.sent).Ok? || send(go.sent).error.detail == ReconcileFirst)
      && (go.sent != [] && send(go.sent).Err? ==>
            && rust.result == Err(BroadcastUnconfirmed(None, None, None, Slot0(go.tx), send(go.sent).error.detail))
            && go.result == Err(BroadcastUnconfirmed(None, None, None, Slot0(go.tx), ReconcileFirst)))
      && |go.sent| <= 1
      && (go.sent != [] ==> FullySigned(go.tx) && prim.encodeTx(go.tx) == Some(go.sent[0]))
  {
    SendsOnceAndOnlyWhenComplete(prim, signer, tx, send);
    var a := answer([SignOnlyCall(can, tx)]);
    if a.signed.Ok? {
      GateSpelled(a.signed.value.encoded, a.signed.value.signature, Slot0(a.after), send, []);
    }
  }

  /**
   A signer that broadcasts decides the outcome alone: its signature and its error come through as they are, and only a
   default signature, which identifies nothing, is turned into an error.
   */
  lemma BroadcastComesThrough(answer: seq<Call> -> Answer, can: Capabilities, tx: Tx, send: Option<SendFn>)
    requires can.sends
    ensures var run, broadcast := SignAndSendGo(answer, can, tx, send), answer([SignAndSendCall(tx)]).broadcast;
      && run.calls == [SignAndSendCall(tx)]
      && (forall s :: broadcast == Ok(s) && s != DEFAULT_SIGNATURE ==> run.result == Ok(s))
      && (forall e :: broadcast == Err(e) ==> run.result == Err(e))
      && (broadcast == Ok(DEFAULT_SIGNATURE) ==> run.result == Err(SigningFailed(NoBroadcastSignature)))
  {
  }

  /** How a Go run behind any other signer ends: which interface is called, and what each refusal says. */
  lemma GoRefusalsSayWhy(answer: seq<Call> -> Answer, can: Capabilities, tx: Tx, send: Option<SendFn>)
    requires !can.sends
    ensures var run := SignAndSendGo(answer, can, tx, send);
      && (!can.signs && !can.rewrites ==> run.result == Err(SigningFailed(NoCapability)))
      && ((can.signs || can.rewrites) && send.None? ==> run.result == Err(ConfigError(NoSend)))
      && ((can.signs || can.rewrites) && send.Some? ==>
            && run.calls == [if can.signs then SignCall(tx) else ModifyCall(tx)]
            && var a := answer(run.calls);
               && run.tx == a.after
               && (a.signed.Err? ==> run.result == Err(a.signed.error) && run.sent == [])
               && (a.signed.Ok? && a.signed.value.Partial? ==>
                     run.result == Err(SigningFailed(StillPartial)) && run.sent == [])
               && (a.signed.Ok? && a.signed.value.Complete? ==>
                     if a.after.signatures == [] || a.after.signatures[0] == DEFAULT_SIGNATURE then
                       run.result == Err(SigningFailed(NoFeePayerSignature)) && run.sent == []
                     else
                       && run.sent == [a.signed.value.encoded]
                       && (forall s :: send.value(run.sent) == Ok(s) ==> run.result == Ok(s))))
  {
  }
}
