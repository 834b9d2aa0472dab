/**
 Signature slots of a transaction: where a signer's signature belongs, how it is placed, and
 when the transaction counts as fully signed.
 */
module Transactions {
  import opened Core

  /** The first index holding `key`, as `iter().position` finds it. */
  function IndexOf(keys: seq<Pubkey>, key: Pubkey): (r: Option<nat>)
    ensures r.Some? ==> r.value < |keys| && keys[r.value] == key && key !in keys[..r.value]
    ensures r.None? <==> key !in keys
  {
    if keys == [] then None
    else if keys[0] == key then Some(0)
    else
      match IndexOf(keys[1..], key)
      case None => None
      case Some(i) =>
        assert keys[..i + 1] == [keys[0]] + keys[1..][..i];
        Some(i + 1)
  }

  predicate EnoughKeys(m: Message) {
    m.numRequired <= |m.accountKeys|
  }

  /** The keys whose signatures the message requires, in slot order. */
  function RequiredKeys(m: Message): seq<Pubkey>
    requires EnoughKeys(m)
  {
    m.accountKeys[..m.numRequired]
  }

  /** `get_signing_keypair_position` */
  function Position(m: Message, key: Pubkey): (r: Result<nat, SignerError>)
    ensures r.Ok? <==> EnoughKeys(m) && key in RequiredKeys(m)
    ensures r.Ok? ==> r.value < m.numRequired && m.accountKeys[r.value] == key && key !in m.accountKeys[..r.value]
  {
    if !EnoughKeys(m) then Err(SigningFailed(NotEnoughKeys))
    else
      match IndexOf(RequiredKeys(m), key)
      case None => Err(SigningFailed(NotASigner))
      case Some(i) =>
        assert RequiredKeys(m)[..i] == m.accountKeys[..i];
        Ok(i)
  }

  /** `Vec::resize` to at least `n` slots, new ones unsigned. */
  function Padded(signatures: seq<Signature>, n: nat): (r: seq<Signature>)
    ensures |r| == if |signatures| < n then n else |signatures|
    ensures forall i :: 0 <= i < |r| ==> r[i] == if i < |signatures| then signatures[i] else DEFAULT_SIGNATURE
  {
    if |signatures| < n then signatures + seq(n - |signatures|, _ => DEFAULT_SIGNATURE) else signatures
  }

  /** `add_signature_to_transaction` on values. */
  function Attach(tx: Tx, key: Pubkey, signature: Signature): Result<Tx, SignerError>
  {
    match Position(tx.message, key)
    case Err(e) => Err(e)
    case Ok(p) => Ok(tx.(signatures := Padded(tx.signatures, tx.message.numRequired)[p := signature]))
  }

  /** `has_all_required_signatures` */
  predicate FullySigned(tx: Tx) {
    && tx.message.numRequired <= |tx.signatures|
    && forall i :: 0 <= i < tx.message.numRequired ==> tx.signatures[i] != DEFAULT_SIGNATURE
  }

  datatype SignedTransaction =
    | Complete(encoded: Bytes, signature: Signature)
    | Partial(encoded: Bytes, signature: Signature)

  /** `classify_signed_transaction` */
  function Classify(tx: Tx, encoded: Bytes, signature: Signature): (r: SignedTransaction)
    ensures r.encoded == encoded && r.signature == signature
    ensures r.Complete? <==> FullySigned(tx)
  {
    if FullySigned(tx) then Complete(encoded, signature) else Partial(encoded, signature)
  }

  // ---- what a returned transaction is worth ----

  /** Slot `p` is a filled slot that `key` owns. */
  predicate FilledSlot(tx: Tx, key: Pubkey, p: nat) {
    && Position(tx.message, key) == Ok(p)
    && p < |tx.signatures|
    && tx.signatures[p] != DEFAULT_SIGNATURE
  }

  /** `signature_at_signer_position` */
  function SignatureAtSigner(tx: Tx, key: Pubkey): (r: Result<Signature, SignerError>)
    ensures r.Ok? <==> Position(tx.message, key).Ok? && FilledSlot(tx, key, Position(tx.message, key).value)
    ensures r.Ok? ==> r.value == tx.signatures[Position(tx.message, key).value]
  {
    match Position(tx.message, key)
    case Err(e) => Err(e)
    case Ok(p) =>
      if p < |tx.signatures| && tx.signatures[p] != DEFAULT_SIGNATURE then Ok(tx.signatures[p])
      else Err(SigningFailed(SlotMissing))
  }

  /** `extract_and_verify_returned_signature`: the provider signed the bytes we submitted. */
  function ExtractReturned(prim: Primitives, returned: Bytes, key: Pubkey, message: Bytes)
    : (r: Result<Signature, SignerError>)
    ensures r.Ok? ==> prim.verifies(r.value, key, message) && r.value != DEFAULT_SIGNATURE
  {
    match prim.decodeTx(returned)
    case None => Err(SerializationError(CannotDeserialize))
    case Some(tx) =>
      match SignatureAtSigner(tx, key)
      case Err(e) => Err(e)
      case Ok(s) => if prim.verifies(s, key, message) then Ok(s) else Err(SigningFailed(NotVerified))
  }

  /** `extract_and_verify_rewritten_transaction`: the provider signed bytes of its own. */
  function ExtractRewritten(prim: Primitives, returned: Bytes, key: Pubkey): (r: Result<(Tx, Signature), SignerError>)
    ensures r.Ok? ==>
      && prim.decodeTx(returned) == Some(r.value.0)
      && SignatureAtSigner(r.value.0, key) == Ok(r.value.1)
      && prim.verifies(r.value.1, key, prim.messageBytes(r.value.0.message))
  {
    match prim.decodeTx(returned)
    case None => Err(SerializationError(CannotDeserialize))
    case Some(tx) =>
      match SignatureAtSigner(tx, key)
      case Err(e) => Err(e)
      case Ok(s) =>
        if prim.verifies(s, key, prim.messageBytes(tx.message)) then Ok((tx, s)) else Err(SigningFailed(NotVerified))
  }

  /** `key` signs at slot `p` of `tx`: it is the first required slot that names it. */
  predicate SignsAt(tx: Tx, key: Pubkey, p: nat) {
    && tx.message.numRequired <= |tx.message.accountKeys|
    && p < tx.message.numRequired
    && tx.message.accountKeys[p] == key
    && forall j :: 0 <= j < p ==> tx.message.accountKeys[j] != key
  }

  /** `key` signed `message` at slot `p` of `tx`. */
  predicate SignedAt(prim: Primitives, tx: Tx, key: Pubkey, p: nat, message: Bytes) {
    && SignsAt(tx, key, p)
    && p < |tx.signatures| && tx.signatures[p] != DEFAULT_SIGNATURE
    && prim.verifies(tx.signatures[p], key, message)
  }

  lemma PositionIffSignsAt(tx: Tx, key: Pubkey, p: nat)
    ensures Position(tx.message, key) == Ok(p) <==> SignsAt(tx, key, p)
  {
    var m := tx.message;
    if SignsAt(tx, key, p) {
      assert RequiredKeys(m)[p] == key;
      UniqueFirst(m.accountKeys, key, p, Position(m, key).value);
    }
    if Position(m, key) == Ok(p) {
      assert forall j :: 0 <= j < p ==> m.accountKeys[..p][j] == m.accountKeys[j];
    }
  }

  /** Where there is no position the reason is told: too few keys, or the key is not a required signer. */
  lemma NoPositionIsExplained(m: Message, key: Pubkey)
    ensures |m.accountKeys| < m.numRequired ==> Position(m, key) == Err(SigningFailed(NotEnoughKeys))
    ensures m.numRequired <= |m.accountKeys| && (forall i :: 0 <= i < m.numRequired ==> m.accountKeys[i] != key) ==>
              Position(m, key) == Err(SigningFailed(NotASigner))
  {
  }

  /**
   The signature taken from a returned transaction is the one at the slot where our key signs there, wherever that is,
   exactly when it is filled and verifies over the message we submitted.
   */
  lemma ExtractReturnedIff(prim: Primitives, returned: Bytes, key: Pubkey, message: Bytes, signature: Signature)
    ensures ExtractReturned(prim, returned, key, message) == Ok(signature) <==>
            exists tx, p: nat :: && prim.decodeTx(returned) == Some(tx) && SignedAt(prim, tx, key, p, message)
                            && signature == tx.signatures[p]
  {
    if prim.decodeTx(returned).Some? {
      var tx := prim.decodeTx(returned).value;
      SlotIsUnique(tx, key);
      if Position(tx.message, key).Ok? {
        PositionIffSignsAt(tx, key, Position(tx.message, key).value);
      }
    }
  }

  lemma SlotIsUnique(tx: Tx, key: Pubkey)
    ensures forall p: nat :: SignsAt(tx, key, p) ==> Position(tx.message, key) == Ok(p)
  {
    forall p: nat | SignsAt(tx, key, p)
      ensures Position(tx.message, key) == Ok(p)
    {
      PositionIffSignsAt(tx, key, p);
    }
  }

  /** A rewritten transaction is taken exactly when our key signed its own message in it. */
  lemma ExtractRewrittenIff(prim: Primitives, returned: Bytes, key: Pubkey, tx: Tx, signature: Signature)
    ensures ExtractRewritten(prim, returned, key) == Ok((tx, signature)) <==>
            && prim.decodeTx(returned) == Some(tx)
            && exists p: nat :: && SignedAt(prim, tx, key, p, prim.messageBytes(tx.message))
                                && signature == tx.signatures[p]
  {
    SlotIsUnique(tx, key);
    if Position(tx.message, key).Ok? {
      PositionIffSignsAt(tx, key, Position(tx.message, key).value);
    }
  }

  /** Why a returned transaction is not taken: it does not decode, our slot is not filled, or it does not verify. */
  lemma UntakenTransactionsSayWhy(prim: Primitives, returned: Bytes, key: Pubkey, message: Bytes)
    ensures prim.decodeTx(returned) == None ==>
              && ExtractReturned(prim, returned, key, message) == Err(SerializationError(CannotDeserialize))
              && ExtractRewritten(prim, returned, key) == Err(SerializationError(CannotDeserialize))
    ensures forall tx, p: nat :: prim.decodeTx(returned) == Some(tx) && SignsAt(tx, key, p) ==>
              var filled := p < |tx.signatures| && tx.signatures[p] != DEFAULT_SIGNATURE;
              && (!filled ==>
                    && ExtractReturned(prim, returned, key, message) == Err(SigningFailed(SlotMissing))
                    && ExtractRewritten(prim, returned, key) == Err(SigningFailed(SlotMissing)))
              && (filled && !prim.verifies(tx.signatures[p], key, message) ==>
                    ExtractReturned(prim, returned, key, message) == Err(SigningFailed(NotVerified)))
              && (filled && !prim.verifies(tx.signatures[p], key, prim.messageBytes(tx.message)) ==>
                    ExtractRewritten(prim, returned, key) == Err(SigningFailed(NotVerified)))
    ensures forall tx :: prim.decodeTx(returned) == Some(tx) && Position(tx.message, key).Err? ==>
              && ExtractReturned(prim, returned, key, message) == Err(Position(tx.message, key).error)
              && ExtractRewritten(prim, returned, key) == Err(Position(tx.message, key).error)
  {
    if prim.decodeTx(returned).Some? {
      SlotIsUnique(prim.decodeTx(returned).value, key);
    }
  }

  // ---- the mutable transaction ----

  class Transaction {
    var message: Message
    var signatures: seq<Signature>

    constructor (tx: Tx)
      ensures Value() == tx
    {
      message, signatures := tx.message, tx.signatures;
    }

    function Value(): Tx
      reads this
    {
      Tx(message, signatures)
    }

    /** `SigningPosition`: the scan over the required keys. */
    method SigningPosition(key: Pubkey) returns (r: Result<nat, SignerError>)
      ensures r == Position(message, key)
    {
      if |message.accountKeys| < message.numRequired {
        return Err(SigningFailed(NotEnoughKeys));
      }
      for i := 0 to message.numRequired
        invariant key !in message.accountKeys[..i]
      {
        if message.accountKeys[i] == key {
          UniqueFirst(message.accountKeys, key, i, Position(message, key).value);
          return Ok(i);
        }
        assert message.accountKeys[..i + 1] == message.accountKeys[..i] + [message.accountKeys[i]];
      }
      return Err(SigningFailed(NotASigner));
    }

    /** `AddSignature`: grows the slots one by one, then writes the signer's own. */
    method AddSignature(key: Pubkey, signature: Signature) returns (r: Result<(), SignerError>)
      modifies this`signatures
      ensures r.Ok? <==> Attach(old(Value()), key, signature).Ok?
      ensures r.Ok? ==> Attach(old(Value()), key, signature) == Ok(Value())
      ensures r.Err? ==> Value() == old(Value()) && Attach(old(Value()), key, signature) == Err(r.error)
    {
      var position := SigningPosition(key);
      if position.Err? {
        return Err(position.error);
      }
      while |signatures| < message.numRequired
        invariant |signatures| <= |Padded(old(signatures), message.numRequired)|
        invariant signatures == Padded(old(signatures), message.numRequired)[..|signatures|]
        invariant |old(signatures)| <= |signatures|
      {
        signatures := signatures + [DEFAULT_SIGNATURE];
      }
      assert signatures == Padded(old(signatures), message.numRequired);
      signatures := signatures[position.value := signature];
      return Ok(());
    }

    /** `HasAllRequiredSignatures` */
    method HasAllRequiredSignatures() returns (full: bool)
      ensures full == FullySigned(Value())
    {
      if |signatures| < message.numRequired {
        return false;
      }
      for i := 0 to message.numRequired
        invariant forall j :: 0 <= j < i ==> signatures[j] != DEFAULT_SIGNATURE
      {
        if signatures[i] == DEFAULT_SIGNATURE {
          return false;
        }
      }
      return true;
    }

    /** `AttachSignature`: place, serialize, classify. */
    method AttachSignature(prim: Primitives, key: Pubkey, signature: Signature)
      returns (r: Result<SignedTransaction, SignerError>)
      modifies this`signatures
      ensures (r, Value()) == Placed(prim, old(Value()), key, Ok(signature))
    {
      var added := AddSignature(key, signature);
      if added.Err? {
        return Err(added.error);
      }
      var encoded := prim.encodeTx(Value());
      if encoded.None? {
        return Err(SerializationError(CannotSerialize));
      }
      var full := HasAllRequiredSignatures();
      r := Ok(if full then Complete(encoded.value, signature) else Partial(encoded.value, signature));
    }

    /** `SignTransactionWith`: a signer that signs the message bytes directly is asked once, for exactly these bytes. */
    method SignWith(prim: Primitives, key: Pubkey, signer: Channel<Bytes, Result<Signature, SignerError>>)
      returns (r: Result<SignedTransaction, SignerError>)
      requires signer.log == []
      modifies this`signatures, signer`log
      ensures signer.log == [prim.messageBytes(old(message))]
      ensures (r, Value()) == Placed(prim, old(Value()), key, signer.answer(signer.log))
    {
      var produced := signer.Ask(prim.messageBytes(message));
      if produced.Err? {
        return Err(produced.error);
      }
      r := AttachSignature(prim, key, produced.value);
    }

    /**
     One verify-then-attach signing run: the provider's wire transaction is decoded, our slot in
     it is verified over the caller's own message, and only then is the caller's slot written.
     */
    method SignWithReturned(prim: Primitives, key: Pubkey, returned: Bytes)
      returns (r: Result<SignedTransaction, SignerError>)
      modifies this`signatures
      ensures Value() == AfterRun(prim, old(Value()), SigningRun(key, returned))
      ensures r == RunResult(prim, old(Value()), SigningRun(key, returned))
    {
      var extracted := ExtractReturned(prim, returned, key, prim.messageBytes(message));
      if extracted.Err? {
        return Err(extracted.error);
      }
      r := AttachSignature(prim, key, extracted.value);
    }
  }

  lemma UniqueFirst(keys: seq<Pubkey>, key: Pubkey, i: nat, j: nat)
    requires i < |keys| && j < |keys| && keys[i] == key == keys[j]
    requires key !in keys[..i] && key !in keys[..j]
    ensures i == j
  {
  }

  // ---- whole sequences of verify-then-attach runs ----

  /** A signer with key `key` whose provider answered with the bytes `returned`. */
  datatype SigningRun = SigningRun(key: Pubkey, returned: Bytes)

  /**
   What becomes of a transaction and a signature for it, or of the failure to get one: the signature is attached,
   and the result serialized and classified.
   */
  function Placed(prim: Primitives, tx: Tx, key: Pubkey, signature: Result<Signature, SignerError>)
    : (Result<SignedTransaction, SignerError>, Tx)
  {
    match signature
    case Err(e) => (Err(e), tx)
    case Ok(s) =>
      match Attach(tx, key, s)
      case Err(e) => (Err(e), tx)
      case Ok(t) =>
        match prim.encodeTx(t)
        case None => (Err(SerializationError(CannotSerialize)), t)
        case Some(encoded) => (Ok(Classify(t, encoded, s)), t)
  }

  /** The signature a run extracts from what its provider returned, if it verifies over the caller's message. */
  function Extracted(prim: Primitives, tx: Tx, run: SigningRun): Result<Signature, SignerError> {
    ExtractReturned(prim, run.returned, run.key, prim.messageBytes(tx.message))
  }

  function AfterRun(prim: Primitives, tx: Tx, run: SigningRun): Tx {
    Placed(prim, tx, run.key, Extracted(prim, tx, run)).1
  }

  function RunResult(prim: Primitives, tx: Tx, run: SigningRun): Result<SignedTransaction, SignerError> {
    Placed(prim, tx, run.key, Extracted(prim, tx, run)).0
  }

  function AfterRuns(prim: Primitives, tx: Tx, runs: seq<SigningRun>): Tx
    decreases |runs|
  {
    if runs == [] then tx else AfterRuns(prim, AfterRun(prim, tx, runs[0]), runs[1..])
  }

  /** The slots that the runs wrote. */
  function SlotsWritten(prim: Primitives, tx: Tx, runs: seq<SigningRun>): set<nat>
    decreases |runs|
  {
    if runs == [] then {}
    else
      (if Extracted(prim, tx, runs[0]).Ok? && Position(tx.message, runs[0].key).Ok?
       then {Position(tx.message, runs[0].key).value} else {})
      + SlotsWritten(prim, AfterRun(prim, tx, runs[0]), runs[1..])
  }

  /** Slot `i` holds a signature over `tx`'s own message under the key at that very slot. */
  predicate SlotVerifies(prim: Primitives, tx: Tx, i: nat) {
    && i < |tx.signatures|
    && i < |tx.message.accountKeys|
    && tx.signatures[i] != DEFAULT_SIGNATURE
    && prim.verifies(tx.signatures[i], tx.message.accountKeys[i], prim.messageBytes(tx.message))
  }

  /** What one attachment does to the slots: one write, padding, and nothing else. */
  lemma AttachFrame(tx: Tx, key: Pubkey, signature: Signature)
    requires Attach(tx, key, signature).Ok?
    ensures var t, p := Attach(tx, key, signature).value, Position(tx.message, key).value;
      && t.message == tx.message
      && p < |t.signatures| && t.signatures[p] == signature
      && |t.signatures| == |Padded(tx.signatures, tx.message.numRequired)|
      && forall i :: 0 <= i < |t.signatures| && i != p ==>
           t.signatures[i] == if i < |tx.signatures| then tx.signatures[i] else DEFAULT_SIGNATURE
  {
  }

  /**
   The result of attaching a signature: for a required key whose transaction serializes, the serialization and that very
   signature, tagged complete exactly when every required slot is filled; a failure to get a signature is passed on.
   */
  lemma AttachmentReports(prim: Primitives, tx: Tx, key: Pubkey, signature: Signature, p: nat)
    requires SignsAt(tx, key, p)
    ensures var (r, t) := Placed(prim, tx, key, Ok(signature));
      && p < |t.signatures| && t.signatures[p] == signature
      && (prim.encodeTx(t).None? ==> r == Err(SerializationError(CannotSerialize)))
      && (prim.encodeTx(t).Some? ==>
            && r.Ok? && r.value.encoded == prim.encodeTx(t).value && r.value.signature == signature
            && (r.value.Complete? <==>
                  forall i :: 0 <= i < t.message.numRequired ==>
                    i < |t.signatures| && t.signatures[i] != DEFAULT_SIGNATURE))
    ensures forall e :: Placed(prim, tx, key, Err(e)) == (Err(e), tx)
  {
    PositionIffSignsAt(tx, key, p);
    AttachFrame(tx, key, signature);
    var t := Placed(prim, tx, key, Ok(signature)).1;
    assert |t.signatures| >= t.message.numRequired;
  }

  lemma NoSlotNoAttachment(prim: Primitives, tx: Tx, key: Pubkey, signature: Signature)
    requires forall p: nat :: !SignsAt(tx, key, p)
    ensures Placed(prim, tx, key, Ok(signature)).0.Err? && Placed(prim, tx, key, Ok(signature)).1 == tx
  {
    if Position(tx.message, key).Ok? {
      PositionIffSignsAt(tx, key, Position(tx.message, key).value);
    }
  }

  /**
   Whatever each provider returns, any sequence of runs keeps the message, leaves every slot it
   did not write as it was, and every slot it did write verifies over the caller's message.
   */
  lemma {:induction false} RunsKeepTheTransaction(prim: Primitives, tx: Tx, runs: seq<SigningRun>)
    ensures var t := AfterRuns(prim, tx, runs);
      && t.message == tx.message
      && |tx.signatures| <= |t.signatures|
      && (forall i :: i in SlotsWritten(prim, tx, runs) ==> SlotVerifies(prim, t, i))
      && (forall i :: 0 <= i < |t.signatures| && i !in SlotsWritten(prim, tx, runs) ==>
            t.signatures[i] == if i < |tx.signatures| then tx.signatures[i] else DEFAULT_SIGNATURE)
    decreases |runs|
  {
    if runs != [] {
      var next := AfterRun(prim, tx, runs[0]);
      RunsKeepTheTransaction(prim, next, runs[1..]);
      var extracted := Extracted(prim, tx, runs[0]);
      if extracted.Ok? && Position(tx.message, runs[0].key).Ok? {
        AttachFrame(tx, runs[0].key, extracted.value);
        var p := Position(tx.message, runs[0].key).value;
        assert SlotVerifies(prim, next, p);
      }
    }
  }

  /**
   A failed run has changed the transaction exactly when it got a verified signature for a required key that the
   transaction did not hold yet; only the serialization of the result can have failed then.
   */
  lemma FailureBeforeAttachmentChangesNothing(prim: Primitives, tx: Tx, run: SigningRun)
    requires RunResult(prim, tx, run).Err?
    ensures AfterRun(prim, tx, run) != tx <==>
      && Extracted(prim, tx, run).Ok?
      && Position(tx.message, run.key).Ok?
      && var p := Position(tx.message, run.key).value;
         |tx.signatures| < tx.message.numRequired || tx.signatures[p] != Extracted(prim, tx, run).value
    ensures AfterRun(prim, tx, run) != tx ==>
      && RunResult(prim, tx, run).error == SerializationError(CannotSerialize)
      && prim.encodeTx(AfterRun(prim, tx, run)).None?
  {
    if Extracted(prim, tx, run).Ok? && Position(tx.message, run.key).Ok? {
      var s, p := Extracted(prim, tx, run).value, Position(tx.message, run.key).value;
      AttachFrame(tx, run.key, s);
      if |tx.signatures| >= tx.message.numRequired && tx.signatures[p] == s {
        assert AfterRun(prim, tx, run).signatures == tx.signatures;
      }
    }
  }

  // ---- several signers in any order ----

  /** Attaches every signer's signature in list order, stopping at the first failure. */
  function AttachAll(tx: Tx, signers: seq<Pubkey>, sign: Pubkey -> Signature): Result<Tx, SignerError>
    decreases |signers|
  {
    if signers == [] then Ok(tx)
    else
      match Attach(tx, signers[0], sign(signers[0]))
      case Err(e) => Err(e)
      case Ok(t) => AttachAll(t, signers[1..], sign)
  }

  /** Slot `i` is the slot its key signs at: no earlier required slot names the same key. */
  predicate OwnSlot(m: Message, i: nat)
    requires EnoughKeys(m)
  {
    i < m.numRequired && m.accountKeys[i] !in m.accountKeys[..i]
  }

  /** The reference result: each slot owned by a signer in `who` holds its signature. */
  function Signed(tx: Tx, who: set<Pubkey>, sign: Pubkey -> Signature): Tx
    requires EnoughKeys(tx.message)
  {
    if who == {} then tx
    else
      var padded := Padded(tx.signatures, tx.message.numRequired);
      tx.(signatures := seq(|padded|, i requires 0 <= i < |padded| =>
        if OwnSlot(tx.message, i) && tx.message.accountKeys[i] in who then sign(tx.message.accountKeys[i])
        else padded[i]))
  }

  function ToSet(keys: seq<Pubkey>): (r: set<Pubkey>)
    ensures forall k :: k in r <==> k in keys
  {
    set k | k in keys
  }

  lemma AttachIsSigned(tx: Tx, who: set<Pubkey>, key: Pubkey, sign: Pubkey -> Signature)
    requires EnoughKeys(tx.message) && key in RequiredKeys(tx.message)
    ensures Attach(Signed(tx, who, sign), key, sign(key)) == Ok(Signed(tx, who + {key}, sign))
  {
    var before, after := Signed(tx, who, sign), Signed(tx, who + {key}, sign);
    var p := Position(tx.message, key).value;
    var t := Attach(before, key, sign(key)).value;
    assert who + {key} != {} by {
      assert key in who + {key};
    }
    assert |t.signatures| == |after.signatures|;
    forall i | 0 <= i < |after.signatures|
      ensures t.signatures[i] == after.signatures[i]
    {
      if i != p && i < tx.message.numRequired && OwnSlot(tx.message, i) && tx.message.accountKeys[i] == key {
        UniqueFirst(tx.message.accountKeys, key, i, p);
      }
    }
    assert t.signatures == after.signatures;
  }

  lemma {:induction false} AttachAllIsSigned(tx: Tx, who: set<Pubkey>, signers: seq<Pubkey>, sign: Pubkey -> Signature)
    requires EnoughKeys(tx.message)
    requires forall k :: k in signers ==> k in RequiredKeys(tx.message)
    ensures AttachAll(Signed(tx, who, sign), signers, sign) == Ok(Signed(tx, who + ToSet(signers), sign))
    decreases |signers|
  {
    if signers == [] {
      assert who + ToSet(signers) == who;
    } else {
      assert signers[0] in RequiredKeys(tx.message);
      AttachIsSigned(tx, who, signers[0], sign);
      AttachAllIsSigned(tx, who + {signers[0]}, signers[1..], sign);
      ToSetSplits(who, signers);
    }
  }

  lemma ToSetSplits(who: set<Pubkey>, signers: seq<Pubkey>)
    requires signers != []
    ensures who + {signers[0]} + ToSet(signers[1..]) == who + ToSet(signers)
  {
    assert signers == [signers[0]] + signers[1..];
  }

  /**
   Order independence: two lists of required signers that name the same keys, in any order and
   with any repetitions, end in the same transaction.
   */
  lemma OrderIndependent(tx: Tx, one: seq<Pubkey>, other: seq<Pubkey>, sign: Pubkey -> Signature)
    requires EnoughKeys(tx.message)
    requires forall k :: k in one ==> k in RequiredKeys(tx.message)
    requires forall k :: k in one <==> k in other
    ensures AttachAll(tx, one, sign).Ok? && AttachAll(tx, one, sign) == AttachAll(tx, other, sign)
  {
    AttachAllIsSigned(tx, {}, one, sign);
    AttachAllIsSigned(tx, {}, other, sign);
    assert ToSet(one) == ToSet(other);
  }

  /** No slot of the required range has been signed yet. */
  predicate Unsigned(tx: Tx) {
    forall i :: 0 <= i < |tx.signatures| && i < tx.message.numRequired ==> tx.signatures[i] == DEFAULT_SIGNATURE
  }

  predicate Distinct<T(==)>(xs: seq<T>) {
    forall i, j :: 0 <= i < j < |xs| ==> xs[i] != xs[j]
  }

  /** Completeness, for any required signers: every slot must be its key's own, and its key must have signed. */
  lemma CompleteExactlyWhenAllSigned(tx: Tx, signers: seq<Pubkey>, sign: Pubkey -> Signature)
    requires EnoughKeys(tx.message) && Unsigned(tx)
    requires forall k :: k in RequiredKeys(tx.message) ==> sign(k) != DEFAULT_SIGNATURE
    requires forall k :: k in signers ==> k in RequiredKeys(tx.message)
    ensures AttachAll(tx, signers, sign).Ok?
    ensures FullySigned(AttachAll(tx, signers, sign).value) <==>
            Distinct(RequiredKeys(tx.message)) && forall k :: k in RequiredKeys(tx.message) ==> k in signers
  {
    AttachAllIsSigned(tx, {}, signers, sign);
    assert {} + ToSet(signers) == ToSet(signers);
    FilledSlots(tx, ToSet(signers), sign);
    OwnSlotsIffDistinct(tx.message);
    var m, keys := tx.message, RequiredKeys(tx.message);
    assert (forall k :: k in keys ==> k in signers) <==>
        forall i :: 0 <= i < m.numRequired ==> m.accountKeys[i] in ToSet(signers) by {
      assert forall i :: 0 <= i < m.numRequired ==> m.accountKeys[i] == keys[i];
    }
  }

  lemma OwnSlotsIffDistinct(m: Message)
    requires EnoughKeys(m)
    ensures Distinct(RequiredKeys(m)) <==> forall i :: 0 <= i < m.numRequired ==> OwnSlot(m, i)
  {
    var keys := RequiredKeys(m);
    forall i | 0 <= i < m.numRequired
      ensures OwnSlot(m, i) <==> forall j :: 0 <= j < i ==> keys[j] != keys[i]
    {
      assert m.accountKeys[i] == keys[i];
      assert forall j :: 0 <= j < i ==> m.accountKeys[..i][j] == keys[j];
    }
  }

  /** Of an unsigned transaction, exactly the slots owned by signers are filled. */
  lemma FilledSlots(tx: Tx, who: set<Pubkey>, sign: Pubkey -> Signature)
    requires EnoughKeys(tx.message) && Unsigned(tx)
    requires forall k :: k in RequiredKeys(tx.message) ==> sign(k) != DEFAULT_SIGNATURE
    ensures FullySigned(Signed(tx, who, sign)) <==>
            forall i :: 0 <= i < tx.message.numRequired ==> OwnSlot(tx.message, i) && tx.message.accountKeys[i] in who
  {
    var t, m := Signed(tx, who, sign), tx.message;
    forall i | 0 <= i < m.numRequired
      ensures (i < |t.signatures| && t.signatures[i] != DEFAULT_SIGNATURE) <==>
        (OwnSlot(m, i) && m.accountKeys[i] in who)
    {
      assert m.accountKeys[i] == RequiredKeys(m)[i];
    }
    assert who != {} || m.numRequired == 0 || m.accountKeys[0] !in who;
  }

  /**
   Along any permutation of pairwise distinct required signers, the transaction is partial until
   the last one and complete exactly then.
   */
  lemma PartialUntilTheLast(tx: Tx, order: seq<Pubkey>, j: nat, sign: Pubkey -> Signature)
    requires EnoughKeys(tx.message) && Unsigned(tx) && Distinct(RequiredKeys(tx.message))
    requires forall k :: k in RequiredKeys(tx.message) ==> sign(k) != DEFAULT_SIGNATURE
    requires Distinct(order) && forall k :: k in order <==> k in RequiredKeys(tx.message)
    requires j <= |order|
    ensures AttachAll(tx, order[..j], sign).Ok?
    ensures FullySigned(AttachAll(tx, order[..j], sign).value) <==> j == |order|
  {
    assert forall k :: k in order[..j] ==> k in order;
    CompleteExactlyWhenAllSigned(tx, order[..j], sign);
    if j == |order| {
      assert order[..j] == order;
    } else {
      assert order[j] in RequiredKeys(tx.message) && order[j] !in order[..j];
    }
  }

  /** An unsigned transaction can be completed by its required signers exactly when no key is required twice. */
  lemma CompletableIffKeysDistinct(tx: Tx, sign: Pubkey -> Signature)
    requires EnoughKeys(tx.message) && Unsigned(tx)
    requires forall k :: k in RequiredKeys(tx.message) ==> sign(k) != DEFAULT_SIGNATURE
    ensures Distinct(RequiredKeys(tx.message)) <==>
            exists signers :: (forall k :: k in signers ==> k in RequiredKeys(tx.message))
                              && AttachAll(tx, signers, sign).Ok? && FullySigned(AttachAll(tx, signers, sign).value)
  {
    CompleteExactlyWhenAllSigned(tx, RequiredKeys(tx.message), sign);
    forall signers: seq<Pubkey> | forall k :: k in signers ==> k in RequiredKeys(tx.message)
      ensures AttachAll(tx, signers, sign).Ok? && FullySigned(AttachAll(tx, signers, sign).value) ==>
        Distinct(RequiredKeys(tx.message))
    {
      CompleteExactlyWhenAllSigned(tx, signers, sign);
    }
  }
}
