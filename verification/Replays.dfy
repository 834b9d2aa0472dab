/**
 Replaying a managed send. The provider deduplicates creates on their idempotency key; a create may or
 may not arrive, whatever the client was told about it.
 */
module Replays {
  import opened Core
  import opened Idempotency
  import Crossmint
  import CrossmintGuarantees
  import Fordefi
  import FordefiGuarantees

  /** The provider: one transaction per key it has accepted, in order of acceptance. */
  datatype Server = Server(executed: seq<string>)

  function Accept(server: Server, key: string): Server {
    if key in server.executed then server else Server(server.executed + [key])
  }

  function AcceptAll(server: Server, keys: seq<string>): Server
    decreases |keys|
  {
    if keys == [] then server else AcceptAll(Accept(server, keys[0]), keys[1..])
  }

  /** Deduplication never executes a key twice, and executes nothing but the keys it was given. */
  lemma {:induction false} EachKeyRunsOnce(server: Server, keys: seq<string>)
    requires forall i, j :: 0 <= i < j < |server.executed| ==> server.executed[i] != server.executed[j]
    ensures var done := AcceptAll(server, keys).executed;
      && (forall i, j :: 0 <= i < j < |done| ==> done[i] != done[j])
      && (forall k :: k in done <==> k in server.executed || k in keys)
    decreases |keys|
  {
    if keys != [] {
      EachKeyRunsOnce(Accept(server, keys[0]), keys[1..]);
      assert keys == [keys[0]] + keys[1..];
    }
  }

  lemma TwoKeysDiffer(done: seq<string>, key: string)
    requires forall i, j :: 0 <= i < j < |done| ==> done[i] != done[j]
    requires |done| > 1
    ensures exists k :: k in done && k != key
  {
    assert done[0] in done && done[1] in done && done[0] != done[1];
  }

  // ---- Crossmint ----

  /** One attempt to send: a whole client run, and whether its create reached the provider. */
  datatype Attempt = Attempt(env: Crossmint.Env, c: Crossmint.Config, tx: Tx, arrived: bool)

  /** The keys of the creates in a log, in order. */
  function CreateKeys(log: seq<Crossmint.Event>): seq<string> {
    if log == [] then []
    else (if CrossmintGuarantees.IsCreate(log[0]) then [log[0].request.key] else []) + CreateKeys(log[1..])
  }

  lemma {:induction false} NoCreateNoKeys(log: seq<Crossmint.Event>)
    requires CrossmintGuarantees.NoCreateFrom(log, 0)
    ensures CreateKeys(log) == []
  {
    if log != [] {
      NoCreateNoKeys(log[1..]);
    }
  }

  /** The keys that arrive at the provider over a whole sequence of attempts. */
  function ArrivedKeys(prim: Primitives, attempts: seq<Attempt>): seq<string> {
    if attempts == [] then []
    else
      var a := attempts[0];
      (if a.arrived then CreateKeys(Crossmint.Execute(a.env, a.c, prim, a.tx).log) else [])
      + ArrivedKeys(prim, attempts[1..])
  }

  lemma RunArrivesUnderItsKey(prim: Primitives, a: Attempt)
    ensures var keys := CreateKeys(Crossmint.Execute(a.env, a.c, prim, a.tx).log);
      keys == [] || keys == [Crossmint.Key(a.c, prim, a.tx)]
  {
    var log := Crossmint.Execute(a.env, a.c, prim, a.tx).log;
    CrossmintGuarantees.OneCreatePerRun(a.env, a.c, prim, a.tx);
    if log != [] {
      NoCreateNoKeys(log[1..]);
    }
  }

  lemma {:induction false} ArrivedUnderOneKey(prim: Primitives, attempts: seq<Attempt>, key: string)
    requires forall i :: 0 <= i < |attempts| ==> Crossmint.Key(attempts[i].c, prim, attempts[i].tx) == key
    ensures forall k :: k in ArrivedKeys(prim, attempts) ==> k == key
  {
    if attempts != [] {
      RunArrivesUnderItsKey(prim, attempts[0]);
      ArrivedUnderOneKey(prim, attempts[1..], key);
    }
  }

  /**
   Any number of replays of one message under one locator, against any provider behaviour and with any
   loss of requests and replies in between, executes at most one transaction.
   */
  lemma ReplaysExecuteAtMostOnce(prim: Primitives, attempts: seq<Attempt>, locator: Option<Bytes>, message: Bytes)
    requires forall i :: 0 <= i < |attempts| ==>
               attempts[i].c.locator == locator && prim.messageBytes(attempts[i].tx.message) == message
    ensures |AcceptAll(Server([]), ArrivedKeys(prim, attempts)).executed| <= 1
  {
    var key := KeyOf(prim, CrossmintPreimage(locator, message));
    ArrivedUnderOneKey(prim, attempts, key);
    EachKeyRunsOnce(Server([]), ArrivedKeys(prim, attempts));
    var done := AcceptAll(Server([]), ArrivedKeys(prim, attempts)).executed;
    if |done| > 1 {
      TwoKeysDiffer(done, key);
    }
  }

  /**
   With a key function free of collisions on these two pre-images, different messages or locators are never
   taken for replays.
   */
  lemma DifferentSendsGetDifferentKeys(prim: Primitives, c1: Crossmint.Config, tx1: Tx, c2: Crossmint.Config, tx2: Tx)
    requires var p := CrossmintPreimage(c1.locator, prim.messageBytes(tx1.message));
      var q := CrossmintPreimage(c2.locator, prim.messageBytes(tx2.message));
      KeyOf(prim, p) == KeyOf(prim, q) ==> p == q
    ensures Crossmint.Key(c1, prim, tx1) == Crossmint.Key(c2, prim, tx2) <==>
            && OrEmpty(c1.locator) == OrEmpty(c2.locator)
            && prim.messageBytes(tx1.message) == prim.messageBytes(tx2.message)
  {
    var l1, l2 := OrEmpty(c1.locator), OrEmpty(c2.locator);
    var m1, m2 := prim.messageBytes(tx1.message), prim.messageBytes(tx2.message);
    assert CrossmintPreimage(c1.locator, m1) == CrossmintPreimage(Some(l1), m1);
    assert CrossmintPreimage(c2.locator, m2) == CrossmintPreimage(Some(l2), m2);
    if Crossmint.Key(c1, prim, tx1) == Crossmint.Key(c2, prim, tx2) {
      CrossmintPreimageInjective(l1, m1, l2, m2);
    }
  }

  // ---- Fordefi ----

  datatype AutoAttempt = AutoAttempt(answer: seq<Fordefi.Event> -> Fordefi.Reply, c: Fordefi.Config, tx: Tx,
                                     arrived: bool)

  function SubmitKeys(log: seq<Fordefi.Event>): seq<string> {
    if log == [] then [] else (if log[0].Submitted? then [log[0].key] else []) + SubmitKeys(log[1..])
  }

  lemma {:induction false} NoSubmitNoKeys(log: seq<Fordefi.Event>)
    requires forall i :: 0 <= i < |log| ==> !log[i].Submitted?
    ensures SubmitKeys(log) == []
  {
    if log != [] {
      NoSubmitNoKeys(log[1..]);
    }
  }

  function ArrivedAutoKeys(prim: Primitives, attempts: seq<AutoAttempt>): seq<string> {
    if attempts == [] then []
    else
      var a := attempts[0];
      (if a.arrived then SubmitKeys(Fordefi.SignAndBroadcast(a.answer, a.c, prim, a.tx).log) else [])
      + ArrivedAutoKeys(prim, attempts[1..])
  }

  lemma AutoRunArrivesUnderItsKey(prim: Primitives, a: AutoAttempt)
    ensures var keys := SubmitKeys(Fordefi.SignAndBroadcast(a.answer, a.c, prim, a.tx).log);
      keys == [] || keys == [Fordefi.Key(a.c, prim, Auto, a.tx.message)]
  {
    var log := Fordefi.SignAndBroadcast(a.answer, a.c, prim, a.tx).log;
    FordefiGuarantees.OneSubmitPerRun(a.answer, a.c, prim, a.tx);
    if log != [] {
      assert log[0] == log[..1][0];
      NoSubmitNoKeys(log[1..]);
    }
  }

  lemma {:induction false} AutoArrivedUnderOneKey(prim: Primitives, attempts: seq<AutoAttempt>, key: string)
    requires forall i :: 0 <= i < |attempts| ==> Fordefi.Key(attempts[i].c, prim, Auto, attempts[i].tx.message) == key
    ensures forall k :: k in ArrivedAutoKeys(prim, attempts) ==> k == key
  {
    if attempts != [] {
      AutoRunArrivesUnderItsKey(prim, attempts[0]);
      AutoArrivedUnderOneKey(prim, attempts[1..], key);
    }
  }

  /** The same for Fordefi: one message under one set of terms executes at most once. */
  lemma AutoReplaysExecuteAtMostOnce(prim: Primitives, attempts: seq<AutoAttempt>, terms: Terms, message: Bytes)
    requires forall i :: 0 <= i < |attempts| ==>
               && attempts[i].c.chain == terms.chain && attempts[i].c.vault == terms.vault
               && attempts[i].c.fee == terms.fee
               && prim.messageBytes(attempts[i].tx.message) == message
    requires terms.mode == Auto
    ensures |AcceptAll(Server([]), ArrivedAutoKeys(prim, attempts)).executed| <= 1
  {
    var key := KeyOf(prim, FordefiPreimage(terms, message));
    AutoArrivedUnderOneKey(prim, attempts, key);
    EachKeyRunsOnce(Server([]), ArrivedAutoKeys(prim, attempts));
    var done := AcceptAll(Server([]), ArrivedAutoKeys(prim, attempts)).executed;
    if |done| > 1 {
      TwoKeysDiffer(done, key);
    }
  }

  /** A Fordefi configuration without the delimiters that could blur its terms. */
  predicate Unambiguous(c: Fordefi.Config) {
    COLON !in c.vault && FeeFree(c.fee, COLON) && FeeFree(c.fee, PIPE)
  }

  /** Without a hash collision on the two pre-images, submits share a key exactly when terms and message agree. */
  lemma DifferentSubmitsGetDifferentKeys(prim: Primitives, c1: Fordefi.Config, m1: PushMode, tx1: Tx,
                                         c2: Fordefi.Config, m2: PushMode, tx2: Tx)
    requires Unambiguous(c1) && Unambiguous(c2)
    requires var p := FordefiPreimage(Terms(m1, c1.chain, c1.vault, c1.fee), prim.messageBytes(tx1.message));
      var q := FordefiPreimage(Terms(m2, c2.chain, c2.vault, c2.fee), prim.messageBytes(tx2.message));
      KeyOf(prim, p) == KeyOf(prim, q) ==> p == q
    ensures Fordefi.Key(c1, prim, m1, tx1.message) == Fordefi.Key(c2, prim, m2, tx2.message) <==>
      && m1 == m2 && c1.chain == c2.chain && c1.vault == c2.vault && SameFee(c1.fee, c2.fee)
      && prim.messageBytes(tx1.message) == prim.messageBytes(tx2.message)
  {
    var t1, t2 := Terms(m1, c1.chain, c1.vault, c1.fee), Terms(m2, c2.chain, c2.vault, c2.fee);
    CanonicalFeeInjective(c1.fee, c2.fee);
    if Fordefi.Key(c1, prim, m1, tx1.message) == Fordefi.Key(c2, prim, m2, tx2.message) {
      FordefiPreimageInjective(t1, prim.messageBytes(tx1.message), t2, prim.messageBytes(tx2.message));
    }
  }

  // ---- blind retries, without any deduplication ----

  /** How many creates of a run the provider did not refuse, and so may have executed. */
  function Unrefused(env: Crossmint.Env, log: seq<Crossmint.Event>): nat {
    if log == [] then 0
    else
      Unrefused(env, log[..|log| - 1])
      + if CrossmintGuarantees.IsCreate(log[|log| - 1]) && !CrossmintGuarantees.WasRefused(env.answer(log))
        then 1 else 0
  }

  lemma {:induction false} RefusedCreatesCountNothing(env: Crossmint.Env, log: seq<Crossmint.Event>)
    requires CrossmintGuarantees.OnlyRefusedCreates(env, log)
    ensures Unrefused(env, log) == 0
  {
    if log != [] {
      var n := |log| - 1;
      assert log[..n + 1] == log;
      forall i | 0 <= i < n && CrossmintGuarantees.IsCreate(log[..n][i])
        ensures CrossmintGuarantees.WasRefused(env.answer(log[..n][..i + 1]))
      {
        assert log[..n][..i + 1] == log[..i + 1];
      }
      RefusedCreatesCountNothing(env, log[..n]);
    }
  }

  lemma {:induction false} OneCreateCountsOnce(env: Crossmint.Env, log: seq<Crossmint.Event>)
    requires CrossmintGuarantees.NoCreateFrom(log, 1)
    ensures Unrefused(env, log) <= 1
  {
    if |log| > 1 {
      OneCreateCountsOnce(env, log[..|log| - 1]);
    }
  }

  /** How many submits of an auto run the provider did not refuse. */
  function UnrefusedSubmits(answer: seq<Fordefi.Event> -> Fordefi.Reply, log: seq<Fordefi.Event>): nat {
    if log == [] then 0
    else
      UnrefusedSubmits(answer, log[..|log| - 1])
      + if log[|log| - 1].Submitted? && !FordefiGuarantees.WasRefused(answer(log)) then 1 else 0
  }

  lemma {:induction false} RefusedSubmitsCountNothing(answer: seq<Fordefi.Event> -> Fordefi.Reply,
                                                      log: seq<Fordefi.Event>)
    requires FordefiGuarantees.OnlyRefusedSubmits(answer, log)
    ensures UnrefusedSubmits(answer, log) == 0
  {
    if log != [] {
      var n := |log| - 1;
      assert log[..n + 1] == log;
      forall i | 0 <= i < n && log[..n][i].Submitted?
        ensures FordefiGuarantees.WasRefused(answer(log[..n][..i + 1]))
      {
        assert log[..n][..i + 1] == log[..i + 1];
      }
      RefusedSubmitsCountNothing(answer, log[..n]);
    }
  }

  lemma {:induction false} OneSubmitCountsOnce(answer: seq<Fordefi.Event> -> Fordefi.Reply, log: seq<Fordefi.Event>)
    requires forall i :: 1 <= i < |log| ==> !log[i].Submitted?
    ensures UnrefusedSubmits(answer, log) <= 1
  {
    if |log| > 1 {
      OneSubmitCountsOnce(answer, log[..|log| - 1]);
    }
  }

  /** One managed send through either provider. */
  datatype Send = ViaCrossmint(a: Attempt) | ViaFordefi(auto: AutoAttempt)

  function ResultOf(prim: Primitives, send: Send): Result<Signature, SignerError> {
    match send
    case ViaCrossmint(a) => Crossmint.Execute(a.env, a.c, prim, a.tx).result
    case ViaFordefi(a) => Fordefi.SignAndBroadcast(a.answer, a.c, prim, a.tx).result
  }

  /** How many requests of a send may have led to a transaction. */
  function UnrefusedOf(prim: Primitives, send: Send): nat {
    match send
    case ViaCrossmint(a) => Unrefused(a.env, Crossmint.Execute(a.env, a.c, prim, a.tx).log)
    case ViaFordefi(a) => UnrefusedSubmits(a.answer, Fordefi.SignAndBroadcast(a.answer, a.c, prim, a.tx).log)
  }

  function UnrefusedInAll(prim: Primitives, sends: seq<Send>): nat {
    if sends == [] then 0 else UnrefusedOf(prim, sends[0]) + UnrefusedInAll(prim, sends[1..])
  }

  /** The send failed with an error its caller may blindly retry. */
  predicate Retryable(prim: Primitives, send: Send) {
    ResultOf(prim, send).Err? && !ResultOf(prim, send).error.BroadcastUnconfirmed?
  }

  lemma SendCountsOnce(prim: Primitives, send: Send)
    ensures UnrefusedOf(prim, send) <= 1
    ensures Retryable(prim, send) ==> UnrefusedOf(prim, send) == 0
  {
    match send
    case ViaCrossmint(a) =>
      CrossmintGuarantees.OneCreatePerRun(a.env, a.c, prim, a.tx);
      OneCreateCountsOnce(a.env, Crossmint.Execute(a.env, a.c, prim, a.tx).log);
      if Retryable(prim, send) {
        CrossmintGuarantees.RetryableIffNothingCouldHaveRun(a.env, a.c, prim, a.tx);
        RefusedCreatesCountNothing(a.env, Crossmint.Execute(a.env, a.c, prim, a.tx).log);
      }
    case ViaFordefi(a) =>
      FordefiGuarantees.OneSubmitPerRun(a.answer, a.c, prim, a.tx);
      OneSubmitCountsOnce(a.answer, Fordefi.SignAndBroadcast(a.answer, a.c, prim, a.tx).log);
      if Retryable(prim, send) {
        FordefiGuarantees.RetryableIffNothingCouldHaveRun(a.answer, a.c, prim, a.tx);
        RefusedSubmitsCountNothing(a.answer, Fordefi.SignAndBroadcast(a.answer, a.c, prim, a.tx).log);
      }
  }

  /**
   A caller that tries again only after an error other than `BroadcastUnconfirmed`, with whatever transactions,
   through either provider in any mixture and whatever they answer, never has more than one request that may have
   led to a transaction. No deduplication is assumed.
   */
  lemma {:induction false} BlindRetriesExecuteAtMostOnce(prim: Primitives, sends: seq<Send>)
    requires forall i :: 0 <= i < |sends| - 1 ==> Retryable(prim, sends[i])
    ensures UnrefusedInAll(prim, sends) <= 1
    decreases |sends|
  {
    if sends != [] {
      SendCountsOnce(prim, sends[0]);
      if |sends| > 1 {
        assert Retryable(prim, sends[0]);
        BlindRetriesExecuteAtMostOnce(prim, sends[1..]);
      } else {
        assert UnrefusedInAll(prim, sends[1..]) == 0;
      }
    }
  }
}
