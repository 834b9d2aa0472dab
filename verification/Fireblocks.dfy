/**
 Fireblocks: polling a RAW or PROGRAM_CALL signing request in its two implementations, and choosing
 the signing identity from the vault's address list in its two implementations.
 */
module Fireblocks {
  import opened Core
  import opened Polling

  datatype Mode = Raw | ProgramCall

  datatype Status =
    | Signed | Broadcasting | Confirming | Completed
    | Failed | Cancelled | Rejected | Blocked
    | InFlight(text: string)

  datatype TransactionResponse = TransactionResponse(status: Status, carriers: Bytes)

  datatype Client = Rust | Go

  /** A body; the decoders follow different rules, so each client has what its own made of it, if anything. */
  datatype Body = Unreadable | Json(rust: Option<TransactionResponse>, go: Option<TransactionResponse>)

  datatype Reply = TransportFailure | Response(status: nat, body: Body)

  datatype Event = Fetched | Slept

  /** `get_transaction`: what arrives before any status is looked at. */
  function Fetch(client: Client, reply: Reply): Result<TransactionResponse, SignerError> {
    match reply
    case TransportFailure => Err(HttpError(TransportFailed))
    case Response(status, body) =>
      if !(200 <= status < 300) then Err(RemoteApiError(RemoteStatus, None))
      else if body.Unreadable? then Err(HttpError(BodyUnreadable))
      else
        match if client.Rust? then body.rust else body.go
        case None => Err(SerializationError(BadJson))
        case Some(r) => Ok(r)
  }

  function Escaped(txId: string): SignerError {
    BroadcastUnconfirmed(Some(txId), None, None, None, ProviderFailed)
  }

  /** The Rust table: one match on the pair of mode and status. */
  function RustTable(mode: Mode, txId: string, reply: Reply): Attempt<TransactionResponse> {
    match Fetch(Rust, reply)
    case Err(e) => Fail(e)
    case Ok(r) =>
      match (mode, r.status)
      case (ProgramCall, Signed) => Done(r)
      case (Raw, Completed) => Done(r)
      case (ProgramCall, Broadcasting) => Fail(Escaped(txId))
      case (ProgramCall, Confirming) => Fail(Escaped(txId))
      case (ProgramCall, Completed) => Fail(Escaped(txId))
      case (_, Failed) => Fail(SigningFailed(TerminalState))
      case (_, Cancelled) => Fail(SigningFailed(TerminalState))
      case (_, Rejected) => Fail(SigningFailed(TerminalState))
      case (_, Blocked) => Fail(SigningFailed(TerminalState))
      case _ => Pending
  }

  /** The Go switches: a PROGRAM_CALL switch that may fall through to the common one. */
  function GoTable(programCall: bool, txId: string, reply: Reply): Attempt<TransactionResponse> {
    match Fetch(Go, reply)
    case Err(e) => Fail(e)
    case Ok(r) =>
      if programCall && r.status.Signed? then Done(r)
      else if programCall && (r.status.Broadcasting? || r.status.Confirming? || r.status.Completed?) then
        Fail(Escaped(txId))
      else if r.status.Completed? then Done(r)
      else if r.status.Failed? || r.status.Cancelled? || r.status.Rejected? || r.status.Blocked? then
        Fail(SigningFailed(TerminalState))
      else Pending
  }

  function Timeout(txId: string): SignerError {
    RemoteApiError(PollTimeout, Some(txId))
  }

  function RustProbe(answer: seq<Event> -> Reply, mode: Mode, txId: string): Probe<Event, Reply, TransactionResponse> {
    Probe(answer, r => RustTable(mode, txId, r), Fetched, Slept, Timeout(txId))
  }

  function GoProbe(answer: seq<Event> -> Reply, mode: Mode, txId: string): Probe<Event, Reply, TransactionResponse> {
    Probe(answer, r => GoTable(mode.ProgramCall?, txId, r), Fetched, Slept, Timeout(txId))
  }

  /** `poll_for_completion` */
  method PollForCompletion(channel: Channel<Event, Reply>, mode: Mode, txId: string, max: nat)
    returns (r: Result<TransactionResponse, SignerError>)
    modifies channel`log
    ensures Outcome(r, channel.log) == PollUntil(RustProbe(channel.answer, mode, txId), old(channel.log), 0, max)
  {
    r := PollUntilLoop(channel, r => RustTable(mode, txId, r), Fetched, Slept, Timeout(txId), max);
  }

  /** `pollForSignature` */
  method PollForSignature(channel: Channel<Event, Reply>, interrupted: seq<Event> -> bool, mode: Mode, txId: string,
                          max: nat)
    returns (r: Result<TransactionResponse, SignerError>)
    modifies channel`log
    ensures Outcome(r, channel.log)
         == PollGo(GoProbe(channel.answer, mode, txId), interrupted, HttpError(PollCancelled), old(channel.log), 0, max)
  {
    r := PollGoLoop(channel, interrupted, HttpError(PollCancelled),
                    r => GoTable(mode.ProgramCall?, txId, r), Fetched, Slept, Timeout(txId), max);
  }

  // ---- the two implementations agree exactly as far as their decoders do ----

  /** What a status is worth to a poll, as the documentation of both clients tells it. */
  datatype Kind = Returned | Escapes | Fails | Waits

  function KindOf(mode: Mode, status: Status): Kind {
    if status.Failed? || status.Cancelled? || status.Rejected? || status.Blocked? then Fails
    else if status == (if mode.Raw? then Completed else Signed) then Returned
    else if mode.ProgramCall? && (status.Broadcasting? || status.Confirming? || status.Completed?) then Escapes
    else Waits
  }

  /** The two decoders agree on the answer, or on what it is worth where its contents are not returned. */
  predicate DecodedAlike(mode: Mode, reply: Reply) {
    reply.Response? && 200 <= reply.status < 300 && reply.body.Json? ==>
      var rust, go := reply.body.rust, reply.body.go;
      rust == go
      || (rust.Some? && go.Some? && KindOf(mode, rust.value.status) == KindOf(mode, go.value.status) != Returned)
  }

  /** Both tables give every status its kind's verdict. */
  lemma TablesFollowKind(mode: Mode, txId: string, reply: Reply, r: TransactionResponse)
    requires reply.Response? && 200 <= reply.status < 300 && reply.body == Json(Some(r), Some(r))
    ensures RustTable(mode, txId, reply) == GoTable(mode == ProgramCall, txId, reply)
         == match KindOf(mode, r.status)
            case Returned => Done(r)
            case Escapes => Fail(BroadcastUnconfirmed(Some(txId), None, None, None, ProviderFailed))
            case Fails => Fail(SigningFailed(TerminalState))
            case Waits => Pending
  {
  }

  /** An answer without a status fails both polls, and says why. */
  lemma StatuslessAnswersFail(mode: Mode, txId: string, reply: Reply)
    requires reply.Response? && 200 <= reply.status < 300 ==> reply.body in {Unreadable, Json(None, None)}
    ensures RustTable(mode, txId, reply) == GoTable(mode == ProgramCall, txId, reply)
         == Fail(if reply == TransportFailure then HttpError(TransportFailed)
                 else if reply.status < 200 || reply.status >= 300 then RemoteApiError(RemoteStatus, None)
                 else if reply.body == Unreadable then HttpError(BodyUnreadable)
                 else SerializationError(BadJson))
  {
  }

  lemma TablesAgreeIff(mode: Mode, txId: string, reply: Reply)
    ensures RustTable(mode, txId, reply) == GoTable(mode.ProgramCall?, txId, reply) <==> DecodedAlike(mode, reply)
  {
  }

  /**
   For every mode, budget, answer stream and cancellation the two implementations reach the same verdict through the
   same events, so with the same number of fetches and sleeps, exactly when at every attempt the Rust poll reaches the
   sleep before it is not cut short and the decoders agree on its answer.
   */
  lemma RustAndGoAgree(answer: seq<Event> -> Reply, interrupted: seq<Event> -> bool, mode: Mode, txId: string,
                       log: seq<Event>, max: nat)
    ensures var rust := RustProbe(answer, mode, txId);
      PollUntil(rust, log, 0, max)
        == PollGo(GoProbe(answer, mode, txId), interrupted, HttpError(PollCancelled), log, 0, max)
      <==> forall k :: 0 <= k < max && Reached(rust, log, k) ==>
             SleepsThrough(rust, interrupted, log, k) && DecodedAlike(mode, answer(AttemptLog(rust, log, k)))
  {
    var rust, go := RustProbe(answer, mode, txId), GoProbe(answer, mode, txId);
    forall k | 0 <= k < max
      ensures ReadAlikeAt(rust, go, log, k) <==> DecodedAlike(mode, answer(AttemptLog(rust, log, k)))
    {
      TablesAgreeIff(mode, txId, answer(AttemptLog(rust, log, k)));
    }
    ProbesAreComparable(answer, mode, txId, log, max);
    GoRunEqualsIff(rust, go, interrupted, HttpError(PollCancelled), log, max);
  }

  lemma ProbesAreComparable(answer: seq<Event> -> Reply, mode: Mode, txId: string, log: seq<Event>, max: nat)
    ensures Comparable(RustProbe(answer, mode, txId), GoProbe(answer, mode, txId), log, max)
  {
  }

  /** The decoders do disagree: `{}` is malformed for Rust, which demands a status, and an in-flight one for Go. */
  lemma EmptyBodyDivides(mode: Mode, txId: string)
    ensures var reply := Response(200, Json(None, Some(TransactionResponse(InFlight(""), []))));
      && RustTable(mode, txId, reply) == Fail(SerializationError(BadJson))
      && GoTable(mode.ProgramCall?, txId, reply) == Pending
  {
  }

  // ---- what is reported as unconfirmed ----

  function ProbeOf(client: Client, answer: seq<Event> -> Reply, mode: Mode, txId: string)
    : Probe<Event, Reply, TransactionResponse>
  {
    if client.Rust? then RustProbe(answer, mode, txId) else GoProbe(answer, mode, txId)
  }

  /** A poll for `txId` by either implementation; only the Go loop can be interrupted. */
  function Polled(client: Client, answer: seq<Event> -> Reply, interrupted: seq<Event> -> bool, mode: Mode,
                  txId: string, log: seq<Event>, max: nat): Outcome<Event, TransactionResponse>
  {
    if client.Rust? then PollUntil(RustProbe(answer, mode, txId), log, 0, max)
    else PollGo(GoProbe(answer, mode, txId), interrupted, HttpError(PollCancelled), log, 0, max)
  }

  predicate Unconfirmed(r: Result<TransactionResponse, SignerError>, txId: string) {
    r.Err? && r.error.BroadcastUnconfirmed? && r.error.providerTxId == Some(txId)
  }

  /** The answer to attempt `k` shows the client a transaction that reached the network. */
  predicate ShowsBroadcast(client: Client, answer: seq<Event> -> Reply, mode: Mode, txId: string,
                           log: seq<Event>, k: nat)
  {
    var fetched := Fetch(client, answer(AttemptLog(ProbeOf(client, answer, mode, txId), log, k)));
    fetched.Ok? && fetched.value.status in {Broadcasting, Confirming, Completed}
  }

  /** A client that gets to attempt `k`: nothing settled the poll before it, and no sleep was cut short. */
  predicate GetsTo(client: Client, answer: seq<Event> -> Reply, interrupted: seq<Event> -> bool, mode: Mode,
                   txId: string, log: seq<Event>, k: nat)
  {
    var p := ProbeOf(client, answer, mode, txId);
    Reached(p, log, k) && (client.Go? ==> forall j :: 0 <= j <= k ==> SleepsThrough(p, interrupted, log, j))
  }

  lemma ReadIsUnconfirmedIff(client: Client, answer: seq<Event> -> Reply, mode: Mode, txId: string, log: seq<Event>,
                             k: nat)
    ensures var p := ProbeOf(client, answer, mode, txId);
      var read := Read(p, AttemptLog(p, log, k));
      && ((read.Fail? && read.error.BroadcastUnconfirmed?) <==>
            mode.ProgramCall? && ShowsBroadcast(client, answer, mode, txId, log, k))
      && (read.Fail? && read.error.BroadcastUnconfirmed? ==> read.error.providerTxId == Some(txId))
  {
    var p := ProbeOf(client, answer, mode, txId);
    var reply := answer(AttemptLog(p, log, k));
    assert Read(p, AttemptLog(p, log, k))
        == if client.Rust? then RustTable(mode, txId, reply) else GoTable(mode.ProgramCall?, txId, reply);
  }

  /** A decisive attempt that the client gets to decides its poll. */
  lemma DecidedWhereItGetsTo(client: Client, answer: seq<Event> -> Reply, interrupted: seq<Event> -> bool, mode: Mode,
                             txId: string, log: seq<Event>, max: nat, k: nat)
    requires k < max && GetsTo(client, answer, interrupted, mode, txId, log, k)
    requires var p := ProbeOf(client, answer, mode, txId); !Read(p, AttemptLog(p, log, k)).Pending? || k == max - 1
    ensures var p := ProbeOf(client, answer, mode, txId);
      var read := Read(p, AttemptLog(p, log, k));
      Polled(client, answer, interrupted, mode, txId, log, max).result
        == if read.Pending? then Err(RemoteApiError(PollTimeout, Some(txId))) else Verdict(read)
  {
    var p := ProbeOf(client, answer, mode, txId);
    EndsWhenDecided(p, log, k, max);
    if client.Go? {
      GoEndsWhenDecided(p, interrupted, HttpError(PollCancelled), log, k, max);
    }
  }

  /**
   In either implementation `BroadcastUnconfirmed` is reported, under the polled id, exactly by a PROGRAM_CALL that gets
   to an attempt whose status is a broadcast one: nothing settled the poll before it, and in Go no sleep before it was
   cut short.
   */
  lemma UnconfirmedExactlyOnBroadcast(client: Client, answer: seq<Event> -> Reply, interrupted: seq<Event> -> bool,
                                      mode: Mode, txId: string, log: seq<Event>, max: nat)
    ensures var r := Polled(client, answer, interrupted, mode, txId, log, max).result;
      && (Unconfirmed(r, txId) <==>
            mode.ProgramCall? && exists k :: 0 <= k < max && GetsTo(client, answer, interrupted, mode, txId, log, k)
                                             && ShowsBroadcast(client, answer, mode, txId, log, k))
      && (r.Err? && r.error.BroadcastUnconfirmed? ==> Unconfirmed(r, txId))
  {
    forall k | 0 <= k < max && GetsTo(client, answer, interrupted, mode, txId, log, k)
               && ShowsBroadcast(client, answer, mode, txId, log, k)
      ensures mode.ProgramCall? ==> Unconfirmed(Polled(client, answer, interrupted, mode, txId, log, max).result, txId)
    {
      ReadIsUnconfirmedIff(client, answer, mode, txId, log, k);
      if mode.ProgramCall? {
        DecidedWhereItGetsTo(client, answer, interrupted, mode, txId, log, max, k);
      }
    }
    UnconfirmedIsShown(client, answer, interrupted, mode, txId, log, max);
  }

  lemma UnconfirmedIsShown(client: Client, answer: seq<Event> -> Reply, interrupted: seq<Event> -> bool,
                           mode: Mode, txId: string, log: seq<Event>, max: nat)
    ensures var r := Polled(client, answer, interrupted, mode, txId, log, max).result;
      r.Err? && r.error.BroadcastUnconfirmed? ==>
        && Unconfirmed(r, txId) && mode.ProgramCall?
        && exists k :: 0 <= k < max && GetsTo(client, answer, interrupted, mode, txId, log, k)
                       && ShowsBroadcast(client, answer, mode, txId, log, k)
  {
    var p := ProbeOf(client, answer, mode, txId);
    if client.Go? {
      GoAgrees(p, interrupted, HttpError(PollCancelled), log, max);
    }
    if max > 0 && (client.Go? ==> NeverCut(p, interrupted, log, max)) {
      var k := LastAttempt(p, log, max);
      forall j | client.Go? && 0 <= j <= k
        ensures SleepsThrough(p, interrupted, log, j)
      {
        assert Reached(p, log, j);
      }
      ReadIsUnconfirmedIff(client, answer, mode, txId, log, k);
      DecidedWhereItGetsTo(client, answer, interrupted, mode, txId, log, max, k);
    }
  }

  /** A cancelled context hides a broadcast: the Go poll ends on the cut sleep although the next status shows one. */
  lemma CutSleepHidesABroadcast(answer: seq<Event> -> Reply, interrupted: seq<Event> -> bool, txId: string,
                                log: seq<Event>, max: nat, status: Status)
    requires max > 1 && status in {Broadcasting, Confirming, Completed}
    requires answer(log + [Fetched]) == Response(200, Json(None, Some(TransactionResponse(InFlight(""), []))))
    requires answer(log + [Fetched] + [Slept, Fetched])
          == Response(200, Json(None, Some(TransactionResponse(status, []))))
    requires interrupted(log + [Fetched] + [Slept])
    ensures FirstDecisive(GoProbe(answer, ProgramCall, txId), log, 1)
    ensures ShowsBroadcast(Go, answer, ProgramCall, txId, log, 1)
    ensures Polled(Go, answer, interrupted, ProgramCall, txId, log, max).result == Err(HttpError(PollCancelled))
  {
    var p := GoProbe(answer, ProgramCall, txId);
    assert AttemptLog(p, log, 0) == log + [Fetched];
    assert AttemptLog(p, log, 1) == log + [Fetched] + [Slept, Fetched];
    assert Read(p, AttemptLog(p, log, 0)) == GoTable(true, txId, answer(log + [Fetched]));
    assert Read(p, AttemptLog(p, log, 1)) == GoTable(true, txId, answer(log + [Fetched] + [Slept, Fetched]));
    GoStopsWhenCut(p, interrupted, HttpError(PollCancelled), log, 1, max);
  }

  // ---- signing identity ----

  datatype VaultAddress = VaultAddress(address: string, assetId: Option<string>)

  /** Kept by both filters: a non-empty address whose asset is absent, empty or ours. */
  predicate Eligible(entry: VaultAddress, asset: string) {
    entry.address != "" && (entry.assetId.None? || entry.assetId.value == "" || entry.assetId.value == asset)
  }

  /** The reference: the set of eligible addresses. */
  function Identities(entries: seq<VaultAddress>, asset: string): set<string> {
    set i | 0 <= i < |entries| && Eligible(entries[i], asset) :: entries[i].address
  }

  /** An address is an identity exactly when some entry lists it, not empty, for no asset, an empty one or ours. */
  lemma IdentitySpelled(entries: seq<VaultAddress>, asset: string, address: string)
    ensures address in Identities(entries, asset) <==>
            && address != ""
            && exists i :: && 0 <= i < |entries| && entries[i].address == address
                           && entries[i].assetId in {None, Some(""), Some(asset)}
  {
  }

  datatype Choice = Chosen(address: string) | NoAddress | Ambiguous(count: nat)

  /** What the caller is promised: a choice only from a singleton, and the exact count otherwise. */
  predicate Decides(choice: Choice, identities: set<string>) {
    match choice
    case Chosen(a) => identities == {a}
    case NoAddress => identities == {}
    case Ambiguous(n) => n == |identities| && n >= 2
  }

  /** The specification leaves no freedom, so any two implementations of it agree. */
  lemma DecidesIsUnique(a: Choice, b: Choice, identities: set<string>)
    requires Decides(a, identities) && Decides(b, identities)
    ensures a == b
    ensures a.Chosen? <==> |identities| == 1
  {
    if a.Chosen? {
      assert a.address in identities;
      assert |identities| == 1;
    }
    if b.Chosen? {
      assert b.address in identities;
      assert |identities| == 1;
    }
  }

  lemma IdentitiesStep(entries: seq<VaultAddress>, asset: string, i: nat)
    requires i < |entries|
    ensures Identities(entries[..i + 1], asset)
         == Identities(entries[..i], asset) + if Eligible(entries[i], asset) then {entries[i].address} else {}
  {
    var longer, shorter := entries[..i + 1], entries[..i];
    forall a | a in Identities(longer, asset)
      ensures a in Identities(shorter, asset) + if Eligible(entries[i], asset) then {entries[i].address} else {}
    {
      var j :| 0 <= j < |longer| && Eligible(longer[j], asset) && longer[j].address == a;
      assert j < i ==> shorter[j] == longer[j];
    }
    forall a | a in Identities(shorter, asset) + if Eligible(entries[i], asset) then {entries[i].address} else {}
      ensures a in Identities(longer, asset)
    {
      if a in Identities(shorter, asset) {
        var j :| 0 <= j < |shorter| && Eligible(shorter[j], asset) && shorter[j].address == a;
        assert longer[j] == shorter[j];
      } else {
        assert longer[i] == entries[i];
      }
    }
  }

  /** A duplicate-free list and the set of its elements have the same size. */
  lemma {:induction false} ListSize(xs: seq<string>)
    requires forall i, j :: 0 <= i < j < |xs| ==> xs[i] != xs[j]
    ensures |(set x | x in xs)| == |xs|
  {
    if xs != [] {
      ListSize(xs[1..]);
      assert (set x | x in xs) == {xs[0]} + set x | x in xs[1..];
      assert xs[0] !in xs[1..];
    }
  }

  lemma ListDecides(unique: seq<string>, identities: set<string>)
    requires forall i, j :: 0 <= i < j < |unique| ==> unique[i] != unique[j]
    requires identities == set x | x in unique
    ensures |unique| == |identities|
    ensures |unique| == 1 ==> identities == {unique[0]}
    ensures |unique| == 0 ==> identities == {}
  {
    ListSize(unique);
  }

  /** `select_vault_address` (Rust): a growing list searched linearly. */
  method SelectVaultAddressRust(entries: seq<VaultAddress>, asset: string) returns (choice: Choice)
    ensures Decides(choice, Identities(entries, asset))
  {
    var unique: seq<string> := [];
    for i := 0 to |entries|
      invariant forall i, j :: 0 <= i < j < |unique| ==> unique[i] != unique[j]
      invariant Identities(entries[..i], asset) == set x | x in unique
    {
      IdentitiesStep(entries, asset, i);
      var entry := entries[i];
      if entry.address == "" {
        continue;
      }
      if entry.assetId.Some? {
        if entry.assetId.value != "" && entry.assetId.value != asset {
          continue;
        }
      }
      if entry.address !in unique {
        unique := unique + [entry.address];
      }
    }
    assert entries[..|entries|] == entries;
    ListDecides(unique, Identities(entries, asset));
    if |unique| == 1 {
      choice := Chosen(unique[0]);
    } else if |unique| == 0 {
      choice := NoAddress;
    } else {
      choice := Ambiguous(|unique|);
    }
  }

  /** `selectVaultAddress` (Go): a map of seen addresses beside the list; a missing asset id arrives as "". */
  method SelectVaultAddressGo(entries: seq<VaultAddress>, asset: string) returns (choice: Choice)
    ensures Decides(choice, Identities(entries, asset))
  {
    var unique: seq<string> := [];
    var seen: map<string, bool> := map[];
    for i := 0 to |entries|
      invariant forall i, j :: 0 <= i < j < |unique| ==> unique[i] != unique[j]
      invariant forall a :: a in seen <==> a in unique
      invariant Identities(entries[..i], asset) == set x | x in unique
    {
      IdentitiesStep(entries, asset, i);
      var entry := entries[i];
      var entryAsset := if entry.assetId.Some? then entry.assetId.value else "";
      if entry.address == "" || (entryAsset != "" && entryAsset != asset) {
        continue;
      }
      if entry.address !in seen {
        seen := seen[entry.address := true];
        unique := unique + [entry.address];
      }
    }
    assert entries[..|entries|] == entries;
    ListDecides(unique, Identities(entries, asset));
    match |unique|
    case 1 => choice := Chosen(unique[0]);
    case 0 => choice := NoAddress;
    case _ => choice := Ambiguous(|unique|);
  }

  /** The outcome depends only on the set of entries: order and duplicates do not matter. */
  lemma SelectionIgnoresOrder(one: seq<VaultAddress>, other: seq<VaultAddress>, asset: string)
    requires forall e :: e in one <==> e in other
    ensures Identities(one, asset) == Identities(other, asset)
  {
    SelectionIncluded(one, other, asset);
    SelectionIncluded(other, one, asset);
  }

  lemma SelectionIncluded(one: seq<VaultAddress>, other: seq<VaultAddress>, asset: string)
    requires forall e :: e in one ==> e in other
    ensures Identities(one, asset) <= Identities(other, asset)
  {
    forall a | a in Identities(one, asset)
      ensures a in Identities(other, asset)
    {
      var i :| 0 <= i < |one| && Eligible(one[i], asset) && one[i].address == a;
      assert one[i] in other;
      var j :| 0 <= j < |other| && other[j] == one[i];
    }
  }
}
