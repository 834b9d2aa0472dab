/**
 The shared list of provider transaction ids that cancellation would otherwise lose, and the state
 machine of any number of concurrent, finished or cancelled sends that share one list.
 */
module PendingSlot {
  import opened Core

  /** `position` followed by `remove`: drops the first entry equal to `id`, if there is one. */
  function RemoveFirst(slot: seq<string>, id: string): seq<string> {
    if slot == [] then []
    else if slot[0] == id then slot[1..]
    else [slot[0]] + RemoveFirst(slot[1..], id)
  }

  lemma {:induction false} RemoveFirstIsMultisetRemoval(slot: seq<string>, id: string)
    ensures multiset(RemoveFirst(slot, id)) == multiset(slot) - multiset{id}
  {
    if slot != [] {
      assert slot == [slot[0]] + slot[1..];
      RemoveFirstIsMultisetRemoval(slot[1..], id);
    }
  }

  /** Where `RemoveFirst` cuts. */
  lemma {:induction false} RemoveFirstAt(slot: seq<string>, id: string, i: nat)
    requires i < |slot| && slot[i] == id && id !in slot[..i]
    ensures RemoveFirst(slot, id) == slot[..i] + slot[i + 1..]
  {
    if i > 0 {
      assert slot[0] in slot[..i];
      assert slot[1..][..i - 1] == slot[1..i];
      assert slot[..i] == [slot[0]] + slot[1..i];
      RemoveFirstAt(slot[1..], id, i - 1);
      assert slot[1..][i..] == slot[i + 1..];
    }
  }

  /** A change of the list. */
  datatype SlotEvent = Pushed(id: string) | Cleared(id: string)

  class PendingTransactionId {
    var slot: seq<string>

    /** Every change so far, oldest first. */
    ghost var events: seq<SlotEvent>

    constructor ()
      ensures slot == [] && events == []
    {
      slot := [];
      events := [];
    }

    /** The most recent id left behind. */
    method Get() returns (r: Option<string>)
      ensures r.None? <==> slot == []
      ensures r.Some? ==> r.value == slot[|slot| - 1]
    {
      var ids := slot;
      r := if ids == [] then None else Some(ids[|ids| - 1]);
    }

    method Set(id: string)
      modifies this
      ensures slot == old(slot) + [id]
      ensures events == old(events) + [Pushed(id)]
    {
      slot := slot + [id];
      events := events + [Pushed(id)];
    }

    method Clear(id: string)
      modifies this
      ensures slot == RemoveFirst(old(slot), id)
      ensures multiset(slot) == multiset(old(slot)) - multiset{id}
      ensures events == old(events) + [Cleared(id)]
    {
      var ids := slot;
      var i := 0;
      while i < |ids| && ids[i] != id
        invariant 0 <= i <= |ids|
        invariant id !in ids[..i]
      {
        assert ids[..i + 1] == ids[..i] + [ids[i]];
        i := i + 1;
      }
      FirstIsRemoved(ids, id, i);
      RemoveFirstIsMultisetRemoval(ids, id);
      slot := if i < |ids| then ids[..i] + ids[i + 1..] else ids;
      events := events + [Cleared(id)];
    }
  }

  lemma {:induction false} FirstIsRemoved(ids: seq<string>, id: string, i: nat)
    requires i <= |ids| && id !in ids[..i] && (i < |ids| ==> ids[i] == id)
    ensures RemoveFirst(ids, id) == if i < |ids| then ids[..i] + ids[i + 1..] else ids
  {
    if i < |ids| {
      RemoveFirstAt(ids, id, i);
    } else {
      assert ids[..i] == ids;
      RemoveFirstAbsent(ids, id);
    }
  }

  lemma {:induction false} RemoveFirstAbsent(slot: seq<string>, id: string)
    requires id !in slot
    ensures RemoveFirst(slot, id) == slot
  {
    if slot != [] {
      RemoveFirstAbsent(slot[1..], id);
      assert slot == [slot[0]] + slot[1..];
    }
  }

  // ---- concurrent sends ----

  /** One send: `Ended` covers a call that cleared its id and one that stopped before it had any. */
  datatype Call = Idle | Recorded(id: string) | Dropped(id: string) | Ended

  /** `recorded` lists the calls that pushed an id, oldest first. */
  datatype State = State(calls: seq<Call>, slot: seq<string>, recorded: seq<nat>)

  datatype Action = Record(c: nat, id: string) | Finish(c: nat) | Stop(c: nat)

  predicate Holds(call: Call) {
    call.Recorded? || call.Dropped?
  }

  predicate Enabled(s: State, a: Action) {
    && a.c < |s.calls|
    && match a
       case Record(c, _) => s.calls[c].Idle?
       case Finish(c) => s.calls[c].Recorded?
       case Stop(c) => s.calls[c].Idle? || s.calls[c].Recorded?
  }

  /** `Stop` is a dropped future (or an early failure): it runs no code on the list. */
  function Do(s: State, a: Action): State
    requires Enabled(s, a)
  {
    match a
    case Record(c, id) => State(s.calls[c := Recorded(id)], s.slot + [id], s.recorded + [c])
    case Finish(c) => State(s.calls[c := Ended], RemoveFirst(s.slot, s.calls[c].id), s.recorded)
    case Stop(c) => s.(calls := s.calls[c := if s.calls[c].Idle? then Ended else Dropped(s.calls[c].id)])
  }

  predicate Init(s: State) {
    s.slot == [] && s.recorded == [] && forall c :: 0 <= c < |s.calls| ==> s.calls[c].Idle?
  }

  /** A run: every state follows from the one before it by some enabled action. */
  predicate Behavior(states: seq<State>, actions: seq<Action>) {
    && |states| == |actions| + 1
    && Init(states[0])
    && forall i :: 0 <= i < |actions| ==> Enabled(states[i], actions[i]) && states[i + 1] == Do(states[i], actions[i])
  }

  function One(yes: bool): nat {
    if yes then 1 else 0
  }

  predicate HoldsId(call: Call, id: string) {
    Holds(call) && call.id == id
  }

  /** How many calls recorded `id` and have not cleared it. */
  function Held(calls: seq<Call>, id: string): nat {
    if calls == [] then 0 else Held(calls[..|calls| - 1], id) + One(HoldsId(calls[|calls| - 1], id))
  }

  lemma {:induction false} HeldUpdate(calls: seq<Call>, c: nat, call: Call, id: string)
    requires c < |calls|
    ensures Held(calls[c := call], id) + One(HoldsId(calls[c], id)) == Held(calls, id) + One(HoldsId(call, id))
  {
    var n := |calls| - 1;
    if c < n {
      assert calls[c := call][..n] == calls[..n][c := call];
      HeldUpdate(calls[..n], c, call, id);
    } else {
      assert calls[c := call][..n] == calls[..n];
    }
  }

  lemma {:induction false} HeldInit(calls: seq<Call>, id: string)
    requires forall c :: 0 <= c < |calls| ==> calls[c].Idle?
    ensures Held(calls, id) == 0
  {
    if calls != [] {
      HeldInit(calls[..|calls| - 1], id);
    }
  }

  /** The list holds `id` as often as calls hold it. */
  predicate Accounted(s: State, id: string) {
    multiset(s.slot)[id] == Held(s.calls, id)
  }

  lemma {:induction false} StepKeepsAccount(s: State, a: Action, id: string)
    requires Enabled(s, a) && Accounted(s, id)
    ensures Accounted(Do(s, a), id)
  {
    HeldUpdate(s.calls, a.c, Do(s, a).calls[a.c], id);
    if a.Finish? {
      RemoveFirstIsMultisetRemoval(s.slot, s.calls[a.c].id);
      if id == s.calls[a.c].id {
        HeldAtLeastOne(s.calls, a.c);
      }
    }
  }

  lemma {:induction false} HeldAtLeastOne(calls: seq<Call>, c: nat)
    requires c < |calls| && Holds(calls[c])
    ensures Held(calls, calls[c].id) >= 1
  {
    var n := |calls| - 1;
    if c < n {
      HeldAtLeastOne(calls[..n], c);
    }
  }

  /** In every reachable state the list holds every id exactly as often as it was recorded and not cleared. */
  lemma {:induction false} SlotIsWhatIsHeld(states: seq<State>, actions: seq<Action>, i: nat, id: string)
    requires Behavior(states, actions) && i < |states|
    ensures multiset(states[i].slot)[id] == Held(states[i].calls, id)
  {
    if i == 0 {
      HeldInit(states[0].calls, id);
    } else {
      SlotIsWhatIsHeld(states, actions, i - 1, id);
      StepKeepsAccount(states[i - 1], actions[i - 1], id);
    }
  }

  /** How many calls were dropped while they held `id`. */
  function DroppedCalls(calls: seq<Call>, id: string): nat {
    if calls == [] then 0
    else
      var last := calls[|calls| - 1];
      DroppedCalls(calls[..|calls| - 1], id) + One(last.Dropped? && last.id == id)
  }

  lemma {:induction false} HeldWhenQuiet(calls: seq<Call>, id: string)
    requires forall c :: 0 <= c < |calls| ==> !calls[c].Recorded?
    ensures Held(calls, id) == DroppedCalls(calls, id)
  {
    if calls != [] {
      HeldWhenQuiet(calls[..|calls| - 1], id);
    }
  }

  /** Once no call is still running, what is left is exactly what cancellation left behind. */
  lemma {:induction false} OnlyCancelledIdsRemain(states: seq<State>, actions: seq<Action>, i: nat, id: string)
    requires Behavior(states, actions) && i < |states|
    requires forall c :: 0 <= c < |states[i].calls| ==> !states[i].calls[c].Recorded?
    ensures multiset(states[i].slot)[id] == DroppedCalls(states[i].calls, id)
  {
    SlotIsWhatIsHeld(states, actions, i, id);
    HeldWhenQuiet(states[i].calls, id);
  }

  /** A call can be dropped at any time before it ends; dropped with an id, it leaves the id on the list for good. */
  lemma {:induction false} DroppedCallsLeaveTheirId(s: State, c: nat)
    ensures Enabled(s, Stop(c)) <==> c < |s.calls| && !s.calls[c].Ended? && !s.calls[c].Dropped?
    ensures Enabled(s, Stop(c)) && s.calls[c].Recorded? ==>
      && Do(s, Stop(c)).slot == s.slot && Do(s, Stop(c)).calls[c] == Dropped(s.calls[c].id)
      && forall a :: Enabled(Do(s, Stop(c)), a) ==> a.c != c
  {
  }

  // ---- recording order ----

  /** The held ids in the order their calls recorded them. */
  function InOrder(calls: seq<Call>, recorded: seq<nat>): seq<string> {
    if recorded == [] then []
    else
      (if recorded[0] < |calls| && Holds(calls[recorded[0]]) then [calls[recorded[0]].id] else [])
      + InOrder(calls, recorded[1..])
  }

  predicate InRecordingOrder(s: State) {
    s.slot == InOrder(s.calls, s.recorded)
  }

  lemma {:induction false} InOrderAppend(calls: seq<Call>, recorded: seq<nat>, c: nat)
    ensures InOrder(calls, recorded + [c])
         == InOrder(calls, recorded) + if c < |calls| && Holds(calls[c]) then [calls[c].id] else []
  {
    if recorded != [] {
      assert (recorded + [c])[1..] == recorded[1..] + [c];
      InOrderAppend(calls, recorded[1..], c);
    } else {
      assert InOrder(calls, [c][1..]) == [];
    }
  }

  /** Calls that the list does not mention, or whose held id did not change, do not show. */
  lemma {:induction false} InOrderFrame(calls: seq<Call>, recorded: seq<nat>, c: nat, call: Call)
    requires c < |calls|
    requires c !in recorded || (Holds(calls[c]) && Holds(call) && calls[c].id == call.id)
    ensures InOrder(calls[c := call], recorded) == InOrder(calls, recorded)
  {
    if recorded != [] {
      InOrderFrame(calls, recorded[1..], c, call);
    }
  }

  /** No two holding calls hold the same id. */
  predicate DistinctIds(calls: seq<Call>) {
    forall c, d :: 0 <= c < d < |calls| && Holds(calls[c]) && Holds(calls[d]) ==> calls[c].id != calls[d].id
  }

  lemma {:induction false} InOrderRemove(calls: seq<Call>, recorded: seq<nat>, c: nat)
    requires c < |calls| && Holds(calls[c]) && DistinctIds(calls) && c in recorded
    requires forall i, j :: 0 <= i < j < |recorded| ==> recorded[i] != recorded[j]
    ensures InOrder(calls[c := Ended], recorded) == RemoveFirst(InOrder(calls, recorded), calls[c].id)
  {
    if recorded[0] == c {
      assert c !in recorded[1..];
      InOrderFrame(calls, recorded[1..], c, Ended);
      assert InOrder(calls, recorded) == [calls[c].id] + InOrder(calls, recorded[1..]);
    } else {
      assert c in recorded[1..];
      InOrderRemove(calls, recorded[1..], c);
      var h, rest := recorded[0], InOrder(calls, recorded[1..]);
      if h < |calls| && Holds(calls[h]) {
        assert calls[h].id != calls[c].id;
        assert ([calls[h].id] + rest)[1..] == rest;
      } else {
        assert [] + rest == rest;
      }
    }
  }

  /** What the recording history knows: who recorded, once each. */
  predicate Recording(s: State) {
    && (forall i, j :: 0 <= i < j < |s.recorded| ==> s.recorded[i] != s.recorded[j])
    && (forall c :: c in s.recorded ==> c < |s.calls| && !s.calls[c].Idle?)
    && (forall c :: 0 <= c < |s.calls| && Holds(s.calls[c]) ==> c in s.recorded)
  }

  lemma {:induction false} StepKeepsOrder(s: State, a: Action)
    requires Enabled(s, a) && Recording(s) && InRecordingOrder(s)
    requires DistinctIds(s.calls)
    ensures Recording(Do(s, a)) && InRecordingOrder(Do(s, a))
  {
    var t := Do(s, a);
    match a
    case Record(c, id) =>
      assert c !in s.recorded;
      InOrderFrame(s.calls, s.recorded, c, Recorded(id));
      InOrderAppend(t.calls, s.recorded, c);
    case Finish(c) =>
      InOrderRemove(s.calls, s.recorded, c);
    case Stop(c) =>
      InOrderFrame(s.calls, s.recorded, c, t.calls[c]);
  }

  /** As long as held ids are pairwise distinct, the list is in recording order. */
  lemma {:induction false} SlotIsInRecordingOrder(states: seq<State>, actions: seq<Action>, i: nat)
    requires Behavior(states, actions) && i < |states|
    requires forall j :: 0 <= j < i ==> DistinctIds(states[j].calls)
    ensures Recording(states[i]) && InRecordingOrder(states[i])
  {
    if i > 0 {
      SlotIsInRecordingOrder(states, actions, i - 1);
      StepKeepsOrder(states[i - 1], actions[i - 1]);
    }
  }

  /** The list without entry `i`. */
  function Without(slot: seq<string>, i: nat): (r: seq<string>)
    requires i < |slot|
    ensures |r| == |slot| - 1
    ensures forall k :: 0 <= k < |r| ==> r[k] == slot[if k < i then k else k + 1]
  {
    slot[..i] + slot[i + 1..]
  }

  lemma {:induction false} SameCutIsConstant(slot: seq<string>, first: nat, own: nat, k: nat)
    requires first <= k <= own < |slot| && Without(slot, first) == Without(slot, own)
    ensures slot[k] == slot[own]
    decreases own - k
  {
    if k < own {
      assert Without(slot, first)[k] == slot[k + 1] && Without(slot, own)[k] == slot[k];
      SameCutIsConstant(slot, first, own, k + 1);
    }
  }

  lemma {:induction false} ConstantIsSameCut(slot: seq<string>, first: nat, own: nat)
    requires first <= own < |slot| && forall k :: first <= k <= own ==> slot[k] == slot[own]
    ensures Without(slot, first) == Without(slot, own)
  {
  }

  /**
   With a repeated id, clearing keeps the order exactly when every entry between the first copy and the
   caller's own is that id.
   */
  lemma {:induction false} ClearKeepsOrderIff(slot: seq<string>, first: nat, own: nat)
    requires first <= own < |slot| && slot[first] == slot[own] && slot[own] !in slot[..first]
    ensures RemoveFirst(slot, slot[own]) == Without(slot, own) <==>
      forall k :: first <= k <= own ==> slot[k] == slot[own]
  {
    RemoveFirstAt(slot, slot[own], first);
    assert RemoveFirst(slot, slot[own]) == Without(slot, first);
    if Without(slot, first) == Without(slot, own) {
      forall k | first <= k <= own
        ensures slot[k] == slot[own]
      {
        SameCutIsConstant(slot, first, own, k);
      }
    }
    if forall k :: first <= k <= own ==> slot[k] == slot[own] {
      ConstantIsSameCut(slot, first, own);
    }
  }

  /** The place of call `c` among the held ids in recording order: how many earlier ones are still held. */
  function Rank(calls: seq<Call>, recorded: seq<nat>, c: nat): nat
    requires c in recorded
  {
    if recorded[0] == c then 0
    else One(recorded[0] < |calls| && Holds(calls[recorded[0]])) + Rank(calls, recorded[1..], c)
  }

  /** Ending a call takes exactly its own entry out of the recording order. */
  lemma {:induction false} EndingCutsItsRank(calls: seq<Call>, recorded: seq<nat>, c: nat)
    requires c < |calls| && Holds(calls[c]) && c in recorded
    requires forall i, j :: 0 <= i < j < |recorded| ==> recorded[i] != recorded[j]
    ensures var ids, rank := InOrder(calls, recorded), Rank(calls, recorded, c);
      && rank < |ids| && ids[rank] == calls[c].id
      && InOrder(calls[c := Ended], recorded) == Without(ids, rank)
  {
    var rest := InOrder(calls, recorded[1..]);
    if recorded[0] == c {
      assert c !in recorded[1..];
      InOrderFrame(calls, recorded[1..], c, Ended);
      assert InOrder(calls, recorded) == [calls[c].id] + rest;
      assert Without([calls[c].id] + rest, 0) == rest;
    } else {
      assert c in recorded[1..];
      EndingCutsItsRank(calls, recorded[1..], c);
      OthersShiftTheCut(calls, recorded, c);
    }
  }

  /** An earlier call that holds an id moves the place of the cut by one, any other call leaves it. */
  lemma {:induction false} OthersShiftTheCut(calls: seq<Call>, recorded: seq<nat>, c: nat)
    requires c < |calls| && Holds(calls[c]) && recorded != [] && recorded[0] != c && c in recorded[1..]
    requires var rest, rank := InOrder(calls, recorded[1..]), Rank(calls, recorded[1..], c);
      && rank < |rest| && rest[rank] == calls[c].id
      && InOrder(calls[c := Ended], recorded[1..]) == Without(rest, rank)
    ensures var ids, rank := InOrder(calls, recorded), Rank(calls, recorded, c);
      && rank < |ids| && ids[rank] == calls[c].id
      && InOrder(calls[c := Ended], recorded) == Without(ids, rank)
  {
    var h, rest, rank := recorded[0], InOrder(calls, recorded[1..]), Rank(calls, recorded[1..], c);
    if h < |calls| && Holds(calls[h]) {
      WithoutShifts(calls[h].id, rest, rank);
    } else {
      assert [] + rest == rest && [] + Without(rest, rank) == Without(rest, rank);
    }
  }

  lemma {:induction false} WithoutShifts(x: string, rest: seq<string>, i: nat)
    requires i < |rest|
    ensures ([x] + rest)[i + 1] == rest[i] && Without([x] + rest, i + 1) == [x] + Without(rest, i)
  {
  }

  /** No other id stands between a copy of call `c`'s id and the entry that is the call's own. */
  predicate OwnEntryIsExposed(s: State, c: nat)
    requires c < |s.calls| && Holds(s.calls[c]) && c in s.recorded
  {
    var id, own := s.calls[c].id, Rank(s.calls, s.recorded, c);
    forall j, k :: 0 <= j <= k <= own < |s.slot| && s.slot[j] == id ==> s.slot[k] == id
  }

  lemma {:induction false} FirstCopy(slot: seq<string>, own: nat) returns (first: nat)
    requires own < |slot|
    ensures first <= own && slot[first] == slot[own] && slot[own] !in slot[..first]
  {
    first := 0;
    while slot[first] != slot[own]
      invariant first <= own && slot[own] !in slot[..first]
      decreases own - first
    {
      assert slot[..first + 1] == slot[..first] + [slot[first]];
      first := first + 1;
    }
  }

  lemma {:induction false} FinishKeepsOrderIff(s: State, c: nat)
    requires Enabled(s, Finish(c)) && Recording(s) && InRecordingOrder(s)
    ensures c in s.recorded
    ensures InRecordingOrder(Do(s, Finish(c))) <==> OwnEntryIsExposed(s, c)
  {
    var own := Rank(s.calls, s.recorded, c);
    EndingCutsItsRank(s.calls, s.recorded, c);
    var first := FirstCopy(s.slot, own);
    ClearKeepsOrderIff(s.slot, first, own);
  }

  /** Who recorded is known in every reachable state, whatever the ids. */
  lemma {:induction false} RecordingIsKept(states: seq<State>, actions: seq<Action>, i: nat)
    requires Behavior(states, actions) && i < |states|
    ensures Recording(states[i])
  {
    if i > 0 {
      RecordingIsKept(states, actions, i - 1);
      var s, a := states[i - 1], actions[i - 1];
      assert a.Record? ==> a.c !in s.recorded;
    }
  }

  /**
   The exact condition for recording order, ids repeated or not: in every run, a step from a list in order leaves it
   in order unless it finishes a call whose own entry has another id between it and a copy of its id.
   */
  lemma {:induction false} OrderIsKeptIff(states: seq<State>, actions: seq<Action>, i: nat)
    requires Behavior(states, actions) && i < |actions| && InRecordingOrder(states[i])
    ensures actions[i].Finish? ==> actions[i].c in states[i].recorded
    ensures InRecordingOrder(states[i + 1]) <==> (actions[i].Finish? ==> OwnEntryIsExposed(states[i], actions[i].c))
  {
    RecordingIsKept(states, actions, i);
    var s := states[i];
    match actions[i]
    case Record(c, id) =>
      assert c !in s.recorded;
      InOrderFrame(s.calls, s.recorded, c, Recorded(id));
      InOrderAppend(states[i + 1].calls, s.recorded, c);
    case Finish(c) =>
      FinishKeepsOrderIff(s, c);
    case Stop(c) =>
      InOrderFrame(s.calls, s.recorded, c, states[i + 1].calls[c]);
  }

  lemma {:induction false} RecordExtends(states: seq<State>, actions: seq<Action>, a: Action)
    requires Behavior(states, actions) && a.Record? && Enabled(states[|actions|], a)
    requires forall i :: 0 <= i < |states| ==> InRecordingOrder(states[i])
    ensures var longer := states + [Do(states[|actions|], a)];
      Behavior(longer, actions + [a]) && forall i :: 0 <= i < |longer| ==> InRecordingOrder(longer[i])
  {
    var longer := states + [Do(states[|actions|], a)];
    assert Behavior(longer, actions + [a]);
    OrderIsKeptIff(longer, actions + [a], |actions|);
  }

  /** Three calls record "a", "b" and "a" again. */
  lemma {:induction false} ThreeRecords() returns (states: seq<State>, actions: seq<Action>)
    ensures Behavior(states, actions) && |states| == 4
    ensures forall i :: 0 <= i < 4 ==> InRecordingOrder(states[i])
    ensures states[3] == State([Recorded("a"), Recorded("b"), Recorded("a")], ["a", "b", "a"], [0, 1, 2])
  {
    var s0 := State([Idle, Idle, Idle], [], []);
    var a, b, c := Record(0, "a"), Record(1, "b"), Record(2, "a");
    RecordExtends([s0], [], a);
    var s1 := Do(s0, a);
    RecordExtends([s0] + [s1], [] + [a], b);
    var s2 := Do(s1, b);
    RecordExtends([s0] + [s1] + [s2], [] + [a] + [b], c);
    states, actions := [s0] + [s1] + [s2] + [Do(s2, c)], [] + [a] + [b] + [c];
  }

  /** The order can be lost: two calls record "a" with "b" between them, and the later one finishes first. */
  lemma {:induction false} OrderCanBeLost() returns (states: seq<State>, actions: seq<Action>)
    ensures Behavior(states, actions) && |states| == 5
    ensures forall i :: 0 <= i < 4 ==> InRecordingOrder(states[i])
    ensures states[4].slot == ["b", "a"] && InOrder(states[4].calls, states[4].recorded) == ["a", "b"]
  {
    states, actions := ThreeRecords();
    var s := states[3];
    states, actions := states + [Do(s, Finish(2))], actions + [Finish(2)];
    EndingCutsItsRank(s.calls, s.recorded, 2);
    RankOfTheThird(s.calls);
  }

  lemma {:induction false} RankOfTheThird(calls: seq<Call>)
    requires |calls| == 3 && Holds(calls[0]) && Holds(calls[1])
    ensures Rank(calls, [0, 1, 2], 2) == 2
  {
    assert [0, 1, 2][1..] == [1, 2] && [1, 2][1..] == [2];
    assert Rank(calls, [1, 2], 2) == 1 + Rank(calls, [2], 2);
  }
}
