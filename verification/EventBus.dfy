/** The in-process event bus: publishers schedule dispatches on the loop, each dispatch offers the event to every
    subscriber's bounded queue, and a full queue drops it.
  */
module EventBus {
  import opened Prelude

  type Event = int

  /** A subscriber's queue, with the history that the statements need: how many events had been dispatched when it
      joined, what it has consumed, and which dispatches found its queue full. */
  datatype Sub = Sub(joined: nat, queue: seq<Event>, consumed: seq<Event>, missed: set<nat>)

  /** `bound` says whether publishing reaches a running loop; `scheduled` are the loop's pending dispatches. A loop that
      closes never runs them. */
  datatype Bus = Bus(bound: bool, scheduled: seq<Event>, dispatched: seq<Event>, subs: map<nat, Sub>)

  datatype Action =
    | BindLoop
    | CloseLoop
    | Publish(event: Event)
    | Dispatch
    | Subscribe(id: nat)
    | Unsubscribe(id: nat)
    | Consume(id: nat)

  const START := Bus(false, [], [], map[])

  /** A maximum of 0 means no bound, as for asyncio queues. */
  predicate Full(queue: seq<Event>, max: nat) {
    max > 0 && |queue| >= max
  }

  predicate Enabled(b: Bus, a: Action) {
    match a
    case Dispatch => b.bound && b.scheduled != []
    case Subscribe(id) => id !in b.subs
    case Unsubscribe(id) => id in b.subs
    case Consume(id) => id in b.subs && b.subs[id].queue != []
    case _ => true
  }

  /** One subscriber's share of a dispatch. */
  function Offered(s: Sub, e: Event, index: nat, max: nat): Sub {
    if Full(s.queue, max) then s.(missed := s.missed + {index}) else s.(queue := s.queue + [e])
  }

  function Taken(s: Sub): Sub
    requires s.queue != []
  {
    s.(queue := s.queue[1..], consumed := s.consumed + [s.queue[0]])
  }

  function Step(b: Bus, a: Action, max: nat): Bus
    requires Enabled(b, a)
  {
    match a
    case BindLoop => b.(bound := true)
    case CloseLoop => b.(bound := false, scheduled := [])
    case Publish(e) => if b.bound then b.(scheduled := b.scheduled + [e]) else b
    case Dispatch =>
      b.(scheduled := b.scheduled[1..],
         dispatched := b.dispatched + [b.scheduled[0]],
         subs := map id | id in b.subs :: Offered(b.subs[id], b.scheduled[0], |b.dispatched|, max))
    case Subscribe(id) => b.(subs := b.subs[id := Sub(|b.dispatched|, [], [], {})])
    case Unsubscribe(id) => b.(subs := b.subs - {id})
    case Consume(id) => b.(subs := b.subs[id := Taken(b.subs[id])])
  }

  predicate Runs(b: Bus, actions: seq<Action>, max: nat)
    decreases actions
  {
    actions == [] || (Enabled(b, actions[0]) && Runs(Step(b, actions[0], max), actions[1..], max))
  }

  function After(b: Bus, actions: seq<Action>, max: nat): Bus
    requires Runs(b, actions, max)
    decreases actions
  {
    if actions == [] then b else After(Step(b, actions[0], max), actions[1..], max)
  }

  lemma {:induction false} AfterTwo(b: Bus, first: seq<Action>, second: seq<Action>, max: nat)
    requires Runs(b, first + second, max)
    ensures Runs(b, first, max) && Runs(After(b, first, max), second, max)
    ensures After(b, first + second, max) == After(After(b, first, max), second, max)
    decreases first
  {
    hide Step, Enabled;
    var all := first + second;
    if first == [] {
      assert all == second;
    } else {
      assert all[0] == first[0] && all[1..] == first[1..] + second;
      AfterTwo(Step(b, first[0], max), first[1..], second, max);
    }
  }

  // ---------------------------------------------------------------- what a subscriber receives

  /** The events dispatched from index `from` on, without the missed indices, in order. */
  function Received(dispatched: seq<Event>, from: nat, missed: set<nat>): seq<Event>
    requires from <= |dispatched|
    decreases |dispatched|
  {
    if |dispatched| == from then []
    else
      var n := |dispatched| - 1;
      Received(dispatched[..n], from, missed) + (if n in missed then [] else [dispatched[n]])
  }

  /** Consumed and queued events of a subscriber are exactly the dispatched ones not missed, and the queue respects
      its bound. */
  predicate FaithfulSub(s: Sub, dispatched: seq<Event>, max: nat) {
    && s.joined <= |dispatched|
    && (forall i :: i in s.missed ==> s.joined <= i < |dispatched|)
    && s.consumed + s.queue == Received(dispatched, s.joined, s.missed)
    && (max > 0 ==> |s.queue| <= max)
  }

  predicate Faithful(b: Bus, max: nat) {
    forall id :: id in b.subs ==> FaithfulSub(b.subs[id], b.dispatched, max)
  }

  lemma {:induction false} ReceivedIgnoresLater(dispatched: seq<Event>, from: nat, missed: set<nat>, later: nat)
    requires from <= |dispatched| <= later
    ensures Received(dispatched, from, missed + {later}) == Received(dispatched, from, missed)
    decreases |dispatched|
  {
    if |dispatched| > from {
      ReceivedIgnoresLater(dispatched[..|dispatched| - 1], from, missed, later);
    }
  }

  lemma ReceivedOneMore(dispatched: seq<Event>, e: Event, from: nat, missed: set<nat>)
    requires from <= |dispatched|
    ensures |dispatched| !in missed ==>
              Received(dispatched + [e], from, missed) == Received(dispatched, from, missed) + [e]
    ensures Received(dispatched + [e], from, missed + {|dispatched|}) == Received(dispatched, from, missed)
  {
    var n, all := |dispatched|, dispatched + [e];
    assert all[..n] == dispatched && all[n] == e;
    ReceivedIgnoresLater(dispatched, from, missed, n);
    var before := Received(dispatched, from, missed + {n});
    assert before + [] == before;
  }

  lemma OfferedFaithful(s: Sub, dispatched: seq<Event>, e: Event, max: nat)
    requires FaithfulSub(s, dispatched, max)
    ensures FaithfulSub(Offered(s, e, |dispatched|, max), dispatched + [e], max)
  {
    hide Received;
    ReceivedOneMore(dispatched, e, s.joined, s.missed);
    assert s.consumed + (s.queue + [e]) == (s.consumed + s.queue) + [e];
  }

  lemma TakenFaithful(s: Sub, dispatched: seq<Event>, max: nat)
    requires FaithfulSub(s, dispatched, max) && s.queue != []
    ensures FaithfulSub(Taken(s), dispatched, max)
  {
    hide Received;
    assert s.queue == [s.queue[0]] + s.queue[1..];
    assert (s.consumed + [s.queue[0]]) + s.queue[1..] == s.consumed + s.queue;
  }

  lemma StepFaithful(b: Bus, a: Action, max: nat)
    requires Faithful(b, max) && Enabled(b, a)
    ensures Faithful(Step(b, a, max), max)
  {
    var after := Step(b, a, max);
    assert a.Subscribe? ==> FaithfulSub(Sub(|b.dispatched|, [], [], {}), b.dispatched, max);
    hide FaithfulSub, Offered, Taken;
    forall id | id in after.subs ensures FaithfulSub(after.subs[id], after.dispatched, max) {
      if a.Dispatch? {
        OfferedFaithful(b.subs[id], b.dispatched, b.scheduled[0], max);
      } else if a == Consume(id) {
        TakenFaithful(b.subs[id], b.dispatched, max);
      }
    }
  }

  /** For every interleaving, what a subscriber has consumed and has queued is, in order, every event dispatched
      since it joined except those that found its queue full; the queue never exceeds its bound. */
  lemma {:induction false} Delivery(b: Bus, actions: seq<Action>, max: nat)
    requires Faithful(b, max) && Runs(b, actions, max)
    ensures Faithful(After(b, actions, max), max)
    decreases actions
  {
    if actions != [] {
      StepFaithful(b, actions[0], max);
      Delivery(Step(b, actions[0], max), actions[1..], max);
    }
  }

  /** Whether a subscriber is there after some actions: its last coming or going decides. */
  function Stays(there: bool, actions: seq<Action>, id: nat): bool {
    if actions == [] then there
    else
      var last := actions[|actions| - 1];
      if last == Subscribe(id) then true else if last == Unsubscribe(id) then false
      else Stays(there, actions[..|actions| - 1], id)
  }

  /** A subscriber has a queue from its coming to its going. */
  lemma {:induction false} ThereIff(b: Bus, actions: seq<Action>, max: nat, id: nat)
    requires Runs(b, actions, max)
    ensures id in After(b, actions, max).subs <==> Stays(id in b.subs, actions, id)
    decreases |actions|
  {
    if actions != [] {
      var n := |actions| - 1;
      assert actions == actions[..n] + [actions[n]];
      AfterTwo(b, actions[..n], [actions[n]], max);
      ThereIff(b, actions[..n], max, id);
      assert [actions[n]][1..] == [];
      var before := After(b, actions[..n], max);
      assert After(before, [actions[n]], max) == Step(before, actions[n], max);
    }
  }

  /** A subscriber comes with an empty queue, having missed nothing, from the next dispatch on. */
  lemma ComesEmpty(b: Bus, id: nat, max: nat)
    requires id !in b.subs
    ensures Enabled(b, Subscribe(id))
    ensures Step(b, Subscribe(id), max).subs[id] == Sub(|b.dispatched|, [], [], {})
    ensures Enabled(b, BindLoop) && Step(b, BindLoop, max).bound
  {
  }

  // ---------------------------------------------------------------- which events are missed

  /** What later actions leave of the record of dispatch `i`: a subscriber that had joined by then was there, and the
      record is not touched. */
  lemma {:induction false} RecordStays(b: Bus, actions: seq<Action>, max: nat, id: nat, i: nat)
    requires Faithful(b, max) && Runs(b, actions, max) && i < |b.dispatched|
    requires id in After(b, actions, max).subs && After(b, actions, max).subs[id].joined <= i
    ensures id in b.subs && b.subs[id].joined <= i
    ensures i in After(b, actions, max).subs[id].missed <==> i in b.subs[id].missed
    decreases actions
  {
    if actions != [] {
      var next := Step(b, actions[0], max);
      StepFaithful(b, actions[0], max);
      RecordStays(next, actions[1..], max, id, i);
    }
  }

  lemma DispatchRecords(b: Bus, max: nat, id: nat)
    requires Faithful(b, max) && Enabled(b, Dispatch) && id in Step(b, Dispatch, max).subs
    ensures id in b.subs
    ensures |b.dispatched| in Step(b, Dispatch, max).subs[id].missed <==> Full(b.subs[id].queue, max)
  {
    hide Received;
  }

  /** After any run, a subscriber that had joined before the dispatch numbered `i` has missed it if and only if its
      queue was full in the state before that dispatch. */
  lemma MissedIffFull(b: Bus, before: seq<Action>, later: seq<Action>, max: nat, id: nat)
    requires Faithful(b, max) && Runs(b, before + [Dispatch] + later, max)
    requires Runs(b, before, max)
    requires var i := |After(b, before, max).dispatched|; var end := After(b, before + [Dispatch] + later, max);
             id in end.subs && end.subs[id].joined <= i
    ensures var at := After(b, before, max); var end := After(b, before + [Dispatch] + later, max);
            && id in at.subs
            && (|at.dispatched| in end.subs[id].missed <==> max > 0 && |at.subs[id].queue| >= max)
  {
    hide Faithful, Step, Enabled;
    var at := After(b, before, max);
    AfterTwo(b, before + [Dispatch], later, max);
    AfterTwo(b, before, [Dispatch], max);
    assert [Dispatch][1..] == [];
    var next := Step(at, Dispatch, max);
    assert After(at, [Dispatch], max) == next;
    Delivery(b, before, max);
    StepFaithful(at, Dispatch, max);
    DispatchedMore(at, max);
    RecordStays(next, later, max, id, |at.dispatched|);
    DispatchRecords(at, max, id);
  }

  lemma DispatchedMore(b: Bus, max: nat)
    requires Enabled(b, Dispatch)
    ensures |Step(b, Dispatch, max).dispatched| == |b.dispatched| + 1
  {
  }

  /** Every number between the dispatches before a run and after it is the number of one of its dispatches. */
  lemma {:induction false} EveryNumberIsADispatch(b: Bus, actions: seq<Action>, max: nat, i: nat) returns (n: nat)
    requires Runs(b, actions, max) && |b.dispatched| <= i < |After(b, actions, max).dispatched|
    ensures n < |actions| && actions[n] == Dispatch
    ensures Runs(b, actions[..n], max) && |After(b, actions[..n], max).dispatched| == i
    decreases actions
  {
    if actions[0] == Dispatch && |b.dispatched| == i {
      n := 0;
    } else {
      var m := EveryNumberIsADispatch(Step(b, actions[0], max), actions[1..], max, i);
      n := m + 1;
      assert actions[..n][0] == actions[0] && actions[..n][1..] == actions[1..][..m];
    }
  }

  /** The events published while a loop was bound. */
  function Published(bound: bool, actions: seq<Action>): seq<Event>
    decreases actions
  {
    if actions == [] then []
    else match actions[0]
      case BindLoop => Published(true, actions[1..])
      case CloseLoop => Published(false, actions[1..])
      case Publish(e) => (if bound then [e] else []) + Published(bound, actions[1..])
      case _ => Published(bound, actions[1..])
  }

  /** Where a loop first closes. */
  function UntilClose(actions: seq<Action>): (n: nat)
    ensures n <= |actions| && (n < |actions| ==> actions[n] == CloseLoop)
    ensures CloseLoop !in actions[..n]
  {
    if actions == [] || actions[0] == CloseLoop then 0
    else
      var n := 1 + UntilClose(actions[1..]);
      assert actions[..n] == [actions[0]] + actions[1..][..n - 1];
      n
  }

  function Dispatches(actions: seq<Action>): nat {
    if actions == [] then 0 else (if actions[0] == Dispatch then 1 else 0) + Dispatches(actions[1..])
  }

  function Take(s: seq<Event>, n: nat): seq<Event> {
    if n <= |s| then s[..n] else s
  }

  /** What is dispatched or still scheduled of the events waiting at first and those published on the way: all of them,
      in order, while the loop stays open; of a loop that closes only the first ones, as many as it has dispatched. */
  function Survivors(waiting: seq<Event>, bound: bool, actions: seq<Action>): seq<Event>
    decreases |actions|
  {
    var n := UntilClose(actions);
    var seen := waiting + Published(bound, actions[..n]);
    if n == |actions| then seen
    else Take(seen, Dispatches(actions[..n])) + Survivors([], false, actions[n + 1..])
  }

  /** While no loop closes, nothing published to it is reordered or lost before dispatch. */
  lemma {:induction false} OpenLoopKeepsOrder(b: Bus, actions: seq<Action>, max: nat)
    requires Runs(b, actions, max) && CloseLoop !in actions
    ensures var after := After(b, actions, max);
            && after.dispatched + after.scheduled == b.dispatched + b.scheduled + Published(b.bound, actions)
            && |after.dispatched| == |b.dispatched| + Dispatches(actions)
    decreases actions
  {
    if actions != [] {
      var a, next := actions[0], Step(b, actions[0], max);
      OpenLoopKeepsOrder(next, actions[1..], max);
      if a.Dispatch? {
        assert b.scheduled == [b.scheduled[0]] + b.scheduled[1..];
        assert next.dispatched + next.scheduled == b.dispatched + b.scheduled;
      } else if a.Publish? && b.bound {
        assert b.dispatched + (b.scheduled + [a.event]) == (b.dispatched + b.scheduled) + [a.event];
      }
    }
  }

  /** A run is its part up to the first close, the close, and the rest. */
  lemma FirstClose(b: Bus, actions: seq<Action>, max: nat)
    requires Runs(b, actions, max)
    ensures var n := UntilClose(actions);
            && Runs(b, actions[..n], max)
            && (n == |actions| ==> After(b, actions, max) == After(b, actions[..n], max))
            && (n < |actions| ==>
                  var next := After(b, actions[..n], max).(bound := false, scheduled := []);
                  Runs(next, actions[n + 1..], max) && After(b, actions, max) == After(next, actions[n + 1..], max))
  {
    hide Enabled, Step, UntilClose;
    var n := UntilClose(actions);
    assert actions == actions[..n] + actions[n..];
    AfterTwo(b, actions[..n], actions[n..], max);
    if n < |actions| {
      assert actions[n..][0] == CloseLoop && actions[n..][1..] == actions[n + 1..];
      LoopCloses(After(b, actions[..n], max), max);
    }
  }

  lemma SurvivorsAre(waiting: seq<Event>, bound: bool, actions: seq<Action>)
    ensures var n := UntilClose(actions); var seen := waiting + Published(bound, actions[..n]);
            Survivors(waiting, bound, actions) ==
            if n == |actions| then seen
            else Take(seen, Dispatches(actions[..n])) + Survivors([], false, actions[n + 1..])
  {
  }

  /** Publishing order is dispatching order, whatever loops are bound and closed: what is dispatched or scheduled in the
      end is what survives of the published events, and a loop that closes loses exactly those it has not reached. */
  lemma {:induction false} PublishOrderKept(b: Bus, actions: seq<Action>, max: nat)
    requires Runs(b, actions, max)
    ensures var after := After(b, actions, max);
            after.dispatched + after.scheduled == b.dispatched + Survivors(b.scheduled, b.bound, actions)
    decreases |actions|
  {
    var n := UntilClose(actions);
    FirstClose(b, actions, max);
    SurvivorsAre(b.scheduled, b.bound, actions);
    OpenLoopKeepsOrder(b, actions[..n], max);
    hide *;
    var mid := After(b, actions[..n], max);
    if n < |actions| {
      var next := mid.(bound := false, scheduled := []);
      PublishOrderKept(next, actions[n + 1..], max);
      Rejoin(b.dispatched, b.scheduled, Published(b.bound, actions[..n]), mid.dispatched, mid.scheduled,
             Survivors([], false, actions[n + 1..]));
    } else {
      Rejoined(b.dispatched, b.scheduled, Published(b.bound, actions[..n]));
    }
  }

  lemma LoopCloses(b: Bus, max: nat)
    ensures Enabled(b, CloseLoop)
    ensures Step(b, CloseLoop, max) == b.(bound := false, scheduled := [])
  {
  }

  lemma Rejoin(before: seq<Event>, waiting: seq<Event>, published: seq<Event>, dispatched: seq<Event>,
               scheduled: seq<Event>, rest: seq<Event>)
    requires dispatched + scheduled == before + waiting + published && |dispatched| >= |before|
    ensures dispatched + rest == before + (Take(waiting + published, |dispatched| - |before|) + rest)
  {
    var seen := waiting + published;
    assert before + waiting + published == before + seen;
    assert dispatched == (before + seen)[..|dispatched|] == before + Take(seen, |dispatched| - |before|);
  }

  lemma Rejoined(before: seq<Event>, waiting: seq<Event>, published: seq<Event>)
    ensures before + waiting + published == before + (waiting + published)
  {
  }

  /** All this holds in every state a program can reach. */
  lemma FromStart(actions: seq<Action>, max: nat)
    requires Runs(START, actions, max)
    ensures var b := After(START, actions, max);
            Faithful(b, max) && b.dispatched + b.scheduled == Survivors([], false, actions)
  {
    Delivery(START, actions, max);
    PublishOrderKept(START, actions, max);
  }

  // ---------------------------------------------------------------- independence

  /** The actions that concern everyone or subscriber `id`. */
  predicate Concerns(a: Action, id: nat) {
    match a
    case Subscribe(other) => other == id
    case Unsubscribe(other) => other == id
    case Consume(other) => other == id
    case _ => true
  }

  function WithoutOthers(actions: seq<Action>, id: nat): seq<Action> {
    if actions == [] then []
    else (if Concerns(actions[0], id) then [actions[0]] else []) + WithoutOthers(actions[1..], id)
  }

  /** Two buses that a subscriber cannot tell apart. */
  predicate SameFor(a: Bus, b: Bus, id: nat) {
    && a.bound == b.bound && a.scheduled == b.scheduled && a.dispatched == b.dispatched
    && (id in a.subs <==> id in b.subs)
    && (id in a.subs ==> a.subs[id] == b.subs[id])
  }

  /** A subscriber's whole stream is the same as if no other subscriber had ever acted: a slow one never
      alters another's. */
  lemma {:induction false} OthersDoNotMatter(a: Bus, b: Bus, actions: seq<Action>, id: nat, max: nat)
    requires SameFor(a, b, id) && Runs(a, actions, max)
    ensures Runs(b, WithoutOthers(actions, id), max)
    ensures SameFor(After(a, actions, max), After(b, WithoutOthers(actions, id), max), id)
    decreases actions
  {
    if actions != [] {
      var act := actions[0];
      var own := WithoutOthers(actions[1..], id);
      if Concerns(act, id) {
        OthersDoNotMatter(Step(a, act, max), Step(b, act, max), actions[1..], id, max);
        assert WithoutOthers(actions, id) == [act] + own;
        assert ([act] + own)[0] == act && ([act] + own)[1..] == own;
      } else {
        OthersDoNotMatter(Step(a, act, max), b, actions[1..], id, max);
        assert WithoutOthers(actions, id) == own;
      }
    }
  }

  // ---------------------------------------------------------------- the dispatch loop

  class Queues {
    var queues: map<nat, seq<Event>>

    constructor ()
      ensures queues == map[]
    {
      queues := map[];
    }

    /** Offer an event to a snapshot of the subscribers, in any order; a full queue skips it. */
    method DispatchTo(subscribers: seq<nat>, e: Event, max: nat)
      requires Elements(subscribers) == queues.Keys && |subscribers| == |queues.Keys|
      modifies this
      ensures queues == map id | id in old(queues) ::
                if Full(old(queues)[id], max) then old(queues)[id] else old(queues)[id] + [e]
    {
      hide Elements, PartlySent;
      ghost var before := queues;
      var i := 0;
      DistinctSeq(subscribers);
      NoneSent(before, subscribers, e, max);
      while i < |subscribers|
        invariant 0 <= i <= |subscribers|
        invariant PartlySent(before, queues, subscribers, i, e, max)
      {
        var id := subscribers[i];
        OneMoreSent(before, queues, subscribers, i, e, max);
        if max == 0 || |queues[id]| < max {
          queues := queues[id := queues[id] + [e]];
        }
        i := i + 1;
      }
      AllSent(before, queues, subscribers, e, max);
    }
  }

  /** The first `i` subscribers have been offered the event, the others not yet. */
  predicate PartlySent(before: map<nat, seq<Event>>, now: map<nat, seq<Event>>, subscribers: seq<nat>, i: nat,
                       e: Event, max: nat) {
    && now.Keys == before.Keys == Elements(subscribers)
    && (forall j :: 0 <= j < |subscribers| && j < i ==> now[subscribers[j]] == Sent(before[subscribers[j]], e, max))
    && (forall j :: i <= j < |subscribers| ==> now[subscribers[j]] == before[subscribers[j]])
  }

  lemma NoneSent(before: map<nat, seq<Event>>, subscribers: seq<nat>, e: Event, max: nat)
    requires Elements(subscribers) == before.Keys
    ensures PartlySent(before, before, subscribers, 0, e, max)
  {
  }

  lemma OneMoreSent(before: map<nat, seq<Event>>, now: map<nat, seq<Event>>, subscribers: seq<nat>, i: nat, e: Event,
                    max: nat)
    requires i < |subscribers| && PartlySent(before, now, subscribers, i, e, max)
    requires forall j, k :: 0 <= j < k < |subscribers| ==> subscribers[j] != subscribers[k]
    ensures subscribers[i] in now
    ensures var id := subscribers[i];
            var next := if max == 0 || |now[id]| < max then now[id := now[id] + [e]] else now;
            PartlySent(before, next, subscribers, i + 1, e, max)
  {
    var id := subscribers[i];
    assert id in Elements(subscribers);
    forall j | i < j < |subscribers| ensures subscribers[j] != id && subscribers[j] in now {
      assert subscribers[j] in Elements(subscribers);
    }
  }

  lemma AllSent(before: map<nat, seq<Event>>, now: map<nat, seq<Event>>, subscribers: seq<nat>, e: Event, max: nat)
    requires PartlySent(before, now, subscribers, |subscribers|, e, max)
    ensures now == map id | id in before :: if Full(before[id], max) then before[id] else before[id] + [e]
  {
    forall id | id in now ensures now[id] == Sent(before[id], e, max) {
      assert id in Elements(subscribers);
      var j :| 0 <= j < |subscribers| && subscribers[j] == id;
    }
  }

  function Sent(queue: seq<Event>, e: Event, max: nat): seq<Event> {
    if Full(queue, max) then queue else queue + [e]
  }

  /** A listing as long as its set of elements has no repetition. */
  lemma {:induction false} DistinctSeq(s: seq<nat>)
    requires |Elements(s)| == |s|
    ensures forall i, j :: 0 <= i < j < |s| ==> s[i] != s[j]
  {
    if s != [] {
      var n := |s| - 1;
      FrontLast(s);
      ElementsAtMost(s[..n]);
      DistinctSeq(s[..n]);
      assert s[n] !in Elements(s[..n]);
      forall i | 0 <= i < n ensures s[i] != s[n] {
        assert s[..n][i] in Elements(s[..n]);
      }
    }
  }
}
