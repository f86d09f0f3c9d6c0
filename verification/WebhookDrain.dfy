/** The webhook drainer and its requesters, interleaved at the drainer's await points. */
module WebhookDrain {
  import opened Prelude

  /** Where the drainer is suspended. `Processing` has one source in flight and the rest of its snapshot left. */
  datatype Phase =
    | Waiting
    | Sleeping
    | Processing(current: string, todo: seq<string>)
    | Stopped

  datatype State = State(pending: set<string>, wakeup: bool, stop: bool, phase: Phase)

  datatype Action =
    | Request(source: string)
    | SignalStop
    | Timeout
    | WakeUp
    | SleepOver
    | ProcessOver(succeeded: bool)

  const INITIAL := State({}, false, false, Waiting)

  /** Actions of the drainer that are more than a poll. */
  predicate DrainStep(a: Action) {
    a.WakeUp? || a.SleepOver? || a.ProcessOver?
  }

  predicate Enabled(st: State, a: Action) {
    match a
    case Request(_) => true
    case SignalStop => true
    case Timeout => st.phase.Waiting?
    case WakeUp => st.phase.Waiting? && st.wakeup
    case SleepOver => st.phase.Sleeping?
    case ProcessOver(_) => st.phase.Processing?
  }

  /** Back at the head of the drainer's loop. */
  function LoopHead(st: State): State {
    st.(phase := if st.stop then Stopped else Waiting)
  }

  /** The next source of a snapshot, or out of the loop over it. */
  function NextSource(st: State, todo: seq<string>): State {
    if todo == [] || st.stop then LoopHead(st) else st.(phase := Processing(todo[0], todo[1..]))
  }

  /** One action, up to the next await. `sorted` lists a set of sources in order. */
  function Step(st: State, a: Action, sorted: set<string> -> seq<string>): State
    requires Enabled(st, a)
  {
    match a
    case Request(source) => st.(pending := st.pending + {source}, wakeup := true)
    case SignalStop => st.(stop := true)
    case Timeout => LoopHead(st)
    case WakeUp => st.(phase := Sleeping)
    case SleepOver => NextSource(st.(wakeup := false, pending := {}), sorted(st.pending))
    case ProcessOver(_) => NextSource(st, st.phase.todo)
  }

  /** The source whose processing an action starts, if any. */
  function Started(st: State, a: Action, sorted: set<string> -> seq<string>): Option<string>
    requires Enabled(st, a)
  {
    var after := Step(st, a, sorted);
    if (a.SleepOver? || a.ProcessOver?) && after.phase.Processing? then Some(after.phase.current) else None
  }

  ghost predicate Lists(sorted: set<string> -> seq<string>) {
    forall s :: Elements(sorted(s)) == s && |sorted(s)| == |s|
  }

  predicate Runs(st: State, actions: seq<Action>, sorted: set<string> -> seq<string>)
    decreases actions
  {
    actions == [] ||
    (Enabled(st, actions[0]) && Runs(Step(st, actions[0], sorted), actions[1..], sorted))
  }

  function After(st: State, actions: seq<Action>, sorted: set<string> -> seq<string>): State
    requires Runs(st, actions, sorted)
    decreases actions
  {
    if actions == [] then st else After(Step(st, actions[0], sorted), actions[1..], sorted)
  }

  /** Every source whose processing starts along a run, in order. */
  function Starts(st: State, actions: seq<Action>, sorted: set<string> -> seq<string>): seq<string>
    requires Runs(st, actions, sorted)
    decreases actions
  {
    if actions == [] then []
    else
      var s := Started(st, actions[0], sorted);
      (if s.Some? then [s.value] else []) + Starts(Step(st, actions[0], sorted), actions[1..], sorted)
  }

  function Requests(actions: seq<Action>): seq<string> {
    if actions == [] then []
    else (if actions[0].Request? then [actions[0].source] else []) + Requests(actions[1..])
  }

  function DrainSteps(actions: seq<Action>): nat {
    if actions == [] then 0 else (if DrainStep(actions[0]) then 1 else 0) + DrainSteps(actions[1..])
  }

  // ---------------------------------------------------------------- the wake-up invariant

  /** Someone waits to be drained only while the event is set. */
  predicate WakeupSet(st: State) {
    st.pending != {} ==> st.wakeup
  }

  lemma {:induction false} WakeupAlwaysSet(st: State, actions: seq<Action>, sorted: set<string> -> seq<string>)
    requires WakeupSet(st) && Runs(st, actions, sorted)
    ensures WakeupSet(After(st, actions, sorted))
    decreases actions
  {
    if actions != [] {
      WakeupAlwaysSet(Step(st, actions[0], sorted), actions[1..], sorted);
    }
  }

  /** A drainer with nothing to do and no request coming in does nothing but wait. */
  lemma {:induction false} QuietDrainerWaits(st: State, actions: seq<Action>, sorted: set<string> -> seq<string>)
    requires st.pending == {} && !st.wakeup && (st.phase.Waiting? || st.phase.Stopped?)
    requires Runs(st, actions, sorted) && Requests(actions) == []
    ensures var after := After(st, actions, sorted);
            after.pending == {} && (after.phase.Waiting? || after.phase.Stopped?)
    ensures Starts(st, actions, sorted) == []
    decreases actions
  {
    if actions != [] {
      QuietDrainerWaits(Step(st, actions[0], sorted), actions[1..], sorted);
    }
  }

  // ---------------------------------------------------------------- nothing requested is lost

  function Todo(st: State): seq<string> {
    if st.phase.Processing? then st.phase.todo else []
  }

  /** A source still to be started. */
  predicate Owed(st: State, source: string) {
    source in st.pending || source in Todo(st)
  }

  lemma OwedStep(st: State, a: Action, source: string, sorted: set<string> -> seq<string>)
    requires Lists(sorted) && Enabled(st, a) && Owed(st, source)
    ensures var after := Step(st, a, sorted);
            after.stop || Started(st, a, sorted) == Some(source) || Owed(after, source)
  {
    if a.SleepOver? && source in st.pending {
      assert source in Elements(sorted(st.pending));
    }
  }

  /** Along every run a requested source has been started since, or is still owed, or the drainer was told to stop. */
  lemma {:induction false} NeverLost(st: State, actions: seq<Action>, source: string,
                                     sorted: set<string> -> seq<string>)
    requires Lists(sorted) && Runs(st, actions, sorted) && Owed(st, source)
    ensures var after := After(st, actions, sorted);
            after.stop || source in Starts(st, actions, sorted) || Owed(after, source)
    decreases actions
  {
    if actions != [] {
      var a, next := actions[0], Step(st, actions[0], sorted);
      OwedStep(st, a, source, sorted);
      if next.stop {
        StopStays(next, actions[1..], sorted);
      } else if Started(st, a, sorted) != Some(source) {
        NeverLost(next, actions[1..], source, sorted);
      }
    }
  }

  lemma {:induction false} StopStays(st: State, actions: seq<Action>, sorted: set<string> -> seq<string>)
    requires Runs(st, actions, sorted) && st.stop
    ensures After(st, actions, sorted).stop
    decreases actions
  {
    if actions != [] {
      StopStays(Step(st, actions[0], sorted), actions[1..], sorted);
    }
  }

  // ---------------------------------------------------------------- and it is started soon

  function IndexOf(s: seq<string>, x: string): nat
    requires x in s
  {
    if s[0] == x then 0 else 1 + IndexOf(s[1..], x)
  }

  lemma {:induction false} IndexBelow(s: seq<string>, x: string)
    requires x in s
    ensures IndexOf(s, x) < |s|
  {
    if s[0] != x {
      IndexBelow(s[1..], x);
    }
  }

  /** How many more drain steps an owed source can have to wait, when all sources are among `u` many. */
  function Rank(st: State, source: string, u: nat): nat
    requires Owed(st, source)
  {
    if source in Todo(st) then 1 + IndexOf(Todo(st), source)
    else match st.phase
      case Waiting => 2 + u
      case Sleeping => 1 + u
      case Processing(_, todo) => 3 + u + |todo|
      case Stopped => 0
  }

  /** All sources in play are among `all`, and the drainer has stopped only if told to. */
  predicate Within(st: State, all: set<string>) {
    st.pending <= all && (st.phase.Stopped? ==> st.stop)
  }

  lemma WithinStep(st: State, a: Action, all: set<string>, sorted: set<string> -> seq<string>)
    requires Enabled(st, a) && Within(st, all)
    requires a.Request? ==> a.source in all
    ensures Within(Step(st, a, sorted), all)
  {
  }

  lemma RankStep(st: State, a: Action, source: string, all: set<string>, sorted: set<string> -> seq<string>)
    requires Lists(sorted) && Enabled(st, a) && Owed(st, source) && Within(st, all)
    requires !Step(st, a, sorted).stop && Started(st, a, sorted) != Some(source)
    ensures Owed(Step(st, a, sorted), source)
    ensures Rank(Step(st, a, sorted), source, |all|) + (if DrainStep(a) then 1 else 0) <= Rank(st, source, |all|)
  {
    OwedStep(st, a, source, sorted);
    if a.SleepOver? {
      var snapshot := sorted(st.pending);
      assert Elements(snapshot) == st.pending;
      assert source in Elements(snapshot);
      SubsetSize(st.pending, all);
      IndexBelow(snapshot, source);
      assert source in snapshot[1..];
    }
  }

  /** While the drainer is not told to stop, an owed source is started within `Rank` drain steps, whatever is requested,
      however the polls time out and whether or not other sources fail. */
  lemma {:induction false} StartedSoon(st: State, actions: seq<Action>, source: string, all: set<string>,
                                       sorted: set<string> -> seq<string>)
    requires Lists(sorted) && Runs(st, actions, sorted) && Owed(st, source) && Within(st, all)
    requires forall s :: s in Requests(actions) ==> s in all
    requires !After(st, actions, sorted).stop
    requires DrainSteps(actions) >= Rank(st, source, |all|)
    ensures source in Starts(st, actions, sorted)
    decreases actions
  {
    if actions == [] {
      RankPositive(st, source, all);
    } else {
      var a, next := actions[0], Step(st, actions[0], sorted);
      if next.stop {
        StopStays(next, actions[1..], sorted);
      }
      assert forall s :: s in Requests(actions[1..]) ==> s in Requests(actions);
      if a.Request? {
        assert a.source in Requests(actions);
      }
      WithinStep(st, a, all, sorted);
      if Started(st, a, sorted) != Some(source) {
        RankStep(st, a, source, all, sorted);
        StartedSoon(next, actions[1..], source, all, sorted);
      }
    }
  }

  lemma RankPositive(st: State, source: string, all: set<string>)
    requires Owed(st, source) && Within(st, all) && !st.stop
    ensures Rank(st, source, |all|) > 0
  {
  }

  /** The event is what makes progress possible: an owed source always has a drain step enabled. */
  lemma DrainStepEnabled(st: State, source: string, all: set<string>)
    requires WakeupSet(st) && Owed(st, source) && Within(st, all) && !st.stop
    ensures exists a :: DrainStep(a) && Enabled(st, a)
  {
    if st.phase.Waiting? {
      assert Enabled(st, WakeUp);
    } else if st.phase.Sleeping? {
      assert Enabled(st, SleepOver);
    } else {
      assert Enabled(st, ProcessOver(true));
    }
  }

  /** No more sources wait behind the one in flight than there are. */
  predicate Bounded(st: State, all: set<string>) {
    Within(st, all) && |Todo(st)| <= |all|
  }

  lemma BoundedStep(st: State, a: Action, all: set<string>, sorted: set<string> -> seq<string>)
    requires Lists(sorted) && Enabled(st, a) && Bounded(st, all)
    requires a.Request? ==> a.source in all
    ensures Bounded(Step(st, a, sorted), all)
  {
    WithinStep(st, a, all, sorted);
    SnapshotSize(st, all, sorted);
    hide Within, Lists;
  }

  lemma SnapshotSize(st: State, all: set<string>, sorted: set<string> -> seq<string>)
    requires Lists(sorted) && Within(st, all)
    ensures |sorted(st.pending)| <= |all|
  {
    SubsetSize(st.pending, all);
    assert Elements(sorted(st.pending)) == st.pending;
  }

  lemma {:induction false} BoundedAlong(st: State, actions: seq<Action>, all: set<string>,
                                        sorted: set<string> -> seq<string>)
    requires Lists(sorted) && Runs(st, actions, sorted) && Bounded(st, all)
    requires forall s :: s in Requests(actions) ==> s in all
    ensures Bounded(After(st, actions, sorted), all)
    decreases actions
  {
    if actions != [] {
      assert forall s :: s in Requests(actions[1..]) ==> s in Requests(actions);
      if actions[0].Request? {
        assert actions[0].source in Requests(actions);
      }
      BoundedStep(st, actions[0], all, sorted);
      BoundedAlong(Step(st, actions[0], sorted), actions[1..], all, sorted);
    }
  }

  lemma RankBound(st: State, source: string, all: set<string>)
    requires Bounded(st, all) && Owed(st, source)
    ensures Rank(st, source, |all|) <= 2 * |all| + 3
  {
    if source in Todo(st) {
      IndexBelow(Todo(st), source);
    }
  }

  /** From the program's start on: a request made at any moment is answered by a start of its source within twice as
      many drain steps as there are sources and three more, unless shutdown is signalled. */
  lemma RequestIsServed(before: seq<Action>, source: string, later: seq<Action>, all: set<string>,
                        sorted: set<string> -> seq<string>)
    requires Lists(sorted) && Runs(INITIAL, before, sorted)
    requires var st := Step(After(INITIAL, before, sorted), Request(source), sorted);
             Runs(st, later, sorted) && !After(st, later, sorted).stop
    requires source in all && forall s :: s in Requests(before) || s in Requests(later) ==> s in all
    requires DrainSteps(later) >= 2 * |all| + 3
    ensures source in Starts(Step(After(INITIAL, before, sorted), Request(source), sorted), later, sorted)
  {
    BoundedAlong(INITIAL, before, all, sorted);
    var asked := After(INITIAL, before, sorted);
    var st := Step(asked, Request(source), sorted);
    BoundedStep(asked, Request(source), all, sorted);
    RankBound(st, source, all);
    StartedSoon(st, later, source, all, sorted);
  }

  /** And while it is owed, there is a drain step to take. */
  lemma RequestIsNotStuck(actions: seq<Action>, source: string, all: set<string>, sorted: set<string> -> seq<string>)
    requires Lists(sorted) && Runs(INITIAL, actions, sorted) && forall s :: s in Requests(actions) ==> s in all
    requires var st := After(INITIAL, actions, sorted); Owed(st, source) && !st.stop
    ensures exists a :: DrainStep(a) && Enabled(After(INITIAL, actions, sorted), a)
  {
    WakeupAlwaysSet(INITIAL, actions, sorted);
    BoundedAlong(INITIAL, actions, all, sorted);
    DrainStepEnabled(After(INITIAL, actions, sorted), source, all);
  }

  // ---------------------------------------------------------------- shutdown

  /** Anything the drainer does itself. */
  predicate Move(a: Action) {
    a.Timeout? || a.WakeUp? || a.SleepOver? || a.ProcessOver?
  }

  function Moves(actions: seq<Action>): nat {
    if actions == [] then 0 else (if Move(actions[0]) then 1 else 0) + Moves(actions[1..])
  }

  /** Once shutdown is signalled the drainer makes at most two more moves, one if it is not waiting, starts no source,
      and has a move to make until it has stopped. */
  lemma {:induction false} StopsSoon(st: State, actions: seq<Action>, sorted: set<string> -> seq<string>)
    requires Runs(st, actions, sorted) && st.stop
    ensures Moves(actions) <= if st.phase == Waiting then 2 else if st.phase == Stopped then 0 else 1
    ensures Starts(st, actions, sorted) == []
    ensures After(st, actions, sorted).phase == Stopped || exists a :: Move(a) && Enabled(After(st, actions, sorted), a)
    decreases actions
  {
    if actions == [] {
      if st.phase.Waiting? {
        assert Enabled(st, Timeout);
      } else if st.phase.Sleeping? {
        assert Enabled(st, SleepOver);
      } else if st.phase.Processing? {
        assert Enabled(st, ProcessOver(true));
      }
    } else {
      StopsSoon(Step(st, actions[0], sorted), actions[1..], sorted);
    }
  }

  // ---------------------------------------------------------------- coalescing

  function Count(s: seq<string>, x: string): nat {
    if s == [] then 0 else (if s[0] == x then 1 else 0) + Count(s[1..], x)
  }

  lemma {:induction false} CountConcat(a: seq<string>, b: seq<string>, x: string)
    ensures Count(a + b, x) == Count(a, x) + Count(b, x)
  {
    if a == [] {
      assert a + b == b;
    } else {
      CountConcat(a[1..], b, x);
      assert (a + b)[1..] == a[1..] + b;
    }
  }

  /** What is still owed to a source, counted: once if pending, and as often as the snapshot has it. */
  function Outstanding(st: State, source: string): nat {
    (if source in st.pending then 1 else 0) + Count(Todo(st), source)
  }

  lemma {:induction false} CountDistinct(s: seq<string>, x: string)
    requires |Elements(s)| == |s|
    ensures Count(s, x) == if x in s then 1 else 0
  {
    if s != [] {
      ElementsOfConcat([s[0]], s[1..]);
      assert s == [s[0]] + s[1..];
      ElementsAtMost(s[1..]);
      assert Elements([s[0]]) == {s[0]};
      assert s[0] !in Elements(s[1..]);
      CountDistinct(s[1..], x);
    }
  }

  lemma OutstandingStep(st: State, a: Action, source: string, sorted: set<string> -> seq<string>)
    requires Lists(sorted) && Enabled(st, a)
    ensures Outstanding(Step(st, a, sorted), source) + (if Started(st, a, sorted) == Some(source) then 1 else 0)
         <= Outstanding(st, source) + (if a == Request(source) then 1 else 0)
  {
    if a.SleepOver? {
      var snapshot := sorted(st.pending);
      CountDistinct(snapshot, source);
      assert source in snapshot <==> source in Elements(snapshot);
    }
  }

  /** Processing never starts more often than it was requested: repeated requests coalesce. */
  lemma {:induction false} StartsNeverOutnumberRequests(st: State, actions: seq<Action>, source: string,
                                                         sorted: set<string> -> seq<string>)
    requires Lists(sorted) && Runs(st, actions, sorted)
    ensures Count(Starts(st, actions, sorted), source) + Outstanding(After(st, actions, sorted), source)
         <= Outstanding(st, source) + Count(Requests(actions), source)
    decreases actions
  {
    if actions != [] {
      var a, next := actions[0], Step(st, actions[0], sorted);
      OutstandingStep(st, a, source, sorted);
      StartsNeverOutnumberRequests(next, actions[1..], source, sorted);
      var s := Started(st, a, sorted);
      CountConcat(if s.Some? then [s.value] else [], Starts(next, actions[1..], sorted), source);
      CountConcat(if a.Request? then [a.source] else [], Requests(actions[1..]), source);
    }
  }
}
