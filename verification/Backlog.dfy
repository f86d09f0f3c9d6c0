/** The backlog driver: how many ingest cycles it plans, when it stops, and when the backlog is empty then. */
module Backlog {
  import opened Prelude
  import opened MalTables
  import DubRuns
  import MalIngest

  const MAX_CYCLES := 500

  /** What happens around one ingest cycle: ids that become or stop being pending up to the moment the batch
      is listed, ids whose lookup fails, and ids that become pending after the listing. */
  datatype Cycle = Cycle(arrived: set<int>, departed: set<int>, failed: set<int>, late: set<int>)

  ghost function Listed(p: set<int>, c: Cycle): set<int> {
    p - c.departed + c.arrived
  }

  ghost function Batch(p: set<int>, c: Cycle, b: nat): set<int> {
    Elements(Smallest(Listed(p, c), b))
  }

  /** The pending ids after one cycle. */
  ghost function Step(p: set<int>, c: Cycle, b: nat): set<int> {
    Listed(p, c) - (Batch(p, c, b) - c.failed) + c.late
  }

  lemma BatchSize(p: set<int>, c: Cycle, b: nat)
    ensures Batch(p, c, b) <= Listed(p, c)
    ensures |Batch(p, c, b)| == if |Listed(p, c)| < b then |Listed(p, c)| else b
    ensures |Listed(p, c)| <= b ==> Batch(p, c, b) == Listed(p, c)
  {
    SmallestElements(Listed(p, c), b);
  }

  // ---------------------------------------------------------------- plan and driver

  /** How many batches of `b` it takes to cover `n`. */
  function Batches(n: nat, b: nat): nat
    requires b > 0
  {
    if n == 0 then 0 else if n <= b then 1 else 1 + Batches(n - b, b)
  }

  lemma {:induction false} BatchesCover(n: nat, b: nat)
    requires b > 0
    ensures n <= Batches(n, b) * b
    ensures n > 0 ==> Batches(n, b) > 0 && (Batches(n, b) - 1) * b < n
  {
    if n > b {
      var q := Batches(n - b, b);
      BatchesCover(n - b, b);
      assert Batches(n, b) == 1 + q;
      assert (1 + q) * b == b + q * b;
      assert q * b == (q - 1) * b + b;
    }
  }

  /** Cycles planned for an import of everything: the rounded-up quotient and two more, at most 500. */
  function Plan(pending: nat, b: nat): nat
    requires b > 0
  {
    if pending == 0 then 0
    else
      var cycles := (pending + b - 1) / b + 2;
      if cycles > MAX_CYCLES then MAX_CYCLES else cycles
  }

  /** The plan has a cycle for every batch and two spare ones, as far as 500 go. */
  lemma PlanIs(pending: nat, b: nat)
    requires b > 0
    ensures pending == 0 ==> Plan(pending, b) == 0
    ensures pending > 0 ==>
              Plan(pending, b) == if Batches(pending, b) + 2 > 500 then 500 else Batches(pending, b) + 2
  {
    if pending > 0 {
      var q := Batches(pending, b);
      BatchesCover(pending, b);
      assert q * b == (q - 1) * b + b;
      QuotientIs(pending + b - 1, q, b);
    }
  }

  datatype Outcome = Outcome(pending: set<int>, cycles: nat)

  /** Run cycles `idx`, `idx+1`, ... until `max`, an empty backlog, or a cycle that looked nothing up. */
  ghost function Drive(p: set<int>, idx: nat, max: nat, env: nat -> Cycle, b: nat): (o: Outcome)
    requires idx <= max
    ensures idx <= o.cycles <= max
    decreases max - idx
  {
    if idx == max || p == {} then Outcome(p, idx)
    else if Batch(p, env(idx), b) == {} then Outcome(Step(p, env(idx), b), idx + 1)
    else Drive(Step(p, env(idx), b), idx + 1, max, env, b)
  }

  /** The driver loop. */
  method RunBacklogCycles(pendingBefore: set<int>, max: nat, env: nat -> Cycle, b: nat)
    returns (pendingAfter: set<int>, apiCalls: seq<nat>)
    ensures Outcome(pendingAfter, |apiCalls|) == Drive(pendingBefore, 0, max, env, b)
    ensures forall i :: 0 <= i < |apiCalls| ==> apiCalls[i] <= b
  {
    pendingAfter, apiCalls := pendingBefore, [];
    for idx := 0 to max
      invariant |apiCalls| == idx
      invariant forall i :: 0 <= i < idx ==> apiCalls[i] <= b
      invariant Drive(pendingBefore, 0, max, env, b) == Drive(pendingAfter, idx, max, env, b)
    {
      if pendingAfter == {} {
        break;
      }
      var calls;
      BatchSize(pendingAfter, env(idx), b);
      pendingAfter, calls := RunIngest(pendingAfter, env(idx), b);
      apiCalls := apiCalls + [calls];
      if calls == 0 {
        break;
      }
    }
  }

  /** Moving the least id over to what is already taken. */
  lemma LeastFirst(left: set<int>, id: int, n: nat, taken: seq<int>)
    requires n > 0 && id in left && forall x :: x in left ==> id <= x
    ensures taken + Smallest(left, n) == (taken + [id]) + Smallest(left - {id}, n - 1)
    ensures Elements(taken + [id]) == Elements(taken) + {id}
  {
    assert id == Least(left);
    assert taken + ([id] + Smallest(left - {id}, n - 1)) == (taken + [id]) + Smallest(left - {id}, n - 1);
  }

  lemma NoneLeft(left: set<int>, n: nat, taken: seq<int>)
    requires n == 0 || left == {}
    ensures taken + Smallest(left, n) == taken
  {
  }

  /** One ingest run as the driver sees it: list the least ids, look each up, keep those that failed. */
  method RunIngest(p: set<int>, c: Cycle, b: nat) returns (after: set<int>, calls: nat)
    ensures after == Step(p, c, b)
    ensures calls == |Batch(p, c, b)|
  {
    var left := p - c.departed + c.arrived;
    ghost var listed := left;
    var resolved: set<int> := {};
    calls := 0;
    ghost var batch: seq<int> := [];
    assert Elements(batch) == {};
    hide Smallest, Elements;
    while calls < b && left != {}
      invariant calls == |batch| <= b
      invariant batch + Smallest(left, b - calls) == Smallest(listed, b)
      invariant resolved == Elements(batch) - c.failed
    {
      LeastExists(left);
      var id :| id in left && forall x :: x in left ==> id <= x;
      LeastFirst(left, id, b - calls, batch);
      left := left - {id};
      if id !in c.failed {
        resolved := resolved + {id};
      }
      batch := batch + [id];
      calls := calls + 1;
    }
    assert batch == Smallest(listed, b) by { NoneLeft(left, b - calls, batch); }
    SmallestAre(listed, b);
    AscendingElements(batch);
    after := p - c.departed + c.arrived - resolved + c.late;
  }

  // ---------------------------------------------------------------- cycles are ingest runs

  /** An anime row after its lookup. */
  function Answered(a: Anime, outcome: Lookup, doneAt: int): Anime {
    a.(lookup := StatusAfter(outcome), lookedUpAt := Some(doneAt))
  }

  ghost predicate AnsweredRows(before: map<int, Anime>, after: map<int, Anime>, ids: set<int>,
                               lookup: int -> Lookup, doneAt: int -> int)
  {
    after == map id | id in before :: if id in ids then Answered(before[id], lookup(id), doneAt(id)) else before[id]
  }

  lemma {:induction false} RowsAfterLookups(db: Db, ids: seq<int>, lookup: int -> Lookup, doneAt: int -> int,
                                            wire: Wire)
    requires Elements(ids) <= db.anime.Keys
    ensures AnsweredRows(db.anime, DubRuns.ApplyAll(db, MalIngest.LookupEvents(ids, lookup, doneAt), wire).anime,
                         Elements(ids), lookup, doneAt)
  {
    var events := MalIngest.LookupEvents(ids, lookup, doneAt);
    if ids != [] {
      var n := |ids| - 1;
      assert Elements(ids) == Elements(ids[..n]) + {ids[n]};
      RowsAfterLookups(db, ids[..n], lookup, doneAt, wire);
      assert events[..n] == MalIngest.LookupEvents(ids[..n], lookup, doneAt);
    }
  }

  function FailedAmong(ids: set<int>, lookup: int -> Lookup): set<int> {
    set id | id in ids && lookup(id).Failed?
  }

  lemma RecountAfterLookups(before: map<int, Anime>, after: map<int, Anime>, ids: set<int>,
                            lookup: int -> Lookup, doneAt: int -> int, now: int, recounted: int)
    requires AnsweredRows(before, after, ids, lookup, doneAt)
    requires now <= recounted
    requires forall id :: recounted - FOURTEEN_DAYS <= doneAt(id)
    requires ids <= NeedingLookup(before, now)
    ensures var listed := NeedingLookup(before, now);
            NeedingLookup(after, recounted)
            == listed - (ids - FailedAmong(listed, lookup)) + (NeedingLookup(before, recounted) - listed)
  {
    var listed := NeedingLookup(before, now);
    forall id | id in before
      ensures NeedsLookup(after[id], recounted) <==>
              if id in ids then lookup(id).Failed? else NeedsLookup(before[id], recounted)
    {
      if id in ids {
        assert after[id] == Answered(before[id], lookup(id), doneAt(id));
        assert recounted - FOURTEEN_DAYS <= doneAt(id);
      }
    }
    var stale := NeedingLookup(before, recounted);
    forall id
      ensures id in NeedingLookup(after, recounted) <==>
              id in listed - (ids - FailedAmong(listed, lookup)) + (stale - listed)
    {
      assert id in after <==> id in before;
      assert id in FailedAmong(listed, lookup) <==> id in listed && lookup(id).Failed?;
      assert id in ids ==> id in listed;
      assert id in listed ==> id in stale;
    }
  }

  /** The disturbance that one ingest run on the tables amounts to. */
  ghost function CycleOf(before: set<int>, listed: set<int>, stale: set<int>, lookup: int -> Lookup): Cycle {
    Cycle(listed - before, before - listed, FailedAmong(listed, lookup), stale - listed)
  }

  /** What the driver counts after an ingest run on the tables is one `Step` from what it counted before, whatever that
      was, when the recount comes within fourteen days of each lookup. */
  lemma IngestRunIsACycle(before: set<int>, db: Db, specs: seq<Source>, fetch: Source -> MalIngest.Response, wire: Wire,
                          b: nat, lookup: int -> Lookup, now: int, doneAt: int -> int, recounted: int)
    requires now <= recounted
    requires forall id :: recounted - FOURTEEN_DAYS <= doneAt(id)
    ensures var unioned := MalIngest.AfterUnion(db, specs, fetch, wire);
            var listed := NeedingLookup(unioned.anime, now);
            var after := DubRuns.ApplyAll(unioned, MalIngest.LookupEvents(Smallest(listed, b), lookup, doneAt), wire);
            var c := CycleOf(before, listed, NeedingLookup(unioned.anime, recounted), lookup);
            Listed(before, c) == listed && NeedingLookup(after.anime, recounted) == Step(before, c, b)
  {
    hide MalIngest.AfterUnion, NeedingLookup, FailedAmong;
    var unioned := MalIngest.AfterUnion(db, specs, fetch, wire);
    var listed := NeedingLookup(unioned.anime, now);
    var batch := Smallest(listed, b);
    var after := DubRuns.ApplyAll(unioned, MalIngest.LookupEvents(batch, lookup, doneAt), wire);
    var c := CycleOf(before, listed, NeedingLookup(unioned.anime, recounted), lookup);
    SmallestElements(listed, b);
    NeedingAreRows(unioned.anime, now);
    RowsAfterLookups(unioned, batch, lookup, doneAt, wire);
    RecountAfterLookups(unioned.anime, after.anime, Elements(batch), lookup, doneAt, now, recounted);
    assert Listed(before, c) == listed;
  }

  lemma NeedingAreRows(anime: map<int, Anime>, now: int)
    ensures NeedingLookup(anime, now) <= anime.Keys
  {
  }

  // ---------------------------------------------------------------- conservation

  /** Pending ids before cycle `k`, whatever stopped the driver. */
  ghost function PendingAt(p: set<int>, k: nat, env: nat -> Cycle, b: nat): set<int> {
    if k == 0 then p else Step(PendingAt(p, k - 1, env, b), env(k - 1), b)
  }

  /** Ids that newly become pending in one cycle. */
  ghost function ArrivedBy(p: set<int>, c: Cycle, b: nat): nat {
    |c.arrived - (p - c.departed)| + |c.late - (Listed(p, c) - (Batch(p, c, b) - c.failed))|
  }

  ghost function DepartedBy(p: set<int>, c: Cycle): nat {
    |c.departed * p|
  }

  ghost function ResolvedBy(p: set<int>, c: Cycle, b: nat): nat {
    |Batch(p, c, b) - c.failed|
  }

  /** The same over the first `k` cycles. */
  ghost function ArrivedIn(p: set<int>, k: nat, env: nat -> Cycle, b: nat): nat {
    if k == 0 then 0 else ArrivedIn(p, k - 1, env, b) + ArrivedBy(PendingAt(p, k - 1, env, b), env(k - 1), b)
  }

  ghost function DepartedIn(p: set<int>, k: nat, env: nat -> Cycle, b: nat): nat {
    if k == 0 then 0 else DepartedIn(p, k - 1, env, b) + DepartedBy(PendingAt(p, k - 1, env, b), env(k - 1))
  }

  ghost function ResolvedIn(p: set<int>, k: nat, env: nat -> Cycle, b: nat): nat {
    if k == 0 then 0 else ResolvedIn(p, k - 1, env, b) + ResolvedBy(PendingAt(p, k - 1, env, b), env(k - 1), b)
  }

  lemma BalanceOf(p: set<int>, gone: set<int>, came: set<int>, resolved: set<int>, late: set<int>)
    requires resolved <= p - gone + came
    ensures |p - gone| == |p| - |gone * p|
    ensures |p - gone + came| == |p - gone| + |came - (p - gone)|
    ensures |p - gone + came - resolved| == |p - gone + came| - |resolved|
    ensures |p - gone + came - resolved + late|
         == |p - gone + came - resolved| + |late - (p - gone + came - resolved)|
  {
    var stay := p - gone;
    assert p == stay + (gone * p);
    var listed := stay + came;
    assert listed == stay + (came - stay);
    SubsetSize(resolved, listed);
    var kept := listed - resolved;
    assert kept + late == kept + (late - kept);
  }

  lemma StepBalance(p: set<int>, c: Cycle, b: nat)
    ensures |p| + ArrivedBy(p, c, b) == |Step(p, c, b)| + DepartedBy(p, c) + ResolvedBy(p, c, b)
  {
    hide Batch;
    BatchSize(p, c, b);
    BalanceOf(p, c.departed, c.arrived, Batch(p, c, b) - c.failed, c.late);
  }

  /** Nothing is lost or counted twice: resolved, departed and still pending ids add up to those there
      at first and those that arrived, after every number of cycles. */
  lemma {:induction false} Conservation(p: set<int>, k: nat, env: nat -> Cycle, b: nat)
    ensures |p| + ArrivedIn(p, k, env, b)
         == |PendingAt(p, k, env, b)| + DepartedIn(p, k, env, b) + ResolvedIn(p, k, env, b)
  {
    hide Step, ArrivedBy, DepartedBy, ResolvedBy;
    if k > 0 {
      Conservation(p, k - 1, env, b);
      StepBalance(PendingAt(p, k - 1, env, b), env(k - 1), b);
    }
  }

  /** The driver ends in the state its cycles lead to. */
  lemma {:induction false} DriveFollows(p: set<int>, idx: nat, max: nat, env: nat -> Cycle, b: nat)
    requires idx <= max
    ensures var o := Drive(PendingAt(p, idx, env, b), idx, max, env, b);
            o.pending == PendingAt(p, o.cycles, env, b)
    decreases max - idx
  {
    var q := PendingAt(p, idx, env, b);
    if idx < max && q != {} {
      assert Step(q, env(idx), b) == PendingAt(p, idx + 1, env, b);
      if Batch(q, env(idx), b) != {} {
        DriveFollows(p, idx + 1, max, env, b);
      }
    }
  }

  // ---------------------------------------------------------------- draining

  /** How many ids are there when cycle `k` lists its batch. */
  ghost function Load(p: set<int>, k: nat, env: nat -> Cycle, b: nat): nat {
    |Listed(PendingAt(p, k, env, b), env(k))|
  }

  /** How many ids come to stand behind the batch of one cycle: failed lookups of it and new late arrivals. */
  ghost function BehindBy(p: set<int>, c: Cycle, b: nat): nat {
    |(Batch(p, c, b) * c.failed) + (c.late - (Listed(p, c) - Batch(p, c, b)))|
  }

  ghost function Behind(p: set<int>, k: nat, env: nat -> Cycle, b: nat): nat {
    BehindBy(PendingAt(p, k, env, b), env(k), b)
  }

  /** What the time up to the listing of cycle `k` adds: arrivals less departures. */
  ghost function Net(p: set<int>, k: nat, env: nat -> Cycle, b: nat): int {
    var q := PendingAt(p, k, env, b);
    |env(k).arrived - (q - env(k).departed)| - DepartedBy(q, env(k))
  }

  /** The ids that stood behind batch `j - 1` (for the first cycle: all that were pending) and all that joined them up
      to the listing of cycle `k`. */
  ghost function Inflow(p: set<int>, j: nat, k: nat, env: nat -> Cycle, b: nat): int
    requires j <= k
    decreases k
  {
    if j == k then (if j == 0 then |p| else Behind(p, j - 1, env, b)) + Net(p, k, env, b)
    else Inflow(p, j, k - 1, env, b) + Behind(p, k - 1, env, b) + Net(p, k, env, b)
  }

  /** The rest of a listing behind its batch, with the failed lookups and the late arrivals. */
  lemma RestAndBehind(listed: set<int>, batch: set<int>, failed: set<int>, late: set<int>)
    requires batch <= listed
    ensures |listed - (batch - failed) + late| == |listed| - |batch| + |(batch * failed) + (late - (listed - batch))|
  {
    SubsetSize(batch, listed);
    var rest := listed - batch;
    var behind := (batch * failed) + (late - rest);
    assert listed - (batch - failed) + late == rest + behind;
    assert rest !! behind;
  }

  lemma StepSplits(p: set<int>, c: Cycle, b: nat)
    ensures |Listed(p, c)| == |p| + |c.arrived - (p - c.departed)| - DepartedBy(p, c)
    ensures |Step(p, c, b)| == (if |Listed(p, c)| > b then |Listed(p, c)| - b else 0) + BehindBy(p, c, b)
  {
    hide Batch;
    BatchSize(p, c, b);
    BalanceOf(p, c.departed, c.arrived, {}, {});
    RestAndBehind(Listed(p, c), Batch(p, c, b), c.failed, c.late);
  }

  lemma LoadNext(p: set<int>, k: nat, env: nat -> Cycle, b: nat)
    ensures Load(p, k, env, b) == |PendingAt(p, k, env, b)| + Net(p, k, env, b)
    ensures var load := Load(p, k, env, b);
            |PendingAt(p, k + 1, env, b)| == (if load > b then load - b else 0) + Behind(p, k, env, b)
  {
    hide Step, BehindBy, Listed, DepartedBy;
    StepSplits(PendingAt(p, k, env, b), env(k), b);
    NextPending(p, k, env, b);
  }

  lemma NextPending(p: set<int>, k: nat, env: nat -> Cycle, b: nat)
    ensures Step(PendingAt(p, k, env, b), env(k), b) == PendingAt(p, k + 1, env, b)
  {
  }

  /** How many ids the batches from cycle `j` to cycle `k` take. */
  function Served(j: nat, k: nat, b: nat): nat
    requires j <= k
  {
    (k - j + 1) * b
  }

  lemma ServedMore(j: nat, k: nat, b: nat)
    requires j <= k
    ensures Served(k, k, b) == b
    ensures Served(j, k + 1, b) == Served(j, k, b) + b
  {
  }

  /** The load is the largest of the inflows, each less the batches that have served it before. */
  lemma {:induction false} LoadIsLargest(p: set<int>, k: nat, env: nat -> Cycle, b: nat)
    ensures forall j :: 0 <= j <= k ==> Inflow(p, j, k, env, b) - Served(j, k, b) + b <= Load(p, k, env, b)
    ensures exists j :: 0 <= j <= k && Inflow(p, j, k, env, b) - Served(j, k, b) + b == Load(p, k, env, b)
  {
    hide Load, Behind, Net, PendingAt, Served;
    LoadNext(p, k, env, b);
    ServedMore(k, k, b);
    if k == 0 {
      NoCycles(p, env, b);
      assert Inflow(p, 0, 0, env, b) - Served(0, 0, b) + b == Load(p, 0, env, b);
    } else {
      LoadIsLargest(p, k - 1, env, b);
      LoadNext(p, k - 1, env, b);
      var before, load := Load(p, k - 1, env, b), Load(p, k, env, b);
      var joined := Behind(p, k - 1, env, b) + Net(p, k, env, b);
      assert Inflow(p, k, k, env, b) - Served(k, k, b) + b == joined;
      forall j | 0 <= j < k
        ensures Inflow(p, j, k, env, b) - Served(j, k, b)
                  == Inflow(p, j, k - 1, env, b) - Served(j, k - 1, b) - b + joined
      {
        ServedMore(j, k - 1, b);
      }
      if before >= b {
        var j :| 0 <= j <= k - 1 && Inflow(p, j, k - 1, env, b) - Served(j, k - 1, b) + b == before;
        assert Inflow(p, j, k, env, b) - Served(j, k, b) + b == load;
      } else {
        assert Inflow(p, k, k, env, b) - Served(k, k, b) + b == load;
      }
    }
  }

  lemma NoCycles(p: set<int>, env: nat -> Cycle, b: nat)
    ensures PendingAt(p, 0, env, b) == p
  {
  }

  lemma OneMoreBatch(n: nat, b: nat)
    ensures (n + 1) * b == n * b + b
  {
  }

  /** Cycle `k` clears the backlog: nothing comes to stand behind its batch, and for every earlier cycle `j` what stood
      behind batch `j - 1` and joined since fits the batches from `j` to `k`. */
  ghost predicate Clears(p: set<int>, k: nat, env: nat -> Cycle, b: nat) {
    Behind(p, k, env, b) == 0 && forall j :: 0 <= j <= k ==> Inflow(p, j, k, env, b) <= Served(j, k, b)
  }

  ghost predicate EmptyAfter(p: set<int>, k: nat, env: nat -> Cycle, b: nat) {
    PendingAt(p, k + 1, env, b) == {}
  }

  lemma ClearsIff(p: set<int>, k: nat, env: nat -> Cycle, b: nat)
    ensures Clears(p, k, env, b) <==> EmptyAfter(p, k, env, b)
  {
    hide Load, Behind, Inflow, PendingAt, Served;
    LoadNext(p, k, env, b);
    LoadIsLargest(p, k, env, b);
    var after := PendingAt(p, k + 1, env, b);
    assert after == {} <==> |after| == 0;
    if Load(p, k, env, b) > b {
      var j :| 0 <= j <= k && Inflow(p, j, k, env, b) - Served(j, k, b) + b == Load(p, k, env, b);
      assert Inflow(p, j, k, env, b) > Served(j, k, b);
    }
  }

  /** No cycle before `k` finds nothing to list. */
  ghost predicate KeepsListing(p: set<int>, k: nat, env: nat -> Cycle, b: nat) {
    forall j :: 0 <= j < k ==> Load(p, j, env, b) > 0
  }

  lemma {:induction false} DriveEmptyIff(p: set<int>, idx: nat, max: nat, env: nat -> Cycle, b: nat)
    requires b > 0 && idx <= max
    ensures Drive(PendingAt(p, idx, env, b), idx, max, env, b).pending == {} <==>
              PendingAt(p, idx, env, b) == {} ||
              exists k :: idx <= k < max && EmptyAfter(p, k, env, b) &&
                          forall j :: idx <= j < k ==> Load(p, j, env, b) > 0
    decreases max - idx
  {
    hide Step, Batch, PendingAt;
    var q := PendingAt(p, idx, env, b);
    if idx < max && q != {} {
      NextPending(p, idx, env, b);
      BatchSize(q, env(idx), b);
      DriveEmptyIff(p, idx + 1, max, env, b);
      assert Batch(q, env(idx), b) == {} <==> Load(p, idx, env, b) == 0;
      if Batch(q, env(idx), b) != {} {
        if PendingAt(p, idx + 1, env, b) == {} {
          assert idx <= idx < max && EmptyAfter(p, idx, env, b);
        }
      } else if PendingAt(p, idx + 1, env, b) == {} {
        assert idx <= idx < max && EmptyAfter(p, idx, env, b);
      }
    }
  }

  /** Whatever arrives, departs, fails or comes late, the driver drains if and only if nothing was pending or some
      planned cycle clears the backlog and no cycle before it finds nothing to list. */
  lemma DrainsIff(p: set<int>, max: nat, env: nat -> Cycle, b: nat)
    requires b > 0
    ensures Drive(p, 0, max, env, b).pending == {} <==>
              p == {} || exists k :: 0 <= k < max && Clears(p, k, env, b) && KeepsListing(p, k, env, b)
  {
    hide Drive, Clears, Load, PendingAt;
    NoCycles(p, env, b);
    DriveEmptyIff(p, 0, max, env, b);
    forall k: nat ensures Clears(p, k, env, b) <==> EmptyAfter(p, k, env, b) {
      ClearsIff(p, k, env, b);
    }
    if k :| 0 <= k < max && EmptyAfter(p, k, env, b) && forall j :: 0 <= j < k ==> Load(p, j, env, b) > 0 {
      assert Clears(p, k, env, b) && KeepsListing(p, k, env, b);
    }
    if k :| 0 <= k < max && Clears(p, k, env, b) && KeepsListing(p, k, env, b) {
      assert EmptyAfter(p, k, env, b);
    }
  }

  /** Without departures before the first clearing cycle every cycle finds something to list. */
  lemma {:induction false} FirstClearing(p: set<int>, k: nat, env: nat -> Cycle, b: nat) returns (first: nat)
    requires p != {} && Clears(p, k, env, b)
    requires forall i :: 0 <= i <= k ==> env(i).departed == {}
    ensures first <= k && Clears(p, first, env, b) && KeepsListing(p, first, env, b)
  {
    hide Clears, Load;
    if j :| 0 <= j < k && Clears(p, j, env, b) {
      first := FirstClearing(p, j, env, b);
    } else {
      first := k;
      forall j | 0 <= j < k ensures Load(p, j, env, b) > 0 {
        if j == 0 {
          NoCycles(p, env, b);
        } else {
          ClearsIff(p, j - 1, env, b);
        }
        PendingIsListed(p, j, env, b);
      }
    }
  }

  lemma PendingIsListed(p: set<int>, j: nat, env: nat -> Cycle, b: nat)
    requires env(j).departed == {} && PendingAt(p, j, env, b) != {}
    ensures Load(p, j, env, b) > 0
  {
    hide PendingAt;
    var q := PendingAt(p, j, env, b);
    assert q <= Listed(q, env(j));
    SubsetSize(q, Listed(q, env(j)));
    assert |q| > 0;
  }

  /** While nothing departs, the driver drains if and only if nothing was pending or some planned cycle clears the
      backlog. */
  lemma DrainsIffNoneDepart(p: set<int>, max: nat, env: nat -> Cycle, b: nat)
    requires b > 0 && forall i :: 0 <= i < max ==> env(i).departed == {}
    ensures Drive(p, 0, max, env, b).pending == {} <==> p == {} || exists k :: 0 <= k < max && Clears(p, k, env, b)
  {
    hide Drive, Clears, KeepsListing;
    DrainsIff(p, max, env, b);
    if p != {} {
      if k :| 0 <= k < max && Clears(p, k, env, b) {
        var first := FirstClearing(p, k, env, b);
      }
    }
  }

  /** No lookup fails, and nothing becomes pending behind a batch that was not full. */
  ghost predicate Smooth(p: set<int>, max: nat, env: nat -> Cycle, b: nat) {
    forall k :: 0 <= k < max ==>
      && env(k).failed == {}
      && (|Listed(PendingAt(p, k, env, b), env(k))| < b ==> env(k).late == {})
  }

  lemma SmoothBehind(p: set<int>, k: nat, max: nat, env: nat -> Cycle, b: nat)
    requires Smooth(p, max, env, b) && k < max
    ensures Load(p, k, env, b) < b ==> Behind(p, k, env, b) == 0
    ensures Load(p, k, env, b) >= b ==> ResolvedBy(PendingAt(p, k, env, b), env(k), b) == b
  {
    hide Batch, PendingAt;
    var q, c := PendingAt(p, k, env, b), env(k);
    BatchSize(q, c, b);
    assert Batch(q, c, b) - c.failed == Batch(q, c, b);
    assert Batch(q, c, b) * c.failed == {};
    if Load(p, k, env, b) < b {
      assert (Batch(q, c, b) * c.failed) + (c.late - (Listed(q, c) - Batch(q, c, b))) == {};
    }
  }

  lemma SmoothStep(p: set<int>, c: Cycle, b: nat)
    requires b > 0 && c.failed == {}
    requires |Listed(p, c)| < b ==> c.late == {}
    ensures |Listed(p, c)| < b ==> Step(p, c, b) == {}
    ensures |Listed(p, c)| >= b ==> ResolvedBy(p, c, b) == b && Batch(p, c, b) != {}
  {
    BatchSize(p, c, b);
    assert Batch(p, c, b) - c.failed == Batch(p, c, b);
  }

  /** A smooth run ends empty or has resolved a full batch in every cycle. */
  lemma {:induction false} EmptyOrFull(p: set<int>, idx: nat, max: nat, env: nat -> Cycle, b: nat)
    requires b > 0 && idx <= max && Smooth(p, max, env, b)
    requires ResolvedIn(p, idx, env, b) == idx * b
    ensures var o := Drive(PendingAt(p, idx, env, b), idx, max, env, b);
            o.pending == {} || (o.cycles == max && ResolvedIn(p, max, env, b) == max * b)
    decreases max - idx
  {
    hide Step, Batch, ResolvedBy, PendingAt, Listed;
    var q := PendingAt(p, idx, env, b);
    if idx < max && q != {} {
      NextPending(p, idx, env, b);
      SmoothStep(q, env(idx), b);
      if |Listed(q, env(idx))| >= b {
        assert (idx + 1) * b == idx * b + b;
        EmptyOrFull(p, idx + 1, max, env, b);
      }
    }
  }

  lemma NothingLeft(p: set<int>)
    ensures |p| == 0 ==> p == {}
  {
  }

  /** Until a smooth run is cleared, every cycle resolves a full batch. */
  lemma {:induction false} FullUntilCleared(p: set<int>, k: nat, max: nat, env: nat -> Cycle, b: nat)
    requires b > 0 && k <= max && Smooth(p, max, env, b)
    requires forall i :: 0 <= i < k ==> !Clears(p, i, env, b) || !KeepsListing(p, i, env, b)
    ensures KeepsListing(p, k, env, b) && ResolvedIn(p, k, env, b) == k * b
  {
    hide Clears, Load, Behind, ResolvedBy, PendingAt;
    if k > 0 {
      FullUntilCleared(p, k - 1, max, env, b);
      ClearsIff(p, k - 1, env, b);
      LoadNext(p, k - 1, env, b);
      SmoothBehind(p, k - 1, max, env, b);
      if Load(p, k - 1, env, b) < b {
        NothingLeft(PendingAt(p, k, env, b));
        assert false;
      }
      OneMoreBatch(k - 1, b);
    }
  }

  /** A smooth run drains whenever its cycles have room for what was pending and what arrived. */
  lemma DrainsWithRoom(p: set<int>, max: nat, env: nat -> Cycle, b: nat)
    requires b > 0 && Smooth(p, max, env, b)
    requires |p| + ArrivedIn(p, max, env, b) <= max * b
    ensures Drive(p, 0, max, env, b).pending == {}
  {
    hide Drive, Clears, KeepsListing, Smooth, PendingAt, ResolvedIn, DepartedIn, ArrivedIn;
    DrainsIff(p, max, env, b);
    if forall i :: 0 <= i < max ==> !Clears(p, i, env, b) || !KeepsListing(p, i, env, b) {
      FullUntilCleared(p, max, max, env, b);
      Conservation(p, max, env, b);
      NothingLeft(PendingAt(p, max, env, b));
      NoCycles(p, env, b);
      if max > 0 {
        ClearsIff(p, max - 1, env, b);
        FullUntilCleared(p, max - 1, max, env, b);
      }
    }
  }

  /** An import of everything drains when its plan is not cut off at 500 cycles, at most two batches' worth of ids
      become pending on the way, and none of them behind a short batch. */
  lemma ImportAllDrains(p: set<int>, env: nat -> Cycle, b: nat)
    requires b > 0 && Batches(|p|, b) + 2 <= MAX_CYCLES
    requires Smooth(p, Plan(|p|, b), env, b)
    requires ArrivedIn(p, Plan(|p|, b), env, b) <= 2 * b
    ensures Drive(p, 0, Plan(|p|, b), env, b).pending == {}
  {
    hide Drive, Smooth;
    if p == {} {
      DrainsIff(p, Plan(|p|, b), env, b);
    } else {
      PlanIs(|p|, b);
      BatchesCover(|p|, b);
      RoomForTwo(Batches(|p|, b), b);
      DrainsWithRoom(p, Plan(|p|, b), env, b);
    }
  }

  /** An import of everything drains if and only if nothing was pending or one of its cycles, as many as the batches
      and two more but at most 500, clears the backlog and none before it finds nothing to list. */
  lemma ImportAllDrainsIff(p: set<int>, env: nat -> Cycle, b: nat)
    requires b > 0
    ensures Drive(p, 0, Plan(|p|, b), env, b).pending == {} <==>
              p == {} || exists k :: 0 <= k < Batches(|p|, b) + 2 && k < MAX_CYCLES &&
                                     Clears(p, k, env, b) && KeepsListing(p, k, env, b)
  {
    hide Drive, Clears, KeepsListing;
    DrainsIff(p, Plan(|p|, b), env, b);
    if p != {} {
      assert |p| > 0;
      PlanIs(|p|, b);
    }
  }

  lemma RoomForTwo(q: nat, b: nat)
    ensures (q + 2) * b == q * b + 2 * b
  {
  }

  /** The room is exact: ids that all arrive before the first listing and exceed it leave precisely the excess. */
  lemma NoRoomNoDrain(p: set<int>, burst: set<int>, max: nat, b: nat)
    requires b > 0 && max > 0 && p != {} && p !! burst
    requires |p| + |burst| > max * b
    ensures var env := (k: nat) => Cycle(if k == 0 then burst else {}, {}, {}, {});
            && Smooth(p, max, env, b)
            && ArrivedIn(p, max, env, b) == |burst|
            && |Drive(p, 0, max, env, b).pending| == |p| + |burst| - max * b
  {
    var env := (k: nat) => Cycle(if k == 0 then burst else {}, {}, {}, {});
    EmptyOrFull(p, 0, max, env, b);
    DriveFollows(p, 0, max, env, b);
    var n := Drive(p, 0, max, env, b).cycles;
    BurstLedger(p, burst, max, env, b);
    BurstLedger(p, burst, n, env, b);
    Conservation(p, max, env, b);
    Conservation(p, n, env, b);
    AtMostFull(p, n, env, b);
    if n > 0 {
      assert n * b <= max * b by { MulMono(n, max, b); }
    }
  }

  lemma {:induction false} BurstInflow(p: set<int>, burst: set<int>, j: nat, k: nat, env: nat -> Cycle, b: nat)
    requires p !! burst && j <= k
    requires forall i: nat :: env(i) == Cycle(if i == 0 then burst else {}, {}, {}, {})
    ensures Inflow(p, j, k, env, b) == if j == 0 then |p| + |burst| else 0
    ensures Behind(p, k, env, b) == 0
    decreases k
  {
    hide PendingAt, Behind, Net;
    BurstBehind(p, burst, k, env, b);
    if k > 0 {
      BurstBehind(p, burst, k - 1, env, b);
    }
    if j < k {
      BurstInflow(p, burst, j, k - 1, env, b);
    }
  }

  lemma BurstBehind(p: set<int>, burst: set<int>, k: nat, env: nat -> Cycle, b: nat)
    requires p !! burst
    requires forall i: nat :: env(i) == Cycle(if i == 0 then burst else {}, {}, {}, {})
    ensures Behind(p, k, env, b) == 0
    ensures Net(p, k, env, b) == if k == 0 then |burst| else 0
  {
    NoCycles(p, env, b);
    hide PendingAt, Batch;
    var q, c := PendingAt(p, k, env, b), env(k);
    assert (Batch(q, c, b) * c.failed) + (c.late - (Listed(q, c) - Batch(q, c, b))) == {};
    assert c.departed * q == {};
    assert c.arrived - (q - c.departed) == c.arrived - q;
    if k == 0 {
      assert burst - p == burst;
    } else {
      assert c.arrived - q == {};
    }
  }

  /** For ids arriving before the first listing the room decides: the driver drains if and only if they fit. */
  lemma BurstDrainsIff(p: set<int>, burst: set<int>, max: nat, b: nat)
    requires b > 0 && max > 0 && p != {} && p !! burst
    ensures var env := (k: nat) => Cycle(if k == 0 then burst else {}, {}, {}, {});
            Drive(p, 0, max, env, b).pending == {} <==> |p| + |burst| <= max * b
  {
    hide Drive, Inflow, Behind;
    var env := (k: nat) => Cycle(if k == 0 then burst else {}, {}, {}, {});
    DrainsIffNoneDepart(p, max, env, b);
    forall k: nat, j: nat | j <= k
      ensures Behind(p, k, env, b) == 0 && Inflow(p, j, k, env, b) == if j == 0 then |p| + |burst| else 0
    {
      BurstInflow(p, burst, j, k, env, b);
    }
    if |p| + |burst| <= max * b {
      BurstInflow(p, burst, 0, max - 1, env, b);
      assert Served(0, max - 1, b) == max * b;
      assert Clears(p, max - 1, env, b);
    }
    if k :| 0 <= k < max && Clears(p, k, env, b) {
      assert Inflow(p, 0, k, env, b) <= Served(0, k, b);
      MulMono(k + 1, max, b);
    }
  }

  lemma ResolvedAtMost(p: set<int>, c: Cycle, b: nat)
    ensures ResolvedBy(p, c, b) <= b
  {
    hide Batch, Listed;
    BatchSize(p, c, b);
    SubsetSize(Batch(p, c, b) - c.failed, Batch(p, c, b));
  }

  lemma {:induction false} AtMostFull(p: set<int>, k: nat, env: nat -> Cycle, b: nat)
    ensures ResolvedIn(p, k, env, b) <= k * b
  {
    hide ResolvedBy, PendingAt;
    if k > 0 {
      AtMostFull(p, k - 1, env, b);
      ResolvedAtMost(PendingAt(p, k - 1, env, b), env(k - 1), b);
      assert k * b == (k - 1) * b + b;
    }
  }

  lemma BurstBy(p: set<int>, c: Cycle, b: nat)
    requires c.departed == {} && c.late == {}
    ensures ArrivedBy(p, c, b) == |c.arrived - p| && DepartedBy(p, c) == 0
  {
    assert c.departed * p == {};
    assert p - c.departed == p;
    assert c.late - (Listed(p, c) - (Batch(p, c, b) - c.failed)) == {};
  }

  lemma {:induction false} BurstLedger(p: set<int>, burst: set<int>, k: nat, env: nat -> Cycle, b: nat)
    requires p !! burst
    requires forall i: nat :: env(i) == Cycle(if i == 0 then burst else {}, {}, {}, {})
    ensures ArrivedIn(p, k, env, b) == if k == 0 then 0 else |burst|
    ensures DepartedIn(p, k, env, b) == 0
  {
    hide Step, ArrivedBy, DepartedBy;
    if k > 0 {
      BurstLedger(p, burst, k - 1, env, b);
      var q, c := PendingAt(p, k - 1, env, b), env(k - 1);
      BurstBy(q, c, b);
      if k == 1 {
        assert c.arrived - q == burst;
      } else {
        assert c.arrived - q == {};
      }
    }
  }

  /** Nothing arrives, departs or fails. */
  const QUIET := Cycle({}, {}, {}, {})

  lemma QuietStep(p: set<int>, b: nat)
    requires b > 0 && p != {}
    ensures Batch(p, QUIET, b) != {}
    ensures |Step(p, QUIET, b)| == if |p| <= b then 0 else |p| - b
  {
    assert Listed(p, QUIET) == p;
    BatchSize(p, QUIET, b);
    SubsetSize(Batch(p, QUIET, b), p);
    assert Step(p, QUIET, b) == p - Batch(p, QUIET, b);
  }

  /** Undisturbed, the driver runs exactly as many cycles as there are batches. */
  lemma {:induction false} QuietCycles(p: set<int>, idx: nat, max: nat, b: nat)
    requires b > 0 && idx + Batches(|p|, b) <= max
    ensures Drive(p, idx, max, (k: nat) => QUIET, b) == Outcome({}, idx + Batches(|p|, b))
    decreases max - idx
  {
    hide Step, Batch;
    if p != {} {
      assert |p| > 0;
      QuietStep(p, b);
      QuietCycles(Step(p, QUIET, b), idx + 1, max, b);
    }
  }

  /** Undisturbed, up to 500 batches drain, in exactly one cycle per batch. */
  lemma QuietImport(p: set<int>, b: nat)
    requires b > 0 && |p| <= MAX_CYCLES * b
    ensures Drive(p, 0, Plan(|p|, b), (k: nat) => QUIET, b) == Outcome({}, Batches(|p|, b))
  {
    BatchesCover(|p|, b);
    if Batches(|p|, b) > MAX_CYCLES {
      MulMono(MAX_CYCLES, Batches(|p|, b) - 1, b);
      assert false;
    }
    if p != {} {
      PlanIs(|p|, b);
    }
    QuietCycles(p, 0, Plan(|p|, b), b);
  }

  // ---------------------------------------------------------------- a whole import on the tables

  /** One ingest run of an import: what has happened to the tables since the run before, what the run finds, and when
      the driver counts again. */
  datatype IngestCall = IngestCall(between: seq<DubRuns.Event>, specs: seq<Source>, fetch: Source -> MalIngest.Response,
                                   now: int, lookup: int -> Lookup, doneAt: int -> int, recounted: int)

  /** The tables of an import, the batch size, what it calls and when it first counts. */
  datatype Import = Import(db: Db, wire: Wire, b: nat, calls: nat -> IngestCall, counted: int)

  /** Each count follows its run's listing and comes within fourteen days of the run's lookups. */
  ghost predicate Timely(imp: Import) {
    forall k: nat :: imp.calls(k).now <= imp.calls(k).recounted &&
      forall id: int :: imp.calls(k).recounted - FOURTEEN_DAYS <= imp.calls(k).doneAt(id)
  }

  /** The tables when run `k` lists its batch. */
  function ListingTables(imp: Import, db: Db, k: nat): Db {
    var c := imp.calls(k);
    MalIngest.AfterUnion(DubRuns.ApplyAll(db, c.between, imp.wire), c.specs, c.fetch, imp.wire)
  }

  /** The ids that run `k` looks up, from the tables that the run before has left. */
  ghost function Lookups(imp: Import, db: Db, k: nat): seq<int> {
    Smallest(NeedingLookup(ListingTables(imp, db, k).anime, imp.calls(k).now), imp.b)
  }

  /** The tables before run `k` and what others do in between. */
  ghost function TablesAt(imp: Import, k: nat): Db {
    if k == 0 then imp.db
    else
      var db, c := TablesAt(imp, k - 1), imp.calls(k - 1);
      DubRuns.ApplyAll(ListingTables(imp, db, k - 1),
                       MalIngest.LookupEvents(Lookups(imp, db, k - 1), c.lookup, c.doneAt), imp.wire)
  }

  /** What the driver has counted before run `k`. */
  ghost function CountedAt(imp: Import, k: nat): set<int> {
    NeedingLookup(TablesAt(imp, k).anime, if k == 0 then imp.counted else imp.calls(k - 1).recounted)
  }

  /** The disturbance that run `k` and the time before it amount to. */
  ghost function CycleAt(imp: Import, k: nat): Cycle {
    var unioned := ListingTables(imp, TablesAt(imp, k), k);
    CycleOf(CountedAt(imp, k), NeedingLookup(unioned.anime, imp.calls(k).now),
            NeedingLookup(unioned.anime, imp.calls(k).recounted), imp.calls(k).lookup)
  }

  ghost function CyclesOf(imp: Import): nat -> Cycle {
    (k: nat) => CycleAt(imp, k)
  }

  /** The runs of an import from run `idx` on: until the planned ones are done, nothing is counted, or a run has looked
      nothing up. */
  ghost function RunsDone(imp: Import, idx: nat, max: nat): (n: nat)
    requires idx <= max
    ensures idx <= n <= max
    decreases max - idx
  {
    if idx == max || CountedAt(imp, idx) == {} then idx
    else if Lookups(imp, TablesAt(imp, idx), idx) == [] then idx + 1
    else RunsDone(imp, idx + 1, max)
  }

  lemma OneRun(imp: Import, k: nat)
    requires Timely(imp)
    ensures Step(CountedAt(imp, k), CycleAt(imp, k), imp.b) == CountedAt(imp, k + 1)
    ensures Batch(CountedAt(imp, k), CycleAt(imp, k), imp.b) == Elements(Lookups(imp, TablesAt(imp, k), k))
  {
    hide Step, NeedingLookup, CycleOf, MalIngest.AfterUnion, Listed, DubRuns.ApplyAll;
    var c := imp.calls(k);
    IngestRunIsACycle(CountedAt(imp, k), DubRuns.ApplyAll(TablesAt(imp, k), c.between, imp.wire), c.specs, c.fetch,
                      imp.wire, imp.b, c.lookup, c.now, c.doneAt, c.recounted);
  }

  /** What the driver counts along a whole import, whatever others do to the tables in between, is what its cycles make
      of the first count. */
  lemma {:induction false} ImportIsDriven(imp: Import, k: nat)
    requires Timely(imp)
    ensures PendingAt(CountedAt(imp, 0), k, CyclesOf(imp), imp.b) == CountedAt(imp, k)
  {
    hide *;
    var env := CyclesOf(imp);
    NoCycles(CountedAt(imp, 0), env, imp.b);
    if k > 0 {
      ImportIsDriven(imp, k - 1);
      OneRun(imp, k - 1);
      CycleOfImport(imp, k - 1);
      NextPending(CountedAt(imp, 0), k - 1, env, imp.b);
    }
  }

  lemma CycleOfImport(imp: Import, k: nat)
    ensures CyclesOf(imp)(k) == CycleAt(imp, k)
  {
    hide CycleAt;
  }

  /** An import makes as many runs as the driver makes cycles, and leaves what the driver leaves. */
  lemma {:induction false} ImportDrives(imp: Import, idx: nat, max: nat)
    requires Timely(imp) && idx <= max
    ensures var n := RunsDone(imp, idx, max);
            Drive(CountedAt(imp, idx), idx, max, CyclesOf(imp), imp.b) == Outcome(CountedAt(imp, n), n)
    decreases max - idx
  {
    hide Step, Batch, CountedAt, CycleAt, Lookups;
    if idx < max && CountedAt(imp, idx) != {} {
      OneRun(imp, idx);
      NoElements(Lookups(imp, TablesAt(imp, idx), idx));
      if Lookups(imp, TablesAt(imp, idx), idx) != [] {
        ImportDrives(imp, idx + 1, max);
      }
    }
  }

  lemma NoElements(ids: seq<int>)
    ensures Elements(ids) == {} <==> ids == []
  {
    if ids != [] {
      assert ids[0] in Elements(ids);
    }
  }

  /** An import leaves nothing that needs a lookup if and only if nothing needed one or some planned run clears the
      backlog and none before it finds nothing to list. */
  lemma ImportDrainsIff(imp: Import, max: nat)
    requires Timely(imp) && imp.b > 0
    ensures var p, env := CountedAt(imp, 0), CyclesOf(imp);
            CountedAt(imp, RunsDone(imp, 0, max)) == {} <==>
              p == {} || exists k :: 0 <= k < max && Clears(p, k, env, imp.b) && KeepsListing(p, k, env, imp.b)
  {
    hide Drive, Clears, KeepsListing, CountedAt, RunsDone;
    ImportDrives(imp, 0, max);
    DrainsIff(CountedAt(imp, 0), max, CyclesOf(imp), imp.b);
  }

  // ---------------------------------------------------------------- where draining stops

  /** Failing lookups at the front of the queue block it: the same batch is tried in every cycle. */
  lemma {:induction false} FailingFrontBlocks(p: set<int>, idx: nat, max: nat, stuck: set<int>, b: nat)
    requires b > 0 && idx <= max && p != {}
    requires Elements(Smallest(p, b)) <= stuck
    ensures Drive(p, idx, max, (k: nat) => Cycle({}, {}, stuck, {}), b) == Outcome(p, max)
    decreases max - idx
  {
    var c := Cycle({}, {}, stuck, {});
    assert Listed(p, c) == p;
    BatchSize(p, c, b);
    if idx < max {
      assert Step(p, c, b) == p;
      FailingFrontBlocks(p, idx + 1, max, stuck, b);
    }
  }

  /** One id arriving behind each short batch outlasts the plan although fewer than two batches arrive. */
  lemma LateArrivalsOutlast()
    ensures var env := (k: nat) => Cycle({}, {}, {}, {k + 2});
            && Plan(|{1}|, 2) == 3
            && ArrivedIn({1}, 3, env, 2) == 3 <= 2 * 2
            && Drive({1}, 0, 3, env, 2).pending == {4}
  {
    var env := (k: nat) => Cycle({}, {}, {}, {k + 2});
    OneLate({1}, 1, env(0));
    assert PendingAt({1}, 1, env, 2) == {2};
    OneLate({2}, 2, env(1));
    assert PendingAt({1}, 2, env, 2) == {3};
    OneLate({3}, 3, env(2));
    assert PendingAt({1}, 3, env, 2) == {4};
    assert Drive({4}, 3, 3, env, 2).pending == {4};
    assert Drive({3}, 2, 3, env, 2).pending == {4};
    assert Drive({2}, 1, 3, env, 2).pending == {4};
    assert ArrivedIn({1}, 1, env, 2) == 1;
    assert ArrivedIn({1}, 2, env, 2) == 2;
    assert ArrivedIn({1}, 3, env, 2) == 3;
  }

  lemma OneLate(p: set<int>, id: int, c: Cycle)
    requires p == {id} && c == Cycle({}, {}, {}, {id + 1})
    ensures Batch(p, c, 2) == {id} && Step(p, c, 2) == {id + 1}
    ensures ArrivedBy(p, c, 2) == 1
  {
    assert Listed(p, c) == {id};
    assert |Listed(p, c)| == 1;
    BatchSize(p, c, 2);
    assert c.arrived - (p - c.departed) == {};
    assert c.late - (Listed(p, c) - (Batch(p, c, 2) - c.failed)) == {id + 1};
  }
}
