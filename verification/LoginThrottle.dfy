/** The in-memory lockout after repeated login failures, and what it guarantees over whole runs. */
module LoginThrottle {
  import opened Prelude

  datatype Entry = Entry(count: nat, last: real)
  type Failures = map<string, Entry>

  const EVICTION_LIMIT := 10000

  function EntryOf(m: Failures, key: string): Entry {
    if key in m then m[key] else Entry(0, 0.0)
  }

  predicate Locked(m: Failures, key: string, now: real, max: nat, lockout: real) {
    var e := EntryOf(m, key);
    e.count >= max && now < e.last + lockout
  }

  /** The entry after one more failure; a lockout that has run out starts the count again. */
  function Bumped(e: Entry, now: real, max: nat, lockout: real): Entry {
    if e.count >= max && now >= e.last + lockout then Entry(1, now) else Entry(e.count + 1, now)
  }

  /** `gone` is the oldest fifth by last failure once the map holds more than 10,000 keys, and nothing before. */
  predicate Evicts(m: Failures, gone: set<string>) {
    if |m| > EVICTION_LIMIT then
      gone <= m.Keys && |gone| == |m| / 5 &&
      forall e, s :: e in gone && s in m && s !in gone ==> m[e].last <= m[s].last
    else gone == {}
  }

  ghost predicate Registers(before: Failures, after: Failures, key: string, now: real, max: nat, lockout: real) {
    exists gone ::
      Evicts(before, gone) && after == (before - gone)[key := Bumped(EntryOf(before, key), now, max, lockout)]
  }

  // ---------------------------------------------------------------- the limiter

  lemma OldestExists(m: Failures)
    requires m != map[]
    ensures exists k :: k in m && forall j :: j in m ==> m[k].last <= m[j].last
  {
    var k := OldestOf(m, m.Keys);
    assert k in m && forall j :: j in m ==> m[k].last <= m[j].last;
  }

  lemma {:induction false} OldestOf(m: Failures, among: set<string>) returns (k: string)
    requires among <= m.Keys && among != {}
    ensures k in among && forall j :: j in among ==> m[k].last <= m[j].last
    decreases |among|
  {
    k := Pick(among);
    var rest := among - {k};
    assert forall j :: j in among ==> j == k || j in rest;
    if rest != {} {
      var r := OldestOf(m, rest);
      if m[r].last < m[k].last {
        k := r;
      }
    }
  }

  class LoginRateLimiter {
    const maxFailures: nat
    const lockout: real
    var failures: Failures

    constructor (maxFailures: nat, lockout: real)
      ensures this.maxFailures == maxFailures && this.lockout == lockout && failures == map[]
    {
      this.maxFailures, this.lockout, failures := maxFailures, lockout, map[];
    }

    method IsLocked(key: string, now: real) returns (locked: bool)
      ensures locked <==> Locked(failures, key, now, maxFailures, lockout)
      ensures key in failures ==>
                (locked <==> failures[key].count >= maxFailures && now < failures[key].last + lockout)
      ensures key !in failures ==> (locked <==> maxFailures == 0 && now < lockout)
    {
      var e := EntryOf(failures, key);
      locked := e.count >= maxFailures && now < e.last + lockout;
    }

    /** Beyond 10,000 keys, take out the oldest fifth. */
    method EvictOldest() returns (ghost gone: set<string>)
      modifies this
      ensures Evicts(old(failures), gone) && failures == old(failures) - gone
    {
      ghost var before := failures;
      gone := {};
      if |failures| > EVICTION_LIMIT {
        var evict := |failures| / 5;
        var n := 0;
        while n < evict
          invariant 0 <= n <= evict == |before| / 5
          invariant gone <= before.Keys && |gone| == n
          invariant failures == before - gone
          invariant forall e, s :: e in gone && s in before && s !in gone ==> before[e].last <= before[s].last
        {
          KeysLeft(before, gone);
          OldestExists(failures);
          var stale :| stale in failures && forall j :: j in failures ==> failures[stale].last <= failures[j].last;
          OldestJoins(before, gone, stale);
          failures := failures - {stale};
          gone := gone + {stale};
          assert failures == before - gone;
          n := n + 1;
        }
      }
    }

    method RegisterFailure(key: string, now: real)
      modifies this
      ensures Registers(old(failures), failures, key, now, maxFailures, lockout)
      ensures FailureCounted(old(failures), failures, key, now, maxFailures, lockout)
      ensures OldestFifthGone(old(failures), failures, key)
    {
      var e := EntryOf(failures, key);
      var count := e.count;
      if count >= maxFailures && now >= e.last + lockout {
        count := 0;
      }
      ghost var before := failures;
      ghost var gone := EvictOldest();
      failures := failures[key := Entry(count + 1, now)];
      RegisteredIs(before, gone, failures, key, now, maxFailures, lockout);
      hide FailureCounted, OldestFifthGone;
      assert Evicts(before, gone);
      assert failures == (before - gone)[key := Bumped(EntryOf(before, key), now, maxFailures, lockout)];
    }

    method Reset(key: string)
      modifies this
      ensures failures == old(failures) - {key}
    {
      failures := failures - {key};
    }
  }

  /** The key has one failure more, or one if a lockout has passed since a full count; the others are as they were. */
  predicate FailureCounted(before: Failures, after: Failures, key: string, now: real, max: nat, lockout: real) {
    && key in after && after[key].last == now
    && after[key].count == (if key !in before then 1
                            else if before[key].count >= max && now >= before[key].last + lockout then 1
                            else before[key].count + 1)
    && forall k :: k in after && k != key ==> k in before && after[k] == before[k]
  }

  /** Up to 10,000 keys all stay. Of more keys the oldest fifth goes: none of them has failed after one that stays; the
      key itself comes back with its new entry. */
  ghost predicate OldestFifthGone(before: Failures, after: Failures, key: string) {
    if |before| <= 10000 then after.Keys == before.Keys + {key}
    else exists gone: set<string> ::
      && |gone| == |before| / 5 && gone <= before.Keys && after.Keys == before.Keys - gone + {key}
      && forall e, s :: e in gone && s in before && s !in gone ==> before[e].last <= before[s].last
  }

  lemma RegisteredIs(before: Failures, gone: set<string>, after: Failures, key: string, now: real, max: nat,
                     lockout: real)
    requires Evicts(before, gone)
    requires after == (before - gone)[key := Bumped(EntryOf(before, key), now, max, lockout)]
    ensures FailureCounted(before, after, key, now, max, lockout) && OldestFifthGone(before, after, key)
  {
    assert after.Keys == (before - gone).Keys + {key};
    EvictedIs(before, gone, after, key);
    CountedIs(before, gone, after, key, now, max, lockout);
    hide *;
  }

  lemma CountedIs(before: Failures, gone: set<string>, after: Failures, key: string, now: real, max: nat,
                  lockout: real)
    requires after == (before - gone)[key := Bumped(EntryOf(before, key), now, max, lockout)]
    ensures FailureCounted(before, after, key, now, max, lockout)
  {
    assert after[key] == Bumped(EntryOf(before, key), now, max, lockout);
    forall k | k in after && k != key ensures k in before && after[k] == before[k] {
      assert k in before - gone;
    }
  }

  lemma EvictedIs(before: Failures, gone: set<string>, after: Failures, key: string)
    requires Evicts(before, gone) && after.Keys == (before - gone).Keys + {key}
    ensures OldestFifthGone(before, after, key)
  {
    assert after.Keys == before.Keys - gone + {key};
  }

  lemma OldestJoins(m: Failures, gone: set<string>, stale: string)
    requires forall e, s :: e in gone && s in m && s !in gone ==> (e in m && m[e].last <= m[s].last)
    requires stale in m - gone && forall j :: j in m - gone ==> (m - gone)[stale].last <= (m - gone)[j].last
    ensures forall e, s :: e in gone + {stale} && s in m && s !in gone + {stale} ==> e in m && m[e].last <= m[s].last
  {
    forall e, s | e in gone + {stale} && s in m && s !in gone + {stale} ensures e in m && m[e].last <= m[s].last {
      assert s in m - gone && (m - gone)[s] == m[s];
      assert (m - gone)[stale] == m[stale];
    }
  }

  lemma KeysLeft(m: Failures, gone: set<string>)
    requires gone <= m.Keys && |gone| < |m|
    ensures m - gone != map[]
  {
    SubsetSize(gone, m.Keys);
    assert (m - gone).Keys == m.Keys - gone;
    assert |m.Keys| == |m|;
  }

  // ---------------------------------------------------------------- login attempts

  /** One login: in which state and when the lock was checked, when its outcome was registered, and whether the
      password was right. The password is verified in between, while other logins go on. */
  datatype Attempt = Attempt(key: string, seen: nat, checkedAt: real, registeredAt: real, ok: bool)

  datatype Answer = TooMany | Accepted | Rejected

  function AnswerTo(checked: Failures, a: Attempt, max: nat, lockout: real): Answer {
    if Locked(checked, a.key, a.checkedAt, max, lockout) then TooMany else if a.ok then Accepted else Rejected
  }

  /** What registering an outcome does to the map, the lock having been checked on an earlier one. */
  ghost predicate Handles(checked: Failures, before: Failures, a: Attempt, after: Failures, max: nat, lockout: real) {
    match AnswerTo(checked, a, max, lockout)
    case TooMany => after == before
    case Accepted => after == before - {a.key}
    case Rejected => Registers(before, after, a.key, a.registeredAt, max, lockout)
  }

  /** The rest of a login once the password has been verified; `locked` is what the check has said. */
  method FinishLogin(limiter: LoginRateLimiter, a: Attempt, locked: bool, ghost checked: Failures)
    returns (answer: Answer)
    requires locked <==> Locked(checked, a.key, a.checkedAt, limiter.maxFailures, limiter.lockout)
    modifies limiter
    ensures answer == AnswerTo(checked, a, limiter.maxFailures, limiter.lockout)
    ensures Handles(checked, old(limiter.failures), a, limiter.failures, limiter.maxFailures, limiter.lockout)
    ensures answer == if locked then TooMany else if a.ok then Accepted else Rejected
    ensures answer == TooMany ==> limiter.failures == old(limiter.failures)
    ensures answer == Accepted ==> limiter.failures == old(limiter.failures) - {a.key}
    ensures answer == Rejected ==>
              && FailureCounted(old(limiter.failures), limiter.failures, a.key, a.registeredAt, limiter.maxFailures,
                                limiter.lockout)
              && OldestFifthGone(old(limiter.failures), limiter.failures, a.key)
  {
    hide FailureCounted, OldestFifthGone;
    if locked {
      return TooMany;
    }
    if !a.ok {
      limiter.RegisterFailure(a.key, a.registeredAt);
      return Rejected;
    }
    limiter.Reset(a.key);
    answer := Accepted;
  }

  /** A login that nothing interrupts: a locked key is refused whatever the password and the map stays, a right password
      takes the key out of the map, a wrong one is counted. */
  method Login(limiter: LoginRateLimiter, a: Attempt) returns (answer: Answer)
    modifies limiter
    ensures a.key in old(limiter.failures) ==>
              var e := old(limiter.failures)[a.key];
              (answer == TooMany <==> e.count >= limiter.maxFailures && a.checkedAt < e.last + limiter.lockout)
    ensures a.key !in old(limiter.failures) && limiter.maxFailures > 0 ==> answer != TooMany
    ensures answer != TooMany ==> (answer == Accepted <==> a.ok)
    ensures answer == TooMany ==> limiter.failures == old(limiter.failures)
    ensures answer == Accepted ==>
              && a.key !in limiter.failures
              && forall k :: k != a.key ==> (k in limiter.failures <==> k in old(limiter.failures)) &&
                                            (k in limiter.failures ==> limiter.failures[k] == old(limiter.failures)[k])
    ensures answer == Rejected ==>
              && FailureCounted(old(limiter.failures), limiter.failures, a.key, a.registeredAt, limiter.maxFailures,
                                limiter.lockout)
              && OldestFifthGone(old(limiter.failures), limiter.failures, a.key)
    ensures answer == AnswerTo(old(limiter.failures), a, limiter.maxFailures, limiter.lockout)
    ensures Handles(old(limiter.failures), old(limiter.failures), a, limiter.failures, limiter.maxFailures,
                    limiter.lockout)
  {
    hide FailureCounted, OldestFifthGone;
    var locked := limiter.IsLocked(a.key, a.checkedAt);
    answer := FinishLogin(limiter, a, locked, limiter.failures);
  }

  /** `states[i]` is the map before attempt `i` registers its outcome. */
  ghost predicate Run(states: seq<Failures>, attempts: seq<Attempt>, max: nat, lockout: real) {
    |states| == |attempts| + 1 &&
    forall i :: 0 <= i < |attempts| ==> RunsAt(states, attempts, i, max, lockout)
  }

  ghost predicate RunsAt(states: seq<Failures>, attempts: seq<Attempt>, i: nat, max: nat, lockout: real)
    requires i < |attempts| < |states|
  {
    attempts[i].seen <= i && Handles(states[attempts[i].seen], states[i], attempts[i], states[i + 1], max, lockout)
  }

  // ---------------------------------------------------------------- size

  lemma RegistersSize(before: Failures, after: Failures, key: string, now: real, max: nat, lockout: real)
    requires Registers(before, after, key, now, max, lockout) && |before| <= EVICTION_LIMIT + 1
    ensures |after| <= EVICTION_LIMIT + 1
  {
    hide Evicts, Bumped;
    var gone :| Evicts(before, gone) &&
                after == (before - gone)[key := Bumped(EntryOf(before, key), now, max, lockout)];
    EvictedSize(before, gone);
    var left := before - gone;
    assert after.Keys == left.Keys + {key};
    assert |after.Keys| <= |left.Keys| + 1;
  }

  lemma EvictedSize(m: Failures, gone: set<string>)
    requires Evicts(m, gone) && |m| <= EVICTION_LIMIT + 1
    ensures |(m - gone).Keys| <= EVICTION_LIMIT
  {
    assert (m - gone).Keys == m.Keys - gone;
    if |m| > EVICTION_LIMIT {
      SubsetSize(gone, m.Keys);
    } else {
      assert m.Keys - gone == m.Keys;
    }
    assert |m.Keys| == |m|;
  }

  /** The map never holds more than 10,001 keys. */
  lemma {:induction false} SizeBounded(states: seq<Failures>, attempts: seq<Attempt>, max: nat, lockout: real, i: nat)
    requires Run(states, attempts, max, lockout) && states[0] == map[] && i < |states|
    ensures |states[i]| <= 10001
  {
    if i > 0 {
      SizeBounded(states, attempts, max, lockout, i - 1);
      var before, after, a := states[i - 1], states[i], attempts[i - 1];
      assert RunsAt(states, attempts, i - 1, max, lockout);
      match AnswerTo(states[a.seen], a, max, lockout)
      case TooMany =>
      case Accepted =>
        assert after.Keys == before.Keys - {a.key};
        SubsetSize(after.Keys, before.Keys);
        assert |after.Keys| == |after| && |before.Keys| == |before|;
      case Rejected => RegistersSize(before, after, a.key, a.registeredAt, max, lockout);
    }
  }

  // ---------------------------------------------------------------- rate

  /** Attempt `i` is a registered failure of `key`. */
  predicate Fails(states: seq<Failures>, attempts: seq<Attempt>, key: string, i: nat, max: nat, lockout: real)
    requires i < |attempts| < |states|
  {
    attempts[i].key == key && attempts[i].seen <= i &&
    AnswerTo(states[attempts[i].seen], attempts[i], max, lockout) == Rejected
  }

  /** Attempt `i` takes `key` out of the map: it is an accepted one of the key, or another key's failure evicts it. */
  predicate Clears(states: seq<Failures>, attempts: seq<Attempt>, key: string, i: nat, max: nat, lockout: real)
    requires i < |attempts| < |states|
  {
    if attempts[i].key == key
    then attempts[i].seen <= i && AnswerTo(states[attempts[i].seen], attempts[i], max, lockout) == Accepted
    else key in states[i] && key !in states[i + 1]
  }

  /** When, among the first `n` attempts, failures of `key` were registered since it was last accepted or evicted. */
  function FailTimes(states: seq<Failures>, attempts: seq<Attempt>, key: string, n: nat, max: nat,
                     lockout: real): seq<real>
    requires n <= |attempts| < |states|
  {
    if n == 0 || Clears(states, attempts, key, n - 1, max, lockout) then []
    else
      FailTimes(states, attempts, key, n - 1, max, lockout) +
      (if Fails(states, attempts, key, n - 1, max, lockout) then [attempts[n - 1].registeredAt] else [])
  }

  // ---------------------------------------------------------------- what the map says of a key

  predicate StartsAgain(times: seq<real>, counted: nat, now: real, max: nat, lockout: real) {
    times != [] && counted >= max && now >= times[|times| - 1] + lockout
  }

  /** How many of the failures at the given times count: a failure that comes a lockout after a full count starts the
      count again. */
  function Counted(times: seq<real>, max: nat, lockout: real): nat {
    if times == [] then 0
    else
      var n := |times| - 1;
      var before := Counted(times[..n], max, lockout);
      if StartsAgain(times[..n], before, times[n], max, lockout) then 1 else before + 1
  }

  /** How often the count has started again. */
  function Restarts(times: seq<real>, max: nat, lockout: real): nat {
    if times == [] then 0
    else
      var n := |times| - 1;
      Restarts(times[..n], max, lockout) +
      if StartsAgain(times[..n], Counted(times[..n], max, lockout), times[n], max, lockout) then 1 else 0
  }

  lemma OneMore(times: seq<real>, now: real, max: nat, lockout: real)
    ensures var again := StartsAgain(times, Counted(times, max, lockout), now, max, lockout);
            && Counted(times + [now], max, lockout) == (if again then 1 else Counted(times, max, lockout) + 1)
            && Restarts(times + [now], max, lockout) == Restarts(times, max, lockout) + (if again then 1 else 0)
  {
    assert (times + [now])[..|times|] == times;
  }

  /** What the map says of a key after registered failures at the given times. */
  predicate Tracks(m: Failures, key: string, times: seq<real>, max: nat, lockout: real) {
    if times == [] then key !in m
    else key in m && m[key] == Entry(Counted(times, max, lockout), times[|times| - 1])
  }

  lemma OtherAttempt(checked: Failures, before: Failures, a: Attempt, after: Failures, key: string, max: nat,
                     lockout: real)
    requires Handles(checked, before, a, after, max, lockout) && a.key != key
    ensures key in after ==> key in before && before[key] == after[key]
  {
  }

  lemma OwnAttempt(checked: Failures, before: Failures, a: Attempt, after: Failures, times: seq<real>, max: nat,
                   lockout: real)
    requires Handles(checked, before, a, after, max, lockout)
    requires Tracks(before, a.key, times, max, lockout)
    ensures Tracks(after, a.key,
                   match AnswerTo(checked, a, max, lockout)
                   case TooMany => times
                   case Accepted => []
                   case Rejected => times + [a.registeredAt],
                   max, lockout)
  {
    hide Locked;
    OneMore(times, a.registeredAt, max, lockout);
    if AnswerTo(checked, a, max, lockout) == Rejected {
      assert after[a.key] == Bumped(EntryOf(before, a.key), a.registeredAt, max, lockout);
    }
  }

  /** However many attempts are in flight at once and whatever other keys do, what the map says of a key follows from
      when its failures since it was last accepted or evicted were registered. */
  lemma {:induction false} TracksAlong(states: seq<Failures>, attempts: seq<Attempt>, key: string, n: nat, max: nat,
                                       lockout: real)
    requires Run(states, attempts, max, lockout) && key !in states[0]
    requires n <= |attempts|
    ensures Tracks(states[n], key, FailTimes(states, attempts, key, n, max, lockout), max, lockout)
  {
    hide Handles, AnswerTo, Counted;
    if n > 0 {
      TracksAlong(states, attempts, key, n - 1, max, lockout);
      var times := FailTimes(states, attempts, key, n - 1, max, lockout);
      var a := attempts[n - 1];
      assert RunsAt(states, attempts, n - 1, max, lockout);
      if a.key == key {
        OwnAttempt(states[a.seen], states[n - 1], a, states[n], times, max, lockout);
      } else {
        OtherAttempt(states[a.seen], states[n - 1], a, states[n], key, max, lockout);
      }
      assert times + [] == times;
    }
  }

  /** A key is locked exactly when a full count of failures stands and a lockout has not passed since the last one. */
  lemma LockedIff(states: seq<Failures>, attempts: seq<Attempt>, key: string, n: nat, now: real, max: nat,
                  lockout: real)
    requires max > 0 && Run(states, attempts, max, lockout) && key !in states[0]
    requires n <= |attempts|
    ensures var times := FailTimes(states, attempts, key, n, max, lockout);
            Locked(states[n], key, now, max, lockout) <==>
              times != [] && Counted(times, max, lockout) >= max && now < times[|times| - 1] + lockout
  {
    TracksAlong(states, attempts, key, n, max, lockout);
    hide Run, FailTimes;
  }

  // ---------------------------------------------------------------- attempts in flight

  /** The clock does not go back between the checks and registrations of a key's attempts. Attempt `j` is checked before
      registration `attempts[j].seen` and after all earlier ones. */
  predicate Clocked(attempts: seq<Attempt>, key: string) {
    && (forall i, j :: 0 <= i < j < |attempts| && attempts[i].key == attempts[j].key == key ==>
          attempts[i].registeredAt <= attempts[j].registeredAt)
    && (forall i, j :: 0 <= i < |attempts| && 0 <= j < |attempts| && attempts[i].key == attempts[j].key == key ==>
          if i < attempts[j].seen then attempts[i].registeredAt <= attempts[j].checkedAt
          else attempts[j].checkedAt <= attempts[i].registeredAt)
  }

  /** The attempts of a key that have been checked and not registered when outcome `p` is about to be. */
  function InFlight(attempts: seq<Attempt>, key: string, p: nat): set<nat> {
    set j: nat | p <= j < |attempts| && attempts[j].key == key && attempts[j].seen <= p
  }

  /** A key never has more than `c` attempts in flight. */
  ghost predicate AtMost(attempts: seq<Attempt>, key: string, c: nat) {
    forall p: nat :: p < |attempts| ==> |InFlight(attempts, key, p)| <= c
  }

  lemma {:induction false} LastFailTime(states: seq<Failures>, attempts: seq<Attempt>, key: string, n: nat, max: nat,
                                        lockout: real)
    requires n <= |attempts| < |states|
    ensures var times := FailTimes(states, attempts, key, n, max, lockout);
            times != [] ==>
              exists i :: 0 <= i < n && attempts[i].key == key && attempts[i].registeredAt == times[|times| - 1]
  {
    hide AnswerTo;
    if n > 0 {
      LastFailTime(states, attempts, key, n - 1, max, lockout);
      if Fails(states, attempts, key, n - 1, max, lockout) {
        assert attempts[n - 1].key == key;
      }
    }
  }

  /** The count after the first `n` attempts. */
  function CountAt(states: seq<Failures>, attempts: seq<Attempt>, key: string, n: nat, max: nat, lockout: real): nat
    requires n <= |attempts| < |states|
  {
    Counted(FailTimes(states, attempts, key, n, max, lockout), max, lockout)
  }

  function FailsWithin(states: seq<Failures>, attempts: seq<Attempt>, key: string, full: nat, n: nat, max: nat,
                       lockout: real): set<nat>
    requires n <= |attempts| < |states|
  {
    set i: nat | full < i < n && Fails(states, attempts, key, i, max, lockout)
  }

  /** After the first `p` attempts a count that was full with attempt `full` has counted every failure since. */
  predicate CountsFrom(states: seq<Failures>, attempts: seq<Attempt>, key: string, full: nat, p: nat, max: nat,
                       lockout: real)
    requires p <= |attempts| < |states|
  {
    CountAt(states, attempts, key, p, max, lockout)
      == max + |FailsWithin(states, attempts, key, full, p, max, lockout)|
  }

  /** Attempt `full` has made the count full, it has not started again since, and what it has counted since was checked
      before. */
  ghost predicate FullSince(states: seq<Failures>, attempts: seq<Attempt>, key: string, full: nat, n: nat, max: nat,
                            lockout: real)
    requires n <= |attempts| < |states|
  {
    && full < n && Fails(states, attempts, key, full, max, lockout)
    && (forall p: nat :: full < p <= n ==> CountsFrom(states, attempts, key, full, p, max, lockout))
    && (forall i: nat :: full < i < n && Fails(states, attempts, key, i, max, lockout) ==> attempts[i].seen <= full)
  }

  /** The next failure from a point on. */
  lemma {:induction false} NextFailure(states: seq<Failures>, attempts: seq<Attempt>, key: string, p: nat, n: nat,
                                       max: nat, lockout: real) returns (j: nat)
    requires p < n <= |attempts| < |states| && Fails(states, attempts, key, n - 1, max, lockout)
    requires forall i: nat :: p <= i < n ==> !Clears(states, attempts, key, i, max, lockout)
    ensures p <= j < n && Fails(states, attempts, key, j, max, lockout)
    ensures FailTimes(states, attempts, key, j, max, lockout) == FailTimes(states, attempts, key, p, max, lockout)
    decreases n - p
  {
    hide Fails, Clears;
    if Fails(states, attempts, key, p, max, lockout) {
      j := p;
    } else {
      j := NextFailure(states, attempts, key, p + 1, n, max, lockout);
      var times := FailTimes(states, attempts, key, p, max, lockout);
      assert times + [] == times;
    }
  }

  lemma MoreTimes(states: seq<Failures>, attempts: seq<Attempt>, key: string, i: nat, max: nat, lockout: real)
    requires i < |attempts| < |states|
    ensures FailTimes(states, attempts, key, i + 1, max, lockout) ==
            if Clears(states, attempts, key, i, max, lockout) then []
            else if Fails(states, attempts, key, i, max, lockout)
            then FailTimes(states, attempts, key, i, max, lockout) + [attempts[i].registeredAt]
            else FailTimes(states, attempts, key, i, max, lockout)
  {
    hide Fails, Clears;
    var times := FailTimes(states, attempts, key, i, max, lockout);
    assert times + [] == times;
  }

  /** An attempt that is checked while the count is full, and not refused, has waited for the lockout: the next failure
      from the check on, at the latest the attempt's own, starts the count again. */
  lemma NextStartsAgain(states: seq<Failures>, attempts: seq<Attempt>, key: string, n: nat, max: nat, lockout: real)
    returns (j: nat)
    requires max > 0 && Run(states, attempts, max, lockout) && key !in states[0]
    requires Clocked(attempts, key) && n < |attempts| && Fails(states, attempts, key, n, max, lockout)
    requires CountAt(states, attempts, key, attempts[n].seen, max, lockout) >= max
    requires forall i: nat :: attempts[n].seen <= i <= n ==> !Clears(states, attempts, key, i, max, lockout)
    ensures attempts[n].seen <= j <= n && Fails(states, attempts, key, j, max, lockout)
    ensures Again(states, attempts, key, j, max, lockout)
  {
    var p := attempts[n].seen;
    hide Run, Handles;
    LockedIff(states, attempts, key, p, attempts[n].checkedAt, max, lockout);
    j := NextFailure(states, attempts, key, p, n + 1, max, lockout);
    hide FailTimes, Locked, Clears;
    assert attempts[n].checkedAt <= attempts[j].registeredAt;
  }

  /** A failure that counts beyond a full count was checked before the count was full. */
  lemma CheckedBefore(states: seq<Failures>, attempts: seq<Attempt>, key: string, full: nat, n: nat, max: nat,
                      lockout: real)
    requires max > 0 && Run(states, attempts, max, lockout) && key !in states[0]
    requires Clocked(attempts, key) && n < |attempts| && Fails(states, attempts, key, n, max, lockout)
    requires FullSince(states, attempts, key, full, n, max, lockout)
    requires !Again(states, attempts, key, n, max, lockout)
    ensures attempts[n].seen <= full
  {
    hide *;
    var p := attempts[n].seen;
    SeenEarlier(states, attempts, key, n, max, lockout);
    if p > full {
      StaysFull(states, attempts, key, full, n, p, max, lockout);
      forall i: nat | p <= i <= n ensures !Clears(states, attempts, key, i, max, lockout) {
        NotCleared(states, attempts, key, full, n, i, max, lockout);
      }
      var j := NextStartsAgain(states, attempts, key, n, max, lockout);
      CountMore(states, attempts, key, j, max, lockout);
      BeyondFull(states, attempts, key, full, n, j, max, lockout);
      assert false;
    }
  }

  lemma SeenEarlier(states: seq<Failures>, attempts: seq<Attempt>, key: string, n: nat, max: nat, lockout: real)
    requires n < |attempts| && Run(states, attempts, max, lockout) && Fails(states, attempts, key, n, max, lockout)
    ensures attempts[n].seen <= n < |states| == |attempts| + 1
  {
    hide Handles, AnswerTo;
  }

  lemma StaysFull(states: seq<Failures>, attempts: seq<Attempt>, key: string, full: nat, n: nat, p: nat, max: nat,
                  lockout: real)
    requires n <= |attempts| < |states| && FullSince(states, attempts, key, full, n, max, lockout)
    requires full < p <= n
    ensures CountAt(states, attempts, key, p, max, lockout) >= max
  {
    assert CountsFrom(states, attempts, key, full, p, max, lockout);
    hide CountAt, Fails, FullSince;
  }

  /** While a full count stands, and at a failure, nothing takes the key out of the map. */
  lemma NotCleared(states: seq<Failures>, attempts: seq<Attempt>, key: string, full: nat, n: nat, i: nat, max: nat,
                   lockout: real)
    requires max > 0 && n < |attempts| < |states| && FullSince(states, attempts, key, full, n, max, lockout)
    requires full < i <= n && Fails(states, attempts, key, n, max, lockout)
    ensures !Clears(states, attempts, key, i, max, lockout)
  {
    if i < n {
      StaysFull(states, attempts, key, full, n, i + 1, max, lockout);
      CountMore(states, attempts, key, i, max, lockout);
      hide CountAt, Fails, FullSince;
    }
  }

  lemma BeyondFull(states: seq<Failures>, attempts: seq<Attempt>, key: string, full: nat, n: nat, j: nat, max: nat,
                   lockout: real)
    requires n <= |attempts| < |states| && FullSince(states, attempts, key, full, n, max, lockout)
    requires full < j < n && Fails(states, attempts, key, j, max, lockout)
    ensures CountAt(states, attempts, key, j + 1, max, lockout) > max
  {
    assert CountsFrom(states, attempts, key, full, j + 1, max, lockout);
    hide CountAt, Fails, FullSince;
    assert j in FailsWithin(states, attempts, key, full, j + 1, max, lockout);
  }

  /** The failure of attempt `n` would start the count again. */
  predicate Again(states: seq<Failures>, attempts: seq<Attempt>, key: string, n: nat, max: nat, lockout: real)
    requires n < |attempts| < |states|
  {
    StartsAgain(FailTimes(states, attempts, key, n, max, lockout), CountAt(states, attempts, key, n, max, lockout),
                attempts[n].registeredAt, max, lockout)
  }

  lemma CountMore(states: seq<Failures>, attempts: seq<Attempt>, key: string, n: nat, max: nat, lockout: real)
    requires n < |attempts| < |states|
    ensures CountAt(states, attempts, key, n + 1, max, lockout) ==
            if Clears(states, attempts, key, n, max, lockout) then 0
            else if !Fails(states, attempts, key, n, max, lockout) then CountAt(states, attempts, key, n, max, lockout)
            else if Again(states, attempts, key, n, max, lockout) then 1
            else CountAt(states, attempts, key, n, max, lockout) + 1
    ensures Again(states, attempts, key, n, max, lockout) ==> CountAt(states, attempts, key, n, max, lockout) >= max
  {
    MoreTimes(states, attempts, key, n, max, lockout);
    OneMore(FailTimes(states, attempts, key, n, max, lockout), attempts[n].registeredAt, max, lockout);
    NothingYet(max, lockout);
    CountIs(states, attempts, key, n, max, lockout);
    CountIs(states, attempts, key, n + 1, max, lockout);
    AgainIs(states, attempts, key, n, max, lockout);
    hide *;
  }

  lemma CountIs(states: seq<Failures>, attempts: seq<Attempt>, key: string, n: nat, max: nat, lockout: real)
    requires n <= |attempts| < |states|
    ensures CountAt(states, attempts, key, n, max, lockout)
         == Counted(FailTimes(states, attempts, key, n, max, lockout), max, lockout)
  {
  }

  lemma AgainIs(states: seq<Failures>, attempts: seq<Attempt>, key: string, n: nat, max: nat, lockout: real)
    requires n < |attempts| < |states|
    ensures var times := FailTimes(states, attempts, key, n, max, lockout);
            Again(states, attempts, key, n, max, lockout) <==>
              StartsAgain(times, Counted(times, max, lockout), attempts[n].registeredAt, max, lockout)
    ensures Again(states, attempts, key, n, max, lockout) ==> CountAt(states, attempts, key, n, max, lockout) >= max
  {
    hide FailTimes, Counted;
  }

  lemma OneMoreWithin(states: seq<Failures>, attempts: seq<Attempt>, key: string, full: nat, n: nat, max: nat,
                      lockout: real)
    requires full < n < |attempts| < |states|
    ensures |FailsWithin(states, attempts, key, full, n + 1, max, lockout)|
         == |FailsWithin(states, attempts, key, full, n, max, lockout)|
            + if Fails(states, attempts, key, n, max, lockout) then 1 else 0
  {
    hide Fails;
    var since := FailsWithin(states, attempts, key, full, n, max, lockout);
    assert n !in since;
    assert FailsWithin(states, attempts, key, full, n + 1, max, lockout)
        == if Fails(states, attempts, key, n, max, lockout) then since + {n} else since;
  }

  lemma OneFurther(states: seq<Failures>, attempts: seq<Attempt>, key: string, full: nat, n: nat, max: nat,
                   lockout: real)
    requires full < n < |attempts| < |states| && CountsFrom(states, attempts, key, full, n, max, lockout)
    requires !Clears(states, attempts, key, n, max, lockout)
    requires Fails(states, attempts, key, n, max, lockout) ==> !Again(states, attempts, key, n, max, lockout)
    ensures CountsFrom(states, attempts, key, full, n + 1, max, lockout)
  {
    CountMore(states, attempts, key, n, max, lockout);
    OneMoreWithin(states, attempts, key, full, n, max, lockout);
    hide Fails, CountAt, Again, FailsWithin, Clears;
  }

  lemma CountsOn(states: seq<Failures>, attempts: seq<Attempt>, key: string, full: nat, n: nat, max: nat,
                 lockout: real)
    requires n < |attempts| < |states| && FullSince(states, attempts, key, full, n, max, lockout)
    requires !Clears(states, attempts, key, n, max, lockout)
    requires Fails(states, attempts, key, n, max, lockout) ==>
              attempts[n].seen <= full && !Again(states, attempts, key, n, max, lockout)
    ensures FullSince(states, attempts, key, full, n + 1, max, lockout)
  {
    OneFurther(states, attempts, key, full, n, max, lockout);
    hide Fails, CountsFrom, Clears;
  }

  lemma JustFull(states: seq<Failures>, attempts: seq<Attempt>, key: string, n: nat, max: nat, lockout: real)
    requires n < |attempts| < |states| && Fails(states, attempts, key, n, max, lockout)
    requires CountAt(states, attempts, key, n + 1, max, lockout) == max
    ensures FullSince(states, attempts, key, n, n + 1, max, lockout)
  {
    hide Fails, CountAt;
    assert FailsWithin(states, attempts, key, n, n + 1, max, lockout) == {};
    assert CountsFrom(states, attempts, key, n, n + 1, max, lockout);
  }

  /** Behind a full count there is an attempt that made it full, and all failures counted since were in flight then. */
  lemma {:induction false} FullWas(states: seq<Failures>, attempts: seq<Attempt>, key: string, n: nat, max: nat,
                                   lockout: real) returns (full: nat)
    requires max > 0 && Run(states, attempts, max, lockout) && key !in states[0]
    requires Clocked(attempts, key) && n <= |attempts| && CountAt(states, attempts, key, n, max, lockout) >= max
    ensures FullSince(states, attempts, key, full, n, max, lockout)
  {
    assert |states| == |attempts| + 1;
    var last := n - 1;
    NoCount(states, attempts, key, max, lockout);
    CountMore(states, attempts, key, last, max, lockout);
    hide *;
    if !Fails(states, attempts, key, last, max, lockout) {
      full := FullWas(states, attempts, key, last, max, lockout);
      CountsOn(states, attempts, key, full, last, max, lockout);
    } else if CountAt(states, attempts, key, last, max, lockout) < max ||
              Again(states, attempts, key, last, max, lockout) {
      full := last;
      JustFull(states, attempts, key, last, max, lockout);
    } else {
      full := FullWas(states, attempts, key, last, max, lockout);
      CheckedBefore(states, attempts, key, full, last, max, lockout);
      CountsOn(states, attempts, key, full, last, max, lockout);
    }
  }

  lemma NoCount(states: seq<Failures>, attempts: seq<Attempt>, key: string, max: nat, lockout: real)
    requires |attempts| < |states|
    ensures CountAt(states, attempts, key, 0, max, lockout) == 0
    ensures FailTimes(states, attempts, key, 0, max, lockout) == []
  {
  }

  /** With at most `c` attempts of a key in flight its count never exceeds the limit by more than `c - 1`. */
  lemma CountBounded(states: seq<Failures>, attempts: seq<Attempt>, key: string, n: nat, c: nat, max: nat,
                     lockout: real)
    requires max > 0 && c > 0 && Run(states, attempts, max, lockout) && key !in states[0]
    requires Clocked(attempts, key) && AtMost(attempts, key, c) && n <= |attempts|
    ensures CountAt(states, attempts, key, n, max, lockout) <= max + c - 1
    ensures EntryOf(states[n], key).count == CountAt(states, attempts, key, n, max, lockout)
  {
    TracksAlong(states, attempts, key, n, max, lockout);
    assert |states| == |attempts| + 1;
    assert forall i :: 0 <= i < |attempts| ==> RunsAt(states, attempts, i, max, lockout);
    hide Run, Clocked, FailTimes, Handles;
    if CountAt(states, attempts, key, n, max, lockout) >= max {
      var full := FullWas(states, attempts, key, n, max, lockout);
      assert CountsFrom(states, attempts, key, full, n, max, lockout);
      hide Counted, CountAt;
      var since := FailsWithin(states, attempts, key, full, n, max, lockout);
      assert since + {full} <= InFlight(attempts, key, full);
      SubsetSize(since + {full}, InFlight(attempts, key, full));
      assert |since + {full}| == |since| + 1;
    }
  }

  /** A failure of the key is registered while the key is locked. */
  predicate Slips(states: seq<Failures>, attempts: seq<Attempt>, key: string, i: nat, max: nat, lockout: real)
    requires i < |attempts| < |states|
  {
    Fails(states, attempts, key, i, max, lockout) && Locked(states[i], key, attempts[i].registeredAt, max, lockout)
  }

  lemma SlipsOver(states: seq<Failures>, attempts: seq<Attempt>, key: string, i: nat, max: nat, lockout: real)
    requires max > 0 && Run(states, attempts, max, lockout) && key !in states[0]
    requires i < |attempts|
    ensures Slips(states, attempts, key, i, max, lockout) ==>
              CountAt(states, attempts, key, i + 1, max, lockout) > max
    ensures !Slips(states, attempts, key, i, max, lockout) && CountAt(states, attempts, key, i, max, lockout) <= max ==>
              CountAt(states, attempts, key, i + 1, max, lockout) <= max
  {
    LockedIff(states, attempts, key, i, attempts[i].registeredAt, max, lockout);
    CountMore(states, attempts, key, i, max, lockout);
    NoTimes(states, attempts, key, i, max, lockout);
    hide Run, Fails, Locked, Counted, FailTimes;
  }

  lemma NoTimes(states: seq<Failures>, attempts: seq<Attempt>, key: string, n: nat, max: nat, lockout: real)
    requires n <= |attempts| < |states|
    ensures FailTimes(states, attempts, key, n, max, lockout) == [] ==>
              CountAt(states, attempts, key, n, max, lockout) == 0
  {
    hide FailTimes;
  }

  /** The limit is kept all along exactly when no failure that was let through is registered while the key is locked. */
  lemma {:induction false} LimitKeptIff(states: seq<Failures>, attempts: seq<Attempt>, key: string, n: nat, max: nat,
                                        lockout: real)
    requires max > 0 && Run(states, attempts, max, lockout) && key !in states[0]
    requires n <= |attempts|
    ensures (forall p :: 0 <= p <= n ==> CountAt(states, attempts, key, p, max, lockout) <= max) <==>
            (forall i :: 0 <= i < n ==> !Slips(states, attempts, key, i, max, lockout))
  {
    assert |states| == |attempts| + 1;
    hide Run, CountAt, Slips;
    if n == 0 {
      NoCount(states, attempts, key, max, lockout);
    } else {
      LimitKeptIff(states, attempts, key, n - 1, max, lockout);
      SlipsOver(states, attempts, key, n - 1, max, lockout);
    }
  }

  // ---------------------------------------------------------------- rate

  /** The failures fit `l` to each start of the count, and each new start has taken a lockout. */
  predicate Spread(times: seq<real>, l: nat, max: nat, lockout: real) {
    times != [] ==>
      var n, r := |times|, Restarts(times, max, lockout);
      && n <= r * l + Counted(times, max, lockout)
      && times[n - 1] - times[0] >= lockout * (r as real)
  }

  lemma SpreadMore(times: seq<real>, now: real, l: nat, max: nat, lockout: real)
    requires lockout >= 0.0 && Spread(times, l, max, lockout) && Counted(times, max, lockout) <= l
    requires times != [] ==> times[|times| - 1] <= now
    ensures Spread(times + [now], l, max, lockout)
  {
    OneMore(times, now, max, lockout);
    NothingYet(max, lockout);
    hide Counted, Restarts;
    var next, r := times + [now], Restarts(times, max, lockout);
    assert |next| == |times| + 1 && next[|times|] == now;
    if times == [] {
      assert Restarts(next, max, lockout) == 0;
      assert lockout * (0 as real) == 0.0;
    } else {
      assert next[0] == times[0];
      RoomForOne(|times|, r, Counted(times, max, lockout), l);
      LockoutMore(lockout, r);
    }
  }

  lemma RoomForOne(n: nat, r: nat, counted: nat, l: nat)
    requires n <= r * l + counted && counted <= l
    ensures n + 1 <= (r + 1) * l + 1
  {
    assert (r + 1) * l == r * l + l;
  }

  lemma LockoutMore(lockout: real, r: nat)
    ensures lockout * ((r + 1) as real) == lockout * (r as real) + lockout
  {
  }

  lemma NothingYet(max: nat, lockout: real)
    ensures Counted([], max, lockout) == 0 && Restarts([], max, lockout) == 0
  {
  }

  lemma SpreadStep(states: seq<Failures>, attempts: seq<Attempt>, key: string, n: nat, l: nat, max: nat, lockout: real)
    requires lockout >= 0.0 && n < |attempts| < |states| && Clocked(attempts, key)
    requires Spread(FailTimes(states, attempts, key, n, max, lockout), l, max, lockout)
    requires CountAt(states, attempts, key, n, max, lockout) <= l
    ensures Spread(FailTimes(states, attempts, key, n + 1, max, lockout), l, max, lockout)
  {
    MoreTimes(states, attempts, key, n, max, lockout);
    CountIs(states, attempts, key, n, max, lockout);
    if Fails(states, attempts, key, n, max, lockout) {
      LastBefore(states, attempts, key, n, max, lockout);
      hide *;
      SpreadMore(FailTimes(states, attempts, key, n, max, lockout), attempts[n].registeredAt, l, max, lockout);
    } else {
      hide *;
    }
  }

  lemma {:induction false} SpreadAlong(states: seq<Failures>, attempts: seq<Attempt>, key: string, n: nat, c: nat,
                                       max: nat, lockout: real)
    requires max > 0 && c > 0 && lockout >= 0.0
    requires Run(states, attempts, max, lockout) && key !in states[0]
    requires Clocked(attempts, key) && AtMost(attempts, key, c) && n <= |attempts|
    ensures Spread(FailTimes(states, attempts, key, n, max, lockout), max + c - 1, max, lockout)
  {
    assert |states| == |attempts| + 1;
    hide *;
    if n == 0 {
      NoneSpread(states, attempts, key, max + c - 1, max, lockout);
    } else {
      SpreadAlong(states, attempts, key, n - 1, c, max, lockout);
      CountBounded(states, attempts, key, n - 1, c, max, lockout);
      SpreadStep(states, attempts, key, n - 1, max + c - 1, max, lockout);
    }
  }

  lemma NoneSpread(states: seq<Failures>, attempts: seq<Attempt>, key: string, l: nat, max: nat, lockout: real)
    requires |attempts| < |states|
    ensures Spread(FailTimes(states, attempts, key, 0, max, lockout), l, max, lockout)
  {
  }

  lemma LastBefore(states: seq<Failures>, attempts: seq<Attempt>, key: string, n: nat, max: nat, lockout: real)
    requires n < |attempts| < |states| && Clocked(attempts, key)
    requires Fails(states, attempts, key, n, max, lockout)
    ensures var times := FailTimes(states, attempts, key, n, max, lockout);
            times != [] ==> times[|times| - 1] <= attempts[n].registeredAt
  {
    LastFailTime(states, attempts, key, n, max, lockout);
    hide AnswerTo;
  }

  lemma QuotientAbove(n: nat, r: nat, l: nat)
    requires l > 0 && n / l > r
    ensures n >= r * l + l
  {
    MulMono(r + 1, n / l, l);
    assert (r + 1) * l == r * l + l;
  }

  lemma QuotientAtMost(n: nat, r: nat, l: nat)
    requires l > 0 && n < r * l + l
    ensures n / l <= r
  {
    if n / l > r {
      QuotientAbove(n, r, l);
    }
  }

  /** With at most `c` attempts of a key in flight, its registered failures span at least one lockout per
      `max + c - 1` of them that came before the last. */
  lemma FailuresAreSpread(states: seq<Failures>, attempts: seq<Attempt>, key: string, c: nat, max: nat, lockout: real)
    requires max > 0 && c > 0 && lockout >= 0.0
    requires Run(states, attempts, max, lockout) && key !in states[0]
    requires Clocked(attempts, key) && AtMost(attempts, key, c)
    ensures var times := FailTimes(states, attempts, key, |attempts|, max, lockout);
            times != [] ==>
              times[|times| - 1] - times[0] >= lockout * (((|times| - 1) / (max + c - 1)) as real)
  {
    var n, l := |attempts|, max + c - 1;
    SpreadAlong(states, attempts, key, n, c, max, lockout);
    CountBounded(states, attempts, key, n, c, max, lockout);
    var times := FailTimes(states, attempts, key, n, max, lockout);
    hide Run, Clocked, AtMost, FailTimes;
    SpanOf(times, l, max, lockout);
  }

  lemma SpanOf(times: seq<real>, l: nat, max: nat, lockout: real)
    requires l > 0 && lockout >= 0.0 && Spread(times, l, max, lockout) && Counted(times, max, lockout) <= l
    ensures times != [] ==> times[|times| - 1] - times[0] >= lockout * (((|times| - 1) / l) as real)
  {
    hide Counted, Restarts;
    if times != [] {
      var r, q := Restarts(times, max, lockout), (|times| - 1) / l;
      QuotientAtMost(|times| - 1, r, l);
      assert lockout * (q as real) <= lockout * (r as real);
    }
  }

  lemma FirstRegisters(m: Failures, key: string, now: real, max: nat, lockout: real)
    requires |m| <= EVICTION_LIMIT
    ensures Registers(m, m[key := Bumped(EntryOf(m, key), now, max, lockout)], key, now, max, lockout)
  {
    assert Evicts(m, {}) && m - {} == m;
  }

  /** The share of attempts in flight is needed: of two attempts at once both can fail within one instant although the
      limit is one failure per lockout. */
  lemma TwoAtOnce(empty: Failures, key: string, lockout: real)
    requires empty == map[] && lockout > 0.0
    ensures var a := Attempt(key, 0, 0.0, 0.0, false);
            var once, twice := empty[key := Entry(1, 0.0)], empty[key := Entry(2, 0.0)];
            var states := [empty, once, twice];
            && Run(states, [a, a], 1, lockout) && key !in states[0] && Clocked([a, a], key)
            && FailTimes(states, [a, a], key, 2, 1, lockout) == [0.0, 0.0]
  {
    var a := Attempt(key, 0, 0.0, 0.0, false);
    var once, twice := empty[key := Entry(1, 0.0)], empty[key := Entry(2, 0.0)];
    var states := [empty, once, twice];
    FirstRegisters(empty, key, 0.0, 1, lockout);
    FirstRegisters(once, key, 0.0, 1, lockout);
    assert once[key := Entry(2, 0.0)] == twice;
    assert AnswerTo(empty, a, 1, lockout) == Rejected;
    assert RunsAt(states, [a, a], 0, 1, lockout) && RunsAt(states, [a, a], 1, 1, lockout);
    assert Fails(states, [a, a], key, 0, 1, lockout) && Fails(states, [a, a], key, 1, 1, lockout);
    hide Registers, Handles, Fails, AnswerTo;
    assert FailTimes(states, [a, a], key, 1, 1, lockout) == [0.0];
  }

  // ---------------------------------------------------------------- one attempt at a time

  lemma NextRemainder(k: nat, max: nat)
    requires max > 0
    ensures k == 0 ==> k % max + 1 == 1
    ensures k > 0 && (k - 1) % max + 1 < max ==> k % max == (k - 1) % max + 1
    ensures k > 0 && (k - 1) % max + 1 == max ==> k % max == 0
  {
    if k > 0 {
      var q, r := (k - 1) / max, (k - 1) % max;
      assert k - 1 == q * max + r;
      if r + 1 < max {
        QuotientIs(k, q, max);
      } else {
        assert (q + 1) * max == q * max + max;
        QuotientIs(k, q + 1, max);
      }
    }
  }

  lemma NextCount(k: nat, counted: nat, again: bool, next: nat, max: nat)
    requires max > 0 && counted == if k == 0 then 0 else (k - 1) % max + 1
    requires next == (if again then 1 else counted + 1) && next <= max && (again ==> counted >= max)
    ensures next == k % max + 1
  {
    NextRemainder(k, max);
  }

  /** When the attempts of a key come one at a time, its failures count up to the limit and from one again. */
  lemma {:induction false} OneAtATime(states: seq<Failures>, attempts: seq<Attempt>, key: string, n: nat, max: nat,
                                      lockout: real)
    requires max > 0 && Run(states, attempts, max, lockout) && key !in states[0]
    requires Clocked(attempts, key) && AtMost(attempts, key, 1) && n <= |attempts|
    ensures var k := |FailTimes(states, attempts, key, n, max, lockout)|;
            CountAt(states, attempts, key, n, max, lockout) == if k == 0 then 0 else (k - 1) % max + 1
  {
    assert |states| == |attempts| + 1;
    hide *;
    if n == 0 {
      NoCount(states, attempts, key, max, lockout);
    } else {
      var last := n - 1;
      OneAtATime(states, attempts, key, last, max, lockout);
      CountBounded(states, attempts, key, n, 1, max, lockout);
      MoreTimes(states, attempts, key, last, max, lockout);
      CountMore(states, attempts, key, last, max, lockout);
      if Fails(states, attempts, key, last, max, lockout) && !Clears(states, attempts, key, last, max, lockout) {
        NextCount(|FailTimes(states, attempts, key, last, max, lockout)|,
                  CountAt(states, attempts, key, last, max, lockout), Again(states, attempts, key, last, max, lockout),
                  CountAt(states, attempts, key, n, max, lockout), max);
      }
    }
  }

  /** Then a key is locked exactly when its last failure was number `max`, `2 * max`, ... less than a lockout ago. */
  lemma OneAtATimeLocked(states: seq<Failures>, attempts: seq<Attempt>, key: string, n: nat, now: real, max: nat,
                         lockout: real)
    requires max > 0 && Run(states, attempts, max, lockout) && key !in states[0]
    requires Clocked(attempts, key) && AtMost(attempts, key, 1) && n <= |attempts|
    ensures var times := FailTimes(states, attempts, key, n, max, lockout);
            Locked(states[n], key, now, max, lockout) <==>
              times != [] && |times| % max == 0 && now < times[|times| - 1] + lockout
  {
    LockedIff(states, attempts, key, n, now, max, lockout);
    OneAtATime(states, attempts, key, n, max, lockout);
    hide Run, FailTimes, Clocked, AtMost, Locked, Counted;
    var k := |FailTimes(states, attempts, key, n, max, lockout)|;
    NextRemainder(k, max);
  }
}
