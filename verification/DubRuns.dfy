/** Whole runs of the dub-list pipeline: what the membership rows and dub flags are after any
    sequence of fetches, parse failures, prunes, resets, unions and lookups.
  */
module DubRuns {
  import opened Prelude
  import opened MalTables

  // ---------------------------------------------------------------- events

  datatype Event =
    | Delivered(source: Source, body: Body, httpStatus: nat)
    | Unreachable(source: Source)
    | Prune(keep: int)
    | Reset
    | Union(enabled: set<Source>)
    | Lookup(id: int, outcome: MalTables.Lookup, at: int)

  /** Persist a parsed list unless its hash is the newest successful one of its source. */
  function Persisted(db: Db, source: Source, sha: string, httpStatus: nat, l: Lists): Db {
    if LatestSha(db.fetches, source) == Some(sha) then db
    else Recorded(Logged(db, source, sha, httpStatus), db.nextFetchId, source, l)
  }

  /** The response was 2xx and its payload parsed. */
  predicate Accepted(e: Event, wire: Wire) {
    e.Delivered? && 200 <= e.httpStatus < 300 && Parse(e.source, wire.decode(e.body)).Some?
  }

  /** One event. A status that is not 2xx and a payload that does not parse are both dropped. */
  function Apply(db: Db, e: Event, wire: Wire): Db {
    match e
    case Delivered(source, body, httpStatus) =>
      if Accepted(e, wire)
        then Persisted(db, source, wire.hash(body), httpStatus, Parse(source, wire.decode(body)).value)
      else db
    case Unreachable(_) => db
    case Prune(keep) => Pruned(db, keep)
    case Reset => EMPTY_DB
    case Union(enabled) => Unioned(db, enabled)
    case Lookup(id, outcome, at) => LookedUp(db, id, outcome, at)
  }

  /** The same without the hash shortcut: every parsed list is recorded again. */
  function ApplyAlways(db: Db, e: Event, wire: Wire): Db {
    if Accepted(e, wire) then
      Recorded(Logged(db, e.source, wire.hash(e.body), e.httpStatus), db.nextFetchId, e.source,
               Parse(e.source, wire.decode(e.body)).value)
    else
      Apply(db, e, wire)
  }

  function ApplyAll(db: Db, events: seq<Event>, wire: Wire): Db {
    if events == [] then db
    else Apply(ApplyAll(db, events[..|events| - 1], wire), events[|events| - 1], wire)
  }

  function Run(events: seq<Event>, wire: Wire): Db {
    ApplyAll(EMPTY_DB, events, wire)
  }

  lemma ApplyOneMore(db: Db, events: seq<Event>, e: Event, wire: Wire)
    ensures ApplyAll(db, events + [e], wire) == Apply(ApplyAll(db, events, wire), e, wire)
  {
    assert (events + [e])[..|events|] == events;
  }

  lemma {:induction false} ApplyAllTwice(db: Db, first: seq<Event>, second: seq<Event>, wire: Wire)
    ensures ApplyAll(db, first + second, wire) == ApplyAll(ApplyAll(db, first, wire), second, wire)
  {
    hide Apply;
    if second == [] {
      assert first + second == first;
    } else {
      var n := |second| - 1;
      ApplyAllTwice(db, first, second[..n], wire);
      assert first + second == (first + second[..n]) + [second[n]];
      ApplyOneMore(db, first + second[..n], second[n], wire);
    }
  }

  function RunAlways(events: seq<Event>, wire: Wire): Db {
    if events == [] then EMPTY_DB
    else ApplyAlways(RunAlways(events[..|events| - 1], wire), events[|events| - 1], wire)
  }

  /** The body a source counts as accepted after one more event. */
  function NewestAccepted(before: Option<Body>, e: Event, source: Source, wire: Wire): Option<Body> {
    if e.Reset? then None
    else if Accepted(e, wire) && e.source == source then Some(e.body)
    else before
  }

  /** The newest body of a source that arrived and parsed since the last reset. */
  function LastAccepted(events: seq<Event>, source: Source, wire: Wire): Option<Body> {
    if events == [] then None
    else NewestAccepted(LastAccepted(events[..|events| - 1], source, wire), events[|events| - 1], source, wire)
  }

  ghost predicate Injective(wire: Wire) {
    forall p, q :: wire.hash(p) == wire.hash(q) ==> p == q
  }

  // ---------------------------------------------------------------- what every step keeps

  predicate Increasing(fetches: seq<Fetch>, bound: nat) {
    (forall i :: 0 <= i < |fetches| ==> fetches[i].id < bound) &&
    (forall i, j :: 0 <= i < j < |fetches| ==> fetches[i].id < fetches[j].id)
  }

  predicate FlagsAgree(a: Anime) {
    (a.isDubbed <==> a.dubStatus != NoDub) && (a.isDubbed <==> a.sourceCount > 0)
  }

  /** Keys, references and flags of every reachable database. */
  predicate Consistent(db: Db) {
    Increasing(db.fetches, db.nextFetchId) &&
    (forall i :: 0 <= i < |db.fetches| ==> Succeeded(db.fetches[i])) &&
    (forall k :: k in db.items ==> k.fetchId in FetchIds(db.fetches)) &&
    (forall k :: k in db.members ==> k.id in db.anime) &&
    (forall k :: k in db.members && db.members[k].lastFetch.Some? ==>
       db.members[k].lastFetch.value in FetchIds(db.fetches)) &&
    (forall id :: id in db.anime ==> FlagsAgree(db.anime[id]))
  }

  lemma UnionColumnsAgree(a: Anime, statuses: map<MemberKey, Listing>, id: int, enabled: set<Source>)
    ensures FlagsAgree(WithDubColumns(a, UnionColumns(statuses, id, enabled)))
  {
  }

  lemma RecordedConsistent(db: Db, source: Source, sha: string, httpStatus: nat, l: Lists)
    requires Consistent(db) && httpStatus < 400
    ensures Consistent(Recorded(Logged(db, source, sha, httpStatus), db.nextFetchId, source, l))
  {
    var logged := Logged(db, source, sha, httpStatus);
    var after := Recorded(logged, db.nextFetchId, source, l);
    assert after.fetches[|db.fetches|].id == db.nextFetchId;
    assert db.nextFetchId in FetchIds(after.fetches);
    forall x | x in FetchIds(db.fetches) ensures x in FetchIds(after.fetches) {
      var f :| f in db.fetches && f.id == x;
      assert f in after.fetches;
    }
  }

  lemma {:induction false} PrunedIsPart(fetches: seq<Fetch>, keep: nat)
    ensures forall f :: f in PrunedFetches(fetches, keep) ==> f in fetches
    ensures forall bound :: Increasing(fetches, bound) ==> Increasing(PrunedFetches(fetches, keep), bound)
  {
    if fetches != [] {
      PrunedIsPart(fetches[1..], keep);
      var rest := PrunedFetches(fetches[1..], keep);
      var kept := PrunedFetches(fetches, keep);
      assert kept == rest || kept == [fetches[0]] + rest;
      forall bound | Increasing(fetches, bound) ensures Increasing(kept, bound) {
        assert Increasing(fetches[1..], bound);
        forall j | 0 <= j < |rest| ensures fetches[0].id < rest[j].id {
          assert rest[j] in fetches[1..];
        }
      }
    }
  }

  lemma PrunedConsistent(db: Db, keep: int)
    requires Consistent(db)
    ensures Consistent(Pruned(db, keep))
  {
    PrunedIsPart(db.fetches, AtLeastOne(keep));
    var kept := PrunedFetches(db.fetches, AtLeastOne(keep));
    forall i | 0 <= i < |kept| ensures Succeeded(kept[i]) {
      assert kept[i] in db.fetches;
    }
  }

  lemma StepConsistent(db: Db, e: Event, wire: Wire)
    requires Consistent(db)
    ensures Consistent(Apply(db, e, wire))
    ensures Consistent(ApplyAlways(db, e, wire))
  {
    match e
    case Delivered(source, body, httpStatus) =>
      if Accepted(e, wire) {
        RecordedConsistent(db, source, wire.hash(body), httpStatus, Parse(source, wire.decode(body)).value);
      }
    case Prune(keep) => PrunedConsistent(db, keep);
    case Union(enabled) =>
      forall id | id in db.anime
        ensures FlagsAgree(WithDubColumns(db.anime[id], UnionColumns(Statuses(db.members), id, enabled)))
      {
        UnionColumnsAgree(db.anime[id], Statuses(db.members), id, enabled);
      }
    case _ =>
  }

  /** In every reachable state the flag, the status and the count of an anime say the same thing,
      every membership row has its anime, and every reference to the fetch log resolves. */
  lemma {:induction false} ReachableConsistent(events: seq<Event>, wire: Wire)
    ensures Consistent(Run(events, wire))
    ensures Consistent(RunAlways(events, wire))
  {
    if events != [] {
      var front := events[..|events| - 1];
      ReachableConsistent(front, wire);
      StepConsistent(Run(front, wire), events[|events| - 1], wire);
      StepConsistent(RunAlways(front, wire), events[|events| - 1], wire);
    }
  }

  // ---------------------------------------------------------------- pruning

  /** How many rows of a source there are from its newest successful one on. */
  function NewestSuccessRank(fetches: seq<Fetch>, source: Source): nat {
    if fetches == [] then 0
    else if LatestSha(fetches[1..], source).Some? then NewestSuccessRank(fetches[1..], source)
    else RowsOf(fetches, source)
  }

  /** Pruning leaves the newest successful hash of a source alone exactly when there is none or its row is
      among the newest `keep`; a tail of error rows longer than `keep` would lose it. */
  lemma {:induction false} PruneKeepsLatestSha(fetches: seq<Fetch>, keep: nat, source: Source)
    ensures LatestSha(PrunedFetches(fetches, keep), source) == LatestSha(fetches, source)
       <==> LatestSha(fetches, source).None? || NewestSuccessRank(fetches, source) <= keep
    ensures LatestSha(PrunedFetches(fetches, keep), source).Some? ==> LatestSha(fetches, source).Some?
    ensures LatestSha(fetches, source).Some? && NewestSuccessRank(fetches, source) > keep ==>
              LatestSha(PrunedFetches(fetches, keep), source).None?
  {
    if fetches != [] {
      PruneKeepsLatestSha(fetches[1..], keep, source);
      var rest := PrunedFetches(fetches[1..], keep);
      var kept := PrunedFetches(fetches, keep);
      if RowsOf(fetches, fetches[0].source) > keep {
        assert kept == rest;
      } else {
        assert kept == [fetches[0]] + rest;
        assert kept[0] == fetches[0] && kept[1..] == rest;
      }
      RankBounds(fetches[1..], source);
    }
  }

  lemma RankBounds(fetches: seq<Fetch>, source: Source)
    ensures NewestSuccessRank(fetches, source) <= RowsOf(fetches, source)
    ensures LatestSha(fetches, source).Some? ==> 1 <= NewestSuccessRank(fetches, source)
  {
  }

  lemma {:induction false} AllSucceededRank(fetches: seq<Fetch>, source: Source)
    requires forall i :: 0 <= i < |fetches| ==> Succeeded(fetches[i])
    ensures LatestSha(fetches, source).None? ==> RowsOf(fetches, source) == 0
    ensures NewestSuccessRank(fetches, source) <= 1
  {
    if fetches != [] {
      AllSucceededRank(fetches[1..], source);
    }
  }

  lemma {:induction false} LatestShaOfAppend(fetches: seq<Fetch>, f: Fetch, source: Source)
    requires Succeeded(f)
    ensures LatestSha(fetches + [f], source) ==
            if f.source == source then Some(f.sha) else LatestSha(fetches, source)
  {
    if fetches == [] {
      assert (fetches + [f])[1..] == [];
    } else {
      LatestShaOfAppend(fetches[1..], f, source);
      assert (fetches + [f])[1..] == fetches[1..] + [f];
    }
  }

  // ---------------------------------------------------------------- the hash shortcut

  /** The statuses once a source says `l`. */
  function Overwritten(statuses: map<MemberKey, Listing>, source: Source, l: Lists): map<MemberKey, Listing> {
    var others := set k | k in statuses && k.source != source;
    map k | k in others + ListedKeys(l.dubbed + l.partial, source) ::
      if k.source == source then StatusesOf(l)[k.id] else statuses[k]
  }

  lemma RecordedStatuses(members: map<MemberKey, Member>, fetchId: nat, source: Source, l: Lists)
    ensures Statuses(RecordedMembers(members, fetchId, source, l)) == Overwritten(Statuses(members), source, l)
  {
    var a := Statuses(RecordedMembers(members, fetchId, source, l));
    var b := Overwritten(Statuses(members), source, l);
    assert a.Keys == b.Keys;
  }

  lemma OverwrittenMembership(statuses: map<MemberKey, Listing>, at: Source, l: Lists, source: Source)
    ensures Membership(Overwritten(statuses, at, l), source) ==
            if at == source then StatusesOf(l) else Membership(statuses, source)
  {
    var after := Membership(Overwritten(statuses, at, l), source);
    var expected := if at == source then StatusesOf(l) else Membership(statuses, source);
    forall id ensures id in after <==> id in expected {
      assert MemberKey(id, source) in Overwritten(statuses, at, l) <==>
             if at == source then id in l.dubbed + l.partial else MemberKey(id, source) in statuses;
    }
    assert after.Keys == expected.Keys;
  }

  lemma OverwrittenAgain(statuses: map<MemberKey, Listing>, source: Source, l: Lists)
    requires Membership(statuses, source) == StatusesOf(l)
    ensures Overwritten(statuses, source, l) == statuses
  {
    var m := Membership(statuses, source);
    forall k ensures k in Overwritten(statuses, source, l) <==> k in statuses {
      assert k == MemberKey(k.id, k.source);
      assert k.source == source ==> (k.id in m <==> k in statuses);
    }
    assert Overwritten(statuses, source, l).Keys == statuses.Keys;
    forall k | k in statuses ensures Overwritten(statuses, source, l)[k] == statuses[k] {
      assert k == MemberKey(k.id, k.source);
      assert k.source == source ==> m[k.id] == statuses[k];
    }
  }

  lemma PrunedStatuses(db: Db, keep: int)
    ensures Statuses(Pruned(db, keep).members) == Statuses(db.members)
  {
    assert Statuses(Pruned(db, keep).members).Keys == Statuses(db.members).Keys;
  }

  /** The rows of a source and its kept hash are those of an accepted list, or both are absent. */
  predicate Shows(db: Db, source: Source, l: Option<Lists>, sha: Option<string>) {
    Membership(Statuses(db.members), source) == (if l.None? then map[] else StatusesOf(l.value)) &&
    LatestSha(db.fetches, source) == sha
  }

  lemma PersistedShows(db: Db, at: Source, l: Lists, sha: string, status: nat,
                       source: Source, before: Option<Lists>, beforeSha: Option<string>)
    requires status < 400
    requires Shows(db, source, before, beforeSha)
    requires at == source && beforeSha == Some(sha) ==> before == Some(l)
    ensures Shows(Persisted(db, at, sha, status, l), source,
                  if at == source then Some(l) else before, if at == source then Some(sha) else beforeSha)
  {
    if LatestSha(db.fetches, at) != Some(sha) {
      var logged := Logged(db, at, sha, status);
      RecordedStatuses(db.members, db.nextFetchId, at, l);
      OverwrittenMembership(Statuses(db.members), at, l, source);
      LatestShaOfAppend(db.fetches, logged.fetches[|db.fetches|], source);
    }
  }

  lemma OtherStepsShow(db: Db, e: Event, source: Source, l: Option<Lists>, sha: Option<string>, wire: Wire)
    requires forall i :: 0 <= i < |db.fetches| ==> Succeeded(db.fetches[i])
    requires Shows(db, source, l, sha)
    requires !e.Delivered? && !e.Reset?
    ensures Shows(Apply(db, e, wire), source, l, sha)
  {
    match e
    case Prune(keep) =>
      PrunedStatuses(db, keep);
      AllSucceededRank(db.fetches, source);
      PruneKeepsLatestSha(db.fetches, AtLeastOne(keep), source);
    case _ =>
  }

  function ListsOf(p: Option<Body>, source: Source, wire: Wire): Option<Lists> {
    if p.None? then None else Parse(source, wire.decode(p.value))
  }

  function ShaOf(p: Option<Body>, wire: Wire): Option<string> {
    if p.None? then None else Some(wire.hash(p.value))
  }

  lemma AcceptedShows(db: Db, e: Event, l: Lists, source: Source, p: Option<Body>, wire: Wire)
    requires Injective(wire)
    requires Accepted(e, wire) && Parse(e.source, wire.decode(e.body)) == Some(l)
    requires Shows(db, source, ListsOf(p, source, wire), ShaOf(p, wire))
    ensures Shows(Persisted(db, e.source, wire.hash(e.body), e.httpStatus, l), source,
                  if e.source == source then Some(l) else ListsOf(p, source, wire),
                  if e.source == source then Some(wire.hash(e.body)) else ShaOf(p, wire))
  {
    if p.Some? && wire.hash(p.value) == wire.hash(e.body) {
      assert p.value == e.body;
    }
    PersistedShows(db, e.source, l, wire.hash(e.body), e.httpStatus, source, ListsOf(p, source, wire), ShaOf(p, wire));
  }

  lemma StepShows(db: Db, e: Event, source: Source, p: Option<Body>, wire: Wire)
    requires Injective(wire)
    requires forall i :: 0 <= i < |db.fetches| ==> Succeeded(db.fetches[i])
    requires Shows(db, source, ListsOf(p, source, wire), ShaOf(p, wire))
    ensures var q := NewestAccepted(p, e, source, wire);
            Shows(Apply(db, e, wire), source, ListsOf(q, source, wire), ShaOf(q, wire))
  {
    assert e.Reset? ==> Shows(Apply(db, e, wire), source, None, None) by { EmptyShows(source); }
    hide Shows, Persisted, Pruned, Unioned, LookedUp, Injective, Parse;
    if Accepted(e, wire) {
      AcceptedShows(db, e, Parse(e.source, wire.decode(e.body)).value, source, p, wire);
    } else if !e.Reset? && !e.Delivered? {
      OtherStepsShow(db, e, source, ListsOf(p, source, wire), ShaOf(p, wire), wire);
    }
  }

  lemma EmptyShows(source: Source)
    ensures Shows(EMPTY_DB, source, None, None)
  {
    assert Membership(Statuses(EMPTY_DB.members), source) == map[];
  }

  lemma {:induction false} LogSucceeded(events: seq<Event>, wire: Wire)
    ensures forall i :: 0 <= i < |Run(events, wire).fetches| ==> Succeeded(Run(events, wire).fetches[i])
  {
    ReachableConsistent(events, wire);
  }

  /** Over every run from the empty database, the membership rows of a source are the parse of its last
      accepted body, and the hash kept for it is the hash of that body. */
  lemma {:induction false} MembershipIsLastAccepted(events: seq<Event>, source: Source, wire: Wire)
    requires Injective(wire)
    ensures var p := LastAccepted(events, source, wire);
            Shows(Run(events, wire), source, ListsOf(p, source, wire), ShaOf(p, wire))
  {
    if events != [] {
      var front := events[..|events| - 1];
      MembershipIsLastAccepted(front, source, wire);
      LogSucceeded(front, wire);
      StepShows(Run(front, wire), events[|events| - 1], source, LastAccepted(front, source, wire), wire);
    }
  }

  /** Two databases that differ only in the fetch log and what refers to it. */
  predicate SameData(a: Db, b: Db) {
    a.anime == b.anime && Statuses(a.members) == Statuses(b.members)
  }

  /** One accepted list, with and without the shortcut. */
  lemma PersistedSame(a: Db, b: Db, source: Source, sha: string, status: nat, l: Lists)
    requires SameData(a, b)
    requires forall k :: k in b.members ==> k.id in b.anime
    requires LatestSha(a.fetches, source) == Some(sha) ==> Membership(Statuses(a.members), source) == StatusesOf(l)
    ensures SameData(Persisted(a, source, sha, status, l),
                     Recorded(Logged(b, source, sha, status), b.nextFetchId, source, l))
  {
    RecordedStatuses(b.members, b.nextFetchId, source, l);
    if LatestSha(a.fetches, source) == Some(sha) {
      OverwrittenAgain(Statuses(b.members), source, l);
      forall id | id in l.dubbed + l.partial ensures id in b.anime {
        assert id in StatusesOf(l);
        assert MemberKey(id, source) in b.members;
      }
      assert RecordedAnime(b.anime, l) == b.anime;
    } else {
      RecordedStatuses(a.members, a.nextFetchId, source, l);
    }
  }

  lemma OtherStepsSame(a: Db, b: Db, e: Event, wire: Wire)
    requires SameData(a, b) && !e.Delivered?
    ensures SameData(Apply(a, e, wire), Apply(b, e, wire))
  {
    match e
    case Prune(keep) =>
      PrunedStatuses(a, keep);
      PrunedStatuses(b, keep);
    case _ =>
  }

  lemma StepSame(a: Db, b: Db, e: Event, p: Option<Body>, wire: Wire)
    requires Injective(wire) && SameData(a, b)
    requires forall k :: k in b.members ==> k.id in b.anime
    requires Accepted(e, wire) ==> Shows(a, e.source, ListsOf(p, e.source, wire), ShaOf(p, wire))
    ensures SameData(Apply(a, e, wire), ApplyAlways(b, e, wire))
  {
    if Accepted(e, wire) {
      PersistedSame(a, b, e.source, wire.hash(e.body), e.httpStatus, Parse(e.source, wire.decode(e.body)).value);
    } else if !e.Delivered? {
      OtherStepsSame(a, b, e, wire);
    }
  }

  lemma MembersKnown(events: seq<Event>, wire: Wire)
    ensures forall k :: k in RunAlways(events, wire).members ==> k.id in RunAlways(events, wire).anime
  {
    ReachableConsistent(events, wire);
  }

  /** Skipping on an equal hash leaves exactly the anime rows and membership rows that recording
      every accepted list again would have left. */
  lemma {:induction false} HashSkipIsSound(events: seq<Event>, wire: Wire)
    requires Injective(wire)
    ensures SameData(Run(events, wire), RunAlways(events, wire))
  {
    if events != [] {
      var front := events[..|events| - 1];
      var e := events[|events| - 1];
      HashSkipIsSound(front, wire);
      MembersKnown(front, wire);
      var p := if Accepted(e, wire) then LastAccepted(front, e.source, wire) else None;
      if Accepted(e, wire) {
        MembershipIsLastAccepted(front, e.source, wire);
      }
      StepSame(Run(front, wire), RunAlways(front, wire), e, p, wire);
    }
  }

  // ---------------------------------------------------------------- the union

  /** How many anime rows the conditional update touches. */
  function Changed(db: Db, enabled: set<Source>): nat {
    |set id | id in db.anime && DubColumns(db.anime[id]) != UnionColumns(Statuses(db.members), id, enabled)|
  }

  /** Disabling sources and enabling them again restores every column; a repeated union touches no row. */
  lemma UnionForgets(db: Db, first: set<Source>, second: set<Source>)
    ensures Unioned(Unioned(db, first), second) == Unioned(db, second)
    ensures Changed(Unioned(db, first), first) == 0
  {
    assert Unioned(Unioned(db, first), second).anime == Unioned(db, second).anime;
    var again := Unioned(db, first);
    var touched := set id | id in again.anime &&
                     DubColumns(again.anime[id]) != UnionColumns(Statuses(again.members), id, first);
    assert touched == {};
  }

  /** What the last accepted list of a source says of an id. */
  function Says(events: seq<Event>, source: Source, id: int, wire: Wire): Option<Listing> {
    var l := ListsOf(LastAccepted(events, source, wire), source, wire);
    if l.Some? && id in l.value.dubbed then Some(Dubbed)
    else if l.Some? && id in l.value.partial then Some(Partial)
    else None
  }

  lemma StatusesSay(events: seq<Event>, source: Source, id: int, wire: Wire)
    requires Injective(wire)
    ensures var st := Statuses(Run(events, wire).members);
            Says(events, source, id, wire) ==
            if MemberKey(id, source) in st then Some(st[MemberKey(id, source)]) else None
  {
    MembershipIsLastAccepted(events, source, wire);
    var st := Statuses(Run(events, wire).members);
    var l := ListsOf(LastAccepted(events, source, wire), source, wire);
    assert id in Membership(st, source) <==> MemberKey(id, source) in st;
    if l.Some? {
      assert id in StatusesOf(l.value) <==> id in l.value.dubbed + l.value.partial;
    }
  }

  /** The dub columns of an id, as the enabled sources' last accepted lists give them. */
  predicate ColumnsFollow(a: Anime, events: seq<Event>, enabled: set<Source>, id: int, wire: Wire) {
    var listing := set s | s in enabled && Says(events, s, id, wire).Some?;
    && a.isDubbed == (listing != {})
    && a.sourceCount == |listing|
    && (a.dubStatus == FullDub <==> exists s :: s in enabled && Says(events, s, id, wire) == Some(Dubbed))
    && (a.dubStatus == NoDub <==> listing == {})
  }

  lemma ColumnsFollowStatuses(a: Anime, statuses: map<MemberKey, Listing>, events: seq<Event>,
                              enabled: set<Source>,
                              id: int, wire: Wire)
    requires forall s: Source ::
               Says(events, s, id, wire) == if MemberKey(id, s) in statuses
                 then Some(statuses[MemberKey(id, s)]) else None
    ensures ColumnsFollow(WithDubColumns(a, UnionColumns(statuses, id, enabled)), events, enabled, id, wire)
  {
    hide Says;
    var listing := set s | s in enabled && Says(events, s, id, wire).Some?;
    assert listing == ListedBy(statuses, id, enabled);
    forall s: Source ensures s in listing && statuses[MemberKey(id, s)] == Dubbed
                        <==> s in enabled && Says(events, s, id, wire) == Some(Dubbed) {
    }
  }

  /** After any run and one union, the dub columns of every anime follow from the last accepted list of
      each enabled source alone; every id such a list names has its row. */
  lemma FlagsFollowLists(events: seq<Event>, enabled: set<Source>, id: int, wire: Wire)
    requires Injective(wire)
    ensures var after := Run(events + [Union(enabled)], wire);
            && (id in after.anime ==> ColumnsFollow(after.anime[id], events, enabled, id, wire))
            && (forall s :: s in enabled && Says(events, s, id, wire).Some? ==> id in after.anime)
  {
    hide Says, ColumnsFollow;
    var db := Run(events, wire);
    ApplyOneMore(EMPTY_DB, events, Union(enabled), wire);
    ReachableConsistent(events, wire);
    var st := Statuses(db.members);
    forall s: Source
      ensures Says(events, s, id, wire) == if MemberKey(id, s) in st then Some(st[MemberKey(id, s)]) else None
    {
      StatusesSay(events, s, id, wire);
    }
    if id in db.anime {
      ColumnsFollowStatuses(db.anime[id], st, events, enabled, id, wire);
    }
    forall s | s in enabled && Says(events, s, id, wire).Some? ensures id in db.anime {
      assert MemberKey(id, s) in db.members;
    }
  }

  // ---------------------------------------------------------------- what is looked up

  /** The last lookup of an id since the tables were last emptied: its outcome and when it was stored. */
  function LastLookup(events: seq<Event>, id: int): Option<(MalTables.Lookup, int)> {
    if events == [] || events[|events| - 1].Reset? then None
    else
      var e := events[|events| - 1];
      if e.Lookup? && e.id == id then Some((e.outcome, e.at)) else LastLookup(events[..|events| - 1], id)
  }

  /** The lookup columns of a row after its last lookup. */
  predicate LookupShows(a: Anime, last: Option<(MalTables.Lookup, int)>) {
    match last
    case None => a.lookup == Pending && a.lookedUpAt == None
    case Some((outcome, at)) =>
      && a.lookedUpAt == Some(at)
      && (a.lookup == Success <==> outcome == Data)
      && (a.lookup == NotFound <==> outcome == Missing)
      && (a.lookup == Error <==> outcome == Failed)
  }

  /** A row of the id shows its last lookup, and without a row there was none. */
  predicate RowShows(db: Db, id: int, last: Option<(MalTables.Lookup, int)>) {
    if id in db.anime then LookupShows(db.anime[id], last) else last == None
  }

  lemma StepRowShows(db: Db, e: Event, id: int, last: Option<(MalTables.Lookup, int)>, wire: Wire)
    requires RowShows(db, id, last)
    ensures RowShows(Apply(db, e, wire), id,
                     if e.Reset? then None else if e.Lookup? && e.id == id then Some((e.outcome, e.at)) else last)
  {
    hide Parse, LatestSha, UnionColumns, PrunedFetches;
  }

  lemma {:induction false} LookupsFollow(events: seq<Event>, id: int, wire: Wire)
    ensures RowShows(Run(events, wire), id, LastLookup(events, id))
  {
    hide Apply, RowShows;
    if events == [] {
      NoRowYet(id);
    } else {
      var front := events[..|events| - 1];
      LookupsFollow(front, id, wire);
      StepRowShows(Run(front, wire), events[|events| - 1], id, LastLookup(front, id), wire);
    }
  }

  lemma NoRowYet(id: int)
    ensures RowShows(EMPTY_DB, id, None)
  {
  }

  /** Some enabled source's last accepted list names the id. */
  ghost predicate NamedBy(events: seq<Event>, enabled: set<Source>, wire: Wire, id: int) {
    exists s: Source :: s in enabled && Says(events, s, id, wire).Some?
  }

  /** An id waits for a lookup after any history and a union exactly when an enabled source's last accepted list names
      it and, since the tables were last emptied, it was never looked up, its last lookup failed, or more than fourteen
      days have passed since. */
  lemma WaitingIff(events: seq<Event>, enabled: set<Source>, id: int, now: int, wire: Wire)
    requires Injective(wire)
    ensures id in NeedingLookup(Run(events + [Union(enabled)], wire).anime, now) <==>
              NamedBy(events, enabled, wire, id) &&
              match LastLookup(events, id)
              case None => true
              case Some((outcome, at)) => outcome == Failed || now - at > 14 * 24 * 60 * 60
  {
    FlagsFollowLists(events, enabled, id, wire);
    var listing := set s | s in enabled && Says(events, s, id, wire).Some?;
    if NamedBy(events, enabled, wire, id) {
      var s :| s in enabled && Says(events, s, id, wire).Some?;
      assert s in listing;
    }
    LookupsFollow(events + [Union(enabled)], id, wire);
    assert (events + [Union(enabled)])[..|events|] == events;
    assert LastLookup(events + [Union(enabled)], id) == LastLookup(events, id);
    NeedingLookupAre(Run(events + [Union(enabled)], wire).anime, now, id);
    hide Run, Says, LastLookup;
  }

  /** An id without a row that an enabled source's accepted list names waits for a lookup after the union. */
  lemma FirstNamedWaits(events: seq<Event>, e: Event, enabled: set<Source>, id: int, now: int, wire: Wire)
    requires Injective(wire) && id !in Run(events, wire).anime
    requires Accepted(e, wire) && e.source in enabled
    requires var l := Parse(e.source, wire.decode(e.body)).value; id in l.dubbed || id in l.partial
    ensures id in NeedingLookup(Run(events + [e] + [Union(enabled)], wire).anime, now)
  {
    assert (events + [e])[..|events|] == events;
    LookupsFollow(events, id, wire);
    WaitingIff(events + [e], enabled, id, now, wire);
    hide Run, Parse;
    assert Says(events + [e], e.source, id, wire).Some?;
    assert LastLookup(events + [e], id) == None;
  }
}
