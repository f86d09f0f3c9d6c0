/** One ingest run: fetch the enabled sources, record what changed, derive the union, look up one batch. */
module MalIngest {
  import opened Prelude
  import opened MalTables
  import opened DubRuns
  import MalStore

  /** What the network answers when a source is fetched. */
  datatype Response = NoAnswer | Answer(body: Body, httpStatus: nat)

  datatype Status = Finished | AllSourcesFailed | ClientIdMissing

  datatype Report = Report(status: Status, failed: seq<Source>, sameLists: bool, unionChanged: nat,
                           batch: seq<int>, apiCalls: nat)

  const MAX_BATCH := 500

  /** The request's batch size if given, else the configured one, kept within 1..500. */
  function BatchLimit(configured: int, requested: Option<int>): (b: nat)
    ensures var raw := if requested.Some? then requested.value else configured;
            b == if raw <= 1 then 1 else if raw >= 500 then 500 else raw
  {
    var raw := if requested.Some? then requested.value else configured;
    if raw < 1 then 1 else if raw > MAX_BATCH then MAX_BATCH else raw
  }

  function EventOf(source: Source, r: Response): Event {
    match r
    case NoAnswer => Unreachable(source)
    case Answer(body, httpStatus) => Delivered(source, body, httpStatus)
  }

  function SourceEvents(specs: seq<Source>, fetch: Source -> Response): seq<Event> {
    seq(|specs|, i requires 0 <= i < |specs| => EventOf(specs[i], fetch(specs[i])))
  }

  /** One lookup per id; `doneAt` is when its answer is stored. */
  function LookupEvents(ids: seq<int>, lookup: int -> MalTables.Lookup, doneAt: int -> int): seq<Event> {
    seq(|ids|, i requires 0 <= i < |ids| => Event.Lookup(ids[i], lookup(ids[i]), doneAt(ids[i])))
  }

  /** No source answered with a list that parses. */
  predicate AllFailed(specs: seq<Source>, fetch: Source -> Response, wire: Wire) {
    forall i :: 0 <= i < |specs| ==> !Accepted(EventOf(specs[i], fetch(specs[i])), wire)
  }

  /** The sources that count as failed, in order. */
  function FailedOf(specs: seq<Source>, fetch: Source -> Response, wire: Wire): seq<Source> {
    if specs == [] then []
    else
      var last := specs[|specs| - 1];
      FailedOf(specs[..|specs| - 1], fetch, wire) + (if Accepted(EventOf(last, fetch(last)), wire) then [] else [last])
  }

  lemma {:induction false} FailedOfAll(specs: seq<Source>, fetch: Source -> Response, wire: Wire)
    ensures |FailedOf(specs, fetch, wire)| <= |specs|
    ensures |FailedOf(specs, fetch, wire)| == |specs| <==> AllFailed(specs, fetch, wire)
  {
    hide Accepted;
    if specs != [] {
      var n := |specs| - 1;
      FailedOfAll(specs[..n], fetch, wire);
      assert forall i :: 0 <= i < n ==> specs[..n][i] == specs[i];
    }
  }

  /** A source's list is accepted and has the hash on record. */
  predicate Unchanged(db: Db, source: Source, r: Response, wire: Wire) {
    Accepted(EventOf(source, r), wire) && LatestSha(db.fetches, source) == Some(wire.hash(r.body))
  }

  predicate AllUnchanged(db: Db, specs: seq<Source>, fetch: Source -> Response, wire: Wire) {
    forall i :: 0 <= i < |specs| ==> Unchanged(db, specs[i], fetch(specs[i]), wire)
  }

  /** The tables after the source loop and the union. */
  function AfterUnion(db: Db, specs: seq<Source>, fetch: Source -> Response, wire: Wire): Db {
    Unioned(ApplyAll(db, SourceEvents(specs, fetch), wire), Elements(specs))
  }

  /** The whole run on the tables. It ends early when every source failed, or, after the union, when there is
      something to look up and no client id. */
  method Run(store: MalStore.Store, specs: seq<Source>, fetch: Source -> Response, wire: Wire,
             batch: nat, hasClientId: bool, lookup: int -> MalTables.Lookup, now: int, doneAt: int -> int)
    returns (report: Report)
    modifies store
    ensures report.status == AllSourcesFailed <==> specs != [] && AllFailed(specs, fetch, wire)
    ensures report.status == AllSourcesFailed ==> store.View() == old(store.View())
    ensures report.status != AllSourcesFailed ==>
              report.batch ==
              Smallest(NeedingLookup(AfterUnion(old(store.View()), specs, fetch, wire).anime, now), batch)
    ensures report.status == ClientIdMissing <==>
              report.status != AllSourcesFailed && !hasClientId && report.batch != []
    ensures report.status == ClientIdMissing ==> store.View() == AfterUnion(old(store.View()), specs, fetch, wire)
    ensures report.status == Finished ==>
              && store.View() == ApplyAll(AfterUnion(old(store.View()), specs, fetch, wire),
                                          LookupEvents(report.batch, lookup, doneAt), wire)
              && report.apiCalls == |report.batch|
    ensures report.status != AllSourcesFailed ==>
              report.unionChanged ==
              Changed(ApplyAll(old(store.View()), SourceEvents(specs, fetch), wire), Elements(specs))
    ensures report.failed == FailedOf(specs, fetch, wire)
    ensures report.status != AllSourcesFailed ==>
              (report.sameLists <==> specs != [] && AllUnchanged(old(store.View()), specs, fetch, wire))
  {
    var failed, sameLists := FetchAll(store, specs, fetch, wire);
    FailedOfAll(specs, fetch, wire);
    if specs != [] && |failed| == |specs| {
      return Report(AllSourcesFailed, failed, false, 0, [], 0);
    }
    var changed := store.RecomputeDubUnion(Elements(specs));
    var pending := store.ListAnimeNeedingMalFetch(batch, now);
    if pending != [] && !hasClientId {
      return Report(ClientIdMissing, failed, sameLists, changed, pending, 0);
    }
    LookUpAll(store, pending, lookup, doneAt, wire);
    report := Report(Finished, failed, sameLists, changed, pending, |pending|);
  }

  method FetchAll(store: MalStore.Store, specs: seq<Source>, fetch: Source -> Response, wire: Wire)
    returns (failed: seq<Source>, sameLists: bool)
    modifies store
    ensures store.View() == ApplyAll(old(store.View()), SourceEvents(specs, fetch), wire)
    ensures failed == FailedOf(specs, fetch, wire)
    ensures AllFailed(specs, fetch, wire) ==> store.View() == old(store.View())
    ensures sameLists <==> specs != [] && AllUnchanged(old(store.View()), specs, fetch, wire)
    ensures sameLists ==> store.View() == old(store.View())
  {
    hide Accepted, Apply, Parse, LatestSha, Unchanged, EventOf;
    ghost var before := store.View();
    ghost var events := SourceEvents(specs, fetch);
    failed, sameLists := [], specs != [];
    for i := 0 to |specs|
      invariant store.View() == ApplyAll(before, events[..i], wire)
      invariant failed == FailedOf(specs[..i], fetch, wire)
      invariant AllFailed(specs[..i], fetch, wire) ==> store.View() == before
      invariant sameLists <==> specs != [] && AllUnchanged(before, specs[..i], fetch, wire)
      invariant sameLists ==> store.View() == before
    {
      var accepted, skipped := FetchOne(store, specs[i], fetch(specs[i]), wire);
      if !accepted {
        failed := failed + [specs[i]];
      }
      sameLists := sameLists && accepted && skipped;
      assert events[..i + 1] == events[..i] + [events[i]];
      ApplyOneMore(before, events[..i], events[i], wire);
      assert specs[..i + 1] == specs[..i] + [specs[i]];
    }
    assert events[..|specs|] == events && specs[..|specs|] == specs;
  }

  method LookUpAll(store: MalStore.Store, ids: seq<int>, lookup: int -> MalTables.Lookup, doneAt: int -> int,
                   ghost wire: Wire)
    modifies store
    ensures store.View() == ApplyAll(old(store.View()), LookupEvents(ids, lookup, doneAt), wire)
  {
    ghost var before := store.View();
    ghost var looks := LookupEvents(ids, lookup, doneAt);
    for i := 0 to |ids|
      invariant store.View() == ApplyAll(before, looks[..i], wire)
    {
      store.UpsertAnimeFromMalApi(ids[i], lookup(ids[i]), doneAt(ids[i]));
      assert looks[..i + 1] == looks[..i] + [looks[i]];
      ApplyOneMore(before, looks[..i], looks[i], wire);
    }
    assert looks[..|ids|] == looks;
  }

  /** One source: drop a bad answer, skip an unchanged list, otherwise log the fetch and record the list. */
  method FetchOne(store: MalStore.Store, source: Source, r: Response, wire: Wire)
    returns (accepted: bool, skipped: bool)
    modifies store
    ensures store.View() == Apply(old(store.View()), EventOf(source, r), wire)
    ensures accepted <==> Accepted(EventOf(source, r), wire)
    ensures accepted <==> r.Answer? && 200 <= r.httpStatus <= 299 && Parse(source, wire.decode(r.body)).Some?
    ensures accepted ==> (skipped <==> LatestSha(old(store.fetches), source) == Some(wire.hash(r.body)))
    ensures accepted && skipped <==> Unchanged(old(store.View()), source, r, wire)
    ensures !accepted || skipped ==> store.View() == old(store.View())
  {
    if r.NoAnswer? || !(200 <= r.httpStatus < 300) {
      return false, false;
    }
    var lists := Parse(source, wire.decode(r.body));
    if lists.None? {
      return false, false;
    }
    accepted := true;
    var sha := wire.hash(r.body);
    var latest := store.LatestDubListSha(source);
    if latest == Some(sha) {
      return true, true;
    }
    var fetchId := store.InsertDubListFetch(source, sha, r.httpStatus);
    var _ := store.UpsertDubSourceSnapshot(fetchId, source, lists.value.dubbed, lists.value.partial);
    assert lists.value.partial - lists.value.dubbed == lists.value.partial;
    skipped := false;
  }

  /** What an ingest run has done by its union continues the event history of a reachable database. */
  lemma AfterUnionIsARun(events: seq<Event>, specs: seq<Source>, fetch: Source -> Response, wire: Wire)
    ensures AfterUnion(DubRuns.Run(events, wire), specs, fetch, wire)
         == DubRuns.Run(events + SourceEvents(specs, fetch) + [Union(Elements(specs))], wire)
  {
    ApplyAllTwice(EMPTY_DB, events, SourceEvents(specs, fetch), wire);
    ApplyOneMore(EMPTY_DB, events + SourceEvents(specs, fetch), Union(Elements(specs)), wire);
  }

  /** A whole ingest run from a reachable database, its lookups included, is a continuation of its event history, so
      every theorem about histories holds after any sequence of ingest runs. */
  lemma IngestRunIsARun(events: seq<Event>, specs: seq<Source>, fetch: Source -> Response, wire: Wire, ids: seq<int>,
                        lookup: int -> MalTables.Lookup, doneAt: int -> int)
    ensures ApplyAll(AfterUnion(DubRuns.Run(events, wire), specs, fetch, wire), LookupEvents(ids, lookup, doneAt), wire)
         == DubRuns.Run(events + SourceEvents(specs, fetch) + [Union(Elements(specs))]
                        + LookupEvents(ids, lookup, doneAt), wire)
  {
    hide AfterUnion;
    AfterUnionIsARun(events, specs, fetch, wire);
    ApplyAllTwice(EMPTY_DB, events + SourceEvents(specs, fetch) + [Union(Elements(specs))],
                  LookupEvents(ids, lookup, doneAt), wire);
  }
}
