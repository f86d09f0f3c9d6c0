/** The repository statements over the dub-list tables, each proved to leave the tables that
    MalTables describes. One field is one table.
  */
module MalStore {
  import opened Prelude
  import opened MalTables
  import DubRuns

  class Store {
    var nextFetchId: nat
    var fetches: seq<Fetch>
    var items: map<ItemKey, Listing>
    var anime: map<int, Anime>
    var members: map<MemberKey, Member>

    function View(): Db
      reads this
    {
      Db(nextFetchId, fetches, items, anime, members)
    }

    constructor ()
      ensures View() == EMPTY_DB
    {
      nextFetchId, fetches, items, anime, members := 1, [], map[], map[], map[];
    }

    /** Newest successful row of a source, searched from the highest id down. */
    method LatestDubListSha(source: Source) returns (sha: Option<string>)
      ensures sha == LatestSha(fetches, source)
      ensures sha.None? ==> forall i :: 0 <= i < |fetches| ==> !Good(fetches[i], source)
      ensures sha.Some? ==> exists i: nat :: NewestGood(fetches, source, i) && sha == Some(fetches[i].sha)
    {
      LatestShaIs(fetches, source);
      hide Good, NewestGood;
      var i := |fetches|;
      sha := None;
      while i > 0
        invariant 0 <= i <= |fetches|
        invariant sha.None?
        invariant LatestSha(fetches[i..], source).None?
      {
        i := i - 1;
        assert fetches[i..][1..] == fetches[i + 1..];
        if fetches[i].source == source && Succeeded(fetches[i]) {
          sha := Some(fetches[i].sha);
          LatestInSuffix(fetches, i, source);
          return;
        }
      }
      assert fetches[0..] == fetches;
    }

    method InsertDubListFetch(source: Source, sha: string, httpStatus: nat) returns (id: nat)
      modifies this
      ensures View() == Logged(old(View()), source, sha, httpStatus)
      ensures id == old(nextFetchId) && nextFetchId == id + 1
      ensures fetches == old(fetches) + [Fetch(id, source, sha, Some(httpStatus), None)]
      ensures items == old(items) && anime == old(anime) && members == old(members)
    {
      id := nextFetchId;
      fetches := fetches + [Fetch(id, source, sha, Some(httpStatus), None)];
      nextFetchId := nextFetchId + 1;
    }

    /** The three inserts of one pass: snapshot items, bare anime rows, membership rows. */
    method RecordListed(fetchId: nat, source: Source, ids: set<int>, status: Listing)
      modifies this`items, this`anime, this`members
      ensures items == ListedItems(old(items), fetchId, ids, status)
      ensures anime == ListedAnime(old(anime), ids)
      ensures members == Listed(old(members), fetchId, source, ids, status)
    {
      if ids == {} {
        assert ListedItems(items, fetchId, ids, status) == items;
        return;
      }
      items := ListedItems(items, fetchId, ids, status);
      anime := ListedAnime(anime, ids);
      members := Listed(members, fetchId, source, ids, status);
    }

    /** Record one source's list; rows for ids it no longer lists are removed. */
    method UpsertDubSourceSnapshot(fetchId: nat, source: Source, dubbedIds: set<int>, partialIds: set<int>)
      returns (removed: nat)
      modifies this
      ensures View() == Recorded(old(View()), fetchId, source, Lists(dubbedIds, partialIds - dubbedIds))
      ensures ItemsListed(old(items), items, fetchId, dubbedIds, partialIds)
      ensures AnimeListed(old(anime), anime, dubbedIds + partialIds)
      ensures MembersListed(old(members), members, fetchId, source, dubbedIds, partialIds)
      ensures removed == |set k | k in old(members) && k.source == source && k.id !in dubbedIds + partialIds|
      ensures fetches == old(fetches) && nextFetchId == old(nextFetchId)
    {
      RecordedIs(View(), fetchId, source, dubbedIds, partialIds);
      hide ItemsListed, AnimeListed, MembersListed, ListedItems, ListedAnime, Listed, RecordedItems, RecordedMembers;
      ghost var before := View();
      var partial := partialIds - dubbedIds;
      RecordListed(fetchId, source, dubbedIds, Dubbed);
      RecordListed(fetchId, source, partial, Partial);
      var unlisted := Unlisted(members, source, dubbedIds + partial);
      members := members - unlisted;
      removed := |unlisted|;
      assert dubbedIds + partial == dubbedIds + partialIds;
      assert View() == before.(items := items, anime := anime, members := members);
      PassesRecord(before, fetchId, source, Lists(dubbedIds, partial));
    }

    /** The conditional update: only rows whose dub columns differ are written, and they are counted. */
    method RecomputeDubUnion(enabled: set<Source>) returns (changed: nat)
      modifies this`anime
      ensures View() == Unioned(old(View()), enabled)
      ensures changed == DubRuns.Changed(old(View()), enabled)
      ensures anime.Keys == old(anime).Keys
      ensures forall id :: id in anime ==> UnionOf(members, enabled, id, old(anime)[id], anime[id])
      ensures changed == |set id | id in anime && anime[id] != old(anime)[id]|
    {
      UnionedIs(View(), enabled);
      hide UnionOf, UnionColumns;
      var statuses := Statuses(members);
      var differing := set id | id in anime && DubColumns(anime[id]) != UnionColumns(statuses, id, enabled);
      anime := anime + map id | id in differing :: WithDubColumns(anime[id], UnionColumns(statuses, id, enabled));
      changed := |differing|;
      assert anime == Unioned(old(View()), enabled).anime;
    }

    /** The rows of the log numbered up to `keep` when those of each source are numbered from the newest down. */
    method NewestRows(keep: nat) returns (kept: seq<Fetch>)
      ensures kept == PrunedFetches(fetches, keep) && |kept| <= |fetches|
    {
      kept := [];
      var rows := map[MalDubs := 0, MyDubList := 0];
      var i := |fetches|;
      while i > 0
        invariant 0 <= i <= |fetches|
        invariant kept == PrunedFetches(fetches[i..], keep)
        invariant MalDubs in rows && rows[MalDubs] == RowsOf(fetches[i..], MalDubs)
        invariant MyDubList in rows && rows[MyDubList] == RowsOf(fetches[i..], MyDubList)
        invariant |kept| <= |fetches| - i
      {
        i := i - 1;
        assert fetches[i..][1..] == fetches[i + 1..];
        var s := fetches[i].source;
        assert s == MalDubs || s == MyDubList;
        rows := rows[s := rows[s] + 1];
        if rows[s] <= keep {
          kept := [fetches[i]] + kept;
        }
      }
      assert fetches[0..] == fetches;
    }

    /** Delete all but the newest rows of each source, at least one. */
    method PruneDubListFetches(keepPerSource: int) returns (deleted: nat)
      modifies this
      ensures View() == Pruned(old(View()), keepPerSource)
      ensures deleted == |old(fetches)| - |fetches|
      ensures KeepsNewest(old(fetches), fetches, if keepPerSource <= 1 then 1 else keepPerSource)
      ensures ItemsFollow(old(View()), View()) && MembersFollow(old(View()), View())
      ensures anime == old(anime) && nextFetchId == old(nextFetchId)
    {
      PrunedIs(View(), keepPerSource);
      hide KeepsNewest, ItemsFollow, MembersFollow;
      var kept := NewestRows(if keepPerSource < 1 then 1 else keepPerSource);
      deleted := |fetches| - |kept|;
      var gone := FetchIds(fetches) - FetchIds(kept);
      fetches := kept;
      items := map k | k in items && k.fetchId !in gone :: items[k];
      members := map k | k in members ::
        var m := members[k];
        if m.lastFetch.Some? && m.lastFetch.value in gone then m.(lastFetch := None) else m;
      assert members == Pruned(old(View()), keepPerSource).members;
    }

    method ClearSynchronizedData()
      modifies this
      ensures View() == EMPTY_DB
      ensures fetches == [] && items.Keys == {} && anime.Keys == {} && members.Keys == {} && nextFetchId == 1
    {
      nextFetchId, fetches, items, anime, members := 1, [], map[], map[], map[];
    }

    method UpsertAnimeFromMalApi(id: int, outcome: Lookup, at: int)
      modifies this`anime
      ensures View() == LookedUp(old(View()), id, outcome, at)
      ensures anime.Keys == old(anime).Keys + {id}
      ensures forall other :: other in anime && other != id ==> anime[other] == old(anime)[other]
      ensures anime[id].lookedUpAt == Some(at)
      ensures anime[id].lookup == Success <==> outcome == Data
      ensures anime[id].lookup == NotFound <==> outcome == Missing
      ensures anime[id].lookup == Error <==> outcome == Failed
      ensures DubColumns(anime[id]) == if id in old(anime) then DubColumns(old(anime)[id]) else (NoDub, 0, false)
    {
      if id in anime {
        anime := anime[id := anime[id].(lookup := StatusAfter(outcome), lookedUpAt := Some(at))];
      } else {
        anime := anime[id := BARE_ANIME.(lookup := StatusAfter(outcome), lookedUpAt := Some(at))];
      }
    }

    /** The first `limit` ids, ascending, among the dubbed anime still waiting for a lookup. */
    method ListAnimeNeedingMalFetch(limit: nat, now: int) returns (ids: seq<int>)
      ensures ids == Smallest(NeedingLookup(anime, now), limit)
      ensures |ids| <= limit && forall i, j :: 0 <= i < j < |ids| ==> ids[i] < ids[j]
      ensures forall id :: id in ids ==> id in anime && Waits(anime[id], now)
      ensures forall id :: id in anime && Waits(anime[id], now) && id !in ids ==>
                |ids| == limit && forall other :: other in ids ==> other < id
    {
      WaitingIds(anime, now, limit);
      hide Waits;
      var left := NeedingLookup(anime, now);
      ghost var all := left;
      ids := [];
      while |ids| < limit && left != {}
        invariant |ids| <= limit
        invariant ids + Smallest(left, limit - |ids|) == Smallest(all, limit)
      {
        LeastExists(left);
        var m :| m in left && forall x :: x in left ==> m <= x;
        assert m == Least(left);
        assert Smallest(left, limit - |ids|) == [m] + Smallest(left - {m}, limit - |ids| - 1);
        assert ids + ([m] + Smallest(left - {m}, limit - |ids| - 1))
            == (ids + [m]) + Smallest(left - {m}, limit - |ids| - 1);
        ids, left := ids + [m], left - {m};
      }
    }
  }

  /** A dubbed anime whose lookup is pending, has failed, has no time, or is more than fourteen days old. */
  predicate Waits(a: Anime, now: int) {
    a.isDubbed && (a.lookup in {Pending, Error} || a.lookedUpAt == None || now - a.lookedUpAt.value > 14 * 24 * 60 * 60)
  }

  lemma WaitingIds(anime: map<int, Anime>, now: int, limit: nat)
    ensures var ids := Smallest(NeedingLookup(anime, now), limit);
            && |ids| <= limit && (forall i, j :: 0 <= i < j < |ids| ==> ids[i] < ids[j])
            && (forall id :: id in ids ==> id in anime && Waits(anime[id], now))
            && forall id :: id in anime && Waits(anime[id], now) && id !in ids ==>
                 |ids| == limit && forall other :: other in ids ==> other < id
  {
    var all := NeedingLookup(anime, now);
    SmallestAre(all, limit);
    SmallestElements(all, limit);
    forall id ensures id in all <==> id in anime && Waits(anime[id], now) {
      NeedingLookupAre(anime, now, id);
    }
    hide Smallest, NeedingLookup, Waits;
    var ids := Smallest(all, limit);
    forall id | id in all && id !in ids ensures |ids| == limit {
      assert id !in Elements(ids);
    }
  }

  // ---------------------------------------------------------------- what the statements leave

  /** Every listed id has an item of the fetch; items that were there stay. */
  ghost predicate ItemsListed(before: map<ItemKey, Listing>, after: map<ItemKey, Listing>, fetchId: nat,
                              dubbed: set<int>, partial: set<int>) {
    && (forall k :: k in after <==> k in before || (k.fetchId == fetchId && (k.id in dubbed || k.id in partial)))
    && (forall k :: k in after ==>
          after[k] == if k in before then before[k] else if k.id in dubbed then Dubbed else Partial)
  }

  /** Every listed id has a row, a new one bare; rows that were there stay. */
  ghost predicate AnimeListed(before: map<int, Anime>, after: map<int, Anime>, ids: set<int>) {
    && (forall id :: id in after <==> id in before || id in ids)
    && (forall id :: id in after ==>
          after[id] == if id in before then before[id] else Anime(NoDub, 0, false, Pending, None))
  }

  /** The rows of the source are those of the listed ids, with the status and the fetch; other sources' rows stay. */
  ghost predicate MembersListed(before: map<MemberKey, Member>, after: map<MemberKey, Member>, fetchId: nat,
                                source: Source, dubbed: set<int>, partial: set<int>) {
    && (forall k :: k in after <==> if k.source == source then k.id in dubbed || k.id in partial else k in before)
    && (forall k :: k in after ==>
          after[k] == if k.source != source then before[k]
                      else Member(if k.id in dubbed then Dubbed else Partial, Some(fetchId)))
  }

  lemma RecordedIs(db: Db, fetchId: nat, source: Source, dubbed: set<int>, partial: set<int>)
    ensures var after := Recorded(db, fetchId, source, Lists(dubbed, partial - dubbed));
            && ItemsListed(db.items, after.items, fetchId, dubbed, partial)
            && AnimeListed(db.anime, after.anime, dubbed + partial)
            && MembersListed(db.members, after.members, fetchId, source, dubbed, partial)
            && after.fetches == db.fetches && after.nextFetchId == db.nextFetchId
    ensures Unlisted(db.members, source, dubbed + partial)
         == set k | k in db.members && k.source == source && k.id !in dubbed + partial
  {
    var l := Lists(dubbed, partial - dubbed);
    assert l.dubbed + l.partial == dubbed + partial;
    ItemsOf(db.items, fetchId, l, dubbed, partial);
    MembersOf(db.members, fetchId, source, l, dubbed, partial);
    hide ItemsListed, MembersListed, RecordedItems, RecordedMembers;
  }

  lemma ItemsOf(items: map<ItemKey, Listing>, fetchId: nat, l: Lists, dubbed: set<int>, partial: set<int>)
    requires l == Lists(dubbed, partial - dubbed)
    ensures ItemsListed(items, RecordedItems(items, fetchId, l), fetchId, dubbed, partial)
  {
  }

  lemma MembersOf(members: map<MemberKey, Member>, fetchId: nat, source: Source, l: Lists, dubbed: set<int>,
                  partial: set<int>)
    requires l == Lists(dubbed, partial - dubbed)
    ensures MembersListed(members, RecordedMembers(members, fetchId, source, l), fetchId, source, dubbed, partial)
  {
  }

  /** The dub columns of an id are what the enabled sources' rows give; the lookup columns stay. */
  ghost predicate UnionOf(members: map<MemberKey, Member>, enabled: set<Source>, id: int, before: Anime, after: Anime) {
    && after.lookup == before.lookup && after.lookedUpAt == before.lookedUpAt
    && after.sourceCount == |set s | s in enabled && MemberKey(id, s) in members|
    && (after.isDubbed <==> exists s :: s in enabled && MemberKey(id, s) in members)
    && (after.dubStatus == FullDub <==>
          exists s :: s in enabled && MemberKey(id, s) in members && members[MemberKey(id, s)].status == Dubbed)
    && (after.dubStatus == NoDub <==> !after.isDubbed)
  }

  lemma UnionedIs(db: Db, enabled: set<Source>)
    ensures var after := Unioned(db, enabled).anime;
            && after.Keys == db.anime.Keys
            && (forall id :: id in after ==> UnionOf(db.members, enabled, id, db.anime[id], after[id]))
            && (set id | id in after && after[id] != db.anime[id]) ==
               set id | id in db.anime && DubColumns(db.anime[id]) != UnionColumns(Statuses(db.members), id, enabled)
  {
    var after := Unioned(db, enabled).anime;
    forall id | id in after ensures UnionOf(db.members, enabled, id, db.anime[id], after[id]) {
      UnionOfRow(db, enabled, id);
    }
    hide UnionOf, UnionColumns;
  }

  lemma UnionOfRow(db: Db, enabled: set<Source>, id: int)
    requires id in db.anime
    ensures UnionOf(db.members, enabled, id, db.anime[id],
                    WithDubColumns(db.anime[id], UnionColumns(Statuses(db.members), id, enabled)))
  {
    var st := Statuses(db.members);
    var listing := ListedBy(st, id, enabled);
    assert listing == set s | s in enabled && MemberKey(id, s) in db.members;
    if s :| s in enabled && MemberKey(id, s) in db.members {
      assert s in listing;
    }
    if s :| s in enabled && MemberKey(id, s) in db.members && db.members[MemberKey(id, s)].status == Dubbed {
      assert s in listing && st[MemberKey(id, s)] == Dubbed;
    }
  }

  /** Of each source exactly the `keep` newest rows are left. */
  ghost predicate KeepsNewest(before: seq<Fetch>, after: seq<Fetch>, keep: nat) {
    forall f :: f in after <==> exists i: nat :: i < |before| && before[i] == f && |NotOlder(before, i)| <= keep
  }

  /** The log has lost the id. */
  predicate Dropped(before: seq<Fetch>, after: seq<Fetch>, id: nat) {
    (exists f :: f in before && f.id == id) && forall f :: f in after ==> f.id != id
  }

  /** The items of lost log rows are gone, all others stay. */
  ghost predicate ItemsFollow(before: Db, after: Db) {
    && (forall k :: k in after.items <==> k in before.items && !Dropped(before.fetches, after.fetches, k.fetchId))
    && (forall k :: k in after.items ==> after.items[k] == before.items[k])
  }

  /** Membership rows stay, but forget a fetch that the log has lost. */
  ghost predicate MembersFollow(before: Db, after: Db) {
    && after.members.Keys == before.members.Keys
    && forall k :: k in after.members ==>
         && after.members[k].status == before.members[k].status
         && var fetch := before.members[k].lastFetch;
            after.members[k].lastFetch ==
              if fetch.Some? && Dropped(before.fetches, after.fetches, fetch.value) then None else fetch
  }

  lemma PrunedIs(db: Db, keepPerSource: int)
    ensures var after := Pruned(db, keepPerSource);
            && KeepsNewest(db.fetches, after.fetches, if keepPerSource <= 1 then 1 else keepPerSource)
            && ItemsFollow(db, after) && MembersFollow(db, after)
            && after.anime == db.anime && after.nextFetchId == db.nextFetchId
  {
    KeptRows(db.fetches, AtLeastOne(keepPerSource));
    hide PrunedFetches, KeepsNewest, Dropped;
  }

  lemma KeptRows(fetches: seq<Fetch>, keep: nat)
    ensures KeepsNewest(fetches, PrunedFetches(fetches, keep), keep)
    ensures forall id: nat ::
              id in FetchIds(fetches) - FetchIds(PrunedFetches(fetches, keep)) <==>
              Dropped(fetches, PrunedFetches(fetches, keep), id)
  {
    PrunedFetchesAre(fetches, keep, 0);
    assert fetches[0..] == fetches;
    hide PrunedFetches, NotOlder;
  }

  lemma {:induction false} LatestInSuffix(fetches: seq<Fetch>, i: nat, source: Source)
    requires i < |fetches| && LatestSha(fetches[i..], source).Some?
    ensures LatestSha(fetches, source) == LatestSha(fetches[i..], source)
  {
    if i > 0 {
      assert fetches[1..][i - 1..] == fetches[i..];
      LatestInSuffix(fetches[1..], i - 1, source);
    }
  }

  /** One pass over each of the three tables. */
  function ListedItems(items: map<ItemKey, Listing>, fetchId: nat, ids: set<int>, status: Listing)
    : map<ItemKey, Listing>
  {
    items + map k | k in ItemKeys(fetchId, ids) && k !in items :: status
  }

  function ListedAnime(anime: map<int, Anime>, ids: set<int>): map<int, Anime> {
    anime + map id | id in ids && id !in anime :: BARE_ANIME
  }

  function Listed(members: map<MemberKey, Member>, fetchId: nat, source: Source, ids: set<int>, status: Listing)
    : map<MemberKey, Member>
  {
    members + map k | k in ListedKeys(ids, source) :: Member(status, Some(fetchId))
  }

  /** The rows of a source whose ids it does not list. */
  function Unlisted(members: map<MemberKey, Member>, source: Source, ids: set<int>): set<MemberKey> {
    set k | k in members && k.source == source && k.id !in ids
  }

  lemma PassesRecordItems(items: map<ItemKey, Listing>, fetchId: nat, l: Lists)
    requires l.dubbed !! l.partial
    ensures ListedItems(ListedItems(items, fetchId, l.dubbed, Dubbed), fetchId, l.partial, Partial)
         == RecordedItems(items, fetchId, l)
  {
    var two := ListedItems(ListedItems(items, fetchId, l.dubbed, Dubbed), fetchId, l.partial, Partial);
    assert two.Keys == RecordedItems(items, fetchId, l).Keys;
  }

  lemma PassesRecordAnime(anime: map<int, Anime>, l: Lists)
    ensures ListedAnime(ListedAnime(anime, l.dubbed), l.partial) == RecordedAnime(anime, l)
  {
    assert ListedAnime(ListedAnime(anime, l.dubbed), l.partial).Keys == RecordedAnime(anime, l).Keys;
  }

  lemma PassesRecordMembers(members: map<MemberKey, Member>, fetchId: nat, source: Source, l: Lists)
    requires l.dubbed !! l.partial
    ensures var two := Listed(Listed(members, fetchId, source, l.dubbed, Dubbed), fetchId, source, l.partial, Partial);
            && two - Unlisted(two, source, l.dubbed + l.partial) == RecordedMembers(members, fetchId, source, l)
            && Unlisted(two, source, l.dubbed + l.partial) == Unlisted(members, source, l.dubbed + l.partial)
  {
    var one := Listed(members, fetchId, source, l.dubbed, Dubbed);
    var two := Listed(one, fetchId, source, l.partial, Partial);
    var kept := two - Unlisted(two, source, l.dubbed + l.partial);
    var spec := RecordedMembers(members, fetchId, source, l);
    forall k ensures k in two <==> k in members || (k.source == source && k.id in l.dubbed + l.partial) {
      assert k in one <==> k in members || k in ListedKeys(l.dubbed, source);
      assert k in two <==> k in one || k in ListedKeys(l.partial, source);
    }
    forall k ensures k in kept <==> k in spec {
    }
    forall k | k in kept ensures kept[k] == spec[k] {
      assert kept[k] == two[k];
      assert two[k] == if k in ListedKeys(l.partial, source) then Member(Partial, Some(fetchId)) else one[k];
    }
  }

  /** Both passes and the final delete, on the whole database. */
  lemma PassesRecord(db: Db, fetchId: nat, source: Source, l: Lists)
    requires l.dubbed !! l.partial
    ensures var all := l.dubbed + l.partial;
            var one := Listed(db.members, fetchId, source, l.dubbed, Dubbed);
            var two := Listed(one, fetchId, source, l.partial, Partial);
            && db.(items := ListedItems(ListedItems(db.items, fetchId, l.dubbed, Dubbed), fetchId, l.partial, Partial),
                   anime := ListedAnime(ListedAnime(db.anime, l.dubbed), l.partial),
                   members := two - Unlisted(two, source, all)) == Recorded(db, fetchId, source, l)
            && Unlisted(two, source, all) == Unlisted(db.members, source, all)
  {
    PassesRecordItems(db.items, fetchId, l);
    PassesRecordAnime(db.anime, l);
    PassesRecordMembers(db.members, fetchId, source, l);
  }
}
