/** The dub-list tables of the MyAnimeList pipeline and what each repository statement does to them,
    stated on values. MalStore.dfy has the statements themselves.
  */
module MalTables {
  import opened Prelude

  datatype Source = MalDubs | MyDubList
  datatype Listing = Partial | Dubbed
  datatype DubStatus = NoDub | PartialDub | FullDub
  datatype LookupStatus = Pending | Success | Error | NotFound

  /** The columns of mal.anime that the pipeline decides on. */
  datatype Anime = Anime(dubStatus: DubStatus, sourceCount: nat, isDubbed: bool,
                         lookup: LookupStatus, lookedUpAt: Option<int>)

  datatype Fetch = Fetch(id: nat, source: Source, sha: string, httpStatus: Option<nat>, error: Option<string>)
  datatype MemberKey = MemberKey(id: int, source: Source)
  datatype ItemKey = ItemKey(fetchId: nat, id: int)
  datatype Member = Member(status: Listing, lastFetch: Option<nat>)

  /** `fetches` is in id order, as a serial key leaves it. */
  datatype Db = Db(nextFetchId: nat, fetches: seq<Fetch>, items: map<ItemKey, Listing>,
                   anime: map<int, Anime>, members: map<MemberKey, Member>)

  const EMPTY_DB := Db(1, [], map[], map[], map[])

  /** Column defaults of a row that only a dub list has mentioned. */
  const BARE_ANIME := Anime(NoDub, 0, false, Pending, None)

  // ---------------------------------------------------------------- payloads

  datatype Item = Whole(id: int) | NotAnInteger
  datatype Field = NotAList | Items(items: seq<Item>)
  datatype Payload = NotAnObject | Object(fields: map<string, Field>)

  /** The bytes of a response. */
  type Body = string

  /** How the program reads a body: as JSON, where a body that is not JSON counts as no object, since both are refused;
      and as the hash it keeps. */
  datatype Wire = Wire(decode: Body -> Payload, hash: Body -> string)

  datatype Lists = Lists(dubbed: set<int>, partial: set<int>)

  function PartialKey(source: Source): string {
    match source
    case MalDubs => "incomplete"
    case MyDubList => "partial"
  }

  function FieldOf(p: Payload, key: string): Field
    requires p.Object?
  {
    if key in p.fields then p.fields[key] else NotAList
  }

  predicate AllWhole(items: seq<Item>) {
    forall i :: 0 <= i < |items| ==> items[i].Whole?
  }

  function IdsOf(items: seq<Item>): set<int> {
    set i | 0 <= i < |items| && items[i].Whole? :: items[i].id
  }

  /** What stands in the array of a key; nothing if there is no such array. */
  function ItemsAt(p: Payload, key: string): seq<Item> {
    if p.Object? && key in p.fields && p.fields[key].Items? then p.fields[key].items else []
  }

  /** `None` stands for the ValueError the parser raises: when the payload is no object, has no array of dubbed ids, or
      has something other than an integer in either array. An id in both arrays counts as dubbed. */
  function Parse(source: Source, p: Payload): (r: Option<Lists>)
    ensures var second := ItemsAt(p, if source == MalDubs then "incomplete" else "partial");
            r.None? <==>
              || p.NotAnObject? || !("dubbed" in p.fields && p.fields["dubbed"].Items?)
              || NotAnInteger in ItemsAt(p, "dubbed") || NotAnInteger in second
    ensures var second := ItemsAt(p, if source == MalDubs then "incomplete" else "partial");
            r.Some? ==> forall id ::
              && (id in r.value.dubbed <==> Whole(id) in ItemsAt(p, "dubbed"))
              && (id in r.value.partial <==> Whole(id) in second && Whole(id) !in ItemsAt(p, "dubbed"))
    ensures r.Some? ==> r.value.dubbed !! r.value.partial
  {
    if p.NotAnObject? then None
    else
      var dubbed := FieldOf(p, "dubbed");
      if dubbed.NotAList? || !AllWhole(dubbed.items) then None
      else
        var partial := FieldOf(p, PartialKey(source));
        if partial.NotAList? then Some(Lists(IdsOf(dubbed.items), {}))
        else if !AllWhole(partial.items) then None
        else Some(Lists(IdsOf(dubbed.items), IdsOf(partial.items) - IdsOf(dubbed.items)))
  }

  /** What one list says of each id. */
  function StatusesOf(l: Lists): map<int, Listing> {
    map id | id in l.dubbed + l.partial :: if id in l.dubbed then Dubbed else Partial
  }

  // ---------------------------------------------------------------- reading

  /** All membership rows without the bookkeeping columns. */
  function Statuses(members: map<MemberKey, Member>): map<MemberKey, Listing> {
    map k | k in members :: members[k].status
  }

  /** What one source says of each id. */
  function Membership(statuses: map<MemberKey, Listing>, source: Source): (m: map<int, Listing>)
    ensures forall id :: id in m <==> MemberKey(id, source) in statuses
    ensures forall id :: id in m ==> m[id] == statuses[MemberKey(id, source)]
  {
    var ids := set k | k in statuses && k.source == source :: k.id;
    map id | id in ids :: statuses[MemberKey(id, source)]
  }

  predicate Succeeded(f: Fetch) {
    f.error.None? && f.httpStatus.Some? && f.httpStatus.value < 400
  }

  /** Hash of the newest successful fetch of a source. */
  function LatestSha(fetches: seq<Fetch>, source: Source): Option<string> {
    if fetches == [] then None
    else
      var later := LatestSha(fetches[1..], source);
      if later.Some? then later
      else if fetches[0].source == source && Succeeded(fetches[0]) then Some(fetches[0].sha)
      else None
  }

  /** Row `i` is the newest one of the source without an error and with a status below 400. */
  predicate NewestGood(fetches: seq<Fetch>, source: Source, i: nat) {
    && i < |fetches| && Good(fetches[i], source)
    && forall j :: i < j < |fetches| ==> !Good(fetches[j], source)
  }

  predicate Good(f: Fetch, source: Source) {
    f.source == source && f.error == None && f.httpStatus.Some? && f.httpStatus.value < 400
  }

  /** The hash found is that of the newest good row, and there is none exactly when no row is good. */
  lemma {:induction false} LatestShaIs(fetches: seq<Fetch>, source: Source)
    ensures LatestSha(fetches, source) == None <==> forall i :: 0 <= i < |fetches| ==> !Good(fetches[i], source)
    ensures LatestSha(fetches, source).Some? ==>
              exists i: nat :: NewestGood(fetches, source, i) && LatestSha(fetches, source) == Some(fetches[i].sha)
  {
    if fetches != [] {
      var rest := fetches[1..];
      LatestShaIs(rest, source);
      assert forall i :: 0 < i < |fetches| ==> fetches[i] == rest[i - 1];
      if LatestSha(rest, source).Some? {
        var i: nat :| NewestGood(rest, source, i) && LatestSha(rest, source) == Some(rest[i].sha);
        assert NewestGood(fetches, source, i + 1);
      } else if LatestSha(fetches, source).Some? {
        assert NewestGood(fetches, source, 0);
      }
    }
  }

  function RowsOf(fetches: seq<Fetch>, source: Source): nat {
    if fetches == [] then 0
    else (if fetches[0].source == source then 1 else 0) + RowsOf(fetches[1..], source)
  }

  // ---------------------------------------------------------------- statements

  function ListedKeys(ids: set<int>, source: Source): (keys: set<MemberKey>)
    ensures forall k :: k in keys <==> k.source == source && k.id in ids
  {
    set id | id in ids :: MemberKey(id, source)
  }

  function ItemKeys(fetchId: nat, ids: set<int>): (keys: set<ItemKey>)
    ensures forall k :: k in keys <==> k.fetchId == fetchId && k.id in ids
  {
    set id | id in ids :: ItemKey(fetchId, id)
  }

  /** The snapshot items of one more fetch. */
  function RecordedItems(items: map<ItemKey, Listing>, fetchId: nat, l: Lists): map<ItemKey, Listing> {
    map k | k in items.Keys + ItemKeys(fetchId, l.dubbed + l.partial) ::
      if k in items then items[k] else StatusesOf(l)[k.id]
  }

  /** The anime rows once every listed id has one. */
  function RecordedAnime(anime: map<int, Anime>, l: Lists): map<int, Anime> {
    map id | id in anime.Keys + (l.dubbed + l.partial) :: if id in anime then anime[id] else BARE_ANIME
  }

  /** The membership rows once those of `source` are exactly the listed ids. */
  function RecordedMembers(members: map<MemberKey, Member>, fetchId: nat, source: Source, l: Lists)
    : map<MemberKey, Member>
  {
    var others := set k | k in members && k.source != source;
    map k | k in others + ListedKeys(l.dubbed + l.partial, source) ::
      if k.source == source then Member(StatusesOf(l)[k.id], Some(fetchId)) else members[k]
  }

  /** The tables after a source's list has been recorded: exactly the listed ids are its members,
      unseen ids get a bare anime row, and everything else stays. */
  function Recorded(db: Db, fetchId: nat, source: Source, l: Lists): Db {
    db.(items := RecordedItems(db.items, fetchId, l),
        anime := RecordedAnime(db.anime, l),
        members := RecordedMembers(db.members, fetchId, source, l))
  }

  /** A new row in the fetch log. */
  function Logged(db: Db, source: Source, sha: string, httpStatus: nat): Db {
    db.(nextFetchId := db.nextFetchId + 1,
        fetches := db.fetches + [Fetch(db.nextFetchId, source, sha, Some(httpStatus), None)])
  }

  /** The enabled sources that list an id. */
  function ListedBy(statuses: map<MemberKey, Listing>, id: int, enabled: set<Source>): set<Source> {
    set s | s in enabled && MemberKey(id, s) in statuses
  }

  /** The three dub columns an id should have. */
  function UnionColumns(statuses: map<MemberKey, Listing>, id: int, enabled: set<Source>): (DubStatus, nat, bool) {
    var listing := ListedBy(statuses, id, enabled);
    (if listing == {} then NoDub
     else if exists s :: s in listing && statuses[MemberKey(id, s)] == Dubbed then FullDub
     else PartialDub,
     |listing|,
     listing != {})
  }

  function DubColumns(a: Anime): (DubStatus, nat, bool) {
    (a.dubStatus, a.sourceCount, a.isDubbed)
  }

  function WithDubColumns(a: Anime, c: (DubStatus, nat, bool)): Anime {
    a.(dubStatus := c.0, sourceCount := c.1, isDubbed := c.2)
  }

  /** Every anime row with the dub columns it should have. */
  function Unioned(db: Db, enabled: set<Source>): Db {
    db.(anime := map id | id in db.anime ::
          WithDubColumns(db.anime[id], UnionColumns(Statuses(db.members), id, enabled)))
  }

  /** The newest `keep` rows of each source, in order. */
  function PrunedFetches(fetches: seq<Fetch>, keep: nat): seq<Fetch> {
    if fetches == [] then []
    else
      (if RowsOf(fetches, fetches[0].source) > keep then [] else [fetches[0]]) + PrunedFetches(fetches[1..], keep)
  }

  /** The rows of the source of row `i` from it on. */
  function NotOlder(fetches: seq<Fetch>, i: nat): set<nat>
    requires i < |fetches|
  {
    set j: nat | i <= j < |fetches| && fetches[j].source == fetches[i].source
  }

  lemma {:induction false} RowsOfIs(fetches: seq<Fetch>, source: Source, i: nat)
    requires i <= |fetches|
    ensures RowsOf(fetches[i..], source) == |set j: nat | i <= j < |fetches| && fetches[j].source == source|
    decreases |fetches| - i
  {
    var rows := set j: nat | i <= j < |fetches| && fetches[j].source == source;
    if i == |fetches| {
      assert rows == {};
    } else {
      RowsOfIs(fetches, source, i + 1);
      assert fetches[i..][1..] == fetches[i + 1..];
      var later := set j: nat | i + 1 <= j < |fetches| && fetches[j].source == source;
      assert rows == if fetches[i].source == source then later + {i} else later;
    }
  }

  /** A row of the log is kept exactly when at most `keep` rows of its source are not older. */
  lemma {:induction false} PrunedFetchesAre(fetches: seq<Fetch>, keep: nat, i: nat)
    requires i <= |fetches|
    ensures forall f :: f in PrunedFetches(fetches[i..], keep) <==>
              exists k: nat :: i <= k < |fetches| && fetches[k] == f && |NotOlder(fetches, k)| <= keep
    decreases |fetches| - i
  {
    if i < |fetches| {
      PrunedFetchesAre(fetches, keep, i + 1);
      RowsOfIs(fetches, fetches[i].source, i);
      assert fetches[i..][1..] == fetches[i + 1..] && fetches[i..][0] == fetches[i];
      var source := fetches[i].source;
      assert NotOlder(fetches, i) == set j: nat | i <= j < |fetches| && fetches[j].source == source;
      hide PrunedFetches, RowsOf, NotOlder;
      var rest := PrunedFetches(fetches[i + 1..], keep);
      PrunedFirst(fetches[i..], keep);
      forall f ensures f in PrunedFetches(fetches[i..], keep) <==>
              exists k: nat :: i <= k < |fetches| && fetches[k] == f && |NotOlder(fetches, k)| <= keep {
        if k: nat :| i <= k < |fetches| && fetches[k] == f && |NotOlder(fetches, k)| <= keep {
          if k > i {
            assert f in rest;
          }
        }
      }
    }
  }

  lemma PrunedFirst(fetches: seq<Fetch>, keep: nat)
    requires fetches != []
    ensures PrunedFetches(fetches, keep) ==
            (if RowsOf(fetches, fetches[0].source) > keep then [] else [fetches[0]]) + PrunedFetches(fetches[1..], keep)
  {
  }

  function FetchIds(fetches: seq<Fetch>): set<nat> {
    set f | f in fetches :: f.id
  }

  function AtLeastOne(keep: int): nat {
    if keep < 1 then 1 else keep
  }

  /** Old log rows go, with their snapshot items; membership rows forget the fetch they came from. */
  function Pruned(db: Db, keep: int): Db {
    var kept := PrunedFetches(db.fetches, AtLeastOne(keep));
    var gone := FetchIds(db.fetches) - FetchIds(kept);
    db.(
      fetches := kept,
      items := map k | k in db.items && k.fetchId !in gone :: db.items[k],
      members := map k | k in db.members ::
        var m := db.members[k];
        if m.lastFetch.Some? && m.lastFetch.value in gone then m.(lastFetch := None) else m)
  }

  /** The outcome of one lookup at the MyAnimeList API. */
  datatype Lookup = Data | Missing | Failed

  function StatusAfter(outcome: Lookup): LookupStatus {
    match outcome
    case Data => Success
    case Missing => NotFound
    case Failed => Error
  }

  function LookedUp(db: Db, id: int, outcome: Lookup, at: int): Db {
    var before := if id in db.anime then db.anime[id] else BARE_ANIME;
    db.(anime := db.anime[id := before.(lookup := StatusAfter(outcome), lookedUpAt := Some(at))])
  }

  // ---------------------------------------------------------------- pending lookups

  const FOURTEEN_DAYS := 14 * 24 * 3600

  predicate NeedsLookup(a: Anime, now: int) {
    a.isDubbed &&
    (a.lookup.Pending? || a.lookup.Error? || a.lookedUpAt.None? || a.lookedUpAt.value < now - FOURTEEN_DAYS)
  }

  function NeedingLookup(anime: map<int, Anime>, now: int): set<int> {
    set id | id in anime && NeedsLookup(anime[id], now)
  }

  /** The ids of dubbed anime whose lookup is pending, has failed, has no time, or is more than fourteen days old. */
  lemma NeedingLookupAre(anime: map<int, Anime>, now: int, id: int)
    ensures id in NeedingLookup(anime, now) <==>
              && id in anime && anime[id].isDubbed
              && (anime[id].lookup == Pending || anime[id].lookup == Error || anime[id].lookedUpAt == None ||
                  now - anime[id].lookedUpAt.value > 14 * 24 * 60 * 60)
  {
  }

  /** The `n` smallest elements, ascending. */
  ghost function Smallest(s: set<int>, n: nat): seq<int> {
    if n == 0 || s == {} then [] else [Least(s)] + Smallest(s - {Least(s)}, n - 1)
  }

  lemma {:induction false} SmallestAre(s: set<int>, n: nat)
    ensures |Smallest(s, n)| == if |s| < n then |s| else n
    ensures forall x :: x in Smallest(s, n) ==> x in s
    ensures forall i, j :: 0 <= i < j < |Smallest(s, n)| ==> Smallest(s, n)[i] < Smallest(s, n)[j]
    ensures forall x, y :: x in Smallest(s, n) && y in s && y !in Smallest(s, n) ==> x < y
  {
    if n > 0 && s != {} {
      var m := Least(s);
      var rest := Smallest(s - {m}, n - 1);
      SmallestAre(s - {m}, n - 1);
      assert Smallest(s, n) == [m] + rest;
      forall j | 0 <= j < |rest| ensures m < rest[j] {
        assert rest[j] in rest;
        assert rest[j] in s - {m};
      }
    }
  }

  /** The same without an order: as many elements as fit, each below every one left out. */
  lemma SmallestElements(s: set<int>, n: nat)
    ensures Elements(Smallest(s, n)) <= s
    ensures |Elements(Smallest(s, n))| == if |s| < n then |s| else n
    ensures |s| <= n ==> Elements(Smallest(s, n)) == s
  {
    SmallestAre(s, n);
    var front := Elements(Smallest(s, n));
    AscendingElements(Smallest(s, n));
    SubsetSize(front, s);
    if |s| <= n {
      assert s - front == {};
    }
  }

  lemma {:induction false} AscendingElements(s: seq<int>)
    requires forall i, j :: 0 <= i < j < |s| ==> s[i] < s[j]
    ensures |Elements(s)| == |s|
  {
    if s != [] {
      var n := |s| - 1;
      AscendingElements(s[..n]);
      assert Elements(s) == Elements(s[..n]) + {s[n]};
    }
  }
}
