/** The matcher's statements over the link table, and one whole run. */
module Matcher {
  import opened Prelude
  import opened Text
  import opened TitleIndex
  import opened LinkTables

  // ---------------------------------------------------------------- title matches, a part at a time

  /** The title-year links of some anime in some instances of one kind. */
  ghost function Matches(inp: Inputs, entity: Entity, insts: set<string>, malIds: set<int>,
                         lower: string -> string): Links {
    map k | k in KeysFor(malIds, insts, entity) && TitleMatch(inp, k, lower).Some? ::
      Link(TitleMatch(inp, k, lower).value, ByTitleYear)
  }

  /** Title-year links of disjoint parts add up, in content and in number. */
  lemma MatchesAddUp(inp: Inputs, entity: Entity, insts: set<string>, malIds: set<int>,
                     moreInsts: set<string>, moreIds: set<int>, lower: string -> string)
    requires (insts == moreInsts && malIds !! moreIds) || (malIds == moreIds && insts !! moreInsts)
    ensures var a := Matches(inp, entity, insts, malIds, lower);
            var b := Matches(inp, entity, moreInsts, moreIds, lower);
            && Matches(inp, entity, insts + moreInsts, malIds + moreIds, lower) == a + b
            && |a + b| == |a| + |b|
  {
    hide TitleMatch;
    var a := Matches(inp, entity, insts, malIds, lower);
    var b := Matches(inp, entity, moreInsts, moreIds, lower);
    var both := Matches(inp, entity, insts + moreInsts, malIds + moreIds, lower);
    forall k ensures ToOption(both, k) == ToOption(a + b, k) {
    }
    SameEverywhere(both, a + b);
    assert a.Keys !! b.Keys;
    DisjointUnionSize(a, b);
  }

  lemma DisjointUnionSize<K, V>(a: map<K, V>, b: map<K, V>)
    requires a.Keys !! b.Keys
    ensures |a + b| == |a| + |b|
  {
    assert (a + b).Keys == a.Keys + b.Keys;
    assert |a.Keys + b.Keys| == |a.Keys| + |b.Keys|;
  }

  ghost function UnmatchedIds(inp: Inputs, links: Links, movies: bool): set<int> {
    set m | m in inp.anime && Unmatched(inp, links, m) && inp.anime[m].isMovie == movies
  }

  function OfKind(inp: Inputs, malIds: set<int>, movies: bool): set<int> {
    set m | m in malIds && m in inp.anime && inp.anime[m].isMovie == movies
  }

  lemma UnmatchedOfKind(inp: Inputs, links: Links, movies: bool)
    ensures OfKind(inp, AllUnmatched(inp, links), movies) == UnmatchedIds(inp, links, movies)
  {
    hide Unmatched;
  }

  ghost function AllUnmatched(inp: Inputs, links: Links): set<int> {
    set m | m in inp.anime && Unmatched(inp, links, m)
  }

  lemma TitleLayerParts(inp: Inputs, links: Links, lower: string -> string)
    ensures var a := Matches(inp, SonarrSeries, inp.sonarr, UnmatchedIds(inp, links, false), lower);
            var b := Matches(inp, RadarrMovie, inp.radarr, UnmatchedIds(inp, links, true), lower);
            TitleLayer(inp, links, lower) == a + b && |a + b| == |a| + |b|
  {
    var a := Matches(inp, SonarrSeries, inp.sonarr, UnmatchedIds(inp, links, false), lower);
    var b := Matches(inp, RadarrMovie, inp.radarr, UnmatchedIds(inp, links, true), lower);
    forall k ensures ToOption(TitleLayer(inp, links, lower), k) == ToOption(a + b, k) {
      TitleMatchKind(inp, k, lower);
      InTitleLayer(inp, links, k, lower);
      InMatches(inp, SonarrSeries, inp.sonarr, UnmatchedIds(inp, links, false), k, lower);
      InMatches(inp, RadarrMovie, inp.radarr, UnmatchedIds(inp, links, true), k, lower);
      PartOf(inp, links, k.malId);
      hide *;
    }
    SameEverywhere(TitleLayer(inp, links, lower), a + b);
    forall k | k in a ensures k !in b {
      InMatches(inp, SonarrSeries, inp.sonarr, UnmatchedIds(inp, links, false), k, lower);
    }
    DisjointUnionSize(a, b);
  }

  lemma InMatches(inp: Inputs, entity: Entity, insts: set<string>, malIds: set<int>, k: LinkKey,
                  lower: string -> string)
    ensures ToOption(Matches(inp, entity, insts, malIds, lower), k) ==
            if k.malId in malIds && k.inst in insts && k.entity == entity && TitleMatch(inp, k, lower).Some?
            then Some(Link(TitleMatch(inp, k, lower).value, ByTitleYear)) else None
  {
    hide TitleMatch;
  }

  lemma TitleMatchKind(inp: Inputs, k: LinkKey, lower: string -> string)
    ensures TitleMatch(inp, k, lower).Some? ==>
              k.malId in inp.anime && k.entity == EntityFor(inp.anime[k.malId]) && k.inst in Enabled(inp, k.entity)
  {
  }

  lemma PartOf(inp: Inputs, links: Links, malId: int)
    ensures forall movies :: malId in UnmatchedIds(inp, links, movies) <==>
              malId in inp.anime && Unmatched(inp, links, malId) && inp.anime[malId].isMovie == movies
  {
    hide Unmatched;
  }

  // ---------------------------------------------------------------- external ids fed back

  /** The distinct ids of a site that the linked live items of a dubbed anime carry. */
  function LinkedIds(inp: Inputs, links: Links, site: Site, malId: int): set<string> {
    var table := Table(inp, EntityOf(site));
    set k | k in links && k.malId == malId && k.entity == EntityOf(site) && IsDubbed(inp, malId) &&
            ItemKey(links[k].sourceId, k.inst) in table && CarriesId(table[ItemKey(links[k].sourceId, k.inst)], site) ::
      Trim(table[ItemKey(links[k].sourceId, k.inst)].ids[site])
  }

  /** An id is linked to a dubbed anime when the live item behind one of its links of the site's kind carries it. */
  lemma LinkedIdsIs(inp: Inputs, links: Links, site: Site, malId: int, id: string)
    ensures id in LinkedIds(inp, links, site, malId) <==>
              && malId in inp.anime && inp.anime[malId].dubbed
              && exists k :: k in links && k.malId == malId && ShowsId(inp, links, k, site, id)
  {
    hide Trim;
    if k :| k in links && k.malId == malId && ShowsId(inp, links, k, site, id) {
      assert k.entity == EntityOf(site);
    }
    if id in LinkedIds(inp, links, site, malId) {
      var table := Table(inp, EntityOf(site));
      var k :| k in links && k.malId == malId && k.entity == EntityOf(site) &&
               ItemKey(links[k].sourceId, k.inst) in table &&
               CarriesId(table[ItemKey(links[k].sourceId, k.inst)], site) &&
               Trim(table[ItemKey(links[k].sourceId, k.inst)].ids[site]) == id;
      assert ShowsId(inp, links, k, site, id);
    }
  }

  /** The link leads to a live series, for tvdb, or movie with the id. */
  predicate ShowsId(inp: Inputs, links: Links, k: LinkKey, site: Site, id: string)
    requires k in links
  {
    var table := if site == Tvdb then inp.series else inp.movies;
    var row := ItemKey(links[k].sourceId, k.inst);
    && k.entity == (if site == Tvdb then SonarrSeries else RadarrMovie)
    && row in table && !table[row].deleted
    && site in table[row].ids && Trim(table[row].ids[site]) == id && id != ""
  }

  predicate CarriesId(item: Item, site: Site) {
    !item.deleted && site in item.ids && Trim(item.ids[site]) != []
  }

  /** Linked items never disagree about an id of an anime. One upsert statement may not touch a row twice,
      so a disagreement makes the statement fail. */
  predicate Agreed(inp: Inputs, links: Links) {
    AgreedAt(inp, links, Tvdb) && AgreedAt(inp, links, Tmdb) && AgreedAt(inp, links, Imdb)
  }

  predicate AgreedAt(inp: Inputs, links: Links, site: Site) {
    forall m :: m in inp.anime ==> |LinkedIds(inp, links, site, m)| <= 1
  }

  function SiteKeys(malIds: set<int>, site: Site): (keys: set<ExtKey>)
    ensures forall e :: e in keys <==> e.malId in malIds && e.site == site
  {
    set m | m in malIds :: ExtKey(m, site)
  }

  /** The ids one site's upsert writes. */
  ghost function Feed(inp: Inputs, links: Links, site: Site): map<ExtKey, string> {
    map e | e in SiteKeys(inp.anime.Keys, site) && LinkedIds(inp, links, site, e.malId) != {} ::
      Pick(LinkedIds(inp, links, site, e.malId))
  }

  ghost function FedBackAll(inp: Inputs, links: Links): map<ExtKey, string> {
    inp.externals + Feed(inp, links, Tvdb) + Feed(inp, links, Tmdb) + Feed(inp, links, Imdb)
  }

  lemma FeedAt(inp: Inputs, links: Links, site: Site, e: ExtKey)
    ensures e in Feed(inp, links, site) <==>
              e.site == site && e.malId in inp.anime && LinkedIds(inp, links, site, e.malId) != {}
    ensures e in Feed(inp, links, site) ==> Feed(inp, links, site)[e] in LinkedIds(inp, links, site, e.malId)
  {
    hide LinkedIds;
  }

  lemma FedBackAllAt(inp: Inputs, links: Links, e: ExtKey)
    requires e.malId in inp.anime && LinkedIds(inp, links, e.site, e.malId) != {}
    ensures e in FedBackAll(inp, links)
    ensures FedBackAll(inp, links)[e] in LinkedIds(inp, links, e.site, e.malId)
  {
    hide LinkedIds, Feed;
    FeedAt(inp, links, Tvdb, e);
    FeedAt(inp, links, Tmdb, e);
    FeedAt(inp, links, Imdb, e);
  }

  /** After a successful run every link to a live item with an id is an id match of the next run, at the linked
      item or a smaller source id carrying the same id. */
  lemma LinksBecomeIdMatches(inp: Inputs, links: Links, k: LinkKey, site: Site)
    requires Agreed(inp, links)
    requires k in links && IsDubbed(inp, k.malId) && k.entity == EntityOf(site)
    requires var row := ItemKey(links[k].sourceId, k.inst);
             row in Table(inp, EntityOf(site)) && CarriesId(Table(inp, EntityOf(site))[row], site)
    ensures var next := inp.(externals := FedBackAll(inp, links));
            var m := IdMatch(next, k.malId, k.inst, site);
            m.Some? && m.value <= links[k].sourceId
  {
    hide FedBackAll, Trim, WithoutTT, LowerAscii;
    var next := inp.(externals := FedBackAll(inp, links));
    var table := Table(inp, EntityOf(site));
    var row := ItemKey(links[k].sourceId, k.inst);
    var ids := LinkedIds(inp, links, site, k.malId);
    var own := Trim(table[row].ids[site]);
    TrimmedIdsCompare(table[row].ids[site]);
    assert own in ids;
    var e := ExtKey(k.malId, site);
    FedBackAllAt(inp, links, e);
    OneElement(ids, own, next.externals[e]);
    assert Carries(table[row], site, next.externals[e]);
    assert row.sourceId in Carriers(table, k.inst, site, next.externals[e]);
    assert Table(next, EntityOf(site)) == table;
  }

  lemma OneElement<T>(s: set<T>, x: T, y: T)
    requires x in s && y in s && |s| <= 1
    ensures x == y
  {
    if x != y {
      SubsetSize({x, y}, s);
    }
  }

  // ---------------------------------------------------------------- the statements

  /** The orders in which the database happens to return unordered rows. */
  datatype Orders = Orders(anime: seq<int>, sonarr: seq<string>, radarr: seq<string>,
                           rows: (Entity, string) -> seq<Row>)

  predicate Distinct<T(==)>(s: seq<T>) {
    forall i, j :: 0 <= i < j < |s| ==> s[i] != s[j]
  }

  /** Each listing has exactly the rows of its table, once. */
  ghost predicate Lists(o: Orders, inp: Inputs, links: Links) {
    && Distinct(o.anime) && Elements(o.anime) == AllUnmatched(inp, links)
    && Distinct(o.sonarr) && Elements(o.sonarr) == inp.sonarr
    && Distinct(o.radarr) && Elements(o.radarr) == inp.radarr
    && ListsRows(o, inp)
  }

  ghost predicate ListsRows(o: Orders, inp: Inputs) {
    forall e: Entity, inst: string ::
      DistinctIds(o.rows(e, inst)) && Elements(o.rows(e, inst)) == LiveRows(Table(inp, e), inst)
  }

  class Session {
    var links: Links
    var externals: map<ExtKey, string>

    constructor (links: Links, externals: map<ExtKey, string>)
      ensures this.links == links && this.externals == externals
    {
      this.links, this.externals := links, externals;
    }

    method DeleteLinksForUndubbed(inp: Inputs)
      modifies this`links
      ensures links == WithoutUndubbed(inp, old(links))
    {
      links := links - set k | k in links && k.malId in inp.anime && !inp.anime[k.malId].dubbed;
      assert links == WithoutUndubbed(inp, old(links));
    }

    method ClearAutoWarehouseLinks()
      modifies this`links
      ensures links == ManualOnly(old(links))
    {
      links := links - set k | k in links && (links[k].how.ById? || links[k].how.ByTitleYear?);
      assert links == ManualOnly(old(links));
    }

    /** The least item of the key's instance that carries the anime's id of a site. */
    method FindById(inp: Inputs, k: LinkKey, site: Site) returns (found: Option<int>)
      ensures found == IdMatch(inp, k.malId, k.inst, site)
      ensures LeadsFirst(inp, k.malId, k.inst, site, found)
    {
      IdMatchIs(inp, k.malId, k.inst, site);
      hide LeadsFirst;
      found := None;
      if IsDubbed(inp, k.malId) && ExtKey(k.malId, site) in inp.externals {
        var carriers := Carriers(Table(inp, EntityOf(site)), k.inst, site, inp.externals[ExtKey(k.malId, site)]);
        if carriers != {} {
          LeastExists(carriers);
          var m :| m in carriers && forall x :: x in carriers ==> m <= x;
          found := Some(m);
        }
      }
    }

    /** One id layer, key by key. */
    method InsertIdLinks(inp: Inputs, site: Site) returns (written: nat)
      modifies this`links
      ensures links == old(links) + IdLayer(inp, site)
      ensures written == |IdLayer(inp, site)|
    {
      hide IdMatch, IdLayer;
      var entity := EntityOf(site);
      var layer: Links := map[];
      var left := KeysFor(inp.anime.Keys, Instances(Table(inp, entity)), entity);
      ghost var all := IdLayer(inp, site);
      assert layer == all - left by { LayerKeys(inp, site); }
      while left != {}
        invariant links == old(links)
        invariant layer == all - left
        invariant forall k :: k in left ==> k.entity == entity
        decreases |left|
      {
        var k :| k in left;
        InIdLayer(inp, site, k);
        var found := FindById(inp, k, site);
        if found.Some? {
          layer := layer[k := Link(found.value, ById(site))];
        }
        OneKeyLess(all, left, k);
        left := left - {k};
      }
      assert all - left == all;
      links := links + layer;
      written := |layer|;
    }

    /** Match one anime against the index of one instance. */
    method MatchOne(inp: Inputs, k: LinkKey, index: map<string, seq<Cand>>, ghost rows: seq<Row>,
                    lower: string -> string)
      returns (found: Option<int>)
      requires inp.allowTitleYear && k.inst in Enabled(inp, k.entity)
      requires k.malId in inp.anime && EntityFor(inp.anime[k.malId]) == k.entity
      requires DistinctIds(rows) && Elements(rows) == LiveRows(Table(inp, k.entity), k.inst)
      requires Indexes(index, rows, lower)
      ensures found == TitleMatch(inp, k, lower)
    {
      hide LiveRows, Variants, Elements, Picked, Indexes;
      var show := inp.anime[k.malId];
      var variants := NormalizedTitleVariants(show.mainTitle, show.additional, lower);
      VariantsNotEmpty(show.mainTitle, show.additional, lower);
      found := FirstMatch(index, variants, show.year, rows, lower);
    }

    /** One instance: build the index once, then match every target against it. */
    method MatchInstance(inp: Inputs, entity: Entity, inst: string, rows: seq<Row>, targets: seq<int>,
                         lower: string -> string)
      returns (inserted: nat)
      requires inp.allowTitleYear && inst in Enabled(inp, entity)
      requires DistinctIds(rows) && Elements(rows) == LiveRows(Table(inp, entity), inst)
      requires Distinct(targets)
      requires forall m :: m in Elements(targets) ==> m in inp.anime && EntityFor(inp.anime[m]) == entity
      modifies this`links
      ensures links == old(links) + Matches(inp, entity, {inst}, Elements(targets), lower)
      ensures inserted == |Matches(inp, entity, {inst}, Elements(targets), lower)|
    {
      hide Matches, LiveRows, TitleMatch, Indexes;
      var index := BuildIndex(rows, lower);
      inserted := 0;
      NoMatches(inp, entity, {inst}, {}, lower);
      assert Elements(targets[..0]) == {};
      for i := 0 to |targets|
        invariant links == old(links) + Matches(inp, entity, {inst}, Elements(targets[..i]), lower)
        invariant inserted == |Matches(inp, entity, {inst}, Elements(targets[..i]), lower)|
      {
        assert targets[i] in Elements(targets);
        var k := LinkKey(targets[i], inst, entity);
        var found := MatchOne(inp, k, index, rows, lower);
        NextTarget(targets, i);
        OneMore(inp, k, Elements(targets[..i]), old(links), lower);
        if found.Some? {
          links := links[k := Link(found.value, ByTitleYear)];
          inserted := inserted + 1;
        }
      }
      assert targets[..|targets|] == targets;
    }

    method MatchKind(inp: Inputs, entity: Entity, insts: seq<string>, rows: (Entity, string) -> seq<Row>,
                     targets: seq<int>, lower: string -> string)
      returns (inserted: nat)
      requires inp.allowTitleYear && Distinct(insts) && Elements(insts) == Enabled(inp, entity)
      requires forall inst: string ::
                 DistinctIds(rows(entity, inst)) && Elements(rows(entity, inst)) == LiveRows(Table(inp, entity), inst)
      requires Distinct(targets)
      requires forall m :: m in Elements(targets) ==> m in inp.anime && EntityFor(inp.anime[m]) == entity
      modifies this`links
      ensures links == old(links) + Matches(inp, entity, Elements(insts), Elements(targets), lower)
      ensures inserted == |Matches(inp, entity, Elements(insts), Elements(targets), lower)|
    {
      hide Matches, LiveRows;
      inserted := 0;
      NoMatches(inp, entity, {}, Elements(targets), lower);
      assert Elements(insts[..0]) == {};
      for i := 0 to |insts|
        invariant links == old(links) + Matches(inp, entity, Elements(insts[..i]), Elements(targets), lower)
        invariant inserted == |Matches(inp, entity, Elements(insts[..i]), Elements(targets), lower)|
      {
        assert insts[i] in Elements(insts);
        var more := MatchInstance(inp, entity, insts[i], rows(entity, insts[i]), targets, lower);
        NextTarget(insts, i);
        MatchesAddUp(inp, entity, Elements(insts[..i]), Elements(targets), {insts[i]}, Elements(targets), lower);
        MergeAgain(old(links), Matches(inp, entity, Elements(insts[..i]), Elements(targets), lower),
                   Matches(inp, entity, {insts[i]}, Elements(targets), lower));
        assert Elements(targets) + Elements(targets) == Elements(targets);
        inserted := inserted + more;
      }
      assert insts[..|insts|] == insts;
    }

    /** The title-year stage. Whatever the row orders, it writes the links of TitleLayer and counts them. */
    method ApplyTitleYear(inp: Inputs, o: Orders, lower: string -> string) returns (inserted: nat)
      requires Lists(o, inp, links)
      modifies this`links
      ensures links == old(links) + TitleLayer(inp, old(links), lower)
      ensures inserted == |TitleLayer(inp, old(links), lower)|
    {
      hide TitleLayer, Matches, LiveRows, TitleMatch, Unmatched, UnmatchedIds;
      if !inp.allowTitleYear || o.anime == [] {
        assert o.anime == [] ==> Elements(o.anime) == {};
        NoTitleLayer(inp, links, lower);
        return 0;
      }
      ghost var before := links;
      var series, movies := SplitByKind(inp, o.anime);
      UnmatchedOfKind(inp, before, false);
      UnmatchedOfKind(inp, before, true);
      var a := MatchKind(inp, SonarrSeries, o.sonarr, o.rows, series, lower);
      var b := MatchKind(inp, RadarrMovie, o.radarr, o.rows, movies, lower);
      TitleLayerParts(inp, before, lower);
      var forSeries := Matches(inp, SonarrSeries, inp.sonarr, UnmatchedIds(inp, before, false), lower);
      var forMovies := Matches(inp, RadarrMovie, inp.radarr, UnmatchedIds(inp, before, true), lower);
      MergeAgain(before, forSeries, forMovies);
      inserted := a + b;
    }

    /** Every hand-listed link is in the table afterwards, whatever was there; every other link is as before. */
    method UpsertManualWarehouseLinks(inp: Inputs) returns (applied: nat)
      modifies this`links
      ensures forall k :: k in inp.manual ==> ToOption(links, k) == Some(Link(inp.manual[k], Manual))
      ensures forall k :: k !in inp.manual ==> ToOption(links, k) == ToOption(old(links), k)
      ensures applied == |inp.manual|
    {
      links := links + ManualLayer(inp);
      applied := |inp.manual|;
    }

    /** Write the ids of linked items back; the statement fails when it would have to write a row twice. */
    method BackfillExternalIds(inp: Inputs, site: Site) returns (ok: bool)
      modifies this`externals
      ensures ok <==> AgreedAt(inp, links, site)
      ensures ok ==> externals == old(externals) + Feed(inp, links, site)
      ensures !ok ==> externals == old(externals)
    {
      hide LinkedIds, Feed;
      if m :| m in inp.anime && |LinkedIds(inp, links, site, m)| > 1 {
        return false;
      }
      var written: map<ExtKey, string> := map[];
      var left := SiteKeys(inp.anime.Keys, site);
      ghost var all := Feed(inp, links, site);
      assert written == all - left by { FeedKeys(inp, links, site); }
      while left != {}
        invariant links == old(links) && externals == old(externals)
        invariant left <= SiteKeys(inp.anime.Keys, site)
        invariant written == all - left
        decreases |left|
      {
        var e :| e in left;
        FeedAt(inp, links, site, e);
        var ids := LinkedIds(inp, links, site, e.malId);
        if ids != {} {
          var id :| id in ids;
          OneElement(ids, id, all[e]);
          written := written[e := id];
        }
        OneKeyLess(all, left, e);
        left := left - {e};
      }
      assert all - left == all;
      externals := externals + written;
      ok := true;
    }

    /** The deletes and every layer, in order. */
    method RebuildLinks(inp: Inputs, orders: Links -> Orders, lower: string -> string)
      requires forall l: Links :: Lists(orders(l), inp, l)
      modifies this`links
      ensures links == Rebuilt(inp, old(links), lower)
    {
      hide IdLayer, TitleLayer, Lists, WithoutUndubbed, ManualOnly, ManualLayer;
      ghost var before := links;
      DeleteLinksForUndubbed(inp);
      ClearAutoWarehouseLinks();
      var _ := InsertIdLinks(inp, Tvdb);
      var _ := InsertIdLinks(inp, Tmdb);
      var _ := InsertIdLinks(inp, Imdb);
      assert links == Staged(inp, before);
      var _ := ApplyTitleYear(inp, orders(links), lower);
      ghost var matched := links;
      var _ := UpsertManualWarehouseLinks(inp);
      ManualOverrides(inp, matched, links);
    }

    /** One matcher run in one transaction: all its effects, or none when the feedback fails. The row orders are
        those the database returns when the title-year stage asks. */
    method Run(inp: Inputs, orders: Links -> Orders, lower: string -> string) returns (ok: bool)
      requires inp.externals == externals
      requires forall l: Links :: Lists(orders(l), inp, l)
      modifies this
      ensures ok <==> Agreed(inp, Rebuilt(inp, old(links), lower))
      ensures ok ==> links == Rebuilt(inp, old(links), lower)
      ensures ok ==> externals == FedBackAll(inp, links)
      ensures !ok ==> links == old(links) && externals == old(externals)
    {
      hide Rebuilt, Feed, LinkedIds, Lists;
      var savedLinks, savedExternals := links, externals;
      RebuildLinks(inp, orders, lower);
      ok := BackfillExternalIds(inp, Tvdb);
      if ok {
        ok := BackfillExternalIds(inp, Tmdb);
      }
      if ok {
        ok := BackfillExternalIds(inp, Imdb);
      }
      if !ok {
        links, externals := savedLinks, savedExternals;
      }
    }
  }

  lemma ManualOverrides(inp: Inputs, before: Links, after: Links)
    requires forall k :: k in inp.manual ==> ToOption(after, k) == Some(Link(inp.manual[k], Manual))
    requires forall k :: k !in inp.manual ==> ToOption(after, k) == ToOption(before, k)
    ensures after == before + ManualLayer(inp)
  {
    forall k ensures ToOption(after, k) == ToOption(before + ManualLayer(inp), k) {
    }
    SameEverywhere(after, before + ManualLayer(inp));
  }

  lemma FeedKeys(inp: Inputs, links: Links, site: Site)
    ensures Feed(inp, links, site).Keys <= SiteKeys(inp.anime.Keys, site)
  {
    hide LinkedIds;
  }

  lemma LayerKeys(inp: Inputs, site: Site)
    ensures IdLayer(inp, site).Keys <= KeysFor(inp.anime.Keys, Instances(Table(inp, EntityOf(site))), EntityOf(site))
  {
    hide IdMatch;
  }

  /** One more target: the matches of the earlier ones and its own, if it has one. */
  lemma OneMore(inp: Inputs, k: LinkKey, done: set<int>, links: Links, lower: string -> string)
    requires k.malId !in done
    ensures var found := TitleMatch(inp, k, lower);
            var earlier := Matches(inp, k.entity, {k.inst}, done, lower);
            var both := Matches(inp, k.entity, {k.inst}, done + {k.malId}, lower);
            if found.Some? then
              links + both == (links + earlier)[k := Link(found.value, ByTitleYear)] && |both| == |earlier| + 1
            else links + both == links + earlier && |both| == |earlier|
  {
    hide Matches, TitleMatch;
    MatchesAddUp(inp, k.entity, {k.inst}, done, {k.inst}, {k.malId}, lower);
    assert {k.inst} + {k.inst} == {k.inst};
    OneMatch(inp, k, lower);
    hide *;
    var earlier := Matches(inp, k.entity, {k.inst}, done, lower);
    AddOwn(links, earlier, Matches(inp, k.entity, {k.inst}, {k.malId}, lower), k, TitleMatch(inp, k, lower));
  }

  lemma AddOwn(links: Links, earlier: Links, own: Links, k: LinkKey, found: Option<int>)
    requires own == if found.Some? then map[k := Link(found.value, ByTitleYear)] else map[]
    ensures found.Some? ==>
              links + (earlier + own) == (links + earlier)[k := Link(found.value, ByTitleYear)] && |own| == 1
    ensures found.None? ==> links + (earlier + own) == links + earlier && |own| == 0
  {
    MergeAgain(links, earlier, own);
  }

  lemma NextTarget<T>(s: seq<T>, i: nat)
    requires i < |s| && Distinct(s)
    ensures Elements(s[..i + 1]) == Elements(s[..i]) + {s[i]}
    ensures Elements(s[..i]) !! {s[i]}
  {
    FrontLast(s[..i + 1]);
    assert s[..i + 1][..i] == s[..i];
  }

  lemma MergeAgain(a: Links, b: Links, c: Links)
    ensures a + (b + c) == (a + b) + c
  {
  }

  lemma NoMatches(inp: Inputs, entity: Entity, insts: set<string>, malIds: set<int>, lower: string -> string)
    requires insts == {} || malIds == {}
    ensures Matches(inp, entity, insts, malIds, lower) == map[]
    ensures forall l: Links :: l + Matches(inp, entity, insts, malIds, lower) == l
  {
    hide TitleMatch;
    assert Matches(inp, entity, insts, malIds, lower).Keys == {};
  }

  lemma OneMatch(inp: Inputs, k: LinkKey, lower: string -> string)
    ensures var found := TitleMatch(inp, k, lower);
            Matches(inp, k.entity, {k.inst}, {k.malId}, lower) ==
            if found.Some? then map[k := Link(found.value, ByTitleYear)] else map[]
  {
    hide TitleMatch;
    var found := TitleMatch(inp, k, lower);
    var expected: Links := if found.Some? then map[k := Link(found.value, ByTitleYear)] else map[];
    forall q ensures ToOption(Matches(inp, k.entity, {k.inst}, {k.malId}, lower), q) == ToOption(expected, q) {
    }
    SameEverywhere(Matches(inp, k.entity, {k.inst}, {k.malId}, lower), expected);
  }

  lemma NoTitleLayer(inp: Inputs, links: Links, lower: string -> string)
    requires !inp.allowTitleYear || AllUnmatched(inp, links) == {}
    ensures TitleLayer(inp, links, lower) == map[]
    ensures links + TitleLayer(inp, links, lower) == links
  {
    hide Unmatched, Picked;
    forall k: LinkKey | k.malId in inp.anime && inp.allowTitleYear ensures !Unmatched(inp, links, k.malId) {
      assert k.malId !in AllUnmatched(inp, links);
    }
    assert TitleLayer(inp, links, lower).Keys == {};
  }

  lemma VariantsNotEmpty(main: Option<string>, additional: seq<Option<string>>, lower: string -> string)
    ensures forall k :: k in Variants(main, additional, lower) ==> k != []
  {
    KeysAre(RawTitles(main, additional), lower);
  }

  /** Split the anime rows into series and movies, keeping their order. */
  method SplitByKind(inp: Inputs, malIds: seq<int>) returns (series: seq<int>, movies: seq<int>)
    requires Distinct(malIds) && Elements(malIds) <= inp.anime.Keys
    ensures Distinct(series) && Distinct(movies)
    ensures Elements(series) == OfKind(inp, Elements(malIds), false)
    ensures Elements(movies) == OfKind(inp, Elements(malIds), true)
  {
    series, movies := [], [];
    for i := 0 to |malIds|
      invariant Elements(malIds[..i]) <= inp.anime.Keys
      invariant Distinct(series) && Distinct(movies)
      invariant Elements(series) == OfKind(inp, Elements(malIds[..i]), false)
      invariant Elements(movies) == OfKind(inp, Elements(malIds[..i]), true)
    {
      var m := malIds[i];
      assert m in Elements(malIds);
      NextTarget(malIds, i);
      if inp.anime[m].isMovie {
        ElementsOfConcat(movies, [m]);
        assert m !in Elements(movies);
        movies := movies + [m];
      } else {
        ElementsOfConcat(series, [m]);
        assert m !in Elements(series);
        series := series + [m];
      }
    }
    assert malIds[..|malIds|] == malIds;
  }
}
