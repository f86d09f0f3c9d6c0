/** The warehouse-link table of the MyAnimeList matcher and the layers that rebuild it, on values. */
module LinkTables {
  import opened Prelude
  import opened Text
  import opened TitleIndex

  datatype Entity = SonarrSeries | RadarrMovie
  datatype Site = Tvdb | Tmdb | Imdb
  datatype How = ById(site: Site) | ByTitleYear | Manual

  datatype LinkKey = LinkKey(malId: int, inst: string, entity: Entity)
  datatype Link = Link(sourceId: int, how: How)

  type Links = map<LinkKey, Link>

  datatype ItemKey = ItemKey(sourceId: int, inst: string)

  /** A warehouse series or movie. `ids` holds the external ids its payload carries. */
  datatype Item = Item(title: string, year: Option<int>, deleted: bool, ids: map<Site, string>)

  /** The columns of mal.anime the matcher reads; `year` is the start year it could parse. */
  datatype Show = Show(dubbed: bool, mainTitle: Option<string>, additional: seq<Option<string>>, year: Option<int>,
                       isMovie: bool)

  datatype ExtKey = ExtKey(malId: int, site: Site)

  datatype Inputs = Inputs(
    anime: map<int, Show>,
    externals: map<ExtKey, string>,
    series: map<ItemKey, Item>,
    movies: map<ItemKey, Item>,
    manual: map<LinkKey, int>,
    sonarr: set<string>,
    radarr: set<string>,
    allowTitleYear: bool)

  function EntityOf(site: Site): Entity {
    if site.Tvdb? then SonarrSeries else RadarrMovie
  }

  function Table(inp: Inputs, entity: Entity): map<ItemKey, Item> {
    if entity.SonarrSeries? then inp.series else inp.movies
  }

  function Enabled(inp: Inputs, entity: Entity): set<string> {
    if entity.SonarrSeries? then inp.sonarr else inp.radarr
  }

  predicate IsDubbed(inp: Inputs, malId: int) {
    malId in inp.anime && inp.anime[malId].dubbed
  }

  // ---------------------------------------------------------------- id layers

  function CompareForm(site: Site, id: string): string {
    if site.Imdb? then LowerAscii(Trim(WithoutTT(id))) else Trim(id)
  }

  predicate Carries(item: Item, site: Site, wanted: string) {
    && !item.deleted
    && site in item.ids
    && Trim(item.ids[site]) != []
    && CompareForm(site, item.ids[site]) == CompareForm(site, wanted)
  }

  /** The live items of an instance that carry an external id. */
  function Carriers(table: map<ItemKey, Item>, inst: string, site: Site, wanted: string): set<int> {
    set k | k in table && k.inst == inst && Carries(table[k], site, wanted) :: k.sourceId
  }

  /** The item an anime's external id leads to in an instance: the least source id carrying it. */
  ghost function IdMatch(inp: Inputs, malId: int, inst: string, site: Site): Option<int> {
    if IsDubbed(inp, malId) && ExtKey(malId, site) in inp.externals then
      var c := Carriers(Table(inp, EntityOf(site)), inst, site, inp.externals[ExtKey(malId, site)]);
      if c == {} then None else Some(Least(c))
    else None
  }

  /** Two ids of a site are the same: as texts without outer spaces, for imdb also without "tt" and in any case. */
  predicate SameId(site: Site, own: string, wanted: string) {
    match site
    case Tvdb => Trim(own) == Trim(wanted)
    case Tmdb => Trim(own) == Trim(wanted)
    case Imdb => LowerAscii(Trim(WithoutTT(own))) == LowerAscii(Trim(WithoutTT(wanted)))
  }

  /** Item `x` of an instance is live and has an id of a site that is the one a dubbed anime has. */
  ghost predicate Leads(inp: Inputs, malId: int, inst: string, site: Site, x: int) {
    var table := if site == Tvdb then inp.series else inp.movies;
    var row := ItemKey(x, inst);
    && malId in inp.anime && inp.anime[malId].dubbed
    && ExtKey(malId, site) in inp.externals
    && row in table && !table[row].deleted
    && site in table[row].ids && Trim(table[row].ids[site]) != ""
    && SameId(site, table[row].ids[site], inp.externals[ExtKey(malId, site)])
  }

  /** The least item the id leads to, and none exactly when it leads nowhere. */
  ghost predicate LeadsFirst(inp: Inputs, malId: int, inst: string, site: Site, found: Option<int>) {
    match found
    case None => forall x :: !Leads(inp, malId, inst, site, x)
    case Some(x) => Leads(inp, malId, inst, site, x) && forall y :: Leads(inp, malId, inst, site, y) ==> x <= y
  }

  /** An id match is the least source id of a live row of the instance with the anime's own id. */
  lemma IdMatchIs(inp: Inputs, malId: int, inst: string, site: Site)
    ensures LeadsFirst(inp, malId, inst, site, IdMatch(inp, malId, inst, site))
  {
    hide Trim, WithoutTT, LowerAscii;
    if IsDubbed(inp, malId) && ExtKey(malId, site) in inp.externals {
      var table := Table(inp, EntityOf(site));
      var wanted := inp.externals[ExtKey(malId, site)];
      forall x ensures x in Carriers(table, inst, site, wanted) <==> Leads(inp, malId, inst, site, x) {
        CarriersAre(inp, malId, inst, site, x);
      }
    }
  }

  lemma CarriersAre(inp: Inputs, malId: int, inst: string, site: Site, x: int)
    requires IsDubbed(inp, malId) && ExtKey(malId, site) in inp.externals
    ensures x in Carriers(Table(inp, EntityOf(site)), inst, site, inp.externals[ExtKey(malId, site)]) <==>
              Leads(inp, malId, inst, site, x)
  {
    hide Trim, WithoutTT, LowerAscii;
    var table := Table(inp, EntityOf(site));
    if Leads(inp, malId, inst, site, x) {
      var row := ItemKey(x, inst);
      assert row in table && row.inst == inst && Carries(table[row], site, inp.externals[ExtKey(malId, site)]);
    }
  }

  function Instances(table: map<ItemKey, Item>): set<string> {
    set k | k in table :: k.inst
  }

  function KeysFor(malIds: set<int>, insts: set<string>, entity: Entity): (keys: set<LinkKey>)
    ensures forall k :: k in keys <==> k.malId in malIds && k.inst in insts && k.entity == entity
  {
    set m, i | m in malIds && i in insts :: LinkKey(m, i, entity)
  }

  /** All links one id layer writes. */
  ghost function IdLayer(inp: Inputs, site: Site): Links {
    map k | k in KeysFor(inp.anime.Keys, Instances(Table(inp, EntityOf(site))), EntityOf(site)) &&
            IdMatch(inp, k.malId, k.inst, site).Some? ::
      Link(IdMatch(inp, k.malId, k.inst, site).value, ById(site))
  }

  // ---------------------------------------------------------------- deletes

  function WithoutUndubbed(inp: Inputs, links: Links): Links {
    map k | k in links && !(k.malId in inp.anime && !inp.anime[k.malId].dubbed) :: links[k]
  }

  function ManualOnly(links: Links): Links {
    map k | k in links && links[k].how.Manual? :: links[k]
  }

  // ---------------------------------------------------------------- title and year

  function RowOf(k: ItemKey, item: Item): Row {
    Row(k.sourceId, item.title, item.year)
  }

  /** The live rows of one instance. */
  function LiveRows(table: map<ItemKey, Item>, inst: string): set<Row> {
    set k | k in table && k.inst == inst && !table[k].deleted :: RowOf(k, table[k])
  }

  function EntityFor(show: Show): Entity {
    if show.isMovie then RadarrMovie else SonarrSeries
  }

  predicate HasTitles(show: Show) {
    (show.mainTitle.Some? && Trim(show.mainTitle.value) != []) || show.additional != []
  }

  predicate HasLink(links: Links, malId: int) {
    exists k :: k in links && k.malId == malId
  }

  /** Dubbed, titled, and without any link when the stage starts. */
  predicate Unmatched(inp: Inputs, links: Links, malId: int) {
    IsDubbed(inp, malId) && HasTitles(inp.anime[malId]) && !HasLink(links, malId)
  }

  /** The item that title and year lead to in an enabled instance of the right kind. */
  ghost function TitleMatch(inp: Inputs, k: LinkKey, lower: string -> string): Option<int> {
    if inp.allowTitleYear && k.malId in inp.anime && k.entity == EntityFor(inp.anime[k.malId]) &&
       k.inst in Enabled(inp, k.entity)
    then
      var show := inp.anime[k.malId];
      Picked(LiveRows(Table(inp, k.entity), k.inst), Variants(show.mainTitle, show.additional, lower), show.year, lower)
    else None
  }

  /** All links the title-year stage writes, given the links it starts from. */
  ghost function TitleLayer(inp: Inputs, links: Links, lower: string -> string): Links {
    map k | k in KeysFor(inp.anime.Keys, inp.sonarr, SonarrSeries) + KeysFor(inp.anime.Keys, inp.radarr, RadarrMovie) &&
            Unmatched(inp, links, k.malId) && TitleMatch(inp, k, lower).Some? ::
      Link(TitleMatch(inp, k, lower).value, ByTitleYear)
  }

  /** The rows the stage looks at are those of the live items of the instance. */
  lemma LiveRowsAre(table: map<ItemKey, Item>, inst: string, r: Row)
    ensures r in LiveRows(table, inst) <==>
              && ItemKey(r.sourceId, inst) in table
              && table[ItemKey(r.sourceId, inst)].deleted == false
              && table[ItemKey(r.sourceId, inst)].title == r.title
              && table[ItemKey(r.sourceId, inst)].year == r.year
  {
    var k := ItemKey(r.sourceId, inst);
    if k in table && !table[k].deleted && table[k].title == r.title && table[k].year == r.year {
      assert RowOf(k, table[k]) == r;
    }
  }

  /** The stage links exactly the dubbed anime with a title and without any link, movies in the enabled Radarr instances
      and the others in the enabled Sonarr instances, to the item that their titles and year pick there. */
  lemma TitleLayerIs(inp: Inputs, links: Links, k: LinkKey, x: int, lower: string -> string)
    ensures ToOption(TitleLayer(inp, links, lower), k) == Some(Link(x, ByTitleYear)) <==>
              && inp.allowTitleYear
              && k.malId in inp.anime && inp.anime[k.malId].dubbed
              && (forall q :: q in links ==> q.malId != k.malId)
              && var show := inp.anime[k.malId];
                 var titles := Variants(show.mainTitle, show.additional, lower);
                 && (|show.additional| > 0 || (show.mainTitle.Some? && Trim(show.mainTitle.value) != ""))
                 && (if show.isMovie
                     then k.entity == RadarrMovie && k.inst in inp.radarr &&
                          Picked(LiveRows(inp.movies, k.inst), titles, show.year, lower) == Some(x)
                     else k.entity == SonarrSeries && k.inst in inp.sonarr &&
                          Picked(LiveRows(inp.series, k.inst), titles, show.year, lower) == Some(x))
    ensures k in TitleLayer(inp, links, lower) ==> TitleLayer(inp, links, lower)[k].how == ByTitleYear
  {
    InTitleLayer(inp, links, k, lower);
    hide Picked, LiveRows, Variants, TitleLayer;
  }

  function ManualLayer(inp: Inputs): Links {
    map k | k in inp.manual :: Link(inp.manual[k], Manual)
  }

  // ---------------------------------------------------------------- the rebuild

  /** The links that survive the deletes: manual-method rows that are not of an undubbed anime. */
  function Surviving(inp: Inputs, links: Links): Links {
    ManualOnly(WithoutUndubbed(inp, links))
  }

  /** After the id layers. */
  ghost function Staged(inp: Inputs, links: Links): Links {
    Surviving(inp, links) + IdLayer(inp, Tvdb) + IdLayer(inp, Tmdb) + IdLayer(inp, Imdb)
  }

  ghost function Rebuilt(inp: Inputs, links: Links, lower: string -> string): Links {
    Staged(inp, links) + TitleLayer(inp, Staged(inp, links), lower) + ManualLayer(inp)
  }

  // ---------------------------------------------------------------- what a key ends up with

  function ToOption(links: Links, k: LinkKey): Option<Link> {
    if k in links then Some(links[k]) else None
  }

  /** The id match that wins for a key: for movies imdb over tmdb. */
  ghost function BestIdMatch(inp: Inputs, k: LinkKey): Option<Link> {
    if k.entity.SonarrSeries? then
      var m := IdMatch(inp, k.malId, k.inst, Tvdb);
      if m.Some? then Some(Link(m.value, ById(Tvdb))) else None
    else
      var m := IdMatch(inp, k.malId, k.inst, Imdb);
      if m.Some? then Some(Link(m.value, ById(Imdb)))
      else
        var n := IdMatch(inp, k.malId, k.inst, Tmdb);
        if n.Some? then Some(Link(n.value, ById(Tmdb))) else None
  }

  /** The link of a key after a rebuild: listed by hand, else found by id, else a surviving manual-method row,
      else found by title and year for an anime that had nothing else. */
  ghost function FinalLink(inp: Inputs, links: Links, k: LinkKey, lower: string -> string): Option<Link> {
    if k in inp.manual then Some(Link(inp.manual[k], Manual))
    else if BestIdMatch(inp, k).Some? then BestIdMatch(inp, k)
    else if k in Surviving(inp, links) then Some(links[k])
    else if Unmatched(inp, Staged(inp, links), k.malId) && TitleMatch(inp, k, lower).Some? then
      Some(Link(TitleMatch(inp, k, lower).value, ByTitleYear))
    else None
  }

  lemma IdMatchInTable(inp: Inputs, malId: int, inst: string, site: Site)
    requires IdMatch(inp, malId, inst, site).Some?
    ensures malId in inp.anime && inst in Instances(Table(inp, EntityOf(site)))
    ensures IsDubbed(inp, malId)
  {
    var table := Table(inp, EntityOf(site));
    var c := Carriers(table, inst, site, inp.externals[ExtKey(malId, site)]);
    var x := Pick(c);
    var wanted := inp.externals[ExtKey(malId, site)];
    var k :| k in table && k.inst == inst && Carries(table[k], site, wanted) && k.sourceId == x;
    assert k.inst in Instances(table);
  }

  lemma InIdLayer(inp: Inputs, site: Site, k: LinkKey)
    ensures ToOption(IdLayer(inp, site), k) ==
            if k.entity == EntityOf(site) && IdMatch(inp, k.malId, k.inst, site).Some?
            then Some(Link(IdMatch(inp, k.malId, k.inst, site).value, ById(site))) else None
  {
    hide IdMatch;
    if IdMatch(inp, k.malId, k.inst, site).Some? {
      IdMatchInTable(inp, k.malId, k.inst, site);
    }
  }

  /** One id layer links every key of its kind of item exactly where the anime's id leads first. */
  lemma IdLayerIs(inp: Inputs, site: Site, k: LinkKey)
    ensures k.entity != (if site == Tvdb then SonarrSeries else RadarrMovie) ==> k !in IdLayer(inp, site)
    ensures k.entity == (if site == Tvdb then SonarrSeries else RadarrMovie) ==>
              if k in IdLayer(inp, site)
              then IdLayer(inp, site)[k].how == ById(site) &&
                   LeadsFirst(inp, k.malId, k.inst, site, Some(IdLayer(inp, site)[k].sourceId))
              else LeadsFirst(inp, k.malId, k.inst, site, None)
  {
    InIdLayer(inp, site, k);
    IdMatchIs(inp, k.malId, k.inst, site);
    hide IdLayer, IdMatch, LeadsFirst;
  }

  lemma StagedAt(inp: Inputs, links: Links, k: LinkKey)
    ensures ToOption(Staged(inp, links), k) ==
            if BestIdMatch(inp, k).Some? then BestIdMatch(inp, k) else ToOption(Surviving(inp, links), k)
  {
    hide IdMatch, IdLayer, Surviving;
    InIdLayer(inp, Tvdb, k);
    InIdLayer(inp, Tmdb, k);
    InIdLayer(inp, Imdb, k);
  }

  lemma InTitleLayer(inp: Inputs, links: Links, k: LinkKey, lower: string -> string)
    ensures ToOption(TitleLayer(inp, links, lower), k) ==
            if Unmatched(inp, links, k.malId) && TitleMatch(inp, k, lower).Some?
            then Some(Link(TitleMatch(inp, k, lower).value, ByTitleYear)) else None
  {
    hide Picked, HasTitles, HasLink, LiveRows, Variants;
  }

  lemma UnmatchedMeansNoKey(inp: Inputs, links: Links, k: LinkKey)
    requires Unmatched(inp, links, k.malId)
    ensures k !in links
  {
  }

  /** The rebuild gives every key exactly its final link. */
  lemma RebuiltAt(inp: Inputs, links: Links, k: LinkKey, lower: string -> string)
    ensures ToOption(Rebuilt(inp, links, lower), k) == FinalLink(inp, links, k, lower)
  {
    hide IdMatch, BestIdMatch, Staged, TitleLayer, Unmatched, TitleMatch;
    StagedAt(inp, links, k);
    InTitleLayer(inp, Staged(inp, links), k, lower);
    if Unmatched(inp, Staged(inp, links), k.malId) {
      UnmatchedMeansNoKey(inp, Staged(inp, links), k);
    }
    assert k in Surviving(inp, links) ==> Surviving(inp, links)[k] == links[k];
  }

  lemma SameEverywhere(a: Links, b: Links)
    requires forall k :: ToOption(a, k) == ToOption(b, k)
    ensures a == b
  {
    forall k ensures k in a <==> k in b {
      assert ToOption(a, k) == ToOption(b, k);
    }
    forall k | k in a ensures a[k] == b[k] {
      assert ToOption(a, k) == ToOption(b, k);
    }
  }

  /** Two tables hold the same manual-method rows, of undubbed anime apart. */
  ghost predicate SameManualRows(inp: Inputs, links: Links, other: Links) {
    forall k: LinkKey :: !(k.malId in inp.anime && !inp.anime[k.malId].dubbed) ==>
      ManualRow(links, k) == ManualRow(other, k)
  }

  function ManualRow(links: Links, k: LinkKey): Option<Link> {
    if k in links && links[k].how.Manual? then Some(links[k]) else None
  }

  lemma SurvivingAt(inp: Inputs, links: Links, k: LinkKey)
    ensures ToOption(Surviving(inp, links), k) ==
            if k.malId in inp.anime && !inp.anime[k.malId].dubbed then None else ManualRow(links, k)
  {
  }

  /** Automatic links that existed before, and all links of undubbed anime, make no difference. */
  lemma AutomaticHistoryIsIrrelevant(inp: Inputs, links: Links, other: Links, lower: string -> string)
    requires SameManualRows(inp, links, other)
    ensures Rebuilt(inp, links, lower) == Rebuilt(inp, other, lower)
  {
    hide Surviving, Staged, TitleLayer, ManualLayer;
    forall k ensures ToOption(Surviving(inp, links), k) == ToOption(Surviving(inp, other), k) {
      SurvivingAt(inp, links, k);
      SurvivingAt(inp, other, k);
    }
    SameEverywhere(Surviving(inp, links), Surviving(inp, other));
    StagedFromSurviving(inp, links, other);
  }

  lemma StagedFromSurviving(inp: Inputs, links: Links, other: Links)
    requires Surviving(inp, links) == Surviving(inp, other)
    ensures Staged(inp, links) == Staged(inp, other)
  {
    hide Surviving, IdLayer;
  }

  /** An undubbed anime keeps exactly the links listed by hand. */
  lemma UndubbedKeepManualOnly(inp: Inputs, links: Links, k: LinkKey, lower: string -> string)
    requires k.malId in inp.anime && !inp.anime[k.malId].dubbed
    ensures k in Rebuilt(inp, links, lower) <==> k in inp.manual
  {
    hide Picked, Staged, TitleMatch;
    RebuiltAt(inp, links, k, lower);
  }

  // ---------------------------------------------------------------- what history is left

  /** A key that is not listed holds a manual-method link after a run exactly when it did before, its anime is not
      undubbed, and no id leads anywhere; the link is then the old one. */
  lemma StaleManualRowStays(inp: Inputs, links: Links, k: LinkKey, lower: string -> string)
    requires k !in inp.manual
    ensures ManualRow(Rebuilt(inp, links, lower), k) ==
            if (k.malId in inp.anime && !inp.anime[k.malId].dubbed) || BestIdMatch(inp, k).Some? then None
            else ManualRow(links, k)
  {
    hide Rebuilt, Staged, Surviving, TitleMatch, BestIdMatch, HasTitles;
    RebuiltAt(inp, links, k, lower);
    SurvivingAt(inp, links, k);
    BestIdIsById(inp, k);
  }

  lemma BestIdIsById(inp: Inputs, k: LinkKey)
    ensures BestIdMatch(inp, k).Some? ==> BestIdMatch(inp, k).value.how.ById?
  {
    hide IdMatch;
  }

  /** Some surviving row of an anime. */
  ghost predicate RowSurvives(inp: Inputs, links: Links, malId: int) {
    exists k :: k in Surviving(inp, links) && k.malId == malId
  }

  ghost predicate FoundById(inp: Inputs, malId: int) {
    exists k: LinkKey :: k.malId == malId && BestIdMatch(inp, k).Some?
  }

  lemma UnmatchedIs(inp: Inputs, links: Links, malId: int)
    ensures Unmatched(inp, Staged(inp, links), malId) <==>
              IsDubbed(inp, malId) && HasTitles(inp.anime[malId]) && !FoundById(inp, malId) &&
              !RowSurvives(inp, links, malId)
  {
    hide Staged, Surviving, BestIdMatch, HasTitles;
    forall k: LinkKey ensures k in Staged(inp, links) <==> BestIdMatch(inp, k).Some? || k in Surviving(inp, links) {
      StagedAt(inp, links, k);
    }
    if HasLink(Staged(inp, links), malId) {
      var k :| k in Staged(inp, links) && k.malId == malId;
      assert BestIdMatch(inp, k).Some? || k in Surviving(inp, links);
    }
    if FoundById(inp, malId) {
      var k: LinkKey :| k.malId == malId && BestIdMatch(inp, k).Some?;
      assert k in Staged(inp, links);
    }
    if RowSurvives(inp, links, malId) {
      var k :| k in Surviving(inp, links) && k.malId == malId;
      assert k in Staged(inp, links);
    }
  }

  /** A surviving row keeps a key it holds, or keeps title and year from linking another key of its anime. */
  ghost predicate HistoryShows(inp: Inputs, links: Links, k: LinkKey, lower: string -> string) {
    k !in inp.manual && BestIdMatch(inp, k).None? &&
    (k in Surviving(inp, links) ||
     (IsDubbed(inp, k.malId) && HasTitles(inp.anime[k.malId]) && TitleMatch(inp, k, lower).Some? &&
      !FoundById(inp, k.malId) && RowSurvives(inp, links, k.malId)))
  }

  lemma HistoryShowsAt(inp: Inputs, links: Links, bare: Links, k: LinkKey, lower: string -> string)
    requires forall q :: q !in Surviving(inp, bare)
    ensures ToOption(Rebuilt(inp, links, lower), k) == ToOption(Rebuilt(inp, bare, lower), k)
       <==> !HistoryShows(inp, links, k, lower)
  {
    hide Rebuilt, Staged, Surviving, TitleMatch, BestIdMatch, HasTitles, FoundById;
    RebuiltAt(inp, links, k, lower);
    RebuiltAt(inp, bare, k, lower);
    UnmatchedIs(inp, links, k.malId);
    UnmatchedIs(inp, bare, k.malId);
    SurvivingAt(inp, links, k);
  }

  /** A run gives what it would give on a table without surviving rows, an empty one for instance, exactly when no
      surviving row keeps its own key or keeps title and year from linking another. */
  lemma HistoryForgottenIff(inp: Inputs, links: Links, bare: Links, lower: string -> string)
    requires forall q :: q !in Surviving(inp, bare)
    ensures Rebuilt(inp, links, lower) == Rebuilt(inp, bare, lower)
       <==> forall k :: !HistoryShows(inp, links, k, lower)
  {
    hide Rebuilt, HistoryShows, Surviving;
    forall k
      ensures ToOption(Rebuilt(inp, links, lower), k) == ToOption(Rebuilt(inp, bare, lower), k)
         <==> !HistoryShows(inp, links, k, lower)
    {
      HistoryShowsAt(inp, links, bare, k, lower);
    }
    if forall k :: !HistoryShows(inp, links, k, lower) {
      SameEverywhere(Rebuilt(inp, links, lower), Rebuilt(inp, bare, lower));
    }
  }
}
