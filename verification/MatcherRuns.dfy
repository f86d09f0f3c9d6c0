/** Runs of the matcher one after another: each run rewrites the links and the external ids the next one reads. */
module MatcherRuns {
  import opened Prelude
  import opened Text
  import opened LinkTables
  import Matcher
  import TitleIndex

  /** What a run changes. */
  datatype Pair = Pair(links: Links, externals: map<ExtKey, string>)

  function With(inp: Inputs, s: Pair): Inputs {
    inp.(externals := s.externals)
  }

  ghost function NextLinks(inp: Inputs, s: Pair, lower: string -> string): Links {
    Rebuilt(With(inp, s), s.links, lower)
  }

  ghost predicate Succeeds(inp: Inputs, s: Pair, lower: string -> string) {
    Matcher.Agreed(With(inp, s), NextLinks(inp, s, lower))
  }

  /** One run; a failing one is rolled back. */
  ghost function RunOn(inp: Inputs, s: Pair, lower: string -> string): Pair {
    if Succeeds(inp, s, lower)
    then Pair(NextLinks(inp, s, lower), Matcher.FedBackAll(With(inp, s), NextLinks(inp, s, lower)))
    else s
  }

  ghost function Runs(inp: Inputs, s: Pair, n: nat, lower: string -> string): Pair {
    if n == 0 then s else RunOn(inp, Runs(inp, s, n - 1, lower), lower)
  }

  /** The statements of a run, on a session that holds the pair. */
  method RunSession(session: Matcher.Session, inp: Inputs, orders: Links -> Matcher.Orders, lower: string -> string)
    returns (ok: bool)
    requires forall l: Links :: Matcher.Lists(orders(l), inp.(externals := session.externals), l)
    modifies session
    ensures ok <==> Succeeds(inp, old(Pair(session.links, session.externals)), lower)
    ensures Pair(session.links, session.externals) == RunOn(inp, old(Pair(session.links, session.externals)), lower)
  {
    hide Rebuilt, Matcher.Agreed, Matcher.FedBackAll, Matcher.Lists;
    ok := session.Run(inp.(externals := session.externals), orders, lower);
  }

  // ---------------------------------------------------------------- external ids and their classes

  function Ext(s: Pair, m: int, site: Site): Option<string> {
    if ExtKey(m, site) in s.externals then Some(s.externals[ExtKey(m, site)]) else None
  }

  /** All that the id layers see of an external id: how it compares. */
  function Class(s: Pair, m: int, site: Site): Option<string> {
    var id := Ext(s, m, site);
    if id.Some? then Some(CompareForm(site, id.value)) else None
  }

  /** The id of a site that the live item behind a link carries. */
  function IdAt(inp: Inputs, k: LinkKey, l: Link, site: Site): Option<string> {
    var row := ItemKey(l.sourceId, k.inst);
    if k.entity == EntityOf(site) && row in Table(inp, k.entity) && Matcher.CarriesId(Table(inp, k.entity)[row], site)
    then Some(Trim(Table(inp, k.entity)[row].ids[site])) else None
  }

  /** Some linked item of the anime carries an id of the site. */
  predicate Carried(inp: Inputs, links: Links, m: int, site: Site) {
    exists k :: k in links && k.malId == m && IdAt(inp, k, links[k], site).Some?
  }

  ghost function Match(inp: Inputs, s: Pair, k: LinkKey, site: Site): Option<int> {
    IdMatch(With(inp, s), k.malId, k.inst, site)
  }

  ghost function Best(inp: Inputs, s: Pair, k: LinkKey): Option<Link> {
    BestIdMatch(With(inp, s), k)
  }

  lemma BestIs(inp: Inputs, s: Pair, k: LinkKey)
    ensures Best(inp, s, k) ==
            if k.entity.SonarrSeries? then
              if Match(inp, s, k, Tvdb).Some? then Some(Link(Match(inp, s, k, Tvdb).value, ById(Tvdb))) else None
            else if Match(inp, s, k, Imdb).Some? then Some(Link(Match(inp, s, k, Imdb).value, ById(Imdb)))
            else if Match(inp, s, k, Tmdb).Some? then Some(Link(Match(inp, s, k, Tmdb).value, ById(Tmdb)))
            else None
  {
    hide IdMatch;
  }

  /** Ids that compare alike lead to the same item. */
  lemma SameClassSameMatch(inp: Inputs, s: Pair, t: Pair, k: LinkKey, site: Site)
    requires Class(s, k.malId, site) == Class(t, k.malId, site)
    ensures Match(inp, s, k, site) == Match(inp, t, k, site)
  {
    hide CompareForm, Trim;
    if IsDubbed(inp, k.malId) && Ext(s, k.malId, site).Some? {
      var a := Carriers(Table(inp, EntityOf(site)), k.inst, site, Ext(s, k.malId, site).value);
      var b := Carriers(Table(inp, EntityOf(site)), k.inst, site, Ext(t, k.malId, site).value);
      assert a == b;
    }
  }

  lemma TrimmedCompares(site: Site, id: string)
    ensures CompareForm(site, Trim(id)) == CompareForm(site, id)
    ensures Trim(Trim(id)) == Trim(id)
  {
    TrimmedIdsCompare(id);
  }

  /** The matched item carries an id that compares as the anime's. */
  lemma MatchCarries(inp: Inputs, s: Pair, k: LinkKey, site: Site, how: How)
    requires Match(inp, s, k, site).Some? && k.entity == EntityOf(site)
    ensures var id := IdAt(inp, k, Link(Match(inp, s, k, site).value, how), site);
            IsDubbed(inp, k.malId) && id.Some? && Class(s, k.malId, site) == Some(CompareForm(site, id.value))
  {
    hide CompareForm, Trim;
    var table := Table(inp, EntityOf(site));
    var wanted := s.externals[ExtKey(k.malId, site)];
    var c := Carriers(table, k.inst, site, wanted);
    var x := Match(inp, s, k, site).value;
    assert x in c;
    var row :| row in table && row.inst == k.inst && Carries(table[row], site, wanted) && row.sourceId == x;
    assert row == ItemKey(x, k.inst);
    TrimmedCompares(site, table[row].ids[site]);
  }

  /** A live item of the instance that carries the anime's id makes a match. */
  lemma CarrierMatches(inp: Inputs, s: Pair, k: LinkKey, site: Site, l: Link)
    requires IsDubbed(inp, k.malId) && IdAt(inp, k, l, site).Some?
    requires Class(s, k.malId, site) == Some(CompareForm(site, IdAt(inp, k, l, site).value))
    ensures Match(inp, s, k, site).Some? && k.entity == EntityOf(site)
    ensures Match(inp, s, k, site).value <= l.sourceId
  {
    hide CompareForm, Trim;
    var table := Table(inp, EntityOf(site));
    var row := ItemKey(l.sourceId, k.inst);
    TrimmedCompares(site, table[row].ids[site]);
    var wanted := s.externals[ExtKey(k.malId, site)];
    assert Carries(table[row], site, wanted);
    assert row.sourceId in Carriers(table, k.inst, site, wanted);
  }

  // ---------------------------------------------------------------- one run, key by key

  ghost predicate Step(inp: Inputs, s: Pair, t: Pair, lower: string -> string) {
    Succeeds(inp, s, lower) && t == RunOn(inp, s, lower)
  }

  /** A manual-method row of the key, which a run of a dubbed anime does not delete. */
  predicate Kept(s: Pair, k: LinkKey) {
    k in s.links && s.links[k].how.Manual?
  }

  /** Something holds the anime back from the title-year stage: an id match or a manual-method row. */
  ghost predicate Held(inp: Inputs, s: Pair, m: int) {
    exists k: LinkKey :: k.malId == m && (Best(inp, s, k).Some? || Kept(s, k))
  }

  ghost function TitleLink(inp: Inputs, k: LinkKey, lower: string -> string): Option<Link> {
    if IsDubbed(inp, k.malId) && HasTitles(inp.anime[k.malId]) && TitleMatch(inp, k, lower).Some?
    then Some(Link(TitleMatch(inp, k, lower).value, ByTitleYear)) else None
  }

  /** The link of a key of a dubbed anime after a run. */
  ghost function LinkAfter(inp: Inputs, s: Pair, k: LinkKey, lower: string -> string): Option<Link> {
    if k in inp.manual then Some(Link(inp.manual[k], Manual))
    else if Best(inp, s, k).Some? then Best(inp, s, k)
    else if Kept(s, k) then Some(s.links[k])
    else if !Held(inp, s, k.malId) then TitleLink(inp, k, lower)
    else None
  }

  lemma HeldIsStaged(inp: Inputs, s: Pair, m: int)
    requires IsDubbed(inp, m)
    ensures HasLink(Staged(With(inp, s), s.links), m) <==> Held(inp, s, m)
  {
    hide Staged, BestIdMatch;
    var i := With(inp, s);
    forall k: LinkKey | k.malId == m
      ensures k in Staged(i, s.links) <==> Best(inp, s, k).Some? || Kept(s, k)
    {
      StagedAt(i, s.links, k);
      DubbedSurvives(inp, s, k);
    }
    if HasLink(Staged(i, s.links), m) {
      var k :| k in Staged(i, s.links) && k.malId == m;
      assert Best(inp, s, k).Some? || Kept(s, k);
    }
    if Held(inp, s, m) {
      var k: LinkKey :| k.malId == m && (Best(inp, s, k).Some? || Kept(s, k));
      assert k in Staged(i, s.links);
    }
  }

  lemma DubbedSurvives(inp: Inputs, s: Pair, k: LinkKey)
    requires IsDubbed(inp, k.malId)
    ensures k in Surviving(With(inp, s), s.links) <==> Kept(s, k)
    ensures Kept(s, k) ==> Surviving(With(inp, s), s.links)[k] == s.links[k]
  {
  }

  lemma TitleMatchSame(inp: Inputs, s: Pair, k: LinkKey, lower: string -> string)
    ensures TitleMatch(With(inp, s), k, lower) == TitleMatch(inp, k, lower)
  {
    hide TitleIndex.Picked, LiveRows, TitleIndex.Variants;
  }

  lemma DubbedLinkAfter(inp: Inputs, s: Pair, k: LinkKey, lower: string -> string)
    requires IsDubbed(inp, k.malId)
    ensures ToOption(NextLinks(inp, s, lower), k) == LinkAfter(inp, s, k, lower)
  {
    hide Rebuilt, Staged, BestIdMatch, TitleMatch, Surviving, HasTitles;
    RebuiltAt(With(inp, s), s.links, k, lower);
    HeldIsStaged(inp, s, k.malId);
    DubbedSurvives(inp, s, k);
    TitleMatchSame(inp, s, k, lower);
  }

  /** Links of anime that are not dubbed: those listed by hand, and manual-method rows of unknown anime. */
  lemma OtherLinkAfter(inp: Inputs, s: Pair, k: LinkKey, lower: string -> string)
    requires !IsDubbed(inp, k.malId)
    ensures ToOption(NextLinks(inp, s, lower), k) ==
            if k in inp.manual then Some(Link(inp.manual[k], Manual))
            else if Kept(s, k) && k.malId !in inp.anime then Some(s.links[k]) else None
  {
    hide Rebuilt, Staged, TitleMatch, HasTitles;
    RebuiltAt(With(inp, s), s.links, k, lower);
  }

  // ---------------------------------------------------------------- the ids a run writes back

  lemma LinkedIdsAre(inp: Inputs, s: Pair, links: Links, m: int, site: Site)
    requires IsDubbed(inp, m)
    ensures forall id :: id in Matcher.LinkedIds(With(inp, s), links, site, m) <==>
              exists k :: k in links && k.malId == m && IdAt(inp, k, links[k], site) == Some(id)
  {
    hide Trim, Matcher.CarriesId;
    var i := With(inp, s);
    forall id
      ensures id in Matcher.LinkedIds(i, links, site, m) <==>
              exists k :: k in links && k.malId == m && IdAt(inp, k, links[k], site) == Some(id)
    {
      if k :| k in links && k.malId == m && IdAt(inp, k, links[k], site) == Some(id) {
        assert Table(i, EntityOf(site)) == Table(inp, k.entity);
      }
    }
  }

  lemma NotFed(inp: Inputs, s: Pair, links: Links, m: int, site: Site)
    requires Matcher.LinkedIds(With(inp, s), links, site, m) == {}
    ensures ExtKey(m, site) in Matcher.FedBackAll(With(inp, s), links) <==> ExtKey(m, site) in s.externals
    ensures ExtKey(m, site) in s.externals ==>
              Matcher.FedBackAll(With(inp, s), links)[ExtKey(m, site)] == s.externals[ExtKey(m, site)]
  {
    hide Matcher.LinkedIds, Matcher.Feed;
    var i := With(inp, s);
    Matcher.FeedAt(i, links, Tvdb, ExtKey(m, site));
    Matcher.FeedAt(i, links, Tmdb, ExtKey(m, site));
    Matcher.FeedAt(i, links, Imdb, ExtKey(m, site));
  }

  /** After a successful run the anime's id of a site is the one all its linked items carry, or the old one if
      none carries any. */
  lemma FedBack(inp: Inputs, s: Pair, t: Pair, m: int, site: Site, lower: string -> string)
    requires Step(inp, s, t, lower) && IsDubbed(inp, m)
    ensures forall k :: k in t.links && k.malId == m && IdAt(inp, k, t.links[k], site).Some? ==>
              Ext(t, m, site) == IdAt(inp, k, t.links[k], site)
    ensures !Carried(inp, t.links, m, site) ==> Ext(t, m, site) == Ext(s, m, site)
  {
    hide NextLinks, IdAt, Matcher.LinkedIds, Matcher.FedBackAll;
    var i := With(inp, s);
    var ids := Matcher.LinkedIds(i, t.links, site, m);
    LinkedIdsAre(inp, s, t.links, m, site);
    assert |ids| <= 1;
    if ids == {} {
      NotFed(inp, s, t.links, m, site);
    } else {
      Matcher.FedBackAllAt(i, t.links, ExtKey(m, site));
      forall k | k in t.links && k.malId == m && IdAt(inp, k, t.links[k], site).Some?
        ensures Ext(t, m, site) == IdAt(inp, k, t.links[k], site)
      {
        Matcher.OneElement(ids, IdAt(inp, k, t.links[k], site).value, t.externals[ExtKey(m, site)]);
      }
      var id := Pick(ids);
      assert Carried(inp, t.links, m, site);
    }
  }

  /** An id that a linked item carries makes its key an id match of the next run. */
  lemma LinkBecomesMatch(inp: Inputs, s: Pair, t: Pair, k: LinkKey, site: Site, lower: string -> string)
    requires Step(inp, s, t, lower) && IsDubbed(inp, k.malId)
    requires k in t.links && IdAt(inp, k, t.links[k], site).Some?
    ensures Match(inp, t, k, site).Some? && Best(inp, t, k).Some? && k.entity == EntityOf(site)
    ensures Class(t, k.malId, site) == Some(CompareForm(site, IdAt(inp, k, t.links[k], site).value))
    ensures Carried(inp, t.links, k.malId, site)
  {
    hide Step, IdAt, Match, CompareForm;
    FedBack(inp, s, t, k.malId, site, lower);
    CarrierMatches(inp, t, k, site, t.links[k]);
    BestIs(inp, t, k);
  }

  /** The site of an id link that a run has written has the class the run has read. */
  lemma IdLinkKeepsClass(inp: Inputs, s: Pair, t: Pair, k: LinkKey, site: Site, lower: string -> string)
    requires Step(inp, s, t, lower) && IsDubbed(inp, k.malId) && k !in inp.manual
    requires Best(inp, s, k).Some? && Best(inp, s, k).value.how == ById(site)
    ensures k in t.links && t.links[k] == Best(inp, s, k).value && IdAt(inp, k, t.links[k], site).Some?
    ensures Class(t, k.malId, site) == Class(s, k.malId, site)
  {
    hide IdAt, Match, CompareForm, NextLinks;
    DubbedLinkAfter(inp, s, k, lower);
    BestIs(inp, s, k);
    assert k in t.links && t.links[k] == Best(inp, s, k).value;
    MatchCarries(inp, s, k, site, ById(site));
    LinkBecomesMatch(inp, s, t, k, site, lower);
  }

  // ---------------------------------------------------------------- two runs

  /** Once an anime is held back from the title-year stage, it stays so. */
  lemma HeldStays(inp: Inputs, s: Pair, t: Pair, m: int, lower: string -> string)
    requires Step(inp, s, t, lower) && IsDubbed(inp, m) && Held(inp, s, m)
    ensures Held(inp, t, m)
  {
    hide NextLinks, Best, Match, IdAt, Class;
    var k: LinkKey :| k.malId == m && (Best(inp, s, k).Some? || Kept(s, k));
    DubbedLinkAfter(inp, s, k, lower);
    BestIs(inp, s, k);
    if k !in inp.manual && Best(inp, s, k).Some? {
      var site := Best(inp, s, k).value.how.site;
      IdLinkKeepsClass(inp, s, t, k, site, lower);
      LinkBecomesMatch(inp, s, t, k, site, lower);
    }
  }

  /** A hand-listed link holds its anime back from the next run on. */
  lemma ListedHolds(inp: Inputs, s: Pair, t: Pair, k: LinkKey, lower: string -> string)
    requires Step(inp, s, t, lower) && IsDubbed(inp, k.malId) && k in inp.manual
    ensures Held(inp, t, k.malId)
  {
    hide NextLinks, Best;
    DubbedLinkAfter(inp, s, k, lower);
    assert Kept(t, k);
  }

  /** While nothing holds an anime back, it has its title-year links and no others. */
  lemma FreeLinks(inp: Inputs, r: Pair, s: Pair, t: Pair, k: LinkKey, lower: string -> string)
    requires Step(inp, r, s, lower) && Step(inp, s, t, lower) && IsDubbed(inp, k.malId) && !Held(inp, s, k.malId)
    ensures ToOption(s.links, k) == TitleLink(inp, k, lower) == ToOption(t.links, k)
    ensures Best(inp, s, k).None?
  {
    hide NextLinks, Best, Match, TitleLink;
    if Held(inp, r, k.malId) {
      HeldStays(inp, r, s, k.malId, lower);
    }
    if k in inp.manual {
      ListedHolds(inp, r, s, k, lower);
    }
    DubbedLinkAfter(inp, r, k, lower);
    DubbedLinkAfter(inp, s, k, lower);
  }

  /** From the second run on nothing new holds an anime back: what is free of links then has no ids to learn. */
  lemma HeldBefore(inp: Inputs, r: Pair, s: Pair, t: Pair, m: int, lower: string -> string)
    requires Step(inp, r, s, lower) && Step(inp, s, t, lower) && IsDubbed(inp, m) && !Held(inp, s, m)
    ensures !Held(inp, t, m)
  {
    hide Step, Best, Match, TitleLink, Ext, Held;
    forall site ensures Ext(t, m, site) == Ext(s, m, site) {
      forall k: LinkKey | k.malId == m && k.entity == EntityOf(site)
        ensures ToOption(s.links, k) == ToOption(t.links, k)
      {
        FreeLinks(inp, r, s, t, k, lower);
      }
      SameLinksSameIds(inp, r, s, t, m, site, lower);
    }
    forall k: LinkKey | k.malId == m ensures Best(inp, t, k).None? && !Kept(t, k) {
      FreeLinks(inp, r, s, t, k, lower);
      SameExtSameBest(inp, s, t, k);
      TitleLinkHow(inp, k, lower);
    }
    NotHeld(inp, t, m);
  }

  lemma NotHeld(inp: Inputs, s: Pair, m: int)
    requires forall k: LinkKey :: k.malId == m ==> Best(inp, s, k).None? && !Kept(s, k)
    ensures !Held(inp, s, m)
  {
    hide Best;
  }

  lemma SameExtSameBest(inp: Inputs, s: Pair, t: Pair, k: LinkKey)
    requires forall site :: Ext(t, k.malId, site) == Ext(s, k.malId, site)
    ensures Best(inp, t, k) == Best(inp, s, k)
  {
    hide Best, Match, Ext;
    SameClassSameMatch(inp, s, t, k, Tvdb);
    SameClassSameMatch(inp, s, t, k, Tmdb);
    SameClassSameMatch(inp, s, t, k, Imdb);
    BestIs(inp, s, k);
    BestIs(inp, t, k);
  }

  lemma TitleLinkHow(inp: Inputs, k: LinkKey, lower: string -> string)
    ensures TitleLink(inp, k, lower).Some? ==> TitleLink(inp, k, lower).value.how == ByTitleYear
  {
    hide TitleMatch, HasTitles;
  }

  /** A run that leaves the links of a site as they were leaves its ids as they were. */
  lemma SameLinksSameIds(inp: Inputs, r: Pair, s: Pair, t: Pair, m: int, site: Site, lower: string -> string)
    requires Step(inp, r, s, lower) && Step(inp, s, t, lower) && IsDubbed(inp, m)
    requires forall k: LinkKey :: k.malId == m && k.entity == EntityOf(site) ==>
              ToOption(s.links, k) == ToOption(t.links, k)
    ensures Ext(t, m, site) == Ext(s, m, site)
  {
    hide Step;
    FedBack(inp, r, s, m, site, lower);
    FedBack(inp, s, t, m, site, lower);
    if Carried(inp, t.links, m, site) {
      var k :| k in t.links && k.malId == m && IdAt(inp, k, t.links[k], site).Some?;
      assert ToOption(s.links, k) == ToOption(t.links, k);
    }
  }

  /** The other sites of the same kind of item compare as before. */
  predicate OthersSame(s: Pair, t: Pair, m: int, site: Site) {
    forall other: Site :: other != site && EntityOf(other) == EntityOf(site) ==>
      Class(s, m, other) == Class(t, m, other)
  }

  /** A carried id of a site stays, unless a change at another site gets in its way. */
  lemma CarriedClassStays(inp: Inputs, s: Pair, t: Pair, u: Pair, m: int, site: Site, lower: string -> string)
    requires Step(inp, s, t, lower) && Step(inp, t, u, lower) && IsDubbed(inp, m)
    requires Carried(inp, t.links, m, site)
    requires site.Imdb? || OthersSame(s, t, m, site)
    ensures Class(u, m, site) == Class(t, m, site) && Carried(inp, u.links, m, site)
  {
    hide NextLinks, Best, Match, IdAt, Class, LinkAfter, Step;
    var k :| k in t.links && k.malId == m && IdAt(inp, k, t.links[k], site).Some?;
    LinkBecomesMatch(inp, s, t, k, site, lower);
    if k in inp.manual {
      SameLinkCarries(inp, s, t, u, k, site, lower);
    } else {
      BestIs(inp, t, k);
      BestLink(inp, t, u, k, lower);
      if Best(inp, t, k).value.how == ById(site) {
        IdLinkKeepsClass(inp, t, u, k, site, lower);
      } else {
        assert site == Tmdb && Best(inp, t, k).value.how == ById(Imdb);
        SameClassSameMatch(inp, s, t, k, Imdb);
        BestIs(inp, s, k);
        BestLink(inp, s, t, k, lower);
        SameLinkCarries(inp, s, t, u, k, site, lower);
      }
    }
  }

  lemma BestLink(inp: Inputs, s: Pair, t: Pair, k: LinkKey, lower: string -> string)
    requires Step(inp, s, t, lower) && IsDubbed(inp, k.malId) && k !in inp.manual && Best(inp, s, k).Some?
    ensures k in t.links && t.links[k] == Best(inp, s, k).value
  {
    hide NextLinks, Best;
    DubbedLinkAfter(inp, s, k, lower);
  }

  lemma ListedLink(inp: Inputs, s: Pair, t: Pair, k: LinkKey, lower: string -> string)
    requires Step(inp, s, t, lower) && IsDubbed(inp, k.malId) && k in inp.manual
    ensures k in t.links && t.links[k] == Link(inp.manual[k], Manual)
  {
    hide NextLinks, Best;
    DubbedLinkAfter(inp, s, k, lower);
  }

  /** A listed link, or one that two runs agree on, carries the same id after both. */
  lemma SameLinkCarries(inp: Inputs, s: Pair, t: Pair, u: Pair, k: LinkKey, site: Site, lower: string -> string)
    requires Step(inp, s, t, lower) && Step(inp, t, u, lower) && IsDubbed(inp, k.malId)
    requires k in t.links && IdAt(inp, k, t.links[k], site).Some?
    requires k in inp.manual || (k in u.links && u.links[k] == t.links[k])
    ensures Class(u, k.malId, site) == Class(t, k.malId, site) && Carried(inp, u.links, k.malId, site)
  {
    hide IdAt, Class, Match, Best, Step;
    if k in inp.manual {
      ListedLink(inp, s, t, k, lower);
      ListedLink(inp, t, u, k, lower);
    }
    LinkBecomesMatch(inp, s, t, k, site, lower);
    LinkBecomesMatch(inp, t, u, k, site, lower);
  }

  /** With all sites of a kind comparing alike before two runs in a row, they leave the same links of that kind,
      but for title-year links that the first one's links hold back. */
  lemma SameClassesSameLink(inp: Inputs, s: Pair, t: Pair, k: LinkKey, lower: string -> string)
    requires Step(inp, s, t, lower) && IsDubbed(inp, k.malId)
    requires forall site: Site :: EntityOf(site) == k.entity ==> Class(s, k.malId, site) == Class(t, k.malId, site)
    requires Held(inp, t, k.malId) ==> Held(inp, s, k.malId)
    ensures ToOption(NextLinks(inp, t, lower), k) == ToOption(t.links, k)
  {
    hide NextLinks, Best, Match, TitleLink, Class;
    DubbedLinkAfter(inp, s, k, lower);
    DubbedLinkAfter(inp, t, k, lower);
    BestIs(inp, s, k);
    BestIs(inp, t, k);
    forall site: Site | EntityOf(site) == k.entity ensures Match(inp, s, k, site) == Match(inp, t, k, site) {
      SameClassSameMatch(inp, s, t, k, site);
    }
    assert k.entity == SonarrSeries ==> EntityOf(Tvdb) == k.entity;
    assert k.entity == RadarrMovie ==> EntityOf(Tmdb) == k.entity && EntityOf(Imdb) == k.entity;
    TitleLinkHow(inp, k, lower);
    if Held(inp, s, k.malId) {
      HeldStays(inp, s, t, k.malId, lower);
    }
  }

  lemma SameExtSameClass(s: Pair, t: Pair, m: int, site: Site)
    requires Ext(s, m, site) == Ext(t, m, site)
    ensures Class(s, m, site) == Class(t, m, site)
  {
  }

  /** A site changes its class only when another site of its kind has changed before. */
  lemma ClassStays(inp: Inputs, r: Pair, s: Pair, t: Pair, m: int, site: Site, lower: string -> string)
    requires Step(inp, r, s, lower) && Step(inp, s, t, lower) && IsDubbed(inp, m)
    requires OthersSame(r, s, m, site)
    ensures Class(t, m, site) == Class(s, m, site)
  {
    hide Step, Class, Carried, OthersSame;
    if Carried(inp, s.links, m, site) {
      CarriedClassStays(inp, r, s, t, m, site, lower);
    } else {
      FedBack(inp, r, s, m, site, lower);
      FedBack(inp, s, t, m, site, lower);
      SameExtSameClass(r, s, m, site);
      NothingCarried(inp, r, s, t, m, site, lower);
      SameExtSameClass(s, t, m, site);
    }
  }

  lemma NothingCarried(inp: Inputs, r: Pair, s: Pair, t: Pair, m: int, site: Site, lower: string -> string)
    requires Step(inp, r, s, lower) && Step(inp, s, t, lower) && IsDubbed(inp, m)
    requires OthersSame(r, s, m, site) && Class(r, m, site) == Class(s, m, site) && !Carried(inp, s.links, m, site)
    ensures !Carried(inp, t.links, m, site)
  {
    hide Step, Class, IdAt;
    if Carried(inp, t.links, m, site) {
      var k :| k in t.links && k.malId == m && IdAt(inp, k, t.links[k], site).Some?;
      IdAtKind(inp, k, t.links[k], site);
      OldLink(inp, r, s, t, k, lower);
    }
  }

  lemma IdAtKind(inp: Inputs, k: LinkKey, l: Link, site: Site)
    requires IdAt(inp, k, l, site).Some?
    ensures k.entity == EntityOf(site)
  {
  }

  /** When all sites of a kind compare alike before two runs, the second one's links were there after the first. */
  lemma OldLink(inp: Inputs, r: Pair, s: Pair, t: Pair, k: LinkKey, lower: string -> string)
    requires Step(inp, r, s, lower) && Step(inp, s, t, lower) && IsDubbed(inp, k.malId) && k in t.links
    requires forall x: Site :: EntityOf(x) == k.entity ==> Class(r, k.malId, x) == Class(s, k.malId, x)
    ensures k in s.links && s.links[k] == t.links[k]
  {
    hide NextLinks, Best, Match, IdAt, TitleLink, Class;
    DubbedLinkAfter(inp, r, k, lower);
    DubbedLinkAfter(inp, s, k, lower);
    BestIs(inp, r, k);
    BestIs(inp, s, k);
    forall x: Site | EntityOf(x) == k.entity ensures Match(inp, r, k, x) == Match(inp, s, k, x) {
      SameClassSameMatch(inp, r, s, k, x);
    }
    assert k.entity == SonarrSeries ==> EntityOf(Tvdb) == k.entity;
    assert k.entity == RadarrMovie ==> EntityOf(Tmdb) == k.entity && EntityOf(Imdb) == k.entity;
    if Held(inp, r, k.malId) {
      HeldStays(inp, r, s, k.malId, lower);
    }
  }

  // ---------------------------------------------------------------- settling

  /** Anime that are not dubbed settle with the first run. */
  lemma OtherLinksSettle(inp: Inputs, s: Pair, t: Pair, k: LinkKey, lower: string -> string)
    requires Step(inp, s, t, lower) && !IsDubbed(inp, k.malId)
    ensures ToOption(NextLinks(inp, t, lower), k) == ToOption(t.links, k)
  {
    hide NextLinks;
    OtherLinkAfter(inp, s, k, lower);
    OtherLinkAfter(inp, t, k, lower);
  }

  lemma OtherIdsStay(inp: Inputs, s: Pair, t: Pair, m: int, site: Site, lower: string -> string)
    requires Step(inp, s, t, lower) && !IsDubbed(inp, m)
    ensures Ext(t, m, site) == Ext(s, m, site)
  {
    hide NextLinks, Matcher.FedBackAll;
    assert Matcher.LinkedIds(With(inp, s), t.links, site, m) == {};
    NotFed(inp, s, t.links, m, site);
  }

  /** Three successful runs: the third leaves the series links of the second. */
  lemma SeriesLinkSettles(inp: Inputs, r: Pair, s: Pair, t: Pair, k: LinkKey, lower: string -> string)
    requires Step(inp, r, s, lower) && Step(inp, s, t, lower)
    requires IsDubbed(inp, k.malId) && k.entity == SonarrSeries
    ensures ToOption(NextLinks(inp, t, lower), k) == ToOption(t.links, k)
  {
    hide Step, NextLinks, Class, Held;
    ClassStays(inp, r, s, t, k.malId, Tvdb, lower);
    if !Held(inp, s, k.malId) {
      HeldBefore(inp, r, s, t, k.malId, lower);
    }
    SameClassesSameLink(inp, s, t, k, lower);
  }

  /** Both movie sites compare alike in two states. */
  predicate MovieSame(s: Pair, t: Pair, m: int) {
    Class(s, m, Imdb) == Class(t, m, Imdb) && Class(s, m, Tmdb) == Class(t, m, Tmdb)
  }

  lemma MovieStays(inp: Inputs, r: Pair, s: Pair, t: Pair, m: int, lower: string -> string)
    requires Step(inp, r, s, lower) && Step(inp, s, t, lower) && IsDubbed(inp, m) && MovieSame(r, s, m)
    ensures MovieSame(s, t, m)
  {
    hide Step, Class;
    ClassStays(inp, r, s, t, m, Imdb, lower);
    ClassStays(inp, r, s, t, m, Tmdb, lower);
  }

  /** Once a linked item carries an imdb id, the imdb class stands, and one run later the tmdb class does. */
  lemma MovieAfterImdb(inp: Inputs, r: Pair, s: Pair, t: Pair, u: Pair, m: int, lower: string -> string)
    requires Step(inp, r, s, lower) && Step(inp, s, t, lower) && Step(inp, t, u, lower) && IsDubbed(inp, m)
    requires Carried(inp, s.links, m, Imdb)
    ensures MovieSame(t, u, m)
  {
    hide Step, Class, Carried;
    CarriedClassStays(inp, r, s, t, m, Imdb, lower);
    CarriedClassStays(inp, s, t, u, m, Imdb, lower);
    ClassStays(inp, s, t, u, m, Tmdb, lower);
  }

  /** The movie sites of an anime change in the first three runs at most. */
  lemma MovieClassesSettle(inp: Inputs, s0: Pair, s1: Pair, s2: Pair, s3: Pair, s4: Pair, m: int,
                           lower: string -> string)
    requires Step(inp, s0, s1, lower) && Step(inp, s1, s2, lower) && Step(inp, s2, s3, lower) &&
             Step(inp, s3, s4, lower)
    requires IsDubbed(inp, m)
    ensures MovieSame(s3, s4, m)
  {
    hide Step, Carried;
    if Carried(inp, s1.links, m, Imdb) {
      MovieAfterImdb(inp, s0, s1, s2, s3, m, lower);
      MovieStays(inp, s2, s3, s4, m, lower);
    } else {
      hide Class;
      FedBack(inp, s0, s1, m, Imdb, lower);
      SameExtSameClass(s0, s1, m, Imdb);
      ClassStays(inp, s0, s1, s2, m, Tmdb, lower);
      if Carried(inp, s2.links, m, Imdb) {
        MovieAfterImdb(inp, s1, s2, s3, s4, m, lower);
      } else {
        FedBack(inp, s1, s2, m, Imdb, lower);
        SameExtSameClass(s1, s2, m, Imdb);
        MovieStays(inp, s1, s2, s3, m, lower);
        MovieStays(inp, s2, s3, s4, m, lower);
      }
    }
  }

  /** Five successful runs: the fifth leaves the movie links of the fourth. */
  lemma MovieLinkSettles(inp: Inputs, s0: Pair, s1: Pair, s2: Pair, s3: Pair, s4: Pair, k: LinkKey,
                         lower: string -> string)
    requires Step(inp, s0, s1, lower) && Step(inp, s1, s2, lower) && Step(inp, s2, s3, lower) &&
             Step(inp, s3, s4, lower)
    requires IsDubbed(inp, k.malId) && k.entity == RadarrMovie
    ensures ToOption(NextLinks(inp, s4, lower), k) == ToOption(s4.links, k)
  {
    hide Step, NextLinks, Class, Held;
    MovieClassesSettle(inp, s0, s1, s2, s3, s4, k.malId, lower);
    if !Held(inp, s3, k.malId) {
      HeldBefore(inp, s2, s3, s4, k.malId, lower);
    }
    SameClassesSameLink(inp, s3, s4, k, lower);
  }

  lemma RunsAfter(inp: Inputs, s: Pair, n: nat, lower: string -> string)
    ensures Runs(inp, s, n + 1, lower) == RunOn(inp, Runs(inp, s, n, lower), lower)
  {
  }

  /** A failing run leaves everything as it was, so every later run fails in the same way. */
  lemma {:induction false} FailsForGood(inp: Inputs, s: Pair, n: nat, lower: string -> string)
    requires !Succeeds(inp, s, lower)
    ensures Runs(inp, s, n, lower) == s && !Succeeds(inp, Runs(inp, s, n, lower), lower)
  {
    hide Succeeds;
    if n > 0 {
      FailsForGood(inp, s, n - 1, lower);
    }
  }

  lemma {:induction false} RunsAdd(inp: Inputs, s: Pair, a: nat, b: nat, lower: string -> string)
    ensures Runs(inp, Runs(inp, s, a, lower), b, lower) == Runs(inp, s, a + b, lower)
  {
    hide RunOn;
    if b > 0 {
      RunsAdd(inp, s, a, b - 1, lower);
    }
  }

  /** Run number `i` succeeds. */
  ghost predicate StepAt(inp: Inputs, s: Pair, i: nat, lower: string -> string) {
    Step(inp, Runs(inp, s, i, lower), Runs(inp, s, i + 1, lower), lower)
  }

  /** The next run changes nothing, or it and all runs before it have succeeded. */
  lemma StuckOrSteps(inp: Inputs, s: Pair, n: nat, i: nat, lower: string -> string)
    requires i <= n
    ensures Runs(inp, s, n + 1, lower) == Runs(inp, s, n, lower) || StepAt(inp, s, i, lower)
  {
    hide Succeeds, RunOn;
    var there := Runs(inp, s, i, lower);
    if !Succeeds(inp, there, lower) {
      FailsForGood(inp, there, n - i, lower);
      FailsForGood(inp, there, n + 1 - i, lower);
      RunsAdd(inp, s, i, n - i, lower);
      RunsAdd(inp, s, i, n + 1 - i, lower);
    } else {
      RunsAfter(inp, s, i, lower);
    }
  }

  /** A third run in a row leaves the series links and the tvdb ids of the second. */
  lemma ThirdRunSeries(inp: Inputs, r: Pair, s: Pair, t: Pair, u: Pair, lower: string -> string)
    requires Step(inp, r, s, lower) && Step(inp, s, t, lower) && Step(inp, t, u, lower)
    ensures forall k: LinkKey :: k.entity == SonarrSeries ==> ToOption(u.links, k) == ToOption(t.links, k)
    ensures forall m: int :: Ext(u, m, Tvdb) == Ext(t, m, Tvdb)
  {
    assert u.links == NextLinks(inp, t, lower);
    hide Step, NextLinks, Ext;
    forall k: LinkKey | k.entity == SonarrSeries ensures ToOption(u.links, k) == ToOption(t.links, k) {
      if IsDubbed(inp, k.malId) {
        SeriesLinkSettles(inp, r, s, t, k, lower);
      } else {
        OtherLinksSettle(inp, s, t, k, lower);
      }
    }
    forall m: int ensures Ext(u, m, Tvdb) == Ext(t, m, Tvdb) {
      if IsDubbed(inp, m) {
        SameLinksSameIds(inp, s, t, u, m, Tvdb, lower);
      } else {
        OtherIdsStay(inp, t, u, m, Tvdb, lower);
      }
    }
  }

  /** The series links and tvdb ids of all runs from the second on are those of the second. */
  lemma {:induction false} SeriesSettleAfterTwo(inp: Inputs, s: Pair, n: nat, lower: string -> string)
    requires n >= 2
    ensures var now, second := Runs(inp, s, n, lower), Runs(inp, s, 2, lower);
            && (forall k: LinkKey :: k.entity == SonarrSeries ==> ToOption(now.links, k) == ToOption(second.links, k))
            && (forall m: int :: Ext(now, m, Tvdb) == Ext(second, m, Tvdb))
  {
    hide Runs, Ext, Step;
    if n > 2 {
      SeriesSettleAfterTwo(inp, s, n - 1, lower);
      StuckOrSteps(inp, s, n - 1, n - 3, lower);
      StuckOrSteps(inp, s, n - 1, n - 2, lower);
      StuckOrSteps(inp, s, n - 1, n - 1, lower);
      if Runs(inp, s, n, lower) != Runs(inp, s, n - 1, lower) {
        ThirdRunSeries(inp, Runs(inp, s, n - 3, lower), Runs(inp, s, n - 2, lower), Runs(inp, s, n - 1, lower),
                       Runs(inp, s, n, lower), lower);
      }
    }
  }

  /** From any tables, four runs leave links and external ids that every later run leaves alone. */
  lemma SettlesAfterFour(inp: Inputs, s: Pair, lower: string -> string)
    ensures RunOn(inp, Runs(inp, s, 4, lower), lower) == Runs(inp, s, 4, lower)
  {
    RunsAfter(inp, s, 4, lower);
    hide Runs, Step, RunOn;
    StuckOrSteps(inp, s, 4, 0, lower);
    StuckOrSteps(inp, s, 4, 1, lower);
    StuckOrSteps(inp, s, 4, 2, lower);
    StuckOrSteps(inp, s, 4, 3, lower);
    StuckOrSteps(inp, s, 4, 4, lower);
    if Runs(inp, s, 5, lower) != Runs(inp, s, 4, lower) {
      FifthRun(inp, Runs(inp, s, 0, lower), Runs(inp, s, 1, lower), Runs(inp, s, 2, lower), Runs(inp, s, 3, lower),
               Runs(inp, s, 4, lower), Runs(inp, s, 5, lower), lower);
    }
  }

  lemma FifthRun(inp: Inputs, s0: Pair, s1: Pair, s2: Pair, s3: Pair, s4: Pair, s5: Pair, lower: string -> string)
    requires Step(inp, s0, s1, lower) && Step(inp, s1, s2, lower) && Step(inp, s2, s3, lower) &&
             Step(inp, s3, s4, lower)
    requires Step(inp, s4, s5, lower)
    ensures s5 == s4
  {
    assert s5.links == NextLinks(inp, s4, lower);
    hide Step, NextLinks;
    forall k ensures ToOption(s5.links, k) == ToOption(s4.links, k) {
      if !IsDubbed(inp, k.malId) {
        OtherLinksSettle(inp, s3, s4, k, lower);
      } else if k.entity.SonarrSeries? {
        SeriesLinkSettles(inp, s2, s3, s4, k, lower);
      } else {
        MovieLinkSettles(inp, s0, s1, s2, s3, s4, k, lower);
      }
    }
    SameEverywhere(s5.links, s4.links);
    SameRunSameIds(inp, s3, s4, s5, lower);
  }

  /** Runs that leave the links alone leave the external ids alone. */
  lemma SameRunSameIds(inp: Inputs, r: Pair, s: Pair, t: Pair, lower: string -> string)
    requires Step(inp, r, s, lower) && Step(inp, s, t, lower) && t.links == s.links
    ensures t == s
  {
    hide Step;
    forall e: ExtKey
      ensures e in t.externals <==> e in s.externals
      ensures e in t.externals ==> t.externals[e] == s.externals[e]
    {
      assert e == ExtKey(e.malId, e.site);
      if IsDubbed(inp, e.malId) {
        SameLinksSameIds(inp, r, s, t, e.malId, e.site, lower);
      } else {
        OtherIdsStay(inp, s, t, e.malId, e.site, lower);
      }
    }
    assert t.externals == s.externals;
  }

  // ---------------------------------------------------------------- the second run

  /** An id link of the next run, or a hand-listed link, holds the anime back from the next title-year stage. */
  ghost predicate HeldByRun(inp: Inputs, t: Pair, m: int) {
    exists k: LinkKey :: k.malId == m && (k in inp.manual || Best(inp, t, k).Some?)
  }

  /** What a second run does to each key: hand-listed links stay; the ids written back decide next; a title-year link
      goes when anything else holds its anime; all others stay. */
  lemma SecondRunAt(inp: Inputs, s: Pair, t: Pair, k: LinkKey, lower: string -> string)
    requires Step(inp, s, t, lower)
    ensures ToOption(NextLinks(inp, t, lower), k) ==
            if k in inp.manual || !IsDubbed(inp, k.malId) then ToOption(t.links, k)
            else if Best(inp, t, k).Some? then Best(inp, t, k)
            else if k in t.links && t.links[k].how.ByTitleYear? && HeldByRun(inp, t, k.malId) then None
            else ToOption(t.links, k)
  {
    hide NextLinks, Best, Match, IdAt, TitleLink, Held, HeldByRun;
    if !IsDubbed(inp, k.malId) {
      OtherLinksSettle(inp, s, t, k, lower);
    } else {
      DubbedLinkAfter(inp, s, k, lower);
      DubbedLinkAfter(inp, t, k, lower);
      TitleLinkHow(inp, k, lower);
      BestIs(inp, s, k);
      if Best(inp, s, k).Some? && k !in inp.manual {
        IdLinkStays(inp, s, t, k, lower);
      }
      if Held(inp, s, k.malId) {
        HeldStays(inp, s, t, k.malId, lower);
      } else {
        HeldThroughRun(inp, s, t, k.malId, lower);
      }
    }
  }

  lemma IdLinkStays(inp: Inputs, s: Pair, t: Pair, k: LinkKey, lower: string -> string)
    requires Step(inp, s, t, lower) && IsDubbed(inp, k.malId) && k !in inp.manual && Best(inp, s, k).Some?
    ensures Best(inp, t, k).Some?
  {
    hide Step, Best, Match, IdAt;
    BestIs(inp, s, k);
    var site := Best(inp, s, k).value.how.site;
    IdLinkKeepsClass(inp, s, t, k, site, lower);
    LinkBecomesMatch(inp, s, t, k, site, lower);
  }

  /** An anime free of links before a run is held after it by that run's doing alone. */
  lemma HeldThroughRun(inp: Inputs, s: Pair, t: Pair, m: int, lower: string -> string)
    requires Step(inp, s, t, lower) && IsDubbed(inp, m) && !Held(inp, s, m)
    ensures Held(inp, t, m) <==> HeldByRun(inp, t, m)
  {
    hide NextLinks, Best, TitleLink;
    forall k: LinkKey | k.malId == m ensures Kept(t, k) <==> k in inp.manual {
      DubbedLinkAfter(inp, s, k, lower);
      TitleLinkHow(inp, k, lower);
    }
  }

  /** A run has learnt an id of a site: a linked item carries one that compares unlike the anime's id before. */
  predicate Learnt(inp: Inputs, s: Pair, t: Pair, m: int, site: Site) {
    IsDubbed(inp, m) && Carried(inp, t.links, m, site) && Class(t, m, site) != Class(s, m, site)
  }

  /** A live item carries an id that compares as the anime's. */
  predicate CarriesClass(inp: Inputs, t: Pair, m: int, row: ItemKey, site: Site) {
    && row in Table(inp, EntityOf(site)) && Matcher.CarriesId(Table(inp, EntityOf(site))[row], site)
    && Class(t, m, site) == Some(CompareForm(site, Trim(Table(inp, EntityOf(site))[row].ids[site])))
  }

  /** Every item that carries the id lives where the anime is listed by hand or, for a tmdb id, found by imdb. */
  ghost predicate Harmless(inp: Inputs, t: Pair, m: int, site: Site) {
    forall row: ItemKey :: CarriesClass(inp, t, m, row, site) ==>
      var k := LinkKey(m, row.inst, EntityOf(site));
      k in inp.manual || (site == Tmdb && k in t.links && t.links[k].how == ById(Imdb))
  }

  predicate ListedAnime(inp: Inputs, m: int) {
    exists k :: k in inp.manual && k.malId == m
  }

  /** No anime with a hand-listed link holds a title-year link. */
  predicate TitlesUnlisted(inp: Inputs, links: Links) {
    forall k :: k in links && links[k].how.ByTitleYear? && IsDubbed(inp, k.malId) ==> !ListedAnime(inp, k.malId)
  }

  /** What makes a first run final, in terms of its inputs and its links. */
  ghost predicate Final(inp: Inputs, s: Pair, t: Pair) {
    && TitlesUnlisted(inp, t.links)
    && (forall m, site :: Learnt(inp, s, t, m, site) ==> Harmless(inp, t, m, site))
  }

  lemma MatchRow(inp: Inputs, t: Pair, k: LinkKey, site: Site)
    requires k.entity == EntityOf(site)
    ensures Match(inp, t, k, site).Some? ==>
              IsDubbed(inp, k.malId) &&
              CarriesClass(inp, t, k.malId, ItemKey(Match(inp, t, k, site).value, k.inst), site)
  {
    hide Match, CompareForm, Trim;
    if Match(inp, t, k, site).Some? {
      MatchCarries(inp, t, k, site, ById(site));
    }
  }

  lemma RowMatches(inp: Inputs, t: Pair, k: LinkKey, row: ItemKey, site: Site)
    requires IsDubbed(inp, k.malId) && k.entity == EntityOf(site) && row.inst == k.inst
    requires CarriesClass(inp, t, k.malId, row, site)
    ensures Match(inp, t, k, site).Some?
  {
    hide Match, CompareForm, Trim;
    CarrierMatches(inp, t, k, site, Link(row.sourceId, ById(site)));
  }

  /** A site the run has not learnt from leads where it led before; one it has learnt from led nowhere at a key that
      is not listed, unless imdb comes first there. */
  lemma UnlearntSame(inp: Inputs, s: Pair, t: Pair, k: LinkKey, site: Site, lower: string -> string)
    requires Step(inp, s, t, lower) && IsDubbed(inp, k.malId) && k !in inp.manual && k.entity == EntityOf(site)
    requires Learnt(inp, s, t, k.malId, site) ==> Harmless(inp, t, k.malId, site)
    requires site == Tmdb ==> Match(inp, s, k, Imdb).None? && Match(inp, t, k, Imdb).None?
    ensures Match(inp, t, k, site) == Match(inp, s, k, site)
  {
    hide Step, Match, CarriesClass, Class, IdAt;
    BestIs(inp, s, k);
    if Class(s, k.malId, site) == Class(t, k.malId, site) {
      SameClassSameMatch(inp, s, t, k, site);
    } else {
      if Match(inp, s, k, site).Some? {
        IdLinkKeepsClass(inp, s, t, k, site, lower);
        assert false;
      }
      FedBack(inp, s, t, k.malId, site, lower);
      if !Carried(inp, t.links, k.malId, site) {
        SameExtSameClass(s, t, k.malId, site);
        assert false;
      }
      MatchRow(inp, t, k, site);
      if Match(inp, t, k, site).Some? {
        var row := ItemKey(Match(inp, t, k, site).value, k.inst);
        assert LinkKey(k.malId, row.inst, EntityOf(site)) == k;
        ImdbLinkFound(inp, s, t, k, lower);
        assert false;
      }
    }
  }

  lemma ImdbLinkFound(inp: Inputs, s: Pair, t: Pair, k: LinkKey, lower: string -> string)
    requires Step(inp, s, t, lower) && IsDubbed(inp, k.malId) && k !in inp.manual
    ensures k in t.links && t.links[k].how == ById(Imdb) ==> Match(inp, s, k, Imdb).Some?
  {
    hide NextLinks, Best, Match, TitleLink, Held;
    DubbedLinkAfter(inp, s, k, lower);
    BestIs(inp, s, k);
    TitleLinkHow(inp, k, lower);
  }

  lemma FinalSameBest(inp: Inputs, s: Pair, t: Pair, k: LinkKey, lower: string -> string)
    requires Step(inp, s, t, lower) && Final(inp, s, t) && IsDubbed(inp, k.malId) && k !in inp.manual
    ensures Best(inp, t, k) == Best(inp, s, k)
  {
    hide Step, Best, Match, Learnt, Harmless;
    BestIs(inp, s, k);
    BestIs(inp, t, k);
    if k.entity.SonarrSeries? {
      UnlearntSame(inp, s, t, k, Tvdb, lower);
    } else {
      UnlearntSame(inp, s, t, k, Imdb, lower);
      if Match(inp, s, k, Imdb).None? {
        UnlearntSame(inp, s, t, k, Tmdb, lower);
      }
    }
  }

  lemma FinalIsStable(inp: Inputs, s: Pair, t: Pair, k: LinkKey, lower: string -> string)
    requires Step(inp, s, t, lower) && Final(inp, s, t)
    ensures ToOption(NextLinks(inp, t, lower), k) == ToOption(t.links, k)
  {
    hide NextLinks, Best, Learnt, Harmless, Held, HeldByRun, TitleLink;
    SecondRunAt(inp, s, t, k, lower);
    if IsDubbed(inp, k.malId) && k !in inp.manual {
      FinalSameBest(inp, s, t, k, lower);
      DubbedLinkAfter(inp, s, k, lower);
      if k in t.links && t.links[k].how.ByTitleYear? {
        BestIs(inp, s, k);
        assert !Held(inp, s, k.malId);
        TitleFinal(inp, s, t, k.malId, lower);
        assert ListedAnime(inp, k.malId) || !HeldByRun(inp, t, k.malId);
      }
    }
  }

  lemma TitleFinal(inp: Inputs, s: Pair, t: Pair, m: int, lower: string -> string)
    requires Step(inp, s, t, lower) && Final(inp, s, t) && IsDubbed(inp, m) && !Held(inp, s, m)
    ensures HeldByRun(inp, t, m) ==> ListedAnime(inp, m)
  {
    hide Step, Best, Final;
    if HeldByRun(inp, t, m) {
      var k: LinkKey :| k.malId == m && (k in inp.manual || Best(inp, t, k).Some?);
      if k !in inp.manual {
        FinalSameBest(inp, s, t, k, lower);
        assert false;
      }
    }
  }

  /** A learnt id that is not harmless gives some key another link. */
  lemma HarmMoves(inp: Inputs, s: Pair, t: Pair, m: int, site: Site, lower: string -> string) returns (k: LinkKey)
    requires Step(inp, s, t, lower) && Learnt(inp, s, t, m, site) && !Harmless(inp, t, m, site)
    ensures ToOption(NextLinks(inp, t, lower), k) != ToOption(t.links, k)
  {
    hide Step, NextLinks, Best, Match, Class, CarriesClass, Carried, TitleLink, Held, IdAt;
    var row: ItemKey :| CarriesClass(inp, t, m, row, site) &&
      var q := LinkKey(m, row.inst, EntityOf(site));
      !(q in inp.manual || (site == Tmdb && q in t.links && t.links[q].how == ById(Imdb)));
    k := LinkKey(m, row.inst, EntityOf(site));
    RowMatches(inp, t, k, row, site);
    BestIs(inp, t, k);
    SecondRunAt(inp, s, t, k, lower);
    if ToOption(t.links, k) == Best(inp, t, k) {
      LinkOfSite(inp, s, t, k, site, lower);
      assert false;
    }
  }

  lemma LinkOfSite(inp: Inputs, s: Pair, t: Pair, k: LinkKey, site: Site, lower: string -> string)
    requires Step(inp, s, t, lower) && IsDubbed(inp, k.malId) && k !in inp.manual
    ensures k in t.links && t.links[k].how == ById(site) ==> Class(t, k.malId, site) == Class(s, k.malId, site)
  {
    hide NextLinks, Best, Match, TitleLink, Held, Class, IdAt;
    DubbedLinkAfter(inp, s, k, lower);
    TitleLinkHow(inp, k, lower);
    if k in t.links && t.links[k].how == ById(site) {
      IdLinkKeepsClass(inp, s, t, k, site, lower);
    }
  }

  /** A second run changes nothing, and succeeds, exactly when no anime with a hand-listed link holds a title-year link
      and every id the first run has learnt is carried only where the anime is listed by hand or, for a tmdb id,
      found by imdb. */
  lemma StableIff(inp: Inputs, s: Pair, t: Pair, lower: string -> string)
    requires Step(inp, s, t, lower)
    ensures Step(inp, t, t, lower) <==> Final(inp, s, t)
  {
    if Final(inp, s, t) {
      forall k ensures ToOption(NextLinks(inp, t, lower), k) == ToOption(t.links, k) {
        FinalIsStable(inp, s, t, k, lower);
      }
      SameEverywhere(NextLinks(inp, t, lower), t.links);
      AgreedAgain(inp, s, t, lower);
      hide Final, NextLinks;
      SameRunSameIds(inp, s, t, RunOn(inp, t, lower), lower);
    }
    if Step(inp, t, t, lower) {
      StableIsFinal(inp, s, t, lower);
    }
  }

  lemma LinkedIdsSame(inp: Inputs, s: Pair, t: Pair, links: Links, site: Site, m: int)
    ensures Matcher.LinkedIds(With(inp, t), links, site, m) == Matcher.LinkedIds(With(inp, s), links, site, m)
  {
    hide Trim, Matcher.CarriesId;
    assert Table(With(inp, t), EntityOf(site)) == Table(With(inp, s), EntityOf(site));
  }

  lemma AgreedAgain(inp: Inputs, s: Pair, t: Pair, lower: string -> string)
    requires Step(inp, s, t, lower) && NextLinks(inp, t, lower) == t.links
    ensures Succeeds(inp, t, lower)
  {
    hide NextLinks, Matcher.LinkedIds, Matcher.FedBackAll;
    forall site: Site ensures Matcher.AgreedAt(With(inp, t), t.links, site) {
      assert site == Tvdb || site == Tmdb || site == Imdb;
      assert Matcher.AgreedAt(With(inp, s), t.links, site);
      forall m | m in inp.anime ensures |Matcher.LinkedIds(With(inp, t), t.links, site, m)| <= 1 {
        LinkedIdsSame(inp, s, t, t.links, site, m);
      }
    }
  }

  lemma StableTitle(inp: Inputs, s: Pair, t: Pair, k: LinkKey, lower: string -> string)
    requires Step(inp, s, t, lower) && IsDubbed(inp, k.malId) && ListedAnime(inp, k.malId)
    ensures k in NextLinks(inp, t, lower) ==> !NextLinks(inp, t, lower)[k].how.ByTitleYear?
  {
    hide NextLinks, Best, TitleLink;
    var q :| q in inp.manual && q.malId == k.malId;
    ListedHolds(inp, s, t, q, lower);
    DubbedLinkAfter(inp, t, k, lower);
    BestIs(inp, t, k);
  }

  lemma StableIsFinal(inp: Inputs, s: Pair, t: Pair, lower: string -> string)
    requires Step(inp, s, t, lower) && Step(inp, t, t, lower)
    ensures Final(inp, s, t)
  {
    assert NextLinks(inp, t, lower) == t.links;
    hide Step, NextLinks, Learnt, Harmless, ListedAnime, TitlesUnlisted;
    StableTitles(inp, s, t, lower);
    forall m, site | Learnt(inp, s, t, m, site) ensures Harmless(inp, t, m, site) {
      if !Harmless(inp, t, m, site) {
        var k := HarmMoves(inp, s, t, m, site, lower);
      }
    }
  }

  lemma StableTitles(inp: Inputs, s: Pair, t: Pair, lower: string -> string)
    requires Step(inp, s, t, lower) && NextLinks(inp, t, lower) == t.links
    ensures TitlesUnlisted(inp, t.links)
  {
    hide Step, NextLinks, ListedAnime;
    forall k | k in t.links && t.links[k].how.ByTitleYear? && IsDubbed(inp, k.malId)
      ensures !ListedAnime(inp, k.malId)
    {
      if ListedAnime(inp, k.malId) {
        StableTitle(inp, s, t, k, lower);
      }
    }
  }

  // ---------------------------------------------------------------- failing runs

  /** The id of a site that the item behind a key's link carries after a run. */
  ghost function IdAfter(inp: Inputs, s: Pair, k: LinkKey, site: Site, lower: string -> string): Option<string> {
    var l := LinkAfter(inp, s, k, lower);
    if l.Some? then IdAt(inp, k, l.value, site) else None
  }

  /** Two keys of a dubbed anime end up at items that carry different ids of a site. */
  ghost predicate Disagree(inp: Inputs, s: Pair, k: LinkKey, q: LinkKey, site: Site, lower: string -> string) {
    && IsDubbed(inp, k.malId) && q.malId == k.malId
    && IdAfter(inp, s, k, site, lower).Some? && IdAfter(inp, s, q, site, lower).Some?
    && IdAfter(inp, s, k, site, lower) != IdAfter(inp, s, q, site, lower)
  }

  lemma LinkedIdsAfter(inp: Inputs, s: Pair, m: int, site: Site, lower: string -> string)
    requires IsDubbed(inp, m)
    ensures forall id :: id in Matcher.LinkedIds(With(inp, s), NextLinks(inp, s, lower), site, m) <==>
              exists k: LinkKey :: k.malId == m && IdAfter(inp, s, k, site, lower) == Some(id)
  {
    hide NextLinks, LinkAfter, IdAt, Matcher.LinkedIds;
    var links := NextLinks(inp, s, lower);
    LinkedIdsAre(inp, s, links, m, site);
    forall k: LinkKey | k.malId == m
      ensures IdAfter(inp, s, k, site, lower) == if k in links then IdAt(inp, k, links[k], site) else None
    {
      DubbedLinkAfter(inp, s, k, lower);
    }
  }

  lemma OneAtMost<T>(ids: set<T>)
    ensures |ids| <= 1 <==> forall x, y :: x in ids && y in ids ==> x == y
  {
    if |ids| > 1 {
      var x := Pick(ids);
      assert |ids - {x}| == |ids| - 1;
      var y := Pick(ids - {x});
      assert x in ids && y in ids && x != y;
    } else {
      forall x, y | x in ids && y in ids ensures x == y {
        Matcher.OneElement(ids, x, y);
      }
    }
  }

  lemma AgreesWhere(inp: Inputs, s: Pair, m: int, site: Site, lower: string -> string)
    requires IsDubbed(inp, m)
    ensures |Matcher.LinkedIds(With(inp, s), NextLinks(inp, s, lower), site, m)| <= 1 <==>
              forall k: LinkKey, q :: k.malId == m ==> !Disagree(inp, s, k, q, site, lower)
  {
    hide NextLinks, IdAfter, Matcher.LinkedIds;
    var ids := Matcher.LinkedIds(With(inp, s), NextLinks(inp, s, lower), site, m);
    LinkedIdsAfter(inp, s, m, site, lower);
    OneAtMost(ids);
    if k: LinkKey, q :| k.malId == m && Disagree(inp, s, k, q, site, lower) {
      var x, y := IdAfter(inp, s, k, site, lower).value, IdAfter(inp, s, q, site, lower).value;
      assert x in ids && y in ids && x != y;
    } else {
      forall x, y | x in ids && y in ids ensures x == y {
        var k: LinkKey :| k.malId == m && IdAfter(inp, s, k, site, lower) == Some(x);
        var q: LinkKey :| q.malId == m && IdAfter(inp, s, q, site, lower) == Some(y);
        assert !Disagree(inp, s, k, q, site, lower);
      }
    }
  }

  /** A run succeeds if and only if no two keys of a dubbed anime end up, by whatever layer, at items that carry
      different ids of a site. */
  lemma SucceedsIff(inp: Inputs, s: Pair, lower: string -> string)
    ensures Succeeds(inp, s, lower) <==> forall k, q, site :: !Disagree(inp, s, k, q, site, lower)
  {
    hide NextLinks, IdAfter, Matcher.LinkedIds, Disagree;
    var links := NextLinks(inp, s, lower);
    forall m, site: Site
      ensures m in inp.anime ==>
                (|Matcher.LinkedIds(With(inp, s), links, site, m)| <= 1 <==>
                 forall k: LinkKey, q :: k.malId == m ==> !Disagree(inp, s, k, q, site, lower))
    {
      if IsDubbed(inp, m) {
        AgreesWhere(inp, s, m, site, lower);
      } else {
        NoIdsLinked(inp, s, links, m, site, lower);
      }
    }
    if Succeeds(inp, s, lower) {
      forall k, q, site ensures !Disagree(inp, s, k, q, site, lower) {
        DisagreeDubbed(inp, s, k, q, site, lower);
        assert site == Tvdb || site == Tmdb || site == Imdb;
        assert Matcher.AgreedAt(With(inp, s), links, site);
      }
    }
  }

  lemma NoIdsLinked(inp: Inputs, s: Pair, links: Links, m: int, site: Site, lower: string -> string)
    requires !IsDubbed(inp, m)
    ensures Matcher.LinkedIds(With(inp, s), links, site, m) == {}
    ensures forall k: LinkKey, q :: k.malId == m ==> !Disagree(inp, s, k, q, site, lower)
  {
    hide IdAfter;
  }

  lemma DisagreeDubbed(inp: Inputs, s: Pair, k: LinkKey, q: LinkKey, site: Site, lower: string -> string)
    ensures Disagree(inp, s, k, q, site, lower) ==> k.malId in inp.anime
  {
    hide IdAfter;
  }

  /** Two keys of an anime whose imdb matches spell the id differently make the run, and every later one, fail. */
  lemma SpellingsFail(inp: Inputs, s: Pair, k: LinkKey, q: LinkKey, n: nat, lower: string -> string)
    requires k.malId == q.malId && k.entity == q.entity == RadarrMovie && k !in inp.manual && q !in inp.manual
    requires Match(inp, s, k, Imdb).Some? && Match(inp, s, q, Imdb).Some?
    requires IdAt(inp, k, Link(Match(inp, s, k, Imdb).value, ById(Imdb)), Imdb) !=
             IdAt(inp, q, Link(Match(inp, s, q, Imdb).value, ById(Imdb)), Imdb)
    ensures !Succeeds(inp, s, lower) && Runs(inp, s, n, lower) == s
  {
    hide Match, IdAt, NextLinks, Best, Runs, Succeeds;
    MatchCarries(inp, s, k, Imdb, ById(Imdb));
    MatchCarries(inp, s, q, Imdb, ById(Imdb));
    BestIs(inp, s, k);
    BestIs(inp, s, q);
    assert Disagree(inp, s, k, q, Imdb, lower);
    SucceedsIff(inp, s, lower);
    FailsForGood(inp, s, n, lower);
  }
}
