/** Inputs on which the matcher needs several runs, and one on which it never succeeds. */
module MatcherChains {
  import opened Prelude
  import opened Text
  import opened LinkTables
  import opened MatcherRuns
  import Matcher

  function MovieKey(inst: string): LinkKey {
    LinkKey(1, inst, RadarrMovie)
  }

  /** One dubbed movie without titles, some warehouse movies and hand-listed links, nothing else. */
  function OneMovie(movies: map<ItemKey, Item>, manual: map<LinkKey, int>): Inputs {
    Inputs(map[1 := Show(true, None, [], None, true)], map[], map[], movies, manual, {}, {}, false)
  }

  function Carrying(ids: map<Site, string>): Item {
    Item("", None, false, ids)
  }

  /** Only anime 1 is dubbed, and links, hand-listed links and ids are all its own. */
  predicate Single(inp: Inputs, s: Pair) {
    && inp.anime.Keys == {1} && IsDubbed(inp, 1) && !HasTitles(inp.anime[1])
    && (forall k :: k in s.links ==> k.malId == 1) && (forall k :: k in inp.manual ==> k.malId == 1)
    && (forall e :: e in s.externals ==> e.malId == 1)
  }

  /** A pair whose links are the run's key by key, and whose ids are those its linked items agree on, is the run's
      result. */
  lemma Lands(inp: Inputs, s: Pair, t: Pair, lower: string -> string)
    requires Single(inp, s) && Single(inp, t)
    requires forall k: LinkKey :: k.malId == 1 ==> ToOption(t.links, k) == LinkAfter(inp, s, k, lower)
    requires forall k, site :: k in t.links && IdAt(inp, k, t.links[k], site).Some? ==>
               Ext(t, 1, site) == IdAt(inp, k, t.links[k], site)
    requires forall site :: !Carried(inp, t.links, 1, site) ==> Ext(t, 1, site) == Ext(s, 1, site)
    ensures Step(inp, s, t, lower)
  {
    hide NextLinks, LinkAfter, IdAt, Matcher.LinkedIds, Matcher.FedBackAll;
    forall k ensures ToOption(NextLinks(inp, s, lower), k) == ToOption(t.links, k) {
      if k.malId == 1 {
        DubbedLinkAfter(inp, s, k, lower);
      } else {
        OtherLinkAfter(inp, s, k, lower);
      }
    }
    SameEverywhere(NextLinks(inp, s, lower), t.links);
    AgreeingLinks(inp, s, t);
    hide Carried, Ext;
    var fed := Matcher.FedBackAll(With(inp, s), t.links);
    forall e: ExtKey ensures e in fed <==> e in t.externals
                     ensures e in fed ==> fed[e] == t.externals[e]
    {
      assert e == ExtKey(e.malId, e.site);
      FedAt(inp, s, t, e);
    }
    assert fed == t.externals;
  }

  lemma IdsWithin(inp: Inputs, s: Pair, t: Pair, site: Site, m: int)
    requires Single(inp, s)
    requires forall k, x :: k in t.links && IdAt(inp, k, t.links[k], x).Some? ==>
              Ext(t, 1, x) == IdAt(inp, k, t.links[k], x)
    ensures var ids := Matcher.LinkedIds(With(inp, s), t.links, site, m);
            && |ids| <= 1 && (m != 1 ==> ids == {})
            && (m == 1 && Carried(inp, t.links, 1, site) ==> Ext(t, 1, site).Some? && ids == {Ext(t, 1, site).value})
            && (m == 1 && !Carried(inp, t.links, 1, site) ==> ids == {})
  {
    hide IdAt;
    var ids := Matcher.LinkedIds(With(inp, s), t.links, site, m);
    if m == 1 {
      hide Matcher.LinkedIds, Ext;
      LinkedIdsAre(inp, s, t.links, m, site);
      if k :| k in t.links && k.malId == 1 && IdAt(inp, k, t.links[k], site).Some? {
        assert ids == {Ext(t, 1, site).value};
      }
    } else {
      assert ids == {};
    }
  }

  lemma AgreeingLinks(inp: Inputs, s: Pair, t: Pair)
    requires Single(inp, s)
    requires forall k, x :: k in t.links && IdAt(inp, k, t.links[k], x).Some? ==>
              Ext(t, 1, x) == IdAt(inp, k, t.links[k], x)
    ensures Matcher.Agreed(With(inp, s), t.links)
  {
    hide IdAt, Matcher.LinkedIds, Carried, Ext;
    forall m, site: Site ensures |Matcher.LinkedIds(With(inp, s), t.links, site, m)| <= 1 {
      IdsWithin(inp, s, t, site, m);
    }
  }

  lemma FedAt(inp: Inputs, s: Pair, t: Pair, e: ExtKey)
    requires Single(inp, s) && Single(inp, t)
    requires forall k, x :: k in t.links && IdAt(inp, k, t.links[k], x).Some? ==>
              Ext(t, 1, x) == IdAt(inp, k, t.links[k], x)
    requires forall x :: !Carried(inp, t.links, 1, x) ==> Ext(t, 1, x) == Ext(s, 1, x)
    ensures var fed := Matcher.FedBackAll(With(inp, s), t.links);
            (e in fed <==> e in t.externals) && (e in fed ==> fed[e] == t.externals[e])
  {
    hide IdAt, Matcher.LinkedIds, Carried, Matcher.FedBackAll;
    assert e == ExtKey(e.malId, e.site);
    IdsWithin(inp, s, t, e.site, e.malId);
    if Matcher.LinkedIds(With(inp, s), t.links, e.site, e.malId) == {} {
      NotFed(inp, s, t.links, e.malId, e.site);
    } else {
      assert IsDubbed(inp, 1);
      assert e.malId == 1 && 1 in inp.anime;
      Matcher.FedBackAllAt(With(inp, s), t.links, e);
    }
  }

  /** The item is live in the key's instance and carries an id that compares as the anime's. */
  predicate Fits(inp: Inputs, s: Pair, k: LinkKey, site: Site, x: int) {
    var id := IdAt(inp, k, Link(x, ById(site)), site);
    id.Some? && Class(s, k.malId, site) == Some(CompareForm(site, id.value))
  }

  /** The match of a site is the least item that fits. */
  lemma MatchIs(inp: Inputs, s: Pair, k: LinkKey, site: Site)
    requires IsDubbed(inp, k.malId) && k.entity == EntityOf(site)
    ensures Match(inp, s, k, site).None? ==> forall x :: !Fits(inp, s, k, site, x)
    ensures Match(inp, s, k, site).Some? ==>
              Fits(inp, s, k, site, Match(inp, s, k, site).value) &&
              forall x :: Fits(inp, s, k, site, x) ==> Match(inp, s, k, site).value <= x
  {
    hide Match, IdAt, Class;
    forall x | Fits(inp, s, k, site, x)
      ensures Match(inp, s, k, site).Some? && Match(inp, s, k, site).value <= x
    {
      CarrierMatches(inp, s, k, site, Link(x, ById(site)));
    }
    if Match(inp, s, k, site).Some? {
      MatchCarries(inp, s, k, site, ById(site));
    }
  }

  /** The link of a movie key that is held back from titles. */
  lemma MovieLink(inp: Inputs, s: Pair, k: LinkKey, lower: string -> string)
    requires IsDubbed(inp, 1) && !HasTitles(inp.anime[1]) && k.malId == 1
    ensures LinkAfter(inp, s, k, lower) ==
            if k in inp.manual then Some(Link(inp.manual[k], Manual))
            else if Best(inp, s, k).Some? then Best(inp, s, k)
            else if Kept(s, k) then Some(s.links[k])
            else None
  {
    hide Best, TitleMatch;
  }

  lemma RunsStep(inp: Inputs, s: Pair, n: nat, t: Pair, u: Pair, lower: string -> string)
    requires Runs(inp, s, n, lower) == t && Step(inp, t, u, lower)
    ensures Runs(inp, s, n + 1, lower) == u
  {
    hide RunOn, Succeeds;
  }

  lemma NoRuns(inp: Inputs, s: Pair, lower: string -> string)
    ensures Runs(inp, s, 0, lower) == s
  {
  }

  // ---------------------------------------------------------------- three runs

  /** Movie 1 in `a` has the imdb id, movie 2 in `b` both ids, movie 3 in `c` the tmdb id; `a` is listed by hand. */
  function Chain(imdb: string, tmdb: string): Inputs {
    OneMovie(map[ItemKey(1, "a") := Carrying(map[Imdb := imdb]),
                 ItemKey(2, "b") := Carrying(map[Imdb := imdb, Tmdb := tmdb]),
                 ItemKey(3, "c") := Carrying(map[Tmdb := tmdb])],
             map[MovieKey("a") := 1])
  }

  /** Who carries what in the chain. */
  lemma ChainIds(imdb: string, tmdb: string, k: LinkKey, l: Link, site: Site)
    requires Trim(imdb) != [] && Trim(tmdb) != []
    ensures IdAt(Chain(imdb, tmdb), k, l, site) ==
            if k.entity.SonarrSeries? || Holder(k.inst, site) != Some(l.sourceId) then None
            else Some(Trim(if site == Imdb then imdb else tmdb))
  {
    hide Trim;
  }

  lemma ChainBest(imdb: string, tmdb: string, s: Pair, k: LinkKey)
    requires Trim(imdb) != [] && Trim(tmdb) != [] && k.malId == 1
    requires Ext(s, 1, Imdb) == None || Ext(s, 1, Imdb) == Some(Trim(imdb))
    requires Ext(s, 1, Tmdb) == None || Ext(s, 1, Tmdb) == Some(Trim(tmdb))
    ensures Best(Chain(imdb, tmdb), s, k) ==
            if k.entity.SonarrSeries? then None
            else if Ext(s, 1, Imdb).Some? && Holder(k.inst, Imdb).Some?
            then Some(Link(Holder(k.inst, Imdb).value, ById(Imdb)))
            else if Ext(s, 1, Tmdb).Some? && Holder(k.inst, Tmdb).Some?
            then Some(Link(Holder(k.inst, Tmdb).value, ById(Tmdb)))
            else None
  {
    var inp := Chain(imdb, tmdb);
    hide Chain, Match, Best, Holder, Trim, Ext;
    BestIs(inp, s, k);
    if k.entity.SonarrSeries? {
      NoSeries(imdb, tmdb, s, k);
    } else {
      ChainMatch(imdb, tmdb, s, k, Imdb);
      ChainMatch(imdb, tmdb, s, k, Tmdb);
    }
  }

  /** Which item of an instance carries the id of a site. */
  function Holder(inst: string, site: Site): Option<int> {
    match site
    case Imdb => if inst == "a" then Some(1) else if inst == "b" then Some(2) else None
    case Tmdb => if inst == "b" then Some(2) else if inst == "c" then Some(3) else None
    case Tvdb => None
  }

  lemma ChainMatch(imdb: string, tmdb: string, s: Pair, k: LinkKey, site: Site)
    requires Trim(imdb) != [] && Trim(tmdb) != [] && k.malId == 1 && k.entity == RadarrMovie && !site.Tvdb?
    requires Ext(s, 1, Imdb) == None || Ext(s, 1, Imdb) == Some(Trim(imdb))
    requires Ext(s, 1, Tmdb) == None || Ext(s, 1, Tmdb) == Some(Trim(tmdb))
    ensures Match(Chain(imdb, tmdb), s, k, site) == if Ext(s, 1, site).Some? then Holder(k.inst, site) else None
  {
    assert IsDubbed(Chain(imdb, tmdb), 1);
    hide Chain, Match, Fits, Trim, Ext, Holder;
    MatchIs(Chain(imdb, tmdb), s, k, site);
    ChainFits(imdb, tmdb, s, k, site);
    if Holder(k.inst, site).Some? && Ext(s, 1, site).Some? {
      assert Fits(Chain(imdb, tmdb), s, k, site, Holder(k.inst, site).value);
    }
  }

  lemma NoSeries(imdb: string, tmdb: string, s: Pair, k: LinkKey)
    requires Trim(imdb) != [] && Trim(tmdb) != [] && k.malId == 1 && k.entity == SonarrSeries
    ensures Match(Chain(imdb, tmdb), s, k, Tvdb).None?
  {
    assert IsDubbed(Chain(imdb, tmdb), 1);
    hide Chain, Match, IdAt, Trim;
    MatchIs(Chain(imdb, tmdb), s, k, Tvdb);
    if Match(Chain(imdb, tmdb), s, k, Tvdb).Some? {
      ChainIds(imdb, tmdb, k, Link(Match(Chain(imdb, tmdb), s, k, Tvdb).value, ById(Tvdb)), Tvdb);
    }
  }

  lemma ChainFits(imdb: string, tmdb: string, s: Pair, k: LinkKey, site: Site)
    requires Trim(imdb) != [] && Trim(tmdb) != [] && k.malId == 1 && k.entity == RadarrMovie && !site.Tvdb?
    requires Ext(s, 1, Imdb) == None || Ext(s, 1, Imdb) == Some(Trim(imdb))
    requires Ext(s, 1, Tmdb) == None || Ext(s, 1, Tmdb) == Some(Trim(tmdb))
    ensures forall x :: Fits(Chain(imdb, tmdb), s, k, site, x) <==>
              Ext(s, 1, site).Some? && Holder(k.inst, site) == Some(x)
  {
    hide Chain, IdAt, Trim, CompareForm, Ext;
    forall x ensures Fits(Chain(imdb, tmdb), s, k, site, x) <==>
              Ext(s, 1, site).Some? && Holder(k.inst, site) == Some(x)
    {
      ChainIds(imdb, tmdb, k, Link(x, ById(site)), site);
    }
  }

  /** The states the chain runs through. */
  function ChainPair(imdb: string, tmdb: string, n: nat): Pair {
    if n == 0 then Pair(map[], map[])
    else if n == 1 then Pair(map[MovieKey("a") := Link(1, Manual)], map[ExtKey(1, Imdb) := Trim(imdb)])
    else
      var two := map[MovieKey("a") := Link(1, Manual), MovieKey("b") := Link(2, ById(Imdb))];
      Pair(if n == 2 then two else two[MovieKey("c") := Link(3, ById(Tmdb))],
           map[ExtKey(1, Imdb) := Trim(imdb), ExtKey(1, Tmdb) := Trim(tmdb)])
  }

  lemma ChainExt(imdb: string, tmdb: string, n: nat, site: Site)
    ensures Ext(ChainPair(imdb, tmdb, n), 1, site) ==
            if site == Imdb && n >= 1 then Some(Trim(imdb))
            else if site == Tmdb && n >= 2 then Some(Trim(tmdb)) else None
  {
    hide Trim;
  }

  lemma ChainLinks(imdb: string, tmdb: string, n: nat, k: LinkKey)
    ensures ToOption(ChainPair(imdb, tmdb, n).links, k) ==
            if k == MovieKey("a") && n >= 1 then Some(Link(1, Manual))
            else if k == MovieKey("b") && n >= 2 then Some(Link(2, ById(Imdb)))
            else if k == MovieKey("c") && n >= 3 then Some(Link(3, ById(Tmdb)))
            else None
  {
    hide Trim;
  }

  lemma ChainLinkAfter(imdb: string, tmdb: string, n: nat, k: LinkKey, lower: string -> string)
    requires Trim(imdb) != [] && Trim(tmdb) != [] && k.malId == 1
    ensures ToOption(ChainPair(imdb, tmdb, n + 1).links, k) ==
            LinkAfter(Chain(imdb, tmdb), ChainPair(imdb, tmdb, n), k, lower)
  {
    var inp, s := Chain(imdb, tmdb), ChainPair(imdb, tmdb, n);
    hide *;
    ChainListing(imdb, tmdb, k);
    MovieLink(inp, s, k, lower);
    ChainExt(imdb, tmdb, n, Imdb);
    ChainExt(imdb, tmdb, n, Tmdb);
    ChainBest(imdb, tmdb, s, k);
    KeptManual(s, k);
    ChainLinks(imdb, tmdb, n, k);
    ChainLinks(imdb, tmdb, n + 1, k);
    ChainHolders(k);
  }

  lemma ChainListing(imdb: string, tmdb: string, k: LinkKey)
    ensures var inp := Chain(imdb, tmdb);
            && IsDubbed(inp, 1) && !HasTitles(inp.anime[1])
            && (k in inp.manual <==> k == MovieKey("a")) && (k in inp.manual ==> inp.manual[k] == 1)
  {
    hide Trim;
  }

  lemma KeptManual(s: Pair, k: LinkKey)
    ensures Kept(s, k) <==> ToOption(s.links, k).Some? && ToOption(s.links, k).value.how.Manual?
    ensures Kept(s, k) ==> ToOption(s.links, k) == Some(s.links[k])
  {
  }

  lemma ChainHolders(k: LinkKey)
    requires k.malId == 1
    ensures k.entity == RadarrMovie ==>
              && (k == MovieKey("a") <==> k.inst == "a") && (k == MovieKey("b") <==> k.inst == "b")
              && (k == MovieKey("c") <==> k.inst == "c")
    ensures k.entity == SonarrSeries ==> k != MovieKey("a") && k != MovieKey("b") && k != MovieKey("c")
    ensures Holder(k.inst, Imdb) == if k.inst == "a" then Some(1) else if k.inst == "b" then Some(2) else None
    ensures Holder(k.inst, Tmdb) == if k.inst == "b" then Some(2) else if k.inst == "c" then Some(3) else None
    ensures MovieKey("a") != MovieKey("b") && MovieKey("a") != MovieKey("c") && MovieKey("b") != MovieKey("c")
  {
    assert k == LinkKey(1, k.inst, k.entity);
  }

  /** Every id a link of the chain shows is the one written back, and only the first runs learn any. */
  lemma ChainFed(imdb: string, tmdb: string, n: nat, site: Site)
    requires Trim(imdb) != [] && Trim(tmdb) != []
    ensures var inp, s, t := Chain(imdb, tmdb), ChainPair(imdb, tmdb, n), ChainPair(imdb, tmdb, n + 1);
            && (forall k :: k in t.links && IdAt(inp, k, t.links[k], site).Some? ==>
                  Ext(t, 1, site) == IdAt(inp, k, t.links[k], site))
            && (!Carried(inp, t.links, 1, site) ==> Ext(t, 1, site) == Ext(s, 1, site))
  {
    var inp, s, t := Chain(imdb, tmdb), ChainPair(imdb, tmdb, n), ChainPair(imdb, tmdb, n + 1);
    hide Chain, ChainPair, Trim, IdAt, Ext;
    ChainExt(imdb, tmdb, n, site);
    ChainExt(imdb, tmdb, n + 1, site);
    forall k | k in t.links && IdAt(inp, k, t.links[k], site).Some?
      ensures Ext(t, 1, site) == IdAt(inp, k, t.links[k], site)
    {
      ChainIds(imdb, tmdb, k, t.links[k], site);
      ChainLinks(imdb, tmdb, n + 1, k);
    }
    ChainLinks(imdb, tmdb, n + 1, MovieKey("a"));
    ChainLinks(imdb, tmdb, n + 1, MovieKey("b"));
    ChainIds(imdb, tmdb, MovieKey("a"), Link(1, Manual), site);
    ChainIds(imdb, tmdb, MovieKey("b"), Link(2, ById(Imdb)), site);
  }

  lemma ChainShape(imdb: string, tmdb: string, n: nat)
    ensures Single(Chain(imdb, tmdb), ChainPair(imdb, tmdb, n))
  {
    hide Trim;
  }

  lemma ChainStep(imdb: string, tmdb: string, n: nat, lower: string -> string)
    requires Trim(imdb) != [] && Trim(tmdb) != []
    ensures Step(Chain(imdb, tmdb), ChainPair(imdb, tmdb, n), ChainPair(imdb, tmdb, n + 1), lower)
  {
    hide *;
    var inp, s, t := Chain(imdb, tmdb), ChainPair(imdb, tmdb, n), ChainPair(imdb, tmdb, n + 1);
    ChainShape(imdb, tmdb, n);
    ChainShape(imdb, tmdb, n + 1);
    forall k: LinkKey | k.malId == 1 ensures ToOption(t.links, k) == LinkAfter(inp, s, k, lower) {
      ChainLinkAfter(imdb, tmdb, n, k, lower);
    }
    forall site
      ensures forall k :: k in t.links && IdAt(inp, k, t.links[k], site).Some? ==>
                Ext(t, 1, site) == IdAt(inp, k, t.links[k], site)
      ensures !Carried(inp, t.links, 1, site) ==> Ext(t, 1, site) == Ext(s, 1, site)
    {
      ChainFed(imdb, tmdb, n, site);
    }
    Lands(inp, s, t, lower);
  }

  lemma {:induction false} ChainRuns(imdb: string, tmdb: string, n: nat, lower: string -> string)
    requires Trim(imdb) != [] && Trim(tmdb) != []
    ensures Runs(Chain(imdb, tmdb), ChainPair(imdb, tmdb, 0), n, lower) == ChainPair(imdb, tmdb, n)
  {
    hide *;
    var inp, s := Chain(imdb, tmdb), ChainPair(imdb, tmdb, 0);
    if n == 0 {
      NoRuns(inp, s, lower);
    } else {
      ChainRuns(imdb, tmdb, n - 1, lower);
      ChainStep(imdb, tmdb, n - 1, lower);
      RunsStep(inp, s, n - 1, ChainPair(imdb, tmdb, n - 1), ChainPair(imdb, tmdb, n), lower);
    }
  }

  lemma ChainEnds(imdb: string, tmdb: string)
    ensures ToOption(ChainPair(imdb, tmdb, 2).links, MovieKey("c")) == None
    ensures ToOption(ChainPair(imdb, tmdb, 3).links, MovieKey("c")) == Some(Link(3, ById(Tmdb)))
  {
    hide Trim, ChainPair;
    ChainLinks(imdb, tmdb, 2, MovieKey("c"));
    ChainLinks(imdb, tmdb, 3, MovieKey("c"));
  }

  /** From an empty table the second run leaves movie 3 unlinked and the third links it. */
  lemma ThirdRunStillLinks(imdb: string, tmdb: string, lower: string -> string)
    requires Trim(imdb) != [] && Trim(tmdb) != []
    ensures var s := ChainPair(imdb, tmdb, 0); var inp := Chain(imdb, tmdb);
            && ToOption(Runs(inp, s, 2, lower).links, MovieKey("c")) == None
            && ToOption(Runs(inp, s, 3, lower).links, MovieKey("c")) == Some(Link(3, ById(Tmdb)))
  {
    hide *;
    var inp := Chain(imdb, tmdb);
    var s := ChainPair(imdb, tmdb, 0);
    ChainRuns(imdb, tmdb, 2, lower);
    ChainRuns(imdb, tmdb, 3, lower);
    ChainEnds(imdb, tmdb);
  }

  // ---------------------------------------------------------------- four runs

  /** In `a`: movie 1 (imdb, second tmdb id), movie 2 (imdb, first tmdb id), movie 3 (first tmdb id); in `b`: movie 4
      (second tmdb id). Nothing is listed by hand; the row to start from is left over from a listing of movie 3. */
  function Relay(imdb: string, first: string, second: string): Inputs {
    OneMovie(map[ItemKey(1, "a") := Carrying(map[Imdb := imdb, Tmdb := second]),
                 ItemKey(2, "a") := Carrying(map[Imdb := imdb, Tmdb := first]),
                 ItemKey(3, "a") := Carrying(map[Tmdb := first]),
                 ItemKey(4, "b") := Carrying(map[Tmdb := second])],
             map[])
  }

  /** The texts are ids, and the two tmdb ids differ. */
  predicate RelayIds(imdb: string, first: string, second: string) {
    Trim(imdb) != [] && Trim(first) != [] && Trim(second) != [] && Trim(first) != Trim(second)
  }

  lemma RelayIdAt(imdb: string, first: string, second: string, k: LinkKey, l: Link, site: Site)
    requires RelayIds(imdb, first, second)
    ensures var x := l.sourceId;
            IdAt(Relay(imdb, first, second), k, l, site) ==
            if k.entity.SonarrSeries? then None
            else if site == Imdb && k.inst == "a" && 1 <= x <= 2 then Some(Trim(imdb))
            else if site == Tmdb && k.inst == "a" && 2 <= x <= 3 then Some(Trim(first))
            else if site == Tmdb && ((k.inst == "a" && x == 1) || (k.inst == "b" && x == 4)) then Some(Trim(second))
            else None
  {
    hide Trim;
  }

  function RelayPair(imdb: string, first: string, second: string, n: nat): Pair {
    var a, b := MovieKey("a"), MovieKey("b");
    if n == 0 then Pair(map[a := Link(3, Manual)], map[])
    else if n == 1 then Pair(map[a := Link(3, Manual)], map[ExtKey(1, Tmdb) := Trim(first)])
    else if n == 2 then
      Pair(map[a := Link(2, ById(Tmdb))], map[ExtKey(1, Imdb) := Trim(imdb), ExtKey(1, Tmdb) := Trim(first)])
    else
      var links := map[a := Link(1, ById(Imdb))];
      Pair(if n == 3 then links else links[b := Link(4, ById(Tmdb))],
           map[ExtKey(1, Imdb) := Trim(imdb), ExtKey(1, Tmdb) := Trim(second)])
  }

  lemma RelayExt(imdb: string, first: string, second: string, n: nat, site: Site)
    ensures Ext(RelayPair(imdb, first, second, n), 1, site) ==
            if site == Imdb && n >= 2 then Some(Trim(imdb))
            else if site == Tmdb && 1 <= n <= 2 then Some(Trim(first))
            else if site == Tmdb && n >= 3 then Some(Trim(second))
            else None
  {
    hide Trim;
  }

  lemma RelayLinks(imdb: string, first: string, second: string, n: nat, k: LinkKey)
    ensures ToOption(RelayPair(imdb, first, second, n).links, k) ==
            if k == MovieKey("a") then
              Some(if n <= 1 then Link(3, Manual) else if n == 2 then Link(2, ById(Tmdb)) else Link(1, ById(Imdb)))
            else if k == MovieKey("b") && n >= 4 then Some(Link(4, ById(Tmdb)))
            else None
  {
    hide Trim;
  }

  /** Which item a site leads to in the state before run `n`. */
  function RelayHolder(n: nat, inst: string, site: Site): Option<int> {
    if site == Imdb && n >= 2 && inst == "a" then Some(1)
    else if site == Tmdb && 1 <= n <= 2 && inst == "a" then Some(2)
    else if site == Tmdb && n >= 3 && inst == "a" then Some(1)
    else if site == Tmdb && n >= 3 && inst == "b" then Some(4)
    else None
  }

  lemma RelayFits(imdb: string, first: string, second: string, n: nat, k: LinkKey, site: Site, x: int)
    requires RelayIds(imdb, first, second) && k.malId == 1
    ensures Fits(Relay(imdb, first, second), RelayPair(imdb, first, second, n), k, site, x) <==>
              k.entity == RadarrMovie &&
              match site
              case Imdb => n >= 2 && k.inst == "a" && 1 <= x <= 2
              case Tmdb => (1 <= n <= 2 && k.inst == "a" && 2 <= x <= 3) ||
                           (n >= 3 && ((k.inst == "a" && x == 1) || (k.inst == "b" && x == 4)))
              case Tvdb => false
  {
    TrimmedCompares(site, first);
    TrimmedCompares(site, second);
    assert CompareForm(Tmdb, Trim(first)) == Trim(first) && CompareForm(Tmdb, Trim(second)) == Trim(second);
    hide Relay, RelayPair, IdAt, Trim, CompareForm, Ext;
    RelayIdAt(imdb, first, second, k, Link(x, ById(site)), site);
    RelayExt(imdb, first, second, n, site);
  }

  lemma RelayMatch(imdb: string, first: string, second: string, n: nat, k: LinkKey, site: Site)
    requires RelayIds(imdb, first, second) && k.malId == 1 && k.entity == EntityOf(site)
    ensures Match(Relay(imdb, first, second), RelayPair(imdb, first, second, n), k, site)
              == RelayHolder(n, k.inst, site)
  {
    var inp, s := Relay(imdb, first, second), RelayPair(imdb, first, second, n);
    assert IsDubbed(inp, 1);
    hide Relay, RelayPair, Match, Fits, RelayIds, RelayHolder;
    MatchIs(inp, s, k, site);
    forall x: int
      ensures Fits(inp, s, k, site, x) ==>
                RelayHolder(n, k.inst, site).Some? && RelayHolder(n, k.inst, site).value <= x
    {
      RelayFits(imdb, first, second, n, k, site, x);
      RelayHolderLeast(n, k.inst, site, x);
    }
    if RelayHolder(n, k.inst, site).Some? {
      RelayFits(imdb, first, second, n, k, site, RelayHolder(n, k.inst, site).value);
      RelayHolderLeast(n, k.inst, site, RelayHolder(n, k.inst, site).value);
      assert site != Tvdb by { RelayHolderLeast(n, k.inst, site, 0); }
    }
  }

  lemma RelayHolderLeast(n: nat, inst: string, site: Site, x: int)
    ensures var fits := match site
              case Imdb => n >= 2 && inst == "a" && 1 <= x <= 2
              case Tmdb => (1 <= n <= 2 && inst == "a" && 2 <= x <= 3) ||
                           (n >= 3 && ((inst == "a" && x == 1) || (inst == "b" && x == 4)))
              case Tvdb => false;
            && (fits ==> RelayHolder(n, inst, site).Some? && RelayHolder(n, inst, site).value <= x)
            && (RelayHolder(n, inst, site) == Some(x) ==> fits)
    ensures site == Tvdb ==> RelayHolder(n, inst, site).None?
  {
  }

  lemma RelayLinkAfter(imdb: string, first: string, second: string, n: nat, k: LinkKey, lower: string -> string)
    requires RelayIds(imdb, first, second) && k.malId == 1
    ensures ToOption(RelayPair(imdb, first, second, n + 1).links, k) ==
            LinkAfter(Relay(imdb, first, second), RelayPair(imdb, first, second, n), k, lower)
  {
    var inp, s := Relay(imdb, first, second), RelayPair(imdb, first, second, n);
    assert IsDubbed(inp, 1) && !HasTitles(inp.anime[1]) && inp.manual == map[];
    hide Relay, RelayPair, RelayIds, Best, Match, LinkAfter;
    MovieLink(inp, s, k, lower);
    BestIs(inp, s, k);
    forall site | EntityOf(site) == k.entity ensures Match(inp, s, k, site) == RelayHolder(n, k.inst, site) {
      RelayMatch(imdb, first, second, n, k, site);
    }
    assert k.entity == SonarrSeries ==> EntityOf(Tvdb) == k.entity;
    assert k.entity == RadarrMovie ==> EntityOf(Tmdb) == k.entity && EntityOf(Imdb) == k.entity;
    RelayLinks(imdb, first, second, n, k);
    RelayLinks(imdb, first, second, n + 1, k);
    assert k == LinkKey(1, k.inst, k.entity);
  }

  lemma RelayFed(imdb: string, first: string, second: string, n: nat, site: Site)
    requires RelayIds(imdb, first, second)
    ensures var inp, s := Relay(imdb, first, second), RelayPair(imdb, first, second, n);
            var t := RelayPair(imdb, first, second, n + 1);
            && (forall k :: k in t.links && IdAt(inp, k, t.links[k], site).Some? ==>
                  Ext(t, 1, site) == IdAt(inp, k, t.links[k], site))
            && (!Carried(inp, t.links, 1, site) ==> Ext(t, 1, site) == Ext(s, 1, site))
  {
    var inp, s := Relay(imdb, first, second), RelayPair(imdb, first, second, n);
    var t := RelayPair(imdb, first, second, n + 1);
    hide Relay, RelayPair, Trim, IdAt, Ext;
    RelayExt(imdb, first, second, n, site);
    RelayExt(imdb, first, second, n + 1, site);
    forall k | k in t.links && IdAt(inp, k, t.links[k], site).Some?
      ensures Ext(t, 1, site) == IdAt(inp, k, t.links[k], site)
    {
      RelayIdAt(imdb, first, second, k, t.links[k], site);
      RelayLinks(imdb, first, second, n + 1, k);
    }
    var a := MovieKey("a");
    RelayLinks(imdb, first, second, n + 1, a);
    RelayIdAt(imdb, first, second, a, t.links[a], site);
  }

  lemma RelayShape(imdb: string, first: string, second: string, n: nat)
    ensures Single(Relay(imdb, first, second), RelayPair(imdb, first, second, n))
  {
    hide Trim;
  }

  lemma RelayStep(imdb: string, first: string, second: string, n: nat, lower: string -> string)
    requires RelayIds(imdb, first, second)
    ensures Step(Relay(imdb, first, second), RelayPair(imdb, first, second, n),
                 RelayPair(imdb, first, second, n + 1), lower)
  {
    hide *;
    var inp, s := Relay(imdb, first, second), RelayPair(imdb, first, second, n);
    var t := RelayPair(imdb, first, second, n + 1);
    RelayShape(imdb, first, second, n);
    RelayShape(imdb, first, second, n + 1);
    forall k: LinkKey | k.malId == 1 ensures ToOption(t.links, k) == LinkAfter(inp, s, k, lower) {
      RelayLinkAfter(imdb, first, second, n, k, lower);
    }
    forall site
      ensures forall k :: k in t.links && IdAt(inp, k, t.links[k], site).Some? ==>
                Ext(t, 1, site) == IdAt(inp, k, t.links[k], site)
      ensures !Carried(inp, t.links, 1, site) ==> Ext(t, 1, site) == Ext(s, 1, site)
    {
      RelayFed(imdb, first, second, n, site);
    }
    Lands(inp, s, t, lower);
  }

  lemma {:induction false} RelayRuns(imdb: string, first: string, second: string, n: nat, lower: string -> string)
    requires RelayIds(imdb, first, second)
    ensures Runs(Relay(imdb, first, second), RelayPair(imdb, first, second, 0), n, lower)
              == RelayPair(imdb, first, second, n)
  {
    hide *;
    var inp, s := Relay(imdb, first, second), RelayPair(imdb, first, second, 0);
    if n == 0 {
      NoRuns(inp, s, lower);
    } else {
      RelayRuns(imdb, first, second, n - 1, lower);
      RelayStep(imdb, first, second, n - 1, lower);
      RunsStep(inp, s, n - 1, RelayPair(imdb, first, second, n - 1), RelayPair(imdb, first, second, n), lower);
    }
  }

  lemma RelayEnds(imdb: string, first: string, second: string)
    ensures ToOption(RelayPair(imdb, first, second, 3).links, MovieKey("b")) == None
    ensures ToOption(RelayPair(imdb, first, second, 4).links, MovieKey("b")) == Some(Link(4, ById(Tmdb)))
  {
    hide Trim, RelayPair;
    RelayLinks(imdb, first, second, 3, MovieKey("b"));
    RelayLinks(imdb, first, second, 4, MovieKey("b"));
  }

  /** The same movies while anime 1 was not dubbed yet and movie 3 was listed for it by hand. */
  function RelayBefore(imdb: string, first: string, second: string): Inputs {
    Relay(imdb, first, second).(anime := map[1 := Show(false, None, [], None, true)], manual := map[MovieKey("a") := 3])
  }

  const NO_TABLES := Pair(map[], map[])

  lemma BeforeListing(imdb: string, first: string, second: string)
    ensures var inp := RelayBefore(imdb, first, second);
            && (forall m :: !IsDubbed(inp, m))
            && (forall k :: k in inp.manual <==> k == MovieKey("a"))
            && (forall k :: k in inp.manual ==> inp.manual[k] == 3)
    ensures forall k :: !Kept(NO_TABLES, k)
    ensures NO_TABLES.externals == RelayPair(imdb, first, second, 0).externals
  {
  }

  /** Where nothing is dubbed no id is fed back. */
  lemma NothingFed(inp: Inputs, s: Pair, links: Links)
    requires forall m :: !IsDubbed(inp, m)
    ensures Matcher.FedBackAll(With(inp, s), links) == s.externals
  {
    hide Matcher.FedBackAll, Matcher.LinkedIds, Disagree;
    var fed := Matcher.FedBackAll(With(inp, s), links);
    forall e: ExtKey ensures e in fed <==> e in s.externals
                     ensures e in fed ==> fed[e] == s.externals[e]
    {
      assert e == ExtKey(e.malId, e.site);
      NoIdsLinked(inp, s, links, e.malId, e.site, x => x);
      NotFed(inp, s, links, e.malId, e.site);
    }
    assert fed == s.externals;
  }

  lemma NothingDisagrees(inp: Inputs, s: Pair, lower: string -> string)
    requires forall m :: !IsDubbed(inp, m)
    ensures Succeeds(inp, s, lower)
  {
    hide Succeeds, IdAfter;
    SucceedsIff(inp, s, lower);
  }

  /** From empty tables a run with the listing and without the dub leaves exactly the row to start from. */
  lemma RelayReached(imdb: string, first: string, second: string, lower: string -> string)
    ensures RunOn(RelayBefore(imdb, first, second), NO_TABLES, lower) == RelayPair(imdb, first, second, 0)
  {
    hide *;
    var inp, t := RelayBefore(imdb, first, second), RelayPair(imdb, first, second, 0);
    BeforeListing(imdb, first, second);
    forall k ensures ToOption(NextLinks(inp, NO_TABLES, lower), k) == ToOption(t.links, k) {
      OtherLinkAfter(inp, NO_TABLES, k, lower);
      RelayLinks(imdb, first, second, 0, k);
    }
    SameEverywhere(NextLinks(inp, NO_TABLES, lower), t.links);
    NothingDisagrees(inp, NO_TABLES, lower);
    NothingFed(inp, NO_TABLES, t.links);
    RunIs(inp, NO_TABLES, lower);
  }

  lemma RunIs(inp: Inputs, s: Pair, lower: string -> string)
    requires Succeeds(inp, s, lower)
    ensures RunOn(inp, s, lower) ==
            Pair(NextLinks(inp, s, lower), Matcher.FedBackAll(With(inp, s), NextLinks(inp, s, lower)))
  {
  }

  /** Four runs can be needed, also between tables that runs have made: a run from empty tables, before the anime was
      dubbed and while movie 3 was listed by hand, leaves a state from which the fourth run still adds a link. */
  lemma FourRunsNeeded(imdb: string, first: string, second: string, lower: string -> string)
    requires RelayIds(imdb, first, second)
    ensures var s := RunOn(RelayBefore(imdb, first, second), NO_TABLES, lower); var inp := Relay(imdb, first, second);
            && ToOption(Runs(inp, s, 3, lower).links, MovieKey("b")) == None
            && ToOption(Runs(inp, s, 4, lower).links, MovieKey("b")) == Some(Link(4, ById(Tmdb)))
  {
    hide *;
    RelayReached(imdb, first, second, lower);
    RelayRuns(imdb, first, second, 3, lower);
    RelayRuns(imdb, first, second, 4, lower);
    RelayEnds(imdb, first, second);
  }

  // ---------------------------------------------------------------- no run

  /** Two instances hold the same film, its imdb id spelt with and without the prefix. */
  function TwoSpellings(): Inputs {
    OneMovie(map[ItemKey(1, "a") := Carrying(map[Imdb := "tt9"]), ItemKey(2, "b") := Carrying(map[Imdb := "9"])], map[])
  }

  /** Both spellings match the anime's id, so the write-back touches one row twice: no run ever succeeds. */
  lemma TwoSpellingsFail(n: nat, lower: string -> string)
    ensures var s := Pair(map[], map[ExtKey(1, Imdb) := "tt9"]);
            !Succeeds(TwoSpellings(), s, lower) && Runs(TwoSpellings(), s, n, lower) == s
  {
    var inp, s := TwoSpellings(), Pair(map[], map[ExtKey(1, Imdb) := "tt9"]);
    var a, b := MovieKey("a"), MovieKey("b");
    Spellings();
    assert IsDubbed(inp, 1);
    assert Class(s, 1, Imdb) == Some(CompareForm(Imdb, "tt9"));
    assert forall x :: IdAt(inp, a, Link(x, ById(Imdb)), Imdb) == if x == 1 then Some("tt9") else None;
    assert forall x :: IdAt(inp, b, Link(x, ById(Imdb)), Imdb) == if x == 2 then Some("9") else None;
    hide TwoSpellings, Match, IdAt, CompareForm, Class, Runs, Succeeds;
    assert Fits(inp, s, a, Imdb, 1) && Fits(inp, s, b, Imdb, 2);
    MatchIs(inp, s, a, Imdb);
    MatchIs(inp, s, b, Imdb);
    NothingListed();
    SpellingsFail(inp, s, a, b, n, lower);
  }

  lemma NothingListed()
    ensures TwoSpellings().manual == map[]
  {
  }

  lemma Spellings()
    ensures Trim("tt9") == "tt9" && Trim("9") == "9"
    ensures CompareForm(Imdb, "tt9") == CompareForm(Imdb, "9")
  {
    assert "tt9"[2..] == "9";
    assert WithoutTT("") == "";
    assert WithoutTT("9") == "9" by { assert "9"[1..] == ""; }
    assert WithoutTT("tt9") == WithoutTT("9");
  }
}
