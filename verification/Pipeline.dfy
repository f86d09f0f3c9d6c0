/** The whole dub pipeline, from accepted lists to tags: fetches, union, matcher run and tag sync, end to end. */
module Pipeline {
  import opened Prelude
  import opened LinkTables
  import M = MalTables
  import D = DubRuns
  import R = MatcherRuns
  import T = TagSync

  function DubbedIds(db: M.Db): set<int> {
    set m | m in db.anime && db.anime[m].isDubbed
  }

  /** What a matcher run starts from. */
  function Tables(inp: Inputs, before: Links): R.Pair {
    R.Pair(before, inp.externals)
  }

  /** Two final links of a dubbed anime lead to items that carry different ids of a site, so the matcher run fails. */
  ghost predicate Conflict(inp: Inputs, before: Links, lower: string -> string) {
    exists k, q, site :: R.Disagree(inp, Tables(inp, before), k, q, site, lower)
  }

  /** The link the tag sync finds at a key: the final one, or after a failing run the old one. */
  ghost function LinkRead(inp: Inputs, before: Links, k: LinkKey, lower: string -> string): Option<Link> {
    if Conflict(inp, before, lower) then ToOption(before, k) else FinalLink(inp, before, k, lower)
  }

  /** A named anime whose link in the instance is the item. */
  ghost predicate LeadsTo(events: seq<D.Event>, enabled: set<M.Source>, wire: M.Wire, inp: Inputs, before: Links,
                          entity: Entity, inst: string, item: int, lower: string -> string) {
    exists m: int :: D.NamedBy(events, enabled, wire, m) &&
      LinkedTo(LinkRead(inp, before, LinkKey(m, inst, entity), lower), item)
  }

  predicate LinkedTo(l: Option<Link>, item: int) {
    l.Some? && l.value.sourceId == item
  }

  /** The link table after a matcher run, whether it succeeds or is rolled back. */
  ghost function LinksAfter(inp: Inputs, before: Links, lower: string -> string): Links {
    R.RunOn(inp, Tables(inp, before), lower).links
  }

  /** What the tag sync wants in an instance after the run, a union and a matcher run. */
  ghost function Targets(events: seq<D.Event>, enabled: set<M.Source>, wire: M.Wire, inp: Inputs,
                         before: Links, entity: Entity, inst: string, lower: string -> string): set<int> {
    T.Wanted(LinksAfter(inp, before, lower), DubbedIds(D.Run(events + [D.Union(enabled)], wire)), entity, inst)
  }

  lemma LinksAfterAt(inp: Inputs, before: Links, k: LinkKey, lower: string -> string)
    ensures ToOption(LinksAfter(inp, before, lower), k) == LinkRead(inp, before, k, lower)
  {
    hide Rebuilt, FinalLink, R.Disagree, R.Succeeds;
    var s := Tables(inp, before);
    assert R.With(inp, s) == inp;
    R.SucceedsIff(inp, s, lower);
    RebuiltAt(inp, before, k, lower);
  }

  lemma DubbedMeansNamed(events: seq<D.Event>, enabled: set<M.Source>, wire: M.Wire, id: int)
    requires D.Injective(wire)
    ensures id in DubbedIds(D.Run(events + [D.Union(enabled)], wire)) <==> D.NamedBy(events, enabled, wire, id)
  {
    D.FlagsFollowLists(events, enabled, id, wire);
    hide D.Run, D.Says;
    var listing := set s | s in enabled && D.Says(events, s, id, wire).Some?;
    assert listing != {} <==> D.NamedBy(events, enabled, wire, id) by {
      if s: M.Source :| s in enabled && D.Says(events, s, id, wire).Some? {
        assert s in listing;
      } else {
        assert listing == {};
      }
    }
  }

  /** An item of an instance is wanted exactly when an anime named by an enabled source's last accepted list is linked
      to it after the matcher run: by its final link, or by its old one if the run fails. */
  lemma WantedIff(events: seq<D.Event>, enabled: set<M.Source>, wire: M.Wire, inp: Inputs, before: Links,
                  entity: Entity, inst: string, item: int, lower: string -> string)
    requires D.Injective(wire)
    ensures item in Targets(events, enabled, wire, inp, before, entity, inst, lower)
       <==> LeadsTo(events, enabled, wire, inp, before, entity, inst, item, lower)
  {
    hide D.Run, D.NamedBy, LinksAfter, LinkRead, DubbedIds;
    var db := D.Run(events + [D.Union(enabled)], wire);
    var links := LinksAfter(inp, before, lower);
    forall m: int
      ensures m in DubbedIds(db) <==> D.NamedBy(events, enabled, wire, m)
      ensures ToOption(links, LinkKey(m, inst, entity)) == LinkRead(inp, before, LinkKey(m, inst, entity), lower)
    {
      DubbedMeansNamed(events, enabled, wire, m);
      LinksAfterAt(inp, before, LinkKey(m, inst, entity), lower);
    }
    if item in T.Wanted(links, DubbedIds(db), entity, inst) {
      var k :| k in links && k.malId in DubbedIds(db) && k.entity == entity && k.inst == inst &&
        links[k].sourceId == item;
      assert k == LinkKey(k.malId, inst, entity);
      assert LinkedTo(LinkRead(inp, before, LinkKey(k.malId, inst, entity), lower), item);
    }
    if LeadsTo(events, enabled, wire, inp, before, entity, inst, item, lower) {
      var m :| D.NamedBy(events, enabled, wire, m) &&
        LinkedTo(LinkRead(inp, before, LinkKey(m, inst, entity), lower), item);
      var k := LinkKey(m, inst, entity);
      assert ToOption(links, k) == LinkRead(inp, before, k, lower);
      assert k in links && links[k].sourceId == item;
    }
  }

  /** After any run of the lists, a union, a matcher run that may fail and a tag turn without errors, a live item
      carries the tag exactly when some anime named by an enabled source's last accepted list is linked to it, by its
      final link or, after a failing run, by its old one; and no other tag has changed. */
  lemma TagsFollowLists(events: seq<D.Event>, enabled: set<M.Source>, wire: M.Wire, inp: Inputs,
                        before: Links, entity: Entity, inst: string, rows: seq<T.LiveRow>, c: T.Conduct,
                        lower: string -> string)
    requires D.Injective(wire)
    requires var want := Targets(events, enabled, wire, inp, before, entity, inst, lower);
             T.ErrorsOf(rows, want, c) == 0
    ensures var want := Targets(events, enabled, wire, inp, before, entity, inst, lower);
            var after := T.AfterTurn(rows, want, c);
            && c.tagId.Some? && T.OnlyTagDiffers(after, rows, c.tagId.value)
            && forall i :: 0 <= i < |after| && after[i].id.Some? ==>
                 (c.tagId.value in T.Tags(after[i]) <==>
                  LeadsTo(events, enabled, wire, inp, before, entity, inst, after[i].id.value, lower))
  {
    hide D.Run, LinksAfter, LeadsTo, Targets, T.AfterTurn, T.ErrorsOf, T.Tags, T.Reconciled, DubbedIds;
    var want := Targets(events, enabled, wire, inp, before, entity, inst, lower);
    T.CleanTurn(rows, want, c);
    T.PassConverges(rows, want, c.tagId.value);
    var after := T.AfterTurn(rows, want, c);
    forall i | 0 <= i < |after| && after[i].id.Some?
      ensures c.tagId.value in T.Tags(after[i]) <==>
              LeadsTo(events, enabled, wire, inp, before, entity, inst, after[i].id.value, lower)
    {
      WantedIff(events, enabled, wire, inp, before, entity, inst, after[i].id.value, lower);
    }
  }
}
