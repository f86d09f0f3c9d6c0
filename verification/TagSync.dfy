/** Reconciling one tag in Sonarr and Radarr with the warehouse links. */
module TagSync {
  import opened Prelude
  import opened LinkTables

  /** A row of the live series or movie list; the API may leave the id or a tag out. */
  datatype LiveRow = LiveRow(id: Option<int>, tags: seq<Option<int>>)

  function Tags(row: LiveRow): set<int> {
    set t | t in row.tags && t.Some? :: t.value
  }

  // ---------------------------------------------------------------- the diff

  predicate NeedsAdd(row: LiveRow, want: set<int>, tag: int) {
    row.id.Some? && row.id.value in want && tag !in Tags(row)
  }

  predicate NeedsRemove(row: LiveRow, want: set<int>, tag: int) {
    row.id.Some? && row.id.value !in want && tag in Tags(row)
  }

  function ToAdd(rows: seq<LiveRow>, want: set<int>, tag: int): seq<int> {
    if rows == [] then []
    else
      var n := |rows| - 1;
      ToAdd(rows[..n], want, tag) + (if NeedsAdd(rows[n], want, tag) then [rows[n].id.value] else [])
  }

  function ToRemove(rows: seq<LiveRow>, want: set<int>, tag: int): seq<int> {
    if rows == [] then []
    else
      var n := |rows| - 1;
      ToRemove(rows[..n], want, tag) + (if NeedsRemove(rows[n], want, tag) then [rows[n].id.value] else [])
  }

  method TagDiff(rows: seq<LiveRow>, want: set<int>, tag: int) returns (toAdd: seq<int>, toRemove: seq<int>)
    ensures toAdd == ToAdd(rows, want, tag) && toRemove == ToRemove(rows, want, tag)
  {
    toAdd, toRemove := [], [];
    for i := 0 to |rows|
      invariant toAdd == ToAdd(rows[..i], want, tag) && toRemove == ToRemove(rows[..i], want, tag)
    {
      assert rows[..i + 1][..i] == rows[..i];
      var row := rows[i];
      if row.id.Some? {
        var sid := row.id.value;
        var tags := Tags(row);
        if sid in want {
          if tag !in tags {
            toAdd := toAdd + [sid];
          }
        } else if tag in tags {
          toRemove := toRemove + [sid];
        }
      }
    }
    assert rows[..|rows|] == rows;
  }

  lemma {:induction false} DiffIds(rows: seq<LiveRow>, want: set<int>, tag: int)
    ensures forall id :: id in Elements(ToAdd(rows, want, tag)) <==>
              exists r :: r in rows && NeedsAdd(r, want, tag) && r.id == Some(id)
    ensures forall id :: id in Elements(ToRemove(rows, want, tag)) <==>
              exists r :: r in rows && NeedsRemove(r, want, tag) && r.id == Some(id)
  {
    hide Tags;
    if rows != [] {
      var n := |rows| - 1;
      DiffIds(rows[..n], want, tag);
      ElementsOfConcat(ToAdd(rows[..n], want, tag), if NeedsAdd(rows[n], want, tag) then [rows[n].id.value] else []);
      ElementsOfConcat(ToRemove(rows[..n], want, tag),
                       if NeedsRemove(rows[n], want, tag) then [rows[n].id.value] else []);
      assert forall r :: r in rows <==> r in rows[..n] || r == rows[n];
      assert rows[n] in rows;
    }
  }

  lemma {:induction false} DiffLists(rows: seq<LiveRow>, want: set<int>, tag: int, i: nat)
    requires i < |rows| && rows[i].id.Some?
    ensures NeedsAdd(rows[i], want, tag) ==> rows[i].id.value in Elements(ToAdd(rows, want, tag))
    ensures NeedsRemove(rows[i], want, tag) ==> rows[i].id.value in Elements(ToRemove(rows, want, tag))
  {
    hide Tags;
    var n := |rows| - 1;
    ElementsOfConcat(ToAdd(rows[..n], want, tag), if NeedsAdd(rows[n], want, tag) then [rows[n].id.value] else []);
    ElementsOfConcat(ToRemove(rows[..n], want, tag),
                     if NeedsRemove(rows[n], want, tag) then [rows[n].id.value] else []);
    if i < n {
      DiffLists(rows[..n], want, tag, i);
    }
  }

  /** The two lists never share an id, however often ids repeat in the live rows. */
  lemma DiffDisjoint(rows: seq<LiveRow>, want: set<int>, tag: int)
    ensures Elements(ToAdd(rows, want, tag)) <= want
    ensures Elements(ToRemove(rows, want, tag)) !! want
  {
    DiffIds(rows, want, tag);
  }

  // ---------------------------------------------------------------- the tag editor

  datatype Mode = Add | Remove

  function WithoutTag(tags: seq<Option<int>>, tag: int): seq<Option<int>> {
    if tags == [] then []
    else if tags[0] == Some(tag) then WithoutTag(tags[1..], tag)
    else [tags[0]] + WithoutTag(tags[1..], tag)
  }

  /** What the bulk editor does to one row. */
  function Edited(row: LiveRow, ids: set<int>, tag: int, mode: Mode): LiveRow {
    if row.id.None? || row.id.value !in ids then row
    else if mode.Add? then
      if Some(tag) in row.tags then row else row.(tags := row.tags + [Some(tag)])
    else row.(tags := WithoutTag(row.tags, tag))
  }

  function EditedAll(rows: seq<LiveRow>, ids: set<int>, tag: int, mode: Mode): seq<LiveRow> {
    seq(|rows|, i requires 0 <= i < |rows| => Edited(rows[i], ids, tag, mode))
  }

  lemma {:induction false} WithoutTagIs(tags: seq<Option<int>>, tag: int)
    ensures forall t :: t in WithoutTag(tags, tag) <==> t in tags && t != Some(tag)
  {
    if tags != [] {
      WithoutTagIs(tags[1..], tag);
      assert forall t :: t in tags <==> t == tags[0] || t in tags[1..];
    }
  }

  lemma EditedTags(row: LiveRow, ids: set<int>, tag: int, mode: Mode)
    ensures Edited(row, ids, tag, mode).id == row.id
    ensures Tags(Edited(row, ids, tag, mode)) ==
            if row.id.None? || row.id.value !in ids then Tags(row)
            else if mode.Add? then Tags(row) + {tag} else Tags(row) - {tag}
  {
    WithoutTagIs(row.tags, tag);
  }

  lemma WithoutTagTwice(tags: seq<Option<int>>, tag: int)
    ensures WithoutTag(WithoutTag(tags, tag), tag) == WithoutTag(tags, tag)
  {
  }

  lemma EditTwice(rows: seq<LiveRow>, a: set<int>, b: set<int>, tag: int, mode: Mode)
    ensures EditedAll(EditedAll(rows, a, tag, mode), b, tag, mode) == EditedAll(rows, a + b, tag, mode)
  {
    forall i | 0 <= i < |rows|
      ensures Edited(Edited(rows[i], a, tag, mode), b, tag, mode) == Edited(rows[i], a + b, tag, mode)
    {
      WithoutTagTwice(rows[i].tags, tag);
    }
  }

  lemma EditNothing(rows: seq<LiveRow>, tag: int, mode: Mode)
    ensures EditedAll(rows, {}, tag, mode) == rows
  {
  }

  const CHUNK := 100

  /** How many of the ids get through when the request numbered `failsAt`, if any, is refused. */
  function Delivered(n: nat, failsAt: Option<nat>): nat {
    if failsAt.None? || failsAt.value * CHUNK >= n then n else failsAt.value * CHUNK
  }

  /** The client sends at most 100 ids per request and stops at the first refused one. */
  method UpdateTags(rows: seq<LiveRow>, ids: seq<int>, tag: int, mode: Mode, failsAt: Option<nat>)
    returns (after: seq<LiveRow>, ok: bool)
    ensures ok <==> Delivered(|ids|, failsAt) == |ids|
    ensures ok <==> failsAt.None? || 100 * failsAt.value >= |ids|
    ensures Delivered(|ids|, failsAt) == if ok then |ids| else 100 * failsAt.value
    ensures after == EditedAll(rows, Elements(ids[..Delivered(|ids|, failsAt)]), tag, mode)
  {
    hide EditedAll, Elements;
    after, ok := rows, true;
    var start, chunk := 0, 0;
    EditNothing(rows, tag, mode);
    assert Elements(ids[..0]) == {} by { NoElements(ids); }
    while start < |ids|
      invariant start == chunk * CHUNK
      invariant failsAt.Some? && chunk > failsAt.value ==> failsAt.value * CHUNK >= |ids|
      invariant start < |ids| ==> after == EditedAll(rows, Elements(ids[..start]), tag, mode)
      invariant start >= |ids| ==> after == EditedAll(rows, Elements(ids), tag, mode)
      decreases |ids| - start
    {
      if failsAt == Some(chunk) {
        return after, false;
      }
      var end := if start + CHUNK < |ids| then start + CHUNK else |ids|;
      ElementsOfConcat(ids[..start], ids[start..end]);
      assert ids[..end] == ids[..start] + ids[start..end];
      assert ids[..|ids|] == ids;
      EditTwice(rows, Elements(ids[..start]), Elements(ids[start..end]), tag, mode);
      after := EditedAll(after, Elements(ids[start..end]), tag, mode);
      start, chunk := start + CHUNK, chunk + 1;
    }
    assert ids[..|ids|] == ids;
  }

  lemma NoElements(ids: seq<int>)
    ensures Elements(ids[..0]) == {}
  {
  }

  // ---------------------------------------------------------------- convergence

  /** The tag sits on exactly the rows whose id is wanted. */
  predicate Converged(rows: seq<LiveRow>, want: set<int>, tag: int) {
    forall i :: 0 <= i < |rows| && rows[i].id.Some? ==> (tag in Tags(rows[i]) <==> rows[i].id.value in want)
  }

  /** Same rows, same ids, same other tags. */
  predicate OnlyTagDiffers(a: seq<LiveRow>, b: seq<LiveRow>, tag: int) {
    |a| == |b| && forall i :: 0 <= i < |a| ==> a[i].id == b[i].id && Tags(a[i]) - {tag} == Tags(b[i]) - {tag}
  }

  /** The live rows after one pass in which only `added` and `removed` of the planned ids went through. */
  function Passed(rows: seq<LiveRow>, added: set<int>, removed: set<int>, tag: int): seq<LiveRow> {
    EditedAll(EditedAll(rows, added, tag, Add), removed, tag, Remove)
  }

  function Reconciled(rows: seq<LiveRow>, want: set<int>, tag: int): seq<LiveRow> {
    Passed(rows, Elements(ToAdd(rows, want, tag)), Elements(ToRemove(rows, want, tag)), tag)
  }

  lemma PassedRow(rows: seq<LiveRow>, added: set<int>, removed: set<int>, tag: int, i: nat)
    requires i < |rows|
    ensures var after := Passed(rows, added, removed, tag)[i];
            && after.id == rows[i].id
            && Tags(after) - {tag} == Tags(rows[i]) - {tag}
            && (tag in Tags(after) <==>
                  (tag in Tags(rows[i]) || (rows[i].id.Some? && rows[i].id.value in added)) &&
                  !(rows[i].id.Some? && rows[i].id.value in removed))
  {
    EditedTags(rows[i], added, tag, Add);
    EditedTags(Edited(rows[i], added, tag, Add), removed, tag, Remove);
    hide *;
  }

  /** Even a pass that is cut short touches no other tag, and no row that was right becomes wrong. */
  lemma PartialPassIsSafe(rows: seq<LiveRow>, want: set<int>, tag: int, added: set<int>, removed: set<int>)
    requires added <= Elements(ToAdd(rows, want, tag)) && removed <= Elements(ToRemove(rows, want, tag))
    ensures var after := Passed(rows, added, removed, tag);
            && OnlyTagDiffers(after, rows, tag)
            && forall i :: 0 <= i < |rows| && rows[i].id.Some? &&
                           (tag in Tags(rows[i]) <==> rows[i].id.value in want) ==>
                 (tag in Tags(after[i]) <==> rows[i].id.value in want)
  {
    hide Passed, Tags, ToAdd, ToRemove;
    var after := Passed(rows, added, removed, tag);
    assert |after| == |rows| by { PassedLength(rows, added, removed, tag); }
    DiffDisjoint(rows, want, tag);
    forall i | 0 <= i < |rows|
      ensures after[i].id == rows[i].id && Tags(after[i]) - {tag} == Tags(rows[i]) - {tag}
      ensures rows[i].id.Some? && (tag in Tags(rows[i]) <==> rows[i].id.value in want) ==>
                (tag in Tags(after[i]) <==> rows[i].id.value in want)
    {
      PassedRow(rows, added, removed, tag, i);
    }
  }

  lemma PassedLength(rows: seq<LiveRow>, added: set<int>, removed: set<int>, tag: int)
    ensures |Passed(rows, added, removed, tag)| == |rows|
  {
  }

  /** A full pass leaves the tag on exactly the wanted rows and no other tag changed. */
  lemma PassConverges(rows: seq<LiveRow>, want: set<int>, tag: int)
    ensures Converged(Reconciled(rows, want, tag), want, tag)
    ensures OnlyTagDiffers(Reconciled(rows, want, tag), rows, tag)
  {
    hide Passed, Tags, ToAdd, ToRemove;
    var added, removed := Elements(ToAdd(rows, want, tag)), Elements(ToRemove(rows, want, tag));
    PartialPassIsSafe(rows, want, tag, added, removed);
    var after := Passed(rows, added, removed, tag);
    DiffDisjoint(rows, want, tag);
    forall i | 0 <= i < |after| && after[i].id.Some?
      ensures tag in Tags(after[i]) <==> after[i].id.value in want
    {
      PassedRow(rows, added, removed, tag, i);
      DiffLists(rows, want, tag, i);
    }
  }

  /** Nothing is left to do exactly when the rows have converged. */
  lemma {:induction false} EmptyDiffIff(rows: seq<LiveRow>, want: set<int>, tag: int)
    ensures Converged(rows, want, tag) <==> ToAdd(rows, want, tag) == [] && ToRemove(rows, want, tag) == []
  {
    hide Tags;
    if rows != [] {
      var n := |rows| - 1;
      EmptyDiffIff(rows[..n], want, tag);
      assert forall i :: 0 <= i < n ==> rows[..n][i] == rows[i];
      if Converged(rows[..n], want, tag) {
        assert Converged(rows, want, tag) <==>
               (rows[n].id.Some? ==> (tag in Tags(rows[n]) <==> rows[n].id.value in want));
      }
    }
  }

  /** Whatever part of a first pass went through, the next full pass converges to the very tags a full first
      pass would have left. */
  lemma NextPassRepairs(rows: seq<LiveRow>, want: set<int>, tag: int, added: set<int>, removed: set<int>)
    requires added <= Elements(ToAdd(rows, want, tag)) && removed <= Elements(ToRemove(rows, want, tag))
    ensures var repaired := Reconciled(Passed(rows, added, removed, tag), want, tag);
            var direct := Reconciled(rows, want, tag);
            && Converged(repaired, want, tag)
            && |repaired| == |direct|
            && forall i :: 0 <= i < |direct| && direct[i].id.Some? ==> Tags(repaired[i]) == Tags(direct[i])
  {
    hide Passed, Tags, ToAdd, ToRemove, Reconciled;
    var part := Passed(rows, added, removed, tag);
    PartialPassIsSafe(rows, want, tag, added, removed);
    PassConverges(rows, want, tag);
    PassConverges(part, want, tag);
    var repaired, direct := Reconciled(part, want, tag), Reconciled(rows, want, tag);
    forall i | 0 <= i < |direct| && direct[i].id.Some? ensures Tags(repaired[i]) == Tags(direct[i]) {
      assert Tags(repaired[i]) - {tag} == Tags(direct[i]) - {tag};
      assert tag in Tags(repaired[i]) <==> tag in Tags(direct[i]);
      SameSet(Tags(repaired[i]), Tags(direct[i]), tag);
    }
  }

  lemma SameSet(a: set<int>, b: set<int>, x: int)
    requires a - {x} == b - {x} && (x in a <==> x in b)
    ensures a == b
  {
    forall y ensures y in a <==> y in b {
      assert y in a - {x} <==> y in b - {x};
    }
  }

  // ---------------------------------------------------------------- targets

  /** The source ids an instance should have tagged: those linked to a dubbed anime. */
  function Wanted(links: Links, dubbed: set<int>, entity: Entity, inst: string): set<int> {
    set k | k in links && k.malId in dubbed && k.entity == entity && k.inst == inst :: links[k].sourceId
  }

  function WantedOf(targets: map<string, set<int>>, inst: string): set<int> {
    if inst in targets then targets[inst] else {}
  }

  /** The links named by some rows. */
  function Named(links: Links, rows: set<LinkKey>): Links {
    map k | k in links && k in rows :: links[k]
  }

  lemma NamedMore(links: Links, rows: set<LinkKey>, k: LinkKey)
    requires k in links
    ensures Named(links, rows + {k}) == Named(links, rows)[k := links[k]]
  {
  }

  /** Collect the targets per instance from the joined rows, in whatever order they come. */
  method LinkTargets(links: Links, dubbed: set<int>, rows: seq<LinkKey>)
    returns (sonarr: map<string, set<int>>, radarr: map<string, set<int>>)
    requires Elements(rows) == DubbedKeys(links, dubbed)
    ensures forall inst :: WantedOf(sonarr, inst) == Wanted(links, dubbed, SonarrSeries, inst)
    ensures forall inst :: WantedOf(radarr, inst) == Wanted(links, dubbed, RadarrMovie, inst)
  {
    hide Wanted, Elements, Named;
    sonarr, radarr := map[], map[];
    WantedNothing(links, dubbed, rows);
    for i := 0 to |rows|
      invariant forall inst ::
                  WantedOf(sonarr, inst) == Wanted(Named(links, Elements(rows[..i])), dubbed, SonarrSeries, inst)
      invariant forall inst ::
                  WantedOf(radarr, inst) == Wanted(Named(links, Elements(rows[..i])), dubbed, RadarrMovie, inst)
    {
      var k := rows[i];
      InElements(rows, i);
      FrontLast(rows[..i + 1]);
      assert rows[..i + 1][..i] == rows[..i];
      ghost var done := Named(links, Elements(rows[..i]));
      NamedMore(links, Elements(rows[..i]), k);
      NamedAgrees(links, Elements(rows[..i]), k);
      WantedMore(done, dubbed, k, links[k]);
      ghost var sonarrBefore, radarrBefore := sonarr, radarr;
      if k.entity.SonarrSeries? {
        sonarr := sonarr[k.inst := WantedOf(sonarr, k.inst) + {links[k].sourceId}];
      } else {
        radarr := radarr[k.inst := WantedOf(radarr, k.inst) + {links[k].sourceId}];
      }
      ghost var next := Named(links, Elements(rows[..i + 1]));
      forall inst
        ensures WantedOf(sonarr, inst) == Wanted(next, dubbed, SonarrSeries, inst)
        ensures WantedOf(radarr, inst) == Wanted(next, dubbed, RadarrMovie, inst)
      {
        assert WantedOf(sonarrBefore, inst) == Wanted(done, dubbed, SonarrSeries, inst);
        assert WantedOf(radarrBefore, inst) == Wanted(done, dubbed, RadarrMovie, inst);
      }
    }
    assert rows[..|rows|] == rows;
    WantedFromDubbed(links, dubbed);
  }

  function DubbedKeys(links: Links, dubbed: set<int>): set<LinkKey> {
    set k | k in links && k.malId in dubbed
  }

  lemma InElements<T>(s: seq<T>, i: nat)
    requires i < |s|
    ensures s[i] in Elements(s)
  {
  }

  lemma NamedAgrees(links: Links, rows: set<LinkKey>, k: LinkKey)
    ensures k in Named(links, rows) ==> k in links && Named(links, rows)[k] == links[k]
  {
  }

  lemma WantedNothing(links: Links, dubbed: set<int>, rows: seq<LinkKey>)
    ensures forall entity, inst :: Wanted(Named(links, Elements(rows[..0])), dubbed, entity, inst) == {}
  {
  }

  lemma WantedMore(done: Links, dubbed: set<int>, k: LinkKey, l: Link)
    requires k.malId in dubbed && (k in done ==> done[k] == l)
    ensures forall entity, inst :: Wanted(done[k := l], dubbed, entity, inst) ==
              Wanted(done, dubbed, entity, inst) + (if entity == k.entity && inst == k.inst then {l.sourceId} else {})
  {
    forall entity, inst
      ensures Wanted(done[k := l], dubbed, entity, inst) ==
              Wanted(done, dubbed, entity, inst) + (if entity == k.entity && inst == k.inst then {l.sourceId} else {})
    {
      var after := done[k := l];
      var a := Wanted(after, dubbed, entity, inst);
      var b := Wanted(done, dubbed, entity, inst) + (if entity == k.entity && inst == k.inst then {l.sourceId} else {});
      forall x | x in a ensures x in b {
        var q :| q in after && q.malId in dubbed && q.entity == entity && q.inst == inst && after[q].sourceId == x;
        assert q == k || q in done;
      }
      forall x | x in b ensures x in a {
        if x in Wanted(done, dubbed, entity, inst) {
          var q :| q in done && q.malId in dubbed && q.entity == entity && q.inst == inst && done[q].sourceId == x;
          assert q in after && after[q].sourceId == x;
        } else {
          assert k in after;
        }
      }
    }
  }

  lemma WantedFromDubbed(links: Links, dubbed: set<int>)
    ensures forall entity, inst ::
              Wanted(Named(links, DubbedKeys(links, dubbed)), dubbed, entity, inst)
                == Wanted(links, dubbed, entity, inst)
  {
    var done := Named(links, DubbedKeys(links, dubbed));
    forall entity, inst ensures Wanted(done, dubbed, entity, inst) == Wanted(links, dubbed, entity, inst) {
      forall x | x in Wanted(links, dubbed, entity, inst) ensures x in Wanted(done, dubbed, entity, inst) {
        var k :| k in links && k.malId in dubbed && k.entity == entity && k.inst == inst && links[k].sourceId == x;
        assert k in done;
      }
    }
  }

  // ---------------------------------------------------------------- a run over every instance

  datatype InstKey = InstKey(entity: Entity, name: string)

  /** How one instance answers: the tag id (or a failure), whether the listing works, and at which request the
      adding and the removing are refused. */
  datatype Conduct = Conduct(tagId: Option<int>, lists: bool, addFailsAt: Option<nat>, removeFailsAt: Option<nat>)

  /** The live rows of an instance after its turn. */
  function AfterTurn(rows: seq<LiveRow>, want: set<int>, c: Conduct): seq<LiveRow> {
    if c.tagId.None? || !c.lists then rows
    else
      var adds, removes := ToAdd(rows, want, c.tagId.value), ToRemove(rows, want, c.tagId.value);
      Passed(rows, Elements(adds[..Delivered(|adds|, c.addFailsAt)]),
             Elements(removes[..Delivered(|removes|, c.removeFailsAt)]), c.tagId.value)
  }

  /** How many errors a turn reports: one for an early failure, else one per refused editor call. */
  function ErrorsOf(rows: seq<LiveRow>, want: set<int>, c: Conduct): nat {
    if c.tagId.None? || !c.lists then 1
    else
      var adds, removes := |ToAdd(rows, want, c.tagId.value)|, |ToRemove(rows, want, c.tagId.value)|;
      (if Delivered(adds, c.addFailsAt) < adds then 1 else 0) +
      (if Delivered(removes, c.removeFailsAt) < removes then 1 else 0)
  }

  /** The instance gives no tag id or no listing. */
  predicate Unreached(c: Conduct) {
    c.tagId == None || c.lists == false
  }

  /** A list counts in full if no request of at most 100 ids was refused; else it counts nothing and one error. */
  predicate CountedRight(rows: seq<LiveRow>, want: set<int>, c: Conduct, tagged: nat, untagged: nat, errors: nat)
    requires c.tagId.Some?
  {
    var adds, removes := |ToAdd(rows, want, c.tagId.value)|, |ToRemove(rows, want, c.tagId.value)|;
    var addsOk := c.addFailsAt.None? || 100 * c.addFailsAt.value >= adds;
    var removesOk := c.removeFailsAt.None? || 100 * c.removeFailsAt.value >= removes;
    && tagged == (if addsOk then adds else 0) && untagged == (if removesOk then removes else 0)
    && errors == (if addsOk then 0 else 1) + (if removesOk then 0 else 1)
  }

  method TakeTurn(rows: seq<LiveRow>, want: set<int>, c: Conduct)
    returns (after: seq<LiveRow>, tagged: nat, untagged: nat, errors: nat, processed: bool)
    ensures after == AfterTurn(rows, want, c)
    ensures errors == ErrorsOf(rows, want, c)
    ensures processed <==> !Unreached(c)
    ensures !processed ==> after == rows && errors == 1 && tagged == untagged == 0
    ensures processed ==> CountedRight(rows, want, c, tagged, untagged, errors)
  {
    hide Elements, EditedAll;
    after, tagged, untagged, errors, processed := rows, 0, 0, 0, false;
    if c.tagId.None? || !c.lists {
      errors := 1;
      return;
    }
    var tag := c.tagId.value;
    processed := true;
    var toAdd, toRemove := TagDiff(rows, want, tag);
    NoElements(toAdd);
    NoElements(toRemove);
    if toAdd != [] {
      var ok;
      after, ok := UpdateTags(after, toAdd, tag, Add, c.addFailsAt);
      if ok {
        tagged := |toAdd|;
      } else {
        errors := errors + 1;
      }
    } else {
      EditNothing(after, tag, Add);
      assert toAdd[..0] == toAdd;
    }
    if toRemove != [] {
      var ok;
      after, ok := UpdateTags(after, toRemove, tag, Remove, c.removeFailsAt);
      if ok {
        untagged := |toRemove|;
      } else {
        errors := errors + 1;
      }
    } else {
      EditNothing(after, tag, Remove);
      assert toRemove[..0] == toRemove;
    }
  }

  predicate Distinct<T(==)>(s: seq<T>) {
    forall i, j :: 0 <= i < j < |s| ==> s[i] != s[j]
  }

  /** The rows of every instance once those named have had their turn. */
  predicate TurnsTaken(after: map<InstKey, seq<LiveRow>>, arr: map<InstKey, seq<LiveRow>>, entity: Entity,
                       names: seq<string>, targets: map<string, set<int>>, conduct: InstKey -> Conduct)
  {
    after.Keys == arr.Keys &&
    forall k :: k in arr ==>
      after[k] == if k.entity == entity && k.name in names
                  then AfterTurn(arr[k], WantedOf(targets, k.name), conduct(k)) else arr[k]
  }

  predicate NoErrors(arr: map<InstKey, seq<LiveRow>>, entity: Entity, names: seq<string>,
                     targets: map<string, set<int>>, conduct: InstKey -> Conduct)
    requires forall n :: n in names ==> InstKey(entity, n) in arr
  {
    forall n :: n in names ==> ErrorsOf(arr[InstKey(entity, n)], WantedOf(targets, n), conduct(InstKey(entity, n))) == 0
  }

  predicate NoneProcessed(entity: Entity, names: seq<string>, conduct: InstKey -> Conduct) {
    forall n :: n in names ==> Unreached(conduct(InstKey(entity, n)))
  }

  lemma NoTurnYet(arr: map<InstKey, seq<LiveRow>>, entity: Entity, targets: map<string, set<int>>,
                  conduct: InstKey -> Conduct)
    ensures TurnsTaken(arr, arr, entity, [], targets, conduct)
    ensures NoErrors(arr, entity, [], targets, conduct) && NoneProcessed(entity, [], conduct)
  {
  }

  lemma OneMoreTurn(after: map<InstKey, seq<LiveRow>>, arr: map<InstKey, seq<LiveRow>>, entity: Entity,
                    names: seq<string>, name: string, targets: map<string, set<int>>, conduct: InstKey -> Conduct)
    requires TurnsTaken(after, arr, entity, names, targets, conduct) && name !in names
    requires forall n :: n in names + [name] ==> InstKey(entity, n) in arr
    ensures var k := InstKey(entity, name); var rows := arr[k]; var want := WantedOf(targets, name);
            && k in after && after[k] == rows
            && TurnsTaken(after[k := AfterTurn(rows, want, conduct(k))], arr, entity, names + [name], targets, conduct)
            && (NoErrors(arr, entity, names + [name], targets, conduct) <==>
                NoErrors(arr, entity, names, targets, conduct) && ErrorsOf(rows, want, conduct(k)) == 0)
            && (NoneProcessed(entity, names + [name], conduct) <==>
                NoneProcessed(entity, names, conduct) && Unreached(conduct(k)))
  {
    hide AfterTurn, ErrorsOf, WantedOf;
    assert name in names + [name];
    assert forall n :: n in names + [name] <==> n in names || n == name;
  }

  lemma SomethingWrong(arr: map<InstKey, seq<LiveRow>>, entity: Entity, names: seq<string>,
                       targets: map<string, set<int>>, conduct: InstKey -> Conduct)
    requires forall n :: n in names ==> InstKey(entity, n) in arr
    ensures names != [] && NoneProcessed(entity, names, conduct) ==> !NoErrors(arr, entity, names, targets, conduct)
  {
    if names != [] {
      assert names[0] in names;
      var k := InstKey(entity, names[0]);
      NoTurn(arr[k], WantedOf(targets, names[0]), conduct(k));
    }
    hide ErrorsOf, WantedOf;
  }

  /** The instances of one kind, in turn. */
  method RunKind(arr: map<InstKey, seq<LiveRow>>, entity: Entity, names: seq<string>, targets: map<string, set<int>>,
                 conduct: InstKey -> Conduct)
    returns (after: map<InstKey, seq<LiveRow>>, errors: nat, processed: nat)
    requires Distinct(names) && forall n :: n in names ==> InstKey(entity, n) in arr
    ensures TurnsTaken(after, arr, entity, names, targets, conduct)
    ensures errors == 0 <==> NoErrors(arr, entity, names, targets, conduct)
    ensures processed == 0 <==> NoneProcessed(entity, names, conduct)
    ensures processed == 0 && names != [] ==> errors > 0
  {
    hide AfterTurn, ErrorsOf, WantedOf, TurnsTaken, NoErrors, NoneProcessed, CountedRight, Unreached;
    after, errors, processed := arr, 0, 0;
    NoTurnYet(arr, entity, targets, conduct);
    assert names[..0] == [];
    for i := 0 to |names|
      invariant TurnsTaken(after, arr, entity, names[..i], targets, conduct)
      invariant errors == 0 <==> NoErrors(arr, entity, names[..i], targets, conduct)
      invariant processed == 0 <==> NoneProcessed(entity, names[..i], conduct)
    {
      var k := InstKey(entity, names[i]);
      assert names[..i + 1] == names[..i] + [names[i]];
      OneMoreTurn(after, arr, entity, names[..i], names[i], targets, conduct);
      var rows, _, _, more, did := TakeTurn(after[k], WantedOf(targets, names[i]), conduct(k));
      after := after[k := rows];
      errors := errors + more;
      if did {
        processed := processed + 1;
      }
    }
    assert names[..|names|] == names;
    SomethingWrong(arr, entity, names, targets, conduct);
  }

  /** The run fails only when something went wrong and no instance was processed. */
  function RunFailed(errors: nat, processed: nat): bool {
    errors > 0 && processed == 0
  }

  method Run(arr: map<InstKey, seq<LiveRow>>, links: Links, dubbed: set<int>, rows: seq<LinkKey>,
             sonarr: seq<string>, radarr: seq<string>, conduct: InstKey -> Conduct)
    returns (after: map<InstKey, seq<LiveRow>>, failed: bool)
    requires Elements(rows) == DubbedKeys(links, dubbed)
    requires Distinct(sonarr) && Distinct(radarr)
    requires forall n :: n in sonarr ==> InstKey(SonarrSeries, n) in arr
    requires forall n :: n in radarr ==> InstKey(RadarrMovie, n) in arr
    ensures after.Keys == arr.Keys
    ensures forall k :: k in arr ==>
              after[k] == if k.name in (if k.entity.SonarrSeries? then sonarr else radarr)
              then AfterTurn(arr[k], Wanted(links, dubbed, k.entity, k.name), conduct(k)) else arr[k]
    ensures failed ==> after == arr
    ensures failed <==>
              && (sonarr != [] || radarr != [])
              && (forall n :: n in sonarr ==> Unreached(conduct(InstKey(SonarrSeries, n))))
              && (forall n :: n in radarr ==> Unreached(conduct(InstKey(RadarrMovie, n))))
  {
    hide AfterTurn, ErrorsOf, Wanted, WantedOf;
    var sonarrTargets, radarrTargets := LinkTargets(links, dubbed, rows);
    var mid, sonarrErrors, sonarrProcessed := RunKind(arr, SonarrSeries, sonarr, sonarrTargets, conduct);
    var radarrErrors, radarrProcessed;
    after, radarrErrors, radarrProcessed := RunKind(mid, RadarrMovie, radarr, radarrTargets, conduct);
    failed := RunFailed(sonarrErrors + radarrErrors, sonarrProcessed + radarrProcessed);
    forall k | failed && k in arr ensures after[k] == arr[k] {
      NoTurn(arr[k], Wanted(links, dubbed, k.entity, k.name), conduct(k));
    }
  }

  lemma NoTurn(rows: seq<LiveRow>, want: set<int>, c: Conduct)
    ensures c.tagId.None? || !c.lists ==> AfterTurn(rows, want, c) == rows
    ensures ErrorsOf(rows, want, c) == 0 ==> c.tagId.Some? && c.lists
  {
  }

  /** A turn without errors converges, whatever a first, failing turn with the same tag had already done. */
  lemma CleanTurnConverges(rows: seq<LiveRow>, want: set<int>, first: Conduct, second: Conduct)
    requires second.tagId.Some? && (first.tagId.Some? ==> first.tagId == second.tagId)
    requires ErrorsOf(AfterTurn(rows, want, first), want, second) == 0
    ensures Converged(AfterTurn(AfterTurn(rows, want, first), want, second), want, second.tagId.value)
    ensures OnlyTagDiffers(AfterTurn(AfterTurn(rows, want, first), want, second), rows, second.tagId.value)
  {
    hide Passed, ToAdd, ToRemove, Tags, Elements;
    var tag := second.tagId.value;
    var mid := AfterTurn(rows, want, first);
    CleanTurn(mid, want, second);
    PassConverges(mid, want, tag);
    if first.tagId.Some? && first.lists {
      var adds, removes := ToAdd(rows, want, tag), ToRemove(rows, want, tag);
      Prefix(adds, Delivered(|adds|, first.addFailsAt));
      Prefix(removes, Delivered(|removes|, first.removeFailsAt));
      PartialPassIsSafe(rows, want, tag, Elements(adds[..Delivered(|adds|, first.addFailsAt)]),
                        Elements(removes[..Delivered(|removes|, first.removeFailsAt)]));
    }
  }

  lemma CleanTurn(rows: seq<LiveRow>, want: set<int>, c: Conduct)
    requires ErrorsOf(rows, want, c) == 0
    ensures c.tagId.Some? && AfterTurn(rows, want, c) == Reconciled(rows, want, c.tagId.value)
  {
    hide Passed, ToAdd, ToRemove, Elements;
    var adds, removes := ToAdd(rows, want, c.tagId.value), ToRemove(rows, want, c.tagId.value);
    assert adds[..|adds|] == adds && removes[..|removes|] == removes;
  }

  lemma Prefix<T>(s: seq<T>, n: nat)
    requires n <= |s|
    ensures Elements(s[..n]) <= Elements(s)
  {
    ElementsOfConcat(s[..n], s[n..]);
    assert s == s[..n] + s[n..];
  }
}
