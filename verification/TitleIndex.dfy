/** Matching by title and year: which warehouse item a list of titles picks, and the dictionary-based loop
    that finds it.
  */
module TitleIndex {
  import opened Prelude
  import opened Text

  /** One live warehouse row of an instance. */
  datatype Row = Row(sourceId: int, title: string, year: Option<int>)

  predicate IsKeyChar(c: char) {
    'a' <= c <= 'z' || '0' <= c <= '9'
  }

  function KeyChars(s: string): string {
    if s == [] then []
    else if IsKeyChar(s[0]) then [s[0]] + KeyChars(s[1..])
    else KeyChars(s[1..])
  }

  /** Letters and digits of the lower-cased title. `lower` is the language's lower-casing. */
  function NormTitle(s: string, lower: string -> string): string {
    KeyChars(lower(s))
  }

  /** Exactly the characters a to z and 0 to 9 stay, in order. */
  lemma {:induction false} KeyCharsAre(a: string, c: char, b: string)
    ensures KeyChars("") == ""
    ensures KeyChars(a + [c] + b) ==
            KeyChars(a) + (if 97 <= c as int <= 122 || 48 <= c as int <= 57 then [c] else []) + KeyChars(b)
  {
    var s := a + [c] + b;
    if a == [] {
      assert s[0] == c && s[1..] == b;
    } else {
      KeyCharsAre(a[1..], c, b);
      assert s[0] == a[0] && s[1..] == a[1..] + [c] + b;
      assert a == [a[0]] + a[1..];
    }
  }

  // ---------------------------------------------------------------- variants

  /** The titles worth normalizing: the main title, then the others, blanks dropped. */
  function RawTitles(main: Option<string>, additional: seq<Option<string>>): seq<string> {
    NonBlank([main] + additional)
  }

  function NonBlank(titles: seq<Option<string>>): seq<string> {
    if titles == [] then []
    else
      var front := NonBlank(titles[..|titles| - 1]);
      var t := titles[|titles| - 1];
      if t.Some? && Strip(t.value) != [] then front + [Strip(t.value)] else front
  }

  /** The main title comes first, then the others, each stripped; blanks and nulls are dropped. */
  lemma RawTitlesAre(main: Option<string>, additional: seq<Option<string>>, more: Option<string>)
    ensures RawTitles(main, []) == if main.Some? && Strip(main.value) != "" then [Strip(main.value)] else []
    ensures RawTitles(main, additional + [more]) ==
            RawTitles(main, additional) + if more.Some? && Strip(more.value) != "" then [Strip(more.value)] else []
  {
    hide Strip;
    assert ([main] + (additional + [more]))[..|additional| + 1] == [main] + additional;
    assert [main] + [] == [main] && [main][..0] == [];
    assert NonBlank([]) == [] && RawTitles(main, []) == NonBlank([main]);
  }

  /** Non-empty normalized keys in order of first appearance. */
  function Keys(raw: seq<string>, lower: string -> string): seq<string> {
    if raw == [] then []
    else
      var front := Keys(raw[..|raw| - 1], lower);
      var k := NormTitle(raw[|raw| - 1], lower);
      if k == [] || k in front then front else front + [k]
  }

  /** The keys are the distinct non-empty normalized titles. */
  lemma {:induction false} KeysAre(raw: seq<string>, lower: string -> string)
    ensures forall i, j :: 0 <= i < j < |Keys(raw, lower)| ==> Keys(raw, lower)[i] != Keys(raw, lower)[j]
    ensures forall k :: k in Keys(raw, lower) <==> k != [] && exists s :: s in raw && NormTitle(s, lower) == k
  {
    if raw != [] {
      var front, last := raw[..|raw| - 1], raw[|raw| - 1];
      KeysAre(front, lower);
      FrontLast(raw);
      assert forall s :: s in raw <==> s in front || s == last;
      assert last in raw;
      forall k ensures k in Keys(raw, lower) <==> k in Keys(front, lower) || (k != [] && k == NormTitle(last, lower)) {
      }
      forall k | k in Keys(front, lower) ensures exists s :: s in raw && NormTitle(s, lower) == k {
        var s :| s in front && NormTitle(s, lower) == k;
        assert s in raw;
      }
    }
  }

  function Normalized(raw: seq<string>, lower: string -> string): seq<string> {
    seq(|raw|, i requires 0 <= i < |raw| => NormTitle(raw[i], lower))
  }

  /** The keys come in the order in which their titles first appear. */
  lemma {:induction false} KeysInOrder(raw: seq<string>, lower: string -> string)
    ensures var keys, all := Keys(raw, lower), Normalized(raw, lower);
            && (forall k :: k in keys ==> k in all)
            && (forall i, j :: 0 <= i < j < |keys| ==> FirstIndex(all, keys[i]) < FirstIndex(all, keys[j]))
  {
    hide NormTitle;
    if raw != [] {
      var n := |raw| - 1;
      var front, last := raw[..n], NormTitle(raw[n], lower);
      var keys, all := Keys(front, lower), Normalized(front, lower);
      KeysInOrder(front, lower);
      assert Normalized(raw, lower) == all + [last];
      FirstIndexAppend(all, last);
      if last != [] && last !in keys {
        KeysAre(front, lower);
        NormalizedIn(front, last, lower);
        assert last !in all;
        assert Keys(raw, lower) == keys + [last];
      } else {
        assert Keys(raw, lower) == keys;
      }
      hide Keys, Normalized;
      var now := Keys(raw, lower);
      forall i, j | 0 <= i < j < |now|
        ensures FirstIndex(all + [last], now[i]) < FirstIndex(all + [last], now[j])
      {
        assert now[i] == keys[i] && keys[i] in all;
        if j < |keys| {
          assert now[j] == keys[j] && keys[j] in all;
        }
      }
    }
  }

  lemma NormalizedIn(raw: seq<string>, key: string, lower: string -> string)
    ensures key in Normalized(raw, lower) <==> exists s :: s in raw && NormTitle(s, lower) == key
  {
    hide NormTitle;
    if s: string :| s in raw && NormTitle(s, lower) == key {
      var i :| 0 <= i < |raw| && raw[i] == s;
      assert Normalized(raw, lower)[i] == key;
    }
    if key in Normalized(raw, lower) {
      var i :| 0 <= i < |raw| && Normalized(raw, lower)[i] == key;
      assert raw[i] in raw && NormTitle(raw[i], lower) == key;
    }
  }

  function Variants(main: Option<string>, additional: seq<Option<string>>, lower: string -> string): seq<string> {
    Keys(RawTitles(main, additional), lower)
  }

  /** The loops that collect the variants: first the titles, then their keys. */
  method NormalizedTitleVariants(main: Option<string>, additional: seq<Option<string>>, lower: string -> string)
    returns (out: seq<string>)
    ensures out == Variants(main, additional, lower)
  {
    var raw := CollectTitles(main, additional);
    out := DistinctKeys(raw, lower);
  }

  method CollectTitles(main: Option<string>, additional: seq<Option<string>>) returns (raw: seq<string>)
    ensures raw == RawTitles(main, additional)
  {
    hide Strip;
    var titles := [main] + additional;
    raw := [];
    if main.Some? && Strip(main.value) != [] {
      raw := raw + [Strip(main.value)];
    }
    assert titles[..1] == [main] && [main][..0] == [];
    for i := 0 to |additional|
      invariant raw == NonBlank(titles[..i + 1])
    {
      assert titles[..i + 2][..i + 1] == titles[..i + 1] && titles[i + 1] == additional[i];
      if additional[i].Some? && Strip(additional[i].value) != [] {
        raw := raw + [Strip(additional[i].value)];
      }
    }
    assert titles[..|additional| + 1] == titles;
  }

  method DistinctKeys(raw: seq<string>, lower: string -> string) returns (out: seq<string>)
    ensures out == Keys(raw, lower)
  {
    var seen: set<string> := {};
    out := [];
    for i := 0 to |raw|
      invariant out == Keys(raw[..i], lower)
      invariant seen == Elements(out)
    {
      assert raw[..i + 1][..i] == raw[..i];
      var nt := NormTitle(raw[i], lower);
      if nt != [] && nt !in seen {
        ElementsOfConcat(out, [nt]);
        seen := seen + {nt};
        out := out + [nt];
      }
    }
    assert raw[..|raw|] == raw;
  }

  // ---------------------------------------------------------------- brute force

  /** The rows whose normalized title is `key`. */
  function Named(rows: set<Row>, key: string, lower: string -> string): set<Row> {
    set r | r in rows && NormTitle(r.title, lower) == key
  }

  predicate Near(year: Option<int>, wanted: int) {
    year.None? || -1 <= year.value - wanted <= 1
  }

  function NearRows(rows: set<Row>, wanted: int): set<Row> {
    set r | r in rows && Near(r.year, wanted)
  }

  /** The rows that count: those within a year of the wanted one or without a year, unless there are none. */
  function Counting(rows: set<Row>, wanted: Option<int>): set<Row> {
    if wanted.Some? && NearRows(rows, wanted.value) != {} then NearRows(rows, wanted.value) else rows
  }

  /** The only element, if there is exactly one. */
  ghost function Only(rows: set<Row>): Option<int> {
    if |rows| == 1 then Some(Pick(rows).sourceId) else None
  }

  /** The item picked by the first variant with exactly one counting row. */
  ghost function Picked(rows: set<Row>, variants: seq<string>, wanted: Option<int>,
                        lower: string -> string): Option<int> {
    if variants == [] then None
    else
      var here := Only(Counting(Named(rows, variants[0], lower), wanted));
      if here.Some? then here else Picked(rows, variants[1..], wanted, lower)
  }

  /** A row with the key counts: its year is within one of the wanted year or unknown, or no row with the key has such a
      year, or no year is wanted. */
  predicate CountsFor(r: Row, rows: set<Row>, key: string, wanted: Option<int>, lower: string -> string) {
    r in rows && NormTitle(r.title, lower) == key &&
    (wanted.None? || r.year.None? || wanted.value - 1 <= r.year.value <= wanted.value + 1 ||
     forall q :: q in rows && NormTitle(q.title, lower) == key ==>
       q.year.Some? && (q.year.value < wanted.value - 1 || q.year.value > wanted.value + 1))
  }

  ghost predicate OnlyFor(x: int, rows: set<Row>, key: string, wanted: Option<int>, lower: string -> string) {
    exists r: Row :: r.sourceId == x && forall q :: CountsFor(q, rows, key, wanted, lower) <==> q == r
  }

  lemma CountingAre(rows: set<Row>, key: string, wanted: Option<int>, lower: string -> string, r: Row)
    ensures r in Counting(Named(rows, key, lower), wanted) <==> CountsFor(r, rows, key, wanted, lower)
  {
    hide NormTitle;
    var named := Named(rows, key, lower);
    if wanted.Some? && NearRows(named, wanted.value) != {} {
      var q: Row :| q in NearRows(named, wanted.value);
      assert q in rows && NormTitle(q.title, lower) == key;
    } else if wanted.Some? {
      forall q | q in rows && NormTitle(q.title, lower) == key ensures q !in NearRows(named, wanted.value) {
      }
    }
  }

  lemma OnlyIs(rows: set<Row>, key: string, wanted: Option<int>, lower: string -> string, x: int)
    ensures Only(Counting(Named(rows, key, lower), wanted)) == Some(x) <==> OnlyFor(x, rows, key, wanted, lower)
  {
    var counting := Counting(Named(rows, key, lower), wanted);
    forall q ensures q in counting <==> CountsFor(q, rows, key, wanted, lower) {
      CountingAre(rows, key, wanted, lower, q);
    }
    hide Counting, Named, CountsFor;
    if Only(counting) == Some(x) {
      var r := Pick(counting);
      assert |counting - {r}| == 0;
      assert counting == {r};
    }
    if OnlyFor(x, rows, key, wanted, lower) {
      var r: Row :| r.sourceId == x && forall q :: CountsFor(q, rows, key, wanted, lower) <==> q == r;
      assert counting == {r};
    }
  }

  /** The item picked is the one row that counts for some key, and for no earlier key does exactly one row count. */
  lemma {:induction false} PickedIs(rows: set<Row>, variants: seq<string>, wanted: Option<int>,
                                    lower: string -> string, x: int)
    ensures Picked(rows, variants, wanted, lower) == Some(x) <==>
              exists i :: 0 <= i < |variants| && OnlyFor(x, rows, variants[i], wanted, lower) &&
                          forall j, y :: 0 <= j < i ==> !OnlyFor(y, rows, variants[j], wanted, lower)
  {
    hide Only, Counting, Named, OnlyFor;
    if variants != [] {
      var rest := variants[1..];
      PickedIs(rows, rest, wanted, lower, x);
      forall y ensures Only(Counting(Named(rows, variants[0], lower), wanted)) == Some(y) <==>
                       OnlyFor(y, rows, variants[0], wanted, lower) {
        OnlyIs(rows, variants[0], wanted, lower, y);
      }
      var here := Only(Counting(Named(rows, variants[0], lower), wanted));
      if here.None? {
        if i :| 0 <= i < |rest| && OnlyFor(x, rows, rest[i], wanted, lower) &&
                forall j, y :: 0 <= j < i ==> !OnlyFor(y, rows, rest[j], wanted, lower) {
          assert variants[i + 1] == rest[i];
          forall j, y | 0 <= j < i + 1 ensures !OnlyFor(y, rows, variants[j], wanted, lower) {
            assert j > 0 ==> variants[j] == rest[j - 1];
          }
        }
        if i :| 0 <= i < |variants| && OnlyFor(x, rows, variants[i], wanted, lower) &&
                forall j, y :: 0 <= j < i ==> !OnlyFor(y, rows, variants[j], wanted, lower) {
          assert i > 0 && rest[i - 1] == variants[i];
          forall j, y | 0 <= j < i - 1 ensures !OnlyFor(y, rows, rest[j], wanted, lower) {
            assert rest[j] == variants[j + 1];
          }
        }
      } else {
        assert OnlyFor(here.value, rows, variants[0], wanted, lower);
      }
    }
  }

  // ---------------------------------------------------------------- the index

  datatype Cand = Cand(sourceId: int, year: Option<int>)

  predicate DistinctIds(rows: seq<Row>) {
    forall i, j :: 0 <= i < j < |rows| ==> rows[i].sourceId != rows[j].sourceId
  }

  /** The rows with a given key, in row order. */
  function NamedSeq(rows: seq<Row>, key: string, lower: string -> string): seq<Row> {
    if rows == [] then []
    else
      var n := |rows| - 1;
      NamedSeq(rows[..n], key, lower) + (if NormTitle(rows[n].title, lower) == key then [rows[n]] else [])
  }

  function CandOf(r: Row): Cand {
    Cand(r.sourceId, r.year)
  }

  function CandsOf(rows: seq<Row>): seq<Cand> {
    seq(|rows|, i requires 0 <= i < |rows| => CandOf(rows[i]))
  }

  ghost predicate Indexes(index: map<string, seq<Cand>>, rows: seq<Row>, lower: string -> string) {
    forall key: string :: key != [] ==>
      (if key in index then index[key] else []) == CandsOf(NamedSeq(rows, key, lower))
  }

  lemma NamedSeqMore(rows: seq<Row>, row: Row, key: string, lower: string -> string)
    ensures NamedSeq(rows + [row], key, lower) ==
            NamedSeq(rows, key, lower) + (if NormTitle(row.title, lower) == key then [row] else [])
  {
    hide NormTitle;
    assert (rows + [row])[..|rows|] == rows;
  }

  lemma NothingIndexed(lower: string -> string)
    ensures Indexes(map[], [], lower)
  {
  }

  /** The index of one row more. */
  lemma OneMoreRow(index: map<string, seq<Cand>>, rows: seq<Row>, row: Row, lower: string -> string)
    requires Indexes(index, rows, lower)
    ensures var nt := NormTitle(row.title, lower);
            Indexes(if nt == [] then index else index[nt := (if nt in index then index[nt] else []) + [CandOf(row)]],
                    rows + [row], lower)
  {
    hide NormTitle, NamedSeq;
    var nt := NormTitle(row.title, lower);
    forall key: string | key != []
      ensures CandsOf(NamedSeq(rows + [row], key, lower)) ==
              (if key in index then index[key] else []) + (if nt == key then [CandOf(row)] else [])
    {
      NamedSeqMore(rows, row, key, lower);
      assert (if key in index then index[key] else []) == CandsOf(NamedSeq(rows, key, lower));
    }
  }

  /** Group the rows of an instance by normalized title. */
  method BuildIndex(rows: seq<Row>, lower: string -> string) returns (index: map<string, seq<Cand>>)
    ensures Indexes(index, rows, lower)
  {
    hide NormTitle;
    index := map[];
    NothingIndexed(lower);
    assert rows[..0] == [];
    for i := 0 to |rows|
      invariant Indexes(index, rows[..i], lower)
    {
      var nt := NormTitle(rows[i].title, lower);
      OneMoreRow(index, rows[..i], rows[i], lower);
      assert rows[..i + 1] == rows[..i] + [rows[i]];
      if nt != [] {
        index := index[nt := (if nt in index then index[nt] else []) + [CandOf(rows[i])]];
      }
    }
    assert rows[..|rows|] == rows;
  }

  lemma {:induction false} NamedSeqIs(rows: seq<Row>, key: string, lower: string -> string)
    requires DistinctIds(rows)
    ensures DistinctIds(NamedSeq(rows, key, lower))
    ensures Elements(NamedSeq(rows, key, lower)) == Named(Elements(rows), key, lower)
  {
    if rows != [] {
      var n := |rows| - 1;
      NamedSeqIs(rows[..n], key, lower);
      FrontLast(rows);
      var front := NamedSeq(rows[..n], key, lower);
      ElementsOfConcat(front, [rows[n]]);
      assert front + [] == front;
      forall i | 0 <= i < |front| ensures front[i].sourceId != rows[n].sourceId {
        assert front[i] in Elements(front);
        assert front[i] in rows[..n];
      }
    }
  }

  /** The candidates near a year, in order. */
  function NearSeq(rows: seq<Row>, wanted: int): seq<Row> {
    if rows == [] then []
    else
      var n := |rows| - 1;
      NearSeq(rows[..n], wanted) + (if Near(rows[n].year, wanted) then [rows[n]] else [])
  }

  lemma {:induction false} NearSeqIs(rows: seq<Row>, wanted: int)
    requires DistinctIds(rows)
    ensures DistinctIds(NearSeq(rows, wanted))
    ensures Elements(NearSeq(rows, wanted)) == NearRows(Elements(rows), wanted)
  {
    if rows != [] {
      var n := |rows| - 1;
      NearSeqIs(rows[..n], wanted);
      FrontLast(rows);
      var front := NearSeq(rows[..n], wanted);
      ElementsOfConcat(front, [rows[n]]);
      assert front + [] == front;
      forall i | 0 <= i < |front| ensures front[i].sourceId != rows[n].sourceId {
        assert front[i] in Elements(front);
        assert front[i] in rows[..n];
      }
    }
  }

  method CloseCandidates(cands: seq<Cand>, wanted: int, ghost rows: seq<Row>) returns (close: seq<Cand>)
    requires cands == CandsOf(rows)
    ensures close == CandsOf(NearSeq(rows, wanted))
  {
    close := [];
    for i := 0 to |cands|
      invariant close == CandsOf(NearSeq(rows[..i], wanted))
    {
      assert rows[..i + 1][..i] == rows[..i];
      if cands[i].year.None? || -1 <= cands[i].year.value - wanted <= 1 {
        close := close + [cands[i]];
      }
    }
    assert rows[..|cands|] == rows;
  }

  lemma OnlyOf(rows: seq<Row>)
    requires DistinctIds(rows)
    ensures Only(Elements(rows)) == if |rows| == 1 then Some(rows[0].sourceId) else None
  {
    DistinctElements(rows);
    if |rows| == 1 {
      assert Elements(rows) == {rows[0]};
    }
  }

  /** The year filter on one key's candidates, and the only id left if there is just one. */
  method MatchAt(candidates: seq<Cand>, wanted: Option<int>, ghost named: seq<Row>) returns (found: Option<int>)
    requires candidates == CandsOf(named) && DistinctIds(named)
    ensures found == Only(Counting(Elements(named), wanted))
  {
    var filtered := candidates;
    ghost var counting := named;
    if wanted.Some? {
      var close := CloseCandidates(candidates, wanted.value, named);
      NearSeqIs(named, wanted.value);
      assert close != [] <==> NearRows(Elements(named), wanted.value) != {} by {
        if close != [] {
          assert NearSeq(named, wanted.value)[0] in Elements(NearSeq(named, wanted.value));
        }
      }
      if close != [] {
        filtered := close;
        counting := NearSeq(named, wanted.value);
      }
    }
    OnlyOf(counting);
    found := if |filtered| == 1 then Some(filtered[0].sourceId) else None;
  }

  /** The loop over the variants, on an index, finds what brute force over the set of rows picks. */
  method FirstMatch(index: map<string, seq<Cand>>, variants: seq<string>, wanted: Option<int>,
                    ghost rows: seq<Row>, ghost lower: string -> string)
    returns (found: Option<int>)
    requires Indexes(index, rows, lower) && DistinctIds(rows)
    requires forall k :: k in variants ==> k != []
    ensures found == Picked(Elements(rows), variants, wanted, lower)
  {
    hide Only, Counting, Named;
    found := None;
    for i := 0 to |variants|
      invariant Picked(Elements(rows), variants, wanted, lower) == Picked(Elements(rows), variants[i..], wanted, lower)
      invariant found.None?
    {
      var mt := variants[i];
      assert mt in variants;
      var candidates := if mt in index then index[mt] else [];
      NamedSeqIs(rows, mt, lower);
      found := MatchAt(candidates, wanted, NamedSeq(rows, mt, lower));
      assert variants[i..][0] == mt && variants[i..][1..] == variants[i + 1..];
      if found.Some? {
        return;
      }
    }
    assert variants[|variants|..] == [];
  }
}
