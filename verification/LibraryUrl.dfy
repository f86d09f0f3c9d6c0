/** The library page and its address: state printed as query parameters and read back. */
module LibraryUrl {
  import opened Prelude
  import opened Text

  datatype Mode = Drilldown | AllEpisodes | Movies

  /** A JavaScript number: an integer or not a number. */
  datatype Number = Int(value: int) | NaN

  datatype SortDir = Asc | Desc

  datatype Filters = Filters(search: string, instance: string, limit: Number, offset: Number, sortBy: string,
                             sortDir: SortDir, season: Option<Number>)

  datatype Show = Show(id: Number, instance: string, title: string)

  datatype State = State(mode: Mode, filters: Filters, show: Option<Show>)

  const DEFAULT_FILTERS := Filters("", "", Int(50), Int(0), "title", Asc, None)

  // ---------------------------------------------------------------- parameters

  /** The names of the parameters the page knows, and any other name: mode, q, inst, limit, offset, sort, dir, season,
      show. */
  datatype Key = ModeKey | QKey | InstKey | LimitKey | OffsetKey | SortKey | DirKey | SeasonKey | ShowKey
               | OtherKey(name: string)

  /** Parameters in the order they were set. */
  datatype Params = NoParams | Set(before: Params, key: Key, value: string)

  /** URLSearchParams.get: the first value of a key. */
  function Get(params: Params, key: Key): Option<string> {
    if params == NoParams then None
    else
      var earlier := Get(params.before, key);
      if earlier.Some? then earlier else if params.key == key then Some(params.value) else None
  }

  /** A parameter that is written or not. */
  datatype Field = Field(key: Key, value: Option<string>)

  function SetIf(params: Params, field: Field): Params {
    if field.value.None? then params else Set(params, field.key, field.value.value)
  }

  function Written(fields: seq<Field>): Params {
    if fields == [] then NoParams
    else
      var last := fields[|fields| - 1];
      var front := Written(fields[..|fields| - 1]);
      SetIf(front, last)
  }

  lemma {:induction false} GetAbsent(fields: seq<Field>, key: Key)
    requires forall i :: 0 <= i < |fields| ==> fields[i].key != key
    ensures Get(Written(fields), key) == None
  {
    if fields != [] {
      var front := fields[..|fields| - 1];
      var last := fields[|fields| - 1];
      GetAbsent(front, key);
    }
  }

  /** Every field reads back as written, or as absent. */
  lemma {:induction false} GetWritten(fields: seq<Field>, i: nat)
    requires i < |fields|
    requires forall j, k :: 0 <= j < k < |fields| ==> fields[j].key != fields[k].key
    ensures Get(Written(fields), fields[i].key) == fields[i].value
  {
    var front := fields[..|fields| - 1];
    var last := fields[|fields| - 1];
    if i == |fields| - 1 {
      GetAbsent(front, last.key);
    } else {
      GetWritten(front, i);
      assert last.key != fields[i].key;
    }
  }

  lemma {:induction false} WrittenEmptyIff(fields: seq<Field>)
    ensures Written(fields) == NoParams <==> forall i :: 0 <= i < |fields| ==> fields[i].value == None
  {
    if fields != [] {
      var front := fields[..|fields| - 1];
      WrittenEmptyIff(front);
      assert forall i :: 0 <= i < |fields| ==> i == |fields| - 1 || fields[i] == front[i];
      assert forall i :: 0 <= i < |front| ==> front[i] == fields[i];
    }
  }

  // ---------------------------------------------------------------- printing

  function NumberText(n: Number): string {
    if n.NaN? then "NaN" else IntText(n.value)
  }

  /** Any reading of numbers that reads back what is printed. */
  ghost predicate Reads(number: string -> Number) {
    forall n :: number(NumberText(n)) == n
  }

  function ModeText(mode: Mode): string {
    match mode
    case Drilldown => "drilldown"
    case AllEpisodes => "all-episodes"
    case Movies => "movies"
  }

  function When(c: bool, text: string): Option<string> {
    if c then Some(text) else None
  }

  predicate Zero(n: Number) {
    n.NaN? || n.value == 0
  }

  function ShowText(show: Show): string {
    NumberText(show.id) + ['|'] + show.instance + ['|'] + show.title
  }

  function FieldsOf(s: State): seq<Field> {
    var f := s.filters;
    [Field(ModeKey, When(s.mode != Drilldown, ModeText(s.mode))),
     Field(QKey, When(f.search != "", f.search)),
     Field(InstKey, When(f.instance != "", f.instance)),
     Field(LimitKey, When(f.limit != Int(50), NumberText(f.limit))),
     Field(OffsetKey, When(!Zero(f.offset), NumberText(f.offset))),
     Field(SortKey, When(f.sortBy != "title", f.sortBy)),
     Field(DirKey, When(f.sortDir != Asc, "desc")),
     Field(SeasonKey, if f.season.Some? then Some(NumberText(f.season.value)) else None),
     Field(ShowKey, if s.show.Some? && s.mode == Drilldown then Some(ShowText(s.show.value)) else None)]
  }

  /** The address of a state. */
  function Canonical(s: State): Params {
    Written(FieldsOf(s))
  }

  lemma WrittenNine(f: seq<Field>)
    requires |f| == 9
    ensures Written(f) ==
            SetIf(SetIf(SetIf(SetIf(SetIf(SetIf(SetIf(SetIf(SetIf(NoParams, f[0]), f[1]), f[2]), f[3]), f[4]), f[5]),
                  f[6]), f[7]), f[8])
  {
    hide SetIf;
    assert f[..9] == f;
    forall i | 0 <= i < 9 ensures Written(f[..i + 1]) == SetIf(Written(f[..i]), f[i]) {
      assert f[..i + 1][..i] == f[..i];
    }
    hide Written;
  }

  /** Only non-defaults are written, one by one. */
  method SerializeLibraryState(mode: Mode, filters: Filters, show: Option<Show>) returns (params: Params)
    ensures params == Canonical(State(mode, filters, show))
  {
    WrittenNine(FieldsOf(State(mode, filters, show)));
    hide Written, NumberText, ShowText, ModeText, Zero;
    params := NoParams;
    if mode != Drilldown { params := Set(params, ModeKey, ModeText(mode)); }
    if filters.search != "" { params := Set(params, QKey, filters.search); }
    if filters.instance != "" { params := Set(params, InstKey, filters.instance); }
    if filters.limit != Int(50) { params := Set(params, LimitKey, NumberText(filters.limit)); }
    if !Zero(filters.offset) { params := Set(params, OffsetKey, NumberText(filters.offset)); }
    if filters.sortBy != "title" { params := Set(params, SortKey, filters.sortBy); }
    if filters.sortDir != Asc { params := Set(params, DirKey, "desc"); }
    if filters.season.Some? { params := Set(params, SeasonKey, NumberText(filters.season.value)); }
    if show.Some? && mode == Drilldown { params := Set(params, ShowKey, ShowText(show.value)); }
  }

  // ---------------------------------------------------------------- reading

  function ReadMode(text: Option<string>, previous: Mode): Mode {
    if text.None? then Drilldown
    else if text.value == "drilldown" then Drilldown
    else if text.value == "all-episodes" then AllEpisodes
    else if text.value == "movies" then Movies
    else previous
  }

  /** The show parameter: absent or empty clears the show; an unreadable one leaves the previous show. */
  function ReadShow(number: string -> Number, text: Option<string>, previous: Option<Show>): Option<Show> {
    if text.None? || text.value == "" then None
    else
      var parts := Split(text.value, '|');
      var id := number(parts[0]);
      if id.NaN? || |parts| < 2 || parts[1] == "" then previous
      else Some(Show(id, parts[1], if |parts| == 2 then "" else Join(parts[2..], '|')))
  }

  /** The mode parameter: the three known words, nothing for drilldown, anything else for the mode as it was. */
  lemma ReadModeIs(text: Option<string>, previous: Mode)
    ensures ReadMode(text, previous) ==
            match text
            case None => Drilldown
            case Some(word) =>
              if word == "movies" then Movies else if word == "all-episodes" then AllEpisodes
              else if word == "drilldown" then Drilldown else previous
  {
  }

  /** The show parameter, by the parts between its bars: an id that is a number, an instance, and the title with its own
      bars; nothing clears the show, and a text without such an id and instance leaves it. */
  lemma ReadShowIs(number: string -> Number, text: string, previous: Option<Show>)
    ensures ReadShow(number, None, previous) == None && ReadShow(number, Some(""), previous) == None
    ensures var parts := Split(text, '|');
            text != "" ==>
              ReadShow(number, Some(text), previous) ==
              if |parts| >= 2 && parts[1] != "" && number(parts[0]) != NaN
              then Some(Show(number(parts[0]), parts[1], if |parts| > 2 then Join(parts[2..], '|') else ""))
              else previous
  {
    hide Split, Join;
  }

  /** Numbers print as their digits, and not-a-number as the browser writes it. */
  lemma NumberTextIs(n: int)
    ensures NumberText(Int(n)) == IntText(n) && NumberText(NaN) == "NaN"
  {
  }

  function Or(text: Option<string>, default: string): string {
    if text.Some? then text.value else default
  }

  /** `Number(text) || default`, the default standing in for an absent text. */
  function ReadNumber(number: string -> Number, text: Option<string>, default: int): Number {
    if text.None? || Zero(number(text.value)) then Int(default) else number(text.value)
  }

  function ReadFilters(number: string -> Number, params: Params): Filters {
    Filters(Or(Get(params, QKey), ""), Or(Get(params, InstKey), ""),
            ReadNumber(number, Get(params, LimitKey), 50), ReadNumber(number, Get(params, OffsetKey), 0),
            Or(Get(params, SortKey), "title"),
            if Get(params, DirKey) == Some("desc") then Desc else Asc,
            if Get(params, SeasonKey).Some? then Some(number(Get(params, SeasonKey).value)) else None)
  }

  function Read(number: string -> Number, params: Params, previous: State): State {
    if params == NoParams then previous
    else State(ReadMode(Get(params, ModeKey), previous.mode), ReadFilters(number, params),
               ReadShow(number, Get(params, ShowKey), previous.show))
  }

  // ---------------------------------------------------------------- round trip

  /** What an address can carry: the show only in drilldown mode. */
  function Seen(s: State): State {
    if s.mode == Drilldown then s else s.(show := None)
  }

  predicate ShowFits(show: Show) {
    show.id.Int? && show.instance != "" && '|' !in show.instance
  }

  predicate Fits(s: State) {
    && !Zero(s.filters.limit) && s.filters.offset.Int?
    && (s.show.Some? && s.mode == Drilldown ==> ShowFits(s.show.value))
  }

  /** The page state that writes nothing. */
  predicate Plain(s: State) {
    s.mode == Drilldown && s.show == None &&
    (s.filters == DEFAULT_FILTERS || s.filters == DEFAULT_FILTERS.(offset := NaN))
  }

  lemma CanonicalEmptyIff(s: State)
    ensures Canonical(s) == NoParams <==> Plain(s)
  {
    var fields := FieldsOf(s);
    WrittenEmptyIff(fields);
    hide Written, NumberText, ShowText, ModeText;
    assert fields[0].value == None <==> s.mode == Drilldown;
    assert fields[1].value == None <==> s.filters.search == "";
    assert fields[2].value == None <==> s.filters.instance == "";
    assert fields[3].value == None <==> s.filters.limit == Int(50);
    assert fields[4].value == None <==> Zero(s.filters.offset);
    assert fields[5].value == None <==> s.filters.sortBy == "title";
    assert fields[6].value == None <==> s.filters.sortDir == Asc;
    assert fields[7].value == None <==> s.filters.season == None;
    assert fields[8].value == None <==> s.show == None || s.mode != Drilldown;
    var f := s.filters;
    assert f == Filters(f.search, f.instance, f.limit, f.offset, f.sortBy, f.sortDir, f.season);
    assert Zero(f.offset) <==> f.offset == NaN || f.offset == Int(0);
  }

  lemma GetCanonical(s: State, i: nat)
    requires i < 9
    ensures Get(Canonical(s), FieldsOf(s)[i].key) == FieldsOf(s)[i].value
  {
    hide Written, NumberText, ShowText, When, Zero;
    var fields := FieldsOf(s);
    assert forall j, k :: 0 <= j < k < |fields| ==> fields[j].key != fields[k].key by {
      DistinctKeys(s);
    }
    GetWritten(fields, i);
  }

  lemma DistinctKeys(s: State)
    ensures forall j, k :: 0 <= j < k < 9 ==> FieldsOf(s)[j].key != FieldsOf(s)[k].key
  {
    hide NumberText, ShowText, When, Zero;
    var fields := FieldsOf(s);
  }

  lemma GetParameters(s: State)
    ensures var f := s.filters; var p := Canonical(s);
            && Get(p, ModeKey) == When(s.mode != Drilldown, ModeText(s.mode))
            && Get(p, QKey) == When(f.search != "", f.search)
            && Get(p, InstKey) == When(f.instance != "", f.instance)
            && Get(p, LimitKey) == When(f.limit != Int(50), NumberText(f.limit))
            && Get(p, OffsetKey) == When(!Zero(f.offset), NumberText(f.offset))
            && Get(p, SortKey) == When(f.sortBy != "title", f.sortBy)
            && Get(p, DirKey) == When(f.sortDir != Asc, "desc")
            && Get(p, SeasonKey) == (if f.season.Some? then Some(NumberText(f.season.value)) else None)
            && Get(p, ShowKey) == (if s.show.Some? && s.mode == Drilldown then Some(ShowText(s.show.value)) else None)
  {
    hide Canonical, Get, NumberText, ShowText, When, Zero, ModeText;
    GetCanonical(s, 0);
    GetCanonical(s, 1);
    GetCanonical(s, 2);
    GetCanonical(s, 3);
    GetCanonical(s, 4);
    GetCanonical(s, 5);
    GetCanonical(s, 6);
    GetCanonical(s, 7);
    GetCanonical(s, 8);
  }

  /** A show that fits reads back from its text; any other one is misread for some previous show. */
  lemma ShowRoundTrip(number: string -> Number, show: Show, previous: Option<Show>)
    requires Reads(number)
    ensures ShowFits(show) ==> ReadShow(number, Some(ShowText(show)), previous) == Some(show)
    ensures !ShowFits(show) && previous == None ==> ReadShow(number, Some(ShowText(show)), previous) != Some(show)
  {
    var text := ShowText(show);
    var head := NumberText(show.id);
    var tail := show.instance + ['|'] + show.title;
    BarFree(show.id);
    assert text == head + ['|'] + tail;
    SplitAcross(head, tail, '|');
    SplitWithout(head, '|');
    SplitAcross(show.instance, show.title, '|');
    var inner := Split(show.instance, '|');
    var last := Split(show.title, '|');
    assert Split(text, '|') == [head] + (inner + last);
    assert number(head) == show.id;
    JoinSplit(show.title, '|');
    if '|' !in show.instance {
      SplitWithout(show.instance, '|');
      assert Split(text, '|')[1] == show.instance && Split(text, '|')[2..] == last;
    } else {
      FirstPartShort(show.instance, '|');
      assert Split(text, '|')[1] == inner[0];
    }
  }

  lemma {:induction false} FirstPartShort(s: string, sep: char)
    requires sep in s
    ensures Split(s, sep)[0] != s
    ensures |Split(s, sep)[0]| < |s|
  {
    if s[0] != sep {
      FirstPartShort(s[1..], sep);
    }
  }

  lemma BarFree(n: Number)
    ensures '|' !in NumberText(n) && NumberText(n) != []
  {
    hide IntText;
    if n.Int? {
      IntRoundTrip(n.value);
    }
  }

  lemma ReadCanonical(number: string -> Number, s: State, previous: State)
    requires Reads(number) && Canonical(s) != NoParams
    ensures var f := s.filters;
            Read(number, Canonical(s), previous) ==
            State(s.mode,
                  f.(limit := if Zero(f.limit) then Int(50) else f.limit,
                     offset := if Zero(f.offset) then Int(0) else f.offset),
                  if s.show.Some? && s.mode == Drilldown
                  then ReadShow(number, Some(ShowText(s.show.value)), previous.show) else None)
  {
    GetParameters(s);
    var f := s.filters;
    assert number(NumberText(f.limit)) == f.limit && number(NumberText(f.offset)) == f.offset;
    assert f.season.Some? ==> number(NumberText(f.season.value)) == f.season.value;
    hide Canonical, ShowText, ReadShow, NumberText, Get;
    var p := Canonical(s);
    assert ReadMode(Get(p, ModeKey), previous.mode) == s.mode;
    var read := ReadFilters(number, p);
    assert read.search == f.search && read.instance == f.instance && read.sortBy == f.sortBy;
    assert read.sortDir == f.sortDir && read.season == f.season;
  }

  /** Reading the address of a state gives back what an address can carry, whatever was shown before, exactly when the
      state writes some parameter and fits. */
  lemma RoundTripIff(number: string -> Number, s: State)
    requires Reads(number)
    ensures (forall previous :: Read(number, Canonical(s), previous) == Seen(s))
       <==> Canonical(s) != NoParams && Fits(s)
  {
    var other := State(Movies, DEFAULT_FILTERS, None);
    if Canonical(s) == NoParams {
      CanonicalEmptyIff(s);
      assert Read(number, Canonical(s), other) != Seen(s);
    } else {
      forall previous ensures Fits(s) ==> Read(number, Canonical(s), previous) == Seen(s) {
        RoundTripAt(number, s, previous);
      }
      RoundTripAt(number, s, other);
      assert Read(number, Canonical(s), other) == Seen(s) ==> Fits(s);
    }
  }

  lemma RoundTripAt(number: string -> Number, s: State, previous: State)
    requires Reads(number) && Canonical(s) != NoParams
    ensures Fits(s) ==> Read(number, Canonical(s), previous) == Seen(s)
    ensures previous.show == None && Read(number, Canonical(s), previous) == Seen(s) ==> Fits(s)
  {
    ReadCanonical(number, s, previous);
    if s.show.Some? {
      ShowRoundTrip(number, s.show.value, previous.show);
    }
    hide Canonical, Read, ReadShow, ShowText;
  }

  // ---------------------------------------------------------------- header search

  /** The season filter belongs to one show. */
  function ClearSeasonOnShowSelect(filters: Filters): Filters {
    if filters.season == None then filters else filters.(season := None)
  }

  /** The mode kept by the browser; anything unknown counts as drilldown. */
  function StoredMode(text: string): Mode {
    if text == "all-episodes" then AllEpisodes else if text == "movies" then Movies else Drilldown
  }

  /** The address of a header search: the stored view with the new query, from the first page, without a show. */
  function BuildLibrarySearch(query: string, storedMode: string, stored: Filters): Params {
    Canonical(State(StoredMode(storedMode), ClearSeasonOnShowSelect(stored.(search := query, offset := Int(0))), None))
  }

  /** A search keeps the stored mode, instance, sort and limit, whatever page state it is opened over. */
  lemma SearchKeepsView(number: string -> Number, query: string, storedMode: string, stored: Filters, previous: State)
    requires Reads(number) && query != "" && !Zero(stored.limit)
    ensures var s := Read(number, BuildLibrarySearch(query, storedMode, stored), previous);
            && s.show == None
            && s.filters == Filters(query, stored.instance, stored.limit, Int(0), stored.sortBy, stored.sortDir, None)
            && (s.mode == AllEpisodes <==> storedMode == "all-episodes")
            && (s.mode == Movies <==> storedMode == "movies")
  {
    var s := State(StoredMode(storedMode), ClearSeasonOnShowSelect(stored.(search := query, offset := Int(0))), None);
    CanonicalEmptyIff(s);
    RoundTripAt(number, s, previous);
    hide Canonical, Read;
    assert s.filters == Filters(query, stored.instance, stored.limit, Int(0), stored.sortBy, stored.sortDir, None);
  }

  // ---------------------------------------------------------------- the page's two effects

  /** The page: its state, the address shown, and the address it last wrote itself. */
  datatype Page = Page(state: State, url: Params, lastWritten: Option<Params>)

  function AfterStateChange(p: Page): Page {
    var canonical := Canonical(p.state);
    if canonical == p.url then p else p.(url := canonical, lastWritten := Some(canonical))
  }

  predicate Ignored(p: Page) {
    Some(p.url) == p.lastWritten || p.url == NoParams
  }

  function AfterUrlChange(number: string -> Number, p: Page): Page {
    if Ignored(p) then p else p.(state := Read(number, p.url, p.state))
  }

  /** The user follows a link, a saved view or the back button; the other effect runs when the state was set. */
  function Navigate(number: string -> Number, p: Page, url: Params): Page {
    var q := p.(url := url);
    if Ignored(q) then q else AfterStateChange(AfterUrlChange(number, q))
  }

  class LibraryPage {
    const number: string -> Number
    var libraryMode: Mode
    var libraryFilters: Filters
    var selectedShow: Option<Show>
    var searchParams: Params
    var lastWrittenSearch: Option<Params>

    constructor (number: string -> Number, mode: Mode, filters: Filters, show: Option<Show>, url: Params)
      ensures this.number == number && Now() == Page(State(mode, filters, show), url, None)
    {
      this.number := number;
      libraryMode, libraryFilters, selectedShow := mode, filters, show;
      searchParams, lastWrittenSearch := url, None;
    }

    ghost function Now(): Page
      reads this
    {
      Page(State(libraryMode, libraryFilters, selectedShow), searchParams, lastWrittenSearch)
    }

    /** State to address. */
    method WriteUrl()
      modifies this`searchParams, this`lastWrittenSearch
      ensures Now() == AfterStateChange(old(Now()))
    {
      hide Canonical;
      var canonical := SerializeLibraryState(libraryMode, libraryFilters, selectedShow);
      if canonical != searchParams {
        lastWrittenSearch := Some(canonical);
        searchParams := canonical;
      }
    }

    /** Address to state, one setter after another. */
    method ReadUrl()
      modifies this`libraryMode, this`libraryFilters, this`selectedShow
      ensures Now() == AfterUrlChange(number, old(Now()))
    {
      hide Get, Split, Join, ReadFilters;
      if Some(searchParams) == lastWrittenSearch || searchParams == NoParams {
        return;
      }
      var mode := Get(searchParams, ModeKey);
      if mode == Some("drilldown") {
        libraryMode := Drilldown;
      } else if mode == Some("all-episodes") {
        libraryMode := AllEpisodes;
      } else if mode == Some("movies") {
        libraryMode := Movies;
      } else if mode == None {
        libraryMode := Drilldown;
      }
      var show := Get(searchParams, ShowKey);
      if show.Some? && show.value != "" {
        var parts := Split(show.value, '|');
        var id := number(parts[0]);
        if id.Int? && |parts| > 1 && parts[1] != "" {
          selectedShow := Some(Show(id, parts[1], if |parts| == 2 then "" else Join(parts[2..], '|')));
        }
      } else {
        selectedShow := None;
      }
      libraryFilters := ReadFilters(number, searchParams);
    }
  }

  /** The page does not react to an address it has just written. */
  lemma EchoIsIgnored(number: string -> Number, p: Page)
    requires AfterStateChange(p) != p
    ensures AfterUrlChange(number, AfterStateChange(p)) == AfterStateChange(p)
  {
    hide Canonical, Read;
  }

  /** Following the link of a state that fits shows that state, except when the link is the address the page last
      wrote itself and the page has moved on since. */
  lemma LinkShowsItsState(number: string -> Number, p: Page, s: State)
    requires Reads(number) && Fits(s) && Canonical(s) != NoParams
    ensures var q := Navigate(number, p, Canonical(s));
            && q.url == Canonical(s)
            && (q.state == Seen(s) <==> Some(Canonical(s)) != p.lastWritten || p.state == Seen(s))
  {
    RoundTripAt(number, s, p.state);
    SeenAddress(s);
    hide Canonical, Read, Fits, Seen;
  }

  lemma SeenAddress(s: State)
    ensures Canonical(Seen(s)) == Canonical(s)
  {
    hide Written, NumberText, ShowText, ModeText;
    assert FieldsOf(Seen(s)) == FieldsOf(s);
  }

  /** The page writes one address, follows a link elsewhere and goes back: the address is the first one again, the
      state stays the second one. */
  lemma BackIsIgnored(number: string -> Number, start: Page, a: State, b: State)
    requires Reads(number) && Fits(b) && Canonical(b) != NoParams
    requires Canonical(a) != start.url && Canonical(a) != Canonical(b)
    ensures var written := AfterStateChange(start.(state := a));
            var linked := Navigate(number, written, Canonical(b));
            var back := Navigate(number, linked, written.url);
            && written.state == a && written.url == Canonical(a)
            && linked.state == Seen(b)
            && back.url == Canonical(a) && back.state == Seen(b)
  {
    var written := AfterStateChange(start.(state := a));
    LinkShowsItsState(number, written, b);
    SeenAddress(b);
    RoundTripAt(number, b, a);
    hide Canonical, Read, Fits, Seen;
  }
}
