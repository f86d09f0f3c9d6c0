/** The view of English audio coverage per anime series: a join, two groupings and a status. */
module Coverage {
  import opened Prelude
  import opened Text

  /** The primary key of every warehouse table. */
  datatype Key = Key(id: int, instance: string)

  datatype Series = Series(title: string, monitored: bool, seriesType: Option<string>, deleted: bool)

  /** `fileId` is the file the episode itself names; rows from older payloads have none. */
  datatype Episode = Episode(series: int, airDate: Option<int>, monitored: bool, hasFile: Option<bool>,
                             fileId: Option<int>, deleted: bool)

  /** A file row names one episode. An array of audio languages may hold nulls. */
  datatype File = File(episode: int, audio: seq<Option<string>>, deleted: bool)

  datatype Warehouse = Warehouse(series: map<Key, Series>, episodes: map<Key, Episode>, files: map<Key, File>)

  // ---------------------------------------------------------------- SQL values

  datatype Truth = True | False | Unknown

  function Or(a: Truth, b: Truth): Truth {
    if a.True? || b.True? then True else if a.False? && b.False? then False else Unknown
  }

  /** `word = any(list)`. */
  function EqualsAny(word: string, list: seq<Option<string>>): Truth {
    if Some(word) in list then True else if None in list then Unknown else False
  }

  /** The aggregate bool_or: nulls do not take part, and it is null when nothing else does. */
  function BoolOr(values: set<Truth>): Truth {
    if True in values then True else if False in values then False else Unknown
  }

  /** The truth tables: nulls make `or` and `any` unknown unless something is true, and do not take part in bool_or. */
  lemma TruthsAre(a: Truth, b: Truth, word: string, list: seq<Option<string>>, values: set<Truth>)
    ensures (Or(a, b) == True <==> a == True || b == True) && (Or(a, b) == False <==> a == False && b == False)
    ensures EqualsAny(word, list) == True <==> Some(word) in list
    ensures EqualsAny(word, list) == False <==> Some(word) !in list && None !in list
    ensures BoolOr(values) == True <==> True in values
    ensures BoolOr(values) == Unknown <==> values <= {Unknown}
  {
    if True !in values && False !in values {
      forall v | v in values ensures v == Unknown {
      }
    }
  }

  function EnglishTruth(audio: seq<Option<string>>): Truth {
    Or(EqualsAny("english", audio), EqualsAny("eng", audio))
  }

  // ---------------------------------------------------------------- the view, step by step

  /** The episodes that pass the inner where-clause. */
  predicate Counts(e: Episode, now: int) {
    !e.deleted && e.monitored && e.airDate.Some? && e.airDate.value <= now
  }

  /** How episodes find their files: by the episode the file row names, as in the view, or by the file the episode
      names, as in the join that all other queries share. */
  datatype Join = ByEpisode | ByFile

  /** An episode that names no file falls back to the file rows that name it. */
  predicate Names(w: Warehouse, e: Key, f: Key, join: Join)
    requires f in w.files
  {
    if join.ByFile? && e in w.episodes && w.episodes[e].fileId.Some? then f.id == w.episodes[e].fileId.value
    else w.files[f].episode == e.id
  }

  predicate Matches(w: Warehouse, e: Key, f: Key, join: Join)
    requires f in w.files
  {
    Names(w, e, f, join) && f.instance == e.instance && !w.files[f].deleted
  }

  /** A row of the left join; the keys of its two sides tell it from every other row. */
  datatype Joined = Joined(episode: Key, file: Option<Key>)

  function LeftJoin(w: Warehouse, now: int, join: Join): set<Joined> {
    (set e, f | e in w.episodes && Counts(w.episodes[e], now) && f in w.files && Matches(w, e, f, join) ::
       Joined(e, Some(f))) +
    (set e | e in w.episodes && Counts(w.episodes[e], now) && Fileless(w, e, join) :: Joined(e, None))
  }

  predicate Fileless(w: Warehouse, e: Key, join: Join) {
    forall f :: f in w.files ==> !Matches(w, e, f, join)
  }

  /** What the inner query groups by. */
  datatype Group = Group(instance: string, series: int, episode: int, hasFile: bool)

  function GroupOf(w: Warehouse, e: Key): Group
    requires e in w.episodes
  {
    var row := w.episodes[e];
    Group(e.instance, row.series, e.id, row.hasFile == Some(true))
  }

  function Groups(w: Warehouse, now: int, join: Join): set<Group> {
    set j | j in LeftJoin(w, now, join) && j.episode in w.episodes :: GroupOf(w, j.episode)
  }

  function Audio(w: Warehouse, j: Joined): seq<Option<string>> {
    if j.file.Some? && j.file.value in w.files then w.files[j.file.value].audio else []
  }

  predicate InGroup(w: Warehouse, j: Joined, g: Group) {
    j.episode in w.episodes && GroupOf(w, j.episode) == g
  }

  function HasEnglish(w: Warehouse, now: int, g: Group, join: Join): Truth {
    BoolOr(set j | j in LeftJoin(w, now, join) && InGroup(w, j, g) :: EnglishTruth(Audio(w, j)))
  }

  /** The rows of the outer left join that belong to one series. */
  function SeriesRows(w: Warehouse, now: int, s: Key, join: Join): set<Option<Group>> {
    var own := set g | g in Groups(w, now, join) && g.instance == s.instance && g.series == s.id :: Some(g);
    if own == {} then {None} else own
  }

  predicate Downloaded(r: Option<Group>) {
    r.Some? && r.value.hasFile
  }

  predicate English(w: Warehouse, now: int, r: Option<Group>, join: Join) {
    Downloaded(r) && HasEnglish(w, now, r.value, join) == True
  }

  datatype Status = Full | Partial | NoCoverage

  datatype Line = Line(title: string, monitored: bool, aired: nat, downloaded: nat, english: nat, nonEnglish: nat,
                       status: Status)

  function LineOf(w: Warehouse, now: int, s: Key, join: Join): Line
    requires s in w.series
  {
    var rows := SeriesRows(w, now, s, join);
    var aired := |set r | r in rows && r.Some?|;
    var downloaded := |set r | r in rows && Downloaded(r)|;
    var english := |set r | r in rows && English(w, now, r, join)|;
    var nonEnglish := |set r | r in rows && Downloaded(r) && !English(w, now, r, join)|;
    Line(w.series[s].title, w.series[s].monitored, aired, downloaded, english, nonEnglish,
         if nonEnglish >= 1 then Partial
         else if aired > 0 && downloaded == aired then Full
         else NoCoverage)
  }

  predicate Listed(s: Series) {
    !s.deleted && s.seriesType.Some? && LowerAscii(s.seriesType.value) == "anime"
  }

  function View(w: Warehouse, now: int): map<Key, Line> {
    map s | s in w.series && Listed(w.series[s]) :: LineOf(w, now, s, ByEpisode)
  }

  // ---------------------------------------------------------------- what it is meant to count

  /** The live, monitored, aired episodes of a series. */
  function Aired(w: Warehouse, now: int, s: Key): set<Key> {
    set e | e in w.episodes && e.instance == s.instance && w.episodes[e].series == s.id &&
            !w.episodes[e].deleted && w.episodes[e].monitored &&
            w.episodes[e].airDate.Some? && w.episodes[e].airDate.value <= now
  }

  predicate Present(w: Warehouse, e: Key) {
    e in w.episodes && w.episodes[e].hasFile == Some(true)
  }

  predicate SpeaksEnglish(audio: seq<Option<string>>) {
    Some("english") in audio || Some("eng") in audio
  }

  /** The file row belongs to the episode: it is live, of the same instance, and names the episode; or, by the shared
      join, it is the file that the episode names, if that names one. */
  predicate Belongs(w: Warehouse, e: Key, f: Key, join: Join) {
    f in w.files && f.instance == e.instance && w.files[f].deleted == false &&
    match join
    case ByEpisode => w.files[f].episode == e.id
    case ByFile =>
      if e in w.episodes && w.episodes[e].fileId != None then w.episodes[e].fileId == Some(f.id)
      else w.files[f].episode == e.id
  }

  /** Some file of the episode has English audio. */
  predicate EnglishFile(w: Warehouse, e: Key, join: Join) {
    exists f :: f in w.files && Belongs(w, e, f, join) && SpeaksEnglish(w.files[f].audio)
  }

  function AmongPresent(w: Warehouse, episodes: set<Key>): set<Key> {
    set e | e in episodes && Present(w, e)
  }

  function AmongEnglish(w: Warehouse, episodes: set<Key>, join: Join): set<Key> {
    set e | e in episodes && Present(w, e) && EnglishFile(w, e, join)
  }

  function AmongForeign(w: Warehouse, episodes: set<Key>, join: Join): set<Key> {
    set e | e in episodes && Present(w, e) && !EnglishFile(w, e, join)
  }

  // ---------------------------------------------------------------- the grouped relation

  lemma EveryEpisodeJoins(w: Warehouse, now: int, e: Key, join: Join)
    requires e in w.episodes && Counts(w.episodes[e], now)
    ensures exists j :: j in LeftJoin(w, now, join) && j.episode == e
  {
    if Fileless(w, e, join) {
      assert Joined(e, None) in LeftJoin(w, now, join);
    } else {
      var f :| f in w.files && Matches(w, e, f, join);
      assert Joined(e, Some(f)) in LeftJoin(w, now, join);
    }
  }

  /** One grouped row per live, monitored, aired episode, however many file rows join. */
  lemma OneGroupPerEpisode(w: Warehouse, now: int, g: Group, join: Join)
    ensures g in Groups(w, now, join) <==>
            && Key(g.episode, g.instance) in w.episodes
            && Counts(w.episodes[Key(g.episode, g.instance)], now)
            && GroupOf(w, Key(g.episode, g.instance)) == g
  {
    var e := Key(g.episode, g.instance);
    if e in w.episodes && Counts(w.episodes[e], now) && GroupOf(w, e) == g {
      EveryEpisodeJoins(w, now, e, join);
    }
  }

  /** An episode that counts joins with each of its files, and with nothing exactly when it has none. */
  lemma LeftJoinIs(w: Warehouse, now: int, e: Key, f: Key, join: Join)
    ensures Joined(e, Some(f)) in LeftJoin(w, now, join) <==>
              e in w.episodes && Counts(w.episodes[e], now) && Belongs(w, e, f, join)
    ensures Joined(e, None) in LeftJoin(w, now, join) <==>
              e in w.episodes && Counts(w.episodes[e], now) && forall g :: g in w.files ==> !Belongs(w, e, g, join)
  {
    assert forall g :: g in w.files ==> (Matches(w, e, g, join) <==> Belongs(w, e, g, join));
    hide Counts;
  }

  /** The aggregate over the joined rows of an episode is true exactly when a live file of it has English audio:
      null elements, null rows and further files make no difference. */
  lemma EnglishMeansAFile(w: Warehouse, now: int, e: Key, join: Join)
    requires e in w.episodes && Counts(w.episodes[e], now)
    ensures HasEnglish(w, now, GroupOf(w, e), join) == True <==> EnglishFile(w, e, join)
  {
    var g := GroupOf(w, e);
    var truths := set j | j in LeftJoin(w, now, join) && InGroup(w, j, g) :: EnglishTruth(Audio(w, j));
    if f :| f in w.files && Belongs(w, e, f, join) && SpeaksEnglish(w.files[f].audio) {
      LeftJoinIs(w, now, e, f, join);
      var j := Joined(e, Some(f));
      assert EnglishTruth(Audio(w, j)) == True;
      assert True in truths;
    }
    hide LeftJoin, Belongs, Counts;
    if True in truths {
      var j :| j in LeftJoin(w, now, join) && InGroup(w, j, g) && EnglishTruth(Audio(w, j)) == True;
      assert SpeaksEnglish(Audio(w, j));
      LeftJoinIs(w, now, e, j.file.value, join);
      assert j == Joined(e, Some(j.file.value));
    }
  }

  // ---------------------------------------------------------------- the counts

  lemma {:induction false} SameSize(w: Warehouse, episodes: set<Key>, rows: set<Option<Group>>)
    requires forall e :: e in episodes ==> e in w.episodes && Some(GroupOf(w, e)) in rows
    requires forall r :: r in rows ==>
      r.Some? && Key(r.value.episode, r.value.instance) in episodes
      && Key(r.value.episode, r.value.instance) in w.episodes
      && GroupOf(w, Key(r.value.episode, r.value.instance)) == r.value
    ensures |episodes| == |rows|
    decreases episodes
  {
    if episodes == {} {
      assert rows == {};
    } else {
      var e := Pick(episodes);
      var r := Some(GroupOf(w, e));
      SameSize(w, episodes - {e}, rows - {r});
    }
  }

  lemma OwnRows(w: Warehouse, now: int, s: Key, join: Join)
    ensures forall e :: e in Aired(w, now, s) ==> Some(GroupOf(w, e)) in SeriesRows(w, now, s, join)
    ensures forall r :: r in SeriesRows(w, now, s, join) && r.Some? ==>
      Key(r.value.episode, r.value.instance) in Aired(w, now, s)
      && GroupOf(w, Key(r.value.episode, r.value.instance)) == r.value
    ensures None in SeriesRows(w, now, s, join) <==> Aired(w, now, s) == {}
    ensures SeriesRows(w, now, s, join) != {}
  {
    forall e | e in Aired(w, now, s) ensures Some(GroupOf(w, e)) in SeriesRows(w, now, s, join) {
      OneGroupPerEpisode(w, now, GroupOf(w, e), join);
    }
    forall r | r in SeriesRows(w, now, s, join) && r.Some?
      ensures Key(r.value.episode, r.value.instance) in Aired(w, now, s)
      ensures GroupOf(w, Key(r.value.episode, r.value.instance)) == r.value
    {
      OneGroupPerEpisode(w, now, r.value, join);
    }
  }

  /** Every number of the view counts episodes, not joined rows. */
  lemma CountsAreEpisodes(w: Warehouse, now: int, s: Key, join: Join)
    requires s in w.series
    ensures var line := LineOf(w, now, s, join);
            var aired := Aired(w, now, s);
            && line.aired == |aired|
            && line.downloaded == |AmongPresent(w, aired)|
            && line.english == |AmongEnglish(w, aired, join)|
            && line.nonEnglish == |AmongForeign(w, aired, join)|
  {
    var rows := SeriesRows(w, now, s, join);
    var aired := Aired(w, now, s);
    OwnRows(w, now, s, join);
    forall e | e in aired
      ensures Downloaded(Some(GroupOf(w, e))) <==> Present(w, e)
      ensures English(w, now, Some(GroupOf(w, e)), join) <==> Present(w, e) && EnglishFile(w, e, join)
    {
      EnglishMeansAFile(w, now, e, join);
    }
    hide LeftJoin, HasEnglish, Groups, SeriesRows, EnglishFile, English, GroupOf, Present;
    SameSize(w, aired, set r | r in rows && r.Some?);
    SameSize(w, AmongPresent(w, aired), set r | r in rows && Downloaded(r));
    SameSize(w, AmongEnglish(w, aired, join), set r | r in rows && English(w, now, r, join));
    SameSize(w, AmongForeign(w, aired, join),
             set r | r in rows && Downloaded(r) && !English(w, now, r, join));
  }

  lemma TwoParts<T>(whole: set<T>, part: set<T>, other: set<T>)
    requires part !! other && part + other == whole
    ensures |part| + |other| == |whole|
  {
  }

  lemma PresentParts(w: Warehouse, episodes: set<Key>, join: Join)
    ensures |AmongEnglish(w, episodes, join)| + |AmongForeign(w, episodes, join)|
              == |AmongPresent(w, episodes)| <= |episodes|
  {
    hide EnglishFile, Present;
    TwoParts(AmongPresent(w, episodes), AmongEnglish(w, episodes, join), AmongForeign(w, episodes, join));
    SubsetSize(AmongPresent(w, episodes), episodes);
  }

  lemma CountsAddUp(w: Warehouse, now: int, s: Key, join: Join)
    requires s in w.series
    ensures var line := LineOf(w, now, s, join); line.english + line.nonEnglish == line.downloaded <= line.aired
  {
    CountsAreEpisodes(w, now, s, join);
    PresentParts(w, Aired(w, now, s), join);
    hide *;
  }

  /** What each status says about the episodes. */
  lemma StatusMeaning(w: Warehouse, now: int, s: Key, join: Join)
    requires s in w.series
    ensures var status := LineOf(w, now, s, join).status;
            var aired := Aired(w, now, s);
            && (status.Full? <==> aired != {} && forall e :: e in aired ==> Present(w, e) && EnglishFile(w, e, join))
            && (status.Partial? <==> exists e :: e in aired && Present(w, e) && !EnglishFile(w, e, join))
  {
    CountsAreEpisodes(w, now, s, join);
    hide EnglishFile, Present, Aired, SeriesRows, English, Downloaded;
    var aired := Aired(w, now, s);
    var present := AmongPresent(w, aired);
    var foreign := AmongForeign(w, aired, join);
    SubsetSize(present, aired);
    assert foreign == {} <==> |foreign| == 0;
    assert present == aired <==> |present| == |aired| by {
      if |present| == |aired| {
        assert |aired - present| == 0;
        assert aired - present == {};
      }
    }
    assert aired == {} <==> |aired| == 0;
    if exists e :: e in aired && Present(w, e) && !EnglishFile(w, e, join) {
      var e :| e in aired && Present(w, e) && !EnglishFile(w, e, join);
      assert e in foreign;
    }
    if foreign != {} {
      var e := Pick(foreign);
      assert e in aired && Present(w, e) && !EnglishFile(w, e, join);
    }
    if present == aired {
      assert forall e :: e in aired ==> e in present;
    }
    if forall e :: e in aired ==> Present(w, e) && EnglishFile(w, e, join) {
      assert present == aired;
    }
  }

  predicate Letter(c: char, lower: char) {
    c == lower || (c as int + 32 == lower as int && 'A' <= c <= 'Z')
  }

  /** The word in any mixture of cases. */
  predicate SpellsAnime(t: string) {
    |t| == 5 && Letter(t[0], 'a') && Letter(t[1], 'n') && Letter(t[2], 'i') && Letter(t[3], 'm') && Letter(t[4], 'e')
  }

  lemma LowerIsAnime(t: string)
    ensures LowerAscii(t) == "anime" <==> SpellsAnime(t)
  {
    var l := LowerAscii(t);
    assert |l| == |t| && |"anime"| == 5;
    if |t| == 5 {
      assert l == "anime" <==> l[0] == 'a' && l[1] == 'n' && l[2] == 'i' && l[3] == 'm' && l[4] == 'e';
    }
  }

  /** The view has a line for each live series whose type spells anime in any case, and its status says what the
      series' live, monitored, aired episodes are. */
  lemma ViewMeaning(w: Warehouse, now: int, s: Key)
    ensures s in View(w, now) <==>
              s in w.series && !w.series[s].deleted && w.series[s].seriesType.Some? &&
              SpellsAnime(w.series[s].seriesType.value)
    ensures s in View(w, now) ==>
              var line := View(w, now)[s];
              var aired := Aired(w, now, s);
              && line.title == w.series[s].title && line.monitored == w.series[s].monitored
              && line.aired == |aired| && line.english + line.nonEnglish == line.downloaded <= line.aired
              && (line.status.Full? <==>
                    aired != {} && forall e :: e in aired ==> Present(w, e) && EnglishFile(w, e, ByEpisode))
              && (line.status.Partial? <==> exists e :: e in aired && Present(w, e) && !EnglishFile(w, e, ByEpisode))
  {
    if s in w.series && w.series[s].seriesType.Some? {
      LowerIsAnime(w.series[s].seriesType.value);
    }
    if s in View(w, now) {
      CountsAreEpisodes(w, now, s, ByEpisode);
      CountsAddUp(w, now, s, ByEpisode);
      StatusMeaning(w, now, s, ByEpisode);
      hide LineOf, Aired, Present, EnglishFile, SpellsAnime;
    }
  }

  /** Files move only the English column: any other set of files leaves the first two counts alone. */
  lemma FilesOnlyMoveEnglish(w: Warehouse, now: int, s: Key, files: map<Key, File>, join: Join)
    requires s in w.series
    ensures var other := w.(files := files);
            LineOf(other, now, s, join).aired == LineOf(w, now, s, join).aired
            && LineOf(other, now, s, join).downloaded == LineOf(w, now, s, join).downloaded
  {
    var other := w.(files := files);
    CountsAreEpisodes(w, now, s, join);
    CountsAreEpisodes(other, now, s, join);
    hide LineOf, EnglishFile, Counts;
    assert Aired(other, now, s) == Aired(w, now, s);
    assert AmongPresent(other, Aired(w, now, s)) == AmongPresent(w, Aired(w, now, s));
  }

  // ---------------------------------------------------------------- shared files

  /** A file row names one episode only. An episode whose file is recorded under another one, as happens with a file
      that holds two episodes, makes its series partial whatever languages the file has. */
  lemma SharedFileIsPartial(w: Warehouse, now: int, s: Key, e: Key)
    requires s in w.series && e in Aired(w, now, s) && Present(w, e)
    requires forall f :: f in w.files && f.instance == e.instance ==> w.files[f].episode != e.id
    ensures LineOf(w, now, s, ByEpisode).status == Partial
  {
    StatusMeaning(w, now, s, ByEpisode);
    hide LineOf, Aired, Present;
    assert !EnglishFile(w, e, ByEpisode);
  }

  /** Some downloaded episode has no English file by the join. */
  ghost predicate Lacking(w: Warehouse, now: int, s: Key, join: Join) {
    exists e :: e in Aired(w, now, s) && Present(w, e) && !EnglishFile(w, e, join)
  }

  /** The view and the shared join give a series the same status exactly when both or neither find a downloaded episode
      without English. */
  lemma StatusesAgreeIff(w: Warehouse, now: int, s: Key)
    requires s in w.series
    ensures LineOf(w, now, s, ByEpisode).status == LineOf(w, now, s, ByFile).status <==>
              (Lacking(w, now, s, ByEpisode) <==> Lacking(w, now, s, ByFile))
    ensures forall join :: LineOf(w, now, s, join).status.Partial? <==> Lacking(w, now, s, join)
  {
    hide LineOf, Aired, Present, EnglishFile;
    forall join ensures LineOf(w, now, s, join).status.Partial? <==> Lacking(w, now, s, join) {
      StatusMeaning(w, now, s, join);
    }
    StatusMeaning(w, now, s, ByEpisode);
    StatusMeaning(w, now, s, ByFile);
  }

  /** Every live file row that names the episode is the file the episode names. */
  predicate RecordedOwn(w: Warehouse, e: Key) {
    e in w.episodes && w.episodes[e].fileId.Some? ==>
      forall f :: f in w.files && Belongs(w, e, f, ByEpisode) ==> f.id == w.episodes[e].fileId.value
  }

  /** The file the episode names is live and has English audio, but its row names another episode. */
  predicate Orphaned(w: Warehouse, e: Key) {
    && e in w.episodes && w.episodes[e].fileId.Some?
    && var f := Key(w.episodes[e].fileId.value, e.instance);
       f in w.files && !w.files[f].deleted && SpeaksEnglish(w.files[f].audio) && w.files[f].episode != e.id
  }

  lemma OrphansOnly(w: Warehouse, e: Key)
    requires e in w.episodes && RecordedOwn(w, e)
    ensures EnglishFile(w, e, ByEpisode) <==> EnglishFile(w, e, ByFile) && !Orphaned(w, e)
  {
    hide SpeaksEnglish;
    if w.episodes[e].fileId.Some? {
      var own := Key(w.episodes[e].fileId.value, e.instance);
      forall f | f in w.files && Matches(w, e, f, ByFile) ensures f == own {
        assert f == Key(f.id, f.instance);
      }
      forall f | f in w.files && Matches(w, e, f, ByEpisode) ensures f == own {
        assert f == Key(f.id, f.instance);
      }
    } else {
      assert forall f :: f in w.files ==> (Matches(w, e, f, ByFile) <==> Matches(w, e, f, ByEpisode));
    }
  }

  /** When file rows are recorded under episodes that name them, the view differs from the shared join exactly on series
      of which every downloaded episode has English audio and some of these files are recorded under another episode;
      there the view says partial. */
  lemma ViewLosesIff(w: Warehouse, now: int, s: Key)
    requires s in w.series && forall e :: e in Aired(w, now, s) && Present(w, e) ==> RecordedOwn(w, e)
    ensures LineOf(w, now, s, ByEpisode).status != LineOf(w, now, s, ByFile).status <==>
              !Lacking(w, now, s, ByFile) && exists e :: e in Aired(w, now, s) && Present(w, e) && Orphaned(w, e)
    ensures LineOf(w, now, s, ByEpisode).status != LineOf(w, now, s, ByFile).status ==>
              LineOf(w, now, s, ByEpisode).status == Partial
  {
    StatusesAgreeIff(w, now, s);
    forall e | e in Aired(w, now, s) && Present(w, e)
      ensures EnglishFile(w, e, ByEpisode) <==> EnglishFile(w, e, ByFile) && !Orphaned(w, e)
    {
      OrphansOnly(w, e);
    }
    hide LineOf, Aired, Present, EnglishFile, Orphaned, RecordedOwn;
    if exists e :: e in Aired(w, now, s) && Present(w, e) && Orphaned(w, e) {
      var e :| e in Aired(w, now, s) && Present(w, e) && Orphaned(w, e);
      assert !EnglishFile(w, e, ByEpisode);
    }
    if Lacking(w, now, s, ByEpisode) {
      var e :| e in Aired(w, now, s) && Present(w, e) && !EnglishFile(w, e, ByEpisode);
      assert !EnglishFile(w, e, ByFile) || Orphaned(w, e);
    }
    if Lacking(w, now, s, ByFile) {
      var e :| e in Aired(w, now, s) && Present(w, e) && !EnglishFile(w, e, ByFile);
      assert !EnglishFile(w, e, ByEpisode);
    }
  }
}
