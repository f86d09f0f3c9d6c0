/** Creating one secret file among racing callers, what the callers end up with, and what is built on it:
    the session signing key and the encrypted database URL.
  */
module SecretFile {
  import opened Prelude
  import opened Text

  /** Keys are non-empty and free of white space, as generated keys are. */
  predicate IsKey(k: string) {
    k != [] && Strip(k) == k
  }

  datatype File = Absent | Present(content: string)

  /** One call of the get-or-create routine, between two file operations. */
  datatype Call =
    | Creating(key: string)
    | Writing(key: string)
    | Rereading
    | Returned(result: Option<string>)
    | Crashed

  /** `url` is the encrypted URL file: the key it was encrypted with and the text. */
  datatype World = World(file: File, calls: map<nat, Call>, url: Option<(string, string)>)

  /** Calls are numbered across all processes. `Begin` carries the key the call would create. */
  datatype Action =
    | Begin(call: nat, key: string)
    | Create(call: nat)
    | CreateRefused(call: nat)
    | Write(call: nat)
    | WriteRefused(call: nat)
    | Reread(call: nat)
    | Crash(call: nat)
    | SaveUrl(call: nat, text: string)

  function ContentOf(file: File): Option<string> {
    if file.Present? && Strip(file.content) != [] then Some(Strip(file.content)) else None
  }

  predicate Enabled(w: World, a: Action) {
    match a
    case Begin(c, key) => c !in w.calls && IsKey(key)
    case Create(c) => c in w.calls && w.calls[c].Creating?
    case CreateRefused(c) => c in w.calls && w.calls[c].Creating?
    case Write(c) => c in w.calls && w.calls[c].Writing?
    case WriteRefused(c) => c in w.calls && w.calls[c].Writing?
    case Reread(c) => c in w.calls && w.calls[c].Rereading?
    case Crash(c) => c in w.calls && !w.calls[c].Returned?
    case SaveUrl(c, text) => c in w.calls && w.calls[c].Returned? && w.calls[c].result.Some? && Strip(text) != []
  }

  function Step(w: World, a: Action): World
    requires Enabled(w, a)
  {
    match a
    case Begin(c, key) =>
      var existing := ContentOf(w.file);
      w.(calls := w.calls[c := if existing.Some? then Returned(existing) else Creating(key)])
    case Create(c) =>
      if w.file.Absent? then w.(file := Present([]), calls := w.calls[c := Writing(w.calls[c].key)])
      else w.(calls := w.calls[c := Rereading])
    case CreateRefused(c) => w.(calls := w.calls[c := Returned(None)])
    case Write(c) => w.(file := Present(w.calls[c].key), calls := w.calls[c := Returned(Some(w.calls[c].key))])
    case WriteRefused(c) => w.(calls := w.calls[c := Returned(None)])
    case Reread(c) => w.(calls := w.calls[c := Returned(ContentOf(w.file))])
    case Crash(c) => w.(calls := w.calls[c := Crashed])
    case SaveUrl(c, text) => w.(url := Some((w.calls[c].result.value, Strip(text))))
  }

  predicate Runs(w: World, actions: seq<Action>)
    decreases actions
  {
    actions == [] || (Enabled(w, actions[0]) && Runs(Step(w, actions[0]), actions[1..]))
  }

  function After(w: World, actions: seq<Action>): World
    requires Runs(w, actions)
    decreases actions
  {
    if actions == [] then w else After(Step(w, actions[0]), actions[1..])
  }

  const FIRST_BOOT := World(Absent, map[], None)

  // ---------------------------------------------------------------- agreement

  /** There is no file until one caller creates it; while that caller has not written, nobody has a key;
      afterwards everybody who has a key has the file's. */
  predicate Agreeing(w: World) {
    && (w.file.Present? && w.file.content != [] ==> IsKey(w.file.content))
    && (forall c :: c in w.calls && w.calls[c].Creating? ==> IsKey(w.calls[c].key))
    && (forall c :: c in w.calls && w.calls[c].Writing? ==> IsKey(w.calls[c].key) && w.file == Present([]))
    && (forall c, d :: c in w.calls && d in w.calls && w.calls[c].Writing? && w.calls[d].Writing? ==> c == d)
    && (forall c :: c in w.calls && w.calls[c].Rereading? ==> w.file.Present?)
    && (forall c :: c in w.calls && w.calls[c].Returned? && w.calls[c].result.Some? ==>
          w.file == Present(w.calls[c].result.value) && IsKey(w.calls[c].result.value))
    && (w.url.Some? ==>
          w.file == Present(w.url.value.0) && IsKey(w.url.value.0) &&
          Strip(w.url.value.1) == w.url.value.1 && w.url.value.1 != [])
  }

  lemma StepAgreeing(w: World, a: Action)
    requires Agreeing(w) && Enabled(w, a)
    ensures Agreeing(Step(w, a))
  {
    hide Strip;
    assert Strip([]) == [] by { StripEmpty(); }
    if a.SaveUrl? {
      StripTwice(a.text);
    }
  }

  lemma StripEmpty()
    ensures Strip([]) == []
  {
  }

  lemma {:induction false} RunAgreeing(w: World, actions: seq<Action>)
    requires Agreeing(w) && Runs(w, actions)
    ensures Agreeing(After(w, actions))
    decreases actions
  {
    if actions != [] {
      StepAgreeing(w, actions[0]);
      RunAgreeing(Step(w, actions[0]), actions[1..]);
    }
  }

  /** From a first boot, in any interleaving with any refusals and crashes, all keys that are handed out are one
      key, and it is the one in the file. */
  lemma AllCallersAgree(actions: seq<Action>, c: nat, d: nat)
    requires Runs(FIRST_BOOT, actions)
    requires var calls := After(FIRST_BOOT, actions).calls;
             c in calls && d in calls && calls[c].Returned? && calls[d].Returned? &&
             calls[c].result.Some? && calls[d].result.Some?
    ensures var w := After(FIRST_BOOT, actions);
            w.calls[c].result == w.calls[d].result && w.file == Present(w.calls[c].result.value)
  {
    RunAgreeing(FIRST_BOOT, actions);
  }

  function Writes(actions: seq<Action>): nat {
    if actions == [] then 0 else (if actions[0].Write? then 1 else 0) + Writes(actions[1..])
  }

  /** How many writes can still happen: none once the file is settled. */
  predicate MayWrite(w: World) {
    w.file.Absent? || exists c :: c in w.calls && w.calls[c].Writing?
  }

  /** A write needs the right to write, and uses it up; nothing gives it back. */
  lemma WriteSettles(w: World, a: Action)
    requires Agreeing(w) && Enabled(w, a)
    ensures MayWrite(Step(w, a)) ==> MayWrite(w) && !a.Write?
    ensures a.Write? ==> MayWrite(w)
  {
    hide Strip;
    var next := Step(w, a);
    if MayWrite(next) && next.file.Present? {
      var c :| c in next.calls && next.calls[c].Writing?;
      assert a.SaveUrl? || c == a.call || next.calls[c] == w.calls[c];
    }
  }

  /** At most one write ever happens, and none once the file is settled. */
  lemma {:induction false} AtMostOneWrite(w: World, actions: seq<Action>)
    requires Agreeing(w) && Runs(w, actions)
    ensures Writes(actions) <= if MayWrite(w) then 1 else 0
    ensures !MayWrite(w) ==> forall i :: 0 <= i < |actions| ==> !actions[i].Write?
    ensures forall i, j :: 0 <= i < j < |actions| ==> !(actions[i].Write? && actions[j].Write?)
    decreases actions
  {
    hide Agreeing, Enabled, Step, MayWrite;
    if actions != [] {
      StepAgreeing(w, actions[0]);
      WriteSettles(w, actions[0]);
      AtMostOneWrite(Step(w, actions[0]), actions[1..]);
    }
  }

  /** A creator that dies or is refused before writing leaves an empty file, and then nobody ever gets a key. */
  lemma {:induction false} EmptyFileStays(w: World, actions: seq<Action>)
    requires Agreeing(w) && Runs(w, actions)
    requires w.file == Present([]) && !MayWrite(w)
    ensures var after := After(w, actions);
            && after.file == Present([])
            && forall c :: c in after.calls && after.calls[c].Returned? ==> after.calls[c].result.None?
    decreases actions
  {
    if actions != [] {
      var a, next := actions[0], Step(w, actions[0]);
      StepAgreeing(w, a);
      StripEmpty();
      forall c | c in next.calls ensures !next.calls[c].Writing? {
        if c in w.calls && c != a.call {
          assert next.calls[c] == w.calls[c];
        }
      }
      EmptyFileStays(next, actions[1..]);
    }
  }

  /** The first three steps of a first call that dies between creating the file and writing it. */
  lemma FirstCreatorDies(key: string)
    requires IsKey(key)
    ensures Enabled(FIRST_BOOT, Begin(0, key))
    ensures var begun := Step(FIRST_BOOT, Begin(0, key));
            && Enabled(begun, Create(0))
            && var created := Step(begun, Create(0));
            && Enabled(created, Crash(0))
            && var crashed := Step(created, Crash(0));
            && Agreeing(crashed) && crashed.file == Present([]) && !MayWrite(crashed)
  {
    hide Strip;
    StepAgreeing(FIRST_BOOT, Begin(0, key));
    var begun := Step(FIRST_BOOT, Begin(0, key));
    StepAgreeing(begun, Create(0));
    var created := Step(begun, Create(0));
    StepAgreeing(created, Crash(0));
  }

  /** After that, no call ever returns a key, whatever happens. */
  lemma CrashedCreatorBlocks(key: string, actions: seq<Action>)
    requires IsKey(key) && Runs(FIRST_BOOT, [Begin(0, key), Create(0), Crash(0)] + actions)
    ensures var after := After(FIRST_BOOT, [Begin(0, key), Create(0), Crash(0)] + actions);
            forall c :: c in after.calls && after.calls[c].Returned? ==> after.calls[c].result.None?
  {
    FirstCreatorDies(key);
    var all := [Begin(0, key), Create(0), Crash(0)] + actions;
    var begun := Step(FIRST_BOOT, Begin(0, key));
    var created := Step(begun, Create(0));
    var crashed := Step(created, Crash(0));
    assert all[0] == Begin(0, key) && all[1..][0] == Create(0) && all[1..][1..][0] == Crash(0);
    assert all[1..][1..][1..] == actions;
    hide IsKey, Enabled, Agreeing, MayWrite, Step;
    assert Runs(begun, all[1..]) && After(FIRST_BOOT, all) == After(begun, all[1..]);
    assert Runs(created, all[1..][1..]) && After(begun, all[1..]) == After(created, all[1..][1..]);
    assert Runs(crashed, actions) && After(created, all[1..][1..]) == After(crashed, actions);
    EmptyFileStays(crashed, actions);
  }

  /** One call from beginning to end, nobody else moving and nothing refused. */
  function SoloActions(w: World, c: nat, key: string): seq<Action>
    requires c !in w.calls && IsKey(key)
  {
    if ContentOf(w.file).Some? then [Begin(c, key)]
    else [Begin(c, key), Create(c), if w.file.Absent? then Write(c) else Reread(c)]
  }

  lemma OneAction(w: World, a: Action)
    requires Enabled(w, a)
    ensures Runs(w, [a]) && After(w, [a]) == Step(w, a)
  {
    assert [a][1..] == [];
  }

  lemma ThreeActions(w: World, a: Action, b: Action, c: Action)
    requires Enabled(w, a) && Enabled(Step(w, a), b) && Enabled(Step(Step(w, a), b), c)
    ensures Runs(w, [a, b, c]) && After(w, [a, b, c]) == Step(Step(Step(w, a), b), c)
  {
    hide Enabled, Step;
    var all := [a, b, c];
    assert all[1..] == [b, c] && all[1..][1..] == [c] && all[1..][1..][1..] == [];
    var two := Step(Step(w, a), b);
    OneAction(two, c);
    assert Runs(Step(w, a), [b, c]) && After(Step(w, a), [b, c]) == After(two, [c]);
    assert Runs(w, all) && After(w, all) == After(Step(w, a), all[1..]);
  }

  predicate KeyOut(w: World, c: nat) {
    c in w.calls && w.calls[c].Returned? && w.calls[c].result.Some?
  }

  /** While nobody is writing, a new call that runs alone with nothing refused returns a key if and only if the file is
      not an empty one: the file's key, or its own if there is no file. */
  lemma SoloReturnsKeyIff(w: World, c: nat, key: string)
    requires Agreeing(w) && IsKey(key) && c !in w.calls
    requires forall d :: d in w.calls ==> !w.calls[d].Writing?
    ensures Runs(w, SoloActions(w, c, key))
    ensures var calls := After(w, SoloActions(w, c, key)).calls;
            && c in calls && calls[c].Returned?
            && calls[c].result == match w.file
                                  case Absent => Some(key)
                                  case Present(content) => if content == [] then None else Some(content)
    ensures KeyOut(After(w, SoloActions(w, c, key)), c) <==> w.file != Present([])
  {
    hide Strip;
    StripEmpty();
    if ContentOf(w.file).Some? {
      OneAction(w, Begin(c, key));
    } else {
      var begun := Step(w, Begin(c, key));
      assert begun.calls[c] == Creating(key);
      var created := Step(begun, Create(c));
      hide Agreeing;
      ThreeActions(w, Begin(c, key), Create(c), if w.file.Absent? then Write(c) else Reread(c));
    }
  }

  lemma FreshCall(calls: map<nat, Call>) returns (c: nat)
    ensures c !in calls
  {
    var left := calls.Keys;
    c := 0;
    while left != {}
      invariant left <= calls.Keys
      invariant forall d :: d in calls && d !in left ==> d < c
      decreases |left|
    {
      var d :| d in left;
      left := left - {d};
      c := if d < c then c else d + 1;
    }
  }

  ghost predicate NobodyGetsAKey(w: World) {
    forall actions, c | Runs(w, actions) :: !KeyOut(After(w, actions), c)
  }

  /** In no continuation does anybody get a key, if and only if the file is empty and nobody is about to write it. */
  lemma NobodyGetsAKeyIff(w: World)
    requires Agreeing(w)
    ensures NobodyGetsAKey(w) <==> w.file == Present([]) && !MayWrite(w)
  {
    if w.file == Present([]) && !MayWrite(w) {
      forall actions, c | Runs(w, actions) ensures !KeyOut(After(w, actions), c) {
        EmptyFileStays(w, actions);
      }
    } else {
      SomebodyGetsAKey(w);
    }
  }

  lemma SomebodyGetsAKey(w: World)
    requires Agreeing(w) && (w.file != Present([]) || MayWrite(w))
    ensures !NobodyGetsAKey(w)
  {
    hide Agreeing, NobodyGetsAKey, Runs, After, Strip;
    if d :| d in w.calls && w.calls[d].Writing? {
      WriterReturns(w, d);
      Somebody(w, [Write(d)], d);
    } else {
      NewCallerReturns(w);
    }
  }

  lemma NewCallerReturns(w: World)
    requires Agreeing(w) && w.file != Present([]) && forall d :: d in w.calls ==> !w.calls[d].Writing?
    ensures !NobodyGetsAKey(w)
  {
    hide *;
    var c := FreshCall(w.calls);
    AKey();
    SoloReturnsKeyIff(w, c, "k");
    Somebody(w, SoloActions(w, c, "k"), c);
  }

  lemma WriterReturns(w: World, d: nat)
    requires Agreeing(w) && d in w.calls && w.calls[d].Writing?
    ensures Runs(w, [Write(d)]) && KeyOut(After(w, [Write(d)]), d)
  {
    hide Strip;
    OneAction(w, Write(d));
  }

  lemma Somebody(w: World, actions: seq<Action>, c: nat)
    requires Runs(w, actions) && KeyOut(After(w, actions), c)
    ensures !NobodyGetsAKey(w)
  {
    hide Runs, After, KeyOut;
  }

  lemma AKey()
    ensures IsKey("k")
  {
    assert StripLeft("k") == "k" && StripRight("k") == "k";
  }

  /** A key in the file is what every later call returns, and it never changes. */
  lemma {:induction false} KeyStays(w: World, actions: seq<Action>, key: string)
    requires Agreeing(w) && Runs(w, actions) && w.file == Present(key) && key != []
    ensures After(w, actions).file == Present(key)
    ensures forall c :: c !in w.calls && c in After(w, actions).calls ==>
              After(w, actions).calls[c] == Returned(Some(key))
    decreases actions
  {
    if actions != [] {
      var a, next := actions[0], Step(w, actions[0]);
      StepAgreeing(w, a);
      KeyStays(next, actions[1..], key);
      if a.Begin? {
        assert next.calls[a.call] == Returned(Some(key));
        ReturnedStays(next, actions[1..], a.call);
      }
    }
  }

  /** A caller that has lost the race for the file gets the key from it once it is written; one whose create or write is
      refused gets none, and may try again. */
  lemma LoserGetsTheKey(w: World, c: nat, key: string)
    requires Agreeing(w) && w.file == Present(key) && key != [] && c in w.calls
    ensures w.calls[c].Creating? ==>
              && Enabled(w, Create(c)) && Enabled(Step(w, Create(c)), Reread(c))
              && Step(Step(w, Create(c)), Reread(c)).calls[c] == Returned(Some(key))
    ensures w.calls[c].Creating? ==>
              Enabled(w, CreateRefused(c)) && Step(w, CreateRefused(c)).calls[c] == Returned(None)
    ensures w.calls[c].Rereading? ==>
              Enabled(w, Reread(c)) && Step(w, Reread(c)).calls[c] == Returned(Some(key))
  {
    hide Strip;
  }

  /** A writer leaves its key in the file and returns it; if it is refused or dies, the file stays empty. */
  lemma WriterDecides(w: World, c: nat)
    requires Agreeing(w) && c in w.calls && w.calls[c].Writing?
    ensures Enabled(w, Write(c)) && Enabled(w, WriteRefused(c)) && Enabled(w, Crash(c))
    ensures Step(w, Write(c)).file == Present(w.calls[c].key)
    ensures Step(w, Write(c)).calls[c] == Returned(Some(w.calls[c].key))
    ensures Step(w, WriteRefused(c)).file == Present("") && Step(w, WriteRefused(c)).calls[c] == Returned(None)
    ensures Step(w, Crash(c)).file == Present("") && Step(w, Crash(c)).calls[c] == Crashed
  {
    hide Strip;
  }

  lemma {:induction false} ReturnedStays(w: World, actions: seq<Action>, c: nat)
    requires Runs(w, actions) && c in w.calls && w.calls[c].Returned?
    ensures c in After(w, actions).calls && After(w, actions).calls[c] == w.calls[c]
    decreases actions
  {
    if actions != [] {
      ReturnedStays(Step(w, actions[0]), actions[1..], c);
    }
  }

  // ---------------------------------------------------------------- the encrypted URL

  /** Reading the URL file: `None` without a key file, without a URL file, or with a key that does not fit. */
  function ReadUrl(w: World): Option<string> {
    if w.url.None? || ContentOf(w.file) != Some(w.url.value.0) || Strip(w.url.value.1) == [] then None
    else Some(Strip(w.url.value.1))
  }

  /** The URL reads back exactly when there is one, the key file holds the key it was encrypted with, and the text is
      not blank. */
  lemma ReadUrlIff(w: World, text: string)
    ensures ReadUrl(w) == Some(text) <==>
              && w.url.Some? && w.file.Present?
              && w.url.value.0 == Strip(w.file.content) && Strip(w.file.content) != ""
              && text == Strip(w.url.value.1) && text != ""
  {
    hide Strip;
  }

  /** A URL saved by any caller can be read back for good: no later race strands it. */
  lemma SavedUrlIsReadable(actions: seq<Action>)
    requires Runs(FIRST_BOOT, actions)
    ensures var w := After(FIRST_BOOT, actions);
            w.url.Some? ==> ReadUrl(w) == Some(w.url.value.1)
  {
    RunAgreeing(FIRST_BOOT, actions);
  }

  /** Saving and reading return the stripped text. */
  lemma SaveThenRead(w: World, c: nat, text: string)
    requires Agreeing(w) && Enabled(w, SaveUrl(c, text))
    ensures ReadUrl(Step(w, SaveUrl(c, text))) == Some(Strip(text))
  {
    StepAgreeing(w, SaveUrl(c, text));
  }

  // ---------------------------------------------------------------- the session key of one process

  /** The module globals of one process. */
  class SessionKeys {
    var cached: Option<string>
    var ephemeral: Option<string>

    constructor ()
      ensures cached == None && ephemeral == None
    {
      cached, ephemeral := None, None;
    }

    /** `fromFile` is what the get-or-create call returns if it is made, `random` the key drawn if one is needed. */
    method SigningKey(fromFile: Option<string>, random: string) returns (key: string)
      modifies this
      ensures key == NextKey(old(cached), old(ephemeral), fromFile, random)
      ensures cached == (if old(cached).Some? then old(cached) else fromFile)
      ensures ephemeral == (if old(cached).None? && fromFile.None? && old(ephemeral).None? then Some(random)
                            else old(ephemeral))
    {
      if cached.Some? {
        return cached.value;
      }
      if fromFile.Some? {
        cached := fromFile;
        return fromFile.value;
      }
      if ephemeral.None? {
        ephemeral := Some(random);
      }
      key := ephemeral.value;
    }
  }

  function NextKey(cached: Option<string>, ephemeral: Option<string>, fromFile: Option<string>,
                   random: string): string {
    if cached.Some? then cached.value
    else if fromFile.Some? then fromFile.value
    else if ephemeral.Some? then ephemeral.value
    else random
  }

  /** The keys a process signs with over a series of calls with given file results and random draws. */
  function KeysOver(cached: Option<string>, ephemeral: Option<string>, files: seq<Option<string>>, draws: seq<string>)
    : seq<string>
    requires |files| == |draws|
    decreases |files|
  {
    if files == [] then []
    else
      var key := NextKey(cached, ephemeral, files[0], draws[0]);
      var cached' := if cached.Some? then cached else files[0];
      var ephemeral' := if cached.None? && files[0].None? && ephemeral.None? then Some(draws[0]) else ephemeral;
      [key] + KeysOver(cached', ephemeral', files[1..], draws[1..])
  }

  /** Once cached, the key never changes in the process. */
  lemma {:induction false} CachedForGood(k: string, ephemeral: Option<string>, files: seq<Option<string>>,
                                         draws: seq<string>)
    requires |files| == |draws|
    ensures var keys := KeysOver(Some(k), ephemeral, files, draws);
            |keys| == |files| && forall i :: 0 <= i < |keys| ==> keys[i] == k
    decreases |files|
  {
    if files != [] {
      CachedForGood(k, ephemeral, files[1..], draws[1..]);
    }
  }

  function FirstSome(files: seq<Option<string>>): nat {
    if files == [] || files[0].Some? then 0 else 1 + FirstSome(files[1..])
  }

  /** A process signs with one ephemeral key until the file first yields a key and with that key ever after:
      the signing key changes at most once. */
  lemma {:induction false} ChangesAtMostOnce(ephemeral: Option<string>, files: seq<Option<string>>, draws: seq<string>)
    requires |files| == |draws|
    ensures var keys := KeysOver(None, ephemeral, files, draws);
            var n := FirstSome(files);
            && |keys| == |files| && n <= |files|
            && (forall i :: 0 <= i < n ==> keys[i] == if ephemeral.Some? then ephemeral.value else draws[0])
            && (forall i :: n <= i < |keys| ==> files[n].Some? && keys[i] == files[n].value)
    decreases |files|
  {
    if files != [] {
      if files[0].Some? {
        CachedForGood(files[0].value, ephemeral, files[1..], draws[1..]);
      } else {
        ChangesAtMostOnce(if ephemeral.Some? then ephemeral else Some(draws[0]), files[1..], draws[1..]);
      }
    }
  }
}
