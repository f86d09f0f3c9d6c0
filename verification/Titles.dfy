/** Merging title lists: first seen wins, nothing twice whatever the case, never the primary title.
    `lower` is the language's lower-casing.
  */
module Titles {
  import opened Prelude
  import opened Text

  /** Whether a stripped title still has a place in the list. */
  predicate Fits(primary: Option<string>, merged: seq<string>, s: string, lower: string -> string) {
    s != [] &&
    !(primary.Some? && lower(primary.value) != [] && lower(s) == lower(primary.value)) &&
    lower(s) !in Lowered(merged, lower)
  }

  function Lowered(titles: seq<string>, lower: string -> string): set<string> {
    set t | t in titles :: lower(t)
  }

  function Pushed(primary: Option<string>, merged: seq<string>, s: Option<string>,
                  lower: string -> string): seq<string> {
    if s.Some? && Fits(primary, merged, Strip(s.value), lower) then merged + [Strip(s.value)] else merged
  }

  function PushedAll(primary: Option<string>, merged: seq<string>, more: seq<Option<string>>, lower: string -> string)
    : seq<string>
  {
    if more == [] then merged
    else Pushed(primary, PushedAll(primary, merged, more[..|more| - 1], lower), more[|more| - 1], lower)
  }

  /** The merge of an existing list and new titles. */
  function Merged(primary: Option<string>, existing: seq<Option<string>>, incoming: seq<Option<string>>,
                  lower: string -> string)
    : seq<string>
  {
    PushedAll(primary, PushedAll(primary, [], existing, lower), incoming, lower)
  }

  method MergeAdditionalTitleLists(primary: Option<string>, existing: seq<Option<string>>,
                                   incoming: seq<Option<string>>, lower: string -> string)
    returns (merged: seq<string>)
    ensures merged == Merged(primary, existing, incoming, lower)
  {
    var seen: set<string>;
    merged, seen := PushEach(primary, [], {}, existing, lower);
    merged, seen := PushEach(primary, merged, seen, incoming, lower);
  }

  /** The inner push, over a list, with the set of lower-cased titles already kept. */
  method PushEach(primary: Option<string>, before: seq<string>, seenBefore: set<string>, more: seq<Option<string>>,
                  lower: string -> string)
    returns (merged: seq<string>, seen: set<string>)
    requires seenBefore == Lowered(before, lower)
    ensures merged == PushedAll(primary, before, more, lower) && seen == Lowered(merged, lower)
  {
    hide Strip;
    merged, seen := before, seenBefore;
    for i := 0 to |more|
      invariant merged == PushedAll(primary, before, more[..i], lower)
      invariant seen == Lowered(merged, lower)
    {
      assert more[..i + 1][..i] == more[..i];
      if more[i].Some? {
        var s := Strip(more[i].value);
        var primaryLower := if primary.Some? then lower(primary.value) else [];
        if s != [] && !(primaryLower != [] && lower(s) == primaryLower) && lower(s) !in seen {
          LoweredMore(merged, s, lower);
          seen := seen + {lower(s)};
          merged := merged + [s];
        }
      }
    }
    assert more[..|more|] == more;
  }

  lemma LoweredMore(titles: seq<string>, s: string, lower: string -> string)
    ensures Lowered(titles + [s], lower) == Lowered(titles, lower) + {lower(s)}
  {
    assert forall t :: t in titles + [s] <==> t in titles || t == s;
    assert s in titles + [s];
    forall x | x in Lowered(titles, lower) ensures x in Lowered(titles + [s], lower) {
      var t :| t in titles && lower(t) == x;
      assert t in titles + [s];
    }
  }

  // ---------------------------------------------------------------- what the merge keeps

  /** Stripped, non-empty, pairwise different whatever the case, none the primary title. */
  predicate Clean(primary: Option<string>, titles: seq<string>, lower: string -> string) {
    && (forall i :: 0 <= i < |titles| ==> titles[i] != [] && Strip(titles[i]) == titles[i])
    && (forall i, j :: 0 <= i < j < |titles| ==> lower(titles[i]) != lower(titles[j]))
    && (primary.Some? && lower(primary.value) != [] ==>
          forall i :: 0 <= i < |titles| ==> lower(titles[i]) != lower(primary.value))
  }

  lemma PushedClean(primary: Option<string>, merged: seq<string>, s: Option<string>, lower: string -> string)
    requires Clean(primary, merged, lower)
    ensures Clean(primary, Pushed(primary, merged, s, lower), lower)
    ensures merged <= Pushed(primary, merged, s, lower)
  {
    hide Strip;
    if s.Some? {
      StripTwice(s.value);
      if Fits(primary, merged, Strip(s.value), lower) {
        forall i | 0 <= i < |merged| ensures lower(merged[i]) != lower(Strip(s.value)) {
          assert merged[i] in merged;
        }
      }
    }
  }

  lemma {:induction false} PushedAllClean(primary: Option<string>, merged: seq<string>, more: seq<Option<string>>,
                                          lower: string -> string)
    requires Clean(primary, merged, lower)
    ensures Clean(primary, PushedAll(primary, merged, more, lower), lower)
    ensures merged <= PushedAll(primary, merged, more, lower)
  {
    hide Clean, Pushed;
    if more != [] {
      var front := more[..|more| - 1];
      PushedAllClean(primary, merged, front, lower);
      PushedClean(primary, PushedAll(primary, merged, front, lower), more[|more| - 1], lower);
    }
  }

  /** The merge is clean and keeps what the existing list contributed in front, in its order. */
  lemma MergeIsClean(primary: Option<string>, existing: seq<Option<string>>, incoming: seq<Option<string>>,
                     lower: string -> string)
    ensures Clean(primary, Merged(primary, existing, incoming, lower), lower)
    ensures PushedAll(primary, [], existing, lower) <= Merged(primary, existing, incoming, lower)
  {
    PushedAllClean(primary, [], existing, lower);
    PushedAllClean(primary, PushedAll(primary, [], existing, lower), incoming, lower);
  }

  // ---------------------------------------------------------------- merging again

  /** A title is settled when pushing it would change nothing. */
  predicate Settled(primary: Option<string>, merged: seq<string>, s: Option<string>, lower: string -> string) {
    Pushed(primary, merged, s, lower) == merged
  }

  lemma SettledLater(primary: Option<string>, merged: seq<string>, more: seq<string>, s: Option<string>,
                     lower: string -> string)
    requires Settled(primary, merged, s, lower)
    ensures Settled(primary, merged + more, s, lower)
  {
    hide Strip;
    if s.Some? {
      var t := Strip(s.value);
      assert |merged + [t]| == |merged| + 1;
      assert !Fits(primary, merged, t, lower);
      if lower(t) in Lowered(merged, lower) {
        var u :| u in merged && lower(u) == lower(t);
        assert u in merged + more;
      }
    }
  }

  lemma PushSettles(primary: Option<string>, merged: seq<string>, s: Option<string>, lower: string -> string)
    ensures Settled(primary, Pushed(primary, merged, s, lower), s, lower)
  {
    hide Strip;
    if s.Some? && Fits(primary, merged, Strip(s.value), lower) {
      LoweredMore(merged, Strip(s.value), lower);
    }
  }

  lemma {:induction false} AllSettled(primary: Option<string>, merged: seq<string>, more: seq<Option<string>>, i: nat,
                                      lower: string -> string)
    requires i < |more|
    ensures Settled(primary, PushedAll(primary, merged, more, lower), more[i], lower)
  {
    hide Settled, Pushed;
    var n := |more| - 1;
    var before := PushedAll(primary, merged, more[..n], lower);
    if i == n {
      PushSettles(primary, before, more[n], lower);
    } else {
      AllSettled(primary, merged, more[..n], i, lower);
      PushExtends(primary, before, more[n], lower);
      var after := PushedAll(primary, merged, more, lower);
      assert after == before + after[|before|..];
      SettledLater(primary, before, after[|before|..], more[i], lower);
    }
  }

  lemma PushExtends(primary: Option<string>, merged: seq<string>, s: Option<string>, lower: string -> string)
    ensures merged <= Pushed(primary, merged, s, lower)
  {
  }

  lemma {:induction false} SettledAllStays(primary: Option<string>, merged: seq<string>, more: seq<Option<string>>,
                                           lower: string -> string)
    requires forall i :: 0 <= i < |more| ==> Settled(primary, merged, more[i], lower)
    ensures PushedAll(primary, merged, more, lower) == merged
  {
    if more != [] {
      SettledAllStays(primary, merged, more[..|more| - 1], lower);
      assert Settled(primary, merged, more[|more| - 1], lower);
    }
  }

  /** A title list as the rows store it. */
  function Stored(titles: seq<string>): seq<Option<string>> {
    seq(|titles|, i requires 0 <= i < |titles| => Some(titles[i]))
  }

  lemma {:induction false} CleanStays(primary: Option<string>, titles: seq<string>, lower: string -> string)
    requires Clean(primary, titles, lower)
    ensures PushedAll(primary, [], Stored(titles), lower) == titles
  {
    hide Strip;
    if titles != [] {
      var n := |titles| - 1;
      assert Clean(primary, titles[..n], lower);
      CleanStays(primary, titles[..n], lower);
      assert Stored(titles)[..n] == Stored(titles[..n]) && Stored(titles)[n] == Some(titles[n]);
      LastFits(primary, titles, lower);
      assert titles == titles[..n] + [titles[n]];
    }
  }

  lemma LastFits(primary: Option<string>, titles: seq<string>, lower: string -> string)
    requires titles != [] && Clean(primary, titles, lower)
    ensures Fits(primary, titles[..|titles| - 1], titles[|titles| - 1], lower)
    ensures Strip(titles[|titles| - 1]) == titles[|titles| - 1]
  {
    hide Strip;
    var n := |titles| - 1;
    forall t | t in titles[..n] ensures lower(t) != lower(titles[n]) {
      var i :| 0 <= i < n && titles[..n][i] == t;
      assert titles[i] == t;
    }
  }

  /** Merging the same titles into the stored result again changes nothing, for every existing and incoming list. */
  lemma MergeAgain(primary: Option<string>, existing: seq<Option<string>>, incoming: seq<Option<string>>,
                   lower: string -> string)
    ensures var once := Merged(primary, existing, incoming, lower);
            Merged(primary, Stored(once), incoming, lower) == once
  {
    var once := Merged(primary, existing, incoming, lower);
    MergeIsClean(primary, existing, incoming, lower);
    CleanStays(primary, once, lower);
    forall i | 0 <= i < |incoming| ensures Settled(primary, once, incoming[i], lower) {
      AllSettled(primary, PushedAll(primary, [], existing, lower), incoming, i, lower);
    }
    SettledAllStays(primary, once, incoming, lower);
  }

  // ---------------------------------------------------------------- the merge without a running list

  /** A title that may be kept at all: not blank and not the primary title. */
  predicate Eligible(primary: Option<string>, t: Option<string>, lower: string -> string) {
    t.Some? && Strip(t.value) != [] &&
    !(primary.Some? && lower(primary.value) != [] && lower(Strip(t.value)) == lower(primary.value))
  }

  /** The first eligible title of its spelling, whatever the case. */
  predicate FirstSeen(primary: Option<string>, all: seq<Option<string>>, i: nat, lower: string -> string)
    requires i < |all|
  {
    Eligible(primary, all[i], lower) &&
    forall j :: 0 <= j < i && Eligible(primary, all[j], lower) ==>
      lower(Strip(all[j].value)) != lower(Strip(all[i].value))
  }

  /** The first-seen titles among the first `n`, in order. */
  function Selected(primary: Option<string>, all: seq<Option<string>>, n: nat, lower: string -> string): seq<string>
    requires n <= |all|
  {
    if n == 0 then []
    else
      Selected(primary, all, n - 1, lower) +
      (if FirstSeen(primary, all, n - 1, lower) then [Strip(all[n - 1].value)] else [])
  }

  predicate Spelled(primary: Option<string>, all: seq<Option<string>>, n: nat, key: string, lower: string -> string)
    requires n <= |all|
  {
    exists j :: 0 <= j < n && Eligible(primary, all[j], lower) && lower(Strip(all[j].value)) == key
  }

  /** The spellings kept are those of all eligible titles: nothing is dropped but repetitions. */
  lemma {:induction false} SelectedSpellings(primary: Option<string>, all: seq<Option<string>>, n: nat, key: string,
                                             lower: string -> string)
    requires n <= |all|
    ensures key in Lowered(Selected(primary, all, n, lower), lower) <==> Spelled(primary, all, n, key, lower)
  {
    hide Strip, Lowered;
    if n == 0 {
      NoTitles(lower);
    } else {
      SelectedSpellings(primary, all, n - 1, key, lower);
      var front := Selected(primary, all, n - 1, lower);
      if FirstSeen(primary, all, n - 1, lower) {
        LoweredMore(front, Strip(all[n - 1].value), lower);
      } else {
        assert front + [] == front;
        if Eligible(primary, all[n - 1], lower) && lower(Strip(all[n - 1].value)) == key {
          var j :| 0 <= j < n - 1 && Eligible(primary, all[j], lower) &&
                   lower(Strip(all[j].value)) == lower(Strip(all[n - 1].value));
          assert Spelled(primary, all, n - 1, key, lower);
        }
      }
    }
  }

  lemma NoTitles(lower: string -> string)
    ensures Lowered([], lower) == {}
  {
  }

  lemma {:induction false} PushedIsSelected(primary: Option<string>, all: seq<Option<string>>, n: nat,
                                            lower: string -> string)
    requires n <= |all|
    ensures PushedAll(primary, [], all[..n], lower) == Selected(primary, all, n, lower)
  {
    hide Strip, Lowered;
    if n > 0 {
      PushedIsSelected(primary, all, n - 1, lower);
      assert all[..n][..n - 1] == all[..n - 1];
      var t := all[n - 1];
      var front := Selected(primary, all, n - 1, lower);
      if Eligible(primary, t, lower) {
        SelectedSpellings(primary, all, n - 1, lower(Strip(t.value)), lower);
        assert FirstSeen(primary, all, n - 1, lower) <==> !Spelled(primary, all, n - 1, lower(Strip(t.value)), lower);
        assert Fits(primary, front, Strip(t.value), lower) <==> FirstSeen(primary, all, n - 1, lower);
      }
      assert front + [] == front;
    }
  }

  lemma {:induction false} PushedConcat(primary: Option<string>, first: seq<Option<string>>, more: seq<Option<string>>,
                                        lower: string -> string)
    ensures PushedAll(primary, [], first + more, lower)
         == PushedAll(primary, PushedAll(primary, [], first, lower), more, lower)
  {
    hide Pushed;
    if more == [] {
      assert first + more == first;
    } else {
      var n := |more| - 1;
      PushedConcat(primary, first, more[..n], lower);
      assert (first + more)[..|first| + n] == first + more[..n];
    }
  }

  /** The merge is exactly the first eligible title of each spelling, over the existing list and then the new
      titles, in order. */
  lemma MergeIsFirstSeen(primary: Option<string>, existing: seq<Option<string>>, incoming: seq<Option<string>>,
                         lower: string -> string)
    ensures var all := existing + incoming;
            Merged(primary, existing, incoming, lower) == Selected(primary, all, |all|, lower)
  {
    var all := existing + incoming;
    PushedConcat(primary, existing, incoming, lower);
    PushedIsSelected(primary, all, |all|, lower);
    assert all[..|all|] == all;
  }
}
