/** The string operations the program relies on: stripping, splitting, SQL trimming. */
module Text {
  import opened Prelude

  /** Characters that Python's str.strip() removes. */
  predicate IsSpace(c: char) {
    '\t' <= c <= '\r' || '\U{1C}' <= c <= ' ' || c == '\U{85}' || c == '\U{A0}' || c == '\U{1680}' ||
    '\U{2000}' <= c <= '\U{200A}' || c == '\U{2028}' || c == '\U{2029}' || c == '\U{202F}' || c == '\U{205F}' ||
    c == '\U{3000}'
  }

  /** The code points that Unicode counts as white space, and the four separators that Python adds. */
  lemma SpacesAre(c: char)
    ensures IsSpace(c) <==>
              c as int in {9, 10, 11, 12, 13, 28, 29, 30, 31, 32, 133, 160, 5760, 8192, 8193, 8194, 8195, 8196, 8197,
                           8198, 8199, 8200, 8201, 8202, 8232, 8233, 8239, 8287, 12288}
  {
  }

  function StripLeft(s: string): (r: string)
    ensures r == [] || !IsSpace(r[0])
    ensures |r| <= |s| && r == s[|s| - |r|..]
    ensures forall i :: 0 <= i < |s| - |r| ==> IsSpace(s[i])
  {
    if s != [] && IsSpace(s[0]) then StripLeft(s[1..]) else s
  }

  function StripRight(s: string): (r: string)
    ensures r == [] || !IsSpace(r[|r| - 1])
    ensures r <= s
    ensures forall i :: |r| <= i < |s| ==> IsSpace(s[i])
  {
    if s != [] && IsSpace(s[|s| - 1]) then StripRight(s[..|s| - 1]) else s
  }

  function Strip(s: string): string {
    StripRight(StripLeft(s))
  }

  /** Stripping takes white space off both ends and nothing else. */
  lemma StripIs(s: string) returns (a: nat, b: nat)
    ensures a <= b <= |s| && Strip(s) == s[a..b]
    ensures forall i :: 0 <= i < a || b <= i < |s| ==> IsSpace(s[i])
    ensures a < b ==> !IsSpace(s[a]) && !IsSpace(s[b - 1])
  {
    var l := StripLeft(s);
    a := |s| - |l|;
    b := a + |StripRight(l)|;
    forall i | b <= i < |s| ensures IsSpace(s[i]) {
      assert s[i] == l[i - a];
    }
  }

  lemma NothingToStrip(s: string)
    requires s != [] && !IsSpace(s[0]) && !IsSpace(s[|s| - 1])
    ensures Strip(s) == s
  {
  }

  lemma StripTwice(s: string)
    ensures Strip(Strip(s)) == Strip(s)
  {
    var r := StripRight(StripLeft(s));
    if r != [] {
      assert !IsSpace(r[0]) && !IsSpace(r[|r| - 1]);
      NothingToStrip(r);
    }
  }

  /** Split at every occurrence of a separator, as Python's str.split(sep) and JavaScript's split do. */
  function Split(s: string, sep: char): (parts: seq<string>)
    ensures |parts| > 0
  {
    if s == [] then [[]]
    else
      Prepended(s[0], Split(s[1..], sep), sep)
  }

  function Join(parts: seq<string>, sep: char): string
    requires |parts| > 0
  {
    if |parts| == 1 then parts[0] else parts[0] + [sep] + Join(parts[1..], sep)
  }

  /** A character in front of a split text. */
  function Prepended(c: char, parts: seq<string>, sep: char): seq<string>
    requires |parts| > 0
  {
    if c == sep then [[]] + parts else [[c] + parts[0]] + parts[1..]
  }

  lemma PrependedConcat(c: char, a: seq<string>, b: seq<string>, sep: char)
    requires |a| > 0
    ensures Prepended(c, a + b, sep) == Prepended(c, a, sep) + b
  {
    assert (a + b)[0] == a[0] && (a + b)[1..] == a[1..] + b;
  }

  /** Splitting distributes over a separator. */
  lemma {:induction false} SplitAcross(a: string, b: string, sep: char)
    ensures Split(a + [sep] + b, sep) == Split(a, sep) + Split(b, sep)
  {
    var whole := a + [sep] + b;
    if a == [] {
      assert whole[0] == sep && whole[1..] == b;
    } else {
      SplitAcross(a[1..], b, sep);
      assert whole[0] == a[0] && whole[1..] == a[1..] + [sep] + b;
      PrependedConcat(a[0], Split(a[1..], sep), Split(b, sep), sep);
    }
  }

  lemma {:induction false} SplitWithout(s: string, sep: char)
    requires sep !in s
    ensures Split(s, sep) == [s]
  {
    if s != [] {
      SplitWithout(s[1..], sep);
      assert [s[0]] + s[1..] == s;
    }
  }

  /** Joining undoes splitting. */
  lemma {:induction false} JoinSplit(s: string, sep: char)
    ensures Join(Split(s, sep), sep) == s
  {
    if s != [] {
      JoinSplit(s[1..], sep);
      var rest := Split(s[1..], sep);
      if s[0] == sep {
        assert ([[]] + rest)[1..] == rest;
        assert s == [] + [sep] + s[1..];
      } else {
        var parts := [[s[0]] + rest[0]] + rest[1..];
        assert parts[1..] == rest[1..];
        assert s == [s[0]] + s[1..];
        if |rest| > 1 {
          assert [s[0]] + (rest[0] + [sep] + Join(rest[1..], sep)) == [s[0]] + rest[0] + [sep] + Join(rest[1..], sep);
        }
      }
    }
  }

  /** SQL trim(): spaces only. */
  function Trim(s: string): string {
    if s == [] then s
    else if s[0] == ' ' then Trim(s[1..])
    else if s[|s| - 1] == ' ' then Trim(s[..|s| - 1])
    else s
  }

  /** SQL replace(s, 'tt', ''). */
  function WithoutTT(s: string): string {
    if |s| >= 2 && s[0] == 't' && s[1] == 't' then WithoutTT(s[2..])
    else if s == [] then s
    else [s[0]] + WithoutTT(s[1..])
  }

  function LowerAscii(s: string): string {
    seq(|s|, i requires 0 <= i < |s| =>
      if 'A' <= s[i] <= 'Z' then (s[i] as int + 32) as char else s[i])
  }

  predicate Blank(s: string, from: nat, to: nat) {
    forall i :: from <= i < to && i < |s| ==> s[i] == ' '
  }

  /** Trimming takes spaces off both ends and nothing else. */
  lemma {:induction false} TrimIs(s: string) returns (a: nat, b: nat)
    ensures a <= b <= |s| && Trim(s) == s[a..b]
    ensures Blank(s, 0, a) && Blank(s, b, |s|)
    ensures a < b ==> s[a] != ' ' && s[b - 1] != ' '
  {
    if s == [] || (s[0] != ' ' && s[|s| - 1] != ' ') {
      a, b := 0, |s|;
    } else if s[0] == ' ' {
      var rest := s[1..];
      a, b := TrimIs(rest);
      BlankLater(s, 0, a);
      BlankLater(s, b, |rest|);
      assert rest[a..b] == s[a + 1..b + 1];
      a, b := a + 1, b + 1;
    } else {
      var front := s[..|s| - 1];
      a, b := TrimIs(front);
      assert s == front + [' '];
      assert front[a..b] == s[a..b];
    }
  }

  lemma BlankLater(s: string, from: nat, to: nat)
    requires s != [] && Blank(s[1..], from, to)
    ensures Blank(s, from + 1, to + 1)
  {
    forall i | from + 1 <= i < to + 1 && i < |s| ensures s[i] == ' ' {
      assert s[i] == s[1..][i - 1];
    }
  }

  /** Removing "tt" works from the left: a pair goes, any other character stays, and what is removed is not looked at
      again. */
  lemma WithoutTTIs(c: char, s: string)
    ensures WithoutTT("") == ""
    ensures WithoutTT("tt" + s) == WithoutTT(s)
    ensures c != 't' || s == [] || s[0] != 't' ==> WithoutTT([c] + s) == [c] + WithoutTT(s)
  {
    assert ("tt" + s)[2..] == s && ([c] + s)[1..] == s;
  }

  lemma LowerAsciiIs(s: string, i: nat)
    requires i < |s|
    ensures |LowerAscii(s)| == |s|
    ensures 65 <= s[i] as int <= 90 ==> LowerAscii(s)[i] as int == s[i] as int + 32
    ensures !(65 <= s[i] as int <= 90) ==> LowerAscii(s)[i] == s[i]
  {
  }

  lemma {:induction false} TrimSpaceAfter(s: string)
    ensures Trim(s + [' ']) == Trim(s)
  {
    var t := s + [' '];
    if s == [] {
      assert Trim(t) == Trim(t[1..]);
    } else if s[0] == ' ' {
      TrimSpaceAfter(s[1..]);
      assert t[1..] == s[1..] + [' '];
    } else {
      assert t[..|t| - 1] == s;
    }
  }

  lemma {:induction false} WithoutTTSpaceAfter(s: string)
    ensures WithoutTT(s + [' ']) == WithoutTT(s) + [' ']
  {
    var t := s + [' '];
    if s == [] {
      assert t[1..] == [];
    } else if |s| >= 2 && s[0] == 't' && s[1] == 't' {
      assert t[2..] == s[2..] + [' '];
      WithoutTTSpaceAfter(s[2..]);
    } else {
      assert t[1..] == s[1..] + [' '];
      assert !(|t| >= 2 && t[0] == 't' && t[1] == 't');
      WithoutTTSpaceAfter(s[1..]);
    }
  }

  /** Outer spaces do not matter to either comparison form of an id. */
  lemma {:induction false} TrimmedIdsCompare(s: string)
    ensures Trim(Trim(s)) == Trim(s)
    ensures Trim(WithoutTT(Trim(s))) == Trim(WithoutTT(s))
    decreases |s|
  {
    if s == [] {
    } else if s[0] == ' ' {
      TrimmedIdsCompare(s[1..]);
      assert WithoutTT(s) == [' '] + WithoutTT(s[1..]);
      assert ([' '] + WithoutTT(s[1..]))[1..] == WithoutTT(s[1..]);
    } else if s[|s| - 1] == ' ' {
      var front := s[..|s| - 1];
      TrimmedIdsCompare(front);
      assert s == front + [' '];
      WithoutTTSpaceAfter(front);
      TrimSpaceAfter(WithoutTT(front));
    }
  }

  // ---------------------------------------------------------------- decimal numbers

  function DigitOf(d: nat): char
    requires d < 10
  {
    ('0' as int + d) as char
  }

  predicate IsDigit(c: char) {
    '0' <= c <= '9'
  }

  function Decimal(n: nat): string {
    if n < 10 then [DigitOf(n)] else Decimal(n / 10) + [DigitOf(n % 10)]
  }

  function ValueOf(digits: string): (n: Option<nat>)
  {
    if digits == [] then None
    else
      var last := digits[|digits| - 1];
      if !IsDigit(last) then None
      else if |digits| == 1 then Some(last as int - '0' as int)
      else
        var front := ValueOf(digits[..|digits| - 1]);
        if front.None? then None else Some(front.value * 10 + (last as int - '0' as int))
  }

  lemma {:induction false} DecimalValue(n: nat)
    ensures ValueOf(Decimal(n)) == Some(n)
    ensures forall c :: c in Decimal(n) ==> IsDigit(c)
  {
    if n >= 10 {
      DecimalValue(n / 10);
      var front := Decimal(n / 10);
      assert Decimal(n)[..|front|] == front;
    }
  }

  /** Integers, with a sign when negative. */
  function IntText(n: int): string {
    if n < 0 then ['-'] + Decimal(-n) else Decimal(n)
  }

  function TextInt(s: string): Option<int> {
    if s != [] && s[0] == '-' then
      var n := ValueOf(s[1..]);
      if n.None? then None else var v: int := n.value; Some(-v)
    else
      var n := ValueOf(s);
      if n.None? then None else var v: int := n.value; Some(v)
  }

  /** Printing and reading an integer undo each other, and a printed integer is made of digits and a sign. */
  lemma IntRoundTrip(n: int)
    ensures TextInt(IntText(n)) == Some(n)
    ensures forall c :: c in IntText(n) ==> IsDigit(c) || c == '-'
    ensures IntText(n) != []
  {
    hide Decimal, ValueOf;
    if n < 0 {
      DecimalValue(-n);
      assert IntText(n)[1..] == Decimal(-n);
    } else {
      DecimalValue(n);
      DecimalNotEmpty(n);
      assert Decimal(n)[0] in Decimal(n);
    }
  }

  lemma DecimalNotEmpty(n: nat)
    ensures Decimal(n) != []
  {
  }
}
