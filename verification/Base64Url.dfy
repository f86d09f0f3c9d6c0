/** base64url with padding, as section 5 of RFC 4648 defines it. */
module Base64Url {
  import opened Prelude

  type Byte = b: int | 0 <= b < 256

  function CharOf(v: int): char
    requires 0 <= v < 64
  {
    if v < 26 then ('A' as int + v) as char
    else if v < 52 then ('a' as int + v - 26) as char
    else if v < 62 then ('0' as int + v - 52) as char
    else if v == 62 then '-' else '_'
  }

  function SextetOf(c: char): Option<int> {
    if 'A' <= c <= 'Z' then Some(c as int - 'A' as int)
    else if 'a' <= c <= 'z' then Some(c as int - 'a' as int + 26)
    else if '0' <= c <= '9' then Some(c as int - '0' as int + 52)
    else if c == '-' then Some(62) else if c == '_' then Some(63) else None
  }

  predicate InAlphabet(c: char) {
    SextetOf(c).Some? || c == '='
  }

  lemma CharRoundTrip(v: int)
    requires 0 <= v < 64
    ensures SextetOf(CharOf(v)) == Some(v)
  {
  }

  function Group1(x: Byte): string {
    [CharOf(x / 4), CharOf(x % 4 * 16), '=', '=']
  }

  function Group2(x: Byte, y: Byte): string {
    [CharOf(x / 4), CharOf(x % 4 * 16 + y / 16), CharOf(y % 16 * 4), '=']
  }

  function Group3(x: Byte, y: Byte, z: Byte): string {
    [CharOf(x / 4), CharOf(x % 4 * 16 + y / 16), CharOf(y % 16 * 4 + z / 64), CharOf(z % 64)]
  }

  function Encode(bytes: seq<Byte>): string {
    if |bytes| == 0 then []
    else if |bytes| == 1 then Group1(bytes[0])
    else if |bytes| == 2 then Group2(bytes[0], bytes[1])
    else Group3(bytes[0], bytes[1], bytes[2]) + Encode(bytes[3..])
  }

  /** One group of four characters. Padding is allowed only in the last group and only over zero bits. */
  function DecodeGroup(g: string, last: bool): Option<seq<Byte>>
    requires |g| == 4
  {
    var a, b, c, d := SextetOf(g[0]), SextetOf(g[1]), SextetOf(g[2]), SextetOf(g[3]);
    if a.None? || b.None? then None
    else if c.Some? && d.Some? then
      Some([a.value * 4 + b.value / 16, b.value % 16 * 16 + c.value / 4, c.value % 4 * 64 + d.value])
    else if last && c.Some? && g[3] == '=' && c.value % 4 == 0 then
      Some([a.value * 4 + b.value / 16, b.value % 16 * 16 + c.value / 4])
    else if last && g[2] == '=' && g[3] == '=' && b.value % 16 == 0 then
      Some([a.value * 4 + b.value / 16])
    else None
  }

  function Decode(s: string): Option<seq<Byte>> {
    if s == [] then Some([])
    else if |s| < 4 then None
    else
      var head := DecodeGroup(s[..4], |s| == 4);
      var tail := Decode(s[4..]);
      if head.None? || tail.None? then None else Some(head.value + tail.value)
  }

  lemma Bits(x: Byte, y: Byte, z: Byte)
    ensures (x % 4 * 16 + y / 16) / 16 == x % 4 && (x % 4 * 16 + y / 16) % 16 == y / 16
    ensures (y % 16 * 4 + z / 64) / 4 == y % 16 && (y % 16 * 4 + z / 64) % 4 == z / 64
    ensures x / 4 * 4 + x % 4 == x && y / 16 * 16 + y % 16 == y && z / 64 * 64 + z % 64 == z
  {
  }

  lemma GroupOfThree(x: Byte, y: Byte, z: Byte, last: bool)
    ensures DecodeGroup(Group3(x, y, z), last) == Some([x, y, z])
    ensures forall c :: c in Group3(x, y, z) ==> InAlphabet(c)
  {
    hide CharOf, SextetOf;
    Bits(x, y, z);
    CharRoundTrip(x / 4);
    CharRoundTrip(x % 4 * 16 + y / 16);
    CharRoundTrip(y % 16 * 4 + z / 64);
    CharRoundTrip(z % 64);
  }

  lemma GroupOfTwo(x: Byte, y: Byte)
    ensures DecodeGroup(Group2(x, y), true) == Some([x, y])
    ensures forall c :: c in Group2(x, y) ==> InAlphabet(c)
  {
    hide CharOf, SextetOf;
    PadIsNoSextet();
    CharRoundTrip(x / 4);
    CharRoundTrip(x % 4 * 16 + y / 16);
    CharRoundTrip(y % 16 * 4);
  }

  lemma GroupOfOne(x: Byte)
    ensures DecodeGroup(Group1(x), true) == Some([x])
    ensures forall c :: c in Group1(x) ==> InAlphabet(c)
  {
    hide CharOf, SextetOf;
    PadIsNoSextet();
    CharRoundTrip(x / 4);
    CharRoundTrip(x % 4 * 16);
  }

  lemma PadIsNoSextet()
    ensures SextetOf('=') == None
  {
  }

  /** Decoding undoes encoding, for every byte string. */
  lemma {:induction false} RoundTrip(bytes: seq<Byte>)
    ensures Decode(Encode(bytes)) == Some(bytes)
  {
    hide DecodeGroup, Group1, Group2, Group3;
    var s := Encode(bytes);
    if |bytes| == 0 {
    } else if |bytes| == 1 {
      GroupOfOne(bytes[0]);
      GroupSizes(bytes[0], 0, 0);
      assert s[..4] == s && s[4..] == [];
      assert bytes == [bytes[0]] + [];
    } else if |bytes| == 2 {
      GroupOfTwo(bytes[0], bytes[1]);
      GroupSizes(bytes[0], bytes[1], 0);
      assert s[..4] == s && s[4..] == [];
      assert bytes == [bytes[0], bytes[1]] + [];
    } else {
      RoundTrip(bytes[3..]);
      GroupOfThree(bytes[0], bytes[1], bytes[2], |s| == 4);
      GroupSizes(bytes[0], bytes[1], bytes[2]);
      assert s[..4] == Group3(bytes[0], bytes[1], bytes[2]) && s[4..] == Encode(bytes[3..]);
      assert bytes == [bytes[0], bytes[1], bytes[2]] + bytes[3..];
    }
  }

  lemma GroupSizes(x: Byte, y: Byte, z: Byte)
    ensures |Group1(x)| == |Group2(x, y)| == |Group3(x, y, z)| == 4
  {
    hide CharOf;
  }

  lemma {:induction false} EncodedAlphabet(bytes: seq<Byte>)
    ensures forall c :: c in Encode(bytes) ==> InAlphabet(c)
    ensures bytes != [] ==> Encode(bytes) != []
  {
    hide DecodeGroup, Group1, Group2, Group3, InAlphabet;
    if |bytes| == 1 {
      GroupOfOne(bytes[0]);
      GroupSizes(bytes[0], 0, 0);
    } else if |bytes| == 2 {
      GroupOfTwo(bytes[0], bytes[1]);
      GroupSizes(bytes[0], bytes[1], 0);
    } else if |bytes| > 2 {
      EncodedAlphabet(bytes[3..]);
      GroupOfThree(bytes[0], bytes[1], bytes[2], false);
      GroupSizes(bytes[0], bytes[1], bytes[2]);
    }
  }

  lemma SextetCharRoundTrip(c: char)
    requires SextetOf(c).Some?
    ensures 0 <= SextetOf(c).value < 64 && CharOf(SextetOf(c).value) == c
  {
  }

  lemma SextetsBack(a: int, b: int, c: int, d: int)
    requires 0 <= a < 64 && 0 <= b < 64 && 0 <= c < 64 && 0 <= d < 64
    ensures var x, y, z := a * 4 + b / 16, b % 16 * 16 + c / 4, c % 4 * 64 + d;
            && x < 256 && y < 256 && z < 256
            && x / 4 == a && x % 4 * 16 + y / 16 == b && y % 16 * 4 + z / 64 == c && z % 64 == d
  {
  }

  /** A group that decodes is the group its bytes encode to, and gives fewer than three bytes only in last place. */
  lemma GroupBack(g: string, last: bool)
    requires |g| == 4 && DecodeGroup(g, last).Some?
    ensures var bytes := DecodeGroup(g, last).value;
            && 1 <= |bytes| <= 3 && (|bytes| < 3 ==> last)
            && g == if |bytes| == 1 then Group1(bytes[0])
                    else if |bytes| == 2 then Group2(bytes[0], bytes[1])
                    else Group3(bytes[0], bytes[1], bytes[2])
  {
    var a, b, c, d := SextetOf(g[0]), SextetOf(g[1]), SextetOf(g[2]), SextetOf(g[3]);
    SextetCharRoundTrip(g[0]);
    SextetCharRoundTrip(g[1]);
    if c.Some? {
      SextetCharRoundTrip(g[2]);
    }
    if d.Some? {
      SextetCharRoundTrip(g[3]);
    }
    hide SextetOf, CharOf;
    SextetsBack(a.value, b.value, if c.Some? then c.value else 0, if d.Some? then d.value else 0);
  }

  /** Decoding is strict: a text that decodes is the one encoding of its bytes. */
  lemma {:induction false} DecodeRoundTrip(s: string)
    requires Decode(s).Some?
    ensures Encode(Decode(s).value) == s
  {
    hide DecodeGroup, Group1, Group2, Group3;
    if s != [] {
      var head, tail := DecodeGroup(s[..4], |s| == 4), Decode(s[4..]);
      GroupBack(s[..4], |s| == 4);
      DecodeRoundTrip(s[4..]);
      var bytes := head.value + tail.value;
      assert s == s[..4] + s[4..];
      if |head.value| == 3 {
        assert bytes[3..] == tail.value;
      } else {
        assert s[4..] == [] && bytes == head.value;
      }
    }
  }
}
