/** Signed session tokens and salted password hashes: what a minted token or a stored hash verifies against.
    The MAC and the password digest are parameters.
  */
module SessionToken {
  import opened Prelude
  import opened Text
  import opened Base64Url

  type Mac = (string, string) -> seq<Byte>
  type Digest = (string, seq<Byte>) -> seq<Byte>

  // ---------------------------------------------------------------- payload

  function ByteOf(c: char): Byte {
    c as int % 256
  }

  /** The bytes of a text; used on ASCII text only, where one character is one byte. */
  function Ascii(s: string): seq<Byte> {
    seq(|s|, i requires 0 <= i < |s| => ByteOf(s[i]))
  }

  /** Decoded payload bytes as text; a byte outside ASCII makes the payload unreadable. */
  function FromAscii(bytes: seq<Byte>): Option<string> {
    if exists i :: 0 <= i < |bytes| && bytes[i] >= 128 then None
    else Some(seq(|bytes|, i requires 0 <= i < |bytes| => bytes[i] as char))
  }

  /** Only bytes below 128 are text, each as its character. */
  lemma FromAsciiIs(bytes: seq<Byte>)
    ensures FromAscii(bytes) == None <==> exists i :: 0 <= i < |bytes| && bytes[i] > 127
    ensures FromAscii(bytes).Some? ==>
              |FromAscii(bytes).value| == |bytes| &&
              forall i :: 0 <= i < |bytes| ==> FromAscii(bytes).value[i] as int == bytes[i]
  {
  }

  lemma AsciiRoundTrip(s: string)
    requires forall c :: c in s ==> c as int < 128
    ensures FromAscii(Ascii(s)) == Some(s)
  {
    var bytes := Ascii(s);
    forall i | 0 <= i < |s| ensures bytes[i] < 128 && bytes[i] as char == s[i] {
      assert s[i] in s;
    }
    assert seq(|bytes|, i requires 0 <= i < |bytes| => bytes[i] as char) == s;
  }

  const EXP := "{\"exp\":"
  const EP := ",\"ep\":"

  /** The compact JSON object with the expiry and the epoch. */
  function PayloadText(exp: int, epoch: int): string {
    EXP + IntText(exp) + EP + IntText(epoch) + "}"
  }

  /** Read a payload of that form back; a payload without an epoch, as older tokens carry, has epoch 0. */
  function ReadPayload(s: string): Option<(int, int)> {
    if !(EXP <= s) || s[|s| - 1] != '}' then None
    else
      var parts := Split(s[|EXP|..|s| - 1], ',');
      if |parts| == 1 then
        var exp := TextInt(parts[0]);
        if exp.None? then None else Some((exp.value, 0))
      else if |parts| != 2 || !(EP[1..] <= parts[1]) then None
      else
        var exp, epoch := TextInt(parts[0]), TextInt(parts[1][|EP| - 1..]);
        if exp.None? || epoch.None? then None else Some((exp.value, epoch.value))
  }

  /** The payload is the JSON object without spaces that has the expiry and then the epoch. */
  lemma PayloadTextIs(exp: int, epoch: int)
    ensures PayloadText(exp, epoch) == "{\"exp\":" + IntText(exp) + ",\"ep\":" + IntText(epoch) + "}"
  {
  }

  lemma PayloadRoundTrip(exp: int, epoch: int)
    ensures ReadPayload(PayloadText(exp, epoch)) == Some((exp, epoch))
    ensures forall c :: c in PayloadText(exp, epoch) ==> c as int < 128
  {
    hide IntText, TextInt, Split;
    var s := PayloadText(exp, epoch);
    var a, b := IntText(exp), IntText(epoch);
    IntRoundTrip(exp);
    IntRoundTrip(epoch);
    var second := EP[1..] + b;
    assert s[|EXP|..|s| - 1] == a + [','] + second;
    SplitAcross(a, second, ',');
    assert ',' !in a && ',' !in second;
    SplitWithout(a, ',');
    SplitWithout(second, ',');
    assert second[|EP| - 1..] == b;
  }

  /** The payload of tokens from before there was an epoch. */
  function OldPayloadText(exp: int): string {
    EXP + IntText(exp) + "}"
  }

  /** Such payloads read as epoch 0. */
  lemma OldPayload(exp: int)
    ensures ReadPayload(OldPayloadText(exp)) == Some((exp, 0))
    ensures OldPayloadText(exp) != [] && forall c :: c in OldPayloadText(exp) ==> c as int < 128
  {
    hide IntText, TextInt, Split;
    var s := OldPayloadText(exp);
    IntRoundTrip(exp);
    assert s[|EXP|..|s| - 1] == IntText(exp);
    SplitWithout(IntText(exp), ',');
  }

  // ---------------------------------------------------------------- tokens

  function Sign(mac: Mac, key: string, body: string): string {
    Encode(mac(key, body))
  }

  function Mint(mac: Mac, key: string, exp: int, epoch: int): string {
    Signed(mac, key, PayloadText(exp, epoch))
  }

  /** The text around the last dot. */
  function AroundLastDot(s: string): Option<(string, string)> {
    if s == [] then None
    else if s[|s| - 1] == '.' then Some((s[..|s| - 1], []))
    else
      var r := AroundLastDot(s[..|s| - 1]);
      if r.None? then None else Some((r.value.0, r.value.1 + [s[|s| - 1]]))
  }

  predicate Verify(mac: Mac, token: string, key: string, epoch: int, now: real) {
    var parts := AroundLastDot(token);
    parts.Some? && parts.value.0 != [] && Sign(mac, key, parts.value.0) == parts.value.1 &&
    var bytes := Decode(parts.value.0);
    bytes.Some? &&
    var text := FromAscii(bytes.value);
    text.Some? &&
    var payload := ReadPayload(text.value);
    payload.Some? && payload.value.1 == epoch && payload.value.0 as real > now
  }

  lemma {:induction false} LastDot(a: string, b: string)
    requires '.' !in b
    ensures AroundLastDot(a + "." + b) == Some((a, b))
  {
    var s := a + "." + b;
    var front := s[..|s| - 1];
    if b == [] {
      assert front == a;
    } else {
      var m := |b| - 1;
      LastDot(a, b[..m]);
      assert front == a + "." + b[..m];
      assert s[|s| - 1] == b[m] && b == b[..m] + [b[m]];
      assert b[m] in b;
    }
  }

  lemma NoDotInside(bytes: seq<Byte>)
    ensures '.' !in Encode(bytes) && '$' !in Encode(bytes)
  {
    EncodedAlphabet(bytes);
    assert !InAlphabet('.') && !InAlphabet('$');
  }

  /** A payload text, signed. */
  function Signed(mac: Mac, key: string, text: string): string {
    var body := Encode(Ascii(text));
    body + "." + Sign(mac, key, body)
  }

  /** A signed readable payload verifies under a key, an epoch and a time exactly when that key signs its body the same
      way, the epoch is the payload's, and the time is before its expiry. */
  lemma SignedVerify(mac: Mac, key: string, text: string, exp: int, epoch: int, otherKey: string, otherEpoch: int,
                     now: real)
    requires text != [] && ReadPayload(text) == Some((exp, epoch)) && forall c :: c in text ==> c as int < 128
    ensures var body := Encode(Ascii(text));
            Verify(mac, Signed(mac, key, text), otherKey, otherEpoch, now) <==>
              Sign(mac, otherKey, body) == Sign(mac, key, body) && otherEpoch == epoch && now < exp as real
  {
    hide Encode, Decode, ReadPayload, FromAscii, Ascii, AroundLastDot;
    var body := Encode(Ascii(text));
    AsciiLength(text);
    EncodedAlphabet(Ascii(text));
    RoundTrip(Ascii(text));
    AsciiRoundTrip(text);
    NoDotInside(mac(key, body));
    LastDot(body, Sign(mac, key, body));
  }

  /** A minted token verifies under a key, an epoch and a time exactly when that key signs its body the same way, the
      epoch is the minted one, and the time is before the expiry. */
  lemma MintVerify(mac: Mac, key: string, exp: int, epoch: int, otherKey: string, otherEpoch: int, now: real)
    ensures var body := Encode(Ascii(PayloadText(exp, epoch)));
            Verify(mac, Mint(mac, key, exp, epoch), otherKey, otherEpoch, now) <==>
              Sign(mac, otherKey, body) == Sign(mac, key, body) && otherEpoch == epoch && now < exp as real
  {
    hide Verify, Encode, ReadPayload, Ascii, PayloadText;
    PayloadRoundTrip(exp, epoch);
    PayloadNotEmpty(exp, epoch);
    SignedVerify(mac, key, PayloadText(exp, epoch), exp, epoch, otherKey, otherEpoch, now);
  }

  /** A token from before there was an epoch verifies at epoch 0 and no other. */
  lemma OldTokenVerify(mac: Mac, key: string, exp: int, epoch: int, now: real)
    ensures Verify(mac, Signed(mac, key, OldPayloadText(exp)), key, epoch, now) <==> epoch == 0 && now < exp as real
  {
    OldPayload(exp);
    hide Verify, Encode, ReadPayload, Ascii, OldPayloadText;
    SignedVerify(mac, key, OldPayloadText(exp), exp, 0, key, epoch, now);
  }

  lemma PayloadNotEmpty(exp: int, epoch: int)
    ensures PayloadText(exp, epoch) != []
  {
    hide IntText;
  }

  lemma AsciiLength(s: string)
    ensures |Ascii(s)| == |s|
  {
  }

  // ---------------------------------------------------------------- epochs over a run

  datatype AuthEvent = LoggedIn(exp: int) | PasswordChanged

  /** The session epoch after some events. */
  function EpochAfter(start: int, events: seq<AuthEvent>): int {
    if events == [] then start
    else EpochAfter(start, events[..|events| - 1]) + (if events[|events| - 1].PasswordChanged? then 1 else 0)
  }

  lemma {:induction false} EpochGrows(start: int, events: seq<AuthEvent>, i: nat, j: nat)
    requires i <= j <= |events|
    ensures EpochAfter(start, events[..i]) <= EpochAfter(start, events[..j])
    ensures (exists k :: i <= k < j && events[k].PasswordChanged?) ==>
              EpochAfter(start, events[..i]) < EpochAfter(start, events[..j])
    decreases j
  {
    if i < j {
      EpochGrows(start, events, i, j - 1);
      assert events[..j][..j - 1] == events[..j - 1];
    }
  }

  /** A token minted at login `i` verifies later, with the same key, exactly until the first password change or its
      expiry; a change revokes every earlier token for good. */
  lemma TokensDieWithTheEpoch(mac: Mac, key: string, start: int, events: seq<AuthEvent>, i: nat, j: nat, now: real)
    requires i < j <= |events| && events[i].LoggedIn?
    ensures var token := Mint(mac, key, events[i].exp, EpochAfter(start, events[..i]));
            Verify(mac, token, key, EpochAfter(start, events[..j]), now) <==>
              now < events[i].exp as real && forall k :: i <= k < j ==> !events[k].PasswordChanged?
  {
    hide Verify, Mint, EpochAfter;
    MintVerify(mac, key, events[i].exp, EpochAfter(start, events[..i]), key, EpochAfter(start, events[..j]), now);
    EpochGrows(start, events, i, j);
    if forall k :: i <= k < j ==> !events[k].PasswordChanged? {
      EpochSame(start, events, i, j);
    }
  }

  lemma {:induction false} EpochSame(start: int, events: seq<AuthEvent>, i: nat, j: nat)
    requires i <= j <= |events| && forall k :: i <= k < j ==> !events[k].PasswordChanged?
    ensures EpochAfter(start, events[..i]) == EpochAfter(start, events[..j])
    decreases j
  {
    if i < j {
      EpochSame(start, events, i, j - 1);
      assert events[..j][..j - 1] == events[..j - 1];
    }
  }

  // ---------------------------------------------------------------- passwords

  const SCHEME := "scrypt"

  function HashPassword(digest: Digest, password: string, salt: seq<Byte>): string {
    SCHEME + "$" + Encode(salt) + "$" + Encode(digest(password, salt))
  }

  /** Split at the first dollar sign. */
  function AroundDollar(s: string): Option<(string, string)> {
    if s == [] then None
    else if s[0] == '$' then Some(([], s[1..]))
    else
      var r := AroundDollar(s[1..]);
      if r.None? then None else Some(([s[0]] + r.value.0, r.value.1))
  }

  predicate VerifyPassword(digest: Digest, password: string, stored: string) {
    var first := AroundDollar(stored);
    first.Some? &&
    var second := AroundDollar(first.value.1);
    second.Some? && first.value.0 == SCHEME &&
    var salt, expected := Decode(second.value.0), Decode(second.value.1);
    salt.Some? && expected.Some? && digest(password, salt.value) == expected.value
  }

  lemma {:induction false} AroundDollarIs(s: string)
    ensures AroundDollar(s).Some? ==> s == AroundDollar(s).value.0 + "$" + AroundDollar(s).value.1
  {
    if s != [] && s[0] != '$' {
      AroundDollarIs(s[1..]);
      if AroundDollar(s[1..]).Some? {
        var r := AroundDollar(s[1..]).value;
        assert s == [s[0]] + (r.0 + "$" + r.1);
      }
    }
  }

  /** A stored text that does not name the scheme verifies no password. */
  lemma OtherSchemesFail(digest: Digest, password: string, stored: string)
    requires !("scrypt$" <= stored)
    ensures !VerifyPassword(digest, password, stored)
  {
    hide Decode;
    AroundDollarIs(stored);
    forall rest: string ensures "scrypt$" <= SCHEME + "$" + rest {
      assert SCHEME + "$" == "scrypt$";
    }
  }

  lemma {:induction false} FirstDollar(a: string, b: string)
    requires '$' !in a
    ensures AroundDollar(a + "$" + b) == Some((a, b))
  {
    var s := a + "$" + b;
    if a == [] {
      assert s[1..] == b;
    } else {
      FirstDollar(a[1..], b);
      assert s[0] == a[0] && s[1..] == a[1..] + "$" + b;
      assert a[0] in a && [a[0]] + a[1..] == a;
    }
  }

  /** A stored hash accepts a password exactly when it has the digest of the original one under the stored salt;
      in particular the original. */
  lemma HashVerify(digest: Digest, password: string, salt: seq<Byte>, attempt: string)
    ensures VerifyPassword(digest, attempt, HashPassword(digest, password, salt)) <==>
              digest(attempt, salt) == digest(password, salt)
  {
    hide Encode, Decode, AroundDollar;
    var a, b := Encode(salt), Encode(digest(password, salt));
    NoDotInside(salt);
    RoundTrip(salt);
    RoundTrip(digest(password, salt));
    FirstDollar(SCHEME, a + "$" + b);
    assert HashPassword(digest, password, salt) == SCHEME + "$" + (a + "$" + b);
    FirstDollar(a, b);
  }
}
