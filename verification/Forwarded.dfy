/** The rate-limit key of a request behind trusted proxies. `trusted` says whether an address is in a trusted
    network; addresses that do not parse are in none.
  */
module Forwarded {
  import opened Prelude
  import opened Text

  /** The hops of a header: comma-separated, stripped, blanks dropped. */
  function NonBlankHops(parts: seq<string>): seq<string> {
    if parts == [] then []
    else HopOf(parts[0]) + NonBlankHops(parts[1..])
  }

  function HopOf(part: string): seq<string> {
    if Strip(part) == [] then [] else [Strip(part)]
  }

  function Hops(header: string): seq<string> {
    NonBlankHops(Split(header, ','))
  }

  /** The last untrusted hop, if there is one. */
  function LastUntrusted(hops: seq<string>, trusted: string -> bool): Option<string> {
    if hops == [] then None
    else if !trusted(hops[|hops| - 1]) then Some(hops[|hops| - 1])
    else LastUntrusted(hops[..|hops| - 1], trusted)
  }

  function KeyOf(peer: string, header: string, hasNetworks: bool, trusted: string -> bool): string {
    if !hasNetworks || !trusted(peer) then peer
    else
      var hop := LastUntrusted(Hops(header), trusted);
      if hop.Some? then hop.value else peer
  }

  lemma {:induction false} NonBlankConcat(a: seq<string>, b: seq<string>)
    ensures NonBlankHops(a + b) == NonBlankHops(a) + NonBlankHops(b)
  {
    hide HopOf;
    if a == [] {
      assert a + b == b;
    } else {
      NonBlankConcat(a[1..], b);
      assert (a + b)[0] == a[0] && (a + b)[1..] == a[1..] + b;
      var rest := a[1..];
      assert NonBlankHops(a + b) == HopOf(a[0]) + NonBlankHops(rest + b);
      assert NonBlankHops(a) == HopOf(a[0]) + NonBlankHops(rest);
      hide NonBlankHops;
      assert HopOf(a[0]) + (NonBlankHops(rest) + NonBlankHops(b))
          == (HopOf(a[0]) + NonBlankHops(rest)) + NonBlankHops(b);
    }
  }

  lemma {:induction false} LastUntrustedConcat(a: seq<string>, b: seq<string>, trusted: string -> bool)
    ensures LastUntrusted(a + b, trusted) ==
            if LastUntrusted(b, trusted).Some? then LastUntrusted(b, trusted) else LastUntrusted(a, trusted)
  {
    if b == [] {
      assert a + b == a;
    } else {
      var m := |b| - 1;
      LastUntrustedConcat(a, b[..m], trusted);
      assert (a + b)[..|a + b| - 1] == a + b[..m];
    }
  }

  /** The last untrusted hop is that of the last foreign part. */
  lemma {:induction false} LastForeignHop(parts: seq<string>, trusted: string -> bool) returns (i: int)
    ensures -1 <= i < |parts| && NoneForeign(parts, i + 1, trusted)
    ensures LastUntrusted(NonBlankHops(parts), trusted) == if i < 0 then None else Some(Strip(parts[i]))
    ensures i >= 0 ==> Foreign(parts[i], trusted)
  {
    if parts == [] {
      i := -1;
    } else {
      var rest := parts[1..];
      var k := LastForeignHop(rest, trusted);
      LastUntrustedConcat(HopOf(parts[0]), NonBlankHops(rest), trusted);
      FirstHop(parts[0], trusted);
      i := if k >= 0 then k + 1 else if Foreign(parts[0], trusted) then 0 else -1;
      NoneForeignBefore(parts, k, trusted);
      hide *;
    }
    NoHops(trusted);
  }

  lemma NoneForeignBefore(parts: seq<string>, k: int, trusted: string -> bool)
    requires parts != [] && -1 <= k && NoneForeign(parts[1..], k + 1, trusted)
    ensures NoneForeign(parts, k + 2, trusted)
    ensures k == -1 && !Foreign(parts[0], trusted) ==> NoneForeign(parts, 0, trusted)
  {
    hide Foreign;
    forall j | k + 2 <= j < |parts| ensures !Foreign(parts[j], trusted) {
      assert parts[1..][j - 1] == parts[j];
    }
  }

  lemma NoHops(trusted: string -> bool)
    ensures NonBlankHops([]) == [] && LastUntrusted([], trusted) == None && NoneForeign([], 0, trusted)
  {
  }

  lemma FirstHop(part: string, trusted: string -> bool)
    ensures LastUntrusted(HopOf(part), trusted) == if Foreign(part, trusted) then Some(Strip(part)) else None
  {
    hide Strip;
    assert [Strip(part)][..0] == [];
  }

  /** A part of the header that names an untrusted address. */
  predicate Foreign(part: string, trusted: string -> bool) {
    Strip(part) != [] && !trusted(Strip(part))
  }

  /** No part from `from` on is foreign. */
  predicate NoneForeign(parts: seq<string>, from: nat, trusted: string -> bool) {
    forall j :: from <= j < |parts| ==> !Foreign(parts[j], trusted)
  }

  /** Walk the hops from the right. Without networks or a trusted peer the peer is the key, whatever the header says.
      Otherwise it is the last part of the header, split at commas and stripped, that is not blank and not trusted; and
      the peer exactly when there is none. */
  method ClientKey(peer: string, header: string, hasNetworks: bool, trusted: string -> bool) returns (key: string)
    ensures key == KeyOf(peer, header, hasNetworks, trusted)
    ensures !hasNetworks || !trusted(peer) ==> key == peer
    ensures hasNetworks && trusted(peer) ==>
              (key == peer <==> NoneForeign(Split(header, ','), 0, trusted))
    ensures hasNetworks && trusted(peer) && key != peer ==>
              var parts := Split(header, ',');
              exists i :: 0 <= i < |parts| && NoneForeign(parts, i + 1, trusted) && key == Strip(parts[i]) && key != []
    ensures hasNetworks && trusted(peer) && key != peer ==> !trusted(key)
  {
    hide Hops, Strip, Split, NonBlankHops, NoneForeign;
    if !hasNetworks || !trusted(peer) {
      return peer;
    }
    ghost var last := KeyAmongParts(header, trusted);
    var hops := Hops(header);
    assert hops[..|hops|] == hops;
    var i := |hops|;
    while i > 0
      invariant 0 <= i <= |hops|
      invariant LastUntrusted(hops, trusted) == LastUntrusted(hops[..i], trusted)
    {
      i := i - 1;
      assert hops[..i + 1][..i] == hops[..i];
      if !trusted(hops[i]) {
        return hops[i];
      }
    }
    key := peer;
  }

  lemma KeyAmongParts(header: string, trusted: string -> bool) returns (i: int)
    ensures var parts := Split(header, ',');
            && -1 <= i < |parts| && NoneForeign(parts, i + 1, trusted)
            && LastUntrusted(Hops(header), trusted) == (if i < 0 then None else Some(Strip(parts[i])))
            && (i >= 0 ==> Strip(parts[i]) != [] && !trusted(Strip(parts[i])) && !NoneForeign(parts, 0, trusted))
  {
    i := LastForeignHop(Split(header, ','), trusted);
    hide Strip, Split, LastUntrusted, NonBlankHops;
  }

  /** Text put in front of the header, with a comma, matters only if every hop of the header itself is trusted: then
      the key is what the front text alone would give. */
  lemma FrontMattersOnlyIfAllTrusted(peer: string, front: string, header: string, hasNetworks: bool,
                                     trusted: string -> bool)
    ensures KeyOf(peer, front + "," + header, hasNetworks, trusted) ==
            if LastUntrusted(Hops(header), trusted).Some? then KeyOf(peer, header, hasNetworks, trusted)
            else KeyOf(peer, front, hasNetworks, trusted)
  {
    hide Strip, Split;
    SplitAcross(front, header, ',');
    NonBlankConcat(Split(front, ','), Split(header, ','));
    LastUntrustedConcat(Hops(front), Hops(header), trusted);
  }

  /** The key found in the header is its rightmost untrusted hop: every hop after it is trusted. */
  lemma {:induction false} KeyIsRightmostUntrusted(hops: seq<string>, trusted: string -> bool)
    ensures LastUntrusted(hops, trusted).Some? <==> exists i :: 0 <= i < |hops| && !trusted(hops[i])
    ensures LastUntrusted(hops, trusted).Some? ==>
              exists i :: 0 <= i < |hops| && hops[i] == LastUntrusted(hops, trusted).value && !trusted(hops[i]) &&
                forall j :: i < j < |hops| ==> trusted(hops[j])
  {
    if hops != [] {
      var n := |hops| - 1;
      if trusted(hops[n]) {
        KeyIsRightmostUntrusted(hops[..n], trusted);
        if LastUntrusted(hops[..n], trusted).Some? {
          var i :| 0 <= i < n && hops[..n][i] == LastUntrusted(hops[..n], trusted).value && !trusted(hops[..n][i]) &&
                   forall j :: i < j < n ==> trusted(hops[..n][j]);
          assert hops[i] == hops[..n][i];
          forall j | i < j < |hops| ensures trusted(hops[j]) {
            if j < n {
              assert hops[..n][j] == hops[j];
            }
          }
        }
        forall i | 0 <= i < |hops| && !trusted(hops[i]) ensures LastUntrusted(hops, trusted).Some? {
          assert hops[..n][i] == hops[i];
        }
      }
    }
  }
}
