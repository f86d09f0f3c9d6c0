/** Streamed CSV export: pages fetched by offset until the cap, encoded row by row. */
module Export {
  import opened Prelude

  const EXPORT_CHUNK_SIZE := 2000
  const EXPORT_ROW_CAP := 100000

  /** Non-positive limits mean the default; others are capped. */
  function ClampLimit(limit: int, default: int, max: int): int {
    if limit <= 0 then default else if limit <= max then limit else max
  }

  function ClampOffset(offset: int): nat {
    if offset <= 0 then 0 else offset
  }

  function Min(a: int, b: int): int {
    if a <= b then a else b
  }

  /** The rows of an ordered result between an offset and a limit. */
  function Page<T>(rows: seq<T>, limit: nat, offset: nat): seq<T> {
    if offset >= |rows| then [] else rows[offset..Min(offset + limit, |rows|)]
  }

  /** One query: `ordered` is the full result in the order the database produces it for this call. */
  function Query<T>(ordered: seq<T>, limit: int, offset: int, default: nat, max: nat): seq<T> {
    var l := ClampLimit(limit, default, max);
    Page(ordered, if l < 0 then 0 else l, ClampOffset(offset))
  }

  /** Everything the chunk loop yields from call number `call` on, `yielded` rows being out already. */
  function ChunksFrom<T>(results: nat -> seq<T>, call: nat, yielded: nat, cap: nat, chunk: nat, default: nat,
                         max: nat): seq<T>
    requires chunk > 0
    decreases cap - yielded
  {
    if yielded >= cap then []
    else
      var limit := Min(chunk, cap - yielded);
      var rows := Query(results(call), limit, yielded, default, max);
      if |rows| < limit then rows
      else rows + ChunksFrom(results, call + 1, yielded + |rows|, cap, chunk, default, max)
  }

  /** One turn of the loop: the last page when it is short, else this page and the rest. */
  lemma NextChunk<T>(results: nat -> seq<T>, call: nat, yielded: nat, cap: nat, chunk: nat, default: nat, max: nat)
    requires chunk > 0 && yielded < cap
    ensures var limit := Min(chunk, cap - yielded);
            var rows := Query(results(call), limit, yielded, default, max);
            ChunksFrom(results, call, yielded, cap, chunk, default, max) ==
            if |rows| < limit then rows
            else rows + ChunksFrom(results, call + 1, yielded + |rows|, cap, chunk, default, max)
  {
    hide Query;
  }

  /** The chunk loop. Call `i` sees the result `results(i)`. */
  method IterQueryChunks<T>(results: nat -> seq<T>, cap: nat, chunk: nat, default: nat, max: nat) returns (out: seq<T>)
    requires chunk > 0
    ensures out == ChunksFrom(results, 0, 0, cap, chunk, default, max)
  {
    hide Query, ChunksFrom;
    out := [];
    var yielded, offset, call := 0, 0, 0;
    while yielded < cap
      invariant yielded == offset == |out|
      invariant out + ChunksFrom(results, call, yielded, cap, chunk, default, max)
             == ChunksFrom(results, 0, 0, cap, chunk, default, max)
      decreases cap - yielded
    {
      var limit := Min(chunk, cap - yielded);
      var rows := Query(results(call), limit, offset, default, max);
      NextChunk(results, call, yielded, cap, chunk, default, max);
      out := out + rows;
      yielded := yielded + |rows|;
      if |rows| < limit {
        return;
      }
      offset := offset + |rows|;
      call := call + 1;
    }
    AtCap(results, call, yielded, cap, chunk, default, max);
  }

  lemma AtCap<T>(results: nat -> seq<T>, call: nat, yielded: nat, cap: nat, chunk: nat, default: nat, max: nat)
    requires chunk > 0 && yielded >= cap
    ensures ChunksFrom(results, call, yielded, cap, chunk, default, max) == []
  {
  }

  // ---------------------------------------------------------------- one stable order

  lemma QueryPage<T>(rows: seq<T>, limit: int, offset: nat, default: nat, max: nat)
    requires 0 < limit <= max && offset <= |rows|
    ensures Query(rows, limit, offset, default, max) == rows[offset..Min(offset + limit, |rows|)]
  {
  }

  lemma {:induction false} StableChunks<T>(results: nat -> seq<T>, rows: seq<T>, call: nat, yielded: nat, cap: nat,
                                           chunk: nat, default: nat, max: nat)
    requires chunk > 0 && yielded <= |rows| && (forall i: nat :: results(i) == rows)
    requires Min(chunk, cap) <= max
    ensures ChunksFrom(results, call, yielded, cap, chunk, default, max) ==
            if yielded >= cap then [] else rows[yielded..Min(cap, |rows|)]
    decreases cap - yielded
  {
    hide Query;
    if yielded < cap {
      var limit := Min(chunk, cap - yielded);
      var end := Min(yielded + limit, |rows|);
      QueryPage(rows, limit, yielded, default, max);
      if yielded + limit <= |rows| {
        StableChunks(results, rows, call + 1, end, cap, chunk, default, max);
        if end < cap {
          assert rows[yielded..end] + rows[end..Min(cap, |rows|)] == rows[yielded..Min(cap, |rows|)];
        } else {
          assert rows[yielded..end] + [] == rows[yielded..Min(cap, |rows|)];
        }
      }
    }
  }

  /** Over one stable result the loop yields the first `cap` rows, without gap or repeat, exactly when no page is cut
      by the query's own limit: the chunk, the cap or the whole result fits it. */
  lemma ExportIffWithinClamp<T>(results: nat -> seq<T>, rows: seq<T>, cap: nat, chunk: nat, default: nat, max: nat)
    requires chunk > 0 && (forall i: nat :: results(i) == rows)
    ensures ChunksFrom(results, 0, 0, cap, chunk, default, max) == rows[..Min(cap, |rows|)]
       <==> chunk <= max || cap <= max || |rows| <= max
  {
    if Min(chunk, cap) <= max {
      StableChunks(results, rows, 0, 0, cap, chunk, default, max);
    } else {
      assert ChunksFrom(results, 0, 0, cap, chunk, default, max) == rows[..Min(max, |rows|)];
    }
  }

  // ---------------------------------------------------------------- orders

  /** `s` is a result in an order allowed by the sort keys; rows with equal keys may come in any order. */
  ghost predicate Arrangement<T(!new)>(s: seq<T>, rows: multiset<T>, before: (T, T) -> bool) {
    multiset(s) == rows && forall i, j :: 0 <= i < j < |s| ==> !before(s[j], s[i])
  }

  /** The sort keys separate all rows. */
  ghost predicate Separates<T(!new)>(rows: multiset<T>, before: (T, T) -> bool) {
    (forall x :: rows[x] <= 1) &&
    (forall x, y :: x in rows && y in rows && x != y ==> before(x, y) != before(y, x))
  }

  lemma {:induction false} OneArrangement<T(!new)>(s: seq<T>, t: seq<T>, rows: multiset<T>, before: (T, T) -> bool)
    requires Arrangement(s, rows, before) && Arrangement(t, rows, before) && Separates(rows, before)
    ensures s == t
    decreases |s|
  {
    SameLength(s, rows, before);
    SameLength(t, rows, before);
    hide Arrangement, Separates;
    if s != [] {
      FirstIsLeast(s, rows, before);
      FirstIsLeast(t, rows, before);
      assert s[0] == t[0];
      TailArrangement(s, rows, before);
      TailArrangement(t, rows, before);
      FewerSeparates(rows, s[0], before);
      OneArrangement(s[1..], t[1..], rows - multiset{s[0]}, before);
      assert s == [s[0]] + s[1..] && t == [t[0]] + t[1..];
    }
  }

  lemma SameLength<T(!new)>(s: seq<T>, rows: multiset<T>, before: (T, T) -> bool)
    requires Arrangement(s, rows, before)
    ensures |s| == |rows|
  {
  }

  lemma FewerSeparates<T(!new)>(rows: multiset<T>, x: T, before: (T, T) -> bool)
    requires Separates(rows, before)
    ensures Separates(rows - multiset{x}, before)
  {
  }

  lemma FirstIsLeast<T(!new)>(s: seq<T>, rows: multiset<T>, before: (T, T) -> bool)
    requires Arrangement(s, rows, before) && Separates(rows, before) && s != []
    ensures s[0] in rows && forall x :: x in rows && x != s[0] ==> before(s[0], x) && !before(x, s[0])
  {
    assert s[0] in multiset(s);
    forall x | x in rows && x != s[0] ensures before(s[0], x) && !before(x, s[0]) {
      assert x in multiset(s);
      assert x in s;
      var i :| 0 <= i < |s| && s[i] == x;
    }
  }

  lemma TailArrangement<T(!new)>(s: seq<T>, rows: multiset<T>, before: (T, T) -> bool)
    requires Arrangement(s, rows, before) && s != []
    ensures Arrangement(s[1..], rows - multiset{s[0]}, before)
  {
    assert s == [s[0]] + s[1..];
  }

  /** How many rows an export request can get. */
  function RowCap(limit: int, exportAll: bool): (cap: nat)
    ensures 0 < cap <= EXPORT_ROW_CAP
    ensures exportAll || limit <= 0 || limit > 100000 ==> cap == 100000
    ensures !exportAll && 1 <= limit <= 100000 ==> cap == limit
  {
    if exportAll then EXPORT_ROW_CAP else ClampLimit(limit, EXPORT_ROW_CAP, EXPORT_ROW_CAP)
  }

  /** When the sort keys separate all rows, every query call of a request sees the one order there is, and the export is
      the front of it, as long as the request's cap. */
  lemma SeparatedExport<T(!new)>(results: nat -> seq<T>, rows: multiset<T>, before: (T, T) -> bool, limit: int,
                                 exportAll: bool, default: nat, max: nat)
    requires forall i: nat :: Arrangement(results(i), rows, before)
    requires Separates(rows, before) && 2000 <= max
    ensures var cap := RowCap(limit, exportAll);
            var out := ChunksFrom(results, 0, 0, cap, EXPORT_CHUNK_SIZE, default, max);
            && |out| == Min(cap, |rows|)
            && forall a :: Arrangement(a, rows, before) ==> out <= a
  {
    var cap := RowCap(limit, exportAll);
    forall i: nat ensures results(i) == results(0) {
      OneArrangement(results(i), results(0), rows, before);
    }
    SameLength(results(0), rows, before);
    ExportIffWithinClamp(results, results(0), cap, EXPORT_CHUNK_SIZE, default, max);
    hide ChunksFrom, Arrangement, Separates;
    forall a | Arrangement(a, rows, before)
      ensures ChunksFrom(results, 0, 0, cap, EXPORT_CHUNK_SIZE, default, max) <= a
    {
      OneArrangement(results(0), a, rows, before);
    }
  }

  // ---------------------------------------------------------------- ties

  /** A strict weak order: what sort keys give. */
  ghost predicate StrictWeak<T(!new)>(before: (T, T) -> bool) {
    (forall x, y :: before(x, y) ==> !before(y, x)) && (forall x, y, z :: before(x, z) ==> before(x, y) || before(y, z))
  }

  /** Every call sees the same rows, in some permitted order. */
  ghost predicate Family<T(!new)>(results: nat -> seq<T>, rows: multiset<T>, before: (T, T) -> bool) {
    forall i: nat :: Arrangement(results(i), rows, before)
  }

  ghost predicate NoRowTwice<T(!new)>(rows: multiset<T>) {
    forall x :: rows[x] <= 1
  }

  /** The export is the front of one permitted order. */
  ghost predicate OneOrder<T(!new)>(out: seq<T>, rows: multiset<T>, before: (T, T) -> bool) {
    exists a :: Arrangement(a, rows, before) && out <= a
  }

  /** The rows on both sides of every page boundary are told apart by the sort keys. */
  predicate BoundariesSeparate<T>(a: seq<T>, before: (T, T) -> bool, chunk: nat, stop: nat)
    requires chunk > 0 && stop <= |a|
  {
    forall m :: 0 < m < stop && m % chunk == 0 ==> before(a[m - 1], a[m])
  }

  ghost predicate SameLengths<T(!new)>(results: nat -> seq<T>, n: nat) {
    forall i: nat :: |results(i)| == n
  }

  /** `out` holds rows `from` to `stop`, each as the call of its page saw it. */
  ghost predicate RowsAt<T(!new)>(out: seq<T>, results: nat -> seq<T>, from: nat, stop: nat, chunk: nat, n: nat)
    requires chunk > 0 && stop <= n && SameLengths(results, n)
  {
    from + |out| == stop && forall q :: from <= q < stop ==> out[q - from] == results(q / chunk)[q]
  }

  lemma NoRowsAt<T(!new)>(results: nat -> seq<T>, from: nat, chunk: nat, n: nat)
    requires chunk > 0 && SameLengths(results, n) && from <= n
    ensures RowsAt([], results, from, from, chunk, n)
  {
  }

  lemma PageRows<T(!new)>(results: nat -> seq<T>, call: nat, from: nat, end: nat, chunk: nat, n: nat)
    requires chunk > 0 && SameLengths(results, n) && from == call * chunk && from <= end <= from + chunk && end <= n
    ensures RowsAt(results(call)[from..end], results, from, end, chunk, n)
  {
    forall q | from <= q < end ensures q / chunk == call {
      QuotientIs(q, call, chunk);
    }
  }

  lemma RowsJoin<T(!new)>(page: seq<T>, rest: seq<T>, results: nat -> seq<T>, from: nat, end: nat, stop: nat,
                          chunk: nat, n: nat)
    requires chunk > 0 && from <= end <= stop <= n && SameLengths(results, n)
    requires RowsAt(page, results, from, end, chunk, n) && RowsAt(rest, results, end, stop, chunk, n)
    ensures RowsAt(page + rest, results, from, stop, chunk, n)
  {
    forall q | from <= q < stop ensures (page + rest)[q - from] == results(q / chunk)[q] {
      if q < end {
        assert (page + rest)[q - from] == page[q - from];
      } else {
        assert (page + rest)[q - from] == rest[q - end];
      }
    }
  }

  /** Row `q` of the export is row `q` of the result that its page's call saw. */
  lemma {:induction false} ChunkAt<T(!new)>(results: nat -> seq<T>, n: nat, call: nat, yielded: nat, cap: nat,
                                            chunk: nat, default: nat, max: nat)
    requires 0 < chunk <= max && SameLengths(results, n) && yielded <= Min(cap, n)
    requires yielded == call * chunk || yielded == cap
    ensures RowsAt(ChunksFrom(results, call, yielded, cap, chunk, default, max), results, yielded, Min(cap, n), chunk,
                   n)
    decreases cap - yielded
  {
    hide Query, ChunksFrom, RowsAt;
    if yielded >= cap {
      AtCap(results, call, yielded, cap, chunk, default, max);
      NoRowsAt(results, yielded, chunk, n);
    } else {
      var limit := Min(chunk, cap - yielded);
      var end := Min(yielded + limit, n);
      var page := results(call)[yielded..end];
      NextChunk(results, call, yielded, cap, chunk, default, max);
      QueryPage(results(call), limit, yielded, default, max);
      PageRows(results, call, yielded, end, chunk, n);
      if yielded + limit <= n {
        NextPage(call, chunk);
        ChunkAt(results, n, call + 1, end, cap, chunk, default, max);
        RowsJoin(page, ChunksFrom(results, call + 1, end, cap, chunk, default, max), results, yielded, end, Min(cap, n),
                 chunk, n);
      }
    }
  }

  lemma NextPage(call: nat, chunk: nat)
    ensures (call + 1) * chunk == call * chunk + chunk
  {
  }

  lemma CountedTwice<T>(s: seq<T>, i: nat, j: nat)
    requires i < j < |s| && s[i] == s[j]
    ensures multiset(s)[s[i]] >= 2
  {
    assert s == s[..j] + [s[j]] + s[j + 1..];
    assert s[..j][i] in multiset(s[..j]);
  }

  lemma ArrangedDistinct<T(!new)>(s: seq<T>, rows: multiset<T>, before: (T, T) -> bool)
    requires Arrangement(s, rows, before) && NoRowTwice(rows)
    ensures forall i, j :: 0 <= i < j < |s| ==> s[i] != s[j]
    ensures forall x :: x in rows <==> x in s
  {
    forall i, j | 0 <= i < j < |s| ensures s[i] != s[j] {
      if s[i] == s[j] {
        CountedTwice(s, i, j);
      }
    }
    assert forall x :: x in multiset(s) <==> x in s;
  }

  /** As many rows as there are, none twice, are all of them. */
  lemma {:induction false} DistinctFill<T(!new)>(s: seq<T>, rows: multiset<T>)
    requires |s| == |rows| && NoRowTwice(rows) && forall x :: x in s ==> x in rows
    requires forall i, j :: 0 <= i < j < |s| ==> s[i] != s[j]
    ensures multiset(s) == rows
    decreases |s|
  {
    if s == [] {
      assert rows == multiset{};
    } else {
      var rest := rows - multiset{s[0]};
      assert s == [s[0]] + s[1..];
      assert forall i :: 0 < i < |s| ==> s[i] == s[1..][i - 1];
      forall x | x in s[1..] ensures x in rest {
        var i :| 0 <= i < |s| - 1 && s[1..][i] == x;
        assert s[i + 1] == x && s[i + 1] in s && x != s[0];
      }
      DistinctFill(s[1..], rest);
      assert rows == multiset{s[0]} + rest;
    }
  }

  /** Across a boundary without a tie the rows of one permitted order are strictly ordered. */
  lemma Across<T(!new)>(a: seq<T>, rows: multiset<T>, before: (T, T) -> bool, m: nat, i: nat, j: nat)
    requires StrictWeak(before) && Arrangement(a, rows, before)
    requires 0 < m < |a| && before(a[m - 1], a[m]) && i < m <= j < |a|
    ensures before(a[i], a[j])
  {
    assert i < m - 1 ==> !before(a[m - 1], a[i]);
    assert m < j ==> !before(a[j], a[m]);
    Between(before, a[m - 1], a[i], a[m]);
    Between(before, a[i], a[j], a[m]);
  }

  lemma Between<T(!new)>(before: (T, T) -> bool, x: T, y: T, z: T)
    requires StrictWeak(before) && before(x, z)
    ensures before(x, y) || before(y, z)
    ensures x != z && !before(z, x)
  {
  }

  lemma InFront<T>(a: seq<T>, m: nat)
    requires m <= |a|
    ensures forall x :: x in Elements(a[..m]) <==> exists p :: 0 <= p < m && a[p] == x
  {
    forall p | 0 <= p < m ensures a[p] in Elements(a[..m]) {
      assert a[..m][p] == a[p];
    }
  }

  lemma Earlier<T(!new)>(s: seq<T>, rows: multiset<T>, before: (T, T) -> bool, q: nat, i: nat)
    requires StrictWeak(before) && Arrangement(s, rows, before) && q < |s| && i < |s| && before(s[q], s[i])
    ensures q < i
  {
  }

  /** Every permitted order has the same rows in front of a boundary without a tie. */
  lemma SameFront<T(!new)>(a: seq<T>, s: seq<T>, rows: multiset<T>, before: (T, T) -> bool, m: nat)
    requires StrictWeak(before) && NoRowTwice(rows) && Arrangement(a, rows, before) && Arrangement(s, rows, before)
    requires 0 < m < |a| && before(a[m - 1], a[m])
    ensures |s| == |a| && Elements(s[..m]) == Elements(a[..m])
  {
    SameLength(a, rows, before);
    SameLength(s, rows, before);
    ArrangedDistinct(a, rows, before);
    ArrangedDistinct(s, rows, before);
    hide NoRowTwice;
    var front := Elements(a[..m]);
    DistinctElements(a[..m]);
    DistinctElements(s[..m]);
    forall i | 0 <= i < m ensures s[i] in front {
      if s[i] !in front {
        BackRowComesLate(a, s, rows, before, m, i);
      }
    }
    assert Elements(s[..m]) <= front;
    SubsetSize(Elements(s[..m]), front);
    assert |front - Elements(s[..m])| == 0;
  }

  /** A row from behind the boundary comes after all rows in front of it. */
  lemma BackRowComesLate<T(!new)>(a: seq<T>, s: seq<T>, rows: multiset<T>, before: (T, T) -> bool, m: nat, i: nat)
    requires StrictWeak(before) && NoRowTwice(rows) && Arrangement(a, rows, before) && Arrangement(s, rows, before)
    requires 0 < m < |a| == |s| && before(a[m - 1], a[m]) && i < |s| && s[i] !in Elements(a[..m])
    ensures i >= m
  {
    ArrangedDistinct(a, rows, before);
    ArrangedDistinct(s, rows, before);
    InFront(a, m);
    InFront(s, i);
    assert s[i] in a;
    var j :| 0 <= j < |a| && a[j] == s[i];
    forall x | x in Elements(a[..m]) ensures x in Elements(s[..i]) {
      var p :| 0 <= p < m && a[p] == x;
      Across(a, rows, before, m, p, j);
      assert a[p] in s;
      var q :| 0 <= q < |s| && s[q] == a[p];
      Earlier(s, rows, before, q, i);
    }
    DistinctElements(a[..m]);
    ElementsAtMost(s[..i]);
    SubsetSize(Elements(a[..m]), Elements(s[..i]));
  }

  /** Rows of two permitted orders on different sides of such a boundary are different and in order. */
  lemma AcrossOrders<T(!new)>(a: seq<T>, s: seq<T>, t: seq<T>, rows: multiset<T>, before: (T, T) -> bool, m: nat,
                              i: nat, j: nat)
    requires StrictWeak(before) && NoRowTwice(rows)
    requires Arrangement(a, rows, before) && Arrangement(s, rows, before) && Arrangement(t, rows, before)
    requires 0 < m < |a| && before(a[m - 1], a[m]) && i < m <= j < |a|
    ensures |s| == |t| == |a| && s[i] != t[j] && !before(t[j], s[i])
  {
    SameFront(a, s, rows, before, m);
    SameFront(a, t, rows, before, m);
    ArrangedDistinct(t, rows, before);
    ArrangedDistinct(a, rows, before);
    InFront(a, m);
    InFront(s, m);
    InFront(t, m);
    assert s[i] in Elements(a[..m]);
    var p :| 0 <= p < m && a[p] == s[i];
    assert t[j] !in Elements(t[..m]);
    assert t[j] in a;
    var q :| 0 <= q < |a| && a[q] == t[j];
    Across(a, rows, before, m, p, q);
    Between(before, a[p], a[p], a[q]);
  }

  // ---------------------------------------------------------------- exactly which ties do harm

  /** The pages of a family put together, the last one with all that comes after it. */
  ghost function Spliced<T(!new)>(results: nat -> seq<T>, n: nat, chunk: nat, stop: nat): seq<T>
    requires chunk > 0 && 0 < stop <= n && SameLengths(results, n)
  {
    seq(n, q requires 0 <= q < n => results(Min(q, stop - 1) / chunk)[q])
  }

  /** Two rows of the spliced pages are different and in a permitted order. */
  lemma SplicedPair<T(!new)>(results: nat -> seq<T>, a: seq<T>, rows: multiset<T>, before: (T, T) -> bool, chunk: nat,
                             stop: nat, i: nat, j: nat)
    requires StrictWeak(before) && NoRowTwice(rows) && Arrangement(a, rows, before) && Family(results, rows, before)
    requires 0 < chunk && 0 < stop <= |a| && BoundariesSeparate(a, before, chunk, stop)
    requires i < j < |a| && SameLengths(results, |a|)
    ensures var s := Spliced(results, |a|, chunk, stop); s[i] != s[j] && !before(s[j], s[i])
  {
    var c, d := Min(i, stop - 1) / chunk, Min(j, stop - 1) / chunk;
    assert Arrangement(results(c), rows, before) && Arrangement(results(d), rows, before);
    hide Arrangement, StrictWeak, NoRowTwice;
    if c == d {
      InOneOrder(results(c), rows, before, i, j);
    } else {
      BoundaryBetween(i, j, stop, chunk);
      AcrossOrders(a, results(c), results(d), rows, before, d * chunk, i, j);
    }
  }

  lemma InOneOrder<T(!new)>(s: seq<T>, rows: multiset<T>, before: (T, T) -> bool, i: nat, j: nat)
    requires Arrangement(s, rows, before) && NoRowTwice(rows) && i < j < |s|
    ensures s[i] != s[j] && !before(s[j], s[i])
  {
    ArrangedDistinct(s, rows, before);
  }

  lemma BoundaryBetween(i: nat, j: nat, stop: nat, chunk: nat)
    requires i < j && chunk > 0 && stop > 0
    requires Min(i, stop - 1) / chunk != Min(j, stop - 1) / chunk
    ensures var m := Min(j, stop - 1) / chunk * chunk; i < m <= j && 0 < m < stop && m % chunk == 0
  {
    var x, y := Min(i, stop - 1), Min(j, stop - 1);
    var d := y / chunk;
    var m := d * chunk;
    assert y == m + y % chunk;
    assert x < m by {
      if x >= m {
        QuotientIs(x, d, chunk);
      }
    }
    MultipleOf(d, chunk);
  }

  lemma MultipleOf(d: nat, chunk: nat)
    requires chunk > 0
    ensures d * chunk % chunk == 0
  {
    var r := d * chunk % chunk;
    assert d * chunk == d * chunk / chunk * chunk + r;
    QuotientIs(d * chunk, d, chunk);
  }

  lemma SplicedArranged<T(!new)>(results: nat -> seq<T>, a: seq<T>, rows: multiset<T>, before: (T, T) -> bool,
                                 chunk: nat, stop: nat)
    requires StrictWeak(before) && NoRowTwice(rows) && Arrangement(a, rows, before) && Family(results, rows, before)
    requires 0 < chunk && 0 < stop <= |a| && BoundariesSeparate(a, before, chunk, stop)
    requires SameLengths(results, |a|)
    ensures Arrangement(Spliced(results, |a|, chunk, stop), rows, before)
  {
    var s := Spliced(results, |a|, chunk, stop);
    assert |s| == |a|;
    SameLength(a, rows, before);
    SplicedRows(results, |a|, rows, before, chunk, stop);
    hide StrictWeak, NoRowTwice, Family, BoundariesSeparate, SameLengths, Spliced;
    forall i, j | 0 <= i < j < |s| ensures s[i] != s[j] && !before(s[j], s[i]) {
      SplicedPair(results, a, rows, before, chunk, stop, i, j);
    }
    DistinctFill(s, rows);
  }

  lemma SplicedRows<T(!new)>(results: nat -> seq<T>, n: nat, rows: multiset<T>, before: (T, T) -> bool, chunk: nat,
                             stop: nat)
    requires Family(results, rows, before) && 0 < chunk && 0 < stop <= n && SameLengths(results, n)
    ensures forall x :: x in Spliced(results, n, chunk, stop) ==> x in rows
  {
    var s := Spliced(results, n, chunk, stop);
    assert |s| == n;
    forall q | 0 <= q < n ensures s[q] in rows {
      SplicedRow(results, n, rows, before, chunk, stop, q);
    }
    hide *;
  }

  lemma SplicedRow<T(!new)>(results: nat -> seq<T>, n: nat, rows: multiset<T>, before: (T, T) -> bool, chunk: nat,
                            stop: nat, q: nat)
    requires Family(results, rows, before) && 0 < chunk && 0 < stop <= n && SameLengths(results, n) && q < n
    ensures Spliced(results, n, chunk, stop)[q] in rows
  {
    var c := Min(q, stop - 1) / chunk;
    assert Arrangement(results(c), rows, before);
    hide Arrangement;
    RowIn(results(c), rows, before, q);
  }

  lemma RowIn<T(!new)>(s: seq<T>, rows: multiset<T>, before: (T, T) -> bool, q: nat)
    requires Arrangement(s, rows, before) && q < |s|
    ensures s[q] in rows
  {
    assert s[q] in multiset(s);
  }

  lemma SplicedFront<T(!new)>(out: seq<T>, results: nat -> seq<T>, n: nat, chunk: nat, stop: nat)
    requires 0 < chunk && 0 < stop <= n && SameLengths(results, n) && RowsAt(out, results, 0, stop, chunk, n)
    ensures out <= Spliced(results, n, chunk, stop)
  {
    var s := Spliced(results, n, chunk, stop);
    forall q | 0 <= q < stop ensures out[q] == s[q] {
      assert Min(q, stop - 1) == q;
      assert out[q - 0] == results(q / chunk)[q];
    }
  }

  /** When no tie straddles a page boundary, every export is the front of one permitted order. */
  lemma SeparatedBoundaries<T(!new)>(results: nat -> seq<T>, a: seq<T>, rows: multiset<T>, before: (T, T) -> bool,
                                     cap: nat, chunk: nat, default: nat, max: nat)
    requires StrictWeak(before) && NoRowTwice(rows) && Arrangement(a, rows, before) && Family(results, rows, before)
    requires 0 < chunk <= max && BoundariesSeparate(a, before, chunk, Min(cap, |a|))
    ensures var out := ChunksFrom(results, 0, 0, cap, chunk, default, max);
            |out| == Min(cap, |a|) && OneOrder(out, rows, before)
  {
    hide StrictWeak, NoRowTwice, BoundariesSeparate, ChunksFrom;
    SameLength(a, rows, before);
    forall c: nat ensures |results(c)| == |a| {
      SameLength(results(c), rows, before);
    }
    hide Arrangement, Family;
    var stop := Min(cap, |a|);
    var out := ChunksFrom(results, 0, 0, cap, chunk, default, max);
    ChunkAt(results, |a|, 0, 0, cap, chunk, default, max);
    if stop == 0 {
      assert out <= a;
    } else {
      var s := Spliced(results, |a|, chunk, stop);
      SplicedArranged(results, a, rows, before, chunk, stop);
      SplicedFront(out, results, |a|, chunk, stop);
    }
  }

  /** The order `a` for the calls before `c`, and `a` with the two rows at `m` exchanged from then on. */
  function Exchanging<T>(a: seq<T>, m: nat, c: nat): nat -> seq<T>
    requires 0 < m < |a|
  {
    (call: nat) => if call < c then a else a[m - 1 := a[m]][m := a[m - 1]]
  }

  lemma ExchangedArranged<T(!new)>(a: seq<T>, rows: multiset<T>, before: (T, T) -> bool, m: nat)
    requires Arrangement(a, rows, before) && 0 < m < |a| && !before(a[m - 1], a[m])
    ensures Arrangement(a[m - 1 := a[m]][m := a[m - 1]], rows, before)
  {
    var b := a[m - 1 := a[m]][m := a[m - 1]];
    assert a == a[..m - 1] + [a[m - 1], a[m]] + a[m + 1..];
    assert b == a[..m - 1] + [a[m], a[m - 1]] + a[m + 1..];
    assert multiset(b) == multiset(a);
    forall i, j | 0 <= i < j < |b| ensures !before(b[j], b[i]) {
      if j != m && j != m - 1 {
        assert b[j] == a[j];
      }
      if i != m && i != m - 1 {
        assert b[i] == a[i];
      }
    }
  }

  lemma ExchangingFamily<T(!new)>(a: seq<T>, rows: multiset<T>, before: (T, T) -> bool, m: nat, c: nat)
    requires Arrangement(a, rows, before) && 0 < m < |a| && !before(a[m - 1], a[m])
    ensures Family(Exchanging(a, m, c), rows, before)
  {
    ExchangedArranged(a, rows, before, m);
    hide Arrangement;
  }

  /** A tie across a page boundary: when the calls from that page on see the two rows exchanged, the export repeats
      one of them and is the front of no permitted order. */
  lemma TiesCanRepeat<T(!new)>(a: seq<T>, rows: multiset<T>, before: (T, T) -> bool, cap: nat, chunk: nat, default: nat,
                               max: nat, m: nat)
    requires NoRowTwice(rows) && Arrangement(a, rows, before) && 0 < chunk <= max
    requires 0 < m < Min(cap, |a|) && m % chunk == 0 && !before(a[m - 1], a[m])
    ensures var results := Exchanging(a, m, m / chunk);
            var out := ChunksFrom(results, 0, 0, cap, chunk, default, max);
            && Family(results, rows, before)
            && |out| > m && out[m - 1] == out[m] == a[m - 1]
            && !OneOrder(out, rows, before)
  {
    ExchangingFamily(a, rows, before, m, m / chunk);
    hide Arrangement, NoRowTwice, ChunksFrom, OneOrder, Exchanging, Family;
    RepeatedRow(a, cap, chunk, default, max, m);
    var out := ChunksFrom(Exchanging(a, m, m / chunk), 0, 0, cap, chunk, default, max);
    if OneOrder(out, rows, before) {
      OneOrderNoRepeat(out, rows, before);
    }
  }

  lemma RepeatedRow<T(!new)>(a: seq<T>, cap: nat, chunk: nat, default: nat, max: nat, m: nat)
    requires 0 < chunk <= max && 0 < m < Min(cap, |a|) && m % chunk == 0
    ensures var out := ChunksFrom(Exchanging(a, m, m / chunk), 0, 0, cap, chunk, default, max);
            |out| > m && out[m - 1] == out[m] == a[m - 1]
  {
    hide ChunksFrom;
    var results := Exchanging(a, m, m / chunk);
    assert SameLengths(results, |a|);
    ChunkAt(results, |a|, 0, 0, cap, chunk, default, max);
    CallBefore(m, chunk);
    var out := ChunksFrom(results, 0, 0, cap, chunk, default, max);
    assert out[m - 1 - 0] == results((m - 1) / chunk)[m - 1];
    assert out[m - 0] == results(m / chunk)[m];
  }

  lemma CallBefore(m: nat, chunk: nat)
    requires chunk > 0 && m > 0 && m % chunk == 0
    ensures (m - 1) / chunk < m / chunk
  {
    var c := m / chunk;
    assert m == c * chunk;
    var d := (m - 1) / chunk;
    if d >= c {
      MulMono(c, d, chunk);
    }
  }

  /** Whatever permitted orders its calls see, the export repeats no row and is the front of one permitted order,
      if and only if the sort keys tell the rows on both sides of every page boundary within the export apart. */
  lemma StableExportIff<T(!new)>(a: seq<T>, rows: multiset<T>, before: (T, T) -> bool, cap: nat, chunk: nat,
                                 default: nat, max: nat)
    requires StrictWeak(before) && NoRowTwice(rows) && Arrangement(a, rows, before) && 0 < chunk <= max
    ensures (forall results: nat -> seq<T> | Family(results, rows, before) ::
               OneOrder(ChunksFrom(results, 0, 0, cap, chunk, default, max), rows, before))
       <==> BoundariesSeparate(a, before, chunk, Min(cap, |a|))
  {
    hide StrictWeak, NoRowTwice, Arrangement, ChunksFrom, OneOrder, Family;
    if BoundariesSeparate(a, before, chunk, Min(cap, |a|)) {
      forall results: nat -> seq<T> | Family(results, rows, before)
        ensures OneOrder(ChunksFrom(results, 0, 0, cap, chunk, default, max), rows, before)
      {
        SeparatedBoundaries(results, a, rows, before, cap, chunk, default, max);
      }
    } else {
      var m :| 0 < m < Min(cap, |a|) && m % chunk == 0 && !before(a[m - 1], a[m]);
      TiesCanRepeat(a, rows, before, cap, chunk, default, max, m);
    }
  }

  /** The front of a permitted order repeats no row. */
  lemma OneOrderNoRepeat<T(!new)>(out: seq<T>, rows: multiset<T>, before: (T, T) -> bool)
    requires NoRowTwice(rows) && OneOrder(out, rows, before)
    ensures forall i, j :: 0 <= i < j < |out| ==> out[i] != out[j]
  {
    var a :| Arrangement(a, rows, before) && out <= a;
    ArrangedDistinct(a, rows, before);
    assert forall i :: 0 <= i < |out| ==> out[i] == a[i];
  }

  // ---------------------------------------------------------------- CSV

  /** How a row is written: its keys, a header for some columns, and a line under some columns. */
  datatype Format<!T> = Format(keys: T -> seq<string>, header: seq<string> -> string, line: (seq<string>, T) -> string)

  /** The first row's keys, then the requested ones, each once. */
  function Columns(names: seq<string>): seq<string> {
    if names == [] then []
    else
      var front := Columns(names[..|names| - 1]);
      if names[|names| - 1] in front then front else front + [names[|names| - 1]]
  }

  /** The columns are exactly the given names, each once, in the order in which they first appear. */
  lemma {:induction false} ColumnsAre(names: seq<string>)
    ensures forall c :: c in Columns(names) <==> c in names
    ensures forall i, j :: 0 <= i < j < |Columns(names)| ==>
              FirstIndex(names, Columns(names)[i]) < FirstIndex(names, Columns(names)[j])
  {
    if names != [] {
      var n := |names| - 1;
      var front, last := names[..n], names[n];
      ColumnsAre(front);
      assert names == front + [last];
      FirstIndexAppend(front, last);
      assert forall i :: 0 <= i < |Columns(front)| ==> Columns(front)[i] in front;
    }
  }

  function Lines<T>(f: Format<T>, cols: seq<string>, rows: seq<T>): string {
    if rows == [] then []
    else Lines(f, cols, rows[..|rows| - 1]) + f.line(cols, rows[|rows| - 1])
  }

  /** The whole document; no rows, no header. */
  function Document<T>(f: Format<T>, rows: seq<T>, extra: seq<string>): string {
    if rows == [] then []
    else
      var cols := Columns(f.keys(rows[0]) + extra);
      f.header(cols) + Lines(f, cols, rows)
  }

  function Concat(parts: seq<string>): string {
    if parts == [] then [] else Concat(parts[..|parts| - 1]) + parts[|parts| - 1]
  }

  /** The document written at once. */
  method CsvResponse<T>(f: Format<T>, rows: seq<T>, extra: seq<string>) returns (text: string)
    ensures text == Document(f, rows, extra)
  {
    text := [];
    if rows != [] {
      var cols := Columns(f.keys(rows[0]) + extra);
      text := f.header(cols);
      for i := 0 to |rows|
        invariant text == f.header(cols) + Lines(f, cols, rows[..i])
      {
        assert rows[..i + 1][..i] == rows[..i];
        text := text + f.line(cols, rows[i]);
      }
      assert rows[..|rows|] == rows;
    }
  }

  lemma DocumentMore<T>(f: Format<T>, rows: seq<T>, extra: seq<string>, i: nat)
    requires i < |rows|
    ensures var cols := Columns(f.keys(rows[0]) + extra);
            Document(f, rows[..i + 1], extra) ==
            Document(f, rows[..i], extra) +
            (if i == 0 then f.header(cols) + f.line(cols, rows[i]) else f.line(cols, rows[i]))
  {
    var cols := Columns(f.keys(rows[0]) + extra);
    assert rows[..i + 1][..i] == rows[..i] && rows[..i + 1][0] == rows[0] && rows[..i + 1][i] == rows[i];
    assert Lines(f, cols, rows[..i + 1]) == Lines(f, cols, rows[..i]) + f.line(cols, rows[i]);
    if i > 0 {
      assert rows[..i][0] == rows[0];
      assert f.header(cols) + (Lines(f, cols, rows[..i]) + f.line(cols, rows[i]))
          == (f.header(cols) + Lines(f, cols, rows[..i])) + f.line(cols, rows[i]);
    } else {
      assert Lines(f, cols, rows[..0]) == [];
    }
  }

  lemma DocumentOfNone<T>(f: Format<T>, extra: seq<string>)
    ensures Document(f, [], extra) == []
  {
  }

  /** The document written row by row: the header goes out with the first row and the buffer is emptied after each. */
  method CsvStream<T>(f: Format<T>, rows: seq<T>, extra: seq<string>) returns (parts: seq<string>)
    ensures Concat(parts) == Document(f, rows, extra)
    ensures |parts| == |rows|
  {
    hide Document, Columns, Lines;
    DocumentOfNone(f, extra);
    parts := [];
    var buffer := "";
    var writer: Option<seq<string>> := None;
    assert rows[..0] == [];
    for i := 0 to |rows|
      invariant |parts| == i && buffer == ""
      invariant writer == if i == 0 then None else Some(Columns(f.keys(rows[0]) + extra))
      invariant Concat(parts) == Document(f, rows[..i], extra)
    {
      if writer.None? {
        writer := Some(Columns(f.keys(rows[i]) + extra));
        buffer := buffer + f.header(writer.value);
      }
      buffer := buffer + f.line(writer.value, rows[i]);
      assert (parts + [buffer])[..i] == parts;
      DocumentMore(f, rows, extra, i);
      parts := parts + [buffer];
      buffer := "";
    }
    assert rows[..|rows|] == rows;
  }
}
