/**
 Keyset paging as the admin read store does it.  A list query filters by the cursor, orders by a
 unique key and asks for one row more than the page holds; the extra row only says that there is
 more.  The caller continues with the key of the last row it was given.
 */
module KeysetPaging {
  import opened Wrappers
  import opened Ordering

  // ----- one request

  /** The rows a query may return: those that match and lie strictly beyond the cursor. */
  function Beyond<K>(matching: set<K>, cursor: Option<K>, less: (K, K) -> bool): set<K> {
    set k | k in matching && (cursor.None? || less(cursor.value, k))
  }

  /** `SELECT ... WHERE key beyond cursor ORDER BY key LIMIT limit`. */
  function Select<K(!new)>(matching: set<K>, cursor: Option<K>, less: (K, K) -> bool, limit: nat): seq<K>
    requires StrictTotalOrder(less)
  {
    var rows := Sorted(Beyond(matching, cursor, less), less);
    if limit < |rows| then rows[..limit] else rows
  }

  /** Selecting at least one row returns none only when there is none. */
  lemma SelectSome<K(!new)>(all: set<K>, less: (K, K) -> bool, after: K, limit: nat)
    requires StrictTotalOrder(less) && limit > 0
    ensures var rows := Select(all, Some(after), less, limit);
            && (forall k | k in rows :: k in all && less(after, k))
            && (rows == [] ==> Beyond(all, Some(after), less) == {})
  {
    var sorted := Sorted(Beyond(all, Some(after), less), less);
    forall k | k in Select(all, Some(after), less, limit)
      ensures k in sorted
    {
    }
  }

  /** Between the cursor and the first selected row, or one row and the next, nothing is skipped. */
  lemma SelectNext<K(!new)>(all: set<K>, less: (K, K) -> bool, before: K, limit: nat, i: nat)
    requires StrictTotalOrder(less) && i < |Select(all, Some(before), less, limit)|
    ensures var rows := Select(all, Some(before), less, limit);
            var after := if i == 0 then before else rows[i - 1];
            && rows[i] in all && less(before, rows[i]) && less(after, rows[i])
            && forall k | k in all && less(after, k) :: k == rows[i] || less(rows[i], k)
  {
    var sorted := Sorted(Beyond(all, Some(before), less), less);
    var rows := Select(all, Some(before), less, limit);
    var after := if i == 0 then before else sorted[i - 1];
    assert rows[i] == sorted[i] && sorted[i] in sorted;
    assert i > 0 ==> rows[i - 1] == after && after in sorted && less(before, after);
    forall k | k in all && less(after, k)
      ensures k == rows[i] || less(rows[i], k)
    {
      assert k in sorted;
      var j :| 0 <= j < |sorted| && sorted[j] == k;
      assert j >= i;
    }
  }

  /** What a caller may rely on about one page and its has_more flag. */
  ghost predicate IsPage<K>(matching: set<K>, cursor: Option<K>, less: (K, K) -> bool, limit: nat,
                            page: seq<K>, hasMore: bool)
  {
    IsCut(Beyond(matching, cursor, less), less, limit, page, hasMore)
  }

  /** `page` is the first `limit` of the rows that are left, and hasMore says whether that is not all. */
  ghost predicate IsCut<K>(left: set<K>, less: (K, K) -> bool, limit: nat, page: seq<K>, hasMore: bool) {
    && Ascending(page, less)
    && |page| <= limit
    && (forall k | k in page :: k in left)
    && (forall k | k in left && k !in page :: |page| == limit && forall p | p in page :: less(p, k))
    && (hasMore <==> exists k :: k in left && k !in page)
  }

  /** Scans the selected rows one by one, then cuts the probe row off. */
  method ScanRows<K>(rows: seq<K>, limit: nat) returns (page: seq<K>, hasMore: bool)
    ensures page == if limit < |rows| then rows[..limit] else rows
    ensures hasMore <==> limit < |rows|
  {
    page := [];
    var i := 0;
    while i < |rows|
      invariant 0 <= i <= |rows| && page == rows[..i]
    {
      page := page + [rows[i]];
      i := i + 1;
    }
    hasMore := |page| > limit;
    if hasMore {
      page := page[..limit];
    }
  }

  /** One list request: select one row too many, scan, cut. */
  method CutPage<K(!new, ==)>(matching: set<K>, cursor: Option<K>, less: (K, K) -> bool, limit: nat)
    returns (page: seq<K>, hasMore: bool)
    requires StrictTotalOrder(less)
    ensures IsPage(matching, cursor, less, limit, page, hasMore)
  {
    page, hasMore := ScanRows(Select(matching, cursor, less, limit + 1), limit);
    CutIsPage(matching, cursor, less, limit);
  }

  lemma CutIsPage<K(!new)>(matching: set<K>, cursor: Option<K>, less: (K, K) -> bool, limit: nat)
    requires StrictTotalOrder(less)
    ensures var rows := Select(matching, cursor, less, limit + 1);
            IsPage(matching, cursor, less, limit, if limit < |rows| then rows[..limit] else rows, limit < |rows|)
  {
    var all := Sorted(Beyond(matching, cursor, less), less);
    var rows := Select(matching, cursor, less, limit + 1);
    ProbeThenCut(all, limit);
    SortedCut(all, Beyond(matching, cursor, less), less, limit);
    assert (if limit < |rows| then rows[..limit] else rows) == if limit < |all| then all[..limit] else all;
  }

  /** Cutting the probe row off what one row too many selected is cutting the whole. */
  lemma ProbeThenCut<K>(all: seq<K>, limit: nat)
    ensures var rows := if limit + 1 < |all| then all[..limit + 1] else all;
            && (limit < |rows| <==> limit < |all|)
            && (limit < |rows| ==> rows[..limit] == all[..limit])
            && (limit >= |rows| ==> rows == all)
  {
  }

  lemma SortedCut<K(!new)>(all: seq<K>, left: set<K>, less: (K, K) -> bool, limit: nat)
    requires Ascending(all, less) && (forall k :: k in all <==> k in left) && (forall k :: !less(k, k))
    ensures IsCut(left, less, limit, if limit < |all| then all[..limit] else all, limit < |all|)
  {
    var page := if limit < |all| then all[..limit] else all;
    forall k | k in left && k !in page
      ensures |page| == limit && forall p | p in page :: less(p, k)
    {
      var i :| 0 <= i < |all| && all[i] == k;
      assert i >= |page|;
    }
    if limit < |all| {
      assert all[limit] in all && all[limit] !in page;
    }
  }

  // ----- following the cursor

  /** The cursor of request i: none at first, then the last key of the page before. */
  function CursorOf<K>(pages: seq<seq<K>>, i: nat): Option<K>
    requires i < |pages|
  {
    if i == 0 || pages[i - 1] == [] then None else Some(pages[i - 1][|pages[i - 1]| - 1])
  }

  /**
   A completed walk: one request after the other, each with the cursor of the page before, until
   has_more is false.  `matching[i]` is what matched when request i ran, so rows may come and go.
   */
  ghost predicate IsWalk<K>(matching: seq<set<K>>, pages: seq<seq<K>>, less: (K, K) -> bool, limit: nat) {
    && |pages| == |matching| > 0
    && forall i {:trigger matching[i]} | 0 <= i < |pages| ::
         IsPage(matching[i], CursorOf(pages, i), less, limit, pages[i], i + 1 < |pages|)
  }

  lemma PageFull<K(!new)>(matching: seq<set<K>>, pages: seq<seq<K>>, less: (K, K) -> bool, limit: nat, i: nat)
    requires StrictTotalOrder(less) && limit > 0 && IsWalk(matching, pages, less, limit) && i + 1 < |pages|
    ensures |pages[i]| == limit && CursorOf(pages, i + 1) == Some(pages[i][limit - 1])
  {
    assert IsPage(matching[i], CursorOf(pages, i), less, limit, pages[i], true);
  }

  /** Every row of an earlier page comes before every row of a later one. */
  lemma {:induction false} PagesAdvance<K(!new)>(matching: seq<set<K>>, pages: seq<seq<K>>, less: (K, K) -> bool,
                                                 limit: nat, i: nat, j: nat, a: K, b: K)
    requires StrictTotalOrder(less) && limit > 0 && IsWalk(matching, pages, less, limit)
    requires i < j < |pages| && a in pages[i] && b in pages[j]
    ensures less(a, b)
    decreases j - i
  {
    PageFull(matching, pages, less, limit, j - 1);
    assert IsPage(matching[j], CursorOf(pages, j), less, limit, pages[j], j + 1 < |pages|);
    assert IsPage(matching[j - 1], CursorOf(pages, j - 1), less, limit, pages[j - 1], true);
    var last := pages[j - 1][limit - 1];
    assert less(last, b);
    if i == j - 1 {
      assert a == last || less(a, last);
    } else {
      PagesAdvance(matching, pages, less, limit, i, j - 1, a, last);
    }
  }

  /** A row that matches at request i and has not been returned by then still lies beyond its cursor. */
  lemma {:induction false} StillAhead<K(!new)>(matching: seq<set<K>>, pages: seq<seq<K>>, less: (K, K) -> bool,
                                               limit: nat, i: nat, x: K)
    requires StrictTotalOrder(less) && limit > 0 && IsWalk(matching, pages, less, limit) && i < |pages|
    requires forall j | 0 <= j <= i :: x in matching[j]
    requires forall j | 0 <= j < i :: x !in pages[j]
    ensures x in Beyond(matching[i], CursorOf(pages, i), less)
  {
    if i > 0 {
      StillAhead(matching, pages, less, limit, i - 1, x);
      PageFull(matching, pages, less, limit, i - 1);
      assert IsPage(matching[i - 1], CursorOf(pages, i - 1), less, limit, pages[i - 1], true);
    }
  }

  /** A row present and matching at every request is returned on exactly one page, whatever else is
      inserted or deleted in between. */
  lemma PresentRowsReturnedOnce<K(!new)>(matching: seq<set<K>>, pages: seq<seq<K>>, less: (K, K) -> bool, limit: nat,
                                         x: K)
    requires StrictTotalOrder(less) && limit > 0 && IsWalk(matching, pages, less, limit)
    requires forall i | 0 <= i < |matching| :: x in matching[i]
    ensures exists i :: && 0 <= i < |pages| && x in pages[i] && (forall j | 0 <= j < |pages| && x in pages[j] :: j == i)
  {
    if forall i | 0 <= i < |pages| :: x !in pages[i] {
      var n := |pages| - 1;
      StillAhead(matching, pages, less, limit, n, x);
      assert false;
    }
    var i :| 0 <= i < |pages| && x in pages[i];
    forall j | 0 <= j < |pages| && x in pages[j]
      ensures j == i
    {
      if i < j {
        PagesAdvance(matching, pages, less, limit, i, j, x, x);
      } else if j < i {
        PagesAdvance(matching, pages, less, limit, j, i, x, x);
      }
    }
  }

  /** No row is ever returned twice, even if it was deleted and inserted again. */
  lemma NothingReturnedTwice<K(!new)>(matching: seq<set<K>>, pages: seq<seq<K>>, less: (K, K) -> bool,
                                      limit: nat, i: nat, j: nat, m: nat, n: nat)
    requires StrictTotalOrder(less) && limit > 0 && IsWalk(matching, pages, less, limit)
    requires i < |pages| && j < |pages| && m < |pages[i]| && n < |pages[j]| && pages[i][m] == pages[j][n]
    ensures i == j && m == n
  {
    assert IsPage(matching[i], CursorOf(pages, i), less, limit, pages[i], i + 1 < |pages|);
    if i < j {
      PagesAdvance(matching, pages, less, limit, i, j, pages[i][m], pages[j][n]);
    } else if j < i {
      PagesAdvance(matching, pages, less, limit, j, i, pages[j][n], pages[i][m]);
    }
  }

  /** If rows are only deleted, or inserted before the cursor, each full page shrinks what is left by
      at least its own length, so the walk ends. */
  lemma PageShrinksRest<K(!new)>(matching: seq<set<K>>, pages: seq<seq<K>>, less: (K, K) -> bool, limit: nat, i: nat)
    requires StrictTotalOrder(less) && limit > 0 && IsWalk(matching, pages, less, limit) && i + 1 < |pages|
    requires Beyond(matching[i + 1], CursorOf(pages, i + 1), less) <= matching[i]
    ensures |Beyond(matching[i + 1], CursorOf(pages, i + 1), less)| + limit
            <= |Beyond(matching[i], CursorOf(pages, i), less)|
  {
    PageFull(matching, pages, less, limit, i);
    var page := pages[i];
    var here := Beyond(matching[i], CursorOf(pages, i), less);
    var next := Beyond(matching[i + 1], CursorOf(pages, i + 1), less);
    assert IsPage(matching[i], CursorOf(pages, i), less, limit, page, true);
    assert page[limit - 1] in page;
    forall k | k in next
      ensures k in here && less(page[limit - 1], k)
    {
      if CursorOf(pages, i).Some? {
        assert less(CursorOf(pages, i).value, page[limit - 1]);
      }
    }
    CutShrinks(here, next, less, page);
  }

  /** What lies beyond the last row of a page is fewer by the page. */
  lemma CutShrinks<K(!new)>(here: set<K>, next: set<K>, less: (K, K) -> bool, page: seq<K>)
    requires StrictTotalOrder(less) && Ascending(page, less) && page != [] && forall k | k in page :: k in here
    requires next <= here && forall k | k in next :: less(page[|page| - 1], k)
    ensures |next| + |page| <= |here|
  {
    var given := set k | k in page;
    AscendingCount(page, less);
    forall k | k in page
      ensures !less(page[|page| - 1], k)
    {
      var i :| 0 <= i < |page| && page[i] == k;
      assert i == |page| - 1 || less(page[i], page[|page| - 1]);
    }
    assert given <= here && next <= here - given;
    CardinalityMonotone(next, here - given);
  }

  lemma {:induction false} AscendingCount<K(!new)>(s: seq<K>, less: (K, K) -> bool)
    requires StrictTotalOrder(less) && Ascending(s, less)
    ensures |set k | k in s| == |s|
  {
    if s != [] {
      var n := |s| - 1;
      var init := s[..n];
      AscendingCount(init, less);
      assert s[n] !in init;
      assert (set k | k in s) == (set k | k in init) + {s[n]};
    }
  }

  /** The number of requests is bounded by the number of rows that matched at the start. */
  lemma {:induction false} WalkIsBounded<K(!new)>(matching: seq<set<K>>, pages: seq<seq<K>>, less: (K, K) -> bool,
                                                  limit: nat, i: nat)
    requires StrictTotalOrder(less) && limit > 0 && IsWalk(matching, pages, less, limit) && i < |pages|
    requires forall j | 0 <= j < i :: Beyond(matching[j + 1], CursorOf(pages, j + 1), less) <= matching[j]
    ensures |Beyond(matching[i], CursorOf(pages, i), less)| + i * limit <= |matching[0]|
  {
    if i == 0 {
      assert Beyond(matching[0], CursorOf(pages, 0), less) == matching[0];
    } else {
      WalkIsBounded(matching, pages, less, limit, i - 1);
      PageShrinksRest(matching, pages, less, limit, i - 1);
      assert i * limit == (i - 1) * limit + limit;
    }
  }

  // ----- walks whose cursors move

  /** Whether a query with this cursor may return x. */
  predicate Past<K(!new)>(cursor: Option<K>, x: K, less: (K, K) -> bool) {
    cursor.None? || less(cursor.value, x)
  }

  /** A completed walk in which the cursor of a request need not be the row that it was issued for. */
  ghost predicate IsLooseWalk<K>(matching: seq<set<K>>, cursors: seq<Option<K>>, pages: seq<seq<K>>,
                                 less: (K, K) -> bool, limit: nat)
  {
    && |pages| == |matching| == |cursors| > 0 && cursors[0] == None
    && forall i {:trigger matching[i]} | 0 <= i < |pages| ::
         IsPage(matching[i], cursors[i], less, limit, pages[i], i + 1 < |pages|)
  }

  /** Request i goes back: its cursor stands before x although the row it was issued for does not. */
  predicate RepeatedAt<K(!new)>(cursors: seq<Option<K>>, pages: seq<seq<K>>, less: (K, K) -> bool, i: nat, x: K)
    requires i < |cursors| && i < |pages|
  {
    Past(cursors[i], x, less) && !Past(CursorOf(pages, i), x, less)
  }

  /** Request i jumps ahead: x was due, but its cursor stands at x or after it. */
  predicate SkippedAt<K(!new)>(cursors: seq<Option<K>>, pages: seq<seq<K>>, less: (K, K) -> bool, i: nat, x: K)
    requires i < |cursors| && i < |pages|
  {
    !Past(cursors[i], x, less) && Past(CursorOf(pages, i), x, less)
  }

  function Repeats<K(!new)>(cursors: seq<Option<K>>, pages: seq<seq<K>>, less: (K, K) -> bool, n: nat, x: K): nat
    requires n <= |cursors| && n <= |pages|
  {
    if n == 0 then 0
    else Repeats(cursors, pages, less, n - 1, x) + if RepeatedAt(cursors, pages, less, n - 1, x) then 1 else 0
  }

  function Skips<K(!new)>(cursors: seq<Option<K>>, pages: seq<seq<K>>, less: (K, K) -> bool, n: nat, x: K): nat
    requires n <= |cursors| && n <= |pages|
  {
    if n == 0 then 0
    else Skips(cursors, pages, less, n - 1, x) + if SkippedAt(cursors, pages, less, n - 1, x) then 1 else 0
  }

  /** On how many of the first n pages x stands. A page is ascending, so it holds x at most once. */
  function Returns<K(==)>(pages: seq<seq<K>>, n: nat, x: K): nat
    requires n <= |pages|
  {
    if n == 0 then 0 else Returns(pages, n - 1, x) + if x in pages[n - 1] then 1 else 0
  }

  /** What one page does to a row that matches: it returns it, or leaves it due, or its cursor had passed it. */
  lemma PageSettles<K(!new)>(matching: set<K>, cursor: Option<K>, less: (K, K) -> bool, limit: nat, page: seq<K>,
                             hasMore: bool, x: K)
    requires StrictTotalOrder(less) && limit > 0 && IsPage(matching, cursor, less, limit, page, hasMore) &&
             x in matching
    ensures hasMore ==> page != []
    ensures x in page ==> Past(cursor, x, less) && !(hasMore && less(page[|page| - 1], x))
    ensures hasMore && less(page[|page| - 1], x) ==> Past(cursor, x, less)
    ensures Past(cursor, x, less) ==> x in page || (hasMore && less(page[|page| - 1], x))
  {
    assert x in Beyond(matching, cursor, less) <==> Past(cursor, x, less);
    if hasMore {
      assert page[|page| - 1] in page && page[|page| - 1] in Beyond(matching, cursor, less);
      if x in page {
        var i :| 0 <= i < |page| && page[i] == x;
        assert i == |page| - 1 || less(x, page[|page| - 1]);
      }
    }
  }

  /** Every row that stays put is returned once, and once more for every request that went back before it, and
      once less for every request that jumped over it. */
  lemma {:induction false} ReturnsUpTo<K(!new)>(matching: seq<set<K>>, cursors: seq<Option<K>>, pages: seq<seq<K>>,
                                                less: (K, K) -> bool, limit: nat, n: nat, x: K)
    requires StrictTotalOrder(less) && limit > 0 && IsLooseWalk(matching, cursors, pages, less, limit)
    requires (forall i | 0 <= i < |matching| :: x in matching[i]) && 1 <= n <= |pages|
    ensures Returns(pages, n, x) + Skips(cursors, pages, less, n, x)
            + (if n < |pages| && Past(CursorOf(pages, n), x, less) then 1 else 0)
            == 1 + Repeats(cursors, pages, less, n, x)
  {
    PageSettles(matching[n - 1], cursors[n - 1], less, limit, pages[n - 1], n < |pages|, x);
    if n > 1 {
      ReturnsUpTo(matching, cursors, pages, less, limit, n - 1, x);
    } else {
      assert CursorOf(pages, 0) == cursors[0];
      assert Returns(pages, 0, x) == 0 && Skips(cursors, pages, less, 0, x) == 0 &&
             Repeats(cursors, pages, less, 0, x) == 0;
    }
  }

  // ----- the id-keyed lists: broadcasts, collectible usernames, verification applications

  predicate Newer(a: int, b: int) {
    a > b
  }

  function ClampLimit(limit: int, fallback: nat, max: nat): nat {
    var l := if limit <= 0 then fallback else limit;
    if l > max then max else l
  }

  /** `WHERE $1 = 0 OR id < $1`: a cursor of zero means no cursor. */
  function IdCursor(beforeID: int): Option<int> {
    if beforeID == 0 then None else Some(beforeID)
  }

  function MatchingIds<Row>(table: map<int, Row>, matches: Row -> bool): set<int> {
    set id | id in table && matches(table[id])
  }

  /** ListBroadcasts, ListCollectibleUsernames and ListVerificationApplications, which differ in the
      filter and in the limits only. */
  method ListByIdDescending<Row>(table: map<int, Row>, matches: Row -> bool, beforeID: int, limit: int, fallback: nat,
                                 max: nat)
    returns (page: seq<int>, hasMore: bool)
    ensures IsPage(MatchingIds(table, matches), IdCursor(beforeID), Newer, ClampLimit(limit, fallback, max),
                   page, hasMore)
  {
    page, hasMore := CutPage(MatchingIds(table, matches), IdCursor(beforeID), Newer, ClampLimit(limit, fallback, max));
  }

  /** A row that such a list may return. */
  predicate Listable<Row>(table: map<int, Row>, matches: Row -> bool, beforeID: int, id: int) {
    id in table && matches(table[id]) && (beforeID == 0 || id < beforeID)
  }

  /** What that page holds: matching rows below the cursor by falling id, as many as asked for, and has_more if
      and only if there are others, all of them further down. */
  lemma IdPageHolds<Row>(table: map<int, Row>, matches: Row -> bool, beforeID: int, limit: int, fallback: nat, max: nat,
                         page: seq<int>, hasMore: bool)
    requires IsPage(MatchingIds(table, matches), IdCursor(beforeID), Newer, ClampLimit(limit, fallback, max),
                    page, hasMore)
    ensures forall i, j | 0 <= i < j < |page| :: page[i] > page[j]
    ensures forall id | id in page :: Listable(table, matches, beforeID, id)
    ensures forall id | Listable(table, matches, beforeID, id) && id !in page ::
              hasMore && forall p | p in page :: id < p
    ensures hasMore ==> exists id :: Listable(table, matches, beforeID, id) && id !in page
    ensures |page| <= max && (limit > 0 ==> |page| <= limit) && (limit <= 0 ==> |page| <= fallback)
    ensures hasMore ==> |page| == max || |page| == if limit > 0 then limit else fallback
  {
    var left := Beyond(MatchingIds(table, matches), IdCursor(beforeID), Newer);
    forall id: int
      ensures id in left <==> Listable(table, matches, beforeID, id)
    {
    }
    forall i, j | 0 <= i < j < |page|
      ensures page[i] > page[j]
    {
      assert Newer(page[i], page[j]);
    }
    forall id | Listable(table, matches, beforeID, id) && id !in page
      ensures hasMore && forall p | p in page :: id < p
    {
      assert forall p | p in page :: Newer(p, id);
    }
  }

  /** A caller that starts with cursor 0 and sends back the last id it was given while has_more is set. */
  ghost predicate IdRequests(matching: seq<set<int>>, before: seq<int>, pages: seq<seq<int>>, limit: nat) {
    && |pages| == |before| == |matching| > 0
    && before[0] == 0
    && (forall i {:trigger matching[i]} | 0 <= i < |pages| ::
          IsPage(matching[i], IdCursor(before[i]), Newer, limit, pages[i], i + 1 < |pages|))
    && (forall i {:trigger before[i]} | 0 < i < |pages| ::
          pages[i - 1] != [] && before[i] == pages[i - 1][|pages[i - 1]| - 1])
  }

  /** With ids that are never zero, as a bigserial column gives, the numeric cursor makes it a walk; so
      a row that stays is returned exactly once and none is returned twice. */
  lemma IdRowsReturnedOnce(matching: seq<set<int>>, before: seq<int>, pages: seq<seq<int>>, limit: nat, x: int)
    requires limit > 0 && IdRequests(matching, before, pages, limit)
    requires forall i | 0 <= i < |matching| :: 0 !in matching[i] && x in matching[i]
    ensures exists i :: && 0 <= i < |pages| && x in pages[i] && (forall j | 0 <= j < |pages| && x in pages[j] :: j == i)
  {
    forall i | 0 <= i < |pages|
      ensures IsPage(matching[i], CursorOf(pages, i), Newer, limit, pages[i], i + 1 < |pages|)
    {
      if i > 0 {
        assert before[i] in pages[i - 1] && 0 !in matching[i - 1];
        assert CursorOf(pages, i) == IdCursor(before[i]);
      }
    }
    PresentRowsReturnedOnce(matching, pages, Newer, limit, x);
  }

  // ----- the rating leaderboard

  datatype Rating = Rating(level: int, stars: int)

  datatype RatingKey = RatingKey(level: int, stars: int, user: int)

  /** `ORDER BY level DESC, stars DESC, user_id`. */
  predicate RanksBefore(a: RatingKey, b: RatingKey) {
    || a.level > b.level
    || (a.level == b.level && a.stars > b.stars)
    || (a.level == b.level && a.stars == b.stars && a.user < b.user)
  }

  const RATING_DEFAULT_LIMIT: nat := 50
  const RATING_MAX_LIMIT: nat := 200
  const MAX_RATING_LEVEL: int := 50

  function KeyOf(ratings: map<int, Rating>, user: int): RatingKey
    requires user in ratings
  {
    RatingKey(ratings[user].level, ratings[user].stars, user)
  }

  function ClampLevel(minLevel: int): int {
    if minLevel < 0 then 0 else if minLevel > MAX_RATING_LEVEL then MAX_RATING_LEVEL else minLevel
  }

  function MatchingRatings(ratings: map<int, Rating>, minLevel: int, matches: int -> bool): set<RatingKey> {
    set user | user in ratings && ratings[user].level >= ClampLevel(minLevel) && matches(user) :: KeyOf(ratings, user)
  }

  /** The cursor row is looked up in the table itself; if it is gone there is no cursor. */
  function RatingCursor(ratings: map<int, Rating>, beforeID: int): Option<RatingKey> {
    if beforeID != 0 && beforeID in ratings then Some(KeyOf(ratings, beforeID)) else None
  }

  method ListAccountRatings(ratings: map<int, Rating>, minLevel: int, matches: int -> bool, beforeID: int, limit: int)
    returns (page: seq<RatingKey>, hasMore: bool)
    ensures IsPage(MatchingRatings(ratings, minLevel, matches), RatingCursor(ratings, beforeID), RanksBefore,
                   ClampLimit(limit, RATING_DEFAULT_LIMIT, RATING_MAX_LIMIT), page, hasMore)
  {
    page, hasMore := CutPage(MatchingRatings(ratings, minLevel, matches), RatingCursor(ratings, beforeID), RanksBefore,
                             ClampLimit(limit, RATING_DEFAULT_LIMIT, RATING_MAX_LIMIT));
  }

  /** A row of the leaderboard that matches; no minimum asks for more than level 50. */
  predicate Rated(ratings: map<int, Rating>, minLevel: int, matches: int -> bool, k: RatingKey) {
    && k.user in ratings && ratings[k.user] == Rating(k.level, k.stars) && matches(k.user)
    && k.level >= 0 && (k.level >= minLevel || k.level >= 50)
  }

  /** Higher levels come first, then more stars, then lower user ids. */
  predicate InRankOrder(a: RatingKey, b: RatingKey) {
    && a.level >= b.level
    && (a.level == b.level ==> a.stars >= b.stars && (a.stars == b.stars ==> a.user < b.user))
  }

  /** What a page of the leaderboard holds: matching rows in rank order, after the present rank of the cursor's
      user if there still is one; 50 of them if no number is asked for and 200 at most; and has_more if and only
      if there are others, all of them ranking lower. */
  lemma RatingPageHolds(ratings: map<int, Rating>, minLevel: int, matches: int -> bool, beforeID: int, limit: int,
                        page: seq<RatingKey>, hasMore: bool)
    requires IsPage(MatchingRatings(ratings, minLevel, matches), RatingCursor(ratings, beforeID), RanksBefore,
                    ClampLimit(limit, RATING_DEFAULT_LIMIT, RATING_MAX_LIMIT), page, hasMore)
    ensures forall i, j | 0 <= i < j < |page| :: InRankOrder(page[i], page[j])
    ensures forall k | k in page :: Rated(ratings, minLevel, matches, k) && AfterCursor(ratings, beforeID, k)
    ensures forall k | Rated(ratings, minLevel, matches, k) && AfterCursor(ratings, beforeID, k) && k !in page ::
              hasMore && forall p | p in page :: InRankOrder(p, k)
    ensures hasMore ==>
              exists k :: Rated(ratings, minLevel, matches, k) && AfterCursor(ratings, beforeID, k) && k !in page
    ensures |page| <= 200 && (limit > 0 ==> |page| <= limit) && (limit <= 0 ==> |page| <= 50)
    ensures hasMore ==> |page| == 200 || |page| == if limit > 0 then limit else 50
  {
    var left := Beyond(MatchingRatings(ratings, minLevel, matches), RatingCursor(ratings, beforeID), RanksBefore);
    forall k: RatingKey
      ensures k in left <==> Rated(ratings, minLevel, matches, k) && AfterCursor(ratings, beforeID, k)
    {
      RatedIff(ratings, minLevel, matches, k);
    }
    forall i, j | 0 <= i < j < |page|
      ensures InRankOrder(page[i], page[j])
    {
      assert RanksBefore(page[i], page[j]);
    }
    forall k | k in left && k !in page
      ensures hasMore && forall p | p in page :: InRankOrder(p, k)
    {
      assert forall p | p in page :: RanksBefore(p, k);
    }
  }

  predicate AfterCursor(ratings: map<int, Rating>, beforeID: int, k: RatingKey) {
    beforeID != 0 && beforeID in ratings ==>
      InRankOrder(RatingKey(ratings[beforeID].level, ratings[beforeID].stars, beforeID), k)
  }

  lemma RatedIff(ratings: map<int, Rating>, minLevel: int, matches: int -> bool, k: RatingKey)
    ensures k in MatchingRatings(ratings, minLevel, matches) <==> Rated(ratings, minLevel, matches, k)
  {
    if Rated(ratings, minLevel, matches, k) {
      assert KeyOf(ratings, k.user) == k;
    }
  }

  /** The handler's next_before_id: the last user id, or zero when there is no more. */
  function NextBeforeID(page: seq<RatingKey>, hasMore: bool): int {
    if hasMore && |page| > 0 then page[|page| - 1].user else 0
  }

  lemma RanksBeforeIsStrictTotalOrder()
    ensures StrictTotalOrder(RanksBefore)
  {
  }

  /** The leaderboard: every matching row once, in rank order. */
  function Leaderboard(matching: set<RatingKey>): seq<RatingKey> {
    RanksBeforeIsStrictTotalOrder();
    Sorted(matching, RanksBefore)
  }

  /** Following next_before_id over a fixed table, whose user ids are never zero, yields the whole
      leaderboard: every matching row once and in rank order. */
  method FollowRatings(ratings: map<int, Rating>, minLevel: int, matches: int -> bool, limit: int)
    returns (all: seq<RatingKey>)
    requires 0 !in ratings
    ensures all == Leaderboard(MatchingRatings(ratings, minLevel, matches))
    ensures forall k :: k in all <==> Rated(ratings, minLevel, matches, k)
    ensures forall i, j | 0 <= i < j < |all| :: InRankOrder(all[i], all[j])
  {
    ghost var matching := MatchingRatings(ratings, minLevel, matches);
    ghost var n: nat := ClampLimit(limit, RATING_DEFAULT_LIMIT, RATING_MAX_LIMIT);
    var page, hasMore := ListAccountRatings(ratings, minLevel, matches, 0, limit);
    all := page;
    RatingPageExtends(matching, None, [], page, hasMore, n);
    while hasMore
      invariant Following(matching, all, page, hasMore)
      decreases hasMore, if hasMore then |Beyond(matching, Some(page[|page| - 1]), RanksBefore)| else 0
    {
      ghost var cursor := Some(page[|page| - 1]);
      CursorResolves(ratings, minLevel, matches, all, page);
      page, hasMore := ListAccountRatings(ratings, minLevel, matches, NextBeforeID(page, hasMore), limit);
      RatingPageExtends(matching, cursor, all, page, hasMore, n);
      all := all + page;
    }
    RanksBeforeIsStrictTotalOrder();
    AscendingUnique(all, Leaderboard(matching), RanksBefore);
    LeaderboardHolds(ratings, minLevel, matches);
  }

  lemma LeaderboardHolds(ratings: map<int, Rating>, minLevel: int, matches: int -> bool)
    ensures var all := Leaderboard(MatchingRatings(ratings, minLevel, matches));
            && (forall k :: k in all <==> Rated(ratings, minLevel, matches, k))
            && (forall i, j | 0 <= i < j < |all| :: InRankOrder(all[i], all[j]))
  {
    var all := Leaderboard(MatchingRatings(ratings, minLevel, matches));
    RanksBeforeIsStrictTotalOrder();
    forall k: RatingKey
      ensures k in all <==> Rated(ratings, minLevel, matches, k)
    {
      RatedIff(ratings, minLevel, matches, k);
    }
    forall i, j | 0 <= i < j < |all|
      ensures InRankOrder(all[i], all[j])
    {
      assert RanksBefore(all[i], all[j]);
    }
  }

  /** The rows collected so far are in order, and whatever is missing ranks after the last page. */
  ghost predicate Following(matching: set<RatingKey>, all: seq<RatingKey>, page: seq<RatingKey>, hasMore: bool) {
    && Ascending(all, RanksBefore)
    && (forall k | k in all :: k in matching)
    && (hasMore ==> page != [] && all != [] && page[|page| - 1] == all[|all| - 1])
    && (forall k | k in matching && k !in all :: hasMore && RanksBefore(page[|page| - 1], k))
  }

  lemma CursorResolves(ratings: map<int, Rating>, minLevel: int, matches: int -> bool, all: seq<RatingKey>,
                       page: seq<RatingKey>)
    requires 0 !in ratings && Following(MatchingRatings(ratings, minLevel, matches), all, page, true)
    ensures RatingCursor(ratings, NextBeforeID(page, true)) == Some(page[|page| - 1])
  {
    assert page[|page| - 1] in all;
  }

  lemma RatingPageExtends(matching: set<RatingKey>, cursor: Option<RatingKey>, all: seq<RatingKey>,
                          page: seq<RatingKey>, hasMore: bool, limit: nat)
    requires limit > 0 && IsPage(matching, cursor, RanksBefore, limit, page, hasMore)
    requires cursor == if all == [] then None else Some(all[|all| - 1])
    requires Ascending(all, RanksBefore) && forall k | k in all :: k in matching
    requires forall k | k in matching && k !in all :: k in Beyond(matching, cursor, RanksBefore)
    ensures Following(matching, all + page, page, hasMore)
    ensures hasMore ==>
              |Beyond(matching, Some(page[|page| - 1]), RanksBefore)| < |Beyond(matching, cursor, RanksBefore)|
  {
    RanksBeforeIsStrictTotalOrder();
    PageExtends(matching, cursor, RanksBefore, all, page, hasMore, limit);
    if hasMore {
      PageShrinks(matching, cursor, RanksBefore, page, hasMore, limit);
    }
  }

  lemma PageExtends<K(!new)>(matching: set<K>, cursor: Option<K>, less: (K, K) -> bool, all: seq<K>,
                             page: seq<K>, hasMore: bool, limit: nat)
    requires StrictTotalOrder(less) && limit > 0 && Ascending(all, less) &&
             IsPage(matching, cursor, less, limit, page, hasMore)
    requires cursor == if all == [] then None else Some(all[|all| - 1])
    requires forall k | k in matching && k !in all :: k in Beyond(matching, cursor, less)
    ensures Ascending(all + page, less)
    ensures forall k | k in matching && k !in all + page :: hasMore && page != [] && less(page[|page| - 1], k)
  {
    forall i, j | 0 <= i < |all| && 0 <= j < |page|
      ensures less(all[i], page[j])
    {
      assert page[j] in page;
      assert i < |all| - 1 ==> less(all[i], all[|all| - 1]);
    }
  }

  lemma PageShrinks<K(!new)>(matching: set<K>, cursor: Option<K>, less: (K, K) -> bool,
                             page: seq<K>, hasMore: bool, limit: nat)
    requires StrictTotalOrder(less) && limit > 0 && IsPage(matching, cursor, less, limit, page, hasMore) && hasMore
    ensures page != [] && |Beyond(matching, Some(page[|page| - 1]), less)| < |Beyond(matching, cursor, less)|
  {
    var last := page[|page| - 1];
    var here, next := Beyond(matching, cursor, less), Beyond(matching, Some(last), less);
    assert last in page && last in here && last !in next;
    forall x | x in next
      ensures x in here
    {
      assert cursor.Some? ==> less(cursor.value, last);
    }
    CardinalityMonotone(next, here - {last});
  }

  // ----- ratings that change while they are paged

  /** The table at the time of one request, with the filters' verdict on each user. */
  datatype RatingTable = RatingTable(ratings: map<int, Rating>, matches: int -> bool)

  function Matching(tables: seq<RatingTable>, minLevel: int): (matching: seq<set<RatingKey>>)
    ensures |matching| == |tables|
  {
    seq(|tables|, i requires 0 <= i < |tables| => MatchingRatings(tables[i].ratings, minLevel, tables[i].matches))
  }

  /** What the cursor of each request resolves to when that request runs. */
  function Resolved(tables: seq<RatingTable>, before: seq<int>): (cursors: seq<Option<RatingKey>>)
    requires |before| == |tables|
    ensures |cursors| == |tables|
  {
    seq(|tables|, i requires 0 <= i < |tables| => RatingCursor(tables[i].ratings, before[i]))
  }

  /** A caller that starts without a cursor and sends back next_before_id until has_more is false. */
  ghost predicate RatingRequests(tables: seq<RatingTable>, minLevel: int, before: seq<int>, pages: seq<seq<RatingKey>>,
                                 limit: nat)
  {
    && |pages| == |before| == |tables| > 0 && before[0] == 0
    && (forall i {:trigger tables[i]} | 0 <= i < |pages| ::
          IsPage(MatchingRatings(tables[i].ratings, minLevel, tables[i].matches),
                 RatingCursor(tables[i].ratings, before[i]),
                 RanksBefore, limit, pages[i], i + 1 < |pages|))
    && (forall i {:trigger before[i]} | 0 < i < |pages| :: before[i] == NextBeforeID(pages[i - 1], true))
  }

  lemma RequestsAreLooseWalk(tables: seq<RatingTable>, minLevel: int, before: seq<int>, pages: seq<seq<RatingKey>>,
                             limit: nat)
    requires RatingRequests(tables, minLevel, before, pages, limit)
    ensures IsLooseWalk(Matching(tables, minLevel), Resolved(tables, before), pages, RanksBefore, limit)
  {
    forall i | 0 <= i < |pages|
      ensures IsPage(Matching(tables, minLevel)[i], Resolved(tables, before)[i], RanksBefore, limit, pages[i],
                     i + 1 < |pages|)
    {
      assert tables[i] == tables[i];
    }
  }

  /** The exact account of a row that keeps its rank and matches throughout, however the rest of the table
      changes: it is returned exactly once if and only if as many requests go back before it as jump over it. */
  lemma RatingRowReturns(tables: seq<RatingTable>, minLevel: int, before: seq<int>, pages: seq<seq<RatingKey>>,
                         limit: nat, x: RatingKey)
    requires limit > 0 && RatingRequests(tables, minLevel, before, pages, limit)
    requires forall i | 0 <= i < |tables| :: x in Matching(tables, minLevel)[i]
    ensures var n, cursors := |pages|, Resolved(tables, before);
            && Returns(pages, n, x) + Skips(cursors, pages, RanksBefore, n, x) ==
                 1 + Repeats(cursors, pages, RanksBefore, n, x)
            && (Returns(pages, n, x) == 1 <==>
                  Repeats(cursors, pages, RanksBefore, n, x) == Skips(cursors, pages, RanksBefore, n, x))
  {
    RanksBeforeIsStrictTotalOrder();
    RequestsAreLooseWalk(tables, minLevel, before, pages, limit);
    ReturnsUpTo(Matching(tables, minLevel), Resolved(tables, before), pages, RanksBefore, limit, |pages|, x);
  }

  /** Which rows a request wrongs, in terms of the cursor's row when it was issued and what has become of it:
      if the row is gone, all up to it are returned again; if it has moved, the rows between its old and its
      new place are, when it rose, returned again, and when it fell, left out. */
  lemma WrongedIff(tables: seq<RatingTable>, minLevel: int, before: seq<int>, pages: seq<seq<RatingKey>>, limit: nat,
                   i: nat, x: RatingKey)
    requires limit > 0 && RatingRequests(tables, minLevel, before, pages, limit) && 0 < i < |pages|
    requires forall j | 0 <= j < |tables| :: 0 !in tables[j].ratings
    ensures pages[i - 1] != []
    ensures var issued, ratings := pages[i - 1][|pages[i - 1]| - 1], tables[i].ratings;
            && (RepeatedAt(Resolved(tables, before), pages, RanksBefore, i, x) <==>
                  !RanksBefore(issued, x) && (issued.user !in ratings || RanksBefore(KeyOf(ratings, issued.user), x)))
            && (SkippedAt(Resolved(tables, before), pages, RanksBefore, i, x) <==>
                  RanksBefore(issued, x) && issued.user in ratings && !RanksBefore(KeyOf(ratings, issued.user), x))
  {
    var page := pages[i - 1];
    assert IsPage(MatchingRatings(tables[i - 1].ratings, minLevel, tables[i - 1].matches),
                  RatingCursor(tables[i - 1].ratings, before[i - 1]), RanksBefore, limit, page, true);
    assert page[|page| - 1] in page;
    assert before[i] == page[|page| - 1].user;
    assert Resolved(tables, before)[i] == RatingCursor(tables[i].ratings, before[i]);
  }

  /** If every cursor still resolves to the key it was issued for, each such row is returned on exactly one page. */
  lemma RatingRowsReturnedOnce(tables: seq<RatingTable>, minLevel: int, before: seq<int>, pages: seq<seq<RatingKey>>,
                               limit: nat, x: RatingKey)
    requires limit > 0 && RatingRequests(tables, minLevel, before, pages, limit)
    requires forall i | 0 <= i < |tables| :: x in Matching(tables, minLevel)[i]
    requires forall i | 0 <= i < |tables| :: Resolved(tables, before)[i] == CursorOf(pages, i)
    ensures exists i :: && 0 <= i < |pages| && x in pages[i] && (forall j | 0 <= j < |pages| && x in pages[j] :: j == i)
  {
    RanksBeforeIsStrictTotalOrder();
    RequestsAreLooseWalk(tables, minLevel, before, pages, limit);
    PresentRowsReturnedOnce(Matching(tables, minLevel), pages, RanksBefore, limit, x);
  }

  lemma {:induction false} WrongsElsewhere(cursors: seq<Option<RatingKey>>, pages: seq<seq<RatingKey>>, i: nat, n: nat,
                                           x: RatingKey)
    requires n <= |cursors| == |pages| && i < |pages|
    requires forall j | 0 <= j < |pages| && j != i ::
               !RepeatedAt(cursors, pages, RanksBefore, j, x) && !SkippedAt(cursors, pages, RanksBefore, j, x)
    ensures Repeats(cursors, pages, RanksBefore, n, x) ==
            if i < n && RepeatedAt(cursors, pages, RanksBefore, i, x) then 1 else 0
    ensures Skips(cursors, pages, RanksBefore, n, x) ==
            if i < n && SkippedAt(cursors, pages, RanksBefore, i, x) then 1 else 0
  {
    if n > 0 {
      WrongsElsewhere(cursors, pages, i, n - 1, x);
    }
  }

  /** The converse, request by request: when no other request wrongs a row, it is returned twice if request i
      goes back before it, never if request i jumps over it, and once if request i does neither. */
  lemma OneWrongRequest(tables: seq<RatingTable>, minLevel: int, before: seq<int>, pages: seq<seq<RatingKey>>,
                        limit: nat, i: nat, x: RatingKey)
    requires limit > 0 && RatingRequests(tables, minLevel, before, pages, limit) && i < |pages|
    requires forall j | 0 <= j < |tables| :: x in Matching(tables, minLevel)[j]
    requires forall j | 0 <= j < |pages| && j != i ::
               !RepeatedAt(Resolved(tables, before), pages, RanksBefore, j, x) &&
               !SkippedAt(Resolved(tables, before), pages, RanksBefore, j, x)
    ensures Returns(pages, |pages|, x) ==
            if RepeatedAt(Resolved(tables, before), pages, RanksBefore, i, x) then 2
            else if SkippedAt(Resolved(tables, before), pages, RanksBefore, i, x) then 0 else 1
  {
    RatingRowReturns(tables, minLevel, before, pages, limit, x);
    WrongsElsewhere(Resolved(tables, before), pages, i, |pages|, x);
  }

  /** Once the cursor's user is gone the next request starts over: it returns the top row, and goes back
      before every matching row that does not rank after the deleted one. */
  lemma DeletedCursorStartsOver(tables: seq<RatingTable>, minLevel: int, before: seq<int>, pages: seq<seq<RatingKey>>,
                                limit: nat,
                                i: nat, x: RatingKey)
    requires limit > 0 && RatingRequests(tables, minLevel, before, pages, limit) && 0 < i < |pages|
    requires before[i] !in tables[i].ratings
    requires IsLeast(x, Matching(tables, minLevel)[i], RanksBefore)
    ensures x in pages[i] && pages[i - 1] != []
    ensures forall y | !RanksBefore(pages[i - 1][|pages[i - 1]| - 1], y) ::
              RepeatedAt(Resolved(tables, before), pages, RanksBefore, i, y)
  {
    var matching := Matching(tables, minLevel)[i];
    assert IsPage(matching, RatingCursor(tables[i].ratings, before[i]), RanksBefore, limit, pages[i], i + 1 < |pages|);
    assert IsPage(MatchingRatings(tables[i - 1].ratings, minLevel, tables[i - 1].matches),
                  RatingCursor(tables[i - 1].ratings, before[i - 1]), RanksBefore, limit, pages[i - 1], true);
    assert x in Beyond(matching, None, RanksBefore);
    assert pages[i] != [] ==> pages[i][0] in pages[i];
  }

  function Everyone(ratings: map<int, Rating>): RatingTable {
    RatingTable(ratings, user => true)
  }

  /** Three users; the second, on whom the first page ends, is deleted: the first is returned twice. */
  lemma DeletionRepeatsARow(top: RatingKey)
    returns (tables: seq<RatingTable>, before: seq<int>, pages: seq<seq<RatingKey>>)
    requires top == RatingKey(9, 0, 1)
    ensures RatingRequests(tables, 0, before, pages, 2)
    ensures (forall i | 0 <= i < |tables| :: top in Matching(tables, 0)[i]) && Returns(pages, |pages|, top) == 2
  {
    var k2, k3 := RatingKey(5, 0, 2), RatingKey(1, 0, 3);
    var first := map[1 := Rating(9, 0), 2 := Rating(5, 0), 3 := Rating(1, 0)];
    var second := map[1 := Rating(9, 0), 3 := Rating(1, 0)];
    tables, before, pages := [Everyone(first), Everyone(second)], [0, 2], [[top, k2], [top, k3]];
    ThreeMatch(first, top, k2, k3);
    TwoMatch(second, top, k3);
    assert k3 in MatchingRatings(first, 0, Everyone(first).matches) && k3 !in pages[0];
    assert Returns(pages, 1, top) == 1 && Returns(pages, 0, top) == 0;
  }

  /** Three users; the first, on whom the first page ends, falls below the second: the second, who never
      moves, is never returned. */
  lemma FallingCursorSkipsARow(middle: RatingKey)
    returns (tables: seq<RatingTable>, before: seq<int>, pages: seq<seq<RatingKey>>)
    requires middle == RatingKey(5, 0, 2)
    ensures RatingRequests(tables, 0, before, pages, 1)
    ensures (forall i | 0 <= i < |tables| :: middle in Matching(tables, 0)[i]) && Returns(pages, |pages|, middle) == 0
  {
    var k1, k1', k3 := RatingKey(9, 0, 1), RatingKey(3, 0, 1), RatingKey(1, 0, 3);
    var first := map[1 := Rating(9, 0), 2 := Rating(5, 0), 3 := Rating(1, 0)];
    var second := map[1 := Rating(3, 0), 2 := Rating(5, 0), 3 := Rating(1, 0)];
    tables, before, pages := [Everyone(first), Everyone(second)], [0, 1], [[k1], [k3]];
    ThreeMatch(first, k1, middle, k3);
    ThreeMatch(second, k1', middle, k3);
    assert k3 in MatchingRatings(first, 0, Everyone(first).matches) && k3 !in pages[0];
    assert Returns(pages, 1, middle) == 0 && Returns(pages, 0, middle) == 0;
  }

  lemma ThreeMatch(ratings: map<int, Rating>, a: RatingKey, b: RatingKey, c: RatingKey)
    requires a.level >= 0 && b.level >= 0 && c.level >= 0 && ratings.Keys == {1, 2, 3}
    requires a == KeyOf(ratings, 1) && b == KeyOf(ratings, 2) && c == KeyOf(ratings, 3)
    ensures MatchingRatings(ratings, 0, Everyone(ratings).matches) == {a, b, c}
  {
    assert 1 in ratings && 2 in ratings && 3 in ratings;
  }

  lemma TwoMatch(ratings: map<int, Rating>, a: RatingKey, c: RatingKey)
    requires a.level >= 0 && c.level >= 0 && ratings.Keys == {1, 3}
    requires a == KeyOf(ratings, 1) && c == KeyOf(ratings, 3)
    ensures MatchingRatings(ratings, 0, Everyone(ratings).matches) == {a, c}
  {
    assert 1 in ratings && 3 in ratings;
  }
}
