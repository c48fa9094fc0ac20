/** Keyset pagination: BaseRepository.list_page over a table that other
    clients keep changing, and whole walks along next_cursor. */
module Pagination {
  import opened Outcomes
  import opened Sorting

  const MAX_PAGE := 100

  /** What the cursor carries and the query sorts by. */
  datatype Key = Key(createdAt: int, id: nat)

  /** The strict comparison of the WHERE clause, in either direction. */
  predicate Before(asc: bool, a: Key, b: Key) {
    if asc then a.createdAt < b.createdAt || (a.createdAt == b.createdAt && a.id < b.id)
    else a.createdAt > b.createdAt || (a.createdAt == b.createdAt && a.id > b.id)
  }

  function Order(asc: bool): (Key, Key) -> bool { (a, b) => Before(asc, a, b) }

  lemma OrderIsTotal(asc: bool)
    ensures StrictTotalOrder(Order(asc))
  {
  }

  datatype Row<A> = Row(createdAt: int, deleted: bool, attrs: A)

  /** Rows by primary key. */
  type Table<A> = map<nat, Row<A>>

  /** An opaque token; anything not produced by EncodeCursor is malformed. */
  datatype Cursor = Token(key: Key) | Malformed

  datatype PageError = InvalidCursor | NegativeLimit

  datatype Page = Page(items: seq<Key>, nextCursor: Option<Cursor>, hasMore: bool)

  function EncodeCursor(k: Key): Cursor { Token(k) }

  function DecodeCursor(c: Cursor): Result<Key, PageError> {
    match c
    case Token(k) => Ok(k)
    case Malformed => Err(InvalidCursor)
  }

  /** The rows selected by the WHERE clause: live, filtered, strictly past the pivot. */
  function Matching<A>(t: Table<A>, filter: A -> bool, asc: bool, pivot: Option<Key>): set<Key> {
    set id | id in t && !t[id].deleted && filter(t[id].attrs)
             && (pivot.None? || Before(asc, pivot.value, Key(t[id].createdAt, id)))
      :: Key(t[id].createdAt, id)
  }

  lemma MatchingHas<A>(t: Table<A>, filter: A -> bool, asc: bool, pivot: Option<Key>, k: Key)
    ensures k in Matching(t, filter, asc, pivot)
            <==> k.id in t && !t[k.id].deleted && filter(t[k.id].attrs) && t[k.id].createdAt == k.createdAt
                 && (pivot.None? || Before(asc, pivot.value, k))
  {
    if k.id in t && t[k.id].createdAt == k.createdAt { assert k == Key(t[k.id].createdAt, k.id); }
  }

  function Ordered<A>(t: Table<A>, filter: A -> bool, asc: bool, pivot: Option<Key>): seq<Key> {
    OrderIsTotal(asc);
    Sort(Matching(t, filter, asc, pivot), Order(asc))
  }

  lemma OrderedFacts<A>(t: Table<A>, filter: A -> bool, asc: bool, pivot: Option<Key>)
    ensures
      var r := Ordered(t, filter, asc, pivot);
      && Sorted(r, Order(asc))
      && (forall k :: k in r <==> k in Matching(t, filter, asc, pivot))
      && |r| == |Matching(t, filter, asc, pivot)|
  {
    OrderIsTotal(asc);
    SortFacts(Matching(t, filter, asc, pivot), Order(asc));
  }

  /** The rows a query finds and their order, in terms of the table alone. */
  lemma OrderedMeaning<A>(t: Table<A>, filter: A -> bool, asc: bool, pivot: Option<Key>)
    ensures
      var r := Ordered(t, filter, asc, pivot);
      && |r| == |Matching(t, filter, asc, pivot)|
      && (forall k :: k in r <==>
            && k.id in t && !t[k.id].deleted && filter(t[k.id].attrs) && k.createdAt == t[k.id].createdAt
            && (pivot.Some? && asc ==>
                  pivot.value.createdAt < k.createdAt
                  || (pivot.value.createdAt == k.createdAt && pivot.value.id < k.id))
            && (pivot.Some? && !asc ==>
                  pivot.value.createdAt > k.createdAt
                  || (pivot.value.createdAt == k.createdAt && pivot.value.id > k.id)))
      && (forall i, j :: 0 <= i < j < |r| && asc ==>
            r[i].createdAt < r[j].createdAt || (r[i].createdAt == r[j].createdAt && r[i].id < r[j].id))
      && (forall i, j :: 0 <= i < j < |r| && !asc ==>
            r[i].createdAt > r[j].createdAt || (r[i].createdAt == r[j].createdAt && r[i].id > r[j].id))
  {
    OrderedFacts(t, filter, asc, pivot);
    var r := Ordered(t, filter, asc, pivot);
    hide Ordered, Matching;
    forall k { MatchingHas(t, filter, asc, pivot, k); }
    forall i, j | 0 <= i < j < |r| ensures Before(asc, r[i], r[j]) { assert Order(asc)(r[i], r[j]); }
  }

  lemma OrderedSize<A>(t: Table<A>, filter: A -> bool, asc: bool, pivot: Option<Key>)
    ensures |Ordered(t, filter, asc, pivot)| == |Matching(t, filter, asc, pivot)|
  {
    OrderedFacts(t, filter, asc, pivot);
  }

  function EffectiveLimit(limit: int): int { if limit < MAX_PAGE then limit else MAX_PAGE }

  /** What is left of the query once its rows are sorted: fetch one row more
      than asked, trim, and point the cursor at the last row kept. */
  function Cut(all: seq<Key>, n: int): Page
    requires n >= -1
  {
    var fetched := if |all| <= n + 1 then all else all[..n + 1];
    var hasMore := |fetched| > n;
    var items := if hasMore then fetched[..if n < 0 then 0 else n] else fetched;
    Page(items, if hasMore && items != [] then Some(EncodeCursor(Last(items))) else None, hasMore)
  }

  function Last(s: seq<Key>): Key
    requires s != []
  {
    s[|s| - 1]
  }

  /** list_page. The database refuses a negative LIMIT, which a limit below -1
      produces; at -1 and 0 the slice of the fetched rows is empty. */
  function ListPage<A>(t: Table<A>, limit: int, cursor: Option<Cursor>, asc: bool, filter: A -> bool)
    : Result<Page, PageError>
  {
    var n := EffectiveLimit(limit);
    if cursor.Some? && DecodeCursor(cursor.value).Err? then Err(InvalidCursor)
    else if n + 1 < 0 then Err(NegativeLimit)
    else
      var pivot := if cursor.None? then None else Some(DecodeCursor(cursor.value).value);
      Ok(Cut(Ordered(t, filter, asc, pivot), n))
  }

  function CursorAt(pivot: Option<Key>): Option<Cursor> {
    if pivot.None? then None else Some(EncodeCursor(pivot.value))
  }

  lemma CutIsPrefix(all: seq<Key>, n: int)
    requires n >= 1
    ensures Cut(all, n) == if |all| <= n then Page(all, None, false)
                           else Page(all[..n], Some(EncodeCursor(all[n - 1])), true)
  {
    if |all| > n { assert all[..n + 1][..n] == all[..n]; }
  }

  /** The page is the first min(limit, 100) matching rows past the cursor, and
      has_more says exactly whether a matching row was left behind. */
  lemma PageIsPrefix<A>(t: Table<A>, limit: int, pivot: Option<Key>, asc: bool, filter: A -> bool)
    requires limit >= 1
    ensures
      var all := Ordered(t, filter, asc, pivot);
      var n := if limit > 100 then 100 else limit;
      ListPage(t, limit, if pivot.None? then None else Some(Token(pivot.value)), asc, filter)
      == Ok(if |all| <= n then Page(all, None, false)
            else Page(all[..n], Some(Token(all[n - 1])), true))
  {
    CutIsPrefix(Ordered(t, filter, asc, pivot), EffectiveLimit(limit));
  }

  /** How many rows a page holds, and when more are announced. */
  lemma PageSize<A>(t: Table<A>, limit: int, pivot: Option<Key>, asc: bool, filter: A -> bool)
    requires limit >= 1
    ensures
      var r, found := ListPage(t, limit, CursorAt(pivot), asc, filter), |Matching(t, filter, asc, pivot)|;
      && r.Ok?
      && (limit <= 100 ==> |r.value.items| == (if found < limit then found else limit))
      && (limit <= 100 ==> (r.value.hasMore <==> found > limit))
      && (limit > 100 ==> |r.value.items| == (if found < 100 then found else 100))
      && (limit > 100 ==> (r.value.hasMore <==> found > 100))
  {
    PageIsPrefix(t, limit, pivot, asc, filter);
    OrderedFacts(t, filter, asc, pivot);
    hide ListPage, Ordered, Matching;
  }

  /** A request fails exactly for a malformed cursor, which is noticed first, or
      a limit below -1; a limit of 0 or -1 yields no rows. */
  lemma PageFailsIff<A>(t: Table<A>, limit: int, cursor: Option<Cursor>, asc: bool, filter: A -> bool)
    ensures
      var r := ListPage(t, limit, cursor, asc, filter);
      && (r == Err(InvalidCursor) <==> cursor == Some(Malformed))
      && (r == Err(NegativeLimit) <==> cursor != Some(Malformed) && limit < -1)
      && (r.Ok? && limit <= 0 ==> r.value.items == [])
  {
  }

  lemma CutHasMore(all: seq<Key>, n: int)
    requires n >= -1
    ensures var p := Cut(all, n);
            p.hasMore && p.nextCursor.None? <==> n == -1 || (n == 0 && |all| > 0)
  {
    if n >= 1 { CutIsPrefix(all, n); }
  }

  /** has_more is announced without a cursor to follow exactly for these limits;
      with limit >= 1 it never is. */
  lemma HasMoreWithoutCursor<A>(t: Table<A>, limit: int, pivot: Option<Key>, asc: bool, filter: A -> bool)
    ensures
      var r := ListPage(t, limit, CursorAt(pivot), asc, filter);
      r.Ok? && r.value.hasMore && r.value.nextCursor.None?
      <==> limit == -1 || (limit == 0 && Matching(t, filter, asc, pivot) != {})
  {
    var all := Ordered(t, filter, asc, pivot);
    var n := EffectiveLimit(limit);
    if n >= -1 { CutHasMore(all, n); }
    OrderedSize(t, filter, asc, pivot);
  }

  /** What any page promises, whatever its limit. */
  lemma PageFacts<A>(t: Table<A>, limit: int, pivot: Option<Key>, asc: bool, filter: A -> bool)
    ensures
      var r := ListPage(t, limit, CursorAt(pivot), asc, filter);
      r.Ok? ==>
        && r.value.items <= Ordered(t, filter, asc, pivot)
        && Sorted(r.value.items, Order(asc))
        && (forall k :: k in r.value.items ==> k in Matching(t, filter, asc, pivot))
        && (r.value.nextCursor.Some? ==>
              r.value.items != [] && r.value.nextCursor == CursorAt(Some(Last(r.value.items))))
  {
    var r := ListPage(t, limit, CursorAt(pivot), asc, filter);
    OrderedFacts(t, filter, asc, pivot);
    if r.Ok? {
      var all := Ordered(t, filter, asc, pivot);
      assert r.value.items <= all;
      forall k | k in r.value.items ensures k in all {
        var i :| 0 <= i < |r.value.items| && r.value.items[i] == k;
        assert all[i] == k;
      }
    }
  }

  // ---- Whole walks ---------------------------------------------------------

  /** One request of a walk: the table as that call sees it, and its limit. */
  datatype Request<A> = Request(table: Table<A>, limit: int)

  /** Everything a client collects by following next_cursor through `reqs`. */
  function Walk<A>(reqs: seq<Request<A>>, cursor: Option<Cursor>, asc: bool, filter: A -> bool): seq<Key> {
    if reqs == [] then [] else
      match ListPage(reqs[0].table, reqs[0].limit, cursor, asc, filter)
      case Err(_) => []
      case Ok(p) => p.items + if p.nextCursor.None? then [] else Walk(reqs[1..], p.nextCursor, asc, filter)
  }

  /** The walk reaches a page without a next_cursor. */
  predicate Finished<A>(reqs: seq<Request<A>>, cursor: Option<Cursor>, asc: bool, filter: A -> bool) {
    reqs != [] &&
    match ListPage(reqs[0].table, reqs[0].limit, cursor, asc, filter)
    case Err(_) => false
    case Ok(p) => p.nextCursor.None? || Finished(reqs[1..], p.nextCursor, asc, filter)
  }

  /** A key of a row that the table holds with exactly that timestamp. */
  predicate Holds<A>(t: Table<A>, k: Key) { k.id in t && t[k.id].createdAt == k.createdAt }

  lemma SortedConcat(a: seq<Key>, b: seq<Key>, asc: bool)
    requires Sorted(a, Order(asc)) && Sorted(b, Order(asc))
    requires a != [] && forall k :: k in b ==> Order(asc)(Last(a), k)
    ensures Sorted(a + b, Order(asc))
  {
    OrderIsTotal(asc);
    var less := Order(asc);
    forall i, j | 0 <= i < j < |a + b| ensures less((a + b)[i], (a + b)[j]) {
      if i < |a| <= j {
        assert b[j - |a|] in b;
        assert i < |a| - 1 ==> less(a[i], Last(a));
      }
    }
  }

  /** One page of a walk, in terms of the rows past the pivot. */
  lemma WalkStep<A>(reqs: seq<Request<A>>, pivot: Option<Key>, asc: bool, filter: A -> bool)
    requires reqs != [] && reqs[0].limit >= 1
    ensures
      var all := Ordered(reqs[0].table, filter, asc, pivot);
      var n := EffectiveLimit(reqs[0].limit);
      var cursor := CursorAt(pivot);
      if |all| <= n then Finished(reqs, cursor, asc, filter) && Walk(reqs, cursor, asc, filter) == all
      else
        var next := CursorAt(Some(all[n - 1]));
        && Finished(reqs, cursor, asc, filter) == Finished(reqs[1..], next, asc, filter)
        && Walk(reqs, cursor, asc, filter) == all[..n] + Walk(reqs[1..], next, asc, filter)
  {
    hide ListPage, Ordered, Matching, Before, Sort;
    PageIsPrefix(reqs[0].table, reqs[0].limit, pivot, asc, filter);
    if |Ordered(reqs[0].table, filter, asc, pivot)| <= EffectiveLimit(reqs[0].limit) {
      return;
    }
  }

  /** Whatever other clients do between the pages and whatever the limits,
      the collected rows strictly follow the order, so no key appears twice. */
  lemma {:induction false} WalkIsSorted<A>(reqs: seq<Request<A>>, pivot: Option<Key>, asc: bool, filter: A -> bool)
    ensures Sorted(Walk(reqs, CursorAt(pivot), asc, filter), Order(asc))
    ensures forall k :: k in Walk(reqs, CursorAt(pivot), asc, filter) && pivot.Some? ==> Order(asc)(pivot.value, k)
    decreases |reqs|
  {
    if reqs != [] {
      var r := ListPage(reqs[0].table, reqs[0].limit, CursorAt(pivot), asc, filter);
      PageFacts(reqs[0].table, reqs[0].limit, pivot, asc, filter);
      if r.Ok? && r.value.nextCursor.Some? {
        var items := r.value.items;
        WalkIsSorted(reqs[1..], Some(Last(items)), asc, filter);
        var rest := Walk(reqs[1..], r.value.nextCursor, asc, filter);
        SortedConcat(items, rest, asc);
        OrderIsTotal(asc);
        assert Last(items) in items;
      }
    }
  }

  /** Other clients may insert, edit, soft-delete, restore or remove rows; the
      created_at of a row never changes. */
  ghost predicate Evolves<A>(before: Table<A>, after: Table<A>) {
    forall id :: id in before && id in after ==> after[id].createdAt == before[id].createdAt
  }

  /** From page to page the table evolves, and a removed primary key is never used again. */
  ghost predicate Evolving<A>(reqs: seq<Request<A>>) {
    && (forall i :: 0 <= i < |reqs| - 1 ==> Evolves(reqs[i].table, reqs[i + 1].table))
    && (forall i, j, k, id ::
        0 <= i < j < k < |reqs| && id in reqs[i].table && id in reqs[k].table ==> id in reqs[j].table)
  }

  lemma {:induction false} RowsKeepTheirTime<A>(reqs: seq<Request<A>>, i: nat, j: nat)
    requires Evolving(reqs) && i <= j < |reqs|
    ensures Evolves(reqs[i].table, reqs[j].table)
    decreases j - i
  {
    if i < j {
      RowsKeepTheirTime(reqs, i, j - 1);
      assert Evolves(reqs[j - 1].table, reqs[j - 1 + 1].table);
      forall id | id in reqs[i].table && id in reqs[j].table
        ensures reqs[j].table[id].createdAt == reqs[i].table[id].createdAt
      {
        assert i < j - 1 ==> id in reqs[j - 1].table;
      }
    }
  }

  lemma {:induction false} WalkIsHeld<A>(reqs: seq<Request<A>>, pivot: Option<Key>, asc: bool, filter: A -> bool,
                                         k: Key)
    requires k in Walk(reqs, CursorAt(pivot), asc, filter)
    ensures exists i :: 0 <= i < |reqs| && Holds(reqs[i].table, k)
    decreases |reqs|
  {
    var r := ListPage(reqs[0].table, reqs[0].limit, CursorAt(pivot), asc, filter);
    PageFacts(reqs[0].table, reqs[0].limit, pivot, asc, filter);
    if k in r.value.items {
      assert Holds(reqs[0].table, k);
    } else {
      WalkIsHeld(reqs[1..], Some(Last(r.value.items)), asc, filter, k);
      var i :| 0 <= i < |reqs[1..]| && Holds(reqs[1..][i].table, k);
      assert Holds(reqs[i + 1].table, k);
    }
  }

  /** No row, identified by its primary key, is ever returned twice. */
  lemma WalkReturnsNoRowTwice<A>(reqs: seq<Request<A>>, asc: bool, filter: A -> bool)
    requires Evolving(reqs)
    ensures
      var w := Walk(reqs, None, asc, filter);
      forall i, j :: 0 <= i < j < |w| ==> w[i].id != w[j].id
  {
    WalkIsSorted(reqs, None, asc, filter);
    var w := Walk(reqs, None, asc, filter);
    forall i, j | 0 <= i < j < |w| ensures w[i].id != w[j].id {
      WalkIsHeld(reqs, None, asc, filter, w[i]);
      WalkIsHeld(reqs, None, asc, filter, w[j]);
      var p :| 0 <= p < |reqs| && Holds(reqs[p].table, w[i]);
      var q :| 0 <= q < |reqs| && Holds(reqs[q].table, w[j]);
      RowsKeepTheirTime(reqs, if p < q then p else q, if p < q then q else p);
      assert Order(asc)(w[i], w[j]);
    }
  }

  /** A row that matches in every table of a finished walk is returned. */
  lemma {:induction false} WalkIsComplete<A>(reqs: seq<Request<A>>, pivot: Option<Key>, asc: bool, filter: A -> bool,
                                             k: Key)
    requires pivot.Some? ==> Before(asc, pivot.value, k)
    requires forall i :: 0 <= i < |reqs| ==> reqs[i].limit >= 1 && k in Matching(reqs[i].table, filter, asc, None)
    requires Finished(reqs, CursorAt(pivot), asc, filter)
    ensures k in Walk(reqs, CursorAt(pivot), asc, filter)
    decreases |reqs|
  {
    WalkStep(reqs, pivot, asc, filter);
    var all := Ordered(reqs[0].table, filter, asc, pivot);
    var n := EffectiveLimit(reqs[0].limit);
    OrderedFacts(reqs[0].table, filter, asc, pivot);
    assert k in Matching(reqs[0].table, filter, asc, pivot);
    hide Walk, Finished, Ordered, Matching, CursorAt, ListPage;
    if |all| > n {
      BeforeOrAfter(all, n, asc, k);
      if k !in all[..n] { WalkIsComplete(reqs[1..], Some(all[n - 1]), asc, filter, k); }
    }
  }

  lemma BeforeOrAfter(all: seq<Key>, n: nat, asc: bool, k: Key)
    requires 1 <= n <= |all| && Sorted(all, Order(asc)) && k in all
    ensures k in all[..n] || Order(asc)(all[n - 1], k)
  {
    var i :| 0 <= i < |all| && all[i] == k;
    if i < n { assert all[..n][i] == k; }
  }

  // ---- An unchanging table -------------------------------------------------

  lemma PastPivot<A>(t: Table<A>, filter: A -> bool, asc: bool, pivot: Option<Key>, p: Key, k: Key)
    requires p in Matching(t, filter, asc, pivot)
    ensures k in Matching(t, filter, asc, Some(p))
            <==> k in Matching(t, filter, asc, pivot) && Order(asc)(p, k)
  {
  }

  lemma SuffixOfSorted(all: seq<Key>, n: nat, asc: bool, k: Key)
    requires 1 <= n <= |all| && Sorted(all, Order(asc))
    ensures k in all[n..] <==> k in all && Order(asc)(all[n - 1], k)
  {
    OrderIsTotal(asc);
    var less := Order(asc);
    if k in all {
      var i :| 0 <= i < |all| && all[i] == k;
      if i >= n { assert all[n..][i - n] == k; assert less(all[n - 1], all[i]); }
      if i < n - 1 { assert less(all[i], all[n - 1]); }
      if i < n { assert forall j :: n <= j < |all| ==> less(all[i], all[j]); }
    }
  }

  lemma RestAfterPage<A>(t: Table<A>, filter: A -> bool, asc: bool, pivot: Option<Key>, n: nat)
    requires 1 <= n < |Ordered(t, filter, asc, pivot)|
    ensures
      var all := Ordered(t, filter, asc, pivot);
      Ordered(t, filter, asc, Some(all[n - 1])) == all[n..]
  {
    var all := Ordered(t, filter, asc, pivot);
    var rest := Ordered(t, filter, asc, Some(all[n - 1]));
    OrderedFacts(t, filter, asc, pivot);
    OrderedFacts(t, filter, asc, Some(all[n - 1]));
    assert all[n - 1] in all;
    forall k ensures k in rest <==> k in all[n..] {
      PastPivot(t, filter, asc, pivot, all[n - 1], k);
      SuffixOfSorted(all, n, asc, k);
    }
    OrderIsTotal(asc);
    SortedUnique(rest, all[n..], Order(asc));
  }

  /** On an unchanging table the pages concatenate to exactly the sorted,
      filtered table. */
  lemma {:induction false} StaticWalk<A>(reqs: seq<Request<A>>, t: Table<A>, pivot: Option<Key>, asc: bool,
                                         filter: A -> bool)
    requires forall i :: 0 <= i < |reqs| ==> reqs[i].limit >= 1 && reqs[i].table == t
    requires Finished(reqs, CursorAt(pivot), asc, filter)
    ensures Walk(reqs, CursorAt(pivot), asc, filter) == Ordered(t, filter, asc, pivot)
    decreases |reqs|
  {
    assert reqs != [];
    var all := Ordered(t, filter, asc, pivot);
    var n := EffectiveLimit(reqs[0].limit);
    assert n >= 1;
    hide *;
    WalkStep(reqs, pivot, asc, filter);
    if |all| > n {
      var next := Some(all[n - 1]);
      RestOfStaticWalk(t, filter, asc, pivot, n);
      StaticWalk(reqs[1..], t, next, asc, filter);
    }
  }

  lemma RestOfStaticWalk<A>(t: Table<A>, filter: A -> bool, asc: bool, pivot: Option<Key>, n: nat)
    requires 1 <= n < |Ordered(t, filter, asc, pivot)|
    ensures
      var all := Ordered(t, filter, asc, pivot);
      all == all[..n] + Ordered(t, filter, asc, Some(all[n - 1]))
  {
    RestAfterPage(t, filter, asc, pivot, n);
    hide Ordered;
    var all := Ordered(t, filter, asc, pivot);
    assert all == all[..n] + all[n..];
  }

  function Repeat<A>(t: Table<A>, limit: int, pages: nat): seq<Request<A>> {
    if pages == 0 then [] else [Request(t, limit)] + Repeat(t, limit, pages - 1)
  }

  lemma StaticStep<A>(t: Table<A>, limit: int, pages: nat, pivot: Option<Key>, asc: bool, filter: A -> bool)
    requires limit >= 1 && pages >= 1
    ensures
      var all := Ordered(t, filter, asc, pivot);
      var n := EffectiveLimit(limit);
      if |all| <= n then Finished(Repeat(t, limit, pages), CursorAt(pivot), asc, filter)
      else
        && |Ordered(t, filter, asc, Some(all[n - 1]))| == |all| - n
        && Finished(Repeat(t, limit, pages), CursorAt(pivot), asc, filter)
           == Finished(Repeat(t, limit, pages - 1), CursorAt(Some(all[n - 1])), asc, filter)
  {
    assert Repeat(t, limit, pages)[1..] == Repeat(t, limit, pages - 1);
    hide Finished, Walk, Ordered, Matching, CursorAt;
    WalkStep(Repeat(t, limit, pages), pivot, asc, filter);
    if |Ordered(t, filter, asc, pivot)| > EffectiveLimit(limit) {
      RestAfterPage(t, filter, asc, pivot, EffectiveLimit(limit));
    }
  }

  /** The walk ends, after exactly as many pages as the rows fill (and one
      page when there are none). */
  lemma {:induction false} StaticWalkLength<A>(t: Table<A>, limit: int, pages: nat, pivot: Option<Key>, asc: bool,
                                               filter: A -> bool)
    requires limit >= 1
    ensures Finished(Repeat(t, limit, pages), CursorAt(pivot), asc, filter)
            <==> pages >= 1 && pages * (if limit > 100 then 100 else limit) >= |Matching(t, filter, asc, pivot)|
    decreases pages
  {
    if pages > 0 {
      var n := EffectiveLimit(limit);
      assert n == (if limit > 100 then 100 else limit) >= 1;
      hide *;
      var all := Ordered(t, filter, asc, pivot);
      StaticStep(t, limit, pages, pivot, asc, filter);
      OrderedSize(t, filter, asc, pivot);
      PagesHold(pages, n, |all|);
      if |all| > n {
        StaticWalkLength(t, limit, pages - 1, Some(all[n - 1]), asc, filter);
        OrderedSize(t, filter, asc, Some(all[n - 1]));
      }
    }
  }

  lemma PagesHold(pages: nat, n: int, rows: nat)
    requires pages >= 1 && n >= 1
    ensures rows <= n ==> pages * n >= rows
    ensures rows > n ==> (pages * n >= rows <==> pages - 1 >= 1 && (pages - 1) * n >= rows - n)
  {
    assert pages * n == n + (pages - 1) * n;
  }

  // ---- The repository that serves the walks ---------------------------------

  class Repository<A> {
    var rows: Table<A>

    constructor ()
      ensures rows == map[]
    {
      rows := map[];
    }

    /** create: the primary key must be new, or the INSERT is refused. */
    method Create(id: nat, createdAt: int, attrs: A) returns (ok: bool)
      modifies this
      ensures ok == (id !in old(rows))
      ensures rows == if ok then old(rows)[id := Row(createdAt, false, attrs)] else old(rows)
      ensures Evolves(old(rows), rows)
    {
      ok := id !in rows;
      if ok { rows := rows[id := Row(createdAt, false, attrs)]; }
    }

    /** update: sets attributes of an existing instance. */
    method Update(id: nat, attrs: A)
      requires id in rows
      modifies this
      ensures rows == old(rows)[id := old(rows)[id].(attrs := attrs)]
      ensures Evolves(old(rows), rows)
    {
      rows := rows[id := rows[id].(attrs := attrs)];
    }

    /** soft_delete, applied to each fetched item in turn. */
    method SoftDeleteAll(items: seq<Key>)
      requires forall i :: 0 <= i < |items| ==> items[i].id in rows
      modifies this
      ensures rows == Retire(old(rows), set k | k in items :: k.id)
      ensures Evolves(old(rows), rows)
    {
      for n := 0 to |items|
        invariant rows == Retire(old(rows), set k | k in items[..n] :: k.id)
      {
        rows := rows[items[n].id := rows[items[n].id].(deleted := true)];
        assert items[..n + 1] == items[..n] + [items[n]];
      }
      assert items[..|items|] == items;
    }

    /** hard_delete: removes the row. */
    method HardDelete(id: nat)
      requires id in rows
      modifies this
      ensures rows == old(rows) - {id}
      ensures Evolves(old(rows), rows)
    {
      rows := rows - {id};
    }

    /** The statement that list_page builds: WHERE live, filtered and past the
        pivot, ORDER BY both columns, LIMIT. */
    method Select(filter: A -> bool, asc: bool, pivot: Option<Key>, count: nat) returns (fetched: seq<Key>)
      ensures fetched == var all := Ordered(rows, filter, asc, pivot); if |all| <= count then all else all[..count]
    {
      var where := set id | id in rows && !rows[id].deleted;
      where := set id | id in where && filter(rows[id].attrs);
      if pivot.Some? {
        where := set id | id in where && Before(asc, pivot.value, Key(rows[id].createdAt, id));
      }
      var keys := set id | id in where :: Key(rows[id].createdAt, id);
      assert keys == Matching(rows, filter, asc, pivot);
      hide Matching;
      OrderIsTotal(asc);
      fetched := Sort(keys, Order(asc));
      if |fetched| > count { fetched := fetched[..count]; }
    }

    /** list_page: decode the cursor, fetch one row more than asked, trim, and
        point the next cursor at the last row kept. */
    method List(limit: int, cursor: Option<Cursor>, asc: bool, filter: A -> bool) returns (r: Result<Page, PageError>)
      ensures r == ListPage(rows, limit, cursor, asc, filter)
    {
      hide Ordered;
      var n := if limit < MAX_PAGE then limit else MAX_PAGE;
      var pivot := None;
      if cursor.Some? {
        var decoded := DecodeCursor(cursor.value);
        if decoded.Err? { return Err(InvalidCursor); }
        pivot := Some(decoded.value);
      }
      if n + 1 < 0 { return Err(NegativeLimit); }
      var items := Select(filter, asc, pivot, n + 1);
      var hasMore := |items| > n;
      if hasMore { items := items[..if n < 0 then 0 else n]; }
      var nextCursor := None;
      if hasMore && items != [] { nextCursor := Some(EncodeCursor(items[|items| - 1])); }
      r := Ok(Page(items, nextCursor, hasMore));
    }

    /** A query without LIMIT, newest first. */
    method ListAll(filter: A -> bool) returns (items: seq<Key>)
      ensures items == Ordered(rows, filter, false, None)
    {
      items := Ordered(rows, filter, false, None);
    }
  }

  /** The table after the rows with these primary keys are soft-deleted. */
  function Retire<A>(t: Table<A>, ids: set<nat>): Table<A> {
    map id | id in t :: if id in ids then t[id].(deleted := true) else t[id]
  }

  /** Soft-deleting the keys that a query returned leaves exactly the other matches. */
  lemma RetireItems<A>(t: Table<A>, filter: A -> bool, asc: bool, items: seq<Key>)
    requires forall k :: k in items ==> k in Matching(t, filter, asc, None)
    ensures Matching(Retire(t, set k | k in items :: k.id), filter, asc, None)
            == Matching(t, filter, asc, None) - set k | k in items
  {
    var ids := set k | k in items :: k.id;
    var after := Retire(t, ids);
    forall k ensures k in Matching(after, filter, asc, None)
                     <==> k in Matching(t, filter, asc, None) && k !in items
    {
      MatchingHas(t, filter, asc, None, k);
      MatchingHas(after, filter, asc, None, k);
      if k.id in ids {
        var k' :| k' in items && k'.id == k.id;
        MatchingHas(t, filter, asc, None, k');
      }
    }
  }
}
