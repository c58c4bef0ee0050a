/** Keyset pagination of a user's likes, over a store that may change between the pages. */
module Pagination {
  import opened Finite
  import opened Ordering
  import opened LikesStore

  datatype UserLikeRow = UserLikeRow(contentType: string, contentId: string, likedAt: int)

  /** The cursor of a page: liked_at and content_id, without the content type. */
  datatype Cursor = Cursor(likedAt: int, contentId: string)

  datatype Page = Page(items: seq<UserLikeRow>, nextCursor: Option<Cursor>, hasMore: bool)

  type Collation = (string, string) -> bool

  function Position(r: UserLikeRow): Cursor { Cursor(r.likedAt, r.contentId) }

  /** ORDER BY liked_at DESC, content_id DESC. */
  predicate Precedes(collate: Collation, a: Cursor, b: Cursor) {
    a.likedAt > b.likedAt || (a.likedAt == b.likedAt && collate(b.contentId, a.contentId))
  }

  ghost predicate RowPrecedes(collate: Collation, a: UserLikeRow, b: UserLikeRow) {
    Precedes(collate, Position(a), Position(b))
  }

  ghost function NewestFirst(collate: Collation): (UserLikeRow, UserLikeRow) -> bool {
    (a, b) => RowPrecedes(collate, a, b)
  }

  /** The rows the WHERE clause keeps. */
  ghost function After(collate: Collation, rows: set<UserLikeRow>, cursor: Option<Cursor>): set<UserLikeRow> {
    set r | r in rows && (cursor.None? || Precedes(collate, cursor.value, Position(r)))
  }

  /** What the query may return with LIMIT n; SQL leaves the order of tied rows open. */
  ghost predicate IsFetch(collate: Collation, rows: set<UserLikeRow>, cursor: Option<Cursor>, n: nat,
                          out: seq<UserLikeRow>) {
    var kept := After(collate, rows, cursor);
    && |out| == Cut(n, |kept|)
    && Elements(out) <= kept
    && (forall i, j | 0 <= i < j < |out| :: out[i] != out[j] && !RowPrecedes(collate, out[j], out[i]))
    && (forall r, i | r in kept && r !in out && 0 <= i < |out| :: !RowPrecedes(collate, r, out[i]))
  }

  /** The handler's page: one row more than the limit was fetched to learn whether there is a next page. */
  function PageOf(rows: seq<UserLikeRow>, limit: nat): Page
    requires limit >= 1
  {
    var hasNext := |rows| > limit;
    var items := if hasNext then rows[..limit] else rows;
    Page(items, if hasNext then Some(Position(items[|items| - 1])) else None, hasNext)
  }

  ghost predicate IsPage(collate: Collation, rows: set<UserLikeRow>, cursor: Option<Cursor>, limit: nat, page: Page) {
    limit >= 1 && exists out :: IsFetch(collate, rows, cursor, limit + 1, out) && page == PageOf(out, limit)
  }

  /** A client following next_cursor: page i is fetched from what the store holds then, snaps[i]. */
  ghost predicate IsWalk(collate: Collation, snaps: seq<set<UserLikeRow>>, cursor: Option<Cursor>, limit: nat,
                         pages: seq<Page>) {
    && |snaps| == |pages|
    && (pages != [] ==>
          && IsPage(collate, snaps[0], cursor, limit, pages[0])
          && (|pages| > 1 ==> pages[0].hasMore && IsWalk(collate, snaps[1..], pages[0].nextCursor, limit, pages[1..])))
  }

  predicate Finished(pages: seq<Page>) { pages != [] && !pages[|pages| - 1].hasMore }

  function Returned(pages: seq<Page>): seq<UserLikeRow> {
    if pages == [] then [] else pages[0].items + Returned(pages[1..])
  }

  ghost predicate DistinctPositions(rows: set<UserLikeRow>) {
    forall a, b | a in rows && b in rows && a.likedAt == b.likedAt && a.contentId == b.contentId :: a == b
  }

  /** From the latest like to the earliest; likes of one instant descend by content id. */
  ghost predicate LatestFirst(collate: Collation, listing: seq<UserLikeRow>) {
    forall i, j | 0 <= i < j < |listing| ::
      || listing[i].likedAt > listing[j].likedAt
      || (listing[i].likedAt == listing[j].likedAt && collate(listing[j].contentId, listing[i].contentId))
  }

  lemma DescendingIsLatestFirst(collate: Collation, listing: seq<UserLikeRow>)
    requires Ascending(NewestFirst(collate), listing)
    ensures LatestFirst(collate, listing)
  {
    assert forall i, j | 0 <= i < j < |listing| :: NewestFirst(collate)(listing[i], listing[j]);
  }

  lemma PrecedesTransitive(collate: Collation, a: Cursor, b: Cursor, c: Cursor)
    requires StrictTotal(collate) && Precedes(collate, a, b) && Precedes(collate, b, c)
    ensures Precedes(collate, a, c)
  {
    assert Between(collate, c.contentId, b.contentId, a.contentId) ==> collate(c.contentId, a.contentId);
  }

  /** Totality and asymmetry of positions, in the form the page lemmas use. */
  ghost predicate Ordered(collate: Collation) {
    && (forall a, b: Cursor :: Precedes(collate, a, b) ==> !Precedes(collate, b, a))
    && (forall a, b: Cursor :: a != b && !Precedes(collate, a, b) ==> Precedes(collate, b, a))
  }

  lemma TotalIsOrdered(collate: Collation)
    requires StrictTotal(collate)
    ensures Ordered(collate)
  {
    TotalIsAsymmetric(collate);
  }

  /** The first page of a walk, when no two rows share a position. */
  ghost predicate PageIsExact(collate: Collation, rows: set<UserLikeRow>, cursor: Option<Cursor>, limit: nat,
                              page: Page) {
    && Ascending(NewestFirst(collate), page.items)
    && Elements(page.items) <= After(collate, rows, cursor)
    && (page.hasMore <==> |After(collate, rows, cursor)| > limit)
    && (!page.hasMore ==> Elements(page.items) == After(collate, rows, cursor))
    && (page.hasMore ==>
          && |page.items| == limit >= 1 && page.nextCursor == Some(Position(page.items[limit - 1]))
          && After(collate, rows, cursor) <= Elements(page.items) + After(collate, rows, page.nextCursor))
  }

  lemma FetchDescends(collate: Collation, rows: set<UserLikeRow>, cursor: Option<Cursor>, n: nat, out: seq<UserLikeRow>)
    requires Ordered(collate) && DistinctPositions(rows) && IsFetch(collate, rows, cursor, n, out)
    ensures forall i | 0 <= i < |out| :: out[i] in rows && out[i] in After(collate, rows, cursor)
    ensures forall i, j | 0 <= i < j < |out| :: RowPrecedes(collate, out[i], out[j])
  {
    forall i | 0 <= i < |out| ensures out[i] in rows && out[i] in After(collate, rows, cursor) {
      assert out[i] in Elements(out);
    }
    forall i, j | 0 <= i < j < |out| ensures RowPrecedes(collate, out[i], out[j]) {
      assert out[i] != out[j] && !RowPrecedes(collate, out[j], out[i]);
    }
  }

  lemma FetchedPage(collate: Collation, rows: set<UserLikeRow>, cursor: Option<Cursor>, limit: nat,
                    out: seq<UserLikeRow>)
    requires Ordered(collate) && DistinctPositions(rows) && limit >= 1 && IsFetch(collate, rows, cursor, limit + 1, out)
    ensures PageIsExact(collate, rows, cursor, limit, PageOf(out, limit))
  {
    var page := PageOf(out, limit);
    var kept := After(collate, rows, cursor);
    FetchDescends(collate, rows, cursor, limit + 1, out);
    assert forall r | r in page.items :: r in Elements(out);
    if page.hasMore {
      var last := out[limit - 1];
      forall r | r in kept && r !in page.items ensures RowPrecedes(collate, last, r) {
        if r in out {
          InTail(out, limit, r);
        }
        assert last in page.items;
        assert !RowPrecedes(collate, r, last);
      }
    } else {
      DistinctFill(out, kept);
    }
  }

  /** Pairwise distinct rows of a set, as many as the set has, are all of it. */
  lemma DistinctFill<T>(out: seq<T>, s: set<T>)
    requires Elements(out) <= s && |out| == |s|
    requires forall i, j | 0 <= i < j < |out| :: out[i] != out[j]
    ensures Elements(out) == s
  {
    ElementsCount(out);
    assert s == Elements(out) + (s - Elements(out));
  }

  lemma InTail<T>(s: seq<T>, n: nat, x: T)
    requires n <= |s| && x in s && x !in s[..n]
    ensures exists k :: n <= k < |s| && s[k] == x
  {
    assert s == s[..n] + s[n..];
    var k :| 0 <= k < |s| - n && s[n..][k] == x;
    assert s[n + k] == x;
  }

  lemma PageFacts(collate: Collation, rows: set<UserLikeRow>, cursor: Option<Cursor>, limit: nat, page: Page)
    requires StrictTotal(collate) && DistinctPositions(rows) && IsPage(collate, rows, cursor, limit, page)
    ensures PageIsExact(collate, rows, cursor, limit, page)
  {
    TotalIsOrdered(collate);
    var out :| IsFetch(collate, rows, cursor, limit + 1, out) && page == PageOf(out, limit);
    FetchedPage(collate, rows, cursor, limit, out);
  }

  /** Rows after a later cursor are after an earlier one. */
  lemma AfterShrinks(collate: Collation, cursor: Option<Cursor>, next: Cursor, r: UserLikeRow)
    requires StrictTotal(collate) && Precedes(collate, next, Position(r))
    requires cursor.None? || Precedes(collate, cursor.value, next)
    ensures cursor.None? || Precedes(collate, cursor.value, Position(r))
  {
    if cursor.Some? { PrecedesTransitive(collate, cursor.value, next, Position(r)); }
  }

  ghost predicate AllAfter(collate: Collation, cursor: Option<Cursor>, rows: seq<UserLikeRow>) {
    forall k | 0 <= k < |rows| :: cursor.None? || Precedes(collate, cursor.value, Position(rows[k]))
  }

  /** Whatever happens to the store between pages, the rows of a walk strictly descend, so none repeats. */
  lemma {:induction false} WalkDescends(collate: Collation, snaps: seq<set<UserLikeRow>>, cursor: Option<Cursor>,
                                        limit: nat, pages: seq<Page>)
    requires StrictTotal(collate) && IsWalk(collate, snaps, cursor, limit, pages)
    requires forall s | s in snaps :: DistinctPositions(s)
    ensures Ascending(NewestFirst(collate), Returned(pages)) && AllAfter(collate, cursor, Returned(pages))
    ensures LatestFirst(collate, Returned(pages))
    decreases |pages|
  {
    if pages != [] {
      var page := pages[0];
      PageFacts(collate, snaps[0], cursor, limit, page);
      ItemsAfter(collate, snaps[0], cursor, page.items);
      if |pages| == 1 {
        assert Returned(pages) == page.items;
      } else {
        var rest := Returned(pages[1..]);
        WalkDescends(collate, snaps[1..], page.nextCursor, limit, pages[1..]);
        PageThenRest(collate, cursor, page, limit, rest);
      }
    }
    DescendingIsLatestFirst(collate, Returned(pages));
  }

  lemma ItemsAfter(collate: Collation, rows: set<UserLikeRow>, cursor: Option<Cursor>, items: seq<UserLikeRow>)
    requires Elements(items) <= After(collate, rows, cursor)
    ensures AllAfter(collate, cursor, items)
  {
    forall k | 0 <= k < |items| ensures cursor.None? || Precedes(collate, cursor.value, Position(items[k])) {
      assert items[k] in Elements(items);
    }
  }

  lemma PageThenRest(collate: Collation, cursor: Option<Cursor>, page: Page, limit: nat, rest: seq<UserLikeRow>)
    requires StrictTotal(collate) && |page.items| == limit >= 1
    requires page.nextCursor == Some(Position(page.items[limit - 1]))
    requires Ascending(NewestFirst(collate), page.items) && AllAfter(collate, cursor, page.items)
    requires Ascending(NewestFirst(collate), rest) && AllAfter(collate, page.nextCursor, rest)
    ensures Ascending(NewestFirst(collate), page.items + rest) && AllAfter(collate, cursor, page.items + rest)
  {
    var last := page.items[limit - 1];
    forall i, j | 0 <= i < limit && 0 <= j < |rest| ensures RowPrecedes(collate, page.items[i], rest[j]) {
      if i < limit - 1 {
        assert NewestFirst(collate)(page.items[i], last);
        PrecedesTransitive(collate, Position(page.items[i]), Position(last), Position(rest[j]));
      }
    }
    AppendAscending(NewestFirst(collate), page.items, rest);
    forall j | 0 <= j < |rest| ensures cursor.None? || Precedes(collate, cursor.value, Position(rest[j])) {
      AfterShrinks(collate, cursor, Position(last), rest[j]);
    }
  }

  /** A row present at every fetch of a finished walk is returned. */
  lemma {:induction false} PresentThroughoutIsReturned(collate: Collation, snaps: seq<set<UserLikeRow>>,
                                                       cursor: Option<Cursor>, limit: nat, pages: seq<Page>,
                                                       r: UserLikeRow)
    requires StrictTotal(collate) && IsWalk(collate, snaps, cursor, limit, pages) && Finished(pages)
    requires (forall s | s in snaps :: DistinctPositions(s)) && Throughout(snaps, r)
    requires cursor.None? || Precedes(collate, cursor.value, Position(r))
    ensures r in Returned(pages)
    decreases |pages|
  {
    var page := pages[0];
    PageFacts(collate, snaps[0], cursor, limit, page);
    assert r in snaps[0];
    assert r in After(collate, snaps[0], cursor);
    if r !in Elements(page.items) {
      PresentThroughoutIsReturned(collate, snaps[1..], page.nextCursor, limit, pages[1..], r);
    }
  }

  /** Rows that appear between two fetches are newer than the cursor last issued. */
  ghost predicate LateArrivals(snaps: seq<set<UserLikeRow>>, pages: seq<Page>) {
    forall i, r | 0 <= i < |pages| - 1 && i < |snaps| - 1 && pages[i].nextCursor.Some?
                  && r in snaps[i + 1] && r !in snaps[i] ::
      r.likedAt > pages[i].nextCursor.value.likedAt
  }

  /** If so, a walk has at most max(1, ceil(n / limit)) pages, n being the rows it started from:
      with k pages, (k - 1) * limit < max(1, n). */
  lemma {:induction false} WalkIsBounded(collate: Collation, snaps: seq<set<UserLikeRow>>, cursor: Option<Cursor>,
                                         limit: nat, pages: seq<Page>)
    requires StrictTotal(collate) && IsWalk(collate, snaps, cursor, limit, pages) && pages != []
    requires forall s | s in snaps :: DistinctPositions(s)
    requires LateArrivals(snaps, pages)
    ensures |pages| == 1 || Times(|pages| - 1, limit) < |After(collate, snaps[0], cursor)|
    decreases |pages|
  {
    if |pages| > 1 {
      var page := pages[0];
      PageFacts(collate, snaps[0], cursor, limit, page);
      LateArrivalsTail(snaps, pages);
      WalkIsBounded(collate, snaps[1..], page.nextCursor, limit, pages[1..]);
      RemainingShrinks(collate, snaps, cursor, limit, pages);
    }
  }

  lemma LateArrivalsTail(snaps: seq<set<UserLikeRow>>, pages: seq<Page>)
    requires |snaps| == |pages| > 1 && LateArrivals(snaps, pages)
    ensures LateArrivals(snaps[1..], pages[1..])
  {
    forall i, r | 0 <= i < |pages[1..]| - 1 && pages[1..][i].nextCursor.Some?
                  && r in snaps[1..][i + 1] && r !in snaps[1..][i]
      ensures r.likedAt > pages[1..][i].nextCursor.value.likedAt
    {
      assert pages[1..][i] == pages[i + 1] && snaps[1..][i + 1] == snaps[i + 1 + 1] && snaps[1..][i] == snaps[i + 1];
    }
  }

  /** A full page leaves at least `limit` fewer rows ahead. */
  lemma RemainingShrinks(collate: Collation, snaps: seq<set<UserLikeRow>>, cursor: Option<Cursor>, limit: nat,
                         pages: seq<Page>)
    requires StrictTotal(collate) && |pages| > 1 && |snaps| == |pages| && LateArrivals(snaps, pages)
    requires PageIsExact(collate, snaps[0], cursor, limit, pages[0]) && pages[0].hasMore
    ensures |After(collate, snaps[1], pages[0].nextCursor)| + limit <= |After(collate, snaps[0], cursor)|
  {
    var items := pages[0].items;
    var later := After(collate, snaps[1], pages[0].nextCursor);
    forall r | r in later ensures r in After(collate, snaps[0], cursor) && r !in Elements(items) {
      StillAhead(collate, snaps, cursor, limit, pages, r);
    }
    DescendingNeverRepeats(collate, items);
    ElementsCount(items);
    DisjointParts(After(collate, snaps[0], cursor), Elements(items), later);
  }

  /** A row that the next fetch could see was already there, below everything on this page. */
  lemma StillAhead(collate: Collation, snaps: seq<set<UserLikeRow>>, cursor: Option<Cursor>, limit: nat,
                   pages: seq<Page>, r: UserLikeRow)
    requires StrictTotal(collate) && |pages| > 1 && |snaps| == |pages| && LateArrivals(snaps, pages)
    requires PageIsExact(collate, snaps[0], cursor, limit, pages[0]) && pages[0].hasMore
    requires r in After(collate, snaps[1], pages[0].nextCursor)
    ensures r in After(collate, snaps[0], cursor) && r !in Elements(pages[0].items)
  {
    var items := pages[0].items;
    var last := items[limit - 1];
    assert r in snaps[0];
    assert last in Elements(items);
    AfterShrinks(collate, cursor, Position(last), r);
    TotalIsOrdered(collate);
    assert !RowPrecedes(collate, r, last);
    forall k | 0 <= k < limit ensures items[k] != r {
      assert k < limit - 1 ==> NewestFirst(collate)(items[k], last);
    }
  }

  lemma DisjointParts<T>(whole: set<T>, a: set<T>, b: set<T>)
    requires a <= whole && b <= whole && forall x | x in b :: x !in a
    ensures |a| + |b| <= |whole|
  {
    assert |a + b| == |a| + |b|;
    assert whole == (a + b) + (whole - (a + b));
  }

  lemma {:induction false} ElementsCount<T>(s: seq<T>)
    requires forall i, j | 0 <= i < j < |s| :: s[i] != s[j]
    ensures |Elements(s)| == |s|
  {
    if s != [] {
      var k := |s| - 1;
      ElementsCount(s[..k]);
      assert Elements(s) == Elements(s[..k]) + {s[k]} by {
        assert s == s[..k] + [s[k]];
      }
    }
  }

  // ----- Walks over the store -----

  /** A user's likes, filtered by content type or not. */
  ghost function RowsOf(t: Tables, user: string, contentType: Option<string>): set<UserLikeRow> {
    set k | k in t.likes.Keys && k.0 == user && Selected(k.1, contentType)
      :: UserLikeRow(k.1.contentType, k.1.contentId, t.likes[k])
  }

  /** One of them. */
  ghost predicate IsLike(t: Tables, user: string, contentType: Option<string>, r: UserLikeRow) {
    && (user, Content(r.contentType, r.contentId)) in t.likes
    && t.likes[(user, Content(r.contentType, r.contentId))] == r.likedAt
    && (contentType.None? || r.contentType == contentType.value)
  }

  lemma RowsAreTheLikes(t: Tables, user: string, contentType: Option<string>, r: UserLikeRow)
    ensures r in RowsOf(t, user, contentType) <==> IsLike(t, user, contentType, r)
  {
    var k := (user, Content(r.contentType, r.contentId));
    assert k in t.likes && Selected(k.1, contentType) && t.likes[k] == r.likedAt
      ==> r == UserLikeRow(k.1.contentType, k.1.contentId, t.likes[k]);
  }

  /** The primary key makes a filtered listing's content ids, hence its positions, distinct. */
  lemma {:induction false} FilteredRowsAreDistinct(t: Tables, user: string, contentType: string)
    ensures DistinctPositions(RowsOf(t, user, Some(contentType)))
  {
    var rows := RowsOf(t, user, Some(contentType));
    forall a, b | a in rows && b in rows && Position(a) == Position(b) ensures a == b {
      assert a.contentType == contentType && b.contentType == contentType;
    }
  }

  ghost predicate LaterThan(writes: seq<Write>, bound: int) {
    forall w | w in writes && w.Like? :: w.now > bound
  }

  lemma NewRowComesFromALike(t: Tables, w: Write, user: string, contentType: Option<string>, r: UserLikeRow)
    requires r in RowsOf(Apply(t, w), user, contentType)
    ensures r in RowsOf(t, user, contentType) || (w.Like? && w.now == r.likedAt)
  {
    var likes' := Apply(t, w).likes;
    var k :| k in likes'.Keys && k.0 == user && Selected(k.1, contentType)
             && r == UserLikeRow(k.1.contentType, k.1.contentId, likes'[k]);
    if k in t.likes.Keys {
      assert r == UserLikeRow(k.1.contentType, k.1.contentId, t.likes[k]);
    }
  }

  lemma {:induction false} NewRowsAreLate(t: Tables, writes: seq<Write>, bound: int, user: string,
                                          contentType: Option<string>, r: UserLikeRow)
    requires LaterThan(writes, bound)
    requires r in RowsOf(ApplyAll(t, writes), user, contentType) && r !in RowsOf(t, user, contentType)
    ensures r.likedAt > bound
  {
    var n := |writes| - 1;
    var before := ApplyAll(t, writes[..n]);
    if r in RowsOf(before, user, contentType) {
      NewRowsAreLate(t, writes[..n], bound, user, contentType, r);
    } else {
      NewRowComesFromALike(before, writes[n], user, contentType, r);
      assert writes[n] in writes;
    }
  }

  /** A filtered walk over the tables the fetches saw; between two fetches any writes may run, all
      their likes later than the cursor last issued. */
  ghost predicate IsStoreWalk(collate: Collation, tables: seq<Tables>, writes: seq<seq<Write>>, user: string,
                              contentType: string, limit: nat, snaps: seq<set<UserLikeRow>>, pages: seq<Page>) {
    && |tables| == |pages| == |snaps| && |writes| == |pages| - 1
    && (forall i | 0 <= i < |tables| :: snaps[i] == RowsOf(tables[i], user, Some(contentType)))
    && (forall i | 0 <= i < |writes| ::
          && tables[i + 1] == ApplyAll(tables[i], writes[i])
          && (pages[i].nextCursor.Some? ==> LaterThan(writes[i], pages[i].nextCursor.value.likedAt)))
    && IsWalk(collate, snaps, None, limit, pages)
  }

  lemma StoreWalkFacts(collate: Collation, tables: seq<Tables>, writes: seq<seq<Write>>, user: string,
                       contentType: string, limit: nat, snaps: seq<set<UserLikeRow>>, pages: seq<Page>)
    requires IsStoreWalk(collate, tables, writes, user, contentType, limit, snaps, pages)
    ensures LateArrivals(snaps, pages) && forall s | s in snaps :: DistinctPositions(s)
  {
    forall i, r | 0 <= i < |pages| - 1 && pages[i].nextCursor.Some? && r in snaps[i + 1] && r !in snaps[i]
      ensures r.likedAt > pages[i].nextCursor.value.likedAt
    {
      NewRowsAreLate(tables[i], writes[i], pages[i].nextCursor.value.likedAt, user, Some(contentType), r);
    }
    forall s | s in snaps ensures DistinctPositions(s) {
      var i :| 0 <= i < |snaps| && snaps[i] == s;
      FilteredRowsAreDistinct(tables[i], user, contentType);
    }
  }

  /** Pagination under concurrent likes and unlikes: rows strictly descend, the walk is bounded by the
      rows at its start, and a row present throughout is returned exactly once. */
  lemma {:induction false} WalkUnderChange(collate: Collation, tables: seq<Tables>, writes: seq<seq<Write>>,
                                           user: string, contentType: string, limit: nat,
                                           snaps: seq<set<UserLikeRow>>, pages: seq<Page>)
    requires StrictTotal(collate) && pages != []
    requires IsStoreWalk(collate, tables, writes, user, contentType, limit, snaps, pages)
    ensures LatestFirst(collate, Returned(pages))
    ensures |pages| == 1 || (|pages| - 1) * limit < |snaps[0]|
    ensures Finished(pages) ==> forall r | Throughout(snaps, r) :: ReturnedOnce(Returned(pages), r)
  {
    StoreWalkFacts(collate, tables, writes, user, contentType, limit, snaps, pages);
    WalkDescends(collate, snaps, None, limit, pages);
    WalkIsBounded(collate, snaps, None, limit, pages);
    assert After(collate, snaps[0], None) == snaps[0];
    TimesIsProduct(|pages| - 1, limit);
    if Finished(pages) {
      forall r | Throughout(snaps, r) ensures ReturnedOnce(Returned(pages), r) {
        PresentThroughoutIsReturned(collate, snaps, None, limit, pages, r);
        DescendingReturnsOnce(collate, Returned(pages), r);
      }
    }
  }

  ghost predicate Throughout(snaps: seq<set<UserLikeRow>>, r: UserLikeRow) {
    forall i | 0 <= i < |snaps| :: r in snaps[i]
  }

  ghost predicate ReturnedOnce(rows: seq<UserLikeRow>, r: UserLikeRow) {
    exists k :: 0 <= k < |rows| && rows[k] == r && forall j | 0 <= j < |rows| && rows[j] == r :: j == k
  }

  lemma DescendingReturnsOnce(collate: Collation, rows: seq<UserLikeRow>, r: UserLikeRow)
    requires StrictTotal(collate) && Ascending(NewestFirst(collate), rows) && r in rows
    ensures ReturnedOnce(rows, r)
  {
    DescendingNeverRepeats(collate, rows);
    var k :| 0 <= k < |rows| && rows[k] == r;
  }

  lemma DescendingNeverRepeats(collate: Collation, rows: seq<UserLikeRow>)
    requires StrictTotal(collate) && Ascending(NewestFirst(collate), rows)
    ensures forall i, j | 0 <= i < j < |rows| :: rows[i] != rows[j]
  {
    TotalIsOrdered(collate);
    forall i, j | 0 <= i < j < |rows| ensures rows[i] != rows[j] {
      assert NewestFirst(collate)(rows[i], rows[j]);
    }
  }

  // ----- Walks over a store at rest, filtered or not -----

  ghost function Frozen(rows: set<UserLikeRow>, n: nat): (s: seq<set<UserLikeRow>>)
    ensures |s| == n && forall k | 0 <= k < n :: s[k] == rows
  {
    if n == 0 then [] else [rows] + Frozen(rows, n - 1)
  }

  ghost predicate IsStillWalk(collate: Collation, rows: set<UserLikeRow>, limit: nat, pages: seq<Page>) {
    IsWalk(collate, Frozen(rows, |pages|), None, limit, pages) && Finished(pages)
  }

  /** Sorted, and every row exactly once. */
  ghost predicate IsFullListing(collate: Collation, rows: set<UserLikeRow>, listing: seq<UserLikeRow>) {
    LatestFirst(collate, listing) && Elements(listing) == rows && |listing| == |rows|
  }

  lemma StillWalkIsComplete(collate: Collation, rows: set<UserLikeRow>, limit: nat, pages: seq<Page>)
    requires StrictTotal(collate) && DistinctPositions(rows) && IsStillWalk(collate, rows, limit, pages)
    ensures IsFullListing(collate, rows, Returned(pages))
  {
    var snaps := Frozen(rows, |pages|);
    var listing := Returned(pages);
    WalkDescends(collate, snaps, None, limit, pages);
    forall r | r in rows ensures r in listing {
      PresentThroughoutIsReturned(collate, snaps, None, limit, pages, r);
    }
    ReturnedComeFromSnaps(collate, snaps, None, limit, pages, rows);
    DescendingNeverRepeats(collate, listing);
    ElementsCount(listing);
    assert Elements(listing) == rows;
  }

  lemma {:induction false} ReturnedComeFromSnaps(collate: Collation, snaps: seq<set<UserLikeRow>>,
                                                 cursor: Option<Cursor>, limit: nat, pages: seq<Page>,
                                                 rows: set<UserLikeRow>)
    requires IsWalk(collate, snaps, cursor, limit, pages) && forall k | 0 <= k < |snaps| :: snaps[k] == rows
    ensures Elements(Returned(pages)) <= rows
    decreases |pages|
  {
    if pages != [] {
      var out :| IsFetch(collate, snaps[0], cursor, limit + 1, out) && pages[0] == PageOf(out, limit);
      assert snaps[0] == rows;
      assert forall r | r in pages[0].items :: r in Elements(out);
      if |pages| > 1 {
        ReturnedComeFromSnaps(collate, snaps[1..], pages[0].nextCursor, limit, pages[1..], rows);
        assert forall r | r in Returned(pages[1..]) :: r in Elements(Returned(pages[1..]));
      } else {
        assert Returned(pages[1..]) == [];
      }
    }
  }

  /** With limit 1 every page is one row, so positions strictly descend even when rows are tied. */
  lemma {:induction false} OneByOneDescends(collate: Collation, snaps: seq<set<UserLikeRow>>, cursor: Option<Cursor>,
                                            pages: seq<Page>)
    requires StrictTotal(collate) && IsWalk(collate, snaps, cursor, 1, pages)
    ensures Ascending(NewestFirst(collate), Returned(pages)) && AllAfter(collate, cursor, Returned(pages))
    decreases |pages|
  {
    if pages != [] {
      var page := pages[0];
      var out :| IsFetch(collate, snaps[0], cursor, 2, out) && page == PageOf(out, 1);
      assert forall r | r in page.items :: r in Elements(out);
      ItemsAfter(collate, snaps[0], cursor, page.items);
      if |pages| == 1 {
        assert Returned(pages) == page.items;
      } else {
        OneByOneDescends(collate, snaps[1..], page.nextCursor, pages[1..]);
        PageThenRest(collate, cursor, page, 1, Returned(pages[1..]));
      }
    }
  }

  /** A total order on whole rows: position first, content type for tied rows. */
  ghost predicate RowBefore(collate: Collation, a: UserLikeRow, b: UserLikeRow) {
    RowPrecedes(collate, a, b) || (Position(a) == Position(b) && collate(b.contentType, a.contentType))
  }

  ghost function RowOrder(collate: Collation): (UserLikeRow, UserLikeRow) -> bool {
    (a, b) => RowBefore(collate, a, b)
  }

  lemma RowOrderIsTotal(collate: Collation)
    requires StrictTotal(collate)
    ensures StrictTotal(RowOrder(collate))
  {
    forall a, b, c | Between(RowOrder(collate), a, b, c) ensures RowOrder(collate)(a, c) {
      assert Between(collate, c.contentId, b.contentId, a.contentId) ==> collate(c.contentId, a.contentId);
      assert Between(collate, c.contentType, b.contentType, a.contentType) ==> collate(c.contentType, a.contentType);
    }
  }

  /** The query always has an answer. */
  lemma FetchExists(collate: Collation, rows: set<UserLikeRow>, cursor: Option<Cursor>, n: nat)
      returns (out: seq<UserLikeRow>)
    requires StrictTotal(collate)
    ensures IsFetch(collate, rows, cursor, n, out)
  {
    var kept := After(collate, rows, cursor);
    RowOrderIsTotal(collate);
    out := Sorted(RowOrder(collate), kept)[..Cut(n, |kept|)];
    TopIsThePrefix(RowOrder(collate), kept, n, out);
    TotalIsAsymmetric(RowOrder(collate));
    TopIsFetch(collate, rows, cursor, n, out);
  }

  lemma TopIsFetch(collate: Collation, rows: set<UserLikeRow>, cursor: Option<Cursor>, n: nat, out: seq<UserLikeRow>)
    requires Asymmetric(RowOrder(collate)) && IsTop(RowOrder(collate), After(collate, rows, cursor), n, out)
    ensures IsFetch(collate, rows, cursor, n, out)
  {
    var less := RowOrder(collate);
    forall i, j | 0 <= i < j < |out| ensures out[i] != out[j] && !RowPrecedes(collate, out[j], out[i]) {
      assert less(out[i], out[j]) && !less(out[j], out[i]);
    }
    forall r, i | r in After(collate, rows, cursor) && r !in out && 0 <= i < |out|
      ensures !RowPrecedes(collate, r, out[i])
    {
      assert out[i] in out;
      assert less(out[i], r) && !less(r, out[i]);
    }
  }

  /** A client that keeps following the cursor of a store at rest reaches a last page. */
  lemma {:induction false} WalkExists(collate: Collation, rows: set<UserLikeRow>, cursor: Option<Cursor>, limit: nat)
      returns (pages: seq<Page>)
    requires StrictTotal(collate) && limit >= 1
    ensures IsWalk(collate, Frozen(rows, |pages|), cursor, limit, pages) && Finished(pages)
    decreases |After(collate, rows, cursor)|
  {
    var out := FetchExists(collate, rows, cursor, limit + 1);
    var page := PageOf(out, limit);
    if page.hasMore {
      NextCursorAdvances(collate, rows, cursor, limit, out);
      var rest := WalkExists(collate, rows, page.nextCursor, limit);
      pages := [page] + rest;
      assert Frozen(rows, |pages|)[1..] == Frozen(rows, |rest|) && pages[1..] == rest;
      assert pages[|pages| - 1] == rest[|rest| - 1];
    } else {
      pages := [page];
      assert Frozen(rows, 1) == [rows];
    }
  }

  lemma NextCursorAdvances(collate: Collation, rows: set<UserLikeRow>, cursor: Option<Cursor>, limit: nat,
                           out: seq<UserLikeRow>)
    requires StrictTotal(collate) && limit >= 1 && IsFetch(collate, rows, cursor, limit + 1, out) && |out| > limit
    ensures |After(collate, rows, PageOf(out, limit).nextCursor)| < |After(collate, rows, cursor)|
  {
    var last := out[limit - 1];
    var kept, next := After(collate, rows, cursor), After(collate, rows, PageOf(out, limit).nextCursor);
    assert last in Elements(out);
    TotalIsOrdered(collate);
    assert PageOf(out, limit).nextCursor == Some(Position(last));
    forall r | r in next ensures r in kept && r != last {
      AfterShrinks(collate, cursor, Position(last), r);
    }
    DisjointParts(kept, {last}, next);
  }

  /** Every finished walk lists the rows in full. */
  ghost predicate WalksAreComplete(collate: Collation, rows: set<UserLikeRow>) {
    forall limit, pages | 1 <= limit <= 100 && IsStillWalk(collate, rows, limit, pages) ::
      IsFullListing(collate, rows, Returned(pages))
  }

  /** Since the cursor omits the content type, an unfiltered listing is complete at every limit the
      handler accepts exactly when no two rows share (liked_at, content_id). */
  lemma CompleteIffPositionsDistinct(collate: Collation, rows: set<UserLikeRow>)
    requires StrictTotal(collate)
    ensures WalksAreComplete(collate, rows) <==> DistinctPositions(rows)
  {
    if DistinctPositions(rows) {
      forall limit, pages | 1 <= limit <= 100 && IsStillWalk(collate, rows, limit, pages)
        ensures IsFullListing(collate, rows, Returned(pages))
      {
        StillWalkIsComplete(collate, rows, limit, pages);
      }
    }
    if WalksAreComplete(collate, rows) {
      var pages := WalkExists(collate, rows, None, 1);
      assert IsStillWalk(collate, rows, 1, pages);
      OneByOneDescends(collate, Frozen(rows, |pages|), None, pages);
      DescendingHasNoTies(collate, rows, Returned(pages));
    }
  }

  lemma DescendingHasNoTies(collate: Collation, rows: set<UserLikeRow>, listing: seq<UserLikeRow>)
    requires StrictTotal(collate) && Ascending(NewestFirst(collate), listing) && Elements(listing) == rows
    ensures DistinctPositions(rows)
  {
    TotalIsOrdered(collate);
    forall a, b | a in rows && b in rows && Position(a) == Position(b) ensures a == b {
      assert a in Elements(listing) && b in Elements(listing);
      var i :| 0 <= i < |listing| && listing[i] == a;
      var j :| 0 <= j < |listing| && listing[j] == b;
      assert !NewestFirst(collate)(a, b) && !NewestFirst(collate)(b, a);
      assert !(i < j) && !(j < i);
    }
  }

  /** A filtered listing of a store at rest is complete for every limit. */
  lemma FilteredListingIsComplete(collate: Collation, t: Tables, user: string, contentType: string)
    requires StrictTotal(collate)
    ensures WalksAreComplete(collate, RowsOf(t, user, Some(contentType)))
    ensures forall limit, pages, r
              | 1 <= limit <= 100 && IsStillWalk(collate, RowsOf(t, user, Some(contentType)), limit, pages) ::
              r in Returned(pages) <==> IsLike(t, user, Some(contentType), r)
  {
    var rows := RowsOf(t, user, Some(contentType));
    FilteredRowsAreDistinct(t, user, contentType);
    CompleteIffPositionsDistinct(collate, rows);
    forall limit, pages, r | 1 <= limit <= 100 && IsStillWalk(collate, rows, limit, pages)
      ensures r in Returned(pages) <==> IsLike(t, user, Some(contentType), r)
    {
      assert IsFullListing(collate, rows, Returned(pages));
      assert r in Returned(pages) <==> r in Elements(Returned(pages));
      RowsAreTheLikes(t, user, Some(contentType), r);
    }
  }

  /** A user's two likes in one instant, of items of different types that share an id. */
  function TiedLikes(user: string, id: string, at: int): seq<Write> {
    [Like(user, Content("post", id), at), Like(user, Content("top_picks", id), at)]
  }

  function Tied(id: string, at: int): set<UserLikeRow> {
    {UserLikeRow("post", id, at), UserLikeRow("top_picks", id, at)}
  }

  lemma TiedLikesAreListed(user: string, id: string, at: int)
    ensures RowsOf(ApplyAll(EMPTY, TiedLikes(user, id, at)), user, None) == Tied(id, at)
  {
    var a, b := Content("post", id), Content("top_picks", id);
    assert a.contentType[0] != b.contentType[0];
    var writes := TiedLikes(user, id, at);
    assert writes[..1] == [writes[0]] && [writes[0]][..0] == [];
    assert ApplyAll(EMPTY, []) == EMPTY;
    assert ApplyAll(EMPTY, [writes[0]]).likes == map[(user, a) := at];
    assert ApplyAll(EMPTY, writes).likes == map[(user, a) := at, (user, b) := at];
    var rows := RowsOf(ApplyAll(EMPTY, writes), user, None);
    assert forall r :: r in rows <==> r == UserLikeRow("post", id, at) || r == UserLikeRow("top_picks", id, at);
  }

  /** Two items of different types liked in the same instant under one id: at limit 1 a client reaches
      the end of the unfiltered listing, and always without one of them. */
  lemma TiedRowsAreLost(collate: Collation, user: string, id: string, at: int)
    requires StrictTotal(collate)
    ensures var rows := RowsOf(ApplyAll(EMPTY, TiedLikes(user, id, at)), user, None);
            && (exists pages :: IsStillWalk(collate, rows, 1, pages))
            && forall pages | IsStillWalk(collate, rows, 1, pages) :: Elements(Returned(pages)) != rows
  {
    var rows := RowsOf(ApplyAll(EMPTY, TiedLikes(user, id, at)), user, None);
    TiedLikesAreListed(user, id, at);
    var a, b := UserLikeRow("post", id, at), UserLikeRow("top_picks", id, at);
    var some := WalkExists(collate, rows, None, 1);
    assert IsStillWalk(collate, rows, 1, some);
    assert a.contentType[0] != b.contentType[0];
    assert Position(a) == Position(b) && a in rows && b in rows;
    assert !DistinctPositions(rows);
    forall pages | IsStillWalk(collate, rows, 1, pages) ensures Elements(Returned(pages)) != rows {
      OneByOneDescends(collate, Frozen(rows, |pages|), None, pages);
      if Elements(Returned(pages)) == rows { DescendingHasNoTies(collate, rows, Returned(pages)); }
    }
  }
}
