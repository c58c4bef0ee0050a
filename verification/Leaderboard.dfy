/** `list_top_likes`: the ranking over the totals, and over a window of the hourly rows. */
module Leaderboard {
  import opened Finite
  import opened Ordering
  import opened LikesStore

  datatype TopLikesWindow = Last24Hours | Last7Days | Last30Days | All

  datatype TopLikeRow = TopLikeRow(content: Content, likeCount: int)

  function Interval(w: TopLikesWindow): int {
    match w
    case Last24Hours => 24 * HOUR
    case Last7Days => 7 * 24 * HOUR
    case Last30Days => 30 * 24 * HOUR
    case All => 0
  }

  /** The positive hourly rows of an item whose bucket starts at `from` or later. */
  ghost function RowsFrom(t: Tables, c: Content, from: int): map<int, nat> {
    map b | b in (set k | k in t.hourlyCounts.Keys && k.1 == c && k.0 >= from && t.hourlyCounts[k] > 0 :: k.0)
        :: t.hourlyCounts[(b, c)]
  }

  /** SUM(like_count) of those rows. */
  ghost function WindowSum(t: Tables, c: Content, from: int): nat {
    Sum(RowsFrom(t, c, from))
  }

  /** The rows before ORDER BY and LIMIT. */
  ghost function Candidates(t: Tables, contentType: Option<string>, w: TopLikesWindow, now: int): set<TopLikeRow> {
    if w.All? then
      set c | c in t.likeCounts.Keys && t.likeCounts[c] > 0 && Selected(c, contentType) ::
          TopLikeRow(c, t.likeCounts[c])
    else
      var from := now - Interval(w);
      set k | k in t.hourlyCounts.Keys && Selected(k.1, contentType) && WindowSum(t, k.1, from) > 0
        :: TopLikeRow(k.1, WindowSum(t, k.1, from))
  }

  /** ORDER BY like_count DESC, content_type DESC, content_id DESC, under the database's collation. */
  ghost predicate Outranks(collate: (string, string) -> bool, a: TopLikeRow, b: TopLikeRow) {
    || a.likeCount > b.likeCount
    || (a.likeCount == b.likeCount
        && (|| collate(b.content.contentType, a.content.contentType)
            || (a.content.contentType == b.content.contentType && collate(b.content.contentId, a.content.contentId))))
  }

  ghost function Ranking(collate: (string, string) -> bool): (TopLikeRow, TopLikeRow) -> bool {
    (a, b) => Outranks(collate, a, b)
  }

  lemma RankingIsTotal(collate: (string, string) -> bool)
    requires StrictTotal(collate)
    ensures StrictTotal(Ranking(collate))
  {
    var less := Ranking(collate);
    forall a, b, c | Between(less, a, b, c) ensures less(a, c) {
      assert Between(collate, c.content.contentType, b.content.contentType, a.content.contentType)
         ==> collate(c.content.contentType, a.content.contentType);
      assert Between(collate, c.content.contentId, b.content.contentId, a.content.contentId)
         ==> collate(c.content.contentId, a.content.contentId);
    }
    forall a, b | a != b ensures less(a, b) || less(b, a) {
      assert a.content == b.content
          <==> a.content.contentType == b.content.contentType && a.content.contentId == b.content.contentId;
    }
  }

  ghost function ListTopLikes(collate: (string, string) -> bool, t: Tables, contentType: Option<string>,
                              w: TopLikesWindow, now: int, limit: nat): seq<TopLikeRow>
    requires StrictTotal(collate)
  {
    RankingIsTotal(collate);
    var rows := Candidates(t, contentType, w, now);
    Sorted(Ranking(collate), rows)[..Cut(limit, |rows|)]
  }

  /** The likes an item received at `from` or later and still has. */
  ghost function LikesSince(t: Tables, c: Content, from: int): set<(string, Content)> {
    set r | r in t.likes.Keys && r.1 == c && t.likes[r] >= from
  }

  /** The likes whose whole hour is at `from` or later. */
  ghost function LikesInHoursSince(t: Tables, c: Content, from: int): set<(string, Content)> {
    set r | r in t.likes.Keys && r.1 == c && Hour(t.likes[r]) >= from
  }

  lemma WindowSumCountsHours(t: Tables, c: Content, from: int)
    requires Consistent(t)
    ensures WindowSum(t, c, from) == |LikesInHoursSince(t, c, from)|
  {
    var rows := LikesInHoursSince(t, c, from);
    var hours := map r | r in t.likes.Keys :: Hour(t.likes[r]);
    var sizes := RowsFrom(t, c, from);
    forall r | r in rows ensures hours[r] in sizes {
      ClampsNeverFire(t, r.0, c);
    }
    forall b | b in sizes ensures sizes[b] == |ClassRows(rows, hours, b)| {
      assert HourlyCount(t, b, c) == |LikersIn(t.likes, b, c)|;
      assert LikersIn(t.likes, b, c) == ClassRows(rows, hours, b);
    }
    ClassesAddUp(rows, sizes, hours);
  }

  /** The window is exact up to one hour at its old end. */
  lemma WindowExactToOneHour(t: Tables, c: Content, from: int)
    requires Consistent(t)
    ensures |LikesSince(t, c, from + 3_600_000_000)| <= WindowSum(t, c, from) <= |LikesSince(t, c, from)|
  {
    WindowSumCountsHours(t, c, from);
    assert forall r | r in t.likes.Keys :: Hour(t.likes[r]) <= t.likes[r] < Hour(t.likes[r]) + HOUR;
    SubsetSize(LikesSince(t, c, from + HOUR), LikesInHoursSince(t, c, from));
    SubsetSize(LikesInHoursSince(t, c, from), LikesSince(t, c, from));
  }

  /** The count an item is ranked by. */
  ghost function RankedCount(t: Tables, c: Content, w: TopLikesWindow, now: int): int {
    if w.All? then LikeCount(t, c) else WindowSum(t, c, now - Interval(w))
  }

  /** The rows ranked are the items with a positive count, each once. */
  lemma {:induction false} CandidatesAreThePositiveItems(t: Tables, contentType: Option<string>, w: TopLikesWindow,
                                                         now: int, row: TopLikeRow)
    requires Consistent(t)
    ensures row in Candidates(t, contentType, w, now)
       <==> && (contentType.None? || row.content.contentType == contentType.value)
            && row.likeCount == RankedCount(t, row.content, w, now) > 0
  {
    var c := row.content;
    if !w.All? && WindowSum(t, c, now - Interval(w)) > 0 {
      var rows := RowsFrom(t, c, now - Interval(w));
      assert rows != map[];
      var b :| b in rows;
      assert (b, c) in t.hourlyCounts.Keys;
    }
  }

  /** What a ranking promises about each row it returns. */
  ghost predicate RowIsTrue(t: Tables, contentType: Option<string>, w: TopLikesWindow, now: int, row: TopLikeRow) {
    && (contentType.None? || row.content.contentType == contentType.value)
    && row.likeCount > 0
    && if w.All? then row.likeCount == |Likers(t.likes, row.content)|
       else
         var from := now - Interval(w);
         |LikesSince(t, row.content, from + 3_600_000_000)| <= row.likeCount <= |LikesSince(t, row.content, from)|
  }

  lemma CandidateIsTrue(t: Tables, contentType: Option<string>, w: TopLikesWindow, now: int, row: TopLikeRow)
    requires Consistent(t) && row in Candidates(t, contentType, w, now)
    ensures RowIsTrue(t, contentType, w, now, row)
  {
    CandidatesAreThePositiveItems(t, contentType, w, now, row);
    if !w.All? { WindowExactToOneHour(t, row.content, now - Interval(w)); }
  }

  /** `list_top_likes` has one possible answer: the first `limit` of the items with a positive count,
      ranked by that count, which a windowed ranking knows up to one hour. */
  lemma {:induction false} TopLikesAreDetermined(collate: (string, string) -> bool, t: Tables,
                                                 contentType: Option<string>, w: TopLikesWindow, now: int, limit: nat,
                                                 out: seq<TopLikeRow>)
    requires StrictTotal(collate) && Consistent(t)
    ensures IsTop(Ranking(collate), Candidates(t, contentType, w, now), limit, out)
       <==> out == ListTopLikes(collate, t, contentType, w, now, limit)
    ensures forall row | row in ListTopLikes(collate, t, contentType, w, now, limit) ::
              RowIsTrue(t, contentType, w, now, row)
  {
    RankingIsTotal(collate);
    var rows := Candidates(t, contentType, w, now);
    TopIsThePrefix(Ranking(collate), rows, limit, out);
    var top := ListTopLikes(collate, t, contentType, w, now, limit);
    forall row | row in top ensures RowIsTrue(t, contentType, w, now, row) {
      assert row in Elements(Sorted(Ranking(collate), rows));
      CandidateIsTrue(t, contentType, w, now, row);
    }
  }

  /** The likes an item is ranked by: all of them, or those of the whole hours of the last 24 hours, 7 days or
      30 days, in microseconds. */
  ghost function RankedLikes(t: Tables, c: Content, w: TopLikesWindow, now: int): set<(string, Content)> {
    match w
    case Last24Hours => LikesInHoursSince(t, c, now - 86_400_000_000)
    case Last7Days => LikesInHoursSince(t, c, now - 604_800_000_000)
    case Last30Days => LikesInHoursSince(t, c, now - 2_592_000_000_000)
    case All => Likers(t.likes, c)
  }

  lemma RankedByTheirLikes(t: Tables, c: Content, w: TopLikesWindow, now: int)
    requires Consistent(t)
    ensures RankedCount(t, c, w, now) == |RankedLikes(t, c, w, now)|
  {
    if !w.All? { WindowSumCountsHours(t, c, now - Interval(w)); }
  }

  /** More likes first, ties descending by type and then by id. */
  ghost predicate ListedBefore(collate: (string, string) -> bool, a: Content, likes: int, b: Content, fewer: int) {
    || likes > fewer
    || (likes == fewer && collate(b.contentType, a.contentType))
    || (likes == fewer && b.contentType == a.contentType && collate(b.contentId, a.contentId))
  }

  /** Items that pass the filter, with the likes they have. */
  ghost predicate ListsTrueRows(t: Tables, contentType: Option<string>, w: TopLikesWindow, now: int,
                                top: seq<TopLikeRow>) {
    forall i | 0 <= i < |top| ::
      && (contentType.None? || top[i].content.contentType == contentType.value)
      && top[i].likeCount == |RankedLikes(t, top[i].content, w, now)| > 0
  }

  /** No item twice, the most liked first. */
  ghost predicate MostLikedFirst(collate: (string, string) -> bool, top: seq<TopLikeRow>) {
    forall i, j | 0 <= i < j < |top| ::
      && top[i].content != top[j].content && top[i].likeCount >= top[j].likeCount
      && ListedBefore(collate, top[i].content, top[i].likeCount, top[j].content, top[j].likeCount)
  }

  /** An item that passes the filter and has likes to be ranked by, but is not in the list. */
  ghost predicate LeftOut(t: Tables, contentType: Option<string>, w: TopLikesWindow, now: int, top: seq<TopLikeRow>,
                          c: Content) {
    && (contentType.None? || c.contentType == contentType.value)
    && RankedLikes(t, c, w, now) != {}
    && forall i | 0 <= i < |top| :: top[i].content != c
  }

  /** Every row of the list has at least as many likes, and comes before the item. */
  ghost predicate AllBefore(collate: (string, string) -> bool, top: seq<TopLikeRow>, c: Content, likes: int) {
    forall i | 0 <= i < |top| ::
      top[i].likeCount >= likes && ListedBefore(collate, top[i].content, top[i].likeCount, c, likes)
  }

  /** The list: items that pass the filter with their numbers of likes, the most liked first, at most `limit` of
      them; a liked item is left out only when the list is full, and then it comes after every item listed. */
  lemma TopLikesAreTheMostLiked(collate: (string, string) -> bool, t: Tables, contentType: Option<string>,
                                w: TopLikesWindow, now: int, limit: nat)
    requires StrictTotal(collate) && Consistent(t)
    ensures var top := ListTopLikes(collate, t, contentType, w, now, limit);
            && |top| <= limit
            && ListsTrueRows(t, contentType, w, now, top)
            && MostLikedFirst(collate, top)
            && forall c | LeftOut(t, contentType, w, now, top, c) ::
                |top| == limit && AllBefore(collate, top, c, |RankedLikes(t, c, w, now)|)
  {
    var top := ListTopLikes(collate, t, contentType, w, now, limit);
    RankingIsTotal(collate);
    TopLikesAreDetermined(collate, t, contentType, w, now, limit, top);
    ListedRowsAreTrue(collate, t, contentType, w, now, limit, top);
    RankingIsByLikes(collate, top);
    forall c | LeftOut(t, contentType, w, now, top, c)
      ensures |top| == limit && AllBefore(collate, top, c, |RankedLikes(t, c, w, now)|)
    {
      LeftOutComesAfter(collate, t, contentType, w, now, limit, top, c);
    }
  }

  lemma ListedRowsAreTrue(collate: (string, string) -> bool, t: Tables, contentType: Option<string>,
                          w: TopLikesWindow, now: int, limit: nat, top: seq<TopLikeRow>)
    requires Consistent(t) && IsTop(Ranking(collate), Candidates(t, contentType, w, now), limit, top)
    ensures ListsTrueRows(t, contentType, w, now, top)
  {
    forall i | 0 <= i < |top|
      ensures && (contentType.None? || top[i].content.contentType == contentType.value)
              && top[i].likeCount == |RankedLikes(t, top[i].content, w, now)| > 0
    {
      assert top[i] in Elements(top);
      CandidatesAreThePositiveItems(t, contentType, w, now, top[i]);
      RankedByTheirLikes(t, top[i].content, w, now);
    }
  }

  lemma RankingIsByLikes(collate: (string, string) -> bool, top: seq<TopLikeRow>)
    requires StrictTotal(collate) && Ascending(Ranking(collate), top)
    requires forall i, j | 0 <= i < |top| && 0 <= j < |top| && top[i].content == top[j].content ::
               top[i].likeCount == top[j].likeCount
    ensures MostLikedFirst(collate, top)
  {
    forall i, j | 0 <= i < j < |top|
      ensures && top[i].content != top[j].content && top[i].likeCount >= top[j].likeCount
              && ListedBefore(collate, top[i].content, top[i].likeCount, top[j].content, top[j].likeCount)
    {
      assert Ranking(collate)(top[i], top[j]);
    }
  }

  lemma LeftOutComesAfter(collate: (string, string) -> bool, t: Tables, contentType: Option<string>,
                          w: TopLikesWindow, now: int, limit: nat, top: seq<TopLikeRow>, c: Content)
    requires StrictTotal(Ranking(collate)) && Consistent(t) && LeftOut(t, contentType, w, now, top, c)
    requires var rows := Candidates(t, contentType, w, now);
             && IsTop(Ranking(collate), rows, limit, top)
             && top == Sorted(Ranking(collate), rows)[..Cut(limit, |rows|)]
    ensures |top| == limit && AllBefore(collate, top, c, |RankedLikes(t, c, w, now)|)
  {
    var row := TopLikeRow(c, RankedCount(t, c, w, now));
    RankedByTheirLikes(t, c, w, now);
    CandidatesAreThePositiveItems(t, contentType, w, now, row);
    var all := Sorted(Ranking(collate), Candidates(t, contentType, w, now));
    assert row in Elements(all);
    assert row !in top;
    assert |top| == |all| ==> top == all;
    RankedRowsComeBefore(collate, Candidates(t, contentType, w, now), limit, top, row);
  }

  lemma RankedRowsComeBefore(collate: (string, string) -> bool, rows: set<TopLikeRow>, limit: nat,
                             top: seq<TopLikeRow>, row: TopLikeRow)
    requires IsTop(Ranking(collate), rows, limit, top) && row in rows && row !in top
    ensures AllBefore(collate, top, row.content, row.likeCount)
  {
    forall i | 0 <= i < |top|
      ensures top[i].likeCount >= row.likeCount
              && ListedBefore(collate, top[i].content, top[i].likeCount, row.content, row.likeCount)
    {
      assert top[i] in top && Ranking(collate)(top[i], row);
    }
  }
}
