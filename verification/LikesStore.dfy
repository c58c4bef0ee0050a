/** The `likes` relation and the two aggregates kept beside it by the write transactions. */
module LikesStore {
  import opened Finite

  /** Microseconds, the resolution of the timestamps. */
  const HOUR: int := 3_600_000_000

  datatype Content = Content(contentType: string, contentId: string)

  datatype Tables = Tables(
    likes: map<(string, Content), int>,
    likeCounts: map<Content, int>,
    hourlyCounts: map<(int, Content), int>)

  datatype InsertLikeResult = Inserted | AlreadyExists
  datatype DeleteLikeResult = Deleted | NotFound

  const EMPTY := Tables(map[], map[], map[])

  /** The optional content_type filter of the listings. */
  predicate Selected(c: Content, contentType: Option<string>) {
    contentType.None? || c.contentType == contentType.value
  }

  /** date_trunc('hour', t). */
  function Hour(t: int): (b: int)
    ensures b % 3_600_000_000 == 0 && b <= t < b + 3_600_000_000
  {
    t - t % HOUR
  }

  function Greatest(a: int, b: int): int { if a < b then b else a }

  /** INSERT ... VALUES (k, initial) ON CONFLICT DO UPDATE SET like_count = present. */
  function Upsert<K>(m: map<K, int>, k: K, initial: int, present: int -> int): map<K, int> {
    m[k := if k in m then present(m[k]) else initial]
  }

  function Row<K>(m: map<K, int>, k: K): int { if k in m then m[k] else 0 }

  /** `get_like_count`. */
  function LikeCount(t: Tables, c: Content): int { Row(t.likeCounts, c) }

  datatype LikeStatus = LikeStatus(liked: bool, likedAt: Option<int>)

  /** `get_like_status`. */
  function StatusOf(t: Tables, user: string, c: Content): LikeStatus {
    LikeStatus((user, c) in t.likes, Get(t.likes, (user, c)))
  }

  function HourlyCount(t: Tables, b: int, c: Content): int { Row(t.hourlyCounts, (b, c)) }

  function InsertLike(t: Tables, user: string, c: Content, now: int): (Tables, InsertLikeResult) {
    if (user, c) in t.likes then (t, AlreadyExists)
    else
      (Tables(t.likes[(user, c) := now],
              Upsert(t.likeCounts, c, 1, n => n + 1),
              Upsert(t.hourlyCounts, (Hour(now), c), 1, n => n + 1)), Inserted)
  }

  function DeleteLike(t: Tables, user: string, c: Content): (Tables, DeleteLikeResult) {
    if (user, c) !in t.likes then (t, NotFound)
    else
      (Tables(t.likes - {(user, c)},
              Upsert(t.likeCounts, c, 0, n => Greatest(n - 1, 0)),
              Upsert(t.hourlyCounts, (Hour(t.likes[(user, c)]), c), 0, n => Greatest(n - 1, 0))), Deleted)
  }

  /** The tables, changed in place by one transaction at a time. */
  class Database {
    var likes: map<(string, Content), int>
    var likeCounts: map<Content, int>
    var hourlyCounts: map<(int, Content), int>

    function Contents(): Tables
      reads this
    {
      Tables(likes, likeCounts, hourlyCounts)
    }

    constructor (t: Tables)
      ensures Contents() == t
    {
      likes, likeCounts, hourlyCounts := t.likes, t.likeCounts, t.hourlyCounts;
    }

    method InsertLikeRow(user: string, c: Content, now: int) returns (result: InsertLikeResult)
      modifies this
      ensures (Contents(), result) == InsertLike(old(Contents()), user, c, now)
    {
      if (user, c) in likes { return AlreadyExists; }
      likes := likes[(user, c) := now];
      likeCounts := likeCounts[c := if c in likeCounts then likeCounts[c] + 1 else 1];
      var bucket := (Hour(now), c);
      hourlyCounts := hourlyCounts[bucket := if bucket in hourlyCounts then hourlyCounts[bucket] + 1 else 1];
      result := Inserted;
    }

    method DeleteLikeRow(user: string, c: Content) returns (result: DeleteLikeResult)
      modifies this
      ensures (Contents(), result) == DeleteLike(old(Contents()), user, c)
    {
      if (user, c) !in likes { return NotFound; }
      var bucket := (Hour(likes[(user, c)]), c);
      likes := likes - {(user, c)};
      likeCounts := likeCounts[c := if c in likeCounts then Greatest(likeCounts[c] - 1, 0) else 0];
      var hourly := if bucket in hourlyCounts then Greatest(hourlyCounts[bucket] - 1, 0) else 0;
      hourlyCounts := hourlyCounts[bucket := hourly];
      result := Deleted;
    }

    method GetLikeCount(c: Content) returns (count: int)
      ensures count == LikeCount(Contents(), c)
    {
      count := if c in likeCounts then likeCounts[c] else 0;
    }

    method GetLikeStatus(user: string, c: Content) returns (status: LikeStatus)
      ensures status == StatusOf(Contents(), user, c)
      ensures (status.liked <==> (user, c) in likes) && status.likedAt == Get(likes, (user, c))
    {
      status := if (user, c) in likes then LikeStatus(true, Some(likes[(user, c)])) else LikeStatus(false, None);
    }

    /** The requested pairs joined with `like_counts`. */
    method GetLikeCountsBatch(items: seq<Content>) returns (counts: map<Content, int>)
      ensures counts == map c | c in items :: LikeCount(Contents(), c)
    {
      counts := map c | c in items :: if c in likeCounts then likeCounts[c] else 0;
    }

    /** The requested pairs joined with the user's rows of `likes`. */
    method GetLikeStatusesBatch(user: string, items: seq<Content>) returns (statuses: map<Content, LikeStatus>)
      ensures statuses == map c | c in items :: StatusOf(Contents(), user, c)
      ensures forall c | c in items ::
                && c in statuses && (statuses[c].liked <==> (user, c) in likes)
                && statuses[c].likedAt == Get(likes, (user, c))
    {
      statuses := map c | c in items ::
        if (user, c) in likes then LikeStatus(true, Some(likes[(user, c)])) else LikeStatus(false, None);
    }
  }

  // ----- The aggregates against the relation -----

  /** The rows of `likes` for one item. */
  ghost function Likers(likes: map<(string, Content), int>, c: Content): set<(string, Content)> {
    set r | r in likes.Keys && r.1 == c
  }

  /** Those whose liked_at falls in the hour that starts at b. */
  ghost function LikersIn(likes: map<(string, Content), int>, b: int, c: Content): set<(string, Content)> {
    set r | r in likes.Keys && r.1 == c && Hour(likes[r]) == b
  }

  ghost predicate TotalsConsistent(t: Tables) {
    forall c :: LikeCount(t, c) == |Likers(t.likes, c)|
  }

  ghost predicate HoursConsistent(t: Tables) {
    forall b, c :: HourlyCount(t, b, c) == |LikersIn(t.likes, b, c)|
  }

  /** Both aggregates count the relation exactly. */
  ghost predicate Consistent(t: Tables) { TotalsConsistent(t) && HoursConsistent(t) }

  /** Whatever the tables hold, an insert of a new row adds one to its two counts, and a delete of a row takes one
      from them but not below 0; no other row or count changes. */
  lemma WritesMoveTheirCounts(t: Tables, user: string, c: Content, now: int, b: int, d: Content,
                              row: (string, Content))
    ensures (user, c) !in t.likes ==>
              var (t', result) := InsertLike(t, user, c, now);
              && result == Inserted && Get(t'.likes, row) == (if row == (user, c) then Some(now) else Get(t.likes, row))
              && LikeCount(t', d) == LikeCount(t, d) + (if d == c then 1 else 0)
              && HourlyCount(t', b, d) == HourlyCount(t, b, d) + (if d == c && b == Hour(now) then 1 else 0)
    ensures (user, c) in t.likes ==>
              var (t', result) := DeleteLike(t, user, c);
              && result == Deleted && Get(t'.likes, row) == (if row == (user, c) then None else Get(t.likes, row))
              && LikeCount(t', d)
                 == (if d != c then LikeCount(t, d) else if LikeCount(t, d) >= 1 then LikeCount(t, d) - 1 else 0)
              && HourlyCount(t', b, d)
                 == (if d != c || b != Hour(t.likes[(user, c)]) then HourlyCount(t, b, d)
                     else if HourlyCount(t, b, d) >= 1 then HourlyCount(t, b, d) - 1 else 0)
  {
  }

  lemma InsertKeepsTotals(t: Tables, user: string, c: Content, now: int)
    requires TotalsConsistent(t)
    ensures TotalsConsistent(InsertLike(t, user, c, now).0)
  {
    var t' := InsertLike(t, user, c, now).0;
    var r := (user, c);
    if r !in t.likes {
      forall d ensures LikeCount(t', d) == |Likers(t'.likes, d)| {
        assert Likers(t'.likes, d) == if d == c then Likers(t.likes, d) + {r} else Likers(t.likes, d);
      }
    }
  }

  lemma LikersInAfterInsert(likes: map<(string, Content), int>, r: (string, Content), now: int, b: int, d: Content)
    requires r !in likes
    ensures LikersIn(likes[r := now], b, d)
         == if d == r.1 && b == Hour(now) then LikersIn(likes, b, d) + {r} else LikersIn(likes, b, d)
  {
  }

  lemma InsertKeepsHours(t: Tables, user: string, c: Content, now: int)
    requires HoursConsistent(t)
    ensures HoursConsistent(InsertLike(t, user, c, now).0)
  {
    var t' := InsertLike(t, user, c, now).0;
    var r := (user, c);
    if r !in t.likes {
      forall b, d ensures HourlyCount(t', b, d) == |LikersIn(t'.likes, b, d)| {
        LikersInAfterInsert(t.likes, r, now, b, d);
        assert HourlyCount(t, b, d) == |LikersIn(t.likes, b, d)|;
      }
    }
  }

  /** A row about to be deleted is counted, so both upserts find a positive count: the fresh-row
      branch is not taken and GREATEST changes nothing. */
  lemma ClampsNeverFire(t: Tables, user: string, c: Content)
    requires Consistent(t) && (user, c) in t.likes
    ensures var b := Hour(t.likes[(user, c)]);
            && c in t.likeCounts && t.likeCounts[c] >= 1
            && (b, c) in t.hourlyCounts && t.hourlyCounts[(b, c)] >= 1
  {
    var b := Hour(t.likes[(user, c)]);
    assert (user, c) in Likers(t.likes, c) && (user, c) in LikersIn(t.likes, b, c);
    assert LikeCount(t, c) == |Likers(t.likes, c)|;
    assert HourlyCount(t, b, c) == |LikersIn(t.likes, b, c)|;
  }

  lemma DeleteKeepsTotals(t: Tables, user: string, c: Content)
    requires Consistent(t)
    ensures TotalsConsistent(DeleteLike(t, user, c).0)
  {
    var t' := DeleteLike(t, user, c).0;
    var r := (user, c);
    if r in t.likes {
      ClampsNeverFire(t, user, c);
      forall d ensures LikeCount(t', d) == |Likers(t'.likes, d)| {
        assert Likers(t'.likes, d) == Likers(t.likes, d) - {r};
      }
    }
  }

  lemma DeleteKeepsHours(t: Tables, user: string, c: Content)
    requires Consistent(t)
    ensures HoursConsistent(DeleteLike(t, user, c).0)
  {
    var t' := DeleteLike(t, user, c).0;
    var r := (user, c);
    if r in t.likes {
      ClampsNeverFire(t, user, c);
      var hour := Hour(t.likes[r]);
      forall b, d ensures HourlyCount(t', b, d) == |LikersIn(t'.likes, b, d)| {
        assert LikersIn(t'.likes, b, d) == LikersIn(t.likes, b, d) - {r};
        assert r in LikersIn(t.likes, b, d) <==> d == c && b == hour;
      }
    }
  }

  /** Unliking undoes a like that took effect: the relation and every count are what they were. */
  lemma {:induction false} UnlikeUndoesLike(t: Tables, user: string, c: Content, now: int)
    requires Consistent(t) && (user, c) !in t.likes
    ensures var (t', result) := DeleteLike(InsertLike(t, user, c, now).0, user, c);
            && result == Deleted && t'.likes == t.likes
            && (forall d :: LikeCount(t', d) == LikeCount(t, d))
            && (forall b, d :: HourlyCount(t', b, d) == HourlyCount(t, b, d))
  {
    assert HourlyCount(t, Hour(now), c) == |LikersIn(t.likes, Hour(now), c)|;
    assert LikeCount(t, c) == |Likers(t.likes, c)|;
  }

  /** Liking again changes nothing, not even liked_at; liking back after an unlike restores the counts but
      moves the row to the hour of the second like. */
  lemma RelikeMovesTheHour(t: Tables, user: string, c: Content, now: int, b: int, d: Content)
    requires Consistent(t) && (user, c) in t.likes
    ensures InsertLike(t, user, c, now) == (t, AlreadyExists)
    ensures var t' := InsertLike(DeleteLike(t, user, c).0, user, c, now).0;
            && t'.likes == t.likes[(user, c) := now]
            && LikeCount(t', d) == LikeCount(t, d)
            && HourlyCount(t', b, d) == HourlyCount(t, b, d)
                 - (if d == c && b == Hour(t.likes[(user, c)]) then 1 else 0)
                 + (if d == c && b == Hour(now) then 1 else 0)
  {
    ClampsNeverFire(t, user, c);
  }

  /** What the second migration writes into the new hourly table: one row per hour and item liked. */
  ghost function Backfill(likes: map<(string, Content), int>): map<(int, Content), int> {
    map k | k in (set r | r in likes.Keys :: (Hour(likes[r]), r.1)) :: |LikersIn(likes, k.0, k.1)|
  }

  /** The migrations start the store consistent, whatever was liked before the hourly table existed. */
  lemma {:induction false} BackfillIsConsistent(likes: map<(string, Content), int>, likeCounts: map<Content, int>)
    requires forall c :: Row(likeCounts, c) == |Likers(likes, c)|
    ensures Consistent(Tables(likes, likeCounts, Backfill(likes)))
  {
    var t := Tables(likes, likeCounts, Backfill(likes));
    assert forall r | r in likes.Keys :: (Hour(likes[r]), r.1) in t.hourlyCounts;
    forall b, c ensures HourlyCount(t, b, c) == |LikersIn(likes, b, c)| {
      if (b, c) !in t.hourlyCounts {
        assert LikersIn(likes, b, c) == {};
      }
    }
  }

  datatype Write = Like(user: string, content: Content, now: int) | Unlike(user: string, content: Content)

  function Apply(t: Tables, w: Write): Tables {
    match w
    case Like(user, c, now) => InsertLike(t, user, c, now).0
    case Unlike(user, c) => DeleteLike(t, user, c).0
  }

  function ApplyAll(t: Tables, writes: seq<Write>): Tables {
    if writes == [] then t else Apply(ApplyAll(t, writes[..|writes| - 1]), writes[|writes| - 1])
  }

  /** From the migrations on, every run of transactions keeps both aggregates exact. */
  lemma {:induction false} EveryRunIsConsistent(t: Tables, writes: seq<Write>)
    requires Consistent(t)
    ensures Consistent(ApplyAll(t, writes))
  {
    if writes != [] {
      var before := ApplyAll(t, writes[..|writes| - 1]);
      EveryRunIsConsistent(t, writes[..|writes| - 1]);
      match writes[|writes| - 1]
      case Like(user, c, now) =>
        InsertKeepsTotals(before, user, c, now);
        InsertKeepsHours(before, user, c, now);
      case Unlike(user, c) =>
        DeleteKeepsTotals(before, user, c);
        DeleteKeepsHours(before, user, c);
    }
  }

  // ----- The status against the writes -----

  /** From position `from` on, no like, or no unlike, of the item by the user. */
  predicate NoLikeFrom(writes: seq<Write>, from: nat, user: string, c: Content) {
    forall k | from <= k < |writes| :: !(writes[k].Like? && writes[k].user == user && writes[k].content == c)
  }

  predicate NoUnlikeFrom(writes: seq<Write>, from: nat, user: string, c: Content) {
    forall k | from <= k < |writes| :: writes[k] != Unlike(user, c)
  }

  /** The user's last write of the item is an unlike, or there is none and the user did not like it at first. */
  ghost predicate LastUnliked(t: Tables, writes: seq<Write>, user: string, c: Content) {
    || (exists k :: 0 <= k < |writes| && writes[k] == Unlike(user, c) && NoLikeFrom(writes, k + 1, user, c))
    || ((user, c) !in t.likes && NoLikeFrom(writes, 0, user, c))
  }

  /** The user's last write of the item that took effect is the like writes[k], at `at`. */
  ghost predicate LastLiked(t: Tables, writes: seq<Write>, k: int, user: string, c: Content, at: int) {
    && 0 <= k < |writes| && writes[k] == Like(user, c, at)
    && NoUnlikeFrom(writes, k + 1, user, c) && LastUnliked(t, writes[..k], user, c)
  }

  /** Being last unliked, before and after the last write. */
  lemma LastUnlikedBefore(t: Tables, writes: seq<Write>, user: string, c: Content)
    requires writes != []
    ensures var n := |writes| - 1;
            LastUnliked(t, writes, user, c) <==>
              || writes[n] == Unlike(user, c)
              || (NoLikeFrom(writes, n, user, c) && LastUnliked(t, writes[..n], user, c))
  {
    var n := |writes| - 1;
    if k :| 0 <= k < n && writes[k] == Unlike(user, c) && NoLikeFrom(writes, k + 1, user, c) {
      assert writes[..n][k] == Unlike(user, c) && NoLikeFrom(writes[..n], k + 1, user, c);
    }
    if k :| 0 <= k < n && writes[..n][k] == Unlike(user, c) && NoLikeFrom(writes[..n], k + 1, user, c) {
      assert writes[k] == Unlike(user, c);
      assert NoLikeFrom(writes, n, user, c) ==> NoLikeFrom(writes, k + 1, user, c);
    }
  }

  lemma {:induction false} UnlikedIffLastUnliked(t: Tables, writes: seq<Write>, user: string, c: Content)
    ensures (user, c) !in ApplyAll(t, writes).likes <==> LastUnliked(t, writes, user, c)
  {
    if writes != [] {
      UnlikedIffLastUnliked(t, writes[..|writes| - 1], user, c);
      LastUnlikedBefore(t, writes, user, c);
    }
  }

  /** After any run a user likes an item unless the last write was an unlike, and then since the last like that took
      effect. */
  lemma {:induction false} StatusFollowsTheWrites(t: Tables, writes: seq<Write>, user: string, c: Content, at: int)
    ensures var s := StatusOf(ApplyAll(t, writes), user, c);
            && (s.liked <==> s.likedAt.Some?)
            && (s.liked <==> !LastUnliked(t, writes, user, c))
            && (s.likedAt == Some(at)
                <==> (exists k :: LastLiked(t, writes, k, user, c, at))
                     || ((user, c) in t.likes && t.likes[(user, c)] == at && NoUnlikeFrom(writes, 0, user, c)))
  {
    UnlikedIffLastUnliked(t, writes, user, c);
    if writes != [] {
      var n := |writes| - 1;
      StatusFollowsTheWrites(t, writes[..n], user, c, at);
      UnlikedIffLastUnliked(t, writes[..n], user, c);
      LastLikedBefore(t, writes, user, c, at);
    }
  }

  /** Being last liked, before and after the last write. */
  lemma LastLikedBefore(t: Tables, writes: seq<Write>, user: string, c: Content, at: int)
    requires writes != []
    ensures var n := |writes| - 1;
            (exists k :: LastLiked(t, writes, k, user, c, at))
              <==> (writes[n] == Like(user, c, at) && LastUnliked(t, writes[..n], user, c))
                   || (writes[n] != Unlike(user, c) && exists k :: LastLiked(t, writes[..n], k, user, c, at))
  {
    var n := |writes| - 1;
    if writes[n] == Like(user, c, at) && LastUnliked(t, writes[..n], user, c) {
      assert LastLiked(t, writes, n, user, c, at);
    }
    if writes[n] != Unlike(user, c) {
      if k :| LastLiked(t, writes[..n], k, user, c, at) {
        assert writes[..n][..k] == writes[..k];
        assert LastLiked(t, writes, k, user, c, at);
      }
    }
    if k :| LastLiked(t, writes, k, user, c, at) && k < n {
      assert writes[..n][..k] == writes[..k];
      assert LastLiked(t, writes[..n], k, user, c, at);
    }
  }

  // ----- The hourly rows add up to the total -----

  ghost function ClassRows<R, B>(rows: set<R>, classOf: map<R, B>, b: B): set<R>
    requires rows <= classOf.Keys
  {
    set r | r in rows && classOf[r] == b
  }

  /** Rows of a finite set, classified, add up to the set. */
  lemma {:induction false} ClassesAddUp<R, B>(rows: set<R>, sizes: map<B, nat>, classOf: map<R, B>)
    requires rows <= classOf.Keys && forall r | r in rows :: classOf[r] in sizes
    requires forall b | b in sizes :: sizes[b] == |ClassRows(rows, classOf, b)|
    ensures Sum(sizes) == |rows|
    decreases |sizes|
  {
    if sizes == map[] {
      assert rows == {};
    } else {
      var b :| b in sizes;
      var inB := ClassRows(rows, classOf, b);
      var rest := rows - inB;
      SumRemove(sizes, b);
      forall d | d in sizes - {b} ensures (sizes - {b})[d] == |ClassRows(rest, classOf, d)| {
        assert ClassRows(rest, classOf, d) == ClassRows(rows, classOf, d);
      }
      ClassesAddUp(rest, sizes - {b}, classOf);
      assert rows == inB + rest;
    }
  }

  ghost function HourlyRows(t: Tables, c: Content): map<int, nat>
    requires Consistent(t)
  {
    map b | b in (set k | k in t.hourlyCounts.Keys && k.1 == c :: k.0) :: |LikersIn(t.likes, b, c)|
  }

  /** For a consistent store the sum over the hours of an item's hourly rows is its total. */
  lemma HourlyRowsAddUp(t: Tables, c: Content)
    requires Consistent(t)
    ensures forall b | b in HourlyRows(t, c) :: HourlyRows(t, c)[b] == HourlyCount(t, b, c)
    ensures Sum(HourlyRows(t, c)) == LikeCount(t, c)
  {
    var rows := Likers(t.likes, c);
    var hours := map r | r in t.likes.Keys :: Hour(t.likes[r]);
    var sizes := HourlyRows(t, c);
    forall r | r in rows ensures hours[r] in sizes {
      ClampsNeverFire(t, r.0, c);
    }
    forall b | b in sizes ensures sizes[b] == |ClassRows(rows, hours, b)| {
      assert LikersIn(t.likes, b, c) == ClassRows(rows, hours, b);
    }
    ClassesAddUp(rows, sizes, hours);
  }

  /** The aggregates from the migrations on: consistent, and consistent with each other. */
  lemma {:induction false} FromTheMigrationsOn(likes: map<(string, Content), int>, likeCounts: map<Content, int>,
                                               writes: seq<Write>)
    requires forall c :: Row(likeCounts, c) == |Likers(likes, c)|
    ensures var t := ApplyAll(Tables(likes, likeCounts, Backfill(likes)), writes);
            Consistent(t) && forall c :: Sum(HourlyRows(t, c)) == LikeCount(t, c)
  {
    var start := Tables(likes, likeCounts, Backfill(likes));
    BackfillIsConsistent(likes, likeCounts);
    EveryRunIsConsistent(start, writes);
    forall c ensures Sum(HourlyRows(ApplyAll(start, writes), c)) == LikeCount(ApplyAll(start, writes), c) {
      HourlyRowsAddUp(ApplyAll(start, writes), c);
    }
  }
}
