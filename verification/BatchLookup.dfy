/** The batch handlers: each gathers what the caches miss, asks once for the rest and scatters the
    answers back, with the effect of one lookup after the other. */
module BatchLookup {
  import opened Finite
  import opened LikesStore
  import opened CountCache
  import opened SingleFlight
  import opened Keys

  // ----- One lookup after the other -----

  datatype CachedCounts = CachedCounts(local: Cache, counts: seq<Option<int>>)

  /** `get_cached_like_count` on each key in turn. */
  function GetCachedInTurn(local: Cache, redis: Cache, keys: seq<Content>, now: int): CachedCounts {
    if keys == [] then CachedCounts(local, [])
    else
      var before := GetCachedInTurn(local, redis, keys[..|keys| - 1], now);
      var (local', found) := GetCached(before.local, redis, keys[|keys| - 1], now);
      CachedCounts(local', before.counts + [found])
  }

  datatype Counts = Counts(local: Cache, redis: Cache, counts: seq<int>)

  /** `get_like_count` on each item in turn. */
  function GetCountInTurn(db: Tables, local: Cache, redis: Cache, items: seq<Content>, ttl: int, now: int): Counts {
    if items == [] then Counts(local, redis, [])
    else
      var before := GetCountInTurn(db, local, redis, items[..|items| - 1], ttl, now);
      var a := GetCount(db, before.local, before.redis, items[|items| - 1], ttl, now);
      Counts(a.local, a.redis, before.counts + [a.count])
  }

  datatype StatusEntry = StatusEntry(status: LikeStatus, expiresAt: int)
  type StatusCache = map<(string, Content), StatusEntry>

  function LookupStatus(m: StatusCache, k: (string, Content), now: int): Option<LikeStatus> {
    if k in m && m[k].expiresAt > now then Some(m[k].status) else None
  }

  datatype Statuses = Statuses(cache: StatusCache, statuses: seq<LikeStatus>)

  /** `get_like_status`: the cached status, else the stored one, which is then cached. */
  function GetStatus(db: Tables, cache: StatusCache, user: string, c: Content, ttl: int,
                     now: int): (StatusCache, LikeStatus) {
    var found := LookupStatus(cache, (user, c), now);
    if found.Some? then (cache, found.value)
    else (cache[(user, c) := StatusEntry(StatusOf(db, user, c), now + ttl)], StatusOf(db, user, c))
  }

  /** `get_like_status` on each item in turn. */
  function GetStatusInTurn(db: Tables, cache: StatusCache, user: string, items: seq<Content>, ttl: int,
                           now: int): Statuses {
    if items == [] then Statuses(cache, [])
    else
      var before := GetStatusInTurn(db, cache, user, items[..|items| - 1], ttl, now);
      var (cache', status) := GetStatus(db, before.cache, user, items[|items| - 1], ttl, now);
      Statuses(cache', before.statuses + [status])
  }

  /** A live cached status, else whether the user's row is there, and since when. */
  predicate CachedOrStored(s: LikeStatus, db: Tables, cache: StatusCache, user: string, c: Content, now: int) {
    if (user, c) in cache && cache[(user, c)].expiresAt > now then s == cache[(user, c)].status
    else (s.liked <==> (user, c) in db.likes) && s.likedAt == Get(db.likes, (user, c))
  }

  // ----- Key by key -----

  lemma SameMap<K, V>(m: map<K, V>, n: map<K, V>)
    requires forall k :: Get(m, k) == Get(n, k)
    ensures m == n
  {
    forall k ensures k in m <==> k in n { assert Get(m, k) == Get(n, k); }
    forall k | k in m ensures m[k] == n[k] { assert Get(m, k) == Get(n, k); }
  }

  lemma SplitLast<T>(s: seq<T>)
    requires s != []
    ensures var n := |s| - 1; s == s[..n] + [s[n]] && forall x :: x in s <==> x in s[..n] || x == s[n]
  {
    assert s == s[..|s| - 1] + [s[|s| - 1]];
  }

  /** What the local cache holds for c after a lookup of c. */
  function LocalAfter(local: Cache, redis: Cache, c: Content, now: int): Option<Entry> {
    if Lookup(local, c, now).Some? then Get(local, c)
    else if Lookup(redis, c, now).Some? then Some(Entry(Lookup(redis, c, now).value, now + LOCAL_TTL))
    else None
  }

  function Found(local: Cache, redis: Cache, c: Content, now: int): Option<int> {
    if Lookup(local, c, now).Some? then Lookup(local, c, now) else Lookup(redis, c, now)
  }

  /** A lookup depends on its own entry only, and a second one answers and leaves the same. */
  lemma LookedUpAgain(before: Cache, local: Cache, redis: Cache, c: Content, now: int)
    requires Get(before, c) == Get(local, c) || Get(before, c) == LocalAfter(local, redis, c, now)
    ensures Found(before, redis, c, now) == Found(local, redis, c, now)
    ensures LocalAfter(before, redis, c, now) == LocalAfter(local, redis, c, now)
  {
  }

  /** `r` is what looking up these keys on their own would give. */
  ghost predicate CachedPointwise(r: CachedCounts, local: Cache, redis: Cache, keys: seq<Content>, now: int) {
    && |r.counts| == |keys|
    && (forall i | 0 <= i < |keys| :: r.counts[i] == Found(local, redis, keys[i], now))
    && (forall c :: Get(r.local, c) == if c in keys then LocalAfter(local, redis, c, now) else Get(local, c))
  }

  lemma CachedOneMore(r: CachedCounts, local: Cache, redis: Cache, keys: seq<Content>, c: Content, now: int)
    requires CachedPointwise(r, local, redis, keys, now)
    ensures var (local', found) := GetCached(r.local, redis, c, now);
            CachedPointwise(CachedCounts(local', r.counts + [found]), local, redis, keys + [c], now)
  {
    LookedUpAgain(r.local, local, redis, c, now);
    assert GetCached(r.local, redis, c, now).1 == Found(r.local, redis, c, now);
    forall d ensures Get(GetCached(r.local, redis, c, now).0, d)
                  == if d == c then LocalAfter(local, redis, c, now) else Get(r.local, d)
    {
    }
  }

  /** Cached lookups in turn answer and change each key as one lookup of it alone would, however often keys
      repeat. */
  lemma {:induction false} CachedInTurnIsPointwise(local: Cache, redis: Cache, keys: seq<Content>, now: int)
    ensures CachedPointwise(GetCachedInTurn(local, redis, keys, now), local, redis, keys, now)
  {
    if keys != [] {
      var n := |keys| - 1;
      CachedInTurnIsPointwise(local, redis, keys[..n], now);
      CachedOneMore(GetCachedInTurn(local, redis, keys[..n], now), local, redis, keys[..n], keys[n], now);
      assert keys[..n] + [keys[n]] == keys;
    }
  }

  /** What the two caches hold for c after a count of c. */
  function FilledLocal(db: Tables, local: Cache, redis: Cache, c: Content, now: int): Option<Entry> {
    if Found(local, redis, c, now).Some? then LocalAfter(local, redis, c, now)
    else Some(Entry(LikeCount(db, c), now + LOCAL_TTL))
  }

  function FilledRedis(db: Tables, local: Cache, redis: Cache, c: Content, ttl: int, now: int): Option<Entry> {
    if Found(local, redis, c, now).Some? then Get(redis, c) else Some(Entry(LikeCount(db, c), now + ttl))
  }

  function Counted(db: Tables, local: Cache, redis: Cache, c: Content, now: int): int {
    if Found(local, redis, c, now).Some? then Found(local, redis, c, now).value else LikeCount(db, c)
  }

  lemma GetCountIsLocal(db: Tables, local: Cache, redis: Cache, c: Content, ttl: int, now: int)
    ensures var a := GetCount(db, local, redis, c, ttl, now);
            && a.count == Counted(db, local, redis, c, now)
            && (forall d :: Get(a.local, d) == if d == c then FilledLocal(db, local, redis, c, now) else Get(local, d))
            && (forall d ::
                  Get(a.redis, d) == if d == c then FilledRedis(db, local, redis, c, ttl, now) else Get(redis, d))
  {
  }

  /** A count depends on its own entries only, and a second one answers and leaves the same. */
  lemma CountedAgain(db: Tables, before: Counts, local: Cache, redis: Cache, c: Content, ttl: int, now: int)
    requires || (Get(before.local, c) == Get(local, c) && Get(before.redis, c) == Get(redis, c))
             || (&& Get(before.local, c) == FilledLocal(db, local, redis, c, now)
                 && Get(before.redis, c) == FilledRedis(db, local, redis, c, ttl, now))
    ensures Counted(db, before.local, before.redis, c, now) == Counted(db, local, redis, c, now)
    ensures FilledLocal(db, before.local, before.redis, c, now) == FilledLocal(db, local, redis, c, now)
    ensures FilledRedis(db, before.local, before.redis, c, ttl, now) == FilledRedis(db, local, redis, c, ttl, now)
  {
  }

  /** Counts in turn answer and change each item as one count of it alone would, however often items
      repeat. */
  lemma {:induction false} CountInTurnIsPointwise(db: Tables, local: Cache, redis: Cache, items: seq<Content>,
                                                  ttl: int, now: int)
    ensures var r := GetCountInTurn(db, local, redis, items, ttl, now);
            && |r.counts| == |items|
            && (forall i | 0 <= i < |items| :: r.counts[i] == Counted(db, local, redis, items[i], now))
            && (forall c ::
                  Get(r.local, c) == if c in items then FilledLocal(db, local, redis, c, now) else Get(local, c))
            && (forall c ::
                  Get(r.redis, c) == if c in items then FilledRedis(db, local, redis, c, ttl, now) else Get(redis, c))
  {
    if items != [] {
      var n := |items| - 1;
      SplitLast(items);
      CountInTurnIsPointwise(db, local, redis, items[..n], ttl, now);
      var before := GetCountInTurn(db, local, redis, items[..n], ttl, now);
      CountedAgain(db, before, local, redis, items[n], ttl, now);
      GetCountIsLocal(db, before.local, before.redis, items[n], ttl, now);
    }
  }

  lemma {:induction false} StatusInTurnIsPointwise(db: Tables, cache: StatusCache, user: string, items: seq<Content>,
                                                   ttl: int, now: int)
    ensures var r := GetStatusInTurn(db, cache, user, items, ttl, now);
            && |r.statuses| == |items|
            && (forall i | 0 <= i < |items| :: r.statuses[i] == GetStatus(db, cache, user, items[i], ttl, now).1)
            && (forall i | 0 <= i < |items| :: CachedOrStored(r.statuses[i], db, cache, user, items[i], now))
            && (forall k ::
                  Get(r.cache, k)
                    == if k.0 == user && k.1 in items then Get(GetStatus(db, cache, user, k.1, ttl, now).0, k)
                       else Get(cache, k))
  {
    if items != [] {
      SplitLast(items);
      StatusInTurnIsPointwise(db, cache, user, items[..|items| - 1], ttl, now);
    }
  }

  // ----- The batch handlers -----

  lemma InPrefix<T>(s: seq<T>, i: nat)
    requires i < |s|
    ensures forall x :: x in s[..i + 1] <==> x in s[..i] || x == s[i]
  {
    assert s[..i + 1] == s[..i] + [s[i]];
  }

  /** `m` is `local` without the expired entries of `keys`, once `done` were stored from Redis. */
  ghost predicate Refreshed(m: Cache, local: Cache, redis: Cache, keys: seq<Content>, done: seq<Content>, now: int) {
    forall c :: Get(m, c) == if c in done then LocalAfter(local, redis, c, now)
                             else if c in keys && Lookup(local, c, now).None? then None
                             else Get(local, c)
  }

  /** `missing` are the positions below n that the local cache has no count for. */
  ghost predicate Misses(missing: seq<nat>, local: Cache, keys: seq<Content>, n: nat, now: int)
    requires n <= |keys|
  {
    && (forall k | 0 <= k < |missing| :: missing[k] < n && Lookup(local, keys[missing[k]], now).None?)
    && (forall j | 0 <= j < n && Lookup(local, keys[j], now).None? :: exists k | 0 <= k < |missing| :: missing[k] == j)
  }

  /** The keys at some positions. */
  function KeysAt<T>(s: seq<T>, positions: seq<nat>): (r: seq<T>)
    requires forall k | 0 <= k < |positions| :: positions[k] < |s|
    ensures |r| == |positions| && forall k | 0 <= k < |r| :: r[k] == s[positions[k]]
  {
    seq(|positions|, k requires 0 <= k < |positions| => s[positions[k]])
  }

  /** `counts` answers the keys found locally and those at the first k missing positions. */
  ghost predicate Scattered(counts: seq<Option<int>>, local: Cache, redis: Cache, keys: seq<Content>,
                            missing: seq<nat>, k: nat, now: int)
    requires k <= |missing| && forall j | 0 <= j < |missing| :: missing[j] < |keys|
  {
    && |counts| == |keys|
    && (forall j | 0 <= j < |keys| && Lookup(local, keys[j], now).Some? :: counts[j] == Lookup(local, keys[j], now))
    && (forall j | 0 <= j < k :: counts[missing[j]] == Lookup(redis, keys[missing[j]], now))
  }

  lemma ScatteredByOne(counts: seq<Option<int>>, local: Cache, redis: Cache, keys: seq<Content>, missing: seq<nat>,
                       k: nat, now: int)
    requires k < |missing| && Misses(missing, local, keys, |keys|, now)
    requires Scattered(counts, local, redis, keys, missing, k, now)
    ensures Scattered(counts[missing[k] := Lookup(redis, keys[missing[k]], now)], local, redis, keys, missing, k + 1,
                      now)
  {
  }

  lemma ScatteredAll(counts: seq<Option<int>>, local: Cache, redis: Cache, keys: seq<Content>, missing: seq<nat>,
                     now: int)
    requires Misses(missing, local, keys, |keys|, now)
    requires Scattered(counts, local, redis, keys, missing, |missing|, now)
    ensures forall j | 0 <= j < |keys| :: counts[j] == Found(local, redis, keys[j], now)
  {
  }

  lemma RefreshedByOne(m: Cache, m': Cache, local: Cache, redis: Cache, keys: seq<Content>, asked: seq<Content>,
                       k: nat, now: int)
    requires k < |asked| && asked[k] in keys && Lookup(local, asked[k], now).None?
    requires Refreshed(m, local, redis, keys, asked[..k], now)
    requires m' == var found := Lookup(redis, asked[k], now);
                   if found.Some? then Store(m, asked[k], found.value, LOCAL_TTL, now) else m
    ensures Refreshed(m', local, redis, keys, asked[..k + 1], now)
  {
    InPrefix(asked, k);
  }

  lemma MissesAllKeys(local: Cache, keys: seq<Content>, missing: seq<nat>, c: Content, now: int)
    requires Misses(missing, local, keys, |keys|, now) && c in keys && Lookup(local, c, now).None?
    ensures c in KeysAt(keys, missing)
  {
    var j :| 0 <= j < |keys| && keys[j] == c;
    var k :| 0 <= k < |missing| && missing[k] == j;
    assert KeysAt(keys, missing)[k] == c;
  }

  lemma CachedCountsInTurn(m: Cache, counts: seq<Option<int>>, local: Cache, redis: Cache, keys: seq<Content>,
                           missing: seq<nat>, now: int)
    requires Misses(missing, local, keys, |keys|, now)
    requires Refreshed(m, local, redis, keys, KeysAt(keys, missing), now)
    requires |counts| == |keys| && forall j | 0 <= j < |keys| :: counts[j] == Found(local, redis, keys[j], now)
    ensures CachedCounts(m, counts) == GetCachedInTurn(local, redis, keys, now)
  {
    var r := GetCachedInTurn(local, redis, keys, now);
    CachedInTurnIsPointwise(local, redis, keys, now);
    assert counts == r.counts;
    forall c ensures Get(m, c) == Get(r.local, c) {
      if c in keys && Lookup(local, c, now).None? { MissesAllKeys(local, keys, missing, c, now); }
    }
    SameMap(m, r.local);
  }

  function FillKey(c: Content): string { KeyText(CountKey(c)) }

  lemma FillKeyInjective(c: Content, d: Content)
    requires IsContent(c) && IsContent(d)
    ensures FillKey(c) == FillKey(d) <==> c == d
  {
    CacheKeysAreInjective(CountKey(c), CountKey(d));
  }

  ghost function FillKeys(items: seq<Content>): set<string> { set c | c in items :: FillKey(c) }

  /** Beyond what was in flight before, the table holds exactly these items' fills, under these handles. */
  ghost predicate HoldsFills(inflight: map<string, Notify>, idle: map<string, Notify>, items: seq<Content>,
                             notifies: seq<Notify>) {
    && |notifies| == |items|
    && inflight - FillKeys(items) == idle
    && forall k | 0 <= k < |items| :: FillKey(items[k]) in inflight && inflight[FillKey(items[k])] == notifies[k]
  }

  lemma HoldsOneMore(inflight: map<string, Notify>, idle: map<string, Notify>, items: seq<Content>, i: nat,
                     notifies: seq<Notify>, notify: Notify)
    requires i < |items| && FillKey(items[i]) !in inflight
    requires HoldsFills(inflight, idle, items[..i], notifies)
    ensures HoldsFills(inflight[FillKey(items[i]) := notify], idle, items[..i + 1], notifies + [notify])
  {
    InPrefix(items, i);
    assert FillKeys(items[..i + 1]) == FillKeys(items[..i]) + {FillKey(items[i])};
  }

  /** Each item's key is free when its turn comes: not in flight before, and not led for an earlier item. */
  ghost predicate FreeToLead(items: seq<Content>, inflight: map<string, Notify>) {
    items == [] || (var n := |items| - 1;
                    && FreeToLead(items[..n], inflight)
                    && FillKey(items[n]) !in inflight && FillKey(items[n]) !in FillKeys(items[..n]))
  }

  lemma {:induction false} FreePrefix(items: seq<Content>, n: nat, inflight: map<string, Notify>)
    requires n <= |items| && FreeToLead(items, inflight)
    ensures FreeToLead(items[..n], inflight)
  {
    if n == |items| {
      assert items[..n] == items;
    } else {
      FreePrefix(items[..|items| - 1], n, inflight);
      assert items[..|items| - 1][..n] == items[..n];
    }
  }

  ghost predicate NoneInFlight(items: seq<Content>, inflight: map<string, Notify>) {
    forall k | 0 <= k < |items| :: FillKey(items[k]) !in inflight
  }

  lemma KeyAmong(items: seq<Content>, c: Content)
    requires IsContent(c) && forall k | 0 <= k < |items| :: IsContent(items[k])
    ensures FillKey(c) in FillKeys(items) <==> c in items
  {
    if FillKey(c) in FillKeys(items) {
      var d :| d in items && FillKey(d) == FillKey(c);
      var k :| 0 <= k < |items| && items[k] == d;
      FillKeyInjective(items[k], c);
    }
  }

  lemma DistinctLast<T>(s: seq<T>)
    requires s != []
    ensures var n := |s| - 1; Distinct(s) <==> Distinct(s[..n]) && s[n] !in s[..n]
  {
    var n := |s| - 1;
    if Distinct(s) { assert forall i | 0 <= i < n :: s[..n][i] != s[n]; }
  }

  /** For items the service accepts: none is in flight and none is repeated. */
  lemma {:induction false} FreeToLeadIff(items: seq<Content>, inflight: map<string, Notify>)
    requires forall k | 0 <= k < |items| :: IsContent(items[k])
    ensures FreeToLead(items, inflight) <==> Distinct(items) && NoneInFlight(items, inflight)
  {
    if items != [] {
      var n := |items| - 1;
      FreeToLeadIff(items[..n], inflight);
      KeyAmong(items[..n], items[n]);
      DistinctLast(items);
      assert NoneInFlight(items, inflight) <==> NoneInFlight(items[..n], inflight) && FillKey(items[n]) !in inflight;
    }
  }

  /** Led up to position n, where the next key is in flight under the handle waited for. */
  ghost predicate StoppedAt(inflight: map<string, Notify>, idle: map<string, Notify>, items: seq<Content>, n: nat,
                            waits: Notify) {
    && n < |items| && FreeToLead(items[..n], idle)
    && FillKeys(items[..n]) <= inflight.Keys && inflight - FillKeys(items[..n]) == idle
    && FillKey(items[n]) in inflight && inflight[FillKey(items[n])] == waits
  }

  lemma HeldInFlight(inflight: map<string, Notify>, idle: map<string, Notify>, items: seq<Content>,
                     notifies: seq<Notify>)
    requires HoldsFills(inflight, idle, items, notifies)
    ensures FillKeys(items) <= inflight.Keys
  {
    forall key | key in FillKeys(items) ensures key in inflight {
      var c :| c in items && FillKey(c) == key;
      var k :| 0 <= k < |items| && items[k] == c;
    }
  }

  lemma FreeOneMore(inflight: map<string, Notify>, idle: map<string, Notify>, items: seq<Content>, i: nat,
                    notifies: seq<Notify>)
    requires i < |items| && FreeToLead(items[..i], idle) && HoldsFills(inflight, idle, items[..i], notifies)
    ensures FreeToLead(items[..i + 1], idle) <==> FillKey(items[i]) !in inflight
    ensures FillKeys(items[..i]) <= inflight.Keys
  {
    HeldInFlight(inflight, idle, items[..i], notifies);
    assert items[..i + 1][..i] == items[..i] && items[..i + 1][i] == items[i];
    assert FillKey(items[i]) in inflight <==> FillKey(items[i]) in idle || FillKey(items[i]) in FillKeys(items[..i]);
  }

  // ----- Finishing -----

  function ReleaseOne(inflight: map<string, Notify>, key: string, notify: Notify): map<string, Notify> {
    if key in inflight && inflight[key] == notify then inflight - {key} else inflight
  }

  /** The table once these permits are finished in order, live or not. */
  function Released(inflight: map<string, Notify>, items: seq<Content>, notifies: seq<Notify>): map<string, Notify>
    requires |items| == |notifies|
  {
    if items == [] then inflight
    else
      var n := |items| - 1;
      ReleaseOne(Released(inflight, items[..n], notifies[..n]), FillKey(items[n]), notifies[n])
  }

  lemma ReleasedByOne(inflight: map<string, Notify>, items: seq<Content>, notifies: seq<Notify>, i: nat)
    requires i < |items| == |notifies|
    ensures Released(inflight, items[..i + 1], notifies[..i + 1])
         == ReleaseOne(Released(inflight, items[..i], notifies[..i]), FillKey(items[i]), notifies[i])
  {
    assert items[..i + 1][..i] == items[..i] && notifies[..i + 1][..i] == notifies[..i];
  }

  lemma ReleasesOneMore(inflight: map<string, Notify>, items: seq<Content>, n: nat, notify: Notify)
    requires n < |items| && FillKey(items[n]) in inflight && inflight[FillKey(items[n])] == notify
    requires FillKey(items[n]) !in FillKeys(items[..n])
    ensures ReleaseOne(inflight - FillKeys(items[..n]), FillKey(items[n]), notify)
      == inflight - FillKeys(items[..n + 1])
  {
    InPrefix(items, n);
    assert FillKeys(items[..n + 1]) == FillKeys(items[..n]) + {FillKey(items[n])};
  }

  lemma {:induction false} ReleasesHeld(inflight: map<string, Notify>, items: seq<Content>, notifies: seq<Notify>,
                                        idle: map<string, Notify>, n: nat)
    requires n <= |items| && FreeToLead(items, idle) && HoldsFills(inflight, idle, items, notifies)
    ensures Released(inflight, items[..n], notifies[..n]) == inflight - FillKeys(items[..n])
  {
    if n > 0 {
      ReleasesHeld(inflight, items, notifies, idle, n - 1);
      ReleasedByOne(inflight, items, notifies, n - 1);
      FreePrefix(items, n, idle);
      assert items[..n][..n - 1] == items[..n - 1];
      ReleasesOneMore(inflight, items, n - 1, notifies[n - 1]);
    }
  }

  /** Finishing what was led leaves the table as it was before. */
  lemma ReleasedRestores(inflight: map<string, Notify>, items: seq<Content>, notifies: seq<Notify>,
                         idle: map<string, Notify>)
    requires FreeToLead(items, idle) && HoldsFills(inflight, idle, items, notifies)
    ensures Released(inflight, items, notifies) == idle
  {
    ReleasesHeld(inflight, items, notifies, idle, |items|);
    assert items[..|items|] == items && notifies[..|items|] == notifies;
  }

  /** `m` is `before` with these items' stored counts. */
  ghost predicate Filled(m: Cache, before: Cache, items: seq<Content>, stored: map<Content, int>, ttl: int, now: int)
    requires forall c | c in items :: c in stored
  {
    forall c :: Get(m, c) == if c in items then Some(Entry(stored[c], now + ttl)) else Get(before, c)
  }

  lemma FilledByOne(m: Cache, before: Cache, items: seq<Content>, i: nat, stored: map<Content, int>, ttl: int, now: int)
    requires i < |items| && forall c | c in items :: c in stored
    requires Filled(m, before, items[..i], stored, ttl, now)
    ensures Filled(Store(m, items[i], stored[items[i]], ttl, now), before, items[..i + 1], stored, ttl, now)
  {
    InPrefix(items, i);
  }

  ghost predicate AnswersAre(answers: map<Content, int>, before: map<Content, int>, items: seq<Content>,
                             stored: map<Content, int>)
    requires forall c | c in items :: c in stored
  {
    forall c :: Get(answers, c) == if c in items then Some(stored[c]) else Get(before, c)
  }

  lemma AnswersByOne(answers: map<Content, int>, before: map<Content, int>, items: seq<Content>, i: nat,
                     stored: map<Content, int>)
    requires i < |items| && forall c | c in items :: c in stored
    requires AnswersAre(answers, before, items[..i], stored)
    ensures AnswersAre(answers[items[i] := stored[items[i]]], before, items[..i + 1], stored)
  {
    InPrefix(items, i);
  }

  const MAX_BATCH_ITEMS: nat := 100

  /** The items neither cache has a count for, in order, repeated as they are. */
  function MissingOf(items: seq<Content>, local: Cache, redis: Cache, now: int): seq<Content> {
    if items == [] then []
    else
      var n := |items| - 1;
      MissingOf(items[..n], local, redis, now) + (if Found(local, redis, items[n], now).None? then [items[n]] else [])
  }

  /** The cached items answered, the others listed. */
  ghost predicate Sifted(answers: map<Content, int>, missing: seq<Content>, items: seq<Content>, local: Cache,
                         redis: Cache, now: int) {
    && missing == MissingOf(items, local, redis, now)
    && (forall c :: c in missing <==> c in items && Found(local, redis, c, now).None?)
    && (forall c :: Get(answers, c) == if c in items then Found(local, redis, c, now) else None)
  }

  lemma SiftedOneMore(answers: map<Content, int>, missing: seq<Content>, items: seq<Content>, i: nat, local: Cache,
                      redis: Cache, now: int)
    requires i < |items|
    requires Sifted(answers, missing, items[..i], local, redis, now)
    ensures var found := Found(local, redis, items[i], now);
            && (found.Some? ==> Sifted(answers[items[i] := found.value], missing, items[..i + 1], local, redis, now))
            && (found.None? ==> Sifted(answers, missing + [items[i]], items[..i + 1], local, redis, now))
  {
    InPrefix(items, i);
    assert items[..i + 1][..i] == items[..i];
    var found := Found(local, redis, items[i], now);
    if found.Some? {
      var answers' := answers[items[i] := found.value];
      forall c ensures Get(answers', c) == if c in items[..i + 1] then Found(local, redis, c, now) else None {
        assert c != items[i] ==> Get(answers', c) == Get(answers, c);
      }
    }
  }

  ghost predicate FilledFrom(stored: map<Content, int>, db: Tables, missing: seq<Content>) {
    forall c | c in missing :: c in stored && stored[c] == LikeCount(db, c)
  }

  /** The caches after the fills, against counts in turn. */
  lemma FilledInTurn(db: Tables, local: Cache, redis: Cache, looked: Cache, local': Cache, redis': Cache,
                     items: seq<Content>, cached: map<Content, int>, missing: seq<Content>, stored: map<Content, int>,
                     ttl: int, now: int)
    requires Sifted(cached, missing, items, local, redis, now)
    requires looked == GetCachedInTurn(local, redis, items, now).local
    requires FilledFrom(stored, db, missing)
    requires Filled(local', looked, missing, stored, LOCAL_TTL, now) && Filled(redis', redis, missing, stored, ttl, now)
    ensures var r := GetCountInTurn(db, local, redis, items, ttl, now); r.local == local' && r.redis == redis'
  {
    var r := GetCountInTurn(db, local, redis, items, ttl, now);
    CachedInTurnIsPointwise(local, redis, items, now);
    CountInTurnIsPointwise(db, local, redis, items, ttl, now);
    SameMap(r.local, local');
    SameMap(r.redis, redis');
  }

  lemma AnswersInTurn(db: Tables, local: Cache, redis: Cache, items: seq<Content>, cached: map<Content, int>,
                      missing: seq<Content>, stored: map<Content, int>, answers: map<Content, int>, results: seq<int>,
                      ttl: int, now: int)
    requires Sifted(cached, missing, items, local, redis, now)
    requires FilledFrom(stored, db, missing)
    requires AnswersAre(answers, cached, missing, stored)
    requires |results| == |items|
    requires forall i | 0 <= i < |items| :: results[i] == if items[i] in answers then answers[items[i]] else 0
    ensures results == GetCountInTurn(db, local, redis, items, ttl, now).counts
  {
    CountInTurnIsPointwise(db, local, redis, items, ttl, now);
    forall i | 0 <= i < |items| ensures results[i] == Counted(db, local, redis, items[i], now) {
      assert Get(answers, items[i]) == Some(Counted(db, local, redis, items[i], now));
    }
  }

  /** What one run of a handler to its answer or its first wait gives. */
  datatype CountReply = CountAnswer(count: int) | Waits(notify: Notify)
  datatype BatchReply = TooLarge | BatchAnswer(counts: seq<int>) | BatchWaits(notify: Notify)

  class CountHandlers {
    const instance: Instance
    const fills: InflightFills

    constructor (instance: Instance, fills: InflightFills)
      ensures this.instance == instance && this.fills == fills
    {
      this.instance, this.fills := instance, fills;
    }

    /** The first loop of `get_cached_like_counts`. */
    method GatherLocal(keys: seq<Content>, now: int) returns (counts: seq<Option<int>>, missing: seq<nat>)
      modifies instance.local
      ensures var local := old(instance.local.entries);
              && Misses(missing, local, keys, |keys|, now)
              && Refreshed(instance.local.entries, local, map[], keys, [], now)
              && |counts| == |keys| && forall j | 0 <= j < |keys| :: counts[j] == Lookup(local, keys[j], now)
    {
      counts, missing := seq(|keys|, _ => None), [];
      for i := 0 to |keys|
        invariant |counts| == |keys|
        invariant forall j | 0 <= j < i :: counts[j] == Lookup(old(instance.local.entries), keys[j], now)
        invariant forall j | i <= j < |keys| :: counts[j] == None
        invariant Misses(missing, old(instance.local.entries), keys, i, now)
        invariant Refreshed(instance.local.entries, old(instance.local.entries), map[], keys[..i], [], now)
      {
        var count := instance.local.Get(keys[i], now);
        InPrefix(keys, i);
        if count.Some? {
          counts := counts[i := count];
        } else {
          assert forall k | 0 <= k < |missing| :: (missing + [i])[k] == missing[k];
          assert (missing + [i])[|missing|] == i;
          missing := missing + [i];
        }
      }
      assert keys[..|keys|] == keys;
    }

    /** The second loop: what MGET found goes back to the positions it was asked for. */
    method ScatterValues(gathered: seq<Option<int>>, keys: seq<Content>, missing: seq<nat>, ghost local: Cache,
                         now: int)
        returns (counts: seq<Option<int>>)
      requires Misses(missing, local, keys, |keys|, now)
      requires Refreshed(instance.local.entries, local, instance.useCases.redis.counts, keys, [], now)
      requires |gathered| == |keys| && forall j | 0 <= j < |keys| :: gathered[j] == Lookup(local, keys[j], now)
      modifies instance.local
      ensures Refreshed(instance.local.entries, local, instance.useCases.redis.counts, keys, KeysAt(keys, missing), now)
      ensures |counts| == |keys|
      ensures forall j | 0 <= j < |keys| :: counts[j] == Found(local, instance.useCases.redis.counts, keys[j], now)
    {
      counts := gathered;
      ghost var redis := instance.useCases.redis.counts;
      var asked := KeysAt(keys, missing);
      var values := instance.useCases.redis.GetValues(asked, now);
      for k := 0 to |missing|
        invariant Scattered(counts, local, redis, keys, missing, k, now)
        invariant Refreshed(instance.local.entries, local, redis, keys, asked[..k], now)
      {
        ghost var before := instance.local.entries;
        if values[k].Some? { instance.local.Set(keys[missing[k]], values[k].value, LOCAL_TTL, now); }
        RefreshedByOne(before, instance.local.entries, local, redis, keys, asked, k, now);
        ScatteredByOne(counts, local, redis, keys, missing, k, now);
        counts := counts[missing[k] := values[k]];
      }
      assert asked[..|missing|] == asked;
      ScatteredAll(counts, local, redis, keys, missing, now);
    }

    method GetCachedLikeCounts(keys: seq<Content>, now: int) returns (counts: seq<Option<int>>)
      modifies instance.local
      ensures CachedCounts(instance.local.entries, counts)
           == GetCachedInTurn(old(instance.local.entries), instance.useCases.redis.counts, keys, now)
    {
      if keys == [] { return []; }
      ghost var local, redis := instance.local.entries, instance.useCases.redis.counts;
      var missing;
      counts, missing := GatherLocal(keys, now);
      if missing != [] { counts := ScatterValues(counts, keys, missing, local, now); }
      CachedCountsInTurn(instance.local.entries, counts, local, redis, keys, missing, now);
    }

    /** One attempt of `get_like_count`, the first or one after a wait: the caches, else lead and query, else wait
        for whoever leads. */
    method GetLikeCount(c: Content, now: int) returns (reply: CountReply)
      modifies instance.local, instance.useCases.redis`counts, fills
      ensures fills.inflight == old(fills.inflight)
      ensures var local, redis := old(instance.local.entries), old(instance.useCases.redis.counts);
              var a := GetCount(instance.useCases.database.Contents(), local, redis, c, instance.useCases.ttl, now);
              if Found(local, redis, c, now).None? && FillKey(c) in fills.inflight then
                && reply == Waits(fills.inflight[FillKey(c)])
                && instance.local.entries == GetCached(local, redis, c, now).0
                && instance.useCases.redis.counts == redis
              else
                && reply == CountAnswer(a.count)
                && instance.local.entries == a.local && instance.useCases.redis.counts == a.redis
    {
      var found := instance.GetCachedLikeCount(c, now);
      if found.Some? { return CountAnswer(found.value); }
      var permit := fills.BeginLikeCountFill(FillKey(c));
      if permit.Follower? { return Waits(permit.notify); }
      var count := instance.useCases.database.GetLikeCount(c);
      fills.FinishLikeCountFill(FillKey(c), permit.notify);
      instance.CacheLikeCount(c, count, now);
      reply := CountAnswer(count);
    }

    /** The begin loop up to its first wait: it leads every item, or waits at the first whose key is in flight. */
    method BeginFills(missing: seq<Content>) returns (notifies: seq<Notify>, waits: Option<Notify>)
      modifies fills
      ensures waits.None? ==> FreeToLead(missing, old(fills.inflight))
                              && HoldsFills(fills.inflight, old(fills.inflight), missing, notifies)
      ensures waits.Some? ==> !FreeToLead(missing, old(fills.inflight))
                              && StoppedAt(fills.inflight, old(fills.inflight), missing, |notifies|, waits.value)
      ensures forall k | 0 <= k < |notifies| :: fresh(notifies[k])
    {
      notifies, waits := [], None;
      for i := 0 to |missing|
        invariant |notifies| == i && FreeToLead(missing[..i], old(fills.inflight))
        invariant HoldsFills(fills.inflight, old(fills.inflight), missing[..i], notifies)
        invariant forall k | 0 <= k < |notifies| :: fresh(notifies[k])
      {
        ghost var before := fills.inflight;
        FreeOneMore(before, old(fills.inflight), missing, i, notifies);
        var permit := fills.BeginLikeCountFill(FillKey(missing[i]));
        if permit.Follower? {
          if FreeToLead(missing, old(fills.inflight)) { FreePrefix(missing, i + 1, old(fills.inflight)); }
          return notifies, Some(permit.notify);
        }
        HoldsOneMore(before, old(fills.inflight), missing, i, notifies, permit.notify);
        notifies := notifies + [permit.notify];
      }
      assert missing[..|missing|] == missing;
    }

    /** One leader item of that loop. */
    method FinishOne(c: Content, count: int, notify: Notify, now: int)
      modifies instance.local, instance.useCases.redis`counts, fills, notify
      ensures instance.local.entries == Store(old(instance.local.entries), c, count, LOCAL_TTL, now)
      ensures instance.useCases.redis.counts
        == Store(old(instance.useCases.redis.counts), c, count, instance.useCases.ttl, now)
      ensures fills.inflight == ReleaseOne(old(fills.inflight), FillKey(c), notify) && notify.notified
    {
      instance.CacheLikeCount(c, count, now);
      fills.FinishLikeCountFill(FillKey(c), notify);
    }

    /** The last loop over the leader items: answer, cache, finish. The permits may be live, or stale ones kept
        after a failed lookup. */
    method FinishFills(led: seq<Content>, notifies: seq<Notify>, stored: map<Content, int>,
                       answered: map<Content, int>, now: int)
        returns (answers: map<Content, int>)
      requires |led| == |notifies| && forall c | c in led :: c in stored
      modifies instance.local, instance.useCases.redis`counts, fills, notifies
      ensures fills.inflight == Released(old(fills.inflight), led, notifies)
      ensures forall k | 0 <= k < |notifies| :: notifies[k].notified
      ensures AnswersAre(answers, answered, led, stored)
      ensures Filled(instance.local.entries, old(instance.local.entries), led, stored, LOCAL_TTL, now)
      ensures Filled(instance.useCases.redis.counts, old(instance.useCases.redis.counts), led, stored,
                     instance.useCases.ttl, now)
    {
      answers := answered;
      for i := 0 to |led|
        invariant fills.inflight == Released(old(fills.inflight), led[..i], notifies[..i])
        invariant forall k | 0 <= k < i :: notifies[k].notified
        invariant AnswersAre(answers, answered, led[..i], stored)
        invariant Filled(instance.local.entries, old(instance.local.entries), led[..i], stored, LOCAL_TTL, now)
        invariant Filled(instance.useCases.redis.counts, old(instance.useCases.redis.counts), led[..i], stored,
                         instance.useCases.ttl, now)
      {
        var c := led[i];
        AnswersByOne(answers, answered, led, i, stored);
        FilledByOne(instance.local.entries, old(instance.local.entries), led, i, stored, LOCAL_TTL, now);
        FilledByOne(instance.useCases.redis.counts, old(instance.useCases.redis.counts), led, i, stored,
                    instance.useCases.ttl, now);
        ReleasedByOne(old(fills.inflight), led, notifies, i);
        var count := if c in stored then stored[c] else 0;
        answers := answers[c := count];
        FinishOne(c, count, notifies[i], now);
      }
      assert led[..|led|] == led && notifies[..|led|] == notifies;
    }

    /** The loop over the cached counts. */
    method SiftCached(items: seq<Content>, cached: seq<Option<int>>, ghost local: Cache, ghost redis: Cache, now: int)
        returns (answers: map<Content, int>, missing: seq<Content>)
      requires cached == GetCachedInTurn(local, redis, items, now).counts
      ensures Sifted(answers, missing, items, local, redis, now)
    {
      assert |cached| == |items| && forall j | 0 <= j < |items| :: cached[j] == Found(local, redis, items[j], now) by {
        CachedInTurnIsPointwise(local, redis, items, now);
      }
      answers, missing := map[], [];
      for i := 0 to |items|
        invariant Sifted(answers, missing, items[..i], local, redis, now)
      {
        SiftedOneMore(answers, missing, items, i, local, redis, now);
        if cached[i].Some? {
          answers := answers[items[i] := cached[i].value];
        } else {
          missing := missing + [items[i]];
        }
      }
      assert items[..|items|] == items;
    }

    /** Begin, one query, finish; or up to the first wait. */
    method FillMissing(missing: seq<Content>, answered: map<Content, int>, now: int)
        returns (stored: map<Content, int>, answers: map<Content, int>, waits: Option<Notify>)
      modifies instance.local, instance.useCases.redis`counts, fills
      ensures waits.None? <==> FreeToLead(missing, old(fills.inflight))
      ensures waits.None? ==> fills.inflight == old(fills.inflight)
      ensures waits.Some? ==> exists n :: StoppedAt(fills.inflight, old(fills.inflight), missing, n, waits.value)
      ensures waits.Some? ==> instance.local.entries == old(instance.local.entries)
                              && instance.useCases.redis.counts == old(instance.useCases.redis.counts)
      ensures waits.None? ==> FilledFrom(stored, instance.useCases.database.Contents(), missing)
                              && AnswersAre(answers, answered, missing, stored)
      ensures waits.None? ==>
                && Filled(instance.local.entries, old(instance.local.entries), missing, stored, LOCAL_TTL, now)
                && Filled(instance.useCases.redis.counts, old(instance.useCases.redis.counts), missing, stored,
                          instance.useCases.ttl, now)
    {
      stored, answers, waits := map[], answered, None;
      if missing != [] {
        var notifies;
        notifies, waits := BeginFills(missing);
        if waits.None? {
          ReleasedRestores(fills.inflight, missing, notifies, old(fills.inflight));
          stored := instance.useCases.database.GetLikeCountsBatch(missing);
          answers := FinishFills(missing, notifies, stored, answered, now);
        }
      }
    }

    /** `get_like_counts_batch` to its answer or its first wait. It answers exactly when the items the caches miss
        are free to lead, as if they were counted in turn. */
    method GetLikeCountsBatch(items: seq<Content>, now: int) returns (reply: BatchReply)
      modifies instance.local, instance.useCases.redis`counts, fills
      ensures |items| > 100 ==>
                && reply == TooLarge && fills.inflight == old(fills.inflight)
                && instance.local.entries == old(instance.local.entries)
                && instance.useCases.redis.counts == old(instance.useCases.redis.counts)
      ensures |items| <= 100 ==>
                var db := instance.useCases.database.Contents();
                var local, redis := old(instance.local.entries), old(instance.useCases.redis.counts);
                var missing := MissingOf(items, local, redis, now);
                if FreeToLead(missing, old(fills.inflight)) then
                  && reply.BatchAnswer? && fills.inflight == old(fills.inflight)
                  && Counts(instance.local.entries, instance.useCases.redis.counts, reply.counts)
                     == GetCountInTurn(db, local, redis, items, instance.useCases.ttl, now)
                else
                  && reply.BatchWaits? && (exists n ::
                      StoppedAt(fills.inflight, old(fills.inflight), missing, n, reply.notify))
                  && instance.local.entries == GetCachedInTurn(local, redis, items, now).local
                  && instance.useCases.redis.counts == redis
    {
      if |items| > MAX_BATCH_ITEMS { return TooLarge; }
      ghost var db := instance.useCases.database.Contents();
      ghost var local, redis := instance.local.entries, instance.useCases.redis.counts;
      var cached := GetCachedLikeCounts(items, now);
      ghost var looked := instance.local.entries;
      var known, missing := SiftCached(items, cached, local, redis, now);
      var stored, answers, waits := FillMissing(missing, known, now);
      if waits.Some? { return BatchWaits(waits.value); }
      var results := seq(|items|, i requires 0 <= i < |items| => if items[i] in answers then answers[items[i]] else 0);
      FilledInTurn(db, local, redis, looked, instance.local.entries, instance.useCases.redis.counts, items,
                   known, missing, stored, instance.useCases.ttl, now);
      AnswersInTurn(db, local, redis, items, known, missing, stored, answers, results, instance.useCases.ttl, now);
      reply := BatchAnswer(results);
    }
  }

  /** Redis's status entries, with GET and SETEX. */
  class StatusServer {
    var entries: StatusCache

    constructor ()
      ensures entries == map[]
    {
      entries := map[];
    }

    method GetCachedLikeStatus(user: string, c: Content, now: int) returns (status: Option<LikeStatus>)
      ensures status == LookupStatus(entries, (user, c), now)
    {
      status := None;
      if (user, c) in entries && entries[(user, c)].expiresAt > now { status := Some(entries[(user, c)].status); }
    }

    method CacheLikeStatus(user: string, c: Content, status: LikeStatus, ttl: int, now: int)
      modifies this
      ensures entries == old(entries)[(user, c) := StatusEntry(status, now + ttl)]
    {
      entries := entries[(user, c) := StatusEntry(status, now + ttl)];
    }
  }

  class StatusHandler {
    const database: Database
    const server: StatusServer
    const ttl: int

    constructor (database: Database, server: StatusServer, ttl: int)
      ensures this.database == database && this.server == server && this.ttl == ttl
    {
      this.database, this.server, this.ttl := database, server, ttl;
    }

    /** The first loop: which items the cache answers. */
    method GatherStatuses(user: string, items: seq<Content>, now: int)
        returns (cached: map<Content, LikeStatus>, missing: seq<Content>)
      ensures StatusesAre(cached, missing, server.entries, user, items, now)
    {
      cached, missing := map[], [];
      for i := 0 to |items|
        invariant StatusesAre(cached, missing, server.entries, user, items[..i], now)
      {
        StatusesAreOneMore(cached, missing, server.entries, user, items, i, now);
        var status := server.GetCachedLikeStatus(user, items[i], now);
        if status.Some? { cached := cached[items[i] := status.value]; } else { missing := missing + [items[i]]; }
      }
      assert items[..|items|] == items;
    }

    method GetLikeStatusesBatch(user: string, items: seq<Content>, now: int) returns (statuses: Option<seq<LikeStatus>>)
      modifies server
      ensures |items| > 100 ==> statuses.None? && server.entries == old(server.entries)
      ensures |items| <= 100 ==>
                && statuses.Some?
                && Statuses(server.entries, statuses.value)
                   == GetStatusInTurn(database.Contents(), old(server.entries), user, items, ttl, now)
                && |statuses.value| == |items|
                && forall i | 0 <= i < |items| ::
                    CachedOrStored(statuses.value[i], database.Contents(), old(server.entries), user, items[i], now)
    {
      if |items| > MAX_BATCH_ITEMS { return None; }
      ghost var db, before := database.Contents(), server.entries;
      var cached, missing := GatherStatuses(user, items, now);
      var stored: map<Content, LikeStatus> := map[];
      if missing != [] { stored := database.GetLikeStatusesBatch(user, missing); }
      var results: seq<LikeStatus> := [];
      for i := 0 to |items|
        invariant StatusesSoFar(results, server.entries, db, before, user, items, i, ttl, now)
      {
        var c := items[i];
        StatusOfOne(cached, missing, stored, db, before, user, items, c, now);
        StatusesOneMore(results, server.entries, db, before, user, items, i, ttl, now);
        if c in cached {
          results := results + [cached[c]];
        } else {
          var status := if c in stored then stored[c] else LikeStatus(false, None);
          server.CacheLikeStatus(user, c, status, ttl, now);
          results := results + [status];
        }
      }
      StatusesInTurn(results, server.entries, db, before, user, items, ttl, now);
      StatusInTurnIsPointwise(db, before, user, items, ttl, now);
      statuses := Some(results);
    }
  }

  ghost predicate StatusesAre(cached: map<Content, LikeStatus>, missing: seq<Content>, cache: StatusCache,
                              user: string, items: seq<Content>, now: int) {
    && (forall c :: Get(cached, c) == if c in items then LookupStatus(cache, (user, c), now) else None)
    && (forall c :: c in missing <==> c in items && LookupStatus(cache, (user, c), now).None?)
  }

  lemma StatusesAreOneMore(cached: map<Content, LikeStatus>, missing: seq<Content>, cache: StatusCache, user: string,
                           items: seq<Content>, i: nat, now: int)
    requires i < |items| && StatusesAre(cached, missing, cache, user, items[..i], now)
    ensures var found := LookupStatus(cache, (user, items[i]), now);
            && (found.Some? ==> StatusesAre(cached[items[i] := found.value], missing, cache, user, items[..i + 1], now))
            && (found.None? ==> StatusesAre(cached, missing + [items[i]], cache, user, items[..i + 1], now))
  {
    InPrefix(items, i);
    var found := LookupStatus(cache, (user, items[i]), now);
    if found.Some? {
      var cached' := cached[items[i] := found.value];
      forall c ensures Get(cached', c) == if c in items[..i + 1] then LookupStatus(cache, (user, c), now) else None {
        assert c != items[i] ==> Get(cached', c) == Get(cached, c);
      }
    }
  }

  /** The first i results, and the cache they leave. */
  ghost predicate StatusesSoFar(results: seq<LikeStatus>, cache: StatusCache, db: Tables, before: StatusCache,
                                user: string, items: seq<Content>, i: nat, ttl: int, now: int)
    requires i <= |items|
  {
    && |results| == i
    && (forall j | 0 <= j < i :: results[j] == GetStatus(db, before, user, items[j], ttl, now).1)
    && (forall k ::
          Get(cache, k) == if k.0 == user && k.1 in items[..i] then Get(GetStatus(db, before, user, k.1, ttl, now).0, k)
                           else Get(before, k))
  }

  lemma StatusOfOne(cached: map<Content, LikeStatus>, missing: seq<Content>, stored: map<Content, LikeStatus>,
                    db: Tables, cache: StatusCache, user: string, items: seq<Content>, c: Content, now: int)
    requires c in items && StatusesAre(cached, missing, cache, user, items, now)
    requires missing != [] ==> stored == map d | d in missing :: StatusOf(db, user, d)
    ensures Get(cached, c) == LookupStatus(cache, (user, c), now)
    ensures c in cached || (c in stored && stored[c] == StatusOf(db, user, c))
  {
    assert c !in cached ==> Get(cached, c).None?;
  }

  lemma StatusesOneMore(results: seq<LikeStatus>, cache: StatusCache, db: Tables, before: StatusCache, user: string,
                        items: seq<Content>, i: nat, ttl: int, now: int)
    requires i < |items| && StatusesSoFar(results, cache, db, before, user, items, i, ttl, now)
    ensures var k, status := (user, items[i]), StatusOf(db, user, items[i]);
            var found := LookupStatus(before, k, now);
            StatusesSoFar(results + [if found.Some? then found.value else status],
                          if found.Some? then cache else cache[k := StatusEntry(status, now + ttl)],
                          db, before, user, items, i + 1, ttl, now)
  {
    InPrefix(items, i);
  }

  lemma StatusesInTurn(results: seq<LikeStatus>, cache: StatusCache, db: Tables, before: StatusCache, user: string,
                       items: seq<Content>, ttl: int, now: int)
    requires StatusesSoFar(results, cache, db, before, user, items, |items|, ttl, now)
    ensures Statuses(cache, results) == GetStatusInTurn(db, before, user, items, ttl, now)
  {
    StatusInTurnIsPointwise(db, before, user, items, ttl, now);
    var r := GetStatusInTurn(db, before, user, items, ttl, now);
    assert items[..|items|] == items;
    assert results == r.statuses;
    SameMap(cache, r.cache);
  }
}
