/** The three levels a like count is kept in, and the handlers that write and read them in order. */
module CountCache {
  import opened Finite
  import opened LikesStore

  /** Microseconds: 60000 ms. */
  const LOCAL_TTL: int := 60_000_000

  datatype Entry = Entry(count: int, expiresAt: int)

  /** Caches are indexed by the item; `Keys.CacheKeysAreInjective` says the key texts are faithful to it. */
  type Cache = map<Content, Entry>

  datatype Delivery = Delivery(content: Content, count: int, publishedAt: int)

  function Lookup(m: Cache, c: Content, now: int): Option<int> {
    if c in m && m[c].expiresAt > now then Some(m[c].count) else None
  }

  function DropExpired(m: Cache, c: Content, now: int): Cache {
    if c in m && m[c].expiresAt <= now then m - {c} else m
  }

  function Store(m: Cache, c: Content, count: int, ttl: int, now: int): Cache {
    m[c := Entry(count, now + ttl)]
  }

  // ----- What the handlers do, level by level -----

  datatype Backend = Backend(db: Tables, redis: Cache)

  /** EXISTS, then INCR and EXPIRE. */
  function Incremented(redis: Cache, c: Content, ttl: int, now: int): Cache {
    var live := Lookup(redis, c, now);
    if live.None? then redis else Store(redis, c, live.value + 1, ttl, now)
  }

  /** EXISTS, then DECR, a SET to 0 if that went below it, and EXPIRE. */
  function Decremented(redis: Cache, c: Content, ttl: int, now: int): Cache {
    var live := Lookup(redis, c, now);
    if live.None? then redis
    else Store(redis, c, if live.value - 1 < 0 then 0 else live.value - 1, ttl, now)
  }

  /** The levels after a write and what it reports: the count, whether it took effect, and when the item
      was liked. */
  datatype Written = Written(backend: Backend, count: int, changed: bool, likedAt: Option<int>)

  function LikeContent(b: Backend, user: string, c: Content, ttl: int, now: int): Written {
    var (db, result) := InsertLike(b.db, user, c, now);
    var redis := if result.Inserted? then Incremented(b.redis, c, ttl, now) else b.redis;
    Written(Backend(db, redis), LikeCount(db, c), result.Inserted?, StatusOf(db, user, c).likedAt)
  }

  function UnlikeContent(b: Backend, user: string, c: Content, ttl: int, now: int): Written {
    var (db, result) := DeleteLike(b.db, user, c);
    var redis := if result.Deleted? then Decremented(b.redis, c, ttl, now) else b.redis;
    Written(Backend(db, redis), LikeCount(db, c), result.Deleted?, None)
  }

  function WriteContent(b: Backend, like: bool, user: string, c: Content, ttl: int, now: int): Written {
    if like then LikeContent(b, user, c, ttl, now) else UnlikeContent(b, user, c, ttl, now)
  }

  function Published(queues: map<nat, seq<Delivery>>, d: Delivery): map<nat, seq<Delivery>> {
    map i | i in queues :: queues[i] + [d]
  }

  datatype Answer = Answer(local: Cache, redis: Cache, count: int)

  /** `get_cached_like_count`: the local cache, else Redis, whose answer is kept locally. */
  function GetCached(local: Cache, redis: Cache, c: Content, now: int): (Cache, Option<int>) {
    if Lookup(local, c, now).Some? then (local, Lookup(local, c, now))
    else
      var swept := DropExpired(local, c, now);
      var found := Lookup(redis, c, now);
      (if found.Some? then Store(swept, c, found.value, LOCAL_TTL, now) else swept, found)
  }

  /** `get_like_count` by a reader that becomes leader when both caches miss. */
  function GetCount(db: Tables, local: Cache, redis: Cache, c: Content, ttl: int, now: int): Answer {
    var (local', found) := GetCached(local, redis, c, now);
    if found.Some? then Answer(local', redis, found.value)
    else
      var count := LikeCount(db, c);
      Answer(Store(local', c, count, LOCAL_TTL, now), Store(redis, c, count, ttl, now), count)
  }

  // ----- The same, as objects updated in place -----

  class LocalLikeCountCache {
    var entries: Cache

    constructor ()
      ensures entries == map[]
    {
      entries := map[];
    }

    method Get(c: Content, now: int) returns (count: Option<int>)
      modifies this
      ensures count == Lookup(old(entries), c, now) && entries == DropExpired(old(entries), c, now)
    {
      if c !in entries { return None; }
      if entries[c].expiresAt > now { return Some(entries[c].count); }
      entries := entries - {c};
      count := None;
    }

    method Set(c: Content, count: int, ttl: int, now: int)
      modifies this
      ensures entries == Store(old(entries), c, count, ttl, now)
    {
      entries := entries[c := Entry(count, now + ttl)];
    }
  }

  /** The Redis commands the count cache uses. A command on a live key may rely on it staying live:
      handlers are atomic. */
  class RedisServer {
    var counts: Cache
    var queues: map<nat, seq<Delivery>>

    constructor (subscribers: set<nat>)
      ensures counts == map[] && queues == map i | i in subscribers :: []
    {
      counts := map[];
      queues := map i | i in subscribers :: [];
    }

    method GetValue(c: Content, now: int) returns (count: Option<int>)
      ensures count == Lookup(counts, c, now)
    {
      count := if c in counts && counts[c].expiresAt > now then Some(counts[c].count) else None;
    }

    /** MGET. */
    method GetValues(keys: seq<Content>, now: int) returns (values: seq<Option<int>>)
      ensures |values| == |keys| && forall k | 0 <= k < |keys| :: values[k] == Lookup(counts, keys[k], now)
    {
      var present := counts;
      values := seq(|keys|, k requires 0 <= k < |keys| => Lookup(present, keys[k], now));
    }

    method SetEx(c: Content, count: int, ttl: int, now: int)
      modifies `counts
      ensures counts == Store(old(counts), c, count, ttl, now)
    {
      counts := counts[c := Entry(count, now + ttl)];
    }

    method AddTo(c: Content, delta: int, now: int) returns (count: int)
      requires Lookup(counts, c, now).Some?
      modifies `counts
      ensures count == Lookup(old(counts), c, now).value + delta
      ensures counts == old(counts)[c := Entry(count, old(counts[c].expiresAt))]
    {
      count := counts[c].count + delta;
      counts := counts[c := counts[c].(count := count)];
    }

    /** SET, which keeps no time to live; the EXPIRE that follows gives one. */
    method SetThenExpire(c: Content, count: int, ttl: int, now: int)
      modifies `counts
      ensures counts == Store(old(counts), c, count, ttl, now)
    {
      counts := counts[c := Entry(count, now + ttl)];
    }

    method Expire(c: Content, ttl: int, now: int)
      requires Lookup(counts, c, now).Some?
      modifies `counts
      ensures counts == old(counts)[c := Entry(old(counts[c].count), now + ttl)]
    {
      counts := counts[c := counts[c].(expiresAt := now + ttl)];
    }

    method Publish(c: Content, count: int, now: int)
      modifies `queues
      ensures queues == Published(old(queues), Delivery(c, count, now))
    {
      queues := map i | i in queues :: queues[i] + [Delivery(c, count, now)];
    }

    method NextMessage(subscriber: nat) returns (d: Option<Delivery>)
      modifies `queues
      ensures subscriber !in old(queues) || old(queues[subscriber]) == [] ==> d.None? && queues == old(queues)
      ensures subscriber in old(queues) && old(queues[subscriber]) != [] ==>
                && d == Some(old(queues[subscriber])[0])
                && queues == old(queues)[subscriber := old(queues[subscriber])[1..]]
    {
      if subscriber !in queues || queues[subscriber] == [] { return None; }
      d := Some(queues[subscriber][0]);
      queues := queues[subscriber := queues[subscriber][1..]];
    }
  }

  datatype LikeContentResult = LikeContentResult(liked: bool, alreadyExisted: bool, count: int, likedAt: Option<int>)
  datatype UnlikeContentResult = UnlikeContentResult(liked: bool, wasLiked: bool, count: int)

  class LikesUseCases {
    const database: Database
    const redis: RedisServer
    const ttl: int

    constructor (database: Database, redis: RedisServer, ttl: int)
      requires ttl > 0
      ensures this.database == database && this.redis == redis && this.ttl == ttl
    {
      this.database, this.redis, this.ttl := database, redis, ttl;
    }

    ghost function Levels(): Backend
      reads database, redis
    {
      Backend(database.Contents(), redis.counts)
    }

    method IncrementCachedLikeCount(c: Content, now: int)
      requires ttl > 0
      modifies redis`counts
      ensures redis.counts == Incremented(old(redis.counts), c, ttl, now)
    {
      var live := redis.GetValue(c, now);
      if live.Some? {
        var _ := redis.AddTo(c, 1, now);
        redis.Expire(c, ttl, now);
      }
    }

    method DecrementCachedLikeCount(c: Content, now: int)
      requires ttl > 0
      modifies redis`counts
      ensures redis.counts == Decremented(old(redis.counts), c, ttl, now)
    {
      var live := redis.GetValue(c, now);
      if live.Some? {
        var count := redis.AddTo(c, -1, now);
        if count < 0 { redis.SetThenExpire(c, 0, ttl, now); } else { redis.Expire(c, ttl, now); }
      }
    }

    /** `contentValid` is the content service's verdict; None is the error it causes. */
    method Like(contentValid: bool, user: string, c: Content, now: int) returns (reply: Option<LikeContentResult>)
      requires ttl > 0
      modifies database, redis`counts
      ensures !contentValid ==> reply.None? && Levels() == old(Levels())
      ensures contentValid ==> var w := LikeContent(old(Levels()), user, c, ttl, now);
                               && Levels() == w.backend
                               && reply == Some(LikeContentResult(true, !w.changed, w.count, w.likedAt))
    {
      if !contentValid { return None; }
      var result := database.InsertLikeRow(user, c, now);
      if result.Inserted? { IncrementCachedLikeCount(c, now); }
      var status := database.GetLikeStatus(user, c);
      var n := database.GetLikeCount(c);
      reply := Some(LikeContentResult(true, result.AlreadyExists?, n, status.likedAt));
    }

    method Unlike(contentValid: bool, user: string, c: Content, now: int) returns (reply: Option<UnlikeContentResult>)
      requires ttl > 0
      modifies database, redis`counts
      ensures !contentValid ==> reply.None? && Levels() == old(Levels())
      ensures contentValid ==> var w := UnlikeContent(old(Levels()), user, c, ttl, now);
                               Levels() == w.backend && reply == Some(UnlikeContentResult(false, w.changed, w.count))
    {
      if !contentValid { return None; }
      var result := database.DeleteLikeRow(user, c);
      if result.Deleted? { DecrementCachedLikeCount(c, now); }
      var n := database.GetLikeCount(c);
      reply := Some(UnlikeContentResult(false, result.Deleted?, n));
    }
  }

  /** One process. */
  class Instance {
    const id: nat
    const useCases: LikesUseCases
    const local: LocalLikeCountCache

    constructor (id: nat, useCases: LikesUseCases)
      ensures this.id == id && this.useCases == useCases && local.entries == map[] && fresh(local)
    {
      this.id, this.useCases := id, useCases;
      local := new LocalLikeCountCache();
    }

    method CacheLikeCount(c: Content, count: int, now: int)
      modifies local, useCases.redis`counts
      ensures local.entries == Store(old(local.entries), c, count, LOCAL_TTL, now)
      ensures useCases.redis.counts == Store(old(useCases.redis.counts), c, count, useCases.ttl, now)
    {
      local.Set(c, count, LOCAL_TTL, now);
      useCases.redis.SetEx(c, count, useCases.ttl, now);
    }

    /** The POST and DELETE handlers: write, refresh both caches, then publish. */
    method Write(contentValid: bool, like: bool, user: string, c: Content, now: int) returns (count: Option<int>)
      requires useCases.ttl > 0
      modifies local, useCases.database, useCases.redis
      ensures !contentValid ==>
                && count.None? && useCases.Levels() == old(useCases.Levels())
                && local.entries == old(local.entries) && useCases.redis.queues == old(useCases.redis.queues)
      ensures contentValid ==>
                var w := WriteContent(old(useCases.Levels()), like, user, c, useCases.ttl, now);
                && count == Some(w.count)
                && useCases.database.Contents() == w.backend.db
                && useCases.redis.counts == Store(w.backend.redis, c, w.count, useCases.ttl, now)
                && local.entries == Store(old(local.entries), c, w.count, LOCAL_TTL, now)
                && useCases.redis.queues == Published(old(useCases.redis.queues), Delivery(c, w.count, now))
    {
      if like {
        var reply := useCases.Like(contentValid, user, c, now);
        count := if reply.Some? then Some(reply.value.count) else None;
      } else {
        var reply := useCases.Unlike(contentValid, user, c, now);
        count := if reply.Some? then Some(reply.value.count) else None;
      }
      if count.Some? {
        CacheLikeCount(c, count.value, now);
        useCases.redis.Publish(c, count.value, now);
      }
    }

    method GetCachedLikeCount(c: Content, now: int) returns (count: Option<int>)
      modifies local
      ensures (local.entries, count) == GetCached(old(local.entries), useCases.redis.counts, c, now)
    {
      count := local.Get(c, now);
      if count.Some? { return; }
      count := useCases.redis.GetValue(c, now);
      if count.Some? { local.Set(c, count.value, LOCAL_TTL, now); }
    }

    /** One turn of the subscriber loop. */
    method ApplyNextUpdate(now: int)
      modifies local, useCases.redis`queues
      ensures var q := if id in old(useCases.redis.queues) then old(useCases.redis.queues)[id] else [];
              && (q == [] ==>
                    local.entries == old(local.entries) && useCases.redis.queues == old(useCases.redis.queues))
              && (q != [] ==>
                    && local.entries == Store(old(local.entries), q[0].content, q[0].count, LOCAL_TTL, now)
                    && useCases.redis.queues == old(useCases.redis.queues)[id := q[1..]])
    {
      var d := useCases.redis.NextMessage(id);
      if d.Some? { local.Set(d.value.content, d.value.count, LOCAL_TTL, now); }
    }
  }
}
