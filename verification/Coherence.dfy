/** Any number of processes over one database and one Redis: what the count caches may hold. */
module Coherence {
  import opened Finite
  import opened LikesStore
  import opened CountCache

  datatype Moment = Moment(at: int, db: Tables)

  /** A handler between reading a count from the database and caching it: a leader's fill, or an HTTP write,
      which also publishes. `likes` and `unlikes` log the writes of the item that took effect since the read. */
  datatype PendingFill = PendingFill(instance: nat, content: Content, count: int, likes: nat, unlikes: nat,
                                     publishes: bool)

  /** `stale` holds the items whose latest count was not published: changed over gRPC, or by an HTTP write that
      has yet to publish, or published late. `history` is a log of the database. */
  datatype World = World(
    now: int,
    db: Tables,
    redis: Cache,
    locals: map<nat, Cache>,
    queues: map<nat, seq<Delivery>>,
    stale: set<Content>,
    fills: map<nat, PendingFill>,
    history: seq<Moment>)

  /** The Redis time to live of a count, and how long a published update may stay undelivered. */
  datatype Config = Config(ttl: nat, maxDelay: nat)

  datatype Event =
    | HttpWrite(instance: nat, like: bool, user: string, content: Content)
    | GrpcWrite(like: bool, user: string, content: Content)
    | StartWrite(id: nat, instance: nat, like: bool, user: string, content: Content)
    | Read(instance: nat, content: Content)
    | StartFill(id: nat, instance: nat, content: Content)
    | EndFill(id: nat)
    | Deliver(instance: nat)
    | Evict(content: Content)
    | Tick(to: int)

  function Begin(db: Tables, instances: set<nat>, now: int): World {
    World(now, db, map[], map i | i in instances :: map[], map i | i in instances :: [], {}, map[], [Moment(now, db)])
  }

  function Noted(fills: map<nat, PendingFill>, c: Content, like: bool): map<nat, PendingFill> {
    map id | id in fills ::
      var f := fills[id];
      if f.content != c then f else if like then f.(likes := f.likes + 1) else f.(unlikes := f.unlikes + 1)
  }

  function HttpWriteStep(cfg: Config, w: World, i: nat, like: bool, user: string, c: Content): World {
    if i !in w.locals then w
    else
      var r := WriteContent(Backend(w.db, w.redis), like, user, c, cfg.ttl, w.now);
      w.(db := r.backend.db,
         redis := Store(r.backend.redis, c, r.count, cfg.ttl, w.now),
         locals := w.locals[i := Store(w.locals[i], c, r.count, LOCAL_TTL, w.now)],
         queues := Published(w.queues, Delivery(c, r.count, w.now)),
         stale := w.stale - {c},
         fills := if r.changed then Noted(w.fills, c, like) else w.fills)
  }

  function GrpcWriteStep(cfg: Config, w: World, like: bool, user: string, c: Content): World {
    var r := WriteContent(Backend(w.db, w.redis), like, user, c, cfg.ttl, w.now);
    w.(db := r.backend.db,
       redis := r.backend.redis,
       stale := if r.changed then w.stale + {c} else w.stale,
       fills := if r.changed then Noted(w.fills, c, like) else w.fills)
  }

  function ReadStep(cfg: Config, w: World, i: nat, c: Content): World {
    if i !in w.locals then w
    else
      var a := GetCount(w.db, w.locals[i], w.redis, c, cfg.ttl, w.now);
      w.(locals := w.locals[i := a.local], redis := a.redis)
  }

  /** Both caches miss, and the leader reads the database. */
  function StartFillStep(w: World, id: nat, i: nat, c: Content): World {
    if i !in w.locals || id in w.fills || GetCached(w.locals[i], w.redis, c, w.now).1.Some? then w
    else
      w.(locals := w.locals[i := GetCached(w.locals[i], w.redis, c, w.now).0],
         fills := w.fills[id := PendingFill(i, c, LikeCount(w.db, c), 0, 0, false)])
  }

  /** The first half of an HTTP write: the use case. */
  function StartWriteStep(cfg: Config, w: World, id: nat, i: nat, like: bool, user: string, c: Content): World {
    if i !in w.locals || id in w.fills then w
    else
      var written := GrpcWriteStep(cfg, w, like, user, c);
      written.(fills := written.fills[id := PendingFill(i, c, LikeCount(written.db, c), 0, 0, true)])
  }

  /** The handler caches what it read, and publishes it if it wrote. */
  function EndFillStep(cfg: Config, w: World, id: nat): World {
    if id !in w.fills || w.fills[id].instance !in w.locals then w
    else
      var f := w.fills[id];
      var local := Store(w.locals[f.instance], f.content, f.count, LOCAL_TTL, w.now);
      var cached := w.(locals := w.locals[f.instance := local],
                       redis := Store(w.redis, f.content, f.count, cfg.ttl, w.now),
                       fills := w.fills - {id});
      if f.publishes then PublishStep(cached, f) else cached
  }

  function PublishStep(w: World, f: PendingFill): World {
    w.(queues := Published(w.queues, Delivery(f.content, f.count, w.now)),
       stale := if f.likes == f.unlikes then w.stale - {f.content} else w.stale + {f.content})
  }

  function DeliverStep(w: World, i: nat): World {
    if i !in w.locals || i !in w.queues || w.queues[i] == [] then w
    else
      var d := w.queues[i][0];
      w.(locals := w.locals[i := Store(w.locals[i], d.content, d.count, LOCAL_TTL, w.now)],
         queues := w.queues[i := w.queues[i][1..]])
  }

  /** Time may pass as long as no published update becomes overdue. */
  ghost predicate MayTick(cfg: Config, w: World, to: int) {
    w.now <= to && forall i, k | i in w.queues && 0 <= k < |w.queues[i]| ::
        to <= w.queues[i][k].publishedAt + cfg.maxDelay
  }

  ghost function Act(cfg: Config, w: World, e: Event): World {
    match e
    case HttpWrite(i, like, user, c) => HttpWriteStep(cfg, w, i, like, user, c)
    case GrpcWrite(like, user, c) => GrpcWriteStep(cfg, w, like, user, c)
    case Read(i, c) => ReadStep(cfg, w, i, c)
    case StartFill(id, i, c) => StartFillStep(w, id, i, c)
    case StartWrite(id, i, like, user, c) => StartWriteStep(cfg, w, id, i, like, user, c)
    case EndFill(id) => EndFillStep(cfg, w, id)
    case Deliver(i) => DeliverStep(w, i)
    case Evict(c) => w.(redis := w.redis - {c})
    case Tick(to) => if MayTick(cfg, w, to) then w.(now := to) else w
  }

  ghost function Step(cfg: Config, w: World, e: Event): World {
    var w' := Act(cfg, w, e);
    w'.(history := w.history + [Moment(w'.now, w'.db)])
  }

  ghost function Run(cfg: Config, start: World, events: seq<Event>): World {
    if events == [] then start else Step(cfg, Run(cfg, start, events[..|events| - 1]), events[|events| - 1])
  }

  /** The atomic HTTP write is its two halves with nothing between. */
  lemma HttpWriteIsItsHalves(cfg: Config, w: World, id: nat, i: nat, like: bool, user: string, c: Content)
    requires i in w.locals && id !in w.fills
    ensures EndFillStep(cfg, StartWriteStep(cfg, w, id, i, like, user, c), id)
      == HttpWriteStep(cfg, w, i, like, user, c)
  {
    var w' := EndFillStep(cfg, StartWriteStep(cfg, w, id, i, like, user, c), id);
    var atomic := HttpWriteStep(cfg, w, i, like, user, c);
    assert w'.fills == atomic.fills && w'.stale == atomic.stale && w'.locals == atomic.locals;
    assert w'.queues == atomic.queues;
  }

  // ----- The invariant -----

  /** The last update for an item still in a queue. */
  function LastFor(queue: seq<Delivery>, c: Content): Option<int> {
    if queue == [] then None
    else if queue[|queue| - 1].content == c then Some(queue[|queue| - 1].count)
    else LastFor(queue[..|queue| - 1], c)
  }

  /** An instance and the database agree on an item once its queue drains: the last queued update is
      the current count, or none is queued and a live local entry is the current count. */
  predicate Agrees(db: Tables, local: Cache, queue: seq<Delivery>, c: Content, now: int) {
    var last := LastFor(queue, c);
    var held := Lookup(local, c, now);
    if last.Some? then last.value == LikeCount(db, c) else held.None? || held.value == LikeCount(db, c)
  }

  ghost predicate RedisExact(w: World) {
    forall c :: Lookup(w.redis, c, w.now).Some? ==> Lookup(w.redis, c, w.now).value == LikeCount(w.db, c)
  }

  ghost predicate Coherent(w: World) {
    && w.locals.Keys == w.queues.Keys
    && forall i, c | i in w.locals && c !in w.stale :: Agrees(w.db, w.locals[i], w.queues[i], c, w.now)
  }

  /** Every pending fill's count is the item's count but for the writes logged since. */
  ghost predicate FillsCounted(w: World) {
    forall id | id in w.fills ::
      var f := w.fills[id];
      f.instance in w.locals && f.count + f.likes - f.unlikes == LikeCount(w.db, f.content)
  }

  /** An ending fill had as many likes as unlikes of its item since its read. */
  predicate Balanced(w: World, e: Event) {
    e.EndFill? && e.id in w.fills ==> w.fills[e.id].likes == w.fills[e.id].unlikes
  }

  /** Every fill of the run ends balanced; a run of atomic handlers has none that does not. */
  ghost predicate AllBalanced(cfg: Config, start: World, events: seq<Event>) {
    events == [] || (AllBalanced(cfg, start, events[..|events| - 1])
                     && Balanced(Run(cfg, start, events[..|events| - 1]), events[|events| - 1]))
  }

  /** The item had this count at some instant of the span. */
  ghost predicate WasTrue(history: seq<Moment>, c: Content, count: int, from: int, to: int) {
    exists j :: 0 <= j < |history| && from <= history[j].at <= to && LikeCount(history[j].db, c) == count
  }

  /** A local entry was true between `maxDelay` before it was stored and now; a queued update was true
      when published, and is not overdue. */
  ghost predicate Sourced(cfg: Config, w: World) {
    && (forall i, c | i in w.locals && c in w.locals[i] ::
          WasTrue(w.history, c, w.locals[i][c].count, w.locals[i][c].expiresAt - LOCAL_TTL - cfg.maxDelay, w.now))
    && (forall i, k | i in w.queues && 0 <= k < |w.queues[i]| :: DeliverySourced(cfg, w, w.queues[i][k]))
    && WasNow(w)
  }

  ghost predicate DeliverySourced(cfg: Config, w: World, d: Delivery) {
    && WasTrue(w.history, d.content, d.count, d.publishedAt, d.publishedAt)
    && d.publishedAt <= w.now <= d.publishedAt + cfg.maxDelay
  }

  ghost predicate WasNow(w: World) {
    w.history != [] && w.history[|w.history| - 1] == Moment(w.now, w.db)
  }

  // ----- One write -----

  /** Whatever Redis holds, a write takes effect iff it changes its row, and changes that row and its item's count
      alone, by one. */
  lemma WriteCounts(b: Backend, like: bool, user: string, c: Content, ttl: int, now: int)
    requires Consistent(b.db)
    ensures var r := WriteContent(b, like, user, c, ttl, now);
            && Consistent(r.backend.db)
            && ((user, c) in r.backend.db.likes <==> like)
            && (r.changed <==> (like <==> (user, c) !in b.db.likes))
            && r.count == LikeCount(r.backend.db, c)
            && (forall d | d != c :: LikeCount(r.backend.db, d) == LikeCount(b.db, d))
            && r.count == LikeCount(b.db, c) + (if !r.changed then 0 else if like then 1 else -1)
  {
    if like {
      InsertKeepsTotals(b.db, user, c, now);
      InsertKeepsHours(b.db, user, c, now);
    } else {
      DeleteKeepsTotals(b.db, user, c);
      DeleteKeepsHours(b.db, user, c);
      if (user, c) in b.db.likes { ClampsNeverFire(b.db, user, c); }
    }
  }

  /** A write changes the count of its item alone, by one when it takes effect, and keeps a live Redis
      count equal to the database's: the clamp at zero never fires. */
  lemma WriteIsExact(b: Backend, like: bool, user: string, c: Content, ttl: int, now: int)
    requires Consistent(b.db)
    requires forall d :: Lookup(b.redis, d, now).Some? ==> Lookup(b.redis, d, now).value == LikeCount(b.db, d)
    ensures var r := WriteContent(b, like, user, c, ttl, now);
            && Consistent(r.backend.db)
            && ((user, c) in r.backend.db.likes <==> like)
            && (r.changed <==> (like <==> (user, c) !in b.db.likes))
            && (forall row | row != (user, c) || !r.changed :: Get(r.backend.db.likes, row) == Get(b.db.likes, row))
            && r.likedAt == (if !like then None else if r.changed then Some(now) else Get(b.db.likes, (user, c)))
            && r.count == LikeCount(r.backend.db, c)
            && (forall d | d != c :: LikeCount(r.backend.db, d) == LikeCount(b.db, d))
            && r.count == LikeCount(b.db, c) + (if !r.changed then 0 else if like then 1 else -1)
            && (forall d :: Lookup(r.backend.redis, d, now).Some? ==>
                  Lookup(r.backend.redis, d, now).value == LikeCount(r.backend.db, d))
  {
    WriteCounts(b, like, user, c, ttl, now);
    if !like && (user, c) in b.db.likes { ClampsNeverFire(b.db, user, c); }
  }

  /** Whatever Redis holds, a write that took effect moves a live count by one, not below 0, and renews its time to
      live; any other write, or a count that is not live, leaves Redis as it was. */
  lemma RedisFollowsTheWrite(b: Backend, like: bool, user: string, c: Content, ttl: int, now: int, d: Content)
    requires Consistent(b.db)
    ensures var r, held := WriteContent(b, like, user, c, ttl, now), Lookup(b.redis, c, now);
            Get(r.backend.redis, d)
              == if d != c || held.None? || !r.changed then Get(b.redis, d)
                 else if like then Some(Entry(held.value + 1, now + ttl))
                 else Some(Entry(if held.value >= 1 then held.value - 1 else 0, now + ttl))
  {
    WriteCounts(b, like, user, c, ttl, now);
  }

  /** How long what an HTTP write caches lives: 60 s at its process, the time to live in Redis. */
  lemma WriteLivesInBothCaches(cfg: Config, w: World, i: nat, like: bool, user: string, c: Content, at: int)
    requires i in w.locals
    ensures var w' := HttpWriteStep(cfg, w, i, like, user, c);
            var count := LikeCount(w'.db, c);
            && i in w'.locals
            && Lookup(w'.locals[i], c, at) == (if at < w.now + 60_000_000 then Some(count) else None)
            && Lookup(w'.redis, c, at) == (if at < w.now + cfg.ttl then Some(count) else None)
  {
    WriteReportsTheCount(Backend(w.db, w.redis), like, user, c, cfg.ttl, w.now);
  }

  /** And what a read that both caches miss, or the end of a fill, caches. */
  lemma FillLivesInBothCaches(cfg: Config, w: World, i: nat, c: Content, id: nat, at: int)
    requires i in w.locals && Lookup(w.locals[i], c, w.now).None? && Lookup(w.redis, c, w.now).None?
    requires id in w.fills && w.fills[id].instance == i && w.fills[id].content == c
    ensures var read, filled := ReadStep(cfg, w, i, c), EndFillStep(cfg, w, id);
            && i in read.locals && i in filled.locals
            && Lookup(read.locals[i], c, at) == (if at < w.now + 60_000_000 then Some(LikeCount(w.db, c)) else None)
            && Lookup(read.redis, c, at) == (if at < w.now + cfg.ttl then Some(LikeCount(w.db, c)) else None)
            && Lookup(filled.locals[i], c, at) == (if at < w.now + 60_000_000 then Some(w.fills[id].count) else None)
            && Lookup(filled.redis, c, at) == (if at < w.now + cfg.ttl then Some(w.fills[id].count) else None)
  {
  }

  lemma LastForAppend(queue: seq<Delivery>, d: Delivery, c: Content)
    ensures LastFor(queue + [d], c) == if d.content == c then Some(d.count) else LastFor(queue, c)
  {
    assert (queue + [d])[..|queue|] == queue;
  }

  lemma {:induction false} LastForTail(queue: seq<Delivery>, c: Content)
    requires queue != []
    ensures var rest := LastFor(queue[1..], c);
            LastFor(queue, c)
              == if rest.Some? then rest else if queue[0].content == c then Some(queue[0].count) else None
  {
    var n := |queue| - 1;
    if n > 0 {
      LastForTail(queue[..n], c);
      assert queue[1..][..n - 1] == queue[..n][1..];
    }
  }

  // ----- Every step keeps the invariant -----

  /** What an HTTP write leaves at each process: the new count queued last, or another item untouched. */
  lemma HttpWriteAgrees(cfg: Config, w: World, i: nat, like: bool, user: string, c: Content, j: nat, d: Content)
    requires Consistent(w.db) && RedisExact(w) && Coherent(w) && i in w.locals && j in w.locals
    requires var w' := HttpWriteStep(cfg, w, i, like, user, c); d !in w'.stale
    ensures var w' := HttpWriteStep(cfg, w, i, like, user, c);
            j in w'.locals && j in w'.queues && Agrees(w'.db, w'.locals[j], w'.queues[j], d, w'.now)
  {
    var r := WriteContent(Backend(w.db, w.redis), like, user, c, cfg.ttl, w.now);
    WriteIsExact(Backend(w.db, w.redis), like, user, c, cfg.ttl, w.now);
    LastForAppend(w.queues[j], Delivery(c, r.count, w.now), d);
    if d != c { assert Agrees(w.db, w.locals[j], w.queues[j], d, w.now); }
  }

  lemma HttpWriteCoherent(cfg: Config, w: World, i: nat, like: bool, user: string, c: Content)
    requires cfg.ttl > 0 && Consistent(w.db) && RedisExact(w) && Coherent(w)
    ensures var w' := HttpWriteStep(cfg, w, i, like, user, c);
            Consistent(w'.db) && RedisExact(w') && Coherent(w')
  {
    if i in w.locals {
      var w' := HttpWriteStep(cfg, w, i, like, user, c);
      WriteIsExact(Backend(w.db, w.redis), like, user, c, cfg.ttl, w.now);
      forall j, d | j in w'.locals && d !in w'.stale ensures Agrees(w'.db, w'.locals[j], w'.queues[j], d, w'.now) {
        HttpWriteAgrees(cfg, w, i, like, user, c, j, d);
      }
    }
  }

  lemma GrpcWriteCoherent(cfg: Config, w: World, like: bool, user: string, c: Content)
    requires Consistent(w.db) && RedisExact(w) && Coherent(w)
    ensures var w' := GrpcWriteStep(cfg, w, like, user, c);
            Consistent(w'.db) && RedisExact(w') && Coherent(w')
  {
    var w' := GrpcWriteStep(cfg, w, like, user, c);
    WriteIsExact(Backend(w.db, w.redis), like, user, c, cfg.ttl, w.now);
    forall j, d | j in w'.locals && d !in w'.stale ensures Agrees(w'.db, w'.locals[j], w'.queues[j], d, w'.now) {
      assert Agrees(w.db, w.locals[j], w.queues[j], d, w.now);
    }
  }

  lemma ReadCoherent(cfg: Config, w: World, i: nat, c: Content)
    requires RedisExact(w) && Coherent(w)
    ensures var w' := ReadStep(cfg, w, i, c); RedisExact(w') && Coherent(w')
  {
    if i in w.locals {
      var w' := ReadStep(cfg, w, i, c);
      forall j, d | j in w'.locals && d !in w'.stale ensures Agrees(w'.db, w'.locals[j], w'.queues[j], d, w'.now) {
        assert Agrees(w.db, w.locals[j], w.queues[j], d, w.now);
      }
    }
  }

  lemma StartFillCoherent(w: World, id: nat, i: nat, c: Content)
    requires Coherent(w) && FillsCounted(w)
    ensures Coherent(StartFillStep(w, id, i, c)) && FillsCounted(StartFillStep(w, id, i, c))
  {
    var w' := StartFillStep(w, id, i, c);
    forall j, d | j in w'.locals && d !in w'.stale ensures Agrees(w'.db, w'.locals[j], w'.queues[j], d, w'.now) {
      assert Agrees(w.db, w.locals[j], w.queues[j], d, w.now);
    }
  }

  /** What the end of a fill leaves at each process: another item untouched, or what was read. */
  lemma EndFillAgreesOn(cfg: Config, w: World, id: nat, j: nat, d: Content)
    requires FillsCounted(w) && Balanced(w, EndFill(id)) && w.locals.Keys == w.queues.Keys && j in w.locals
    requires Agrees(w.db, w.locals[j], w.queues[j], d,
                    w.now) || (id in w.fills && w.fills[id].publishes && d == w.fills[id].content)
    ensures var w' := EndFillStep(cfg, w, id);
            j in w'.locals && j in w'.queues && Agrees(w'.db, w'.locals[j], w'.queues[j], d, w'.now)
  {
    if id in w.fills { LastForAppend(w.queues[j], Delivery(w.fills[id].content, w.fills[id].count, w.now), d); }
  }

  lemma EndFillCoherent(cfg: Config, w: World, id: nat)
    requires RedisExact(w) && Coherent(w) && FillsCounted(w) && Balanced(w, EndFill(id))
    ensures var w' := EndFillStep(cfg, w, id); RedisExact(w') && Coherent(w') && FillsCounted(w')
  {
    var w' := EndFillStep(cfg, w, id);
    forall j, d | j in w'.locals && d !in w'.stale ensures Agrees(w'.db, w'.locals[j], w'.queues[j], d, w'.now) {
      assert d !in w.stale ==> Agrees(w.db, w.locals[j], w.queues[j], d, w.now);
      EndFillAgreesOn(cfg, w, id, j, d);
    }
    forall d | Lookup(w'.redis, d, w.now).Some? ensures Lookup(w'.redis, d, w.now).value == LikeCount(w.db, d) {
      assert Lookup(w.redis, d, w.now) == Lookup(w'.redis, d, w.now) || (id in w.fills && d == w.fills[id].content);
    }
  }

  /** A publishing write keeps the agreement of items that are not stale even when writes overtook it. */
  lemma LatePublishIsStale(cfg: Config, w: World, id: nat)
    requires Coherent(w) && FillsCounted(w) && id in w.fills && w.fills[id].publishes
    ensures Coherent(EndFillStep(cfg, w, id))
    ensures w.fills[id].content in EndFillStep(cfg, w, id).stale <==> w.fills[id].likes != w.fills[id].unlikes
  {
    var w', f := EndFillStep(cfg, w, id), w.fills[id];
    forall j, d | j in w'.locals && d !in w'.stale ensures Agrees(w'.db, w'.locals[j], w'.queues[j], d, w'.now) {
      assert d !in w.stale ==> Agrees(w.db, w.locals[j], w.queues[j], d, w.now);
      LastForAppend(w.queues[j], Delivery(f.content, f.count, w.now), d);
    }
  }

  /** A write of the item is logged by every pending fill of it. */
  lemma WriteKeepsFills(cfg: Config, w: World, like: bool, user: string, c: Content)
    requires Consistent(w.db) && FillsCounted(w)
    ensures var r := WriteContent(Backend(w.db, w.redis), like, user, c, cfg.ttl, w.now);
            FillsCounted(w.(db := r.backend.db, fills := if r.changed then Noted(w.fills, c, like) else w.fills))
  {
    WriteCounts(Backend(w.db, w.redis), like, user, c, cfg.ttl, w.now);
  }

  lemma StartWriteCoherent(cfg: Config, w: World, id: nat, i: nat, like: bool, user: string, c: Content)
    requires Consistent(w.db) && RedisExact(w) && Coherent(w) && FillsCounted(w)
    ensures var w' := StartWriteStep(cfg, w, id, i, like, user, c);
            Consistent(w'.db) && RedisExact(w') && Coherent(w') && FillsCounted(w')
  {
    var written := GrpcWriteStep(cfg, w, like, user, c);
    GrpcWriteCoherent(cfg, w, like, user, c);
    WriteKeepsFills(cfg, w, like, user, c);
    assert FillsCounted(written);
    if i in w.locals && id !in w.fills {
      SameCaches(written, StartWriteStep(cfg, w, id, i, like, user, c));
    }
  }

  /** Agreement is about the caches and queues. */
  lemma SameCaches(w: World, w': World)
    requires w'.now == w.now && w'.db == w.db && w'.redis == w.redis && w'.locals == w.locals
    requires w'.queues == w.queues && w'.stale == w.stale && RedisExact(w) && Coherent(w)
    ensures RedisExact(w') && Coherent(w')
  {
    forall j, d | j in w'.locals && d !in w'.stale ensures Agrees(w'.db, w'.locals[j], w'.queues[j], d, w'.now) {
      assert Agrees(w.db, w.locals[j], w.queues[j], d, w.now);
    }
    forall d | Lookup(w'.redis, d, w'.now).Some? ensures Lookup(w'.redis, d, w'.now).value == LikeCount(w'.db, d) {
      assert Lookup(w.redis, d, w.now).Some?;
    }
  }

  lemma DeliverCoherent(w: World, i: nat)
    requires Coherent(w)
    ensures Coherent(DeliverStep(w, i))
  {
    var w' := DeliverStep(w, i);
    if i in w.locals && w.queues[i] != [] {
      forall j, d | j in w'.locals && d !in w'.stale ensures Agrees(w'.db, w'.locals[j], w'.queues[j], d, w'.now) {
        assert Agrees(w.db, w.locals[j], w.queues[j], d, w.now);
        if j == i { LastForTail(w.queues[i], d); }
      }
    }
  }

  lemma TickCoherent(w: World, to: int)
    requires RedisExact(w) && Coherent(w) && w.now <= to
    ensures RedisExact(w.(now := to)) && Coherent(w.(now := to))
  {
    var w' := w.(now := to);
    forall j, d | j in w'.locals && d !in w'.stale ensures Agrees(w'.db, w'.locals[j], w'.queues[j], d, w'.now) {
      assert Agrees(w.db, w.locals[j], w.queues[j], d, w.now);
    }
    forall c | Lookup(w'.redis, c, to).Some? ensures Lookup(w'.redis, c, to).value == LikeCount(w.db, c) {
      assert Lookup(w.redis, c, w.now).Some?;
    }
  }

  lemma ActCoherent(cfg: Config, w: World, e: Event)
    requires cfg.ttl > 0 && Consistent(w.db) && RedisExact(w) && Coherent(w) && FillsCounted(w) && Balanced(w, e)
    ensures var w' := Act(cfg, w, e); Consistent(w'.db) && RedisExact(w') && Coherent(w') && FillsCounted(w')
  {
    match e
    case HttpWrite(i, like, user, c) =>
      HttpWriteCoherent(cfg, w, i, like, user, c);
      WriteKeepsFills(cfg, w, like, user, c);
    case GrpcWrite(like, user, c) =>
      GrpcWriteCoherent(cfg, w, like, user, c);
      WriteKeepsFills(cfg, w, like, user, c);
    case Read(i, c) => ReadCoherent(cfg, w, i, c);
    case StartFill(id, i, c) => StartFillCoherent(w, id, i, c);
    case StartWrite(id, i, like, user, c) => StartWriteCoherent(cfg, w, id, i, like, user, c);
    case EndFill(id) => EndFillCoherent(cfg, w, id);
    case Deliver(i) => DeliverCoherent(w, i);
    case Evict(c) =>
      forall d | Lookup(w.redis - {c}, d, w.now).Some?
        ensures Lookup(w.redis - {c}, d, w.now).value == LikeCount(w.db, d)
      {
        assert Lookup(w.redis, d, w.now).Some?;
      }
    case Tick(to) => if MayTick(cfg, w, to) { TickCoherent(w, to); }
  }

  // ----- Every step keeps the provenance of what is held -----

  lemma WasTrueGrows(history: seq<Moment>, m: Moment, c: Content, count: int, from: int, to: int, from': int, to': int)
    requires WasTrue(history, c, count, from, to) && from' <= from && to <= to'
    ensures WasTrue(history + [m], c, count, from', to')
  {
    var j :| 0 <= j < |history| && from <= history[j].at <= to && LikeCount(history[j].db, c) == count;
    assert (history + [m])[j] == history[j];
  }

  lemma LastIsTrue(history: seq<Moment>, at: int, db: Tables, c: Content, from: int)
    requires from <= at
    ensures WasTrue(history + [Moment(at, db)], c, LikeCount(db, c), from, at)
  {
    assert (history + [Moment(at, db)])[|history|] == Moment(at, db);
  }

  /** Where a local entry after a step may come from: it was there, it is the current count, or an
      update was delivered. */
  ghost predicate LocalFrom(w: World, w': World, i: nat, c: Content, e: Entry) {
    || (i in w.locals && c in w.locals[i] && e == w.locals[i][c])
    || e == Entry(LikeCount(w'.db, c), w'.now + LOCAL_TTL)
    || (&& i in w.queues && w.queues[i] != [] && w.queues[i][0].content == c
        && e == Entry(w.queues[i][0].count, w.now + LOCAL_TTL))
  }

  ghost predicate QueuedFrom(cfg: Config, w: World, w': World, i: nat, d: Delivery) {
    || (i in w.queues && d in w.queues[i] && w'.now <= d.publishedAt + cfg.maxDelay)
    || (d.count == LikeCount(w'.db, d.content) && d.publishedAt == w'.now)
  }

  lemma WriteReportsTheCount(b: Backend, like: bool, user: string, c: Content, ttl: int, now: int)
    ensures var r := WriteContent(b, like, user, c, ttl, now); r.count == LikeCount(r.backend.db, c)
  {
  }

  lemma ReadOrigin(cfg: Config, w: World, j: nat, d: Content, i: nat, c: Content)
    requires RedisExact(w)
    requires var w' := ReadStep(cfg, w, j, d); i in w'.locals && c in w'.locals[i]
    ensures var w' := ReadStep(cfg, w, j, d); LocalFrom(w, w', i, c, w'.locals[i][c])
  {
    assert Lookup(w.redis, d, w.now).Some? ==> Lookup(w.redis, d, w.now).value == LikeCount(w.db, d);
  }

  lemma WriteOrigin(cfg: Config, w: World, j: nat, like: bool, user: string, d: Content, i: nat, c: Content)
    requires var w' := HttpWriteStep(cfg, w, j, like, user, d); i in w'.locals && c in w'.locals[i]
    ensures var w' := HttpWriteStep(cfg, w, j, like, user, d); LocalFrom(w, w', i, c, w'.locals[i][c])
  {
    WriteReportsTheCount(Backend(w.db, w.redis), like, user, d, cfg.ttl, w.now);
  }

  lemma EndFillOrigin(cfg: Config, w: World, id: nat, i: nat, c: Content)
    requires FillsCounted(w) && Balanced(w, EndFill(id))
    requires var w' := EndFillStep(cfg, w, id); i in w'.locals && c in w'.locals[i]
    ensures var w' := EndFillStep(cfg, w, id); LocalFrom(w, w', i, c, w'.locals[i][c])
  {
  }

  lemma LocalOrigin(cfg: Config, w: World, e: Event, i: nat, c: Content)
    requires RedisExact(w) && FillsCounted(w) && Balanced(w, e)
    requires var w' := Act(cfg, w, e); i in w'.locals && c in w'.locals[i]
    ensures var w' := Act(cfg, w, e); LocalFrom(w, w', i, c, w'.locals[i][c])
  {
    match e
    case HttpWrite(j, like, user, d) => WriteOrigin(cfg, w, j, like, user, d, i, c);
    case Read(j, d) => ReadOrigin(cfg, w, j, d, i, c);
    case EndFill(id) => EndFillOrigin(cfg, w, id, i, c);
    case _ =>
  }

  lemma EndFillQueueOrigin(cfg: Config, w: World, id: nat, i: nat, k: nat)
    requires FillsCounted(w) && Balanced(w, EndFill(id)) && i in w.queues
    requires forall j | 0 <= j < |w.queues[i]| :: w.now <= w.queues[i][j].publishedAt + cfg.maxDelay
    requires var w' := EndFillStep(cfg, w, id); i in w'.queues && k < |w'.queues[i]|
    ensures var w' := EndFillStep(cfg, w, id); QueuedFrom(cfg, w, w', i, w'.queues[i][k])
  {
  }

  lemma QueueOrigin(cfg: Config, w: World, e: Event, i: nat, k: nat)
    requires Sourced(cfg, w) && FillsCounted(w) && Balanced(w, e)
    requires var w' := Act(cfg, w, e); i in w'.queues && k < |w'.queues[i]|
    ensures var w' := Act(cfg, w, e); QueuedFrom(cfg, w, w', i, w'.queues[i][k])
  {
    assert i in w.queues;
    assert forall j | 0 <= j < |w.queues[i]| :: DeliverySourced(cfg, w, w.queues[i][j]);
    match e
    case HttpWrite(_, like, user, d) => WriteReportsTheCount(Backend(w.db, w.redis), like, user, d, cfg.ttl, w.now);
    case EndFill(id) => EndFillQueueOrigin(cfg, w, id, i, k);
    case _ =>
  }

  lemma LocalStaysTrue(cfg: Config, w: World, w': World, i: nat, c: Content, e: Entry)
    requires Sourced(cfg, w) && w.now <= w'.now && LocalFrom(w, w', i, c, e)
    ensures WasTrue(w.history + [Moment(w'.now, w'.db)], c, e.count, e.expiresAt - LOCAL_TTL - cfg.maxDelay, w'.now)
  {
    var m := Moment(w'.now, w'.db);
    var from := e.expiresAt - LOCAL_TTL - cfg.maxDelay;
    if i in w.locals && c in w.locals[i] && e == w.locals[i][c] {
      WasTrueGrows(w.history, m, c, e.count, from, w.now, from, w'.now);
    } else if e == Entry(LikeCount(w'.db, c), w'.now + LOCAL_TTL) {
      LastIsTrue(w.history, w'.now, w'.db, c, from);
    } else {
      var d := w.queues[i][0];
      assert DeliverySourced(cfg, w, d);
      WasTrueGrows(w.history, m, c, e.count, d.publishedAt, d.publishedAt, from, w'.now);
    }
  }

  lemma QueuedStaysTrue(cfg: Config, w: World, w': World, i: nat, d: Delivery)
    requires Sourced(cfg, w) && w.now <= w'.now && QueuedFrom(cfg, w, w', i, d)
    ensures DeliverySourced(cfg, w'.(history := w.history + [Moment(w'.now, w'.db)]), d)
  {
    if i in w.queues && d in w.queues[i] && w'.now <= d.publishedAt + cfg.maxDelay {
      var j :| 0 <= j < |w.queues[i]| && w.queues[i][j] == d;
      assert DeliverySourced(cfg, w, w.queues[i][j]);
      WasTrueGrows(w.history, Moment(w'.now, w'.db), d.content, d.count, d.publishedAt, d.publishedAt, d.publishedAt,
                   d.publishedAt);
    } else {
      LastIsTrue(w.history, w'.now, w'.db, d.content, d.publishedAt);
    }
  }

  lemma StepSourced(cfg: Config, w: World, e: Event)
    requires RedisExact(w) && FillsCounted(w) && Balanced(w, e) && Sourced(cfg, w)
    ensures Sourced(cfg, Step(cfg, w, e))
  {
    var w' := Act(cfg, w, e);
    var w'' := Step(cfg, w, e);
    forall i, c | i in w'.locals && c in w'.locals[i]
      ensures WasTrue(w''.history, c, w'.locals[i][c].count, w'.locals[i][c].expiresAt - LOCAL_TTL - cfg.maxDelay,
                      w'.now)
    {
      LocalOrigin(cfg, w, e, i, c);
      LocalStaysTrue(cfg, w, w', i, c, w'.locals[i][c]);
    }
    forall i, k | i in w'.queues && 0 <= k < |w'.queues[i]| ensures DeliverySourced(cfg, w'', w'.queues[i][k]) {
      QueueOrigin(cfg, w, e, i, k);
      QueuedStaysTrue(cfg, w, w', i, w'.queues[i][k]);
    }
  }

  // ----- Every run -----

  /** What every run keeps. */
  ghost predicate Kept(cfg: Config, w: World) {
    Consistent(w.db) && RedisExact(w) && Coherent(w) && FillsCounted(w) && Sourced(cfg, w)
  }

  lemma StepKeeps(cfg: Config, w: World, e: Event)
    requires cfg.ttl > 0 && Kept(cfg, w) && Balanced(w, e)
    ensures Kept(cfg, Step(cfg, w, e))
  {
    ActCoherent(cfg, w, e);
    StepSourced(cfg, w, e);
  }

  lemma {:induction false} EveryRunKeeps(cfg: Config, db: Tables, instances: set<nat>, now: int, events: seq<Event>)
    requires cfg.ttl > 0 && Consistent(db) && AllBalanced(cfg, Begin(db, instances, now), events)
    ensures Kept(cfg, Run(cfg, Begin(db, instances, now), events))
  {
    if events != [] {
      var n := |events| - 1;
      EveryRunKeeps(cfg, db, instances, now, events[..n]);
      StepKeeps(cfg, Run(cfg, Begin(db, instances, now), events[..n]), events[n]);
    }
  }

  /** Once its queue is empty a process agrees with the database on every item that no gRPC write
      changed since its last HTTP write: reading it there gives the database count. */
  lemma {:induction false} QuiescentAgreement(cfg: Config, db: Tables, instances: set<nat>, now: int,
                                              events: seq<Event>, i: nat, c: Content)
    requires cfg.ttl > 0 && Consistent(db) && AllBalanced(cfg, Begin(db, instances, now), events)
    requires var w := Run(cfg, Begin(db, instances, now), events);
             i in w.locals && c !in w.stale && i in w.queues && w.queues[i] == []
    ensures var w := Run(cfg, Begin(db, instances, now), events);
            GetCount(w.db, w.locals[i], w.redis, c, cfg.ttl, w.now).count
                == LikeCount(w.db, c) == |Likers(w.db.likes, c)|
  {
    EveryRunKeeps(cfg, db, instances, now, events);
    var w := Run(cfg, Begin(db, instances, now), events);
    assert Agrees(w.db, w.locals[i], w.queues[i], c, w.now);
  }

  /** Some HTTP write of c has yet to publish. */
  ghost predicate Publishing(w: World, c: Content) {
    exists id :: id in w.fills && w.fills[id].publishes && w.fills[id].content == c
  }

  ghost predicate OnlyPublishingIsStale(w: World) { forall c | c in w.stale :: Publishing(w, c) }

  lemma StaysPublishing(cfg: Config, w: World, e: Event, c: Content)
    requires Publishing(w, c) && Balanced(w, e)
    ensures Publishing(Act(cfg, w, e), c) || c !in Act(cfg, w, e).stale
  {
    var id :| id in w.fills && w.fills[id].publishes && w.fills[id].content == c;
    var w' := Act(cfg, w, e);
    if e != EndFill(id) {
      assert id in w'.fills && w'.fills[id].publishes && w'.fills[id].content == c;
    }
  }

  lemma NoGrpcKeepsStale(cfg: Config, w: World, e: Event)
    requires OnlyPublishingIsStale(w) && Balanced(w, e) && !e.GrpcWrite?
    ensures OnlyPublishingIsStale(Step(cfg, w, e))
  {
    var w' := Act(cfg, w, e);
    forall c | c in w'.stale ensures Publishing(w', c) {
      if c in w.stale {
        StaysPublishing(cfg, w, e, c);
      } else {
        assert e.StartWrite? && e.id in w'.fills && w'.fills[e.id].publishes;
      }
    }
    SamePublishing(w', Step(cfg, w, e));
  }

  lemma SamePublishing(w: World, w': World)
    requires OnlyPublishingIsStale(w) && w'.fills == w.fills && w'.stale == w.stale
    ensures OnlyPublishingIsStale(w')
  {
    forall c | c in w'.stale ensures Publishing(w', c) {
      assert Publishing(w, c);
    }
  }

  lemma {:induction false} HttpOnlyStaleIsPublishing(cfg: Config, start: World, events: seq<Event>)
    requires OnlyPublishingIsStale(start) && AllBalanced(cfg, start, events)
    requires forall k | 0 <= k < |events| :: !events[k].GrpcWrite?
    ensures OnlyPublishingIsStale(Run(cfg, start, events))
  {
    if events != [] {
      var n := |events| - 1;
      HttpOnlyStaleIsPublishing(cfg, start, events[..n]);
      NoGrpcKeepsStale(cfg, Run(cfg, start, events[..n]), events[n]);
    }
  }

  /** With HTTP writes only, once the queues are empty and every write has published, every process reads the
      database count for every item. */
  lemma {:induction false} HttpOnlyAgreement(cfg: Config, db: Tables, instances: set<nat>, now: int, events: seq<Event>)
    requires cfg.ttl > 0 && Consistent(db) && AllBalanced(cfg, Begin(db, instances, now), events)
    requires forall k | 0 <= k < |events| :: !events[k].GrpcWrite?
    requires var w := Run(cfg, Begin(db, instances, now), events);
             && (forall i | i in w.queues :: w.queues[i] == [])
             && (forall id | id in w.fills :: !w.fills[id].publishes)
    ensures var w := Run(cfg, Begin(db, instances, now), events);
            forall i, c | i in w.locals ::
              GetCount(w.db, w.locals[i], w.redis, c, cfg.ttl, w.now).count
                == LikeCount(w.db, c) == |Likers(w.db.likes, c)|
  {
    EveryRunKeeps(cfg, db, instances, now, events);
    HttpOnlyStaleIsPublishing(cfg, Begin(db, instances, now), events);
    var w := Run(cfg, Begin(db, instances, now), events);
    forall i, c | i in w.locals
      ensures GetCount(w.db, w.locals[i], w.redis, c, cfg.ttl, w.now).count
        == LikeCount(w.db, c) == |Likers(w.db.likes, c)|
    {
      assert c in w.stale ==> Publishing(w, c);
      QuiescentAgreement(cfg, db, instances, now, events, i, c);
    }
  }

  /** Every count a read returns, gRPC writes included, was the true count at some instant less than
      60 s plus the delivery delay ago. */
  lemma {:induction false} BoundedStaleness(cfg: Config, db: Tables, instances: set<nat>, now: int,
                                            events: seq<Event>, i: nat, c: Content)
    requires cfg.ttl > 0 && Consistent(db) && AllBalanced(cfg, Begin(db, instances, now), events)
    requires i in Run(cfg, Begin(db, instances, now), events).locals
    ensures var w := Run(cfg, Begin(db, instances, now), events);
            var count := GetCount(w.db, w.locals[i], w.redis, c, cfg.ttl, w.now).count;
            WasTrue(w.history, c, count, w.now - 60_000_000 - cfg.maxDelay + 1, w.now)
  {
    EveryRunKeeps(cfg, db, instances, now, events);
    ReadWasTrue(cfg, Run(cfg, Begin(db, instances, now), events), i, c);
  }

  lemma ReadWasTrue(cfg: Config, w: World, i: nat, c: Content)
    requires RedisExact(w) && Sourced(cfg, w) && i in w.locals
    ensures var count := GetCount(w.db, w.locals[i], w.redis, c, cfg.ttl, w.now).count;
            WasTrue(w.history, c, count, w.now - 60_000_000 - cfg.maxDelay + 1, w.now)
  {
    if Lookup(w.locals[i], c, w.now).Some? {
      var e := w.locals[i][c];
      var j :| 0 <= j < |w.history| && e.expiresAt - LOCAL_TTL - cfg.maxDelay <= w.history[j].at <= w.now
               && LikeCount(w.history[j].db, c) == e.count;
    } else {
      assert w.history[|w.history| - 1] == Moment(w.now, w.db);
    }
  }
}
