/** Fills and HTTP writes that other writes overtake between reading a count and caching it. */
module Overtaken {
  import opened Finite
  import opened LikesStore
  import opened CountCache
  import opened Coherence
  import opened Staleness

  /** No event ends the fill. */
  predicate Pending(events: seq<Event>, id: nat) { forall k | 0 <= k < |events| :: events[k] != EndFill(id) }

  /** A write as a pending fill sees it. */
  lemma WriteIsNoted(b: Backend, fills: map<nat, PendingFill>, like: bool, user: string, c: Content, ttl: int,
                     now: int, id: nat)
    requires id in fills
    ensures var changed := WriteContent(b, like, user, c, ttl, now).changed;
            var noted := if changed then Noted(fills, c, like) else fills;
            var f := fills[id];
            && (changed <==> (like <==> (user, c) !in b.db.likes)) && id in noted
            && noted[id] == f.(likes := f.likes + Bit(changed && f.content == c && like),
                               unlikes := f.unlikes + Bit(changed && f.content == c && !like))
  {
  }

  /** The fill's log after a step. */
  ghost predicate Logged(w: World, w': World, e: Event, id: nat)
    requires id in w.fills
  {
    var f := w.fills[id];
    && id in w'.fills
    && w'.fills[id] == f.(likes := f.likes + Bit(TakesEffect(w, e, f.content, true)),
                          unlikes := f.unlikes + Bit(TakesEffect(w, e, f.content, false)))
  }

  lemma HttpWriteLogs(cfg: Config, w: World, e: Event, id: nat)
    requires id in w.fills && e.HttpWrite?
    ensures Logged(w, HttpWriteStep(cfg, w, e.instance, e.like, e.user, e.content), e, id)
  {
    WriteIsNoted(Backend(w.db, w.redis), w.fills, e.like, e.user, e.content, cfg.ttl, w.now, id);
  }

  lemma GrpcWriteLogs(cfg: Config, w: World, e: Event, id: nat)
    requires id in w.fills && e.GrpcWrite?
    ensures Logged(w, GrpcWriteStep(cfg, w, e.like, e.user, e.content), e, id)
  {
    WriteIsNoted(Backend(w.db, w.redis), w.fills, e.like, e.user, e.content, cfg.ttl, w.now, id);
  }

  lemma StartWriteLogs(cfg: Config, w: World, e: Event, id: nat)
    requires id in w.fills && e.StartWrite?
    ensures Logged(w, StartWriteStep(cfg, w, e.id, e.instance, e.like, e.user, e.content), e, id)
  {
    WriteIsNoted(Backend(w.db, w.redis), w.fills, e.like, e.user, e.content, cfg.ttl, w.now, id);
  }

  lemma StepLogs(cfg: Config, w: World, e: Event, id: nat)
    requires id in w.fills && e != EndFill(id)
    ensures Logged(w, Step(cfg, w, e), e, id)
  {
    match e
    case HttpWrite(_, _, _, _) => HttpWriteLogs(cfg, w, e, id);
    case GrpcWrite(_, _, _) => GrpcWriteLogs(cfg, w, e, id);
    case StartWrite(_, _, _, _, _) => StartWriteLogs(cfg, w, e, id);
    case _ =>
  }

  /** A pending fill logs exactly the likes and unlikes of its item that took effect. */
  lemma {:induction false} FillLogsWrites(cfg: Config, w: World, events: seq<Event>, id: nat)
    requires id in w.fills && Pending(events, id)
    ensures var w' := Run(cfg, w, events);
            var f := w.fills[id];
            && id in w'.fills
            && w'.fills[id] == f.(likes := f.likes + Effective(cfg, w, events, f.content, true),
                                  unlikes := f.unlikes + Effective(cfg, w, events, f.content, false))
  {
    if events != [] {
      var n := |events| - 1;
      FillLogsWrites(cfg, w, events[..n], id);
      StepLogs(cfg, Run(cfg, w, events[..n]), events[n], id);
    }
  }

  lemma EndFillRedisIff(cfg: Config, w: World, id: nat)
    requires cfg.ttl > 0 && RedisExact(w) && Coherent(w) && FillsCounted(w) && id in w.fills
    ensures RedisExact(Step(cfg, w, EndFill(id))) <==> w.fills[id].likes == w.fills[id].unlikes
  {
    var f := w.fills[id];
    var w' := Step(cfg, w, EndFill(id));
    assert Lookup(w'.redis, f.content, w'.now) == Some(f.count);
    if f.likes == f.unlikes { EndFillCoherent(cfg, w, id); }
  }

  lemma EndFillCoherentIff(cfg: Config, w: World, id: nat)
    requires cfg.ttl > 0 && RedisExact(w) && Coherent(w) && FillsCounted(w) && id in w.fills && !w.fills[id].publishes
    ensures var f := w.fills[id];
            var kept := f.content in w.stale || LastFor(w.queues[f.instance], f.content).Some? || f.likes == f.unlikes;
            Coherent(Step(cfg, w, EndFill(id))) <==> kept
  {
    var f := w.fills[id];
    var w' := Step(cfg, w, EndFill(id));
    if f.likes == f.unlikes { EndFillCoherent(cfg, w, id); }
    if f.content in w.stale || LastFor(w.queues[f.instance], f.content).Some? { EndFillAgrees(cfg, w, id); }
    assert Coherent(w') && f.content !in w.stale
        ==> Agrees(w'.db, w'.locals[f.instance], w'.queues[f.instance], f.content, w'.now);
  }

  /** Ending a fill keeps Redis exact iff its log balances; if it publishes nothing, it keeps the process's
      agreement also when the item is stale anyway or a later update is still queued. */
  lemma EndFillIff(cfg: Config, w: World, id: nat)
    requires cfg.ttl > 0 && RedisExact(w) && Coherent(w) && FillsCounted(w) && id in w.fills
    ensures var w' := Step(cfg, w, EndFill(id));
            var f := w.fills[id];
            && (RedisExact(w') <==> f.likes == f.unlikes)
            && (!f.publishes ==>
                  (Coherent(w')
                   <==> f.content in w.stale || LastFor(w.queues[f.instance], f.content).Some? || f.likes == f.unlikes))
  {
    EndFillRedisIff(cfg, w, id);
    if !w.fills[id].publishes { EndFillCoherentIff(cfg, w, id); }
  }

  lemma EndFillAgrees(cfg: Config, w: World, id: nat)
    requires Coherent(w) && FillsCounted(w) && id in w.fills && !w.fills[id].publishes
    requires w.fills[id].content in w.stale || LastFor(w.queues[w.fills[id].instance], w.fills[id].content).Some?
    ensures Coherent(EndFillStep(cfg, w, id))
  {
    var w' := EndFillStep(cfg, w, id);
    forall j, d | j in w'.locals && d !in w'.stale ensures Agrees(w'.db, w'.locals[j], w'.queues[j], d, w'.now) {
      assert Agrees(w.db, w.locals[j], w.queues[j], d, w.now);
    }
  }

  lemma {:induction false} BalancedRunKeeps(cfg: Config, w: World, events: seq<Event>)
    requires cfg.ttl > 0 && Kept(cfg, w) && AllBalanced(cfg, w, events)
    ensures Kept(cfg, Run(cfg, w, events))
  {
    if events != [] {
      var n := |events| - 1;
      BalancedRunKeeps(cfg, w, events[..n]);
      StepKeeps(cfg, Run(cfg, w, events[..n]), events[n]);
    }
  }

  // ----- One item, whatever happens to the others -----

  /** What every run keeps, balanced or not. */
  ghost predicate Sound(w: World) { Consistent(w.db) && FillsCounted(w) && w.locals.Keys == w.queues.Keys }

  lemma StepIsSound(cfg: Config, w: World, e: Event)
    requires Sound(w)
    ensures Sound(Step(cfg, w, e))
  {
    CountFollowsEffects(cfg, w, e, Content("", ""));
    ActKeepsFills(cfg, w, e);
  }

  lemma StartWriteKeepsFills(cfg: Config, w: World, id: nat, i: nat, like: bool, user: string, c: Content)
    requires Consistent(w.db) && FillsCounted(w)
    ensures FillsCounted(StartWriteStep(cfg, w, id, i, like, user, c))
  {
    WriteKeepsFills(cfg, w, like, user, c);
    assert FillsCounted(GrpcWriteStep(cfg, w, like, user, c));
  }

  lemma ActKeepsFills(cfg: Config, w: World, e: Event)
    requires Consistent(w.db) && FillsCounted(w)
    ensures FillsCounted(Act(cfg, w, e))
  {
    match e
    case HttpWrite(_, like, user, c) => WriteKeepsFills(cfg, w, like, user, c);
    case GrpcWrite(like, user, c) => WriteKeepsFills(cfg, w, like, user, c);
    case StartWrite(id, i, like, user, c) => StartWriteKeepsFills(cfg, w, id, i, like, user, c);
    case _ =>
  }

  lemma {:induction false} RunIsSound(cfg: Config, w: World, events: seq<Event>)
    requires Sound(w)
    ensures Sound(Run(cfg, w, events))
  {
    if events != [] {
      var n := |events| - 1;
      RunIsSound(cfg, w, events[..n]);
      StepIsSound(cfg, Run(cfg, w, events[..n]), events[n]);
    }
  }

  /** A live Redis count of c is current, and every process agrees on c once its queue drains. */
  ghost predicate ItemExact(w: World, c: Content) {
    && (Lookup(w.redis, c, w.now).Some? ==> Lookup(w.redis, c, w.now).value == LikeCount(w.db, c))
    && forall j | j in w.locals :: j in w.queues && Agrees(w.db, w.locals[j], w.queues[j], c, w.now)
  }

  /** What ending a fill leaves for its item in Redis, and at a process it publishes to. */
  lemma EndFillLeaves(cfg: Config, w: World, id: nat)
    requires cfg.ttl > 0 && Sound(w) && id in w.fills
    ensures var w' := Step(cfg, w, EndFill(id));
            var f := w.fills[id];
            && Lookup(w'.redis, f.content, w'.now) == Some(f.count)
            && LikeCount(w'.db, f.content) == LikeCount(w.db, f.content)
            && (f.count == LikeCount(w.db, f.content) <==> f.likes == f.unlikes)
            && w'.locals.Keys == w.locals.Keys == w'.queues.Keys
            && (f.publishes ==> forall j | j in w'.locals :: LastFor(w'.queues[j], f.content) == Some(f.count))
  {
    var f := w.fills[id];
    forall j | j in w.locals
      ensures LastFor(w.queues[j] + [Delivery(f.content, f.count, w.now)], f.content) == Some(f.count)
    {
      LastForAppend(w.queues[j], Delivery(f.content, f.count, w.now), f.content);
    }
  }

  /** The second half of an HTTP write puts its item right everywhere, whatever was wrong before, iff its log
      balances; otherwise it puts it wrong. */
  lemma EndWriteIff(cfg: Config, w: World, id: nat)
    requires cfg.ttl > 0 && Sound(w) && id in w.fills && w.fills[id].publishes
    ensures ItemExact(Step(cfg, w, EndFill(id)), w.fills[id].content) <==> w.fills[id].likes == w.fills[id].unlikes
  {
    EndFillLeaves(cfg, w, id);
  }

  /** A fill from its database read to its caching, with any events between: Redis has its item right afterwards
      iff as many likes as unlikes of it took effect in between. */
  lemma LateFillItemIff(cfg: Config, w: World, id: nat, i: nat, c: Content, events: seq<Event>)
    requires cfg.ttl > 0 && Sound(w) && id !in w.fills && i in w.locals && Pending(events, id)
    requires GetCached(w.locals[i], w.redis, c, w.now).1.None?
    ensures var w1 := Step(cfg, w, StartFill(id, i, c));
            var w3 := Step(cfg, Run(cfg, w1, events), EndFill(id));
            var balance := Effective(cfg, w1, events, c, true) == Effective(cfg, w1, events, c, false);
            Lookup(w3.redis, c, w3.now) == Some(LikeCount(w3.db, c)) <==> balance
  {
    var w1 := Step(cfg, w, StartFill(id, i, c));
    StepIsSound(cfg, w, StartFill(id, i, c));
    RunIsSound(cfg, w1, events);
    FillLogsWrites(cfg, w1, events, id);
    EndFillLeaves(cfg, Run(cfg, w1, events), id);
  }

  /** An HTTP write from its database write to its publishing, with any events between: it leaves every cache
      right, once the queues drain, iff as many likes as unlikes of its item took effect in between. */
  lemma LateWriteIff(cfg: Config, w: World, id: nat, i: nat, like: bool, user: string, c: Content, events: seq<Event>)
    requires cfg.ttl > 0 && Sound(w) && id !in w.fills && i in w.locals && Pending(events, id)
    ensures var w1 := Step(cfg, w, StartWrite(id, i, like, user, c));
            var balance := Effective(cfg, w1, events, c, true) == Effective(cfg, w1, events, c, false);
            ItemExact(Step(cfg, Run(cfg, w1, events), EndFill(id)), c) <==> balance
  {
    var w1 := Step(cfg, w, StartWrite(id, i, like, user, c));
    StepIsSound(cfg, w, StartWrite(id, i, like, user, c));
    RunIsSound(cfg, w1, events);
    FillLogsWrites(cfg, w1, events, id);
    EndWriteIff(cfg, Run(cfg, w1, events), id);
  }

  /** Two likes of one item whose handlers overlap, the first to write being the last to publish: every cache is
      left behind the database, with HTTP writes only. */
  lemma OverlappingLikesLeaveCachesBehind(cfg: Config, w: World, first: nat, second: nat, i: nat, j: nat, u: string,
                                          v: string, c: Content)
    requires cfg.ttl > 0 && Sound(w) && first !in w.fills && second !in w.fills && first != second
    requires i in w.locals && j in w.locals && u != v && (u, c) !in w.db.likes && (v, c) !in w.db.likes
    ensures var w1 := Step(cfg, w, StartWrite(first, i, true, u, c));
            var w3 := Run(cfg, w1, [StartWrite(second, j, true, v, c), EndFill(second)]);
            !ItemExact(Step(cfg, w3, EndFill(first)), c)
  {
    var w1 := Step(cfg, w, StartWrite(first, i, true, u, c));
    var write, end := StartWrite(second, j, true, v, c), EndFill(second);
    LateWriteIff(cfg, w, first, i, true, u, c, [write, end]);
    OneLikeInBetween(cfg, w1, write, end, c);
  }

  lemma OneLikeInBetween(cfg: Config, w: World, write: Event, end: Event, c: Content)
    requires TakesEffect(w, write, c, true) && !TakesEffect(w, write, c, false) && end.EndFill?
    ensures Effective(cfg, w, [write, end], c, true) == 1 && Effective(cfg, w, [write, end], c, false) == 0
  {
    EffectiveOfTwo(cfg, w, write, end, c, true);
    EffectiveOfTwo(cfg, w, write, end, c, false);
  }

  lemma EffectiveOfTwo(cfg: Config, w: World, a: Event, b: Event, c: Content, like: bool)
    ensures Effective(cfg, w, [a, b], c, like)
      == Bit(TakesEffect(w, a, c, like)) + Bit(TakesEffect(Step(cfg, w, a), b, c, like))
  {
    assert [a, b][..1] == [a] && [a][..0] == [];
    assert Run(cfg, w, []) == w && Run(cfg, w, [a]) == Step(cfg, w, a);
    assert Effective(cfg, w, [], c, like) == 0;
    assert Effective(cfg, w, [a], c, like) == Bit(TakesEffect(w, a, c, like));
  }

  /** A fill from its database read to its caching, with any events between that keep the caches right:
      Redis is exact afterwards iff as many likes as unlikes of the item took effect in between. */
  lemma LateFillIff(cfg: Config, w: World, id: nat, i: nat, c: Content, events: seq<Event>)
    requires cfg.ttl > 0 && Kept(cfg, w) && id !in w.fills && i in w.locals
    requires GetCached(w.locals[i], w.redis, c, w.now).1.None?
    requires Pending(events, id) && AllBalanced(cfg, Step(cfg, w, StartFill(id, i, c)), events)
    ensures var w1 := Step(cfg, w, StartFill(id, i, c));
            var w2 := Run(cfg, w1, events);
            var w3 := Step(cfg, w2, EndFill(id));
            var balance := Effective(cfg, w1, events, c, true) == Effective(cfg, w1, events, c, false);
            && (RedisExact(w3) <==> balance)
            && i in w2.queues
            && (Coherent(w3) <==> c in w2.stale || LastFor(w2.queues[i], c).Some? || balance)
  {
    var w1 := Step(cfg, w, StartFill(id, i, c));
    StepKeeps(cfg, w, StartFill(id, i, c));
    BalancedRunKeeps(cfg, w1, events);
    FillLogsWrites(cfg, w1, events, id);
    EndFillIff(cfg, Run(cfg, w1, events), id);
  }

  /** The pieces of a world at instant 0 with no item stale. */
  predicate Looks(w: World, count: int, c: Content, redis: Cache, locals: map<nat, Cache>,
                  queues: map<nat, seq<Delivery>>, fills: map<nat, PendingFill>)
  {
    && w.now == 0 && LikeCount(w.db, c) == count && w.redis == redis
    && w.locals == locals && w.queues == queues && w.fills == fills
  }

  lemma FillStarts(cfg: Config, w: World, c: Content, locals: map<nat, Cache>, queues: map<nat, seq<Delivery>>)
    requires Looks(w, LikeCount(w.db, c), c, map[], locals, queues, map[]) && 0 in locals && locals[0] == map[]
    ensures var w' := Step(cfg, w, StartFill(0, 0, c));
            && w'.history == w.history + [Moment(0, w.db)] && w'.db == w.db && w'.stale == w.stale
            && Looks(w', LikeCount(w.db, c), c, map[], locals, queues,
                     map[0 := PendingFill(0, c, LikeCount(w.db, c), 0, 0, false)])
  {
  }

  lemma WriteOvertakes(cfg: Config, w: World, c: Content)
    requires w.db == EMPTY && w.stale == {}
    requires Looks(w, 0, c, map[], map[0 := map[]], map[0 := []], map[0 := PendingFill(0, c, 0, 0, 0, false)])
    ensures var w' := Step(cfg, w, HttpWrite(0, true, "u", c));
            && w'.stale == {}
            && Looks(w', 1, c, map[c := Entry(1, cfg.ttl)], map[0 := map[c := Entry(1, LOCAL_TTL)]],
                     map[0 := [Delivery(c, 1, 0)]], map[0 := PendingFill(0, c, 0, 1, 0, false)])
  {
    var w' := Step(cfg, w, HttpWrite(0, true, "u", c));
    assert w'.queues[0] == [Delivery(c, 1, 0)];
    assert w'.fills[0] == PendingFill(0, c, 0, 1, 0, false);
  }

  lemma DeliveryThenLateFill(cfg: Config, w: World, c: Content)
    requires w.stale == {}
    requires Looks(w, 1, c, map[c := Entry(1, cfg.ttl)], map[0 := map[c := Entry(1, LOCAL_TTL)]],
                   map[0 := [Delivery(c, 1, 0)]], map[0 := PendingFill(0, c, 0, 1, 0, false)])
    ensures var w' := Step(cfg, Step(cfg, w, Deliver(0)), EndFill(0));
            && w'.stale == {}
            && Looks(w', 1, c, map[c := Entry(0, cfg.ttl)], map[0 := map[c := Entry(0, LOCAL_TTL)]],
                     map[0 := []], map[])
  {
    var w1 := Step(cfg, w, Deliver(0));
    assert w1.queues[0] == [] && w1.locals[0] == map[c := Entry(1, LOCAL_TTL)];
    assert w1.queues == map[0 := []] && w1.locals == map[0 := map[c := Entry(1, LOCAL_TTL)]];
    assert Looks(w1, 1, c, map[c := Entry(1, cfg.ttl)], map[0 := map[c := Entry(1, LOCAL_TTL)]], map[0 := []],
                 map[0 := PendingFill(0, c, 0, 1, 0, false)]);
    var w2 := Step(cfg, w1, EndFill(0));
    assert w2.locals[0] == map[c := Entry(0, LOCAL_TTL)];
  }

  /** A run in which a write overtakes a fill: afterwards both caches hold the old count, and nothing is queued
      to correct them. */
  lemma LateFillLeavesStaleReads(cfg: Config, c: Content)
    requires cfg.ttl > 0
    ensures var w := Run(cfg, Begin(EMPTY, {0}, 0),
                         [StartFill(0, 0, c), HttpWrite(0, true, "u", c), Deliver(0), EndFill(0)]);
            && 0 in w.locals && w.queues == map[0 := []] && w.stale == {} && LikeCount(w.db, c) == 1
            && Told(cfg, w, 0, c) == 0 && Lookup(w.redis, c, w.now) == Some(0)
  {
    var start := Begin(EMPTY, {0}, 0);
    FourSteps(cfg, start, StartFill(0, 0, c), HttpWrite(0, true, "u", c), Deliver(0), EndFill(0));
    FillStarts(cfg, start, c, map[0 := map[]], map[0 := []]);
    WriteOvertakes(cfg, Step(cfg, start, StartFill(0, 0, c)), c);
    DeliveryThenLateFill(cfg, Step(cfg, Step(cfg, start, StartFill(0, 0, c)), HttpWrite(0, true, "u", c)), c);
  }

  /** A gRPC write where no local cache nor queue holds the item. */
  lemma GrpcWriteLooks(cfg: Config, w: World, c: Content, like: bool, user: string, count: int, redis: Cache,
                       locals: map<nat, Cache>, queues: map<nat, seq<Delivery>>, fills: map<nat, PendingFill>)
    requires Looks(w, count, c, redis, locals, queues, fills) && (like <==> (user, c) !in w.db.likes)
    requires c in w.db.likeCounts && count + (if like then 1 else -1) >= 0
    ensures var w' := Step(cfg, w, GrpcWrite(like, user, c));
            && w'.history == w.history + [Moment(0, w'.db)]
            && w'.db.likes == (if like then w.db.likes[(user, c) := 0] else w.db.likes - {(user, c)})
            && c in w'.db.likeCounts
            && Looks(w', count + (if like then 1 else -1), c,
                     if like then Incremented(redis, c, cfg.ttl, 0) else Decremented(redis, c, cfg.ttl, 0),
                     locals, queues, Noted(fills, c, like))
  {
  }

  lemma EndFillLooks(cfg: Config, w: World, c: Content, count: int, locals: map<nat, Cache>,
                     queues: map<nat, seq<Delivery>>, f: PendingFill)
    requires Looks(w, count, c, map[], locals, queues, map[0 := f])
    requires f.instance in locals && f.content == c && !f.publishes
    ensures var w' := Step(cfg, w, EndFill(0));
            && w'.history == w.history + [Moment(0, w.db)] && w'.db == w.db
            && Looks(w', count, c, map[c := Entry(f.count, cfg.ttl)],
                     locals[f.instance := Store(locals[f.instance], c, f.count, LOCAL_TTL, 0)], queues, map[])
  {
  }

  /** With such a fill the staleness bound is lost: counted on from the late value, Redis serves a count the item
      never had. */
  lemma LateFillServesACountThatNeverWas(cfg: Config, c: Content)
    requires cfg.ttl > 0
    ensures var db := InsertLike(EMPTY, "a", c, 0).0;
            var w := Run(cfg, Begin(db, {0, 1}, 0),
                         [StartFill(0, 0, c), GrpcWrite(false, "a", c), EndFill(0), GrpcWrite(true, "b", c)]);
            && Consistent(db) && 1 in w.locals
            && forall from, to :: !WasTrue(w.history, c, Told(cfg, w, 1, c), from, to)
  {
    var db := InsertLike(EMPTY, "a", c, 0).0;
    InsertKeepsTotals(EMPTY, "a", c, 0);
    InsertKeepsHours(EMPTY, "a", c, 0);
    var start := Begin(db, {0, 1}, 0);
    FourSteps(cfg, start, StartFill(0, 0, c), GrpcWrite(false, "a", c), EndFill(0), GrpcWrite(true, "b", c));
    OverdrawnRun(cfg, db, c);
  }

  /** The item never had more than one like. */
  ghost predicate AtMostOne(history: seq<Moment>, c: Content) {
    forall j | 0 <= j < |history| :: LikeCount(history[j].db, c) <= 1
  }

  lemma OverdrawnRun(cfg: Config, db: Tables, c: Content)
    requires cfg.ttl > 0 && db.likes == map[("a", c) := 0] && LikeCount(db, c) == 1 && c in db.likeCounts
    ensures var w1 := Step(cfg, Begin(db, {0, 1}, 0), StartFill(0, 0, c));
            var w := Step(cfg, Step(cfg, Step(cfg, w1, GrpcWrite(false, "a", c)), EndFill(0)), GrpcWrite(true, "b", c));
            1 in w.locals && forall from, to :: !WasTrue(w.history, c, Told(cfg, w, 1, c), from, to)
  {
    var start := Begin(db, {0, 1}, 0);
    var none: map<nat, Cache>, queues: map<nat, seq<Delivery>> := map[0 := map[], 1 := map[]], map[0 := [], 1 := []];
    var w2 := Step(cfg, Step(cfg, start, StartFill(0, 0, c)), GrpcWrite(false, "a", c));
    OvertakenByUnlike(cfg, db, c, none, queues);
    var w3 := Step(cfg, w2, EndFill(0));
    EndFillLooks(cfg, w2, c, 0, none, queues, PendingFill(0, c, 1, 0, 1, false));
    CountedOn(cfg, w3, c, none[0 := Store(none[0], c, 1, LOCAL_TTL, 0)], queues);
  }

  lemma OvertakenByUnlike(cfg: Config, db: Tables, c: Content, none: map<nat, Cache>, queues: map<nat, seq<Delivery>>)
    requires db.likes == map[("a", c) := 0] && LikeCount(db, c) == 1 && c in db.likeCounts
    requires none == map[0 := map[], 1 := map[]] && queues == map[0 := [], 1 := []]
    ensures var w := Step(cfg, Step(cfg, Begin(db, {0, 1}, 0), StartFill(0, 0, c)), GrpcWrite(false, "a", c));
            && Looks(w, 0, c, map[], none, queues, map[0 := PendingFill(0, c, 1, 0, 1, false)])
            && AtMostOne(w.history, c) && w.db.likes == map[] && c in w.db.likeCounts
  {
    var w1 := Step(cfg, Begin(db, {0, 1}, 0), StartFill(0, 0, c));
    FillStarts(cfg, Begin(db, {0, 1}, 0), c, none, queues);
    GrpcWriteLooks(cfg, w1, c, false, "a", 1, map[], none, queues, map[0 := PendingFill(0, c, 1, 0, 0, false)]);
    assert Noted(map[0 := PendingFill(0, c, 1, 0, 0, false)], c, false) == map[0 := PendingFill(0, c, 1, 0, 1, false)];
  }

  lemma CountedOn(cfg: Config, w: World, c: Content, locals: map<nat, Cache>, queues: map<nat, seq<Delivery>>)
    requires cfg.ttl > 0 && Looks(w, 0, c, map[c := Entry(1, cfg.ttl)], locals, queues, map[])
    requires 1 in locals && locals[1] == map[] && AtMostOne(w.history, c) && w.db.likes == map[] && c in w.db.likeCounts
    ensures var w' := Step(cfg, w, GrpcWrite(true, "b", c));
            1 in w'.locals && forall from, to :: !WasTrue(w'.history, c, Told(cfg, w', 1, c), from, to)
  {
    var w' := Step(cfg, w, GrpcWrite(true, "b", c));
    GrpcWriteLooks(cfg, w, c, true, "b", 0, map[c := Entry(1, cfg.ttl)], locals, queues, map[]);
    assert Told(cfg, w', 1, c) == 2;
    assert AtMostOne(w'.history, c);
  }

  // ----- After a fill that left Redis too high -----

  /** Redis holds d more than the database, and process i would read it from there. */
  ghost predicate Overdrawn(w: World, c: Content, i: nat, d: nat) {
    && d > 0 && Consistent(w.db) && Lookup(w.redis, c, w.now) == Some(LikeCount(w.db, c) + d)
    && i in w.locals && Lookup(w.locals[i], c, w.now).None?
  }

  /** The item never had more likes than `most`, or than it has now. */
  ghost predicate NeverAbove(w: World, c: Content, most: int) {
    forall j | 0 <= j < |w.history| ::
        LikeCount(w.history[j].db, c) <= most || LikeCount(w.history[j].db, c) <= LikeCount(w.db, c)
  }

  lemma {:induction false} LongerThanAll(users: set<string>) returns (user: string)
    ensures user !in users && forall u | u in users :: |u| < |user|
    decreases |users|
  {
    if users == {} {
      user := "u";
    } else {
      var u :| u in users;
      var longer := LongerThanAll(users - {u});
      user := if |u| < |longer| then longer else u + "u";
    }
  }

  lemma FreshUser(likes: map<(string, Content), int>, c: Content) returns (user: string)
    ensures (user, c) !in likes
  {
    var users := set row | row in likes :: row.0;
    user := LongerThanAll(users);
    assert (user, c) in likes ==> (user, c).0 in users;
  }

  /** A gRPC like counts on. */
  lemma LikeCountsOn(cfg: Config, w: World, c: Content, i: nat, d: nat, user: string, most: int)
    requires cfg.ttl > 0 && Overdrawn(w, c, i, d) && NeverAbove(w, c, most) && (user, c) !in w.db.likes
    ensures var w' := Step(cfg, w, GrpcWrite(true, user, c));
            Overdrawn(w', c, i, d) && NeverAbove(w', c, most) && LikeCount(w'.db, c) == LikeCount(w.db, c) + 1
  {
    WriteCounts(Backend(w.db, w.redis), true, user, c, cfg.ttl, w.now);
  }

  predicate LikesOverGrpc(events: seq<Event>, c: Content) {
    forall k | 0 <= k < |events| :: events[k].GrpcWrite? && events[k].like && events[k].content == c
  }

  lemma {:induction false} RunAfter(cfg: Config, w: World, e: Event, rest: seq<Event>)
    ensures Run(cfg, w, [e] + rest) == Run(cfg, Step(cfg, w, e), rest)
  {
    if rest == [] {
      OneStep(cfg, w, [], e);
      assert [] + [e] == [e] && [e] + [] == [e];
    } else {
      var n := |rest| - 1;
      RunAfter(cfg, w, e, rest[..n]);
      assert ([e] + rest)[..n + 1] == [e] + rest[..n];
    }
  }

  /** The count read at process i is one the item never had. */
  ghost predicate TellsWhatNeverWas(cfg: Config, w: World, i: nat, c: Content) {
    i in w.locals && forall from, to :: !WasTrue(w.history, c, Told(cfg, w, i, c), from, to)
  }

  lemma {:induction false} LikeUntilNeverWas(cfg: Config, w: World, c: Content, i: nat, d: nat, most: int)
      returns (likes: seq<Event>)
    requires cfg.ttl > 0 && Overdrawn(w, c, i, d) && NeverAbove(w, c, most)
    ensures LikesOverGrpc(likes, c) && TellsWhatNeverWas(cfg, Run(cfg, w, likes), i, c)
    decreases most - LikeCount(w.db, c) - d
  {
    if LikeCount(w.db, c) + d > most {
      likes := [];
    } else {
      var user := FreshUser(w.db.likes, c);
      var like := GrpcWrite(true, user, c);
      LikeCountsOn(cfg, w, c, i, d, user, most);
      var rest := LikeUntilNeverWas(cfg, Step(cfg, w, like), c, i, d, most);
      RunAfter(cfg, w, like, rest);
      likes := [like] + rest;
    }
  }

  lemma {:induction false} MostLikes(history: seq<Moment>, c: Content) returns (most: int)
    ensures forall j | 0 <= j < |history| :: LikeCount(history[j].db, c) <= most
  {
    if history == [] {
      most := 0;
    } else {
      var n := |history| - 1;
      most := MostLikes(history[..n], c);
      assert forall j | 0 <= j < n :: history[..n][j] == history[j];
      most := if most < LikeCount(history[n].db, c) then LikeCount(history[n].db, c) else most;
    }
  }

  /** After any fill that leaves Redis too high, gRPC likes bring every other process without a live local count to
      serve a count the item never had. */
  lemma TooHighFillLosesTheBound(cfg: Config, w: World, id: nat, i: nat) returns (likes: seq<Event>)
    requires cfg.ttl > 0 && Sound(w) && id in w.fills && w.fills[id].unlikes > w.fills[id].likes
    requires i in w.locals && i != w.fills[id].instance && Lookup(w.locals[i], w.fills[id].content, w.now).None?
    ensures LikesOverGrpc(likes, w.fills[id].content)
    ensures TellsWhatNeverWas(cfg, Run(cfg, Step(cfg, w, EndFill(id)), likes), i, w.fills[id].content)
  {
    var f := w.fills[id];
    var w' := Step(cfg, w, EndFill(id));
    StepIsSound(cfg, w, EndFill(id));
    EndFillLeaves(cfg, w, id);
    var most := MostLikes(w'.history, f.content);
    likes := LikeUntilNeverWas(cfg, w', f.content, i, f.unlikes - f.likes, most);
  }
}
