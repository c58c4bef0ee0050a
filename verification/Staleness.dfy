/** Exactly when the caches disagree with the database: gRPC writes, and fills that a write overtakes. */
module Staleness {
  import opened Finite
  import opened LikesStore
  import opened CountCache
  import opened Coherence
  import BatchLookup

  /** What a reader of c at process i is told. */
  function Told(cfg: Config, w: World, i: nat, c: Content): int
    requires i in w.locals
  {
    GetCount(w.db, w.locals[i], w.redis, c, cfg.ttl, w.now).count
  }

  /** Process i has no update of c queued, and any live count it holds is current. */
  predicate AgreedOn(w: World, i: nat, c: Content) {
    && i in w.locals && i in w.queues && LastFor(w.queues[i], c).None?
    && Agrees(w.db, w.locals[i], w.queues[i], c, w.now)
  }

  // ----- gRPC writes -----

  /** A gRPC write that takes effect on an item the process agreed on leaves it right exactly when it held
      no live local count. */
  lemma GrpcWriteSplitsIff(cfg: Config, w: World, like: bool, user: string, c: Content, i: nat)
    requires Consistent(w.db) && RedisExact(w) && AgreedOn(w, i, c) && (like <==> (user, c) !in w.db.likes)
    ensures var w' := GrpcWriteStep(cfg, w, like, user, c);
            Told(cfg, w', i, c) == LikeCount(w'.db, c) <==> Lookup(w.locals[i], c, w.now).None?
  {
    WriteIsExact(Backend(w.db, w.redis), like, user, c, cfg.ttl, w.now);
  }

  /** In a coherent world every process whose queue holds no update of an item that is not stale agrees on it. */
  lemma NotStaleIsAgreed(w: World, i: nat, c: Content)
    requires Coherent(w) && i in w.locals && c !in w.stale && LastFor(w.queues[i], c).None?
    ensures AgreedOn(w, i, c)
  {
    assert Agrees(w.db, w.locals[i], w.queues[i], c, w.now);
  }

  /** The event neither writes c nor ends a fill of it. */
  predicate Quiet(w: World, e: Event, c: Content) {
    match e
    case HttpWrite(_, _, _, d) => d != c
    case GrpcWrite(_, _, d) => d != c
    case StartWrite(_, _, _, _, d) => d != c
    case EndFill(id) => id in w.fills ==> w.fills[id].content != c
    case _ => true
  }

  ghost predicate AllQuiet(cfg: Config, start: World, events: seq<Event>, c: Content) {
    events == [] || (AllQuiet(cfg, start, events[..|events| - 1], c)
                     && Quiet(Run(cfg, start, events[..|events| - 1]), events[|events| - 1], c))
  }

  /** Process i has held `old` for c since it became wrong, or what it holds is right. */
  ghost predicate HoldsOld(w: World, i: nat, c: Content, was: Option<Entry>, count: int) {
    && i in w.locals && i in w.queues && LastFor(w.queues[i], c).None? && LikeCount(w.db, c) == count
    && if was.Some? && was.value.expiresAt > w.now then Get(w.locals[i], c) == was
       else var held := Lookup(w.locals[i], c, w.now); held.None? || held.value == count
  }

  lemma QuietWriteKeeps(cfg: Config, w: World, like: bool, user: string, d: Content, c: Content)
    requires Consistent(w.db) && RedisExact(w) && d != c
    ensures LikeCount(WriteContent(Backend(w.db, w.redis), like, user, d, cfg.ttl, w.now).backend.db, c)
      == LikeCount(w.db, c)
  {
    WriteIsExact(Backend(w.db, w.redis), like, user, d, cfg.ttl, w.now);
  }

  lemma QuietDeliveryKeeps(w: World, i: nat, c: Content, was: Option<Entry>, count: int, j: nat)
    requires HoldsOld(w, i, c, was, count)
    ensures HoldsOld(DeliverStep(w, j), i, c, was, count)
  {
    if j == i && w.queues[i] != [] { LastForTail(w.queues[i], c); }
  }

  lemma QuietHttpWriteKeeps(cfg: Config, w: World, i: nat, c: Content, was: Option<Entry>, count: int, j: nat,
                            like: bool, user: string, d: Content)
    requires Consistent(w.db) && RedisExact(w) && Coherent(w) && HoldsOld(w, i, c, was, count) && d != c
    ensures HoldsOld(HttpWriteStep(cfg, w, j, like, user, d), i, c, was, count)
  {
    var r := WriteContent(Backend(w.db, w.redis), like, user, d, cfg.ttl, w.now);
    QuietWriteKeeps(cfg, w, like, user, d, c);
    LastForAppend(w.queues[i], Delivery(d, r.count, w.now), c);
  }

  lemma QuietReadKeeps(cfg: Config, w: World, i: nat, c: Content, was: Option<Entry>, count: int, j: nat, d: Content)
    requires RedisExact(w) && HoldsOld(w, i, c, was, count)
    ensures HoldsOld(ReadStep(cfg, w, j, d), i, c, was, count)
  {
  }

  lemma QuietStartFillKeeps(w: World, i: nat, c: Content, was: Option<Entry>, count: int, id: nat, j: nat, d: Content)
    requires HoldsOld(w, i, c, was, count)
    ensures HoldsOld(StartFillStep(w, id, j, d), i, c, was, count)
  {
  }

  lemma QuietStartWriteKeeps(cfg: Config, w: World, i: nat, c: Content, was: Option<Entry>, count: int, e: Event)
    requires Consistent(w.db) && RedisExact(w) && HoldsOld(w, i, c, was, count) && e.StartWrite? && Quiet(w, e, c)
    ensures HoldsOld(StartWriteStep(cfg, w, e.id, e.instance, e.like, e.user, e.content), i, c, was, count)
  {
    QuietWriteKeeps(cfg, w, e.like, e.user, e.content, c);
  }

  lemma QuietEndFillKeeps(cfg: Config, w: World, i: nat, c: Content, was: Option<Entry>, count: int, id: nat)
    requires HoldsOld(w, i, c, was, count) && Quiet(w, EndFill(id), c)
    ensures HoldsOld(EndFillStep(cfg, w, id), i, c, was, count)
  {
    if id in w.fills { LastForAppend(w.queues[i], Delivery(w.fills[id].content, w.fills[id].count, w.now), c); }
  }

  lemma QuietTickKeeps(w: World, i: nat, c: Content, was: Option<Entry>, count: int, to: int)
    requires HoldsOld(w, i, c, was, count) && w.now <= to
    ensures HoldsOld(w.(now := to), i, c, was, count)
  {
  }

  lemma QuietActKeeps(cfg: Config, w: World, e: Event, i: nat, c: Content, was: Option<Entry>, count: int)
    requires Kept(cfg, w) && Quiet(w, e, c) && HoldsOld(w, i, c, was, count)
    ensures HoldsOld(Act(cfg, w, e), i, c, was, count)
  {
    match e
    case HttpWrite(j, like, user, d) => QuietHttpWriteKeeps(cfg, w, i, c, was, count, j, like, user, d);
    case GrpcWrite(like, user, d) => QuietWriteKeeps(cfg, w, like, user, d, c);
    case Read(j, d) => QuietReadKeeps(cfg, w, i, c, was, count, j, d);
    case Deliver(j) => QuietDeliveryKeeps(w, i, c, was, count, j);
    case StartFill(id, j, d) => QuietStartFillKeeps(w, i, c, was, count, id, j, d);
    case StartWrite(_, _, _, _, _) => QuietStartWriteKeeps(cfg, w, i, c, was, count, e);
    case EndFill(id) => QuietEndFillKeeps(cfg, w, i, c, was, count, id);
    case Evict(_) =>
    case Tick(to) => if MayTick(cfg, w, to) { QuietTickKeeps(w, i, c, was, count, to); }
  }

  lemma {:induction false} QuietRunKeeps(cfg: Config, w: World, events: seq<Event>, i: nat, c: Content,
                                         was: Option<Entry>, count: int)
    requires cfg.ttl > 0 && Kept(cfg, w) && AllBalanced(cfg, w, events) && AllQuiet(cfg, w, events, c)
    requires HoldsOld(w, i, c, was, count)
    ensures var w' := Run(cfg, w, events); Kept(cfg, w') && HoldsOld(w', i, c, was, count)
  {
    if events != [] {
      var n := |events| - 1;
      QuietRunKeeps(cfg, w, events[..n], i, c, was, count);
      StepKeeps(cfg, Run(cfg, w, events[..n]), events[n]);
      QuietActKeeps(cfg, Run(cfg, w, events[..n]), events[n], i, c, was, count);
    }
  }

  /** Right after the write. */
  lemma GrpcWriteStartsOld(cfg: Config, w: World, like: bool, user: string, c: Content, i: nat)
    requires Kept(cfg, w) && AgreedOn(w, i, c)
    requires like <==> (user, c) !in w.db.likes
    ensures var w1 := GrpcWriteStep(cfg, w, like, user, c);
            HoldsOld(w1, i, c, Get(w.locals[i], c), LikeCount(w1.db, c)) && LikeCount(w1.db, c) != LikeCount(w.db, c)
    ensures Lookup(w.locals[i], c, w.now).Some? ==> w.locals[i][c].count == LikeCount(w.db, c)
  {
    WriteIsExact(Backend(w.db, w.redis), like, user, c, cfg.ttl, w.now);
  }

  lemma OldIsToldWhileItLives(cfg: Config, w: World, i: nat, c: Content, was: Option<Entry>, count: int)
    requires RedisExact(w) && HoldsOld(w, i, c, was, count)
    requires was.Some? && was.value.expiresAt > w.now ==> was.value.count != count
    ensures Told(cfg, w, i, c) == LikeCount(w.db, c) <==> was.None? || was.value.expiresAt <= w.now
  {
  }

  /** And it is wrong for exactly as long as that local count lives: until the item is written again, the
      process tells the current count iff the entry it held has expired. */
  lemma {:induction false} GrpcSplitLastsAsLongAsTheEntry(cfg: Config, w: World, like: bool, user: string, c: Content,
                                                          i: nat, events: seq<Event>)
    requires cfg.ttl > 0 && Kept(cfg, w) && AgreedOn(w, i, c)
    requires like <==> (user, c) !in w.db.likes
    requires var w1 := Step(cfg, w, GrpcWrite(like, user, c));
             AllBalanced(cfg, w1, events) && AllQuiet(cfg, w1, events, c)
    ensures var w' := Run(cfg, Step(cfg, w, GrpcWrite(like, user, c)), events);
            && i in w'.locals
            && (Told(cfg, w', i, c) == LikeCount(w'.db, c) <==> Lookup(w.locals[i], c, w'.now).None?)
  {
    var w1 := Step(cfg, w, GrpcWrite(like, user, c));
    var count := LikeCount(w1.db, c);
    GrpcWriteStartsOld(cfg, w, like, user, c, i);
    StepKeeps(cfg, w, GrpcWrite(like, user, c));
    NowGrows(cfg, w1, events);
    QuietRunKeeps(cfg, w1, events, i, c, Get(w.locals[i], c), count);
    OldIsToldWhileItLives(cfg, Run(cfg, w1, events), i, c, Get(w.locals[i], c), count);
  }

  lemma {:induction false} NowGrows(cfg: Config, w: World, events: seq<Event>)
    ensures w.now <= Run(cfg, w, events).now
  {
    if events != [] {
      var n := |events| - 1;
      NowGrows(cfg, w, events[..n]);
      NowGrowsByOne(cfg, Run(cfg, w, events[..n]), events[n]);
    }
  }

  /** A process that read an item just before a gRPC write serves the old count for exactly 60 s. */
  lemma GrpcWriteLeavesStaleReads(cfg: Config, c: Content, t: nat)
    requires cfg.ttl > 0
    ensures var w := Run(cfg, Begin(EMPTY, {0}, 0), [Read(0, c), GrpcWrite(true, "u", c), Tick(t)]);
            0 in w.locals && (Told(cfg, w, 0, c) == LikeCount(w.db, c) <==> t >= 60_000_000)
  {
    var start := Begin(EMPTY, {0}, 0);
    var w1 := Step(cfg, start, Read(0, c));
    ReadAtStart(cfg, c);
    ThreeSteps(cfg, start, Read(0, c), GrpcWrite(true, "u", c), Tick(t));
    TickIsQuiet(cfg, Step(cfg, w1, GrpcWrite(true, "u", c)), t, c);
    GrpcSplitLastsAsLongAsTheEntry(cfg, w1, true, "u", c, 0, [Tick(t)]);
  }

  lemma ReadAtStart(cfg: Config, c: Content)
    requires cfg.ttl > 0
    ensures var w := Step(cfg, Begin(EMPTY, {0}, 0), Read(0, c));
            && Kept(cfg, w) && w.now == 0 && w.queues == map[0 := []] && w.stale == {} && w.db == EMPTY
            && w.locals == map[0 := map[c := Entry(0, 60_000_000)]]
  {
    EveryRunKeeps(cfg, EMPTY, {0}, 0, []);
    StepKeeps(cfg, Begin(EMPTY, {0}, 0), Read(0, c));
  }

  lemma TickIsQuiet(cfg: Config, w: World, t: nat, c: Content)
    requires w.now == 0 && w.queues == map[0 := []]
    ensures AllBalanced(cfg, w, [Tick(t)]) && AllQuiet(cfg, w, [Tick(t)], c)
    ensures Run(cfg, w, [Tick(t)]) == Step(cfg, w, Tick(t)) && Step(cfg, w, Tick(t)).now == t
  {
    assert [Tick(t)][..0] == [];
    assert Run(cfg, w, []) == w && AllBalanced(cfg, w, []) && AllQuiet(cfg, w, [], c);
  }

  lemma OneStep(cfg: Config, w: World, events: seq<Event>, e: Event)
    ensures Run(cfg, w, events + [e]) == Step(cfg, Run(cfg, w, events), e)
  {
    assert (events + [e])[..|events|] == events;
  }

  lemma ThreeSteps(cfg: Config, w: World, a: Event, b: Event, c: Event)
    ensures Run(cfg, w, [a, b, c]) == Step(cfg, Step(cfg, Step(cfg, w, a), b), c)
  {
    OneStep(cfg, w, [], a);
    OneStep(cfg, w, [a], b);
    OneStep(cfg, w, [a, b], c);
    assert [] + [a] == [a] && [a] + [b] == [a, b] && [a, b] + [c] == [a, b, c];
  }

  lemma FourSteps(cfg: Config, w: World, a: Event, b: Event, c: Event, d: Event)
    ensures Run(cfg, w, [a, b, c, d]) == Step(cfg, Step(cfg, Step(cfg, Step(cfg, w, a), b), c), d)
  {
    ThreeSteps(cfg, w, a, b, c);
    OneStep(cfg, w, [a, b, c], d);
    assert [a, b, c] + [d] == [a, b, c, d];
  }

  lemma FiveSteps(cfg: Config, w: World, a: Event, b: Event, c: Event, d: Event, e: Event)
    ensures Run(cfg, w, [a, b, c, d, e]) == Step(cfg, Step(cfg, Step(cfg, Step(cfg, Step(cfg, w, a), b), c), d), e)
  {
    FourSteps(cfg, w, a, b, c, d);
    OneStep(cfg, w, [a, b, c, d], e);
    assert [a, b, c, d] + [e] == [a, b, c, d, e];
  }

  // ----- Any number of gRPC writes -----

  /** The event is a write of c that takes effect. */
  predicate TakesEffect(w: World, e: Event, c: Content, like: bool) {
    match e
    case HttpWrite(i, l, user, d) => i in w.locals && d == c && l == like && (like <==> (user, c) !in w.db.likes)
    case GrpcWrite(l, user, d) => d == c && l == like && (like <==> (user, c) !in w.db.likes)
    case StartWrite(id, i, l, user, d) =>
      id !in w.fills && i in w.locals && d == c && l == like && (like <==> (user, c) !in w.db.likes)
    case _ => false
  }

  function Bit(b: bool): nat { if b then 1 else 0 }

  /** How many likes, or unlikes, of c take effect in a run. */
  ghost function Effective(cfg: Config, w: World, events: seq<Event>, c: Content, like: bool): nat {
    if events == [] then 0
    else
      var n := |events| - 1;
      Effective(cfg, w, events[..n], c, like) + Bit(TakesEffect(Run(cfg, w, events[..n]), events[n], c, like))
  }

  /** Any number of gRPC writes of c, but no HTTP write and no fill that ends. */
  ghost predicate AllOverGrpc(cfg: Config, start: World, events: seq<Event>, c: Content) {
    events == [] || (var n := |events| - 1;
                     && AllOverGrpc(cfg, start, events[..n], c)
                     && (events[n].GrpcWrite? || Quiet(Run(cfg, start, events[..n]), events[n], c)))
  }

  lemma CountFollowsEffects(cfg: Config, w: World, e: Event, c: Content)
    requires Consistent(w.db)
    ensures Consistent(Act(cfg, w, e).db)
    ensures LikeCount(Act(cfg, w, e).db, c)
         == LikeCount(w.db, c) + Bit(TakesEffect(w, e, c, true)) - Bit(TakesEffect(w, e, c, false))
  {
    match e
    case HttpWrite(_, like, user, d) => WriteCounts(Backend(w.db, w.redis), like, user, d, cfg.ttl, w.now);
    case GrpcWrite(like, user, d) => WriteCounts(Backend(w.db, w.redis), like, user, d, cfg.ttl, w.now);
    case StartWrite(_, _, like, user, d) => WriteCounts(Backend(w.db, w.redis), like, user, d, cfg.ttl, w.now);
    case _ =>
  }

  lemma LiveEntryStays(cfg: Config, w: World, e: Event, i: nat, c: Content, held: Entry)
    requires Kept(cfg, w) && (e.GrpcWrite? || Quiet(w, e, c)) && held.expiresAt > Act(cfg, w, e).now
    requires HoldsOld(w, i, c, Some(held), LikeCount(w.db, c))
    ensures HoldsOld(Act(cfg, w, e), i, c, Some(held), LikeCount(Act(cfg, w, e).db, c))
  {
    if Quiet(w, e, c) { QuietActKeeps(cfg, w, e, i, c, Some(held), LikeCount(w.db, c)); }
  }

  lemma LiveStepStays(cfg: Config, w: World, e: Event, i: nat, c: Content, held: Entry)
    requires cfg.ttl > 0 && Kept(cfg, w) && Balanced(w, e) && (e.GrpcWrite? || Quiet(w, e, c))
    requires HoldsOld(w, i, c, Some(held), LikeCount(w.db, c)) && held.expiresAt > Step(cfg, w, e).now
    ensures var w' := Step(cfg, w, e);
            && Kept(cfg, w') && HoldsOld(w', i, c, Some(held), LikeCount(w'.db, c))
            && LikeCount(w'.db, c)
               == LikeCount(w.db, c) + Bit(TakesEffect(w, e, c, true)) - Bit(TakesEffect(w, e, c, false))
  {
    StepKeeps(cfg, w, e);
    CountFollowsEffects(cfg, w, e, c);
    LiveEntryStays(cfg, w, e, i, c, held);
  }

  lemma NowGrowsByOne(cfg: Config, w: World, e: Event)
    ensures w.now <= Step(cfg, w, e).now
  {
  }

  lemma {:induction false} LiveEntryStaysThroughout(cfg: Config, w: World, events: seq<Event>, i: nat, c: Content,
                                                    held: Entry)
    requires cfg.ttl > 0 && Kept(cfg, w) && AllBalanced(cfg, w, events) && AllOverGrpc(cfg, w, events, c)
    requires HoldsOld(w, i, c, Some(held), LikeCount(w.db, c)) && held.expiresAt > Run(cfg, w, events).now
    ensures var w' := Run(cfg, w, events);
            && Kept(cfg, w') && HoldsOld(w', i, c, Some(held), LikeCount(w'.db, c))
            && LikeCount(w'.db, c) + Effective(cfg, w, events, c, false)
               == LikeCount(w.db, c) + Effective(cfg, w, events, c, true)
  {
    if events != [] {
      var n := |events| - 1;
      var w1 := Run(cfg, w, events[..n]);
      NowGrowsByOne(cfg, w1, events[n]);
      LiveEntryStaysThroughout(cfg, w, events[..n], i, c, held);
      LiveStepStays(cfg, w1, events[n], i, c, held);
    }
  }

  /** Through any number of gRPC writes, a live local count that was right tells the current count iff as many
      likes as unlikes took effect since. */
  lemma {:induction false} LiveEntryIsRightIffBalanced(cfg: Config, w: World, events: seq<Event>, i: nat, c: Content)
    requires cfg.ttl > 0 && Kept(cfg, w) && AllBalanced(cfg, w, events) && AllOverGrpc(cfg, w, events, c)
    requires AgreedOn(w, i, c)
    requires Lookup(w.locals[i], c, Run(cfg, w, events).now).Some?
    ensures var w' := Run(cfg, w, events);
            && i in w'.locals
            && (Told(cfg, w', i, c) == LikeCount(w'.db, c)
                <==> Effective(cfg, w, events, c, true) == Effective(cfg, w, events, c, false))
  {
    NowGrows(cfg, w, events);
    LiveEntryStaysThroughout(cfg, w, events, i, c, w.locals[i][c]);
  }

  // ----- How old a local count may be -----

  /** The event has process i store a count of c locally. */
  predicate Stores(w: World, e: Event, i: nat, c: Content) {
    match e
    case HttpWrite(j, _, _, d) => j == i && d == c
    case Read(j, d) => j == i && d == c
    case EndFill(id) => id in w.fills && w.fills[id].instance == i && w.fills[id].content == c
    case Deliver(j) => j == i && i in w.queues && w.queues[i] != [] && w.queues[i][0].content == c
    case _ => false
  }

  /** The entry of c at process i, if any. */
  function Held(w: World, i: nat, c: Content): Option<Entry> {
    if i in w.locals then Get(w.locals[i], c) else None
  }

  /** Step k of the run stored the entry, which lives 60 s from then. */
  ghost predicate StoredAt(cfg: Config, start: World, events: seq<Event>, k: nat, i: nat, c: Content, e: Entry) {
    && k < |events| && Stores(Run(cfg, start, events[..k]), events[k], i, c)
    && var after := Run(cfg, start, events[..k + 1]);
      Held(after, i, c) == Some(e) && e.expiresAt == after.now + 60_000_000
  }

  lemma StepStores(cfg: Config, w: World, e: Event, i: nat, c: Content)
    requires var held := Held(Step(cfg, w, e), i, c); held.Some? && held != Held(w, i, c)
    ensures Stores(w, e, i, c) && Held(Step(cfg, w, e), i, c).value.expiresAt == Step(cfg, w, e).now + 60_000_000
  {
  }

  lemma StoredBefore(cfg: Config, start: World, events: seq<Event>, k: nat, i: nat, c: Content, e: Entry)
    requires events != [] && StoredAt(cfg, start, events[..|events| - 1], k, i, c, e)
    ensures StoredAt(cfg, start, events, k, i, c, e)
  {
    var n := |events| - 1;
    assert events[..n][..k] == events[..k] && events[..n][..k + 1] == events[..k + 1];
  }

  lemma {:induction false} HeldWasStored(cfg: Config, db: Tables, instances: set<nat>, now: int, events: seq<Event>,
                                         i: nat, c: Content) returns (k: nat)
    requires Held(Run(cfg, Begin(db, instances, now), events), i, c).Some?
    ensures var start := Begin(db, instances, now);
            StoredAt(cfg, start, events, k, i, c, Held(Run(cfg, start, events), i, c).value)
  {
    var start := Begin(db, instances, now);
    var n := |events| - 1;
    var before, held := Run(cfg, start, events[..n]), Held(Run(cfg, start, events), i, c);
    if held == Held(before, i, c) {
      k := HeldWasStored(cfg, db, instances, now, events[..n], i, c);
      StoredBefore(cfg, start, events, k, i, c, held.value);
    } else {
      k := n;
      StepStores(cfg, before, events[n], i, c);
      assert events[..n + 1] == events;
    }
  }

  lemma StoredIsRecent(cfg: Config, start: World, events: seq<Event>, k: nat, i: nat, c: Content)
    requires var w := Run(cfg, start, events);
             && i in w.locals && Lookup(w.locals[i], c, w.now).Some?
             && StoredAt(cfg, start, events, k, i, c, w.locals[i][c])
    ensures var stored, w := Run(cfg, start, events[..k + 1]), Run(cfg, start, events);
            && w.now - 60_000_000 < stored.now <= w.now
            && Held(stored, i, c) == Held(w, i, c) && Held(w, i, c).Some?
            && Told(cfg, w, i, c) == Held(w, i, c).value.count
  {
    LaterInTheRun(cfg, start, events, k + 1);
    LiveIsTold(cfg, Run(cfg, start, events), i, c);
  }

  /** A count answered from the local cache was stored there less than 60 s ago, whatever else happened: by a write
      or read of the item at that process, a fill of its own, or a delivered update. */
  lemma LocalAnswersAreRecent(cfg: Config, db: Tables, instances: set<nat>, now: int, events: seq<Event>, i: nat,
                              c: Content) returns (k: nat)
    requires var w := Run(cfg, Begin(db, instances, now), events);
             i in w.locals && Lookup(w.locals[i], c, w.now).Some?
    ensures var start := Begin(db, instances, now);
            && k < |events| && Stores(Run(cfg, start, events[..k]), events[k], i, c)
            && var stored, w := Run(cfg, start, events[..k + 1]), Run(cfg, start, events);
              && w.now - 60_000_000 < stored.now <= w.now
              && Held(stored, i, c) == Held(w, i, c) && Held(w, i, c).Some?
              && Told(cfg, w, i, c) == Held(w, i, c).value.count
  {
    k := HeldWasStored(cfg, db, instances, now, events, i, c);
    StoredIsRecent(cfg, Begin(db, instances, now), events, k, i, c);
  }

  lemma LiveIsTold(cfg: Config, w: World, i: nat, c: Content)
    requires i in w.locals && Lookup(w.locals[i], c, w.now).Some?
    ensures Told(cfg, w, i, c) == w.locals[i][c].count && w.locals[i][c].expiresAt > w.now
  {
  }

  lemma {:induction false} LaterInTheRun(cfg: Config, start: World, events: seq<Event>, k: nat)
    requires k <= |events|
    ensures Run(cfg, start, events[..k]).now <= Run(cfg, start, events).now
  {
    var n := |events| - 1;
    if k <= n {
      LaterInTheRun(cfg, start, events[..n], k);
      assert events[..n][..k] == events[..k];
      NowGrowsByOne(cfg, Run(cfg, start, events[..n]), events[n]);
    } else {
      assert events[..k] == events;
    }
  }

  // ----- The staleness bound is reached -----

  /** A like is published, undone over gRPC at once, delivered as late as may be, and read as late as may be. */
  function SlowDelivery(cfg: Config, c: Content): seq<Event> {
    [HttpWrite(0, true, "u", c), GrpcWrite(false, "u", c), Tick(cfg.maxDelay), Deliver(0),
     Tick(cfg.maxDelay + 59_999_999)]
  }

  /** The only moment at which the item had a like is the second one, at instant 0. */
  ghost predicate LikedOnceAtStart(history: seq<Moment>, c: Content) {
    && |history| > 1 && history[1].at == 0 && LikeCount(history[1].db, c) == 1
    && forall j | 0 <= j < |history| && j != 1 :: LikeCount(history[j].db, c) == 0
  }

  lemma LikeThenUnlike(cfg: Config, c: Content)
    ensures var w := Step(cfg, Step(cfg, Begin(EMPTY, {0}, 0), HttpWrite(0, true, "u", c)), GrpcWrite(false, "u", c));
            && w.now == 0 && LikeCount(w.db, c) == 0 && LikedOnceAtStart(w.history, c)
            && w.locals.Keys == {0} && w.queues == map[0 := [Delivery(c, 1, 0)]]
  {
    var w1 := Step(cfg, Begin(EMPTY, {0}, 0), HttpWrite(0, true, "u", c));
    assert w1.queues == map[0 := [] + [Delivery(c, 1, 0)]] && [] + [Delivery(c, 1, 0)] == [Delivery(c, 1, 0)];
    assert LikeCount(w1.db, c) == 1;
  }

  lemma DeliveredLate(cfg: Config, w: World, c: Content)
    requires w.now == 0 && LikeCount(w.db, c) == 0 && LikedOnceAtStart(w.history, c)
    requires w.locals.Keys == {0} && w.queues == map[0 := [Delivery(c, 1, 0)]]
    ensures var w' := Step(cfg, Step(cfg, w, Tick(cfg.maxDelay)), Deliver(0));
            && w'.now == cfg.maxDelay && LikeCount(w'.db, c) == 0 && LikedOnceAtStart(w'.history, c)
            && Held(w', 0, c) == Some(Entry(1, cfg.maxDelay + 60_000_000)) && w'.queues == map[0 := []]
  {
    var w1 := Step(cfg, w, Tick(cfg.maxDelay));
    assert MayTick(cfg, w, cfg.maxDelay);
    assert w1.now == cfg.maxDelay && w1.queues == w.queues && LikedOnceAtStart(w1.history, c);
  }

  lemma ToldAfterSlowDelivery(cfg: Config, w: World, c: Content, from: int)
    requires w.now == 0 && LikeCount(w.db, c) == 0 && LikedOnceAtStart(w.history, c)
    requires w.locals.Keys == {0} && w.queues == map[0 := [Delivery(c, 1, 0)]]
    ensures var delivered := Step(cfg, Step(cfg, w, Tick(cfg.maxDelay)), Deliver(0));
            var w' := Step(cfg, delivered, Tick(cfg.maxDelay + 59_999_999));
            ToldSince(cfg, w', c, from, w'.now - 60_000_000 - cfg.maxDelay + 1)
  {
    DeliveredLate(cfg, w, c);
    ToldAtTheEnd(cfg, Step(cfg, Step(cfg, w, Tick(cfg.maxDelay)), Deliver(0)), c, from);
  }

  /** What process 0 is told was true between `from` and now iff `from` is not after `last`. */
  ghost predicate ToldSince(cfg: Config, w: World, c: Content, from: int, last: int) {
    0 in w.locals && (WasTrue(w.history, c, Told(cfg, w, 0, c), from, w.now) <==> from <= last)
  }

  /** No better bound holds: at the end of this run the process is told a count that was last true exactly 60 s plus
      the delivery delay, less one microsecond, ago. */
  lemma StalenessBoundIsReached(cfg: Config, c: Content, from: int)
    ensures var w := Run(cfg, Begin(EMPTY, {0}, 0), SlowDelivery(cfg, c));
            ToldSince(cfg, w, c, from, w.now - 60_000_000 - cfg.maxDelay + 1)
  {
    LikeThenUnlike(cfg, c);
    LateSteps(cfg, Begin(EMPTY, {0}, 0), HttpWrite(0, true, "u", c), GrpcWrite(false, "u", c), SlowDelivery(cfg, c), c,
              from);
  }

  lemma LateSteps(cfg: Config, start: World, a: Event, b: Event, events: seq<Event>, c: Content, from: int)
    requires events == [a, b, Tick(cfg.maxDelay), Deliver(0), Tick(cfg.maxDelay + 59_999_999)]
    requires var w := Step(cfg, Step(cfg, start, a), b);
             && w.now == 0 && LikeCount(w.db, c) == 0 && LikedOnceAtStart(w.history, c)
             && w.locals.Keys == {0} && w.queues == map[0 := [Delivery(c, 1, 0)]]
    ensures var w' := Run(cfg, start, events);
            ToldSince(cfg, w', c, from, w'.now - 60_000_000 - cfg.maxDelay + 1)
  {
    FiveSteps(cfg, start, a, b, Tick(cfg.maxDelay), Deliver(0), Tick(cfg.maxDelay + 59_999_999));
    ToldAfterSlowDelivery(cfg, Step(cfg, Step(cfg, start, a), b), c, from);
  }

  lemma ToldAtTheEnd(cfg: Config, w: World, c: Content, from: int)
    requires w.now == cfg.maxDelay && LikeCount(w.db, c) == 0 && LikedOnceAtStart(w.history, c)
    requires Held(w, 0, c) == Some(Entry(1, cfg.maxDelay + 60_000_000)) && w.queues == map[0 := []]
    ensures var w' := Step(cfg, w, Tick(cfg.maxDelay + 59_999_999));
            && 0 in w'.locals && w'.now == cfg.maxDelay + 59_999_999
            && (WasTrue(w'.history, c, Told(cfg, w', 0, c), from, w'.now) <==> from <= 0)
  {
    var w' := Step(cfg, w, Tick(cfg.maxDelay + 59_999_999));
    assert MayTick(cfg, w, cfg.maxDelay + 59_999_999);
    assert LikedOnceAtStart(w'.history, c);
    LiveIsTold(cfg, w', 0, c);
    assert from <= 0 ==> from <= w'.history[1].at <= w'.now;
  }

  // ----- Batches -----

  /** Every count a batch answers was true within the staleness bound. */
  lemma BatchCountsWereTrue(cfg: Config, w: World, i: nat, items: seq<Content>)
    requires Kept(cfg, w) && i in w.locals
    ensures var counts := BatchLookup.GetCountInTurn(w.db, w.locals[i], w.redis, items, cfg.ttl, w.now).counts;
            && |counts| == |items|
            && forall k | 0 <= k < |items| ::
                WasTrue(w.history, items[k], counts[k], w.now - 60_000_000 - cfg.maxDelay + 1, w.now)
  {
    BatchLookup.CountInTurnIsPointwise(w.db, w.locals[i], w.redis, items, cfg.ttl, w.now);
    forall k | 0 <= k < |items|
      ensures WasTrue(w.history, items[k], BatchLookup.Counted(w.db, w.locals[i], w.redis, items[k], w.now),
                      w.now - 60_000_000 - cfg.maxDelay + 1, w.now)
    {
      ReadWasTrue(cfg, w, i, items[k]);
    }
  }
}
