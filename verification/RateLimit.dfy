/** Fixed-window rate limiting: the Redis scripts, the per-process read leases and the window keys. */
module RateLimit {
  import opened Finite
  import opened Text

  const U32_MAX: nat := 0xFFFF_FFFF
  const READ_LEASE_SIZE: nat := 50
  const WINDOW_SECONDS: nat := 60

  type U32 = n: nat | n <= 0xFFFF_FFFF

  function SaturatingAdd(a: U32, b: U32): (r: U32)
    ensures a + b <= 0xFFFF_FFFF ==> r == a + b
    ensures a + b > 0xFFFF_FFFF ==> r == 0xFFFF_FFFF
  {
    if a + b <= U32_MAX then a + b else U32_MAX
  }

  function SaturatingSub(a: U32, b: U32): (r: U32)
    ensures b <= a ==> r + b == a
    ensures a < b ==> r == 0
  {
    if b <= a then a - b else 0
  }

  datatype ReadRateLimitLease = Lease(currentFloor: U32, remaining: U32, resetEpochSeconds: nat)

  /** A Redis counter and the time to live that EXPIRE gave it, if any. */
  datatype Counter = Counter(value: nat, ttl: Option<nat>)

  datatype Window = Window(key: string, resetEpochSeconds: nat, retryAfterSeconds: nat)

  function RateLimitWindowKey(scope: string, subject: string, nowSeconds: nat): Window {
    var windowStart := nowSeconds / WINDOW_SECONDS;
    var reset := (windowStart + 1) * WINDOW_SECONDS;
    Window("rate_limit:" + scope + ":" + subject + ":" + Decimal(windowStart), reset, reset - nowSeconds)
  }

  /** Keys are equal exactly when scope, subject and minute are. A key fixes its reset, which is the end of the
      minute, so a lease is never found under a foreign reset. */
  lemma WindowKeyIsTheMinute(scope: string, scope': string, subject: string, subject': string, now: nat, now': nat)
    requires ':' !in scope && ':' !in scope'
    ensures var w, w' := RateLimitWindowKey(scope, subject, now), RateLimitWindowKey(scope', subject', now');
            && 1 <= w.retryAfterSeconds <= 60
            && now + w.retryAfterSeconds == w.resetEpochSeconds && w.resetEpochSeconds % 60 == 0
            && (w.key == w'.key <==> scope == scope' && subject == subject' && now / 60 == now' / 60)
            && (w.key == w'.key ==> w.resetEpochSeconds == w'.resetEpochSeconds)
  {
    var d, d' := Decimal(now / 60), Decimal(now' / 60);
    var w, w' := RateLimitWindowKey(scope, subject, now), RateLimitWindowKey(scope', subject', now');
    assert w.key == "rate_limit:" + (scope + [':'] + (subject + [':'] + d));
    assert w'.key == "rate_limit:" + (scope' + [':'] + (subject' + [':'] + d'));
    if w.key == w'.key {
      SharedPrefix("rate_limit:", scope + [':'] + (subject + [':'] + d), scope' + [':'] + (subject' + [':'] + d'));
      FirstFieldInjective(scope, ':', subject + [':'] + d, scope', subject' + [':'] + d');
      LastFieldInjective(subject, ':', d, subject', d');
      DecimalInjective(now / 60, now' / 60);
    }
  }

  // ----- The two scripts and the lease, one atomic action each -----

  /** INCR with a time to live on first use. */
  function IncrementScript(c: Option<Counter>, ttl: nat): (Counter, nat) {
    var current := (if c.None? then 0 else c.value.value) + 1;
    (Counter(current, if current == 1 then Some(ttl) else if c.None? then None else c.value.ttl), current)
  }

  datatype Reservation = Reservation(counter: Option<Counter>, current: nat, granted: nat)

  /** Reserve up to `requested` tokens below `limit`. */
  function ReserveScript(c: Option<Counter>, ttl: nat, requested: nat, limit: nat): Reservation {
    var current := if c.None? then 0 else c.value.value;
    if limit <= current then Reservation(c, current, 0)
    else
      var granted := if requested < limit - current then requested else limit - current;
      var after := current + granted;
      var kept := if c.None? then None else c.value.ttl;
      Reservation(Some(Counter(after, if after == granted then Some(ttl) else kept)), after, granted)
  }

  datatype Consumption = Consumption(lease: Option<ReadRateLimitLease>, current: Option<U32>)

  /** What `try_consume_read_lease` leaves under a key, and the ordinal it reports. */
  function TryConsume(lease: Option<ReadRateLimitLease>, reset: nat): Consumption {
    if lease.None? || lease.value.resetEpochSeconds != reset || lease.value.remaining == 0 then
      Consumption(None, None)
    else
      var consumed := SaturatingAdd(lease.value.currentFloor, 1);
      var remaining := SaturatingSub(lease.value.remaining, 1);
      Consumption(if remaining == 0 then None else Some(Lease(consumed, remaining, reset)), Some(consumed))
  }

  /** The lease inserted after `granted` tokens brought the counter to `after`. */
  function GrantedLease(after: U32, granted: U32, reset: nat): ReadRateLimitLease {
    Lease(SaturatingSub(after, granted), SaturatingSub(granted, 1), reset)
  }

  datatype Outcome = Outcome(lease: Option<ReadRateLimitLease>, counter: Option<Counter>, current: Option<U32>)

  /** A whole `consume_or_reserve_read_lease` with nothing interleaved; `current` is None when the
      reply does not fit the u32 pair the caller reads (the middleware then fails open). */
  function ConsumeOrReserve(lease: Option<ReadRateLimitLease>, counter: Option<Counter>, limit: U32, reset: nat,
                            ttl: nat): Outcome {
    var c := TryConsume(lease, reset);
    if c.current.Some? then Outcome(c.lease, counter, c.current)
    else
      var r := ReserveScript(counter, ttl, READ_LEASE_SIZE, limit);
      if r.current > U32_MAX then Outcome(c.lease, r.counter, None)
      else if r.granted == 0 then Outcome(c.lease, r.counter, Some(SaturatingAdd(r.current, 1)))
      else
        var l := GrantedLease(r.current, r.granted, reset);
        Outcome(Some(l), r.counter, Some(SaturatingAdd(l.currentFloor, 1)))
  }

  /** The call fails exactly when there is no usable lease and Redis has counted beyond u32. */
  lemma FailsIffBeyondU32(lease: Option<ReadRateLimitLease>, counter: Option<Counter>, limit: U32, reset: nat, ttl: nat)
    ensures var o := ConsumeOrReserve(lease, counter, limit, reset, ttl);
            o.current.None? <==>
              && (lease.None? || lease.value.resetEpochSeconds != reset || lease.value.remaining == 0)
              && counter.Some? && counter.value.value > 0xFFFF_FFFF
  {
  }

  /** The middleware's test. */
  predicate Admits(current: nat, limit: nat) { current <= limit }

  /** The counters Redis holds, updated in place by the scripts. */
  class RedisCounters {
    var counters: map<string, Counter>

    constructor ()
      ensures counters == map[]
    {
      counters := map[];
    }

    method Increment(key: string, ttl: nat) returns (current: nat)
      modifies this
      ensures current == IncrementScript(old(Get(counters, key)), ttl).1
      ensures counters == old(counters)[key := IncrementScript(old(Get(counters, key)), ttl).0]
    {
      var had := key in counters;
      current := 1;
      if had { current := counters[key].value + 1; }
      var ttl' := if current == 1 then Some(ttl) else if had then counters[key].ttl else None;
      counters := counters[key := Counter(current, ttl')];
    }

    method Reserve(key: string, ttl: nat, requested: nat, limit: nat) returns (current: nat, granted: nat)
      modifies this
      ensures var r := ReserveScript(old(Get(counters, key)), ttl, requested, limit);
              current == r.current && granted == r.granted && counters == Put(old(counters), key, r.counter)
    {
      current := 0;
      var kept := None;
      if key in counters { current, kept := counters[key].value, counters[key].ttl; }
      var remaining := limit - current;
      if remaining <= 0 {
        assert counters == Put(counters, key, Get(counters, key));
        return current, 0;
      }
      granted := if requested < remaining then requested else remaining;
      current := current + granted;
      counters := counters[key := Counter(current, if current == granted then Some(ttl) else kept)];
    }
  }

  /** One process: its lease table, in front of the shared counters. */
  class ReadLimiter {
    var leases: map<string, ReadRateLimitLease>
    const redis: RedisCounters

    constructor (redis: RedisCounters)
      ensures leases == map[] && this.redis == redis
    {
      this.leases, this.redis := map[], redis;
    }

    method TryConsumeReadLease(key: string, reset: nat) returns (current: Option<U32>)
      modifies this
      ensures var c := TryConsume(old(Get(leases, key)), reset);
              current == c.current && leases == Put(old(leases), key, c.lease)
    {
      if key !in leases {
        assert leases == leases - {key};
        return None;
      }
      var lease := leases[key];
      if lease.resetEpochSeconds != reset || lease.remaining == 0 {
        leases := leases - {key};
        return None;
      }
      var consumed := SaturatingAdd(lease.currentFloor, 1);
      lease := lease.(currentFloor := consumed, remaining := SaturatingSub(lease.remaining, 1));
      leases := leases[key := lease];
      if lease.remaining == 0 {
        leases := leases - {key};
        assert leases == old(leases) - {key};
      }
      current := Some(consumed);
    }

    method ConsumeOrReserveReadLease(key: string, limit: U32, reset: nat, ttl: nat) returns (current: Option<U32>)
      modifies this, redis
      ensures var o := ConsumeOrReserve(old(Get(leases, key)), old(Get(redis.counters, key)), limit, reset, ttl);
              && current == o.current
              && leases == Put(old(leases), key, o.lease)
              && redis.counters == Put(old(redis.counters), key, o.counter)
    {
      assert redis.counters == Put(redis.counters, key, Get(redis.counters, key));
      current := TryConsumeReadLease(key, reset);
      if current.Some? { return; }
      var after, granted := redis.Reserve(key, ttl, READ_LEASE_SIZE, limit);
      if after > U32_MAX { return None; }
      if granted == 0 { return Some(SaturatingAdd(after, 1)); }
      var lease := GrantedLease(after, granted, reset);
      leases := leases[key := lease];
      assert leases == Put(old(leases), key, Some(lease));
      current := Some(SaturatingAdd(lease.currentFloor, 1));
    }
  }

  // ----- Any number of processes and requests, interleaved between the atomic actions -----

  datatype Phase = Reserving | Inserting(after: U32, granted: U32)

  datatype Request = Request(instance: nat, now: nat, phase: Phase)

  /** Everything about one read key. `lost` counts tokens in leases that a late insert overwrote,
      `forgotten` counts tokens of counters that Redis expired. */
  datatype KeyState = KeyState(
    counter: Option<Counter>,
    leases: map<nat, ReadRateLimitLease>,
    requests: map<nat, Request>,
    admitted: seq<nat>,
    rejected: nat,
    lost: nat,
    forgotten: nat,
    expiries: nat)

  datatype Event =
    | Arrive(id: nat, instance: nat, now: nat)
    | Reserve(id: nat)
    | Insert(id: nat)
    | ExpireKey

  const IDLE := KeyState(None, map[], map[], [], 0, 0, 0, 0)

  predicate InWindow(now: nat, reset: nat) {
    (now / WINDOW_SECONDS + 1) * WINDOW_SECONDS == reset
  }

  function Decide(s: KeyState, limit: U32, now: nat, current: U32): KeyState {
    if Admits(current, limit) then s.(admitted := s.admitted + [now]) else s.(rejected := s.rejected + 1)
  }

  function ArriveStep(s: KeyState, limit: U32, reset: nat, id: nat, i: nat, now: nat): KeyState {
    if id in s.requests || !InWindow(now, reset) then s
    else
      var c := TryConsume(Get(s.leases, i), reset);
      var s' := s.(leases := Put(s.leases, i, c.lease));
      if c.current.Some? then Decide(s', limit, now, c.current.value)
      else s'.(requests := s'.requests[id := Request(i, now, Reserving)])
  }

  function ReserveStep(s: KeyState, limit: U32, reset: nat, id: nat): KeyState {
    if id !in s.requests || !s.requests[id].phase.Reserving? then s
    else
      var q := s.requests[id];
      var ttl := if q.now <= reset then reset - q.now else 0;
      var r := ReserveScript(s.counter, ttl, READ_LEASE_SIZE, limit);
      if r.current > U32_MAX then s.(requests := s.requests - {id})
      else if r.granted == 0 then
        Decide(s.(requests := s.requests - {id}), limit, q.now, SaturatingAdd(r.current, 1))
      else
        s.(counter := r.counter, requests := s.requests[id := q.(phase := Inserting(r.current, r.granted))])
  }

  function InsertStep(s: KeyState, limit: U32, reset: nat, id: nat): KeyState {
    if id !in s.requests || !s.requests[id].phase.Inserting? then s
    else
      var q := s.requests[id];
      var l := GrantedLease(q.phase.after, q.phase.granted, reset);
      var over := if q.instance in s.leases then s.leases[q.instance].remaining else 0;
      Decide(s.(leases := s.leases[q.instance := l], requests := s.requests - {id}, lost := s.lost + over),
             limit, q.now, SaturatingAdd(l.currentFloor, 1))
  }

  function Step(s: KeyState, limit: U32, reset: nat, e: Event): KeyState {
    match e
    case Arrive(id, i, now) => ArriveStep(s, limit, reset, id, i, now)
    case Reserve(id) => ReserveStep(s, limit, reset, id)
    case Insert(id) => InsertStep(s, limit, reset, id)
    case ExpireKey =>
      if s.counter.None? then s
      else s.(counter := None, forgotten := s.forgotten + s.counter.value.value, expiries := s.expiries + 1)
  }

  function Run(limit: U32, reset: nat, events: seq<Event>): KeyState {
    if events == [] then IDLE
    else Step(Run(limit, reset, events[..|events| - 1]), limit, reset, events[|events| - 1])
  }

  function Remaining(lease: Option<ReadRateLimitLease>): nat {
    if lease.None? then 0 else lease.value.remaining
  }

  function Carried(q: Option<Request>): nat {
    if q.Some? && q.value.phase.Inserting? then q.value.phase.granted else 0
  }

  ghost function LeaseTokens(leases: map<nat, ReadRateLimitLease>): nat {
    Sum<nat>(map i | i in leases :: leases[i].remaining)
  }

  ghost function RequestTokens(requests: map<nat, Request>): nat {
    Sum<nat>(map id | id in requests :: Carried(Some(requests[id])))
  }

  lemma LeaseTokensPut(leases: map<nat, ReadRateLimitLease>, i: nat, lease: Option<ReadRateLimitLease>)
    ensures LeaseTokens(Put(leases, i, lease)) + Remaining(Get(leases, i)) == LeaseTokens(leases) + Remaining(lease)
  {
    var before: map<nat, nat> := map i | i in leases :: leases[i].remaining;
    var put := Put(leases, i, lease);
    var after: map<nat, nat> := map i | i in put :: put[i].remaining;
    match lease
    case None =>
      SumDrop<nat>(before, i);
      assert after == before - {i};
    case Some(l) =>
      SumPut<nat>(before, i, l.remaining);
      assert after == before[i := l.remaining];
  }

  lemma RequestTokensPut(requests: map<nat, Request>, id: nat, q: Option<Request>)
    ensures RequestTokens(Put(requests, id, q)) + Carried(Get(requests, id)) == RequestTokens(requests) + Carried(q)
  {
    var before: map<nat, nat> := map id | id in requests :: Carried(Some(requests[id]));
    var put := Put(requests, id, q);
    var after: map<nat, nat> := map id | id in put :: Carried(Some(put[id]));
    match q
    case None =>
      SumDrop<nat>(before, id);
      assert after == before - {id};
    case Some(_) =>
      SumPut<nat>(before, id, Carried(q));
      assert after == before[id := Carried(q)];
  }

  function Value(c: Option<Counter>): nat {
    if c.None? then 0 else c.value.value
  }

  /** Every token the counter ever granted is admitted, in a lease, in flight or lost. */
  ghost predicate Conserved(s: KeyState) {
    Value(s.counter) + s.forgotten
    == |s.admitted| + LeaseTokens(s.leases) + RequestTokens(s.requests) + s.lost
  }

  /** No lease can report an ordinal above the limit; grants are below the limit. */
  ghost predicate WellFormed(s: KeyState, limit: U32, reset: nat) {
    && Value(s.counter) <= limit
    && (s.counter.Some? ==> s.counter.value.value > 0 && s.counter.value.ttl.Some?)
    && s.forgotten <= Times(s.expiries, limit)
    && (forall i | i in s.leases ::
          s.leases[i].resetEpochSeconds == reset && s.leases[i].currentFloor + s.leases[i].remaining < limit)
    && (forall id | id in s.requests && s.requests[id].phase.Inserting? ::
          0 < s.requests[id].phase.granted <= s.requests[id].phase.after <= limit)
    && (forall id | id in s.requests :: InWindow(s.requests[id].now, reset))
    && (forall k | 0 <= k < |s.admitted| :: InWindow(s.admitted[k], reset))
  }

  lemma ArriveWellFormed(s: KeyState, limit: U32, reset: nat, id: nat, i: nat, now: nat)
    requires WellFormed(s, limit, reset)
    ensures WellFormed(ArriveStep(s, limit, reset, id, i, now), limit, reset)
  {
  }

  /** A consumed token is always admitted, so none is spent on a rejection. */
  lemma ArriveConserves(s: KeyState, limit: U32, reset: nat, id: nat, i: nat, now: nat)
    requires WellFormed(s, limit, reset) && Conserved(s)
    ensures Conserved(ArriveStep(s, limit, reset, id, i, now))
  {
    if id !in s.requests && InWindow(now, reset) {
      LeaseTokensPut(s.leases, i, TryConsume(Get(s.leases, i), reset).lease);
      RequestTokensPut(s.requests, id, Some(Request(i, now, Reserving)));
    }
  }

  lemma ReserveWellFormed(s: KeyState, limit: U32, reset: nat, id: nat)
    requires limit < U32_MAX && WellFormed(s, limit, reset)
    ensures WellFormed(ReserveStep(s, limit, reset, id), limit, reset)
  {
  }

  lemma ReserveConserves(s: KeyState, limit: U32, reset: nat, id: nat)
    requires limit < U32_MAX && WellFormed(s, limit, reset) && Conserved(s)
    ensures Conserved(ReserveStep(s, limit, reset, id))
  {
    if id in s.requests && s.requests[id].phase.Reserving? {
      RequestTokensPut(s.requests, id, Get(ReserveStep(s, limit, reset, id).requests, id));
    }
  }

  lemma InsertWellFormed(s: KeyState, limit: U32, reset: nat, id: nat)
    requires WellFormed(s, limit, reset)
    ensures WellFormed(InsertStep(s, limit, reset, id), limit, reset)
  {
  }

  lemma InsertConserves(s: KeyState, limit: U32, reset: nat, id: nat)
    requires WellFormed(s, limit, reset) && Conserved(s)
    ensures Conserved(InsertStep(s, limit, reset, id))
  {
    if id in s.requests && s.requests[id].phase.Inserting? {
      var q := s.requests[id];
      RequestTokensPut(s.requests, id, None);
      LeaseTokensPut(s.leases, q.instance, Some(GrantedLease(q.phase.after, q.phase.granted, reset)));
    }
  }

  /** Safety of the read limiter under every interleaving. */
  lemma {:induction false} EveryRunConserves(limit: U32, reset: nat, events: seq<Event>)
    requires limit < U32_MAX
    ensures var s := Run(limit, reset, events);
            WellFormed(s, limit, reset) && Conserved(s)
  {
    if events == [] {
      assert LeaseTokens(map[]) == 0 && RequestTokens(map[]) == 0;
    } else {
      EveryRunConserves(limit, reset, events[..|events| - 1]);
      var s := Run(limit, reset, events[..|events| - 1]);
      match events[|events| - 1]
      case Arrive(id, i, now) =>
        ArriveWellFormed(s, limit, reset, id, i, now);
        ArriveConserves(s, limit, reset, id, i, now);
      case Reserve(id) =>
        ReserveWellFormed(s, limit, reset, id);
        ReserveConserves(s, limit, reset, id);
      case Insert(id) =>
        InsertWellFormed(s, limit, reset, id);
        InsertConserves(s, limit, reset, id);
      case ExpireKey =>
    }
  }

  // ----- How long the key lives -----

  /** Redis holds the counter from `now` to the reset. */
  predicate HeldUntil(c: Option<Counter>, now: nat, reset: nat) {
    c.Some? && c.value.ttl.Some? && now + c.value.ttl.value == reset
  }

  /** The request of events[n] arrived at `now`. */
  ghost predicate ArrivedAt(events: seq<Event>, n: nat, now: nat) {
    && n < |events| && events[n].Reserve?
    && exists m, i :: 0 <= m < n && events[m] == Arrive(events[n].id, i, now)
  }

  /** events[n], of a request that arrived at `now`, created the counter; it has been there since, and lives from
      that instant to the reset. */
  ghost predicate LivesFrom(limit: U32, reset: nat, events: seq<Event>, n: nat, now: nat) {
    && ArrivedAt(events, n, now) && Run(limit, reset, events[..n]).counter.None?
    && (forall k | n < k <= |events| :: HeldUntil(Run(limit, reset, events[..k]).counter, now, reset))
    && 1 <= reset - now <= 60 && reset % 60 == 0
  }

  /** Only its own arrival puts a request there, and its instant never changes. */
  lemma StepKeepsArrival(s: KeyState, limit: U32, reset: nat, e: Event, id: nat)
    requires id in Step(s, limit, reset, e).requests
    ensures var q := Step(s, limit, reset, e).requests[id];
            if id in s.requests then q.now == s.requests[id].now
            else e == Arrive(id, q.instance, q.now) && 1 <= reset - q.now <= 60 && reset % 60 == 0
  {
  }

  lemma {:induction false} RequestsArrived(limit: U32, reset: nat, events: seq<Event>, id: nat)
    requires id in Run(limit, reset, events).requests
    ensures var now := Run(limit, reset, events).requests[id].now;
            && (exists m, i :: 0 <= m < |events| && events[m] == Arrive(id, i, now))
            && 1 <= reset - now <= 60 && reset % 60 == 0
  {
    var n := |events| - 1;
    var before, now := Run(limit, reset, events[..n]), Run(limit, reset, events).requests[id].now;
    StepKeepsArrival(before, limit, reset, events[n], id);
    if id in before.requests {
      RequestsArrived(limit, reset, events[..n], id);
      var m, i :| 0 <= m < n && events[..n][m] == Arrive(id, i, now);
      assert events[m] == Arrive(id, i, now);
    } else {
      assert events[n] == Arrive(id, events[n].instance, now);
    }
  }

  lemma LivesOn(limit: U32, reset: nat, events: seq<Event>, n: nat, now: nat)
    requires events != [] && LivesFrom(limit, reset, events[..|events| - 1], n, now)
    requires HeldUntil(Run(limit, reset, events).counter, now, reset)
    ensures LivesFrom(limit, reset, events, n, now)
  {
    var last := |events| - 1;
    var m, i :| 0 <= m < n && events[..last][m] == Arrive(events[..last][n].id, i, now);
    assert events[m] == Arrive(events[n].id, i, now) && events[..last][..n] == events[..n];
    forall k | n < k <= |events| ensures HeldUntil(Run(limit, reset, events[..k]).counter, now, reset) {
      if k <= last { assert events[..last][..k] == events[..k]; } else { assert events[..k] == events; }
    }
  }

  /** A counter that Redis holds was created by some request, and lives from that request's instant to the reset;
      no later reservation moves its end. */
  lemma {:induction false} CounterLivesToTheReset(limit: U32, reset: nat, events: seq<Event>)
    ensures Run(limit, reset, events).counter.Some? ==>
              && Run(limit, reset, events).counter.value.value > 0
              && exists n: nat, now: nat :: LivesFrom(limit, reset, events, n, now)
  {
    if events != [] {
      var n := |events| - 1;
      CounterLivesToTheReset(limit, reset, events[..n]);
      var before, after := Run(limit, reset, events[..n]), Run(limit, reset, events);
      if before.counter.Some? && after.counter.Some? {
        var k: nat, now: nat :| LivesFrom(limit, reset, events[..n], k, now);
        assert HeldUntil(Run(limit, reset, events[..n][..n]).counter, now, reset) && events[..n][..n] == events[..n];
        LivesOn(limit, reset, events, k, now);
      } else if after.counter.Some? {
        var id := events[n].id;
        var now := before.requests[id].now;
        RequestsArrived(limit, reset, events[..n], id);
        var m, i :| 0 <= m < n && events[..n][m] == Arrive(id, i, now);
        assert events[m] == Arrive(id, i, now) && events[..|events|] == events;
        assert LivesFrom(limit, reset, events, n, now);
      }
    }
  }

  /** Where the run lost the key. */
  ghost function ExpiredAt(events: seq<Event>): set<nat> {
    set k: nat | k < |events| && events[k].ExpireKey?
  }

  lemma {:induction false} ExpiriesAreEvents(limit: U32, reset: nat, events: seq<Event>)
    ensures Run(limit, reset, events).expiries <= |ExpiredAt(events)|
  {
    if events != [] {
      var n := |events| - 1;
      ExpiriesAreEvents(limit, reset, events[..n]);
      assert ExpiredAt(events) == ExpiredAt(events[..n]) + if events[n].ExpireKey? then {n} else {};
    }
  }

  /** All processes together admit at most `limit` requests while Redis keeps the key, and at most
      `limit` more for each time the key is lost. */
  lemma AdmittedWithinLimit(limit: U32, reset: nat, events: seq<Event>)
    requires limit < U32_MAX
    ensures var s := Run(limit, reset, events);
            && |s.admitted| <= (|ExpiredAt(events)| + 1) * limit
            && (s.expiries == 0 ==> |s.admitted| <= Value(s.counter) <= limit)
  {
    EveryRunConserves(limit, reset, events);
    ExpiriesAreEvents(limit, reset, events);
    var s := Run(limit, reset, events);
    TimesMonotone(s.expiries + 1, |ExpiredAt(events)| + 1, limit);
    TimesIsProduct(|ExpiredAt(events)| + 1, limit);
  }

  /** The bound needs limit < 2^32 - 1: once the counter has reached the limit, the request that finds
      it so is rejected exactly when adding one to the limit does not saturate. */
  lemma ExhaustedRejectsIff(s: KeyState, limit: U32, reset: nat, id: nat)
    requires WellFormed(s, limit, reset) && Conserved(s)
    requires id in s.requests && s.requests[id].phase.Reserving? && Value(s.counter) == limit
    ensures var s' := ReserveStep(s, limit, reset, id);
            && (s'.rejected == s.rejected + 1 && s'.admitted == s.admitted <==> limit < U32_MAX)
            && (Conserved(s') <==> limit < U32_MAX)
  {
    var s' := ReserveStep(s, limit, reset, id);
    RequestTokensPut(s.requests, id, None);
    assert s'.admitted == s.admitted || |s'.admitted| == |s.admitted| + 1;
  }

  function Rounds(n: nat): seq<Event> {
    if n == 0 then [] else Rounds(n - 1) + [Arrive(n - 1, n - 1, 0)] + [Reserve(n - 1)] + [Insert(n - 1)]
  }

  /** n requests were admitted, one per process, and none is in flight. */
  ghost predicate AfterRounds(s: KeyState, n: nat) {
    && |s.admitted| == n && s.requests == map[] && s.expiries == 0
    && Value(s.counter) == (if READ_LEASE_SIZE * n < U32_MAX then READ_LEASE_SIZE * n else U32_MAX)
    && (forall i | i in s.leases :: i < n)
  }

  lemma RunStep(limit: U32, reset: nat, events: seq<Event>, e: Event)
    ensures Run(limit, reset, events + [e]) == Step(Run(limit, reset, events), limit, reset, e)
  {
    assert (events + [e])[..|events|] == events;
  }

  /** A request on a process without a lease, at the largest limit, is admitted whatever the counter holds. */
  lemma OneRound(s: KeyState, n: nat)
    requires AfterRounds(s, n)
    ensures var s1 := ArriveStep(s, U32_MAX, 60, n, n, 0);
            AfterRounds(InsertStep(ReserveStep(s1, U32_MAX, 60, n), U32_MAX, 60, n), n + 1)
  {
    var s1 := ArriveStep(s, U32_MAX, 60, n, n, 0);
    assert s1.requests == map[n := Request(n, 0, Reserving)] && s1.leases == s.leases;
    var s2 := ReserveStep(s1, U32_MAX, 60, n);
    if n in s2.requests { assert s2.requests - {n} == map[]; } else { assert s2.requests == map[]; }
  }

  lemma {:induction false} RoundsAdmitAll(n: nat)
    ensures AfterRounds(Run(U32_MAX, 60, Rounds(n)), n)
  {
    if n > 0 {
      RoundsAdmitAll(n - 1);
      var events := Rounds(n - 1);
      RunStep(U32_MAX, 60, events, Arrive(n - 1, n - 1, 0));
      RunStep(U32_MAX, 60, events + [Arrive(n - 1, n - 1, 0)], Reserve(n - 1));
      RunStep(U32_MAX, 60, events + [Arrive(n - 1, n - 1, 0)] + [Reserve(n - 1)], Insert(n - 1));
      OneRound(Run(U32_MAX, 60, events), n - 1);
    }
  }

  /** Some run on one key that Redis keeps admits more than `limit` requests. */
  ghost predicate Overruns(limit: U32) {
    exists reset, events :: Run(limit, reset, events).expiries == 0 && |Run(limit, reset, events).admitted| > limit
  }

  /** The admission bound holds for every limit but 2^32 - 1, where the test compares a saturated ordinal with
      the limit and rejects nothing. */
  lemma BoundHoldsIff(limit: U32)
    ensures !Overruns(limit) <==> limit < 0xFFFF_FFFF
  {
    if limit < U32_MAX {
      forall reset, events | Run(limit, reset, events).expiries == 0
        ensures |Run(limit, reset, events).admitted| <= limit
      {
        AdmittedWithinLimit(limit, reset, events);
      }
    } else {
      RoundsAdmitAll(U32_MAX + 1);
      assert Run(limit, 60, Rounds(U32_MAX + 1)).expiries == 0;
    }
  }

  // ----- One process serving requests one after another -----

  /** Reserve then Insert, for a request that found no lease. */
  lemma ReserveThenInsert(s: KeyState, limit: U32, reset: nat, id: nat)
    requires limit < U32_MAX && Value(s.counter) <= limit
    requires id in s.requests && s.requests[id].phase.Reserving? && s.requests[id].instance !in s.leases
    requires InWindow(s.requests[id].now, reset)
    ensures var q := s.requests[id];
            var o := ConsumeOrReserve(None, s.counter, limit, reset, reset - q.now);
            var done := s.(requests := s.requests - {id}, leases := Put(s.leases, q.instance, o.lease),
                           counter := o.counter);
            && o.current.Some?
            && InsertStep(ReserveStep(s, limit, reset, id), limit, reset, id)
               == Decide(done, limit, q.now, o.current.value)
  {
    var q := s.requests[id];
    var s' := ReserveStep(s, limit, reset, id);
    if id in s'.requests {
      assert s'.requests - {id} == s.requests - {id};
    } else {
      assert s.leases - {q.instance} == s.leases;
    }
  }

  /** With nothing interleaved, the three atomic actions of a request amount to
      `consume_or_reserve_read_lease`, and they lose no token. */
  lemma ActionsComposeToTheCall(s: KeyState, limit: U32, reset: nat, id: nat, i: nat, now: nat)
    requires limit < U32_MAX && WellFormed(s, limit, reset)
    requires id !in s.requests && InWindow(now, reset)
    ensures var o := ConsumeOrReserve(Get(s.leases, i), s.counter, limit, reset, reset - now);
            var s1 := ArriveStep(s, limit, reset, id, i, now);
            var s' := InsertStep(ReserveStep(s1, limit, reset, id), limit, reset, id);
            && o.current.Some?
            && s' == Decide(s.(leases := Put(s.leases, i, o.lease), counter := o.counter), limit, now, o.current.value)
  {
    if TryConsume(Get(s.leases, i), reset).current.None? { ArriveReserveInsert(s, limit, reset, id, i, now); }
  }

  lemma ArriveReserveInsert(s: KeyState, limit: U32, reset: nat, id: nat, i: nat, now: nat)
    requires limit < U32_MAX && WellFormed(s, limit, reset)
    requires id !in s.requests && InWindow(now, reset) && TryConsume(Get(s.leases, i), reset).current.None?
    ensures var o := ConsumeOrReserve(Get(s.leases, i), s.counter, limit, reset, reset - now);
            var s1 := ArriveStep(s, limit, reset, id, i, now);
            var s' := InsertStep(ReserveStep(s1, limit, reset, id), limit, reset, id);
            && o.current.Some?
            && s' == Decide(s.(leases := Put(s.leases, i, o.lease), counter := o.counter), limit, now, o.current.value)
  {
    var s1 := ArriveStep(s, limit, reset, id, i, now);
    ReserveThenInsert(s1, limit, reset, id);
    assert s1.requests - {id} == s.requests;
    UnusableLeaseIsNone(Get(s.leases, i), s.counter, limit, reset, reset - now);
    PutTwice(s.leases, i, None, ConsumeOrReserve(None, s.counter, limit, reset, reset - now).lease);
  }

  /** A lease that has expired or run out is as good as none. */
  lemma UnusableLeaseIsNone(lease: Option<ReadRateLimitLease>, counter: Option<Counter>, limit: U32, reset: nat,
                            ttl: nat)
    requires TryConsume(lease, reset).current.None?
    ensures ConsumeOrReserve(lease, counter, limit, reset, ttl) == ConsumeOrReserve(None, counter, limit, reset, ttl)
    ensures TryConsume(lease, reset).lease.None?
  {
  }

  lemma PutTwice<K, V>(m: map<K, V>, k: K, v: Option<V>, w: Option<V>)
    ensures Put(Put(m, k, v), k, w) == Put(m, k, w)
  {
  }

  datatype Served = Served(lease: Option<ReadRateLimitLease>, counter: Option<Counter>, reported: seq<Option<U32>>)

  /** Requests served in order on one process; ttls[k] is request k's time to the reset. */
  function Serve(limit: U32, reset: nat, ttls: seq<nat>): Served {
    if ttls == [] then Served(None, None, [])
    else
      var before := Serve(limit, reset, ttls[..|ttls| - 1]);
      var o := ConsumeOrReserve(before.lease, before.counter, limit, reset, ttls[|ttls| - 1]);
      Served(o.lease, o.counter, before.reported + [o.current])
  }

  /** The ordinal reported to the i-th request: the first of each block of 50 is told its own ordinal,
      the others one less, because the lease keeps the floor it had before that first request. */
  function ReportedOrdinal(limit: nat, i: nat): nat
    requires i >= 1
  {
    if i > limit then limit + 1 else if (i - 1) % 50 == 0 then i else i - 1
  }

  /** The tokens reserved by the first n requests if there is no limit. */
  function Blocks(n: nat): nat {
    if n == 0 then 0 else 50 * ((n - 1) / 50 + 1)
  }

  lemma NextBlock(n: nat)
    ensures n <= Blocks(n)
    ensures Blocks(n) == n <==> n % 50 == 0
    ensures Blocks(n + 1) == if Blocks(n) == n then n + 50 else Blocks(n)
  {
  }

  /** The lease and the counter once n requests were served in order. */
  ghost predicate AfterRequests(lease: Option<ReadRateLimitLease>, counter: Option<Counter>, limit: U32, reset: nat,
                                n: nat) {
    var value := if Blocks(n) < limit then Blocks(n) else limit;
    && Value(counter) == value
    && (if n < value then lease == Some(Lease(n - 1, value - n, reset)) else Remaining(lease) == 0)
    && (lease.Some? ==> lease.value.resetEpochSeconds == reset)
  }

  lemma NextRequest(s: Served, limit: U32, reset: nat, n: nat, ttl: nat)
    requires limit < U32_MAX && AfterRequests(s.lease, s.counter, limit, reset, n)
    ensures var o := ConsumeOrReserve(s.lease, s.counter, limit, reset, ttl);
            && o.current == Some(ReportedOrdinal(limit, n + 1))
            && AfterRequests(o.lease, o.counter, limit, reset, n + 1)
  {
    NextBlock(n);
  }

  /** Every answer of a sequential run is the one `ReportedOrdinal` gives. */
  lemma {:induction false} ServesInOrder(limit: U32, reset: nat, ttls: seq<nat>)
    requires limit < U32_MAX
    ensures var s := Serve(limit, reset, ttls);
            && |s.reported| == |ttls|
            && AfterRequests(s.lease, s.counter, limit, reset, |ttls|)
            && forall i | 0 <= i < |ttls| :: s.reported[i] == Some(ReportedOrdinal(limit, i + 1))
  {
    if ttls != [] {
      var n := |ttls| - 1;
      ServesInOrder(limit, reset, ttls[..n]);
      NextRequest(Serve(limit, reset, ttls[..n]), limit, reset, n, ttls[n]);
    }
  }

  /** The leased limiter decides as a plain counter would: request i is admitted iff i <= limit, and
      an admitted request is told i or i - 1. */
  lemma DecidesLikeAPlainCounter(limit: U32, reset: nat, ttls: seq<nat>, i: nat)
    requires limit < U32_MAX && 1 <= i <= |ttls|
    ensures |Serve(limit, reset, ttls).reported| == |ttls|
    ensures var current := Serve(limit, reset, ttls).reported[i - 1];
            && current.Some?
            && (Admits(current.value, limit) <==> i <= limit)
            && (i <= limit ==> i - 1 <= current.value <= i)
  {
    ServesInOrder(limit, reset, ttls);
  }

  // ----- From fixed windows to any span of seconds -----

  function CountBetween(log: seq<nat>, from: nat, to: nat): (c: nat)
    ensures c <= |log|
  {
    if log == [] then 0
    else (if from <= log[0] < to then 1 else 0) + CountBetween(log[1..], from, to)
  }

  lemma {:induction false} NoneBetween(log: seq<nat>, from: nat, to: nat)
    requires forall k | 0 <= k < |log| :: !(from <= log[k] < to)
    ensures CountBetween(log, from, to) == 0
  {
    if log != [] { NoneBetween(log[1..], from, to); }
  }

  ghost function WindowsBetween(lo: nat, hi: nat): (ws: set<nat>)
    ensures forall w :: w in ws <==> lo <= w < hi
    ensures |ws| == if lo < hi then hi - lo else 0
  {
    if lo < hi then WindowsBetween(lo, hi - 1) + {hi - 1} else {}
  }

  /** How many windows a span of `len` seconds can touch: ceil((len - 1) / 60) + 1. */
  function WindowsTouched(len: nat): nat
    requires len >= 1
  {
    (len - 1 + 59) / 60 + 1
  }

  ghost function AdmittedBetween(logs: map<nat, seq<nat>>, from: nat, to: nat): nat {
    Sum<nat>(map w | w in logs :: CountBetween(logs[w], from, to))
  }

  ghost predicate LogOf(log: seq<nat>, w: nat, limit: nat) {
    |log| <= limit && forall k | 0 <= k < |log| :: log[k] / 60 == w
  }

  /** logs[w] holds the instants admitted under window w's key. */
  ghost predicate PerWindow(logs: map<nat, seq<nat>>, limit: nat) {
    forall w | w in logs :: LogOf(logs[w], w, limit)
  }

  /** Any `len` consecutive seconds admit at most (ceil((len - 1) / 60) + 1) * limit requests. */
  lemma SlidingBound(logs: map<nat, seq<nat>>, limit: nat, from: nat, len: nat)
    requires len >= 1 && PerWindow(logs, limit)
    ensures AdmittedBetween(logs, from, from + len) <= WindowsTouched(len) * limit
  {
    var lo, hi := from / 60, (from + len - 1) / 60 + 1;
    var counts: map<nat, nat> := map w | w in logs :: CountBetween(logs[w], from, from + len);
    var touched := WindowsBetween(lo, hi);
    forall w | w in counts
      ensures counts[w] <= limit && (w in touched || counts[w] == 0)
    {
      assert LogOf(logs[w], w, limit);
      if w !in touched { NoneBetween(logs[w], from, from + len); }
    }
    SumBounded<nat>(counts, touched, limit);
    TimesIsProduct(hi - lo, limit);
    TimesMonotone(hi - lo, WindowsTouched(len), limit);
    TimesIsProduct(WindowsTouched(len), limit);
  }

  function ResetOf(w: nat): nat { (w + 1) * WINDOW_SECONDS }

  /** The instants admitted for one subject; events[w] are the actions on its key for minute w. */
  ghost function ReadLogs(limit: U32, events: map<nat, seq<Event>>): map<nat, seq<nat>> {
    map w | w in events :: Run(limit, ResetOf(w), events[w]).admitted
  }

  lemma ReadLog(limit: U32, w: nat, events: seq<Event>)
    requires limit < U32_MAX && Run(limit, ResetOf(w), events).expiries == 0
    ensures LogOf(Run(limit, ResetOf(w), events).admitted, w, limit)
  {
    AdmittedWithinLimit(limit, ResetOf(w), events);
    EveryRunConserves(limit, ResetOf(w), events);
    var log := Run(limit, ResetOf(w), events).admitted;
    forall k | 0 <= k < |log| ensures log[k] / 60 == w {
      assert InWindow(log[k], ResetOf(w));
    }
  }

  /** The read limiter, Redis keeping every key for its minute. */
  lemma ReadSlidingBound(limit: U32, events: map<nat, seq<Event>>, from: nat, len: nat)
    requires limit < U32_MAX && len >= 1
    requires forall w | w in events :: Run(limit, ResetOf(w), events[w]).expiries == 0
    ensures AdmittedBetween(ReadLogs(limit, events), from, from + len) <= WindowsTouched(len) * limit
  {
    var logs := ReadLogs(limit, events);
    forall w | w in logs ensures LogOf(logs[w], w, limit) {
      ReadLog(limit, w, events[w]);
    }
    SlidingBound(logs, limit, from, len);
  }

  datatype WriteEvent = Hit(now: nat) | KeyLost

  datatype WriteState = WriteState(counter: Option<Counter>, admitted: seq<nat>, losses: nat)

  /** What the Redis client makes of a reply that does not fit u32: an error, at which the middleware fails open,
      or the reply modulo 2^32. */
  datatype OverflowRule = Refused | Wrapped

  /** The write middleware's decision. */
  predicate AdmitsWrite(rule: OverflowRule, reply: nat, limit: U32) {
    match rule
    case Refused => reply > U32_MAX || Admits(reply, limit)
    case Wrapped => Admits(reply % (U32_MAX + 1), limit)
  }

  function WriteStep(s: WriteState, rule: OverflowRule, limit: U32, reset: nat, e: WriteEvent): WriteState {
    match e
    case Hit(now) =>
      var (counter, reply) := IncrementScript(s.counter, if now <= reset then reset - now else 0);
      var admitted := if AdmitsWrite(rule, reply, limit) then s.admitted + [now] else s.admitted;
      s.(counter := Some(counter), admitted := admitted)
    case KeyLost => if s.counter.None? then s else s.(counter := None, losses := s.losses + 1)
  }

  /** The write limiter on one key: every request increments, whoever sends it. */
  function WriteRun(rule: OverflowRule, limit: U32, reset: nat, events: seq<WriteEvent>): WriteState {
    if events == [] then WriteState(None, [], 0)
    else WriteStep(WriteRun(rule, limit, reset, events[..|events| - 1]), rule, limit, reset, events[|events| - 1])
  }

  /** The instants of the requests among the events. */
  function Hits(events: seq<WriteEvent>): seq<nat> {
    if events == [] then []
    else
      var before, e := Hits(events[..|events| - 1]), events[|events| - 1];
      if e.Hit? then before + [e.now] else before
  }

  function Prefix(s: seq<nat>, n: nat): seq<nat> { if |s| <= n then s else s[..n] }

  function Beyond(s: seq<nat>, n: nat): seq<nat> { if |s| <= n then [] else s[n..] }

  lemma OneMoreHit(hits: seq<nat>, now: nat, n: nat)
    ensures Prefix(hits + [now], n) == if |hits| < n then hits + [now] else Prefix(hits, n)
    ensures Beyond(hits + [now], n) == if |hits| < n then [] else Beyond(hits, n) + [now]
  {
    if |hits| == n { assert (hits + [now])[n..] == [now]; }
  }

  /** What one key has seen while Redis kept it. */
  ghost predicate PrefixAdmitted(s: WriteState, rule: OverflowRule, limit: U32, hits: seq<nat>) {
    && Value(s.counter) == |hits|
    && (s.counter.Some? ==> s.counter.value.ttl.Some?)
    && (|hits| <= U32_MAX ==> s.admitted == Prefix(hits, limit))
    && (|hits| > U32_MAX ==> |s.admitted| > limit)
    && (rule.Refused? ==> s.admitted == Prefix(hits, limit) + Beyond(hits, U32_MAX))
  }

  lemma HitKeepsPrefix(s: WriteState, rule: OverflowRule, limit: U32, reset: nat, hits: seq<nat>, now: nat)
    requires PrefixAdmitted(s, rule, limit, hits)
    ensures PrefixAdmitted(WriteStep(s, rule, limit, reset, Hit(now)), rule, limit, hits + [now])
  {
    OneMoreHit(hits, now, limit);
    OneMoreHit(hits, now, U32_MAX);
    if |hits| < U32_MAX { assert Beyond(hits, U32_MAX) == []; }
  }

  /** While Redis keeps the key and the reply can number the requests, exactly the first `limit` are admitted;
      beyond that, under either rule, more than `limit` are. The key always has a time to live. */
  lemma {:induction false} WritesAdmitThePrefix(rule: OverflowRule, limit: U32, reset: nat, events: seq<WriteEvent>)
    requires WriteRun(rule, limit, reset, events).losses == 0
    ensures PrefixAdmitted(WriteRun(rule, limit, reset, events), rule, limit, Hits(events))
  {
    if events != [] {
      var n := |events| - 1;
      WritesAdmitThePrefix(rule, limit, reset, events[..n]);
      if events[n].Hit? {
        HitKeepsPrefix(WriteRun(rule, limit, reset, events[..n]), rule, limit, reset, Hits(events[..n]), events[n].now);
      }
    }
  }

  /** So at most `limit` are admitted exactly when no more requests arrive than u32 can number. */
  lemma WriteBoundHoldsIff(rule: OverflowRule, limit: U32, reset: nat, events: seq<WriteEvent>)
    requires WriteRun(rule, limit, reset, events).losses == 0
    ensures |WriteRun(rule, limit, reset, events).admitted| <= limit <==> |Hits(events)| <= 0xFFFF_FFFF
  {
    WritesAdmitThePrefix(rule, limit, reset, events);
  }

  /** events[n], a request at `now`, created the counter; it has been there since, and lives from that instant to
      the reset. */
  ghost predicate WriteLivesFrom(rule: OverflowRule, limit: U32, reset: nat, events: seq<WriteEvent>, n: nat, now: nat)
  {
    && n < |events| && events[n] == Hit(now) && WriteRun(rule, limit, reset, events[..n]).counter.None?
    && (forall k | n < k <= |events| :: HeldUntil(WriteRun(rule, limit, reset, events[..k]).counter, now, reset))
    && 1 <= reset - now <= 60
  }

  /** The same for the write limiter, whose requests come with their own minute's reset. */
  lemma {:induction false} WriteCounterLivesToTheReset(rule: OverflowRule, limit: U32, reset: nat,
                                                       events: seq<WriteEvent>)
    requires forall k | 0 <= k < |events| && events[k].Hit? :: InWindow(events[k].now, reset)
    ensures WriteRun(rule, limit, reset, events).counter.Some? ==>
              && WriteRun(rule, limit, reset, events).counter.value.value > 0
              && exists n: nat, now: nat :: WriteLivesFrom(rule, limit, reset, events, n, now)
  {
    if events != [] {
      var last := |events| - 1;
      WriteCounterLivesToTheReset(rule, limit, reset, events[..last]);
      var before, after := WriteRun(rule, limit, reset, events[..last]), WriteRun(rule, limit, reset, events);
      assert events[..|events|] == events;
      if before.counter.Some? && after.counter.Some? {
        var n: nat, now: nat :| WriteLivesFrom(rule, limit, reset, events[..last], n, now);
        assert events[..last][..n] == events[..n] && events[..last][..last] == events[..last];
        assert HeldUntil(WriteRun(rule, limit, reset, events[..last][..last]).counter, now, reset);
        forall k | n < k <= |events| ensures HeldUntil(WriteRun(rule, limit, reset, events[..k]).counter, now, reset) {
          if k <= last { assert events[..last][..k] == events[..k]; } else { assert events[..k] == events; }
        }
        assert WriteLivesFrom(rule, limit, reset, events, n, now);
      } else if after.counter.Some? {
        assert WriteLivesFrom(rule, limit, reset, events, last, events[last].now);
      }
    }
  }

  ghost predicate WithinLosses(s: WriteState, limit: U32) {
    |s.admitted| + (if Value(s.counter) < limit then limit - Value(s.counter) else 0) <= Times(s.losses + 1, limit)
  }

  lemma HitWithinLosses(s: WriteState, rule: OverflowRule, limit: U32, reset: nat, now: nat)
    requires WithinLosses(s, limit) && Value(s.counter) < U32_MAX
    ensures WithinLosses(WriteStep(s, rule, limit, reset, Hit(now)), limit)
  {
  }

  lemma {:induction false} WritesStayWithinLosses(rule: OverflowRule, limit: U32, reset: nat, events: seq<WriteEvent>)
    requires |Hits(events)| <= U32_MAX
    ensures Value(WriteRun(rule, limit, reset, events).counter) <= |Hits(events)|
    ensures WithinLosses(WriteRun(rule, limit, reset, events), limit)
  {
    if events != [] {
      var n := |events| - 1;
      WritesStayWithinLosses(rule, limit, reset, events[..n]);
      var s := WriteRun(rule, limit, reset, events[..n]);
      if events[n].Hit? { HitWithinLosses(s, rule, limit, reset, events[n].now); }
    }
  }

  /** Where the run lost the key. */
  ghost function LostAt(events: seq<WriteEvent>): set<nat> {
    set k: nat | k < |events| && events[k].KeyLost?
  }

  lemma {:induction false} LossesAreEvents(rule: OverflowRule, limit: U32, reset: nat, events: seq<WriteEvent>)
    ensures WriteRun(rule, limit, reset, events).losses <= |LostAt(events)|
  {
    if events != [] {
      var n := |events| - 1;
      LossesAreEvents(rule, limit, reset, events[..n]);
      assert LostAt(events) == LostAt(events[..n]) + if events[n].KeyLost? then {n} else {};
    }
  }

  /** Each loss of the key allows at most `limit` more. */
  lemma WritesWithinLimit(rule: OverflowRule, limit: U32, reset: nat, events: seq<WriteEvent>)
    requires |Hits(events)| <= U32_MAX
    ensures |WriteRun(rule, limit, reset, events).admitted| <= (|LostAt(events)| + 1) * limit
  {
    WritesStayWithinLosses(rule, limit, reset, events);
    LossesAreEvents(rule, limit, reset, events);
    TimesMonotone(WriteRun(rule, limit, reset, events).losses + 1, |LostAt(events)| + 1, limit);
    TimesIsProduct(|LostAt(events)| + 1, limit);
  }

  /** n bursts of `size` requests at one instant, the key lost before each but the first. */
  function Bursts(n: nat, size: nat, now: nat): seq<WriteEvent> {
    if n == 0 then [] else Bursts(n - 1, size, now) + (if n == 1 then [] else [KeyLost]) + Repeated(size, now)
  }

  function Repeated(size: nat, now: nat): seq<WriteEvent> {
    if size == 0 then [] else Repeated(size - 1, now) + [Hit(now)]
  }

  lemma WriteRunStep(rule: OverflowRule, limit: U32, reset: nat, events: seq<WriteEvent>, e: WriteEvent)
    ensures WriteRun(rule, limit, reset, events + [e])
         == WriteStep(WriteRun(rule, limit, reset, events), rule, limit, reset, e)
    ensures LostAt(events + [e]) == if e.KeyLost? then LostAt(events) + {|events|} else LostAt(events)
  {
    assert (events + [e])[..|events|] == events;
  }

  lemma HitIsAdmitted(rule: OverflowRule, limit: U32, reset: nat, before: seq<WriteEvent>, now: nat)
    requires Value(WriteRun(rule, limit, reset, before).counter) < limit
    ensures var s, s' := WriteRun(rule, limit, reset, before), WriteRun(rule, limit, reset, before + [Hit(now)]);
            Value(s'.counter) == Value(s.counter) + 1 && |s'.admitted| == |s.admitted| + 1
    ensures LostAt(before + [Hit(now)]) == LostAt(before)
  {
    WriteRunStep(rule, limit, reset, before, Hit(now));
  }

  lemma {:induction false} BurstIsAdmitted(rule: OverflowRule, limit: U32, reset: nat, before: seq<WriteEvent>,
                                           size: nat, now: nat)
    requires size <= limit && WriteRun(rule, limit, reset, before).counter.None?
    ensures var s := WriteRun(rule, limit, reset, before);
            var s' := WriteRun(rule, limit, reset, before + Repeated(size, now));
            Value(s'.counter) == size && |s'.admitted| == |s.admitted| + size
    ensures LostAt(before + Repeated(size, now)) == LostAt(before)
  {
    if size == 0 {
      assert before + [] == before;
    } else {
      var earlier := before + Repeated(size - 1, now);
      BurstIsAdmitted(rule, limit, reset, before, size - 1, now);
      HitIsAdmitted(rule, limit, reset, earlier, now);
      assert earlier + [Hit(now)] == before + Repeated(size, now);
    }
  }

  lemma {:induction false} BurstsAreAdmitted(rule: OverflowRule, limit: U32, reset: nat, n: nat, now: nat)
    requires limit >= 1 && n >= 1
    ensures var s := WriteRun(rule, limit, reset, Bursts(n, limit, now));
            s.counter.Some? && |s.admitted| == Times(n, limit)
    ensures |LostAt(Bursts(n, limit, now))| == n - 1
  {
    if n == 1 {
      BurstIsAdmitted(rule, limit, reset, [], limit, now);
      assert LostAt([]) == {} && WriteRun(rule, limit, reset, []).admitted == [] && Times(1, limit) == limit;
      assert [] + [] + Repeated(limit, now) == [] + Repeated(limit, now);
    } else {
      var earlier := Bursts(n - 1, limit, now);
      BurstsAreAdmitted(rule, limit, reset, n - 1, now);
      WriteRunStep(rule, limit, reset, earlier, KeyLost);
      BurstIsAdmitted(rule, limit, reset, earlier + [KeyLost], limit, now);
    }
  }

  /** And the bound is reached: with n losses of the key, (n + 1) * limit requests of one instant are admitted. */
  lemma WriteBoundIsReached(rule: OverflowRule, limit: U32, reset: nat, n: nat, now: nat)
    requires limit >= 1
    ensures var events := Bursts(n + 1, limit, now);
            |LostAt(events)| == n && |WriteRun(rule, limit, reset, events).admitted| == (n + 1) * limit
  {
    BurstsAreAdmitted(rule, limit, reset, n + 1, now);
    TimesIsProduct(n + 1, limit);
  }

  ghost function WriteLogs(rule: OverflowRule, limit: U32, events: map<nat, seq<WriteEvent>>): map<nat, seq<nat>> {
    map w | w in events :: WriteRun(rule, limit, ResetOf(w), events[w]).admitted
  }

  lemma WriteLog(rule: OverflowRule, limit: U32, w: nat, events: seq<WriteEvent>)
    requires LogOf(Hits(events), w, U32_MAX) && WriteRun(rule, limit, ResetOf(w), events).losses == 0
    ensures LogOf(WriteRun(rule, limit, ResetOf(w), events).admitted, w, limit)
  {
    WritesAdmitThePrefix(rule, limit, ResetOf(w), events);
  }

  /** The write limiter, Redis keeping every key for its minute and no minute seeing more requests than u32
      can number. */
  lemma WriteSlidingBound(rule: OverflowRule, limit: U32, events: map<nat, seq<WriteEvent>>, from: nat, len: nat)
    requires len >= 1
    requires forall w | w in events ::
               LogOf(Hits(events[w]), w, U32_MAX) && WriteRun(rule, limit, ResetOf(w), events[w]).losses == 0
    ensures AdmittedBetween(WriteLogs(rule, limit, events), from, from + len) <= WindowsTouched(len) * limit
  {
    var logs := WriteLogs(rule, limit, events);
    forall w | w in logs ensures LogOf(logs[w], w, limit) {
      WriteLog(rule, limit, w, events[w]);
    }
    SlidingBound(logs, limit, from, len);
  }
}
