/** The circuit breaker, and the machine over the full outcome history that it refines. */
module CircuitBreaker {
  import opened Finite

  datatype Outcome = Outcome(at: nat, success: bool)

  datatype BreakerState =
    | Closed(consecutiveFailures: nat, recentOutcomes: seq<Outcome>)
    | HalfOpen(consecutiveSuccesses: nat)
    | Open(openedAt: nat)

  datatype Config = Config(failureThreshold: nat, openDuration: nat, successThreshold: nat, failureWindow: nat)

  /** The readings of the monotone clock that one record call takes, in order. */
  datatype Clock = Clock(prune: nat, push: nat, open: nat)

  predicate Ticking(c: Clock) { c.prune <= c.push <= c.open }

  /** Instant::duration_since, which saturates at zero. */
  function Since(now: nat, at: nat): nat { if at <= now then now - at else 0 }

  function Prune(outcomes: seq<Outcome>, window: nat, now: nat): seq<Outcome> {
    if outcomes != [] && Since(now, outcomes[0].at) > window then Prune(outcomes[1..], window, now) else outcomes
  }

  function Failures(outcomes: seq<Outcome>): (n: nat)
    ensures n <= |outcomes|
  {
    if outcomes == [] then 0
    else Failures(outcomes[..|outcomes| - 1]) + if outcomes[|outcomes| - 1].success then 0 else 1
  }

  predicate FailureRateReached(outcomes: seq<Outcome>, minimumSamples: nat) {
    |outcomes| >= minimumSamples && Failures(outcomes) * 2 > |outcomes|
  }

  /** Where the failures are. */
  ghost function FailedAt(outcomes: seq<Outcome>): set<nat> {
    set k: nat | k < |outcomes| && !outcomes[k].success
  }

  /** Enough samples, and failures at more than half of the positions. */
  ghost predicate MostFailed(outcomes: seq<Outcome>, minimumSamples: nat) {
    |outcomes| >= minimumSamples && 2 * |FailedAt(outcomes)| > |outcomes|
  }

  lemma {:induction false} FailuresAreCounted(outcomes: seq<Outcome>)
    ensures Failures(outcomes) == |FailedAt(outcomes)|
  {
    if outcomes != [] {
      var n := |outcomes| - 1;
      FailuresAreCounted(outcomes[..n]);
      assert FailedAt(outcomes) == FailedAt(outcomes[..n]) + if outcomes[n].success then {} else {n};
    }
  }

  /** The rate test fires exactly when most of enough outcomes failed. */
  lemma RateReachedIffMostFailed(outcomes: seq<Outcome>, minimumSamples: nat)
    ensures FailureRateReached(outcomes, minimumSamples) <==> MostFailed(outcomes, minimumSamples)
  {
    FailuresAreCounted(outcomes);
  }

  const FRESH := Closed(0, [])

  function Allow(cfg: Config, s: BreakerState, now: nat): (BreakerState, bool) {
    if !s.Open? then (s, true)
    else if Since(now, s.openedAt) >= cfg.openDuration then (HalfOpen(0), true)
    else (s, false)
  }

  function Success(cfg: Config, s: BreakerState, c: Clock): BreakerState {
    match s
    case Closed(_, outcomes) =>
      var kept := Prune(outcomes, cfg.failureWindow, c.prune) + [Outcome(c.push, true)];
      if FailureRateReached(kept, cfg.failureThreshold) then Open(c.open) else Closed(0, kept)
    case HalfOpen(n) => if n + 1 >= cfg.successThreshold then FRESH else HalfOpen(n + 1)
    case Open(_) => s
  }

  function Failure(cfg: Config, s: BreakerState, c: Clock): BreakerState {
    match s
    case Closed(failures, outcomes) =>
      var kept := Prune(outcomes, cfg.failureWindow, c.prune) + [Outcome(c.push, false)];
      if failures + 1 >= cfg.failureThreshold || FailureRateReached(kept, cfg.failureThreshold) then Open(c.open)
      else Closed(failures + 1, kept)
    case HalfOpen(_) => Open(c.open)
    case Open(_) => s
  }

  /** The breaker whose mutex-held state the calls update in place. */
  class Breaker {
    const cfg: Config
    var state: BreakerState

    constructor (cfg: Config)
      ensures this.cfg == cfg && state == FRESH
    {
      this.cfg, state := cfg, FRESH;
    }

    method PruneOutcomes(outcomes: seq<Outcome>, now: nat) returns (kept: seq<Outcome>)
      ensures kept == Prune(outcomes, cfg.failureWindow, now)
    {
      kept := outcomes;
      while kept != []
        invariant Prune(kept, cfg.failureWindow, now) == Prune(outcomes, cfg.failureWindow, now)
        decreases |kept|
      {
        if Since(now, kept[0].at) > cfg.failureWindow { kept := kept[1..]; } else { break; }
      }
    }

    method IsFailureRateThresholdReached(outcomes: seq<Outcome>) returns (reached: bool)
      ensures reached <==> FailureRateReached(outcomes, cfg.failureThreshold)
      ensures reached <==> MostFailed(outcomes, cfg.failureThreshold)
    {
      RateReachedIffMostFailed(outcomes, cfg.failureThreshold);
      if |outcomes| < cfg.failureThreshold { return false; }
      var failures := 0;
      for i := 0 to |outcomes|
        invariant failures == Failures(outcomes[..i])
      {
        assert outcomes[..i + 1][..i] == outcomes[..i];
        if !outcomes[i].success { failures := failures + 1; }
      }
      assert outcomes[..|outcomes|] == outcomes;
      reached := failures * 2 > |outcomes|;
    }

    method AllowRequest(now: nat) returns (allowed: bool)
      modifies this
      ensures (state, allowed) == Allow(cfg, old(state), now)
    {
      match state
      case Closed(_, _) => allowed := true;
      case HalfOpen(_) => allowed := true;
      case Open(openedAt) =>
        allowed := Since(now, openedAt) >= cfg.openDuration;
        if allowed { state := HalfOpen(0); }
    }

    method RecordSuccess(c: Clock)
      modifies this
      ensures state == Success(cfg, old(state), c)
    {
      match state
      case Closed(_, outcomes) =>
        var kept := PruneOutcomes(outcomes, c.prune);
        kept := kept + [Outcome(c.push, true)];
        var reached := IsFailureRateThresholdReached(kept);
        state := if reached then Open(c.open) else Closed(0, kept);
      case HalfOpen(n) =>
        state := HalfOpen(n + 1);
        if n + 1 >= cfg.successThreshold { state := FRESH; }
      case Open(_) =>
    }

    method RecordFailure(c: Clock)
      modifies this
      ensures state == Failure(cfg, old(state), c)
    {
      match state
      case Closed(failures, outcomes) =>
        var kept := PruneOutcomes(outcomes, c.prune);
        kept := kept + [Outcome(c.push, false)];
        var reached := IsFailureRateThresholdReached(kept);
        state := if failures + 1 >= cfg.failureThreshold || reached then Open(c.open) else Closed(failures + 1, kept);
      case HalfOpen(_) => state := Open(c.open);
      case Open(_) =>
    }
  }

  // ----- The reference machine: no counters, no pruning, only logs -----

  /** AllClosed logs every outcome since the last close, AllHalfOpen every outcome since half-opening. */
  datatype Reference =
    | AllClosed(log: seq<Outcome>, judgedAt: nat)
    | AllHalfOpen(results: seq<bool>)
    | AllOpen(since: nat)

  /** The logged outcomes whose age at `now` is within the window. */
  function Recent(log: seq<Outcome>, window: nat, now: nat): seq<Outcome> {
    if log == [] then []
    else
      var o := log[|log| - 1];
      Recent(log[..|log| - 1], window, now) + if Since(now, o.at) <= window then [o] else []
  }

  /** The length of the run of failures that ends the history. */
  function TrailingFailures(history: seq<bool>): nat {
    if history == [] || history[|history| - 1] then 0 else 1 + TrailingFailures(history[..|history| - 1])
  }

  function AtLeastOne(n: nat): nat { if n == 0 then 1 else n }

  predicate AllTrue(results: seq<bool>) { forall k | 0 <= k < |results| :: results[k] }

  /** One outcome. From closed: open iff a failure completes a run of failureThreshold, or the window
      holds enough samples and more than half failed. */
  ghost function Record(cfg: Config, r: Reference, history: seq<bool>, success: bool, c: Clock): Reference {
    match r
    case AllClosed(log, _) =>
      var log' := log + [Outcome(c.push, success)];
      var run := !success && TrailingFailures(history + [success]) >= cfg.failureThreshold;
      if run || MostFailed(Recent(log', cfg.failureWindow, c.prune), cfg.failureThreshold) then AllOpen(c.open)
      else AllClosed(log', c.prune)
    case AllHalfOpen(results) =>
      if !success then AllOpen(c.open)
      else if AllTrue(results) && |results| + 1 >= AtLeastOne(cfg.successThreshold) then AllClosed([], c.prune)
      else AllHalfOpen(results + [true])
    case AllOpen(_) => r
  }

  function Admit(cfg: Config, r: Reference, now: nat): (Reference, bool) {
    if !r.AllOpen? then (r, true)
    else if now >= r.since + cfg.openDuration then (AllHalfOpen([]), true)
    else (r, false)
  }

  datatype Event = AskAt(now: nat) | Report(success: bool, clock: Clock)

  function Starts(e: Event): nat { if e.AskAt? then e.now else e.clock.prune }
  function Ends(e: Event): nat { if e.AskAt? then e.now else e.clock.open }

  /** The breaker and the reference side by side; `last` is the latest clock reading. */
  datatype World = World(breaker: BreakerState, reference: Reference, history: seq<bool>, openings: seq<nat>, last: nat)

  ghost function Step(cfg: Config, w: World, e: Event): World {
    match e
    case AskAt(now) =>
      w.(breaker := Allow(cfg, w.breaker, now).0, reference := Admit(cfg, w.reference, now).0, last := now)
    case Report(success, c) =>
      var b := if success then Success(cfg, w.breaker, c) else Failure(cfg, w.breaker, c);
      World(b, Record(cfg, w.reference, w.history, success, c), w.history + [success],
            if b.Open? && !w.breaker.Open? then w.openings + [b.openedAt] else w.openings, c.open)
  }

  const START := World(FRESH, AllClosed([], 0), [], [], 0)

  ghost function Run(cfg: Config, events: seq<Event>): World {
    if events == [] then START else Step(cfg, Run(cfg, events[..|events| - 1]), events[|events| - 1])
  }

  /** The clock never goes back, within a call or between calls. */
  predicate Monotone(events: seq<Event>) {
    && (forall k | 0 <= k < |events| :: events[k].AskAt? || Ticking(events[k].clock))
    && (forall k | 0 <= k < |events| - 1 :: Ends(events[k]) <= Starts(events[k + 1]))
  }

  /** Each outcome is no earlier than the one before it, and the last one no later than `until`. */
  predicate InOrder(log: seq<Outcome>, until: nat) {
    log == [] || (log[|log| - 1].at <= until && InOrder(log[..|log| - 1], log[|log| - 1].at))
  }

  /** The front is the oldest, and without it the order stays. */
  lemma {:induction false} InOrderFromFront(log: seq<Outcome>, until: nat)
    requires InOrder(log, until) && log != []
    ensures InOrder(log[1..], until) && forall k | 0 <= k < |log| :: log[0].at <= log[k].at <= until
  {
    var n := |log| - 1;
    if n > 0 {
      InOrderFromFront(log[..n], log[n].at);
      assert log[1..][..n - 1] == log[..n][1..];
    }
  }

  lemma {:induction false} InOrderUntil(log: seq<Outcome>, until: nat, later: nat)
    requires InOrder(log, until) && until <= later
    ensures InOrder(log, later)
  {
  }

  // ----- Front-pruning is filtering -----

  lemma {:induction false} RecentInOrder(log: seq<Outcome>, window: nat, now: nat, until: nat)
    requires InOrder(log, until)
    ensures InOrder(Recent(log, window, now), until)
  {
    if log != [] {
      var n := |log| - 1;
      var kept := Recent(log[..n], window, now);
      RecentInOrder(log[..n], window, now, log[n].at);
      InOrderUntil(kept, log[n].at, until);
      assert (kept + [log[n]])[..|kept|] == kept && kept + [] == kept;
    }
  }

  /** What was filtered out at an earlier instant is filtered out at a later one. */
  lemma {:induction false} RecentOfRecent(log: seq<Outcome>, window: nat, earlier: nat, now: nat)
    requires earlier <= now
    ensures Recent(Recent(log, window, earlier), window, now) == Recent(log, window, now)
  {
    if log != [] {
      var n := |log| - 1;
      RecentOfRecent(log[..n], window, earlier, now);
      var kept := Recent(log[..n], window, earlier);
      assert (kept + [log[n]])[..|kept|] == kept && kept + [] == kept;
    }
  }

  lemma {:induction false} RecentFromFront(log: seq<Outcome>, window: nat, now: nat)
    requires log != []
    ensures Recent(log, window, now)
         == (if Since(now, log[0].at) <= window then [log[0]] else []) + Recent(log[1..], window, now)
  {
    var n := |log| - 1;
    if n > 0 {
      RecentFromFront(log[..n], window, now);
      assert log[1..][..n - 1] == log[..n][1..];
    }
  }

  lemma {:induction false} AllRecent(log: seq<Outcome>, window: nat, now: nat)
    requires forall k | 0 <= k < |log| :: Since(now, log[k].at) <= window
    ensures Recent(log, window, now) == log
  {
    if log != [] { AllRecent(log[..|log| - 1], window, now); }
  }

  lemma {:induction false} PruneIsFilter(outcomes: seq<Outcome>, window: nat, now: nat, until: nat)
    requires InOrder(outcomes, until)
    ensures Prune(outcomes, window, now) == Recent(outcomes, window, now)
  {
    if outcomes != [] {
      InOrderFromFront(outcomes, until);
      if Since(now, outcomes[0].at) > window {
        PruneIsFilter(outcomes[1..], window, now, until);
        RecentFromFront(outcomes, window, now);
      } else {
        AllRecent(outcomes, window, now);
      }
    }
  }

  /** Pruning the deque and pushing the new outcome gives the window of the whole log. */
  lemma PruneThenPush(log: seq<Outcome>, cfg: Config, judgedAt: nat, last: nat, success: bool, c: Clock)
    requires InOrder(log, last) && judgedAt <= last <= c.prune && Ticking(c)
    ensures Prune(Recent(log, cfg.failureWindow, judgedAt), cfg.failureWindow, c.prune) + [Outcome(c.push, success)]
         == Recent(log + [Outcome(c.push, success)], cfg.failureWindow, c.prune)
    ensures InOrder(log + [Outcome(c.push, success)], c.open)
  {
    RecentInOrder(log, cfg.failureWindow, judgedAt, last);
    PruneIsFilter(Recent(log, cfg.failureWindow, judgedAt), cfg.failureWindow, c.prune, last);
    RecentOfRecent(log, cfg.failureWindow, judgedAt, c.prune);
    InOrderUntil(log, last, c.push);
    assert (log + [Outcome(c.push, success)])[..|log|] == log;
  }

  // ----- The refinement -----

  ghost predicate Refines(cfg: Config, w: World) {
    match (w.breaker, w.reference)
    case (Closed(failures, outcomes), AllClosed(log, judgedAt)) =>
      && failures == TrailingFailures(w.history)
      && outcomes == Recent(log, cfg.failureWindow, judgedAt)
      && InOrder(log, w.last) && judgedAt <= w.last
    case (HalfOpen(n), AllHalfOpen(results)) =>
      n == |results| && AllTrue(results) && n < AtLeastOne(cfg.successThreshold)
    case (Open(at), AllOpen(since)) => at == since <= w.last
    case _ => false
  }

  /** Closed with no run of failures at the threshold and no failing majority, so the u32 counters
      stay below max(1, threshold) and never wrap. */
  ghost predicate Calm(cfg: Config, s: BreakerState) {
    s.Closed? ==>
      && s.consecutiveFailures < AtLeastOne(cfg.failureThreshold)
      && !MostFailed(s.recentOutcomes, cfg.failureThreshold)
  }

  /** Openings at least openDuration apart; out of Open, the cool-down of the last one is over. */
  ghost predicate Spaced(cfg: Config, w: World) {
    && (forall k | 0 <= k < |w.openings| - 1 :: w.openings[k] + cfg.openDuration <= w.openings[k + 1])
    && (w.openings != [] ==>
          var latest := w.openings[|w.openings| - 1];
          && latest <= w.last
          && if w.breaker.Open? then w.breaker.openedAt == latest else latest + cfg.openDuration <= w.last)
    && (w.openings == [] ==> !w.breaker.Open?)
  }

  lemma ClosedReportRefines(cfg: Config, w: World, success: bool, c: Clock)
    requires w.breaker.Closed? && Refines(cfg, w) && w.last <= c.prune && Ticking(c)
    ensures var w' := Step(cfg, w, Report(success, c)); Refines(cfg, w') && Calm(cfg, w'.breaker)
  {
    assert (w.history + [success])[..|w.history|] == w.history;
    PruneThenPush(w.reference.log, cfg, w.reference.judgedAt, w.last, success, c);
    var log' := w.reference.log + [Outcome(c.push, success)];
    RateReachedIffMostFailed(Recent(log', cfg.failureWindow, c.prune), cfg.failureThreshold);
  }

  lemma HalfOpenReportRefines(cfg: Config, w: World, success: bool, c: Clock)
    requires w.breaker.HalfOpen? && Refines(cfg, w) && w.last <= c.prune && Ticking(c)
    ensures var w' := Step(cfg, w, Report(success, c)); Refines(cfg, w') && Calm(cfg, w'.breaker)
  {
  }

  lemma {:induction false} ReportRefines(cfg: Config, w: World, success: bool, c: Clock)
    requires Refines(cfg, w) && Calm(cfg, w.breaker) && w.last <= c.prune && Ticking(c)
    ensures var w' := Step(cfg, w, Report(success, c));
            Refines(cfg, w') && Calm(cfg, w'.breaker)
  {
    match w.breaker
    case Closed(_, _) => ClosedReportRefines(cfg, w, success, c);
    case HalfOpen(_) => HalfOpenReportRefines(cfg, w, success, c);
    case Open(_) =>
  }

  lemma {:induction false} ReportSpaced(cfg: Config, w: World, success: bool, c: Clock)
    requires Spaced(cfg, w) && w.last <= c.prune && Ticking(c)
    ensures Spaced(cfg, Step(cfg, w, Report(success, c)))
  {
  }

  /** In every run the pruned deque is the window of the full log, the counters are runs of the full
      history, and breaker and reference are in the same mode: the breaker leaves Closed exactly when
      the reference rule fires. */
  lemma {:induction false} EveryRunRefines(cfg: Config, events: seq<Event>)
    requires Monotone(events)
    ensures var w := Run(cfg, events);
            && Refines(cfg, w) && Calm(cfg, w.breaker) && Spaced(cfg, w)
            && (events != [] ==> w.last == Ends(events[|events| - 1]))
  {
    if events != [] {
      var n := |events| - 1;
      EveryRunRefines(cfg, events[..n]);
      var w := Run(cfg, events[..n]);
      assert n > 0 ==> Ends(events[n - 1]) <= Starts(events[n - 1 + 1]);
      match events[n]
      case AskAt(now) =>
      case Report(success, c) =>
        ReportRefines(cfg, w, success, c);
        ReportSpaced(cfg, w, success, c);
    }
  }

  // ----- When the breaker opens, in terms of what was reported -----

  /** The run of failures that ends a history: as long as n, and no longer. */
  lemma {:induction false} TrailingFailuresAre(history: seq<bool>, n: nat)
    ensures TrailingFailures(history) >= n
       <==> n <= |history| && forall k | |history| - n <= k < |history| :: !history[k]
  {
    if history != [] && n > 0 {
      var last := |history| - 1;
      TrailingFailuresAre(history[..last], n - 1);
      assert !history[last] && n <= |history| && (forall k | last - (n - 1) <= k < last :: !history[..last][k])
        ==> forall k | |history| - n <= k < |history| :: !history[k];
      assert forall k | 0 <= k < last :: history[..last][k] == history[k];
    }
  }

  /** The outcomes logged from `from` on are those no older than the window. */
  ghost predicate WindowFrom(log: seq<Outcome>, window: nat, now: nat, from: nat) {
    from <= |log| && forall k | 0 <= k < |log| :: k < from <==> log[k].at + window < now
  }

  lemma WindowFromTail(log: seq<Outcome>, window: nat, now: nat, rest: nat)
    requires log != [] && log[0].at + window < now && WindowFrom(log[1..], window, now, rest)
    ensures WindowFrom(log, window, now, rest + 1) && log[1..][rest..] == log[rest + 1..]
  {
    forall k | 1 <= k < |log| ensures k < rest + 1 <==> log[k].at + window < now {
      assert log[k] == log[1..][k - 1];
    }
  }

  /** The outcomes of an ordered log no older than the window are those from the first such one on. */
  lemma {:induction false} RecentIsTheEnd(log: seq<Outcome>, window: nat, now: nat, until: nat) returns (from: nat)
    requires InOrder(log, until)
    ensures WindowFrom(log, window, now, from) && Recent(log, window, now) == log[from..]
  {
    from := 0;
    if log != [] {
      InOrderFromFront(log, until);
      if log[0].at + window < now {
        var rest := RecentIsTheEnd(log[1..], window, now, until);
        WindowFromTail(log, window, now, rest);
        RecentFromFront(log, window, now);
        from := rest + 1;
      } else {
        AllRecent(log, window, now);
      }
    }
  }

  /** The last `n` reports failed. */
  ghost predicate LastFailed(history: seq<bool>, n: nat) {
    n <= |history| && forall k | |history| - n <= k < |history| :: !history[k]
  }

  /** failureThreshold failures in a row, or at least failureThreshold outcomes in the window, most of them failures. */
  ghost predicate Trips(cfg: Config, history: seq<bool>, inWindow: seq<Outcome>) {
    || (history != [] && !history[|history| - 1] && LastFailed(history, cfg.failureThreshold))
    || (|inWindow| >= cfg.failureThreshold && 2 * |FailedAt(inWindow)| > |inWindow|)
  }

  lemma RecordOpensIff(cfg: Config, log: seq<Outcome>, judgedAt: nat, history: seq<bool>, success: bool, c: Clock)
      returns (from: nat)
    requires InOrder(log + [Outcome(c.push, success)], c.open)
    ensures var log' := log + [Outcome(c.push, success)];
            && WindowFrom(log', cfg.failureWindow, c.prune, from)
            && Recent(log', cfg.failureWindow, c.prune) == log'[from..]
            && Record(cfg, AllClosed(log, judgedAt), history, success, c)
               == if Trips(cfg, history + [success], log'[from..]) then AllOpen(c.open) else AllClosed(log', c.prune)
  {
    var log' := log + [Outcome(c.push, success)];
    from := RecentIsTheEnd(log', cfg.failureWindow, c.prune, c.open);
    TrailingFailuresAre(history + [success], cfg.failureThreshold);
    assert (history + [success])[|history|] == success;
  }

  lemma ReportOpensIff(cfg: Config, w: World, success: bool, c: Clock) returns (from: nat)
    requires w.breaker.Closed? && Refines(cfg, w) && w.last <= c.prune && Ticking(c)
    ensures var w' := Step(cfg, w, Report(success, c));
            var log := w.reference.log + [Outcome(c.push, success)];
            && WindowFrom(log, cfg.failureWindow, c.prune, from)
            && (if Trips(cfg, w.history + [success], log[from..]) then w'.breaker == Open(c.open)
                else && w'.breaker.Closed? && w'.breaker.recentOutcomes == log[from..]
                     && w'.reference == AllClosed(log, c.prune))
  {
    PruneThenPush(w.reference.log, cfg, w.reference.judgedAt, w.last, success, c);
    from := RecordOpensIff(cfg, w.reference.log, w.reference.judgedAt, w.history, success, c);
    ClosedReportRefines(cfg, w, success, c);
  }

  /** In every run a report opens the closed breaker exactly when it completes failureThreshold failures in a row, or
      when most of the outcomes since the breaker last closed that are no older than the window, at least
      failureThreshold of them, failed. */
  lemma OpensIff(cfg: Config, events: seq<Event>, success: bool, c: Clock) returns (from: nat)
    requires Monotone(events + [Report(success, c)]) && Run(cfg, events).breaker.Closed?
    ensures var w, w' := Run(cfg, events), Run(cfg, events + [Report(success, c)]);
            && w.reference.AllClosed? && w'.history == w.history + [success]
            && var log := w.reference.log + [Outcome(c.push, success)];
              && WindowFrom(log, cfg.failureWindow, c.prune, from)
              && (w'.breaker.Open? <==> Trips(cfg, w'.history, log[from..]))
              && (w'.breaker.Open? || (w'.breaker.Closed? && w'.breaker.recentOutcomes == log[from..]))
  {
    PrefixIsMonotone(events, Report(success, c));
    EveryRunRefines(cfg, events);
    assert (events + [Report(success, c)])[..|events|] == events;
    from := ReportOpensIff(cfg, Run(cfg, events), success, c);
  }

  lemma PrefixIsMonotone(events: seq<Event>, e: Event)
    requires Monotone(events + [e])
    ensures Monotone(events) && (events != [] ==> Ends(events[|events| - 1]) <= Starts(e))
    ensures e.AskAt? || Ticking(e.clock)
  {
    var all := events + [e];
    assert all[|events|] == e && forall k | 0 <= k < |events| :: all[k] == events[k];
    forall k | 0 <= k < |events| - 1 ensures Ends(events[k]) <= Starts(events[k + 1]) {
      assert Ends(all[k]) <= Starts(all[k + 1]);
    }
    if events != [] { assert Ends(all[|events| - 1]) <= Starts(all[|events| - 1 + 1]); }
  }

  /** While nothing in the window failed, a success leaves the breaker closed. */
  lemma SuccessesKeepItClosed(cfg: Config, events: seq<Event>, c: Clock)
    requires Monotone(events + [Report(true, c)])
    requires Run(cfg, events).breaker.Closed? && Run(cfg, events).reference.AllClosed?
    requires forall k | 0 <= k < |Run(cfg, events).reference.log| ::
               var o := Run(cfg, events).reference.log[k]; o.success || o.at + cfg.failureWindow < c.prune
    ensures Run(cfg, events + [Report(true, c)]).breaker.Closed?
  {
    var from := OpensIff(cfg, events, true, c);
    var log := Run(cfg, events).reference.log + [Outcome(c.push, true)];
    forall k | from <= k < |log| ensures log[k].success {
      assert k < |log| - 1 ==> log[k] == Run(cfg, events).reference.log[k];
    }
    assert FailedAt(log[from..]) == {};
  }

  /** The breaker lets a request through exactly when the reference does. */
  lemma SameAnswers(cfg: Config, events: seq<Event>, now: nat)
    requires Monotone(events) && (events != [] ==> Ends(events[|events| - 1]) <= now)
    ensures var w := Run(cfg, events);
            Allow(cfg, w.breaker, now).1 == Admit(cfg, w.reference, now).1
  {
    EveryRunRefines(cfg, events);
  }

  /** Whatever late reports arrive, nothing is let through while an opening is cooling down. */
  lemma {:induction false} NothingDuringCoolDown(cfg: Config, events: seq<Event>, now: nat, k: nat)
    requires Monotone(events) && (events != [] ==> Ends(events[|events| - 1]) <= now)
    requires var w := Run(cfg, events); k < |w.openings| && now < w.openings[k] + cfg.openDuration
    ensures !Allow(cfg, Run(cfg, events).breaker, now).1
  {
    EveryRunRefines(cfg, events);
    SpacedOpenings(Run(cfg, events).openings, cfg.openDuration, k);
  }

  lemma {:induction false} SpacedOpenings(openings: seq<nat>, gap: nat, k: nat)
    requires forall i | 0 <= i < |openings| - 1 :: openings[i] + gap <= openings[i + 1]
    requires k < |openings|
    ensures k < |openings| - 1 ==> openings[k] + gap <= openings[|openings| - 1]
    decreases |openings| - k
  {
    if k + 1 < |openings| { SpacedOpenings(openings, gap, k + 1); }
  }

  /** Half-open closes only on a success that completes max(1, successThreshold) of them, no failure
      having been recorded since half-opening. */
  lemma ClosesAfterSuccesses(cfg: Config, events: seq<Event>, e: Event)
    requires Monotone(events + [e])
    requires Run(cfg, events).breaker.HalfOpen? && Run(cfg, events + [e]).breaker.Closed?
    ensures var r := Run(cfg, events).reference;
            && e.Report? && e.success
            && r.AllHalfOpen? && AllTrue(r.results)
            && |r.results| + 1 == (if cfg.successThreshold == 0 then 1 else cfg.successThreshold)
  {
    assert (events + [e])[..|events|] == events;
    PrefixIsMonotone(events, e);
    EveryRunRefines(cfg, events);
  }

  function OpeningsWithin(openings: seq<nat>, lo: nat, hi: nat): nat {
    if openings == [] then 0
    else (if lo <= openings[0] <= hi then 1 else 0) + OpeningsWithin(openings[1..], lo, hi)
  }

  lemma {:induction false} SpacedCount(openings: seq<nat>, gap: nat, lo: nat, hi: nat)
    requires forall i | 0 <= i < |openings| - 1 :: openings[i] + gap <= openings[i + 1]
    requires lo <= hi
    ensures var n := OpeningsWithin(openings, lo, hi); n <= 1 || Times(n - 1, gap) <= hi - lo
    ensures openings != [] && hi < openings[0] ==> OpeningsWithin(openings, lo, hi) == 0
    decreases |openings|
  {
    if openings != [] {
      var rest := openings[1..];
      SpacedCount(rest, gap, lo, hi);
      if lo <= openings[0] <= hi && rest != [] {
        var from := openings[0] + gap;
        if from <= hi {
          SpacedCount(rest, gap, from, hi);
          SameFromLater(rest, gap, lo, from, hi);
        }
      }
    }
  }

  lemma {:induction false} SameFromLater(openings: seq<nat>, gap: nat, lo: nat, from: nat, hi: nat)
    requires forall i | 0 <= i < |openings| - 1 :: openings[i] + gap <= openings[i + 1]
    requires lo <= from && (openings != [] ==> from <= openings[0])
    ensures OpeningsWithin(openings, lo, hi) == OpeningsWithin(openings, from, hi)
    decreases |openings|
  {
    if openings != [] { SameFromLater(openings[1..], gap, lo, from, hi); }
  }

  /** Any span of length `span` sees at most span / openDuration + 1 openings. */
  lemma OpeningsBounded(cfg: Config, events: seq<Event>, from: nat, span: nat)
    requires Monotone(events)
    ensures var n := OpeningsWithin(Run(cfg, events).openings, from, from + span);
            n <= 1 || (n - 1) * cfg.openDuration <= span
  {
    EveryRunRefines(cfg, events);
    SpacedCount(Run(cfg, events).openings, cfg.openDuration, from, from + span);
    var n := OpeningsWithin(Run(cfg, events).openings, from, from + span);
    if n > 1 { TimesIsProduct(n - 1, cfg.openDuration); }
  }
}
