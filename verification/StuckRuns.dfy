/** Exactly when batches among readers can wait for each other for ever: when no global order suits them all. */
module StuckRuns {
  import opened Finite
  import opened SingleFlight
  import opened FillProgress
  import opened Knots

  /** The batches are tasks 0, 1, ..., and all other tasks are readers. */
  ghost predicate AmongReaders(tasks: map<nat, Task>, batches: seq<seq<Key>>) {
    && (forall t | t in tasks :: IsNew(tasks[t]) && (|batches| <= t ==> tasks[t].Reader?))
    && (forall b | 0 <= b < |batches| :: b in tasks && tasks[b] == NewBatch(batches[b]))
  }

  /** Some run of the batches among some readers gets stuck. */
  ghost predicate MayStick(batches: seq<seq<Key>>) {
    exists tasks, schedule :: AmongReaders(tasks, batches) && Stuck(Run(Start(tasks), schedule))
  }

  // ----- A stuck run shows a core -----

  /** Batches stay, with their keys, and readers stay readers. */
  ghost predicate SameLists(s: State, batches: seq<seq<Key>>) {
    && (forall t | t in s.tasks && s.tasks[t].Batch? :: t < |batches| && s.tasks[t].keys == batches[t])
    && (forall b | 0 <= b < |batches| :: b in s.tasks && s.tasks[b].Batch?)
  }

  lemma StepKeepsLists(s: State, batches: seq<seq<Key>>, t: nat, found: Cached)
    requires SameLists(s, batches)
    ensures SameLists(Step(s, t, found), batches)
  {
    if t in s.tasks && s.tasks[t].Batch? { BatchKeepsKeys(s, t, s.tasks[t], found); }
  }

  lemma {:induction false} ListsNeverChange(tasks: map<nat, Task>, batches: seq<seq<Key>>, schedule: seq<(nat, Cached)>)
    requires AmongReaders(tasks, batches)
    ensures SameLists(Run(Start(tasks), schedule), batches)
  {
    if schedule != [] {
      var n := |schedule| - 1;
      ListsNeverChange(tasks, batches, schedule[..n]);
      StepKeepsLists(Run(Start(tasks), schedule[..n]), batches, schedule[n].0, schedule[n].1);
    }
  }

  /** Task t waits for k. */
  ghost predicate Awaited(s: State, t: nat, k: Key) { Blocked(s, t) && AwaitedKey(s, t) == k }

  ghost function AwaitedKeys(s: State): set<Key> { set k | k in s.inflight && (exists t :: Awaited(s, t, k)) }

  lemma AwaitedIsInFlight(s: State, t: nat)
    requires Owned(s) && Blocked(s, t)
    ensures AwaitedKey(s, t) in AwaitedKeys(s)
  {
    BlockedOnALeader(s, t);
    assert Awaited(s, t, AwaitedKey(s, t));
  }

  /** A blocked task that holds a permit is a batch, and lists its key before the one it waits for. */
  lemma BlockedHolderListsBefore(b: Task, p: Permit)
    requires InBounds(b) && p in Permits(b) && Awaits(b).Some?
    ensures b.Batch? && Lists(b.keys, p.key, Awaits(b).value.key)
  {
    var i :| 0 <= i < |b.held| && b.held[i] == p;
    var m :| 0 <= m < b.next && b.keys[..b.next][m] == p.key;
    assert ListsAt(b.keys, p.key, m, b.keys[b.next], b.next);
  }

  /** In a stuck state the leader of an awaited key waits itself, for a key it lists later. */
  lemma AwaitedPrecedes(s: State, batches: seq<seq<Key>>, k: Key)
    requires Owned(s) && SameLists(s, batches) && Stuck(s) && k in AwaitedKeys(s)
    ensures PrecedesSome(batches, k, AwaitedKeys(s))
  {
    LeaderHolds(s, k);
    var u := s.inflight[k].leader;
    var p :| p in Permits(s.tasks[u]) && p.key == k && p.notify !in s.finished;
    StuckIsBlocked(s, u);
    assert InBounds(s.tasks[u]) by { assert TaskOk(s, u, s.tasks[u]); }
    BlockedHolderListsBefore(s.tasks[u], p);
    AwaitedIsInFlight(s, u);
    assert Precedes(batches, k, AwaitedKey(s, u));
  }

  lemma {:induction false} StuckHasCore(s: State, batches: seq<seq<Key>>)
    requires Owned(s) && SameLists(s, batches) && Stuck(s)
    ensures IsCore(batches, AwaitedKeys(s))
  {
    var t :| t in s.tasks && !Done(s.tasks[t]);
    StuckIsBlocked(s, t);
    AwaitedIsInFlight(s, t);
    forall k | k in AwaitedKeys(s) ensures PrecedesSome(batches, k, AwaitedKeys(s)) {
      AwaitedPrecedes(s, batches, k);
    }
  }

  // ----- From a knot to a stuck run: batches pass keys that readers of their own lead -----

  predicate BatchAt(s: State, b: nat, keys: seq<Key>, next: nat, phase: BatchPhase) {
    b in s.tasks && s.tasks[b].Batch? && s.tasks[b].keys == keys && s.tasks[b].next == next && s.tasks[b].phase == phase
  }

  /** Only tasks b and r changed, and the in-flight table is as before. */
  ghost predicate OnlyTwoChanged(s: State, s': State, b: nat, r: nat) {
    && s'.tasks.Keys == s.tasks.Keys && s'.inflight == s.inflight
    && forall u | u in s.tasks && u != b && u != r :: s'.tasks[u] == s.tasks[u]
  }

  /** Reader r leads the key batch b is at, and b follows. */
  lemma ReaderFirst(s: State, b: nat, keys: seq<Key>, next: nat, r: nat)
    requires BatchAt(s, b, keys, next, Starting) && next < |keys| && r in s.tasks && r != b
    requires s.tasks[r] == NewReader(keys[next]) && keys[next] !in s.inflight
    ensures var n := s.handles;
            var s' := Step(Step(s, r, Miss), b, Miss);
            && BatchAt(s', b, keys, next, Following(n)) && r in s'.tasks
            && s'.tasks[r] == Reader(keys[next], Leading(n))
            && s'.inflight == s.inflight[keys[next] := Fill(n, r)]
            && s'.tasks.Keys == s.tasks.Keys && forall u | u in s.tasks && u != b && u != r :: s'.tasks[u] == s.tasks[u]
  {
    var s1 := Step(s, r, Miss);
    assert BatchAt(s1, b, keys, next, Starting) && s1.tasks[r] == Reader(keys[next], Leading(s.handles));
  }

  /** The reader finishes; the batch wakes and finds the count. */
  lemma BatchAfter(s: State, b: nat, keys: seq<Key>, next: nat, r: nat, n: nat)
    requires BatchAt(s, b, keys, next, Following(n)) && next < |keys| && r in s.tasks && r != b
    requires s.tasks[r] == Reader(keys[next], Leading(n)) && keys[next] in s.inflight
    requires s.inflight[keys[next]].notify == n
    ensures var s' := Step(Step(Step(s, r, Miss), b, Miss), b, Hit);
            && BatchAt(s', b, keys, next + 1, Starting) && s'.inflight == s.inflight - {keys[next]}
            && s'.tasks.Keys == s.tasks.Keys && forall u | u in s.tasks && u != b && u != r :: s'.tasks[u] == s.tasks[u]
  {
    var s1 := Step(s, r, Miss);
    assert BatchAt(s1, b, keys, next, Following(n)) && n in s1.finished;
    var s2 := Step(s1, b, Miss);
    assert BatchAt(s2, b, keys, next, Looking(n));
  }

  function PassSchedule(b: nat, r: nat): seq<(nat, Cached)> { [(r, Miss), (b, Miss), (r, Miss), (b, Miss), (b, Hit)] }

  lemma FiveSteps(s: State, a: (nat, Cached), b: (nat, Cached), c: (nat, Cached), d: (nat, Cached), e: (nat, Cached))
    ensures Run(s, [a, b, c, d, e])
         == Step(Step(Step(Step(Step(s, a.0, a.1), b.0, b.1), c.0, c.1), d.0, d.1), e.0, e.1)
  {
    RunStep(s, [], a);
    RunStep(s, [a], b);
    RunStep(s, [a, b], c);
    RunStep(s, [a, b, c], d);
    RunStep(s, [a, b, c, d], e);
    assert [] + [a] == [a] && [a] + [b] == [a, b] && [a, b] + [c] == [a, b, c];
    assert [a, b, c] + [d] == [a, b, c, d] && [a, b, c, d] + [e] == [a, b, c, d, e];
  }

  /** A batch passes a key nobody leads, with a fresh reader of it. */
  lemma Passes(s: State, b: nat, keys: seq<Key>, next: nat, r: nat)
    requires BatchAt(s, b, keys, next, Starting) && next < |keys| && r in s.tasks && r != b
    requires s.tasks[r] == NewReader(keys[next]) && keys[next] !in s.inflight
    ensures var s' := Run(s, PassSchedule(b, r));
            BatchAt(s', b, keys, next + 1, Starting) && OnlyTwoChanged(s, s', b, r)
  {
    FiveSteps(s, (r, Miss), (b, Miss), (r, Miss), (b, Miss), (b, Hit));
    ReaderFirst(s, b, keys, next, r);
    BatchAfter(Step(Step(s, r, Miss), b, Miss), b, keys, next, r, s.handles);
    assert s.inflight[keys[next] := Fill(s.handles, r)] - {keys[next]} == s.inflight;
  }

  // ----- Enough readers for every batch to pass every key -----

  function Flat(batches: seq<seq<Key>>): seq<Key> {
    if batches == [] then [] else Flat(batches[..|batches| - 1]) + batches[|batches| - 1]
  }

  /** Batches, then one reader for each of their positions. */
  function Company(batches: seq<seq<Key>>): map<nat, Task> {
    map t | 0 <= t < |batches| + |Flat(batches)| ::
      if t < |batches| then NewBatch(batches[t]) else NewReader(Flat(batches)[t - |batches|])
  }

  function Offset(batches: seq<seq<Key>>, b: nat): nat
    requires b <= |batches|
  {
    |Flat(batches[..b])|
  }

  /** The reader kept for position p of batch b. */
  function ReaderOf(batches: seq<seq<Key>>, b: nat, p: nat): nat
    requires b < |batches|
  {
    |batches| + Offset(batches, b) + p
  }

  lemma OffsetNext(batches: seq<seq<Key>>, b: nat)
    requires b < |batches|
    ensures Offset(batches, b + 1) == Offset(batches, b) + |batches[b]|
    ensures Flat(batches[..b + 1]) == Flat(batches[..b]) + batches[b]
  {
    assert batches[..b + 1][..b] == batches[..b];
  }

  lemma {:induction false} OffsetsClimb(batches: seq<seq<Key>>, b: nat, c: nat)
    requires b < c <= |batches|
    ensures Offset(batches, b) + |batches[b]| <= Offset(batches, c)
    ensures forall p | 0 <= p < |batches[b]| :: Flat(batches[..c])[Offset(batches, b) + p] == batches[b][p]
    decreases c - b
  {
    OffsetNext(batches, c - 1);
    if b + 1 < c { OffsetsClimb(batches, b, c - 1); }
  }

  lemma ReadersApart(batches: seq<seq<Key>>, b: nat, p: nat, c: nat, q: nat)
    requires b < |batches| && c < |batches| && p < |batches[b]| && q < |batches[c]| && (b != c || p != q)
    ensures ReaderOf(batches, b, p) != ReaderOf(batches, c, q)
  {
    if b < c { OffsetsClimb(batches, b, c); }
    if c < b { OffsetsClimb(batches, c, b); }
  }

  lemma CompanyHasReader(batches: seq<seq<Key>>, b: nat, p: nat)
    requires b < |batches| && p < |batches[b]|
    ensures var r := ReaderOf(batches, b, p);
            r in Company(batches) && Company(batches)[r] == NewReader(batches[b][p])
  {
    OffsetsClimb(batches, b, |batches|);
    assert batches[..|batches|] == batches;
  }

  lemma CompanyIsAmongReaders(batches: seq<seq<Key>>)
    ensures AmongReaders(Company(batches), batches)
  {
    var tasks := Company(batches);
    forall t | t in tasks ensures IsNew(tasks[t]) && (|batches| <= t ==> tasks[t].Reader?) {
      assert tasks[t] == if t < |batches| then NewBatch(batches[t]) else NewReader(Flat(batches)[t - |batches|]);
    }
    forall b | 0 <= b < |batches| ensures b in tasks && tasks[b] == NewBatch(batches[b]) {
    }
  }

  // ----- The knot's batches take their places -----

  function KeysOf(batches: seq<seq<Key>>, b: nat): seq<Key> { if b < |batches| then batches[b] else [] }

  predicate ReaderReady(s: State, batches: seq<seq<Key>>, b: nat, p: nat)
    requires b < |batches| && p < |batches[b]|
  {
    var r := ReaderOf(batches, b, p); r in s.tasks && s.tasks[r] == NewReader(batches[b][p])
  }

  /** Batch b is at position p, about to begin, with a fresh reader for each key from there on. */
  ghost predicate StandsAt(s: State, batches: seq<seq<Key>>, b: nat, p: nat) {
    && b < |batches| && p <= |batches[b]| && BatchAt(s, b, batches[b], p, Starting)
    && forall q | p <= q < |batches[b]| :: ReaderReady(s, batches, b, q)
  }

  /** Each batch of the knot stands at its position; those of `led` have led their keys, and nothing else is in
      flight. */
  ghost predicate Stands(s: State, batches: seq<seq<Key>>, knot: map<Key, Place>, pos: map<Key, nat>, led: set<Key>) {
    && pos.Keys == knot.Keys && s.inflight.Keys == led && led <= knot.Keys
    && (forall k | k in led :: s.inflight[k].leader == knot[k].batch)
    && forall k | k in knot :: StandsAt(s, batches, knot[k].batch, pos[k])
  }

  /** Batch b passed a key with its reader; another batch is not disturbed. */
  lemma OthersStand(s: State, s': State, batches: seq<seq<Key>>, b: nat, p: nat, c: nat, q: nat)
    requires b < |batches| && p < |batches[b]| && c != b && StandsAt(s, batches, c, q)
    requires OnlyTwoChanged(s, s', b, ReaderOf(batches, b, p))
    ensures StandsAt(s', batches, c, q)
  {
    forall m | q <= m < |batches[c]| ensures ReaderReady(s', batches, c, m) {
      assert ReaderReady(s, batches, c, m);
      ReadersApart(batches, b, p, c, m);
    }
  }

  lemma PassedStands(s: State, s': State, batches: seq<seq<Key>>, b: nat, p: nat)
    requires StandsAt(s, batches, b, p) && p < |batches[b]| && BatchAt(s', b, batches[b], p + 1, Starting)
    requires OnlyTwoChanged(s, s', b, ReaderOf(batches, b, p))
    ensures StandsAt(s', batches, b, p + 1)
  {
    forall m | p + 1 <= m < |batches[b]| ensures ReaderReady(s', batches, b, m) {
      assert ReaderReady(s, batches, b, m);
      ReadersApart(batches, b, p, b, m);
    }
  }

  /** One batch of the knot passes one key. */
  lemma PassOne(s: State, batches: seq<seq<Key>>, knot: map<Key, Place>, pos: map<Key, nat>, led: set<Key>, k: Key)
      returns (more: seq<(nat, Cached)>)
    requires IsKnot(batches, knot) && Stands(s, batches, knot, pos, led) && k in knot
    requires var keys := KeysOf(batches, knot[k].batch); pos[k] < |keys| && keys[pos[k]] !in led
    ensures Stands(Run(s, more), batches, knot, pos[k := pos[k] + 1], led)
  {
    var b, p := knot[k].batch, pos[k];
    var r := ReaderOf(batches, b, p);
    assert StandsAt(s, batches, b, p) && ReaderReady(s, batches, b, p);
    more := PassSchedule(b, r);
    Passes(s, b, batches[b], p, r);
    var s' := Run(s, more);
    PassedStands(s, s', batches, b, p);
    forall l | l in knot && l != k ensures StandsAt(s', batches, knot[l].batch, pos[l]) {
      assert !Clash(knot, k, l);
      OthersStand(s, s', batches, b, p, knot[l].batch, pos[l]);
    }
  }

  /** It passes keys up to position q. */
  lemma {:induction false} AdvanceTo(s: State, batches: seq<seq<Key>>, knot: map<Key, Place>, pos: map<Key, nat>,
                                     led: set<Key>, k: Key, q: nat)
      returns (more: seq<(nat, Cached)>)
    requires IsKnot(batches, knot) && Stands(s, batches, knot, pos, led) && k in knot
    requires var keys := KeysOf(batches, knot[k].batch);
             pos[k] <= q <= |keys| && forall p | pos[k] <= p < q :: keys[p] !in led
    ensures Stands(Run(s, more), batches, knot, pos[k := q], led)
    decreases q - pos[k]
  {
    if pos[k] == q {
      more := [];
      assert pos[k := q] == pos;
    } else {
      var first := PassOne(s, batches, knot, pos, led, k);
      var pos' := pos[k := pos[k] + 1];
      var rest := AdvanceTo(Run(s, first), batches, knot, pos', led, k, q);
      assert pos'[k := q] == pos[k := q];
      RunOn(s, first, rest);
      more := first + rest;
    }
  }

  /** Every position to be reached lies ahead, with no key in flight before it. */
  ghost predicate Reachable(batches: seq<seq<Key>>, knot: map<Key, Place>, pos: map<Key, nat>, goal: map<Key, nat>,
                            led: set<Key>) {
    && pos.Keys == knot.Keys == goal.Keys
    && forall k | k in knot ::
         var keys := KeysOf(batches, knot[k].batch);
         pos[k] <= goal[k] <= |keys| && forall p | pos[k] <= p < goal[k] :: keys[p] !in led
  }

  ghost function Apart(pos: map<Key, nat>, goal: map<Key, nat>): set<Key>
    requires pos.Keys == goal.Keys
  {
    set k | k in pos && pos[k] != goal[k]
  }

  lemma ApartShrinks(pos: map<Key, nat>, goal: map<Key, nat>, k: Key)
    requires pos.Keys == goal.Keys && k in Apart(pos, goal)
    ensures pos[k := goal[k]].Keys == goal.Keys && Apart(pos[k := goal[k]], goal) == Apart(pos, goal) - {k}
  {
  }

  lemma NothingApart(pos: map<Key, nat>, goal: map<Key, nat>)
    requires pos.Keys == goal.Keys && Apart(pos, goal) == {}
    ensures pos == goal
  {
    assert forall k | k in pos :: k !in Apart(pos, goal);
  }

  lemma StaysReachable(batches: seq<seq<Key>>, knot: map<Key, Place>, pos: map<Key, nat>, goal: map<Key, nat>,
                       led: set<Key>, k: Key)
    requires Reachable(batches, knot, pos, goal, led) && k in knot
    ensures Reachable(batches, knot, pos[k := goal[k]], goal, led)
  {
  }

  lemma {:induction false} AdvanceAll(s: State, batches: seq<seq<Key>>, knot: map<Key, Place>, pos: map<Key, nat>,
                                      goal: map<Key, nat>, led: set<Key>)
      returns (more: seq<(nat, Cached)>)
    requires IsKnot(batches, knot) && Stands(s, batches, knot, pos, led) && Reachable(batches, knot, pos, goal, led)
    ensures Stands(Run(s, more), batches, knot, goal, led)
    decreases |Apart(pos, goal)|
  {
    if Apart(pos, goal) == {} {
      more := [];
      NothingApart(pos, goal);
    } else {
      var k :| k in Apart(pos, goal);
      var first := AdvanceTo(s, batches, knot, pos, led, k, goal[k]);
      ApartShrinks(pos, goal, k);
      StaysReachable(batches, knot, pos, goal, led, k);
      var rest := AdvanceAll(Run(s, first), batches, knot, pos[k := goal[k]], goal, led);
      RunOn(s, first, rest);
      more := first + rest;
    }
  }

  // ----- They lead their keys, and then meet each other's -----

  /** The position of each key in its own batch, and the one after. */
  function Own(knot: map<Key, Place>): map<Key, nat> { map k | k in knot :: knot[k].at }

  ghost function Past(knot: map<Key, Place>, led: set<Key>): map<Key, nat> {
    map k | k in knot :: if k in led then knot[k].at + 1 else knot[k].at
  }

  lemma PastOneMore(knot: map<Key, Place>, led: set<Key>, k: Key)
    requires k in knot && k !in led
    ensures Past(knot, led)[k] == knot[k].at && Past(knot, led + {k})[k] == knot[k].at + 1
    ensures forall l | l in knot && l != k :: Past(knot, led + {k})[l] == Past(knot, led)[l]
  {
  }

  lemma LeadIsEntered(s: State, batches: seq<seq<Key>>, knot: map<Key, Place>, led: set<Key>, k: Key)
    requires IsKnot(batches, knot) && Stands(s, batches, knot, Past(knot, led), led) && k in knot && k !in led
    ensures var s' := Step(s, knot[k].batch, Miss);
            && StandsAt(s', batches, knot[k].batch, Past(knot, led + {k})[k]) && s'.inflight.Keys == led + {k}
            && forall l | l in led + {k} :: s'.inflight[l].leader == knot[l].batch
  {
    PastOneMore(knot, led, k);
    assert PlaceOk(batches, knot, k);
    assert StandsAt(s, batches, knot[k].batch, Past(knot, led)[k]);
    LeaderStands(s, batches, knot[k].batch, knot[k].at);
  }

  /** One batch of the knot leads its key. */
  lemma LeadOne(s: State, batches: seq<seq<Key>>, knot: map<Key, Place>, led: set<Key>, k: Key)
    requires IsKnot(batches, knot) && Stands(s, batches, knot, Past(knot, led), led) && k in knot && k !in led
    ensures Stands(Step(s, knot[k].batch, Miss), batches, knot, Past(knot, led + {k}), led + {k})
  {
    var s' := Step(s, knot[k].batch, Miss);
    LeadIsEntered(s, batches, knot, led, k);
    forall l | l in knot ensures StandsAt(s', batches, knot[l].batch, Past(knot, led + {k})[l]) {
      if l != k { OtherStandsAfterLead(s, batches, knot, led, k, l); }
    }
  }

  lemma OtherStandsAfterLead(s: State, batches: seq<seq<Key>>, knot: map<Key, Place>, led: set<Key>, k: Key, l: Key)
    requires IsKnot(batches, knot) && Stands(s, batches, knot, Past(knot, led), led)
    requires k in knot && k !in led && l in knot && l != k
    ensures StandsAt(Step(s, knot[k].batch, Miss), batches, knot[l].batch, Past(knot, led + {k})[l])
  {
    PastOneMore(knot, led, k);
    assert !Clash(knot, k, l) && StandsAt(s, batches, knot[l].batch, Past(knot, led)[l]);
    assert StandsAt(s, batches, knot[k].batch, knot[k].at);
    LedOthersStand(s, batches, knot[k].batch, knot[k].at, knot[l].batch, Past(knot, led)[l]);
  }

  lemma LeaderStands(s: State, batches: seq<seq<Key>>, b: nat, p: nat)
    requires StandsAt(s, batches, b, p) && p < |batches[b]| && batches[b][p] !in s.inflight
    ensures var s' := Step(s, b, Miss);
            StandsAt(s', batches, b, p + 1) && s'.inflight == s.inflight[batches[b][p] := Fill(s.handles, b)]
  {
    forall m | p + 1 <= m < |batches[b]| ensures ReaderReady(Step(s, b, Miss), batches, b, m) {
      assert ReaderReady(s, batches, b, m);
    }
  }

  lemma LedOthersStand(s: State, batches: seq<seq<Key>>, b: nat, p: nat, c: nat, q: nat)
    requires StandsAt(s, batches, b, p) && StandsAt(s, batches, c, q) && b != c
    ensures StandsAt(Step(s, b, Miss), batches, c, q)
  {
    BatchKeepsKeys(s, b, s.tasks[b], Miss);
    forall m | q <= m < |batches[c]| ensures ReaderReady(Step(s, b, Miss), batches, c, m) {
      assert ReaderReady(s, batches, c, m);
    }
  }

  lemma OneStepRun(s: State, t: nat, found: Cached, rest: seq<(nat, Cached)>)
    ensures Run(s, [(t, found)] + rest) == Run(Step(s, t, found), rest)
  {
    RunStep(s, [], (t, found));
    assert [] + [(t, found)] == [(t, found)];
    RunOn(s, [(t, found)], rest);
  }

  lemma FewerLeft<T>(all: set<T>, some: set<T>, x: T)
    requires x in all && x !in some
    ensures |all - (some + {x})| < |all - some|
  {
    assert all - (some + {x}) == (all - some) - {x};
  }

  lemma {:induction false} LeadAll(s: State, batches: seq<seq<Key>>, knot: map<Key, Place>, led: set<Key>)
      returns (more: seq<(nat, Cached)>)
    requires IsKnot(batches, knot) && Stands(s, batches, knot, Past(knot, led), led)
    ensures Stands(Run(s, more), batches, knot, Past(knot, knot.Keys), knot.Keys)
    decreases |knot.Keys - led|
  {
    if led == knot.Keys {
      more := [];
    } else {
      var k :| k in knot.Keys && k !in led;
      LeadOne(s, batches, knot, led, k);
      FewerLeft(knot.Keys, led, k);
      var rest := LeadAll(Step(s, knot[k].batch, Miss), batches, knot, led + {k});
      OneStepRun(s, knot[k].batch, Miss, rest);
      more := [(knot[k].batch, Miss)] + rest;
    }
  }

  /** The first position from p on that holds one of these keys. */
  function FirstOf(keys: seq<Key>, p: nat, wanted: set<Key>): (q: nat)
    requires p <= |keys|
    ensures p <= q <= |keys| && (q < |keys| ==> keys[q] in wanted) && forall m | p <= m < q :: keys[m] !in wanted
    decreases |keys| - p
  {
    if p == |keys| || keys[p] in wanted then p else FirstOf(keys, p + 1, wanted)
  }

  /** Where each batch of the knot first meets a key of the knot after its own. */
  ghost function Meeting(batches: seq<seq<Key>>, knot: map<Key, Place>): map<Key, nat> {
    map k | k in knot :: var keys := KeysOf(batches, knot[k].batch);
                         if knot[k].at < |keys| then FirstOf(keys, knot[k].at + 1, knot.Keys) else 0
  }

  lemma MeetsOne(batches: seq<seq<Key>>, knot: map<Key, Place>, k: Key)
    requires IsKnot(batches, knot) && k in knot
    ensures var keys, q := KeysOf(batches, knot[k].batch), Meeting(batches, knot)[k];
            knot[k].at < q < |keys| && keys[q] in knot && forall m | knot[k].at < m < q :: keys[m] !in knot
  {
    assert PlaceOk(batches, knot, k);
    var keys := batches[knot[k].batch];
    assert keys[knot[k].after] in knot.Keys;
  }

  // ----- There they wait for ever -----

  /** Batch b waits, or is about to wait, for a key of the knot. */
  ghost predicate Meets(s: State, batches: seq<seq<Key>>, knot: map<Key, Place>, b: nat) {
    && b in s.tasks && s.tasks[b].Batch? && b < |batches| && s.tasks[b].keys == batches[b]
    && s.tasks[b].next < |batches[b]| && batches[b][s.tasks[b].next] in knot
  }

  /** It waits for the live fill of that key. */
  ghost predicate WaitsForFill(s: State, b: nat) {
    && b in s.tasks && s.tasks[b].Batch? && s.tasks[b].next < |s.tasks[b].keys|
    && var k := s.tasks[b].keys[s.tasks[b].next];
       k in s.inflight && s.tasks[b].phase == Following(s.inflight[k].notify)
  }

  /** The batches of the knot lead its keys. */
  ghost predicate LeadKnot(s: State, knot: map<Key, Place>) {
    forall k | k in knot :: k in s.inflight && s.inflight[k].leader == knot[k].batch
  }

  /** Each batch of the knot is at a key of the knot, and those of `waiting` wait. */
  ghost predicate HaveMet(s: State, batches: seq<seq<Key>>, knot: map<Key, Place>, waiting: set<Key>) {
    LeadKnot(s, knot) && forall k {:trigger HasMet(s, batches, knot, waiting, k)} | k in knot ::
                           HasMet(s, batches, knot, waiting, k)
  }

  ghost predicate HasMet(s: State, batches: seq<seq<Key>>, knot: map<Key, Place>, waiting: set<Key>, k: Key)
    requires k in knot
  {
    var b := knot[k].batch;
    Meets(s, batches, knot, b) && if k in waiting then WaitsForFill(s, b) else s.tasks[b].phase.Starting?
  }

  lemma BatchBeginsToWait(s: State, b: nat)
    requires b in s.tasks && s.tasks[b].Batch? && s.tasks[b].phase.Starting? && s.tasks[b].next < |s.tasks[b].keys|
    requires s.tasks[b].keys[s.tasks[b].next] in s.inflight
    ensures var s' := Step(s, b, Miss);
            && s'.inflight == s.inflight && WaitsForFill(s', b) && s'.tasks[b].Batch?
            && s'.tasks[b].keys == s.tasks[b].keys && s'.tasks[b].next == s.tasks[b].next
  {
  }

  lemma WaitOne(s: State, batches: seq<seq<Key>>, knot: map<Key, Place>, waiting: set<Key>, k: Key)
    requires IsKnot(batches, knot) && HaveMet(s, batches, knot, waiting) && k in knot && k !in waiting
    ensures HaveMet(Step(s, knot[k].batch, Miss), batches, knot, waiting + {k})
  {
    var b := knot[k].batch;
    assert HasMet(s, batches, knot, waiting, k);
    BatchBeginsToWait(s, b);
    forall l | l in knot ensures HasMet(Step(s, b, Miss), batches, knot, waiting + {k}, l) {
      assert !Clash(knot, k, l) && HasMet(s, batches, knot, waiting, l);
      if l != k { OtherTasksStay(s, b, Miss, knot[l].batch); }
    }
  }

  lemma {:induction false} WaitAll(s: State, batches: seq<seq<Key>>, knot: map<Key, Place>, waiting: set<Key>)
      returns (more: seq<(nat, Cached)>)
    requires IsKnot(batches, knot) && HaveMet(s, batches, knot, waiting) && waiting <= knot.Keys
    ensures HaveMet(Run(s, more), batches, knot, knot.Keys)
    decreases |knot.Keys - waiting|
  {
    if waiting == knot.Keys {
      more := [];
    } else {
      var k :| k in knot.Keys && k !in waiting;
      WaitOne(s, batches, knot, waiting, k);
      FewerLeft(knot.Keys, waiting, k);
      var rest := WaitAll(Step(s, knot[k].batch, Miss), batches, knot, waiting + {k});
      OneStepRun(s, knot[k].batch, Miss, rest);
      more := [(knot[k].batch, Miss)] + rest;
    }
  }

  /** All batches of the knot wait, each for one of them. */
  ghost predicate Locked(s: State, knot: map<Key, Place>) {
    LeadKnot(s, knot) && forall k {:trigger WaitsInKnot(s, knot, knot[k].batch)} | k in knot ::
                           WaitsInKnot(s, knot, knot[k].batch)
  }

  ghost predicate WaitsInKnot(s: State, knot: map<Key, Place>, b: nat) {
    WaitsForFill(s, b) && s.tasks[b].keys[s.tasks[b].next] in knot
  }

  /** A waiting batch cannot move. */
  lemma WaitingStays(s: State, b: nat, found: Cached)
    requires Owned(s) && WaitsForFill(s, b)
    ensures Step(s, b, found) == s && !Done(s.tasks[b])
  {
    assert EntryOk(s, s.tasks[b].keys[s.tasks[b].next]);
  }

  /** A step replaces no live entry, and removes only the mover's own. */
  lemma EntriesStay(s: State, t: nat, found: Cached, k: Key)
    requires Owned(s) && k in s.inflight && s.inflight[k].leader != t
    ensures var s' := Step(s, t, found); k in s'.inflight && s'.inflight[k] == s.inflight[k]
  {
    StepKeeps(s, t, found);
    EntriesAreNotReplaced(s, t, found, k);
  }

  lemma EntriesAreNotReplaced(s: State, t: nat, found: Cached, k: Key)
    requires k in s.inflight && k in Step(s, t, found).inflight
    ensures Step(s, t, found).inflight[k] == s.inflight[k]
  {
  }

  lemma OtherTasksStay(s: State, t: nat, found: Cached, u: nat)
    requires u in s.tasks && u != t
    ensures var s' := Step(s, t, found); u in s'.tasks && s'.tasks[u] == s.tasks[u]
  {
  }

  /** So a locked knot stays locked, whatever the others do. */
  lemma {:induction false} StaysLocked(s: State, knot: map<Key, Place>, t: nat, found: Cached)
    requires Owned(s) && Locked(s, knot)
    ensures Locked(Step(s, t, found), knot)
  {
    if k :| k in knot && knot[k].batch == t {
      assert WaitsInKnot(s, knot, knot[k].batch);
      WaitingStays(s, t, found);
    } else {
      forall k | k in knot ensures k in Step(s, t, found).inflight && Step(s, t, found).inflight[k] == s.inflight[k] {
        EntriesStay(s, t, found, k);
      }
      forall k | k in knot ensures WaitsInKnot(Step(s, t, found), knot, knot[k].batch) {
        assert WaitsInKnot(s, knot, knot[k].batch);
        OtherTasksStay(s, t, found, knot[k].batch);
      }
    }
  }

  /** The other tasks come to the end of their steps; then the run is stuck. */
  lemma {:induction false} LockedRunsDry(s: State, knot: map<Key, Place>) returns (more: seq<(nat, Cached)>)
    requires Owned(s) && Locked(s, knot) && knot != map[]
    ensures Stuck(Run(s, more))
    decreases Budget(s)
  {
    if t, found :| Step(s, t, found) != s {
      EffectiveStepSpends(s, t, found);
      StepKeeps(s, t, found);
      StaysLocked(s, knot, t, found);
      var rest := LockedRunsDry(Step(s, t, found), knot);
      OneStepRun(s, t, found, rest);
      more := [(t, found)] + rest;
    } else {
      more := [];
      LockedIsUndone(s, knot);
    }
  }

  lemma LockedIsUndone(s: State, knot: map<Key, Place>)
    requires Owned(s) && Locked(s, knot) && knot != map[]
    ensures exists t :: t in s.tasks && !Done(s.tasks[t])
  {
    var k :| k in knot;
    assert WaitsInKnot(s, knot, knot[k].batch);
    WaitingStays(s, knot[k].batch, Miss);
  }

  // ----- The exact condition -----

  lemma CompanyStands(batches: seq<seq<Key>>, knot: map<Key, Place>)
    requires IsKnot(batches, knot)
    ensures Stands(Start(Company(batches)), batches, knot, map k | k in knot :: 0, {})
  {
    var s := Start(Company(batches));
    forall k | k in knot ensures StandsAt(s, batches, knot[k].batch, 0) {
      assert PlaceOk(batches, knot, k);
      forall q | 0 <= q < |batches[knot[k].batch]| ensures ReaderReady(s, batches, knot[k].batch, q) {
        CompanyHasReader(batches, knot[k].batch, q);
      }
    }
  }

  lemma OwnIsReachable(batches: seq<seq<Key>>, knot: map<Key, Place>)
    requires IsKnot(batches, knot)
    ensures Reachable(batches, knot, map k | k in knot :: 0, Past(knot, {}), {})
  {
    forall k | k in knot ensures knot[k].at <= |KeysOf(batches, knot[k].batch)| {
      assert PlaceOk(batches, knot, k);
    }
  }

  lemma MeetingIsReachable(batches: seq<seq<Key>>, knot: map<Key, Place>)
    requires IsKnot(batches, knot)
    ensures Reachable(batches, knot, Past(knot, knot.Keys), Meeting(batches, knot), knot.Keys)
  {
    forall k | k in knot
      ensures var keys, q := KeysOf(batches, knot[k].batch), Meeting(batches, knot)[k];
              knot[k].at + 1 <= q <= |keys| && forall p | knot[k].at + 1 <= p < q :: keys[p] !in knot.Keys
    {
      MeetsOne(batches, knot, k);
    }
  }

  lemma StandsMeets(s: State, batches: seq<seq<Key>>, knot: map<Key, Place>)
    requires IsKnot(batches, knot) && Stands(s, batches, knot, Meeting(batches, knot), knot.Keys)
    ensures HaveMet(s, batches, knot, {})
  {
    forall k | k in knot ensures HasMet(s, batches, knot, {}, k) {
      assert StandsAt(s, batches, knot[k].batch, Meeting(batches, knot)[k]);
      MeetsOne(batches, knot, k);
    }
  }

  lemma MetLocks(s: State, batches: seq<seq<Key>>, knot: map<Key, Place>)
    requires HaveMet(s, batches, knot, knot.Keys)
    ensures Locked(s, knot)
  {
    forall k | k in knot ensures WaitsInKnot(s, knot, knot[k].batch) {
      assert HasMet(s, batches, knot, knot.Keys, k);
    }
  }

  /** The batches of a knot, each with readers of its own, come to wait for each other. */
  lemma KnotLocks(batches: seq<seq<Key>>, knot: map<Key, Place>) returns (schedule: seq<(nat, Cached)>)
    requires IsKnot(batches, knot)
    ensures Locked(Run(Start(Company(batches)), schedule), knot)
  {
    var start := Start(Company(batches));
    CompanyStands(batches, knot);
    OwnIsReachable(batches, knot);
    var first := AdvanceAll(start, batches, knot, map k | k in knot :: 0, Past(knot, {}), {});
    var second := LeadAll(Run(start, first), batches, knot, {});
    RunOn(start, first, second);
    MeetingIsReachable(batches, knot);
    var third := AdvanceAll(Run(start, first + second), batches, knot, Past(knot, knot.Keys), Meeting(batches, knot),
                            knot.Keys);
    RunOn(start, first + second, third);
    var s := Run(start, first + second + third);
    StandsMeets(s, batches, knot);
    var fourth := WaitAll(s, batches, knot, {});
    RunOn(start, first + second + third, fourth);
    schedule := first + second + third + fourth;
    MetLocks(Run(start, schedule), batches, knot);
  }

  lemma KnotSticks(batches: seq<seq<Key>>, knot: map<Key, Place>)
    requires IsKnot(batches, knot)
    ensures MayStick(batches)
  {
    var tasks := Company(batches);
    var schedule := KnotLocks(batches, knot);
    CompanyIsAmongReaders(batches);
    EveryRunIsOwned(tasks, schedule);
    var more := LockedRunsDry(Run(Start(tasks), schedule), knot);
    RunOn(Start(tasks), schedule, more);
    assert Stuck(Run(Start(tasks), schedule + more));
  }

  lemma StuckRunHasCore(tasks: map<nat, Task>, batches: seq<seq<Key>>, schedule: seq<(nat, Cached)>)
    requires AmongReaders(tasks, batches) && Stuck(Run(Start(tasks), schedule))
    ensures IsCore(batches, AwaitedKeys(Run(Start(tasks), schedule)))
  {
    EveryRunIsOwned(tasks, schedule);
    ListsNeverChange(tasks, batches, schedule);
    StuckHasCore(Run(Start(tasks), schedule), batches);
  }

  /** Any number of batches, whatever they list and repeat: some run of them among readers gets stuck exactly
      when no order of the keys makes every batch strictly increasing. */
  lemma {:induction false} StuckIffNoOrder(batches: seq<seq<Key>>)
    ensures MayStick(batches) <==> !Orderable(batches)
  {
    OrderableIffNoCore(batches);
    if core :| IsCore(batches, core) {
      var knot := CoreHasKnot(batches, core);
      KnotSticks(batches, knot);
    }
    if tasks, schedule :| AmongReaders(tasks, batches) && Stuck(Run(Start(tasks), schedule)) {
      StuckRunHasCore(tasks, batches, schedule);
    }
  }

  /** With an order, every run of the batches among any readers that cannot move any more has answered them all. */
  lemma {:induction false} OrderableRunsGetDone(tasks: map<nat, Task>, batches: seq<seq<Key>>,
                                                schedule: seq<(nat, Cached)>)
    requires Orderable(batches) && AmongReaders(tasks, batches)
    ensures var start, s := Start(tasks), Run(Start(tasks), schedule);
            && EffectiveSteps(start, schedule) <= Budget(start)
            && ((forall t, found :: Step(s, t, found) == s) ==> AllDone(s))
  {
    StuckIffNoOrder(batches);
    EffectiveStepsAreBounded(tasks, schedule);
    var s := Run(Start(tasks), schedule);
    assert !Stuck(s);
  }

  /** One batch: it can get stuck among readers exactly when it repeats a key. */
  lemma {:induction false} OneSticksIffRepeats(keys: seq<Key>)
    ensures MayStick([keys]) <==> !Distinct(keys)
  {
    StuckIffNoOrder([keys]);
    OrderableIffNoCore([keys]);
    if !Distinct(keys) {
      var i, j :| 0 <= i < j < |keys| && keys[i] == keys[j];
      assert ListsAt([keys][0], keys[i], i, keys[i], j);
      assert Precedes([keys], keys[i], keys[i]);
      assert PrecedesSome([keys], keys[i], {keys[i]});
      assert IsCore([keys], {keys[i]});
    }
    if core :| IsCore([keys], core) {
      var knot := CoreHasKnot([keys], core);
      KnotOfOneRepeats(keys, knot);
    }
  }

  lemma {:induction false} KnotOfOneRepeats(keys: seq<Key>, knot: map<Key, Place>)
    requires IsKnot([keys], knot)
    ensures !Distinct(keys)
  {
    var k :| k in knot;
    assert PlaceOk([keys], knot, k);
    var l := keys[knot[k].after];
    assert PlaceOk([keys], knot, l);
    assert !Clash(knot, k, l);
    assert keys[knot[k].at] == keys[knot[k].after];
  }

  /** Two keys that the batches list in opposite orders. */
  ghost predicate Opposite(a: seq<Key>, b: seq<Key>) {
    exists k, l :: Lists(a, k, l) && Lists(b, l, k)
  }

  /** Two batches of distinct keys can get stuck among readers exactly when they list two keys in opposite orders. */
  lemma {:induction false} PairSticksIffOpposite(a: seq<Key>, b: seq<Key>)
    requires Distinct(a) && Distinct(b)
    ensures MayStick([a, b]) <==> Opposite(a, b)
  {
    StuckIffNoOrder([a, b]);
    OrderableIffNoCore([a, b]);
    if k, l :| Lists(a, k, l) && Lists(b, l, k) {
      assert [a, b][0] == a && [a, b][1] == b;
      assert Precedes([a, b], k, l) && Precedes([a, b], l, k);
      assert PrecedesSome([a, b], k, {k, l}) && PrecedesSome([a, b], l, {k, l});
      assert IsCore([a, b], {k, l});
    }
    if core :| IsCore([a, b], core) {
      var knot := CoreHasKnot([a, b], core);
      KnotOfTwoIsOpposite(a, b, knot);
    }
  }

  /** A batch of distinct keys meets another's key after its own. */
  lemma {:induction false} KnotHasAnother(batches: seq<seq<Key>>, knot: map<Key, Place>, k: Key) returns (l: Key)
    requires IsKnot(batches, knot) && k in knot
    requires knot[k].batch < |batches| ==> Distinct(batches[knot[k].batch])
    ensures l in knot && PlaceOk(batches, knot, k) && PlaceOk(batches, knot, l)
    ensures knot[l].batch != knot[k].batch && Lists(batches[knot[k].batch], k, l)
  {
    assert PlaceOk(batches, knot, k);
    l := batches[knot[k].batch][knot[k].after];
    assert PlaceOk(batches, knot, l) && !Clash(knot, k, l);
    assert ListsAt(batches[knot[k].batch], k, knot[k].at, l, knot[k].after);
  }

  lemma {:induction false} KnotOfTwoIsOpposite(a: seq<Key>, b: seq<Key>, knot: map<Key, Place>)
    requires Distinct(a) && Distinct(b) && IsKnot([a, b], knot)
    ensures Opposite(a, b)
  {
    var k :| k in knot;
    var l := KnotHasAnother([a, b], knot, k);
    var m := KnotHasAnother([a, b], knot, l);
    assert !Clash(knot, k, m);
    assert m == k;
  }
}
