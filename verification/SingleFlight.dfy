/** One database fill per key at a time: the in-flight table, and the readers and batches that share it. */
module SingleFlight {
  import opened Finite

  // ----- The table itself -----

  class Notify {
    var notified: bool

    constructor ()
      ensures !notified
    {
      notified := false;
    }
  }

  datatype FillPermit = Leader(notify: Notify) | Follower(notify: Notify)

  class InflightFills {
    var inflight: map<string, Notify>

    constructor ()
      ensures inflight == map[]
    {
      inflight := map[];
    }

    method BeginLikeCountFill(key: string) returns (permit: FillPermit)
      modifies this
      ensures key in old(inflight) ==> permit == Follower(old(inflight)[key]) && inflight == old(inflight)
      ensures key !in old(inflight) ==>
                && permit.Leader? && fresh(permit.notify) && !permit.notify.notified
                && inflight == old(inflight)[key := permit.notify]
    {
      if key in inflight { return Follower(inflight[key]); }
      var notify := new Notify();
      inflight := inflight[key := notify];
      permit := Leader(notify);
    }

    /** Removes the entry only if it still is the caller's (pointer equality), and wakes the waiters. */
    method FinishLikeCountFill(key: string, notify: Notify)
      modifies this, notify
      ensures notify.notified
      ensures inflight == if key in old(inflight) && old(inflight)[key] == notify then old(inflight) - {key}
                          else old(inflight)
    {
      if key in inflight && inflight[key] == notify { inflight := inflight - {key}; }
      notify.notified := true;
    }
  }

  // ----- The protocol: tasks interleave at every await -----

  /** Cache keys, named by their rank in one global order. */
  type Key = nat

  /** A key and the notify handle obtained for it. */
  datatype Permit = Permit(key: Key, notify: nat)

  datatype ReaderPhase = Beginning | Leading(notify: nat) | Waiting(notify: nat) | Rechecking | Served

  datatype BatchPhase =
    | Starting
    | Following(notify: nat)
    | Looking(notify: nat)
    | Retrying
    | FollowingAgain(notify: nat)
    | Finishing
    | Answered

  /** A batch works through its missing keys from `next` on; `held` are its leader items in order, and
      `unanswered` the keys it gave no count. */
  datatype Task =
    | Reader(key: Key, reading: ReaderPhase)
    | Batch(keys: seq<Key>, next: nat, held: seq<Permit>, unanswered: seq<Key>, phase: BatchPhase)

  /** What a cache lookup after a wait finds. */
  datatype Cached = Hit | Miss | Failed

  /** A live entry: its notify handle and, for the record, the task made leader; no step reads `leader`. */
  datatype Fill = Fill(notify: nat, leader: nat)

  /** Handles below `handles` were allocated; `finished` ones have woken their waiters. */
  datatype State = State(tasks: map<nat, Task>, inflight: map<Key, Fill>, finished: set<nat>, handles: nat)

  function NewReader(k: Key): Task { Reader(k, Beginning) }
  function NewBatch(keys: seq<Key>): Task { Batch(keys, 0, [], [], Starting) }

  function Start(tasks: map<nat, Task>): State { State(tasks, map[], {}, 0) }

  predicate IsNew(task: Task) {
    match task
    case Reader(_, phase) => phase.Beginning?
    case Batch(_, next, held, unanswered, phase) => next == 0 && held == [] && unanswered == [] && phase.Starting?
  }

  function Become(s: State, t: nat, task: Task): State { s.(tasks := s.tasks[t := task]) }

  /** Task t becomes leader of k under a new notify handle. */
  function Lead(s: State, t: nat, k: Key, task: Task): State {
    Become(s, t, task).(inflight := s.inflight[k := Fill(s.handles, t)], handles := s.handles + 1)
  }

  /** Task t finishes permit p. */
  function Finish(s: State, t: nat, p: Permit, task: Task): State {
    var current := p.key in s.inflight && s.inflight[p.key].notify == p.notify;
    Become(s, t, task).(inflight := if current then s.inflight - {p.key} else s.inflight,
                        finished := s.finished + {p.notify})
  }

  function ReaderStep(s: State, t: nat, task: Task, found: Cached): State
    requires task.Reader?
  {
    var k := task.key;
    match task.reading
    case Beginning =>
      if k in s.inflight then Become(s, t, Reader(k, Waiting(s.inflight[k].notify)))
      else Lead(s, t, k, Reader(k, Leading(s.handles)))
    case Leading(n) => Finish(s, t, Permit(k, n), Reader(k, Served))
    case Waiting(n) => if n in s.finished then Become(s, t, Reader(k, Rechecking)) else s
    case Rechecking => Become(s, t, Reader(k, if found.Hit? then Served else Beginning))
    case Served => s
  }

  function Advance(b: Task, held: seq<Permit>): Task
    requires b.Batch?
  {
    b.(next := b.next + 1, held := held, phase := Starting)
  }

  function BatchStep(s: State, t: nat, b: Task, found: Cached): State
    requires b.Batch?
  {
    match b.phase
    case Starting =>
      if b.next >= |b.keys| then Become(s, t, b.(phase := Finishing))
      else
        var k := b.keys[b.next];
        if k in s.inflight then Become(s, t, b.(phase := Following(s.inflight[k].notify)))
        else Lead(s, t, k, Advance(b, b.held + [Permit(k, s.handles)]))
    case Following(n) => if n in s.finished then Become(s, t, b.(phase := Looking(n))) else s
    case Looking(n) =>
      if b.next >= |b.keys| || found.Hit? then Become(s, t, Advance(b, b.held))
      else if found.Miss? then Become(s, t, b.(phase := Retrying))
      else Become(s, t, Advance(b, b.held + [Permit(b.keys[b.next], n)]))
    case Retrying =>
      if b.next >= |b.keys| then s
      else
        var k := b.keys[b.next];
        if k in s.inflight then Become(s, t, b.(phase := FollowingAgain(s.inflight[k].notify)))
        else Lead(s, t, k, Advance(b, b.held + [Permit(k, s.handles)]))
    case FollowingAgain(n) =>
      if n !in s.finished || b.next >= |b.keys| then s
      else Become(s, t, Advance(b, b.held).(unanswered := b.unanswered + [b.keys[b.next]]))
    case Finishing =>
      if b.held == [] then Become(s, t, b.(phase := Answered))
      else Finish(s, t, b.held[0], b.(held := b.held[1..]))
    case Answered => s
  }

  function Step(s: State, t: nat, found: Cached): State {
    if t !in s.tasks then s
    else if s.tasks[t].Reader? then ReaderStep(s, t, s.tasks[t], found)
    else BatchStep(s, t, s.tasks[t], found)
  }

  function Run(start: State, schedule: seq<(nat, Cached)>): State {
    if schedule == [] then start
    else
      var last := schedule[|schedule| - 1];
      Step(Run(start, schedule[..|schedule| - 1]), last.0, last.1)
  }

  lemma RunStep(start: State, schedule: seq<(nat, Cached)>, e: (nat, Cached))
    ensures Run(start, schedule + [e]) == Step(Run(start, schedule), e.0, e.1)
  {
    assert (schedule + [e])[..|schedule|] == schedule;
  }

  lemma {:induction false} RunOn(start: State, first: seq<(nat, Cached)>, more: seq<(nat, Cached)>)
    ensures Run(start, first + more) == Run(Run(start, first), more)
  {
    if more == [] {
      assert first + more == first;
    } else {
      var n := |more| - 1;
      RunOn(start, first, more[..n]);
      assert first + more == first + more[..n] + [more[n]];
      RunStep(start, first + more[..n], more[n]);
    }
  }

  // ----- Ownership -----

  function Permits(task: Task): seq<Permit> {
    match task
    case Reader(k, Leading(n)) => [Permit(k, n)]
    case Reader(_, _) => []
    case Batch(_, _, held, _, _) => held
  }

  /** What a task is waiting for, finished or not. */
  function Awaits(task: Task): Option<Permit> {
    match task
    case Reader(k, Waiting(n)) => Some(Permit(k, n))
    case Batch(keys, next, _, _, Following(n)) => if next < |keys| then Some(Permit(keys[next], n)) else None
    case Batch(keys, next, _, _, FollowingAgain(n)) => if next < |keys| then Some(Permit(keys[next], n)) else None
    case _ => None
  }

  predicate InBounds(task: Task) {
    task.Batch? ==>
      && task.next <= |task.keys|
      && (task.phase.Answered? ==> task.held == [])
      && (task.phase.Following? || task.phase.Looking? || task.phase.Retrying? || task.phase.FollowingAgain?
          ==> task.next < |task.keys|)
      && (forall i | 0 <= i < |task.held| :: task.held[i].key in task.keys[..task.next])
  }

  /** A permit is either finished or the live entry of its key, led by its holder. */
  predicate PermitOk(s: State, t: nat, p: Permit) {
    && p.notify < s.handles
    && (p.notify !in s.finished ==> p.key in s.inflight && s.inflight[p.key] == Fill(p.notify, t))
  }

  predicate AwaitOk(s: State, p: Permit) {
    && p.notify < s.handles
    && (p.notify !in s.finished ==> p.key in s.inflight && s.inflight[p.key].notify == p.notify)
  }

  ghost predicate TaskOk(s: State, t: nat, task: Task) {
    && InBounds(task)
    && (forall p | p in Permits(task) :: PermitOk(s, t, p))
    && (Awaits(task).Some? ==> AwaitOk(s, Awaits(task).value))
    && (task.Batch? && task.phase.Looking? ==> task.phase.notify in s.finished)
  }

  /** The live entry of a key is unfinished and belongs to a task that holds it. */
  predicate EntryOk(s: State, k: Key)
    requires k in s.inflight
  {
    var e := s.inflight[k];
    && e.notify < s.handles && e.notify !in s.finished && e.leader in s.tasks
    && Permit(k, e.notify) in Permits(s.tasks[e.leader])
  }

  ghost predicate EntriesOk(s: State) {
    && (forall n | n in s.finished :: n < s.handles)
    && (forall k | k in s.inflight :: EntryOk(s, k))
    && (forall k, l | k in s.inflight && l in s.inflight && s.inflight[k].notify == s.inflight[l].notify :: k == l)
  }

  ghost predicate Owned(s: State) {
    EntriesOk(s) && forall t | t in s.tasks :: TaskOk(s, t, s.tasks[t])
  }

  /** A step that touches only the task, keeping its permits. */
  lemma BecomeKeeps(s: State, t: nat, task: Task)
    requires Owned(s) && t in s.tasks && TaskOk(s, t, task)
    requires forall p | p in Permits(s.tasks[t]) :: p in Permits(task)
    ensures Owned(Become(s, t, task))
  {
    var s' := Become(s, t, task);
    forall k | k in s'.inflight ensures EntryOk(s', k) {
      assert EntryOk(s, k);
    }
    forall u | u in s'.tasks ensures TaskOk(s', u, s'.tasks[u]) {
      if u != t {
        SameBooks(s, s', u, s.tasks[u]);
      } else {
        SameBooks(s, s', t, task);
      }
    }
  }

  lemma SameBooks(s: State, s': State, t: nat, task: Task)
    requires TaskOk(s, t, task) && s'.inflight == s.inflight && s'.finished == s.finished && s'.handles == s.handles
    ensures TaskOk(s', t, task)
  {
    forall p | p in Permits(task) ensures PermitOk(s', t, p) {
      assert PermitOk(s, t, p);
    }
  }

  /** A task that is neither waiting nor just woken, with sound bounds. */
  predicate Settled(task: Task) {
    InBounds(task) && Awaits(task).None? && !(task.Batch? && task.phase.Looking?)
  }

  /** Being made leader of a free key disturbs nobody. */
  lemma LeadKeepsTask(s: State, t: nat, k: Key, task: Task, u: nat, other: Task)
    requires TaskOk(s, u, other) && k !in s.inflight
    ensures TaskOk(Lead(s, t, k, task), u, other)
  {
    var s' := Lead(s, t, k, task);
    forall p | p in Permits(other) ensures PermitOk(s', u, p) {
      assert PermitOk(s, u, p);
    }
  }

  lemma LeadKeepsEntries(s: State, t: nat, k: Key, task: Task)
    requires EntriesOk(s) && t in s.tasks && k !in s.inflight
    requires Permits(task) == Permits(s.tasks[t]) + [Permit(k, s.handles)]
    ensures EntriesOk(Lead(s, t, k, task))
  {
    var s' := Lead(s, t, k, task);
    forall l | l in s'.inflight ensures EntryOk(s', l) {
      if l != k { assert EntryOk(s, l); }
    }
    assert forall l | l in s.inflight :: EntryOk(s, l);
  }

  lemma {:induction false} LeadKeeps(s: State, t: nat, k: Key, task: Task)
    requires Owned(s) && t in s.tasks && k !in s.inflight && Settled(task)
    requires Permits(task) == Permits(s.tasks[t]) + [Permit(k, s.handles)]
    ensures Owned(Lead(s, t, k, task))
  {
    var s' := Lead(s, t, k, task);
    LeadKeepsEntries(s, t, k, task);
    assert EntriesOk(s);
    forall u | u in s'.tasks ensures TaskOk(s', u, s'.tasks[u]) {
      LeadKeepsTask(s, t, k, task, u, s.tasks[u]);
      if u == t {
        forall p | p in Permits(task) ensures PermitOk(s', t, p) {
          assert p in Permits(s.tasks[t]) || p == Permit(k, s.handles);
          assert s.handles !in s.finished;
        }
      }
    }
  }

  lemma FinishKeepsTask(s: State, t: nat, p: Permit, task: Task, u: nat, other: Task)
    requires TaskOk(s, u, other)
    ensures TaskOk(Finish(s, t, p, task), u, other)
  {
    var s' := Finish(s, t, p, task);
    forall q | q in Permits(other) ensures PermitOk(s', u, q) {
      assert PermitOk(s, u, q);
    }
  }

  lemma FinishKeepsEntries(s: State, t: nat, p: Permit, task: Task)
    requires EntriesOk(s) && t in s.tasks && PermitOk(s, t, p)
    requires forall q | q in Permits(s.tasks[t]) :: q == p || q in Permits(task)
    ensures EntriesOk(Finish(s, t, p, task))
    ensures forall k | k in s.inflight && k !in Finish(s, t, p, task).inflight :: s.inflight[k].leader == t
  {
    var s' := Finish(s, t, p, task);
    if p.key in s.inflight && s.inflight[p.key].notify == p.notify { assert EntryOk(s, p.key); }
    forall l | l in s'.inflight ensures EntryOk(s', l) {
      assert EntryOk(s, l);
    }
  }

  /** Finishing a permit, current or long finished by its leader, takes only the finisher's entry. */
  lemma {:induction false} FinishKeeps(s: State, t: nat, p: Permit, task: Task)
    requires Owned(s) && t in s.tasks && p in Permits(s.tasks[t]) && Settled(task)
    requires forall q | q in Permits(task) :: q in Permits(s.tasks[t])
    requires forall q | q in Permits(s.tasks[t]) :: q == p || q in Permits(task)
    ensures Owned(Finish(s, t, p, task))
    ensures forall k | k in s.inflight && k !in Finish(s, t, p, task).inflight :: s.inflight[k].leader == t
  {
    var s' := Finish(s, t, p, task);
    assert TaskOk(s, t, s.tasks[t]);
    FinishKeepsEntries(s, t, p, task);
    forall u | u in s'.tasks ensures TaskOk(s', u, s'.tasks[u]) {
      FinishKeepsTask(s, t, p, task, u, s.tasks[u]);
    }
  }

  predicate OnlyOwnRemoved(s: State, s': State, t: nat) {
    forall k | k in s.inflight && k !in s'.inflight :: s.inflight[k].leader == t
  }

  lemma ReaderStepKeeps(s: State, t: nat, found: Cached)
    requires Owned(s) && t in s.tasks && s.tasks[t].Reader?
    ensures Owned(Step(s, t, found)) && OnlyOwnRemoved(s, Step(s, t, found), t)
  {
    var task := s.tasks[t];
    var k := task.key;
    assert TaskOk(s, t, task);
    match task.reading
    case Beginning =>
      if k in s.inflight {
        assert EntryOk(s, k);
        BecomeKeeps(s, t, Reader(k, Waiting(s.inflight[k].notify)));
      } else {
        LeadKeeps(s, t, k, Reader(k, Leading(s.handles)));
      }
    case Leading(n) => FinishKeeps(s, t, Permit(k, n), Reader(k, Served));
    case Waiting(n) => if n in s.finished { BecomeKeeps(s, t, Reader(k, Rechecking)); }
    case Rechecking => BecomeKeeps(s, t, Reader(k, if found.Hit? then Served else Beginning));
    case Served =>
  }

  lemma AdvanceInBounds(b: Task, held: seq<Permit>)
    requires b.Batch? && InBounds(b) && b.next < |b.keys|
    requires forall p | p in held :: p in b.held || p.key == b.keys[b.next]
    ensures Settled(Advance(b, held))
  {
    forall i | 0 <= i < |held| ensures held[i].key in b.keys[..b.next + 1] {
      assert b.keys[..b.next + 1] == b.keys[..b.next] + [b.keys[b.next]];
      if held[i] in b.held {
        var j :| 0 <= j < |b.held| && b.held[j] == held[i];
      }
    }
  }

  lemma BatchBeginKeeps(s: State, t: nat, found: Cached)
    requires Owned(s) && t in s.tasks && s.tasks[t].Batch? && (s.tasks[t].phase.Starting? || s.tasks[t].phase.Retrying?)
    ensures Owned(Step(s, t, found)) && OnlyOwnRemoved(s, Step(s, t, found), t)
  {
    var b := s.tasks[t];
    assert TaskOk(s, t, b);
    if b.next >= |b.keys| {
      BecomeKeeps(s, t, b.(phase := Finishing));
    } else {
      var k := b.keys[b.next];
      if k in s.inflight {
        assert EntryOk(s, k);
        var n := s.inflight[k].notify;
        BecomeKeeps(s, t, b.(phase := if b.phase.Starting? then Following(n) else FollowingAgain(n)));
      } else {
        BatchLeads(s, t);
      }
    }
  }

  lemma BatchLeads(s: State, t: nat)
    requires Owned(s) && t in s.tasks && s.tasks[t].Batch? && (s.tasks[t].phase.Starting? || s.tasks[t].phase.Retrying?)
    requires var b := s.tasks[t]; b.next < |b.keys| && b.keys[b.next] !in s.inflight
    ensures var b := s.tasks[t];
            var k := b.keys[b.next];
            var s' := Lead(s, t, k, Advance(b, b.held + [Permit(k, s.handles)]));
            Owned(s') && OnlyOwnRemoved(s, s', t)
  {
    var b := s.tasks[t];
    var k := b.keys[b.next];
    assert TaskOk(s, t, b);
    AdvanceInBounds(b, b.held + [Permit(k, s.handles)]);
    LeadKeeps(s, t, k, Advance(b, b.held + [Permit(k, s.handles)]));
  }

  lemma BatchFollowKeeps(s: State, t: nat, found: Cached)
    requires Owned(s) && t in s.tasks && s.tasks[t].Batch?
    requires s.tasks[t].phase.Following? || s.tasks[t].phase.Looking? || s.tasks[t].phase.FollowingAgain?
    ensures Owned(Step(s, t, found)) && OnlyOwnRemoved(s, Step(s, t, found), t)
  {
    var b := s.tasks[t];
    assert TaskOk(s, t, b);
    match b.phase
    case Following(n) => if n in s.finished { BecomeKeeps(s, t, b.(phase := Looking(n))); }
    case Looking(n) =>
      var stale := b.held + [Permit(b.keys[b.next], n)];
      assert EntriesOk(s);
      if found.Hit? {
        AdvanceInBounds(b, b.held);
        BecomeKeeps(s, t, Advance(b, b.held));
      } else if found.Miss? {
        BecomeKeeps(s, t, b.(phase := Retrying));
      } else {
        AdvanceInBounds(b, stale);
        BecomeKeeps(s, t, Advance(b, stale));
      }
    case FollowingAgain(n) =>
      if n in s.finished {
        AdvanceInBounds(b, b.held);
        BecomeKeeps(s, t, Advance(b, b.held).(unanswered := b.unanswered + [b.keys[b.next]]));
      }
  }

  lemma BatchFinishKeeps(s: State, t: nat, found: Cached)
    requires Owned(s) && t in s.tasks && s.tasks[t].Batch?
    requires s.tasks[t].phase.Finishing? || s.tasks[t].phase.Answered?
    ensures Owned(Step(s, t, found)) && OnlyOwnRemoved(s, Step(s, t, found), t)
  {
    var b := s.tasks[t];
    assert TaskOk(s, t, b);
    if b.phase.Finishing? {
      if b.held == [] {
        BecomeKeeps(s, t, b.(phase := Answered));
      } else {
        assert b.held == [b.held[0]] + b.held[1..];
        FinishKeeps(s, t, b.held[0], b.(held := b.held[1..]));
      }
    }
  }

  lemma {:induction false} StepKeeps(s: State, t: nat, found: Cached)
    requires Owned(s)
    ensures Owned(Step(s, t, found)) && OnlyOwnRemoved(s, Step(s, t, found), t)
  {
    if t in s.tasks {
      var task := s.tasks[t];
      if task.Reader? {
        ReaderStepKeeps(s, t, found);
      } else if task.phase.Starting? || task.phase.Retrying? {
        BatchBeginKeeps(s, t, found);
      } else if task.phase.Finishing? || task.phase.Answered? {
        BatchFinishKeeps(s, t, found);
      } else {
        BatchFollowKeeps(s, t, found);
      }
    }
  }

  /** In every interleaving of readers and batches, whatever their lookups find. */
  lemma {:induction false} EveryRunIsOwned(tasks: map<nat, Task>, schedule: seq<(nat, Cached)>)
    requires forall t | t in tasks :: IsNew(tasks[t])
    ensures Owned(Run(Start(tasks), schedule))
  {
    if schedule == [] {
      forall t | t in tasks ensures TaskOk(Start(tasks), t, tasks[t]) {
        assert IsNew(tasks[t]);
      }
    } else {
      var n := |schedule| - 1;
      EveryRunIsOwned(tasks, schedule[..n]);
      StepKeeps(Run(Start(tasks), schedule[..n]), schedule[n].0, schedule[n].1);
    }
  }

  /** Task t holds an unfinished permit for k. */
  ghost predicate Holds(s: State, t: nat, k: Key) {
    t in s.tasks && exists p :: p in Permits(s.tasks[t]) && p.key == k && p.notify !in s.finished
  }

  /** Single flight: a key is in flight exactly when some task holds an unfinished permit for it, no two
      tasks do, and the next step of any task removes no entry but its own. */
  lemma OneFillPerKey(tasks: map<nat, Task>, schedule: seq<(nat, Cached)>, k: Key, t: nat, found: Cached)
    requires forall u | u in tasks :: IsNew(tasks[u])
    ensures var s := Run(Start(tasks), schedule);
            && (k in s.inflight <==> exists u :: Holds(s, u, k))
            && (forall u, v | Holds(s, u, k) && Holds(s, v, k) :: u == v)
            && (k in s.inflight && k !in Step(s, t, found).inflight ==> Holds(s, t, k))
  {
    EveryRunIsOwned(tasks, schedule);
    var s := Run(Start(tasks), schedule);
    StepKeeps(s, t, found);
    if k in s.inflight {
      assert EntryOk(s, k);
      assert Permit(k, s.inflight[k].notify).key == k;
      assert Holds(s, s.inflight[k].leader, k);
    }
    forall u | Holds(s, u, k) ensures k in s.inflight && s.inflight[k].leader == u {
      var p :| p in Permits(s.tasks[u]) && p.key == k && p.notify !in s.finished;
      assert TaskOk(s, u, s.tasks[u]) && PermitOk(s, u, p);
    }
  }

  // ----- Who waits for whom -----

  predicate Increasing(keys: seq<Key>) { forall i, j | 0 <= i < j < |keys| :: keys[i] < keys[j] }

  predicate Ordered(s: State) { forall t | t in s.tasks && s.tasks[t].Batch? :: Increasing(s.tasks[t].keys) }

  predicate Blocked(s: State, t: nat) {
    t in s.tasks && Awaits(s.tasks[t]).Some? && Awaits(s.tasks[t]).value.notify !in s.finished
  }

  function AwaitedKey(s: State, t: nat): Key
    requires Blocked(s, t)
  {
    Awaits(s.tasks[t]).value.key
  }

  ghost predicate WaitsFor(s: State, t: nat, u: nat) {
    Blocked(s, t) && Holds(s, u, AwaitedKey(s, t))
  }

  predicate Done(task: Task) { if task.Reader? then task.reading.Served? else task.phase.Answered? }

  /** Nobody can move, and somebody is not done. */
  ghost predicate Stuck(s: State) {
    && (forall t, found :: Step(s, t, found) == s)
    && exists t :: t in s.tasks && !Done(s.tasks[t])
  }

  lemma {:induction false} StaysOrdered(tasks: map<nat, Task>, schedule: seq<(nat, Cached)>)
    requires Ordered(Start(tasks))
    ensures Ordered(Run(Start(tasks), schedule))
  {
    if schedule != [] {
      var n := |schedule| - 1;
      StaysOrdered(tasks, schedule[..n]);
      var s := Run(Start(tasks), schedule[..n]);
      KeysStay(s, schedule[n].0, schedule[n].1);
    }
  }

  lemma BatchKeepsKeys(s: State, t: nat, b: Task, found: Cached)
    requires b.Batch? && t in s.tasks && s.tasks[t] == b
    ensures var s' := BatchStep(s, t, b, found);
            && s'.tasks.Keys == s.tasks.Keys
            && s'.tasks[t].Batch? && s'.tasks[t].keys == b.keys
            && forall u | u in s.tasks && u != t :: s'.tasks[u] == s.tasks[u]
  {
  }

  lemma KeysStay(s: State, t: nat, found: Cached)
    requires Ordered(s)
    ensures Ordered(Step(s, t, found))
  {
    if t in s.tasks && s.tasks[t].Batch? { BatchKeepsKeys(s, t, s.tasks[t], found); }
  }

  /** A task that waits for one that itself waits, waits for a lower key. */
  lemma {:induction false} WaitsClimb(s: State, t: nat, u: nat)
    requires Owned(s) && Ordered(s) && WaitsFor(s, t, u) && Blocked(s, u)
    ensures AwaitedKey(s, t) < AwaitedKey(s, u)
  {
    var p :| p in Permits(s.tasks[u]) && p.key == AwaitedKey(s, t) && p.notify !in s.finished;
    assert TaskOk(s, u, s.tasks[u]) && s.tasks[u].Batch?;
    var b := s.tasks[u];
    var i :| 0 <= i < |b.held| && b.held[i] == p;
    assert b.held[i].key in b.keys[..b.next];
  }

  ghost predicate WaitPath(s: State, path: seq<nat>) {
    forall i | 0 <= i < |path| - 1 :: WaitsFor(s, path[i], path[i + 1])
  }

  lemma {:induction false} PathClimbs(s: State, path: seq<nat>)
    requires Owned(s) && Ordered(s) && WaitPath(s, path) && |path| > 1 && Blocked(s, path[|path| - 1])
    ensures Blocked(s, path[0]) && AwaitedKey(s, path[0]) < AwaitedKey(s, path[|path| - 1])
    decreases |path|
  {
    assert WaitsFor(s, path[0], path[1]);
    if |path| > 2 {
      forall i | 0 <= i < |path[1..]| - 1 ensures WaitsFor(s, path[1..][i], path[1..][i + 1]) {
        assert WaitsFor(s, path[i + 1], path[i + 1 + 1]);
      }
      PathClimbs(s, path[1..]);
    }
    WaitsClimb(s, path[0], path[1]);
  }

  /** If every batch lists its keys in strictly increasing order, no tasks wait for each other in a ring. */
  lemma NoWaitCycle(tasks: map<nat, Task>, schedule: seq<(nat, Cached)>, path: seq<nat>)
    requires (forall t | t in tasks :: IsNew(tasks[t])) && Ordered(Start(tasks))
    requires |path| > 1 && WaitPath(Run(Start(tasks), schedule), path)
    ensures path[0] != path[|path| - 1]
  {
    var s := Run(Start(tasks), schedule);
    EveryRunIsOwned(tasks, schedule);
    StaysOrdered(tasks, schedule);
    assert WaitsFor(s, path[0], path[1]);
    if Blocked(s, path[|path| - 1]) { PathClimbs(s, path); }
  }

  lemma ReaderMoves(s: State, t: nat, r: Task, found: Cached)
    requires t in s.tasks && s.tasks[t] == r && r.Reader? && !Done(r) && !Blocked(s, t)
    ensures ReaderStep(s, t, r, found).tasks[t] != r
  {
  }

  lemma BatchMoves(s: State, t: nat, b: Task, found: Cached)
    requires t in s.tasks && s.tasks[t] == b && b.Batch? && !Done(b) && !Blocked(s, t)
    requires b.phase.Following? || b.phase.Retrying? || b.phase.FollowingAgain? ==> b.next < |b.keys|
    ensures BatchStep(s, t, b, found).tasks[t] != b
  {
  }

  lemma {:induction false} UnblockedMoves(s: State, t: nat, found: Cached)
    requires Owned(s) && t in s.tasks && !Done(s.tasks[t]) && !Blocked(s, t)
    ensures Step(s, t, found) != s
  {
    var task := s.tasks[t];
    assert TaskOk(s, t, task);
    if task.Reader? { ReaderMoves(s, t, task, found); } else { BatchMoves(s, t, task, found); }
  }

  lemma StuckIsBlocked(s: State, t: nat)
    requires Owned(s) && Stuck(s) && t in s.tasks && !Done(s.tasks[t])
    ensures Blocked(s, t)
  {
    if !Blocked(s, t) { UnblockedMoves(s, t, Hit); }
  }

  ghost function KeysAbove(s: State, k: Key): set<Key> {
    set l | l in s.inflight.Keys && l > k
  }

  lemma LeaderHolds(s: State, k: Key)
    requires Owned(s) && k in s.inflight
    ensures var u := s.inflight[k].leader; u in s.tasks && Holds(s, u, k) && !Done(s.tasks[u])
  {
    assert EntryOk(s, k);
    var u := s.inflight[k].leader;
    var p := Permit(k, s.inflight[k].notify);
    assert TaskOk(s, u, s.tasks[u]);
    assert p in Permits(s.tasks[u]) && p.key == k;
  }

  lemma BlockedOnALeader(s: State, t: nat)
    requires Owned(s) && Blocked(s, t)
    ensures var k := AwaitedKey(s, t);
            k in s.inflight && var u := s.inflight[k].leader; u in s.tasks && Holds(s, u, k) && !Done(s.tasks[u])
  {
    assert TaskOk(s, t, s.tasks[t]);
    LeaderHolds(s, AwaitedKey(s, t));
  }

  lemma FewerKeysAbove(s: State, k: Key, l: Key)
    requires k < l && l in s.inflight
    ensures |KeysAbove(s, l)| < |KeysAbove(s, k)|
  {
    SmallerSet(KeysAbove(s, l), KeysAbove(s, k), l);
  }

  /** Following the waits upward ends at a leader that can run. */
  lemma {:induction false} RunnableLeader(s: State, t: nat) returns (w: nat, u: nat)
    requires Owned(s) && Ordered(s) && Blocked(s, t)
    ensures u in s.tasks && !Blocked(s, u) && !Done(s.tasks[u]) && WaitsFor(s, w, u)
    decreases |KeysAbove(s, AwaitedKey(s, t))|
  {
    BlockedOnALeader(s, t);
    w, u := t, s.inflight[AwaitedKey(s, t)].leader;
    if Blocked(s, u) {
      WaitsClimb(s, t, u);
      BlockedOnALeader(s, u);
      FewerKeysAbove(s, AwaitedKey(s, t), AwaitedKey(s, u));
      w, u := RunnableLeader(s, u);
    }
  }

  lemma SmallerSet(small: set<Key>, big: set<Key>, x: Key)
    requires small <= big - {x} && x in big
    ensures |small| < |big|
  {
    assert big - {x} == small + ((big - {x}) - small);
    assert |big - {x}| == |big| - 1;
  }

  /** So an ordered system never gets stuck: while a task is not done, some task can move, and if any is
      blocked, a leader that a blocked task waits for can move. */
  lemma OrderedNeverStuck(tasks: map<nat, Task>, schedule: seq<(nat, Cached)>, t: nat)
    requires (forall u | u in tasks :: IsNew(tasks[u])) && Ordered(Start(tasks))
    requires t in Run(Start(tasks), schedule).tasks && !Done(Run(Start(tasks), schedule).tasks[t])
    ensures var s := Run(Start(tasks), schedule);
            && !Stuck(s)
            && (Blocked(s, t) ==> exists w, u :: WaitsFor(s, w, u) && Step(s, u, Hit) != s)
  {
    var s := Run(Start(tasks), schedule);
    EveryRunIsOwned(tasks, schedule);
    StaysOrdered(tasks, schedule);
    if Blocked(s, t) {
      var _, u := RunnableLeader(s, t);
      UnblockedMoves(s, u, Hit);
    } else {
      UnblockedMoves(s, t, Hit);
    }
  }
}
