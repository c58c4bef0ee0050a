/** Fills come to an end: every run has finitely many effective steps, and ordered tasks all get done. */
module FillProgress {
  import opened Finite
  import opened SingleFlight

  // ----- What is left to do -----

  /** The live fill of k is one the reader does not wait for yet. */
  predicate Unseen(s: State, k: Key, phase: ReaderPhase) {
    k in s.inflight && !(phase.Waiting? && s.inflight[k].notify == phase.notify)
  }

  /** Steps a reader can take before somebody leads its key again. */
  function ReaderWork(s: State, k: Key, phase: ReaderPhase): nat {
    match phase
    case Served => 0
    case Leading(_) => 1
    case Beginning => if Unseen(s, k, phase) then 4 else 1
    case Rechecking => if Unseen(s, k, phase) then 5 else 2
    case Waiting(_) => if Unseen(s, k, phase) then 6 else 3
  }

  function PhaseWork(phase: BatchPhase): nat {
    match phase
    case Starting => 6
    case Following(_) => 5
    case Looking(_) => 4
    case Retrying => 3
    case FollowingAgain(_) => 2
    case Finishing => 1
    case Answered => 0
  }

  function Left(b: Task): nat
    requires b.Batch?
  {
    if b.next < |b.keys| then |b.keys| - b.next else 0
  }

  function Work(s: State, task: Task): nat {
    match task
    case Reader(k, phase) => ReaderWork(s, k, phase)
    case Batch(_, _, held, _, phase) => 7 * Left(task) + |held| + PhaseWork(phase)
  }

  /** How often the task may still be made leader. */
  function Leads(task: Task): nat {
    match task
    case Reader(_, phase) => if phase.Leading? || phase.Served? then 0 else 1
    case Batch(_, _, _, _, _) => Left(task)
  }

  /** Each lead gives at most 3 more steps to every task. */
  function Cost(s: State, task: Task, tasks: nat): nat { Work(s, task) + Times(Leads(task), Times(tasks, 3) + 1) }

  ghost function Costs(s: State): map<nat, nat> { map t | t in s.tasks :: Cost(s, s.tasks[t], |s.tasks|) }

  ghost function Budget(s: State): nat { Sum(Costs(s)) }

  // ----- A step spends some of it -----

  /** Nothing was added to the in-flight table. */
  predicate OnlyRemoves(s: State, s': State) {
    && (forall k | k in s'.inflight :: k in s.inflight && s'.inflight[k] == s.inflight[k])
    && s'.tasks.Keys == s.tasks.Keys
  }

  lemma WorkShrinks(s: State, s': State, task: Task)
    requires OnlyRemoves(s, s')
    ensures Work(s', task) <= Work(s, task)
  {
  }

  lemma WorkGrowsByThree(s: State, s': State, task: Task)
    ensures Work(s', task) <= Work(s, task) + 3
  {
  }

  /** A reader's step that leads nothing. */
  lemma ReaderSpends(s: State, t: nat, found: Cached)
    requires Owned(s) && t in s.tasks && s.tasks[t].Reader? && Step(s, t, found) != s
    requires s.tasks[t].reading.Beginning? ==> s.tasks[t].key in s.inflight
    ensures var s' := Step(s, t, found);
            && OnlyRemoves(s, s') && (forall u | u in s.tasks && u != t :: s'.tasks[u] == s.tasks[u])
            && Work(s', s'.tasks[t]) < Work(s, s.tasks[t]) && Leads(s'.tasks[t]) <= Leads(s.tasks[t])
  {
    var k := s.tasks[t].key;
    if k in s.inflight { assert EntryOk(s, k); }
    ReaderOnlyRemoves(s, t, found);
    ReaderMovesOn(s, t, found);
  }

  lemma ReaderOnlyRemoves(s: State, t: nat, found: Cached)
    requires t in s.tasks && s.tasks[t].Reader? && (s.tasks[t].reading.Beginning? ==> s.tasks[t].key in s.inflight)
    ensures var s' := Step(s, t, found);
            OnlyRemoves(s, s') && forall u | u in s.tasks && u != t :: s'.tasks[u] == s.tasks[u]
  {
  }

  lemma ReaderMovesOn(s: State, t: nat, found: Cached)
    requires t in s.tasks && s.tasks[t].Reader? && Step(s, t, found) != s
    requires var k := s.tasks[t].key;
             && (k in s.inflight ==> s.inflight[k].notify !in s.finished)
             && (s.tasks[t].reading.Beginning? ==> k in s.inflight)
    ensures var s' := Step(s, t, found);
            && t in s'.tasks
            && Work(s', s'.tasks[t]) < Work(s, s.tasks[t]) && Leads(s'.tasks[t]) <= Leads(s.tasks[t])
  {
  }

  /** A reader that becomes leader. */
  lemma ReaderLeadSpends(s: State, t: nat, found: Cached)
    requires t in s.tasks && s.tasks[t].Reader? && s.tasks[t].reading.Beginning? && s.tasks[t].key !in s.inflight
    ensures var s' := Step(s, t, found);
            && s'.tasks.Keys == s.tasks.Keys && (forall u | u in s.tasks && u != t :: s'.tasks[u] == s.tasks[u])
            && Work(s', s'.tasks[t]) <= Work(s, s.tasks[t]) && Leads(s'.tasks[t]) + 1 == Leads(s.tasks[t])
  {
  }

  /** Batch b is about to be made leader. */
  predicate BatchLeadsNow(s: State, b: Task) {
    b.Batch? && (b.phase.Starting? || b.phase.Retrying?) && b.next < |b.keys| && b.keys[b.next] !in s.inflight
  }

  lemma BatchSpends(s: State, t: nat, found: Cached)
    requires Owned(s) && t in s.tasks && s.tasks[t].Batch? && Step(s, t, found) != s && !BatchLeadsNow(s, s.tasks[t])
    ensures var s' := Step(s, t, found);
            && OnlyRemoves(s, s') && (forall u | u in s.tasks && u != t :: s'.tasks[u] == s.tasks[u])
            && Work(s', s'.tasks[t]) < Work(s, s.tasks[t]) && Leads(s'.tasks[t]) <= Leads(s.tasks[t])
  {
    assert InBounds(s.tasks[t]) by { assert TaskOk(s, t, s.tasks[t]); }
    BatchKeepsKeys(s, t, s.tasks[t], found);
    BatchOnlyRemoves(s, t, found);
    BatchMovesOn(s, t, found);
  }

  lemma BatchOnlyRemoves(s: State, t: nat, found: Cached)
    requires t in s.tasks && s.tasks[t].Batch? && !BatchLeadsNow(s, s.tasks[t])
    ensures forall k | k in Step(s, t, found).inflight ::
        k in s.inflight && Step(s, t, found).inflight[k] == s.inflight[k]
  {
  }

  lemma BatchMovesOn(s: State, t: nat, found: Cached)
    requires t in s.tasks && s.tasks[t].Batch? && InBounds(s.tasks[t]) && Step(s, t, found) != s
    requires !BatchLeadsNow(s, s.tasks[t])
    ensures var s' := Step(s, t, found);
            && t in s'.tasks && s'.tasks[t].Batch?
            && Work(s', s'.tasks[t]) < Work(s, s.tasks[t]) && Leads(s'.tasks[t]) <= Leads(s.tasks[t])
  {
  }

  lemma BatchLeadSpends(s: State, t: nat, found: Cached)
    requires t in s.tasks && BatchLeadsNow(s, s.tasks[t])
    ensures var s' := Step(s, t, found);
            && s'.tasks.Keys == s.tasks.Keys && (forall u | u in s.tasks && u != t :: s'.tasks[u] == s.tasks[u])
            && Work(s', s'.tasks[t]) <= Work(s, s.tasks[t]) && Leads(s'.tasks[t]) + 1 == Leads(s.tasks[t])
  {
  }

  lemma {:induction false} TimesZero(n: nat)
    ensures Times(n, 0) == 0
  {
    if n > 0 { TimesZero(n - 1); }
  }

  lemma SameSize(s: State, s': State)
    requires s'.tasks.Keys == s.tasks.Keys
    ensures |s'.tasks| == |s.tasks| == |Costs(s)| == |Costs(s')|
  {
    assert |s'.tasks| == |s'.tasks.Keys| && |s.tasks| == |s.tasks.Keys|;
    assert Costs(s).Keys == s.tasks.Keys && Costs(s').Keys == s'.tasks.Keys;
    assert |Costs(s)| == |Costs(s).Keys| && |Costs(s')| == |Costs(s').Keys|;
  }

  /** The cost of every task but t grows by at most d. */
  ghost predicate OthersCost(s: State, s': State, t: nat, d: nat) {
    Costs(s').Keys == Costs(s).Keys && forall u | u in Costs(s) && u != t :: Costs(s')[u] <= Costs(s)[u] + d
  }

  lemma OthersCostTheSame(s: State, s': State, t: nat)
    requires OnlyRemoves(s, s') && forall u | u in s.tasks && u != t :: s'.tasks[u] == s.tasks[u]
    ensures OthersCost(s, s', t, 0)
  {
    SameSize(s, s');
    forall u | u in s.tasks && u != t ensures Costs(s')[u] <= Costs(s)[u] + 0 { WorkShrinks(s, s', s.tasks[u]); }
  }

  lemma OthersCostThreeMore(s: State, s': State, t: nat)
    requires s'.tasks.Keys == s.tasks.Keys && forall u | u in s.tasks && u != t :: s'.tasks[u] == s.tasks[u]
    ensures OthersCost(s, s', t, 3)
  {
    SameSize(s, s');
    forall u | u in s.tasks && u != t ensures Costs(s')[u] <= Costs(s)[u] + 3 { WorkGrowsByThree(s, s', s.tasks[u]); }
  }

  /** The budget falls when the moving task saves more than the others gain. */
  lemma BudgetFalls(s: State, s': State, t: nat, d: nat)
    requires t in s.tasks && s'.tasks.Keys == s.tasks.Keys && OthersCost(s, s', t, d)
    requires Costs(s')[t] + Times(|s.tasks|, d) < Costs(s)[t]
    ensures Budget(s') < Budget(s)
  {
    SameSize(s, s');
    SumChanges(Costs(s), Costs(s'), t, d);
  }

  lemma QuietStepSpends(s: State, s': State, t: nat)
    requires t in s.tasks && OnlyRemoves(s, s') && (forall u | u in s.tasks && u != t :: s'.tasks[u] == s.tasks[u])
    requires Work(s', s'.tasks[t]) < Work(s, s.tasks[t]) && Leads(s'.tasks[t]) <= Leads(s.tasks[t])
    ensures Budget(s') < Budget(s)
  {
    OthersCostTheSame(s, s', t);
    QuietMoverSaves(s, s', t);
    BudgetFalls(s, s', t, 0);
  }

  lemma QuietMoverSaves(s: State, s': State, t: nat)
    requires t in s.tasks && s'.tasks.Keys == s.tasks.Keys
    requires Work(s', s'.tasks[t]) < Work(s, s.tasks[t]) && Leads(s'.tasks[t]) <= Leads(s.tasks[t])
    ensures Costs(s')[t] + Times(|s.tasks|, 0) < Costs(s)[t]
  {
    SameSize(s, s');
    TimesZero(|s.tasks|);
    QuietCost(s, s', s.tasks[t], s'.tasks[t], |s.tasks|);
  }

  lemma QuietCost(s: State, s': State, task: Task, task': Task, tasks: nat)
    requires Work(s', task') < Work(s, task) && Leads(task') <= Leads(task)
    ensures Cost(s', task', tasks) < Cost(s, task, tasks)
  {
    TimesMonotone(Leads(task'), Leads(task), Times(tasks, 3) + 1);
  }

  lemma LeadStepSpends(s: State, s': State, t: nat)
    requires t in s.tasks && s'.tasks.Keys == s.tasks.Keys
    requires forall u | u in s.tasks && u != t :: s'.tasks[u] == s.tasks[u]
    requires Work(s', s'.tasks[t]) <= Work(s, s.tasks[t]) && Leads(s'.tasks[t]) + 1 == Leads(s.tasks[t])
    ensures Budget(s') < Budget(s)
  {
    OthersCostThreeMore(s, s', t);
    LeaderSaves(s, s', t);
    BudgetFalls(s, s', t, 3);
  }

  lemma LeaderSaves(s: State, s': State, t: nat)
    requires t in s.tasks && s'.tasks.Keys == s.tasks.Keys
    requires Work(s', s'.tasks[t]) <= Work(s, s.tasks[t]) && Leads(s'.tasks[t]) + 1 == Leads(s.tasks[t])
    ensures Costs(s')[t] + Times(|s.tasks|, 3) < Costs(s)[t]
  {
    SameSize(s, s');
  }

  /** Every effective step spends some of the budget. */
  lemma EffectiveStepSpends(s: State, t: nat, found: Cached)
    requires Owned(s) && Step(s, t, found) != s
    ensures Budget(Step(s, t, found)) < Budget(s)
  {
    var task, s' := s.tasks[t], Step(s, t, found);
    if task.Reader? && task.reading.Beginning? && task.key !in s.inflight {
      ReaderLeadSpends(s, t, found);
      LeadStepSpends(s, s', t);
    } else if task.Reader? {
      ReaderSpends(s, t, found);
      QuietStepSpends(s, s', t);
    } else if BatchLeadsNow(s, task) {
      BatchLeadSpends(s, t, found);
      LeadStepSpends(s, s', t);
    } else {
      BatchSpends(s, t, found);
      QuietStepSpends(s, s', t);
    }
  }

  // ----- Every run -----

  /** The steps of a run that change something. */
  function EffectiveSteps(start: State, schedule: seq<(nat, Cached)>): nat {
    if schedule == [] then 0
    else
      var n := |schedule| - 1;
      var s := Run(start, schedule[..n]);
      EffectiveSteps(start, schedule[..n]) + (if Step(s, schedule[n].0, schedule[n].1) != s then 1 else 0)
  }

  /** Whatever the tasks and their lookups, a run takes at most as many effective steps as its budget. */
  lemma {:induction false} EffectiveStepsAreBounded(tasks: map<nat, Task>, schedule: seq<(nat, Cached)>)
    requires forall t | t in tasks :: IsNew(tasks[t])
    ensures EffectiveSteps(Start(tasks), schedule) + Budget(Run(Start(tasks), schedule)) <= Budget(Start(tasks))
  {
    if schedule != [] {
      var n := |schedule| - 1;
      var s := Run(Start(tasks), schedule[..n]);
      EffectiveStepsAreBounded(tasks, schedule[..n]);
      EveryRunIsOwned(tasks, schedule[..n]);
      if Step(s, schedule[n].0, schedule[n].1) != s { EffectiveStepSpends(s, schedule[n].0, schedule[n].1); }
    }
  }

  predicate AllDone(s: State) { forall t | t in s.tasks :: Done(s.tasks[t]) }

  /** With increasing batches somebody can move until all are done. */
  lemma SomeoneMoves(tasks: map<nat, Task>, schedule: seq<(nat, Cached)>) returns (t: nat, found: Cached)
    requires (forall u | u in tasks :: IsNew(tasks[u])) && Ordered(Start(tasks))
    requires !AllDone(Run(Start(tasks), schedule))
    ensures Step(Run(Start(tasks), schedule), t, found) != Run(Start(tasks), schedule)
    ensures Budget(Run(Start(tasks), schedule + [(t, found)])) < Budget(Run(Start(tasks), schedule))
  {
    var s := Run(Start(tasks), schedule);
    var u :| u in s.tasks && !Done(s.tasks[u]);
    OrderedNeverStuck(tasks, schedule, u);
    t, found :| Step(s, t, found) != s;
    EveryRunIsOwned(tasks, schedule);
    EffectiveStepSpends(s, t, found);
    RunStep(Start(tasks), schedule, (t, found));
  }

  /** With increasing batches every run that takes all the effective steps it can has answered every reader and
      every batch: it takes at most the budget, and one that took that many, or cannot take another, is done. */
  lemma {:induction false} OrderedRunsGetDone(tasks: map<nat, Task>, schedule: seq<(nat, Cached)>)
    requires (forall t | t in tasks :: IsNew(tasks[t])) && Ordered(Start(tasks))
    ensures var start := Start(tasks);
            var s := Run(start, schedule);
            && EffectiveSteps(start, schedule) <= Budget(start)
            && (EffectiveSteps(start, schedule) == Budget(start) ==> AllDone(s))
            && ((forall t, found :: Step(s, t, found) == s) ==> AllDone(s))
  {
    var s := Run(Start(tasks), schedule);
    EffectiveStepsAreBounded(tasks, schedule);
    if !AllDone(s) {
      var t, found := SomeoneMoves(tasks, schedule);
    }
  }

  lemma Regrouped<T>(a: seq<T>, x: T, b: seq<T>)
    ensures a + ([x] + b) == a + [x] + b
  {
  }

  /** So every run can be continued until all are done, whatever happened before. */
  lemma {:induction false} EveryRunCanGetDone(tasks: map<nat, Task>, schedule: seq<(nat, Cached)>)
      returns (more: seq<(nat, Cached)>)
    requires (forall t | t in tasks :: IsNew(tasks[t])) && Ordered(Start(tasks))
    ensures AllDone(Run(Start(tasks), schedule + more))
    decreases Budget(Run(Start(tasks), schedule))
  {
    var s := Run(Start(tasks), schedule);
    if AllDone(s) {
      more := [];
      assert schedule + [] == schedule;
    } else {
      var t, found := SomeoneMoves(tasks, schedule);
      var rest := EveryRunCanGetDone(tasks, schedule + [(t, found)]);
      more := [(t, found)] + rest;
      Regrouped(schedule, (t, found), rest);
    }
  }
}
