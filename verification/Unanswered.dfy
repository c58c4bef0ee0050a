/** Exactly when a batch may answer without a count for a key. */
module Unanswered {
  import opened Finite
  import opened SingleFlight
  import opened Deadlocks

  predicate Names(task: Task, k: Key) { if task.Reader? then task.key == k else k in task.keys }

  /** At most one task besides t names k, and no batch lists k twice. */
  ghost predicate OneRival(tasks: map<nat, Task>, t: nat, k: Key) {
    && (forall u, v | u in tasks && v in tasks && u != t && v != t && Names(tasks[u], k) && Names(tasks[v], k) ::
        u == v)
    && (forall u | u in tasks && tasks[u].Batch? && Names(tasks[u], k) :: Distinct(tasks[u].keys))
  }

  /** The task will not lead k any more. */
  predicate Spent(task: Task, k: Key) {
    if task.Reader? then task.reading.Leading? || task.reading.Served? else k !in task.keys[Bounded(task)..]
  }

  function Bounded(b: Task): (n: nat)
    requires b.Batch?
    ensures n <= |b.keys|
  {
    if b.next <= |b.keys| then b.next else |b.keys|
  }

  /** It is spent, and holds no live permit for k but n. */
  ghost predicate LedOnly(s: State, task: Task, k: Key, n: nat) {
    Spent(task, k) && forall p | p in Permits(task) && p.key == k :: p.notify in s.finished || p.notify == n
  }

  /** All tasks but t that name k led nothing but n. */
  ghost predicate RivalsLedOnly(s: State, t: nat, k: Key, n: nat) {
    forall u | u in s.tasks && u != t && Names(s.tasks[u], k) :: LedOnly(s, s.tasks[u], k, n)
  }

  predicate IsAtKey(b: Task, k: Key) { b.Batch? && b.next < |b.keys| && b.keys[b.next] == k }

  /** The batch waited for n at k. */
  predicate HasFollowed(b: Task, n: nat) {
    b.Batch? && (b.phase == Following(n) || b.phase == Looking(n))
  }

  /** Where batch t stands with key k: once it has followed n the rivals have nothing else to lead, so it does not
      follow again. */
  ghost predicate NeverTwice(s: State, t: nat, k: Key) {
    && t in s.tasks && s.tasks[t].Batch? && k !in s.tasks[t].unanswered
    && (IsAtKey(s.tasks[t], k) ==>
          && !s.tasks[t].phase.FollowingAgain?
          && (forall n | HasFollowed(s.tasks[t], n) :: RivalsLedOnly(s, t, k, n))
          && (s.tasks[t].phase.Retrying? ==> exists n :: n in s.finished && RivalsLedOnly(s, t, k, n)))
  }

  lemma ReaderStaysSpent(s: State, u: nat, found: Cached, k: Key, n: nat)
    requires u in s.tasks && s.tasks[u].Reader? && LedOnly(s, s.tasks[u], k, n)
    ensures u in Step(s, u, found).tasks && LedOnly(Step(s, u, found), Step(s, u, found).tasks[u], k, n)
  {
  }

  lemma BatchStaysSpent(s: State, u: nat, found: Cached, k: Key, n: nat)
    requires Owned(s) && u in s.tasks && s.tasks[u].Batch? && LedOnly(s, s.tasks[u], k, n)
    ensures u in Step(s, u, found).tasks && LedOnly(Step(s, u, found), Step(s, u, found).tasks[u], k, n)
  {
    var b := s.tasks[u];
    var s' := Step(s, u, found);
    assert InBounds(b) by { assert TaskOk(s, u, b); }
  }

  /** A step changes its own task alone, which keeps naming what it names, and finishes more. */
  lemma StepFrame(s: State, v: nat, found: Cached, k: Key)
    requires v in s.tasks
    ensures var s' := Step(s, v, found);
            && s'.tasks.Keys == s.tasks.Keys && (forall u | u in s.tasks && u != v :: s'.tasks[u] == s.tasks[u])
            && s.finished <= s'.finished
            && s'.tasks[v].Reader? == s.tasks[v].Reader?
            && Names(s'.tasks[v], k) == Names(s.tasks[v], k)
            && (s.tasks[v].Batch? ==> s'.tasks[v].keys == s.tasks[v].keys)
  {
    FinishesMore(s, v, found);
    if s.tasks[v].Batch? { BatchKeepsKeys(s, v, s.tasks[v], found); } else { ReaderKeepsKey(s, v, found); }
  }

  lemma FinishesMore(s: State, v: nat, found: Cached)
    ensures s.finished <= Step(s, v, found).finished
  {
  }

  lemma ReaderKeepsKey(s: State, v: nat, found: Cached)
    requires v in s.tasks && s.tasks[v].Reader?
    ensures var s' := Step(s, v, found);
            && s'.tasks.Keys == s.tasks.Keys && (forall u | u in s.tasks && u != v :: s'.tasks[u] == s.tasks[u])
            && s'.tasks[v].Reader? && s'.tasks[v].key == s.tasks[v].key
  {
  }

  lemma LedOnlyGrows(s: State, s': State, task: Task, k: Key, n: nat)
    requires LedOnly(s, task, k, n) && s.finished <= s'.finished
    ensures LedOnly(s', task, k, n)
  {
  }

  lemma StaysSpent(s: State, v: nat, found: Cached, k: Key, n: nat)
    requires Owned(s) && v in s.tasks && LedOnly(s, s.tasks[v], k, n)
    ensures v in Step(s, v, found).tasks && LedOnly(Step(s, v, found), Step(s, v, found).tasks[v], k, n)
  {
    if s.tasks[v].Reader? { ReaderStaysSpent(s, v, found, k, n); } else { BatchStaysSpent(s, v, found, k, n); }
  }

  lemma OthersStaySpent(s: State, v: nat, found: Cached, t: nat, k: Key, n: nat)
    requires Owned(s) && v in s.tasks && v != t && RivalsLedOnly(s, t, k, n)
    ensures RivalsLedOnly(Step(s, v, found), t, k, n)
  {
    var s' := Step(s, v, found);
    StepFrame(s, v, found, k);
    if Names(s.tasks[v], k) { StaysSpent(s, v, found, k, n); }
    forall u | u in s.tasks && u != t && u != v && Names(s.tasks[u], k) ensures LedOnly(s', s.tasks[u], k, n) {
      LedOnlyGrows(s, s', s.tasks[u], k, n);
    }
  }

  lemma OthersKeepNeverTwice(s: State, v: nat, found: Cached, t: nat, k: Key)
    requires Owned(s) && v in s.tasks && v != t && NeverTwice(s, t, k)
    ensures NeverTwice(Step(s, v, found), t, k)
  {
    var s' := Step(s, v, found);
    StepFrame(s, v, found, k);
    var b := s.tasks[t];
    assert s'.tasks[t] == b;
    if IsAtKey(b, k) {
      forall n | HasFollowed(b, n) ensures RivalsLedOnly(s', t, k, n) {
        OthersStaySpent(s, v, found, t, k, n);
      }
      if b.phase.Retrying? {
        var n :| n in s.finished && RivalsLedOnly(s, t, k, n);
        OthersStaySpent(s, v, found, t, k, n);
      }
    }
  }

  /** Who leads a key that batch t is at: a rival, for which it is the only lead of k. */
  lemma LeaderLedOnly(s: State, t: nat, k: Key) returns (l: nat)
    requires Owned(s) && t in s.tasks && IsAtKey(s.tasks[t], k) && k in s.inflight
    requires forall u | u in s.tasks && s.tasks[u].Batch? && Names(s.tasks[u], k) :: Distinct(s.tasks[u].keys)
    ensures l in s.tasks && l != t && Names(s.tasks[l], k) && LedOnly(s, s.tasks[l], k, s.inflight[k].notify)
    ensures exists p :: p in Permits(s.tasks[l]) && p.key == k && p.notify !in s.finished
  {
    LeaderHolds(s, k);
    l := s.inflight[k].leader;
    var p :| p in Permits(s.tasks[l]) && p.key == k && p.notify !in s.finished;
    assert TaskOk(s, l, s.tasks[l]) && TaskOk(s, t, s.tasks[t]);
    HoldsNoneOfNext(s.tasks[t]);
    forall q | q in Permits(s.tasks[l]) && q.key == k
      ensures q.notify in s.finished || q.notify == s.inflight[k].notify
    {
      assert PermitOk(s, l, q);
    }
    if s.tasks[l].Batch? { HolderIsPast(s.tasks[l], p); }
  }

  /** A batch of distinct keys that holds a permit has come past its key. */
  lemma HolderIsPast(b: Task, p: Permit)
    requires b.Batch? && InBounds(b) && Distinct(b.keys) && p in b.held
    ensures Names(b, p.key) && Spent(b, p.key)
  {
    var i :| 0 <= i < |b.held| && b.held[i] == p;
    var m :| 0 <= m < b.next && b.keys[..b.next][m] == p.key;
    assert b.keys[m] == p.key;
  }

  /** Between steps of a run, names and batches are those of the start. */
  ghost predicate Rivalry(s: State, t: nat, k: Key) {
    t in s.tasks && s.tasks[t].Batch? && OneRival(s.tasks, t, k) && Distinct(s.tasks[t].keys)
  }

  /** When batch t comes to a key in flight, every rival is its leader and has nothing else. */
  lemma FollowsTheOnlyLead(s: State, t: nat, k: Key)
    requires Owned(s) && Rivalry(s, t, k) && IsAtKey(s.tasks[t], k) && k in s.inflight
    ensures RivalsLedOnly(s, t, k, s.inflight[k].notify)
  {
    var l := LeaderLedOnly(s, t, k);
    forall u | u in s.tasks && u != t && Names(s.tasks[u], k) ensures LedOnly(s, s.tasks[u], k, s.inflight[k].notify) {
      assert u == l;
    }
  }

  /** After a wait whose handle is finished no rival leads k any more. */
  lemma FreeOnRetry(s: State, t: nat, k: Key, n: nat)
    requires Owned(s) && Rivalry(s, t, k) && IsAtKey(s.tasks[t], k) && n in s.finished && RivalsLedOnly(s, t, k, n)
    ensures k !in s.inflight
  {
    if k in s.inflight {
      var l := LeaderLedOnly(s, t, k);
    }
  }

  lemma SameRivals(s: State, s': State, t: nat, k: Key, n: nat)
    requires RivalsLedOnly(s, t, k, n) && s'.tasks.Keys == s.tasks.Keys && s.finished <= s'.finished
    requires forall u | u in s.tasks && u != t :: s'.tasks[u] == s.tasks[u]
    ensures RivalsLedOnly(s', t, k, n)
  {
    forall u | u in s'.tasks && u != t && Names(s'.tasks[u], k) ensures LedOnly(s', s'.tasks[u], k, n) {
      LedOnlyGrows(s, s', s.tasks[u], k, n);
    }
  }

  lemma PastIsNotAt(b: Task, k: Key)
    requires IsAtKey(b, k) && Distinct(b.keys)
    ensures b.next + 1 < |b.keys| ==> b.keys[b.next + 1] != k
  {
  }

  lemma BeginsAtKey(s: State, t: nat, found: Cached, k: Key)
    requires Owned(s) && Rivalry(s, t, k) && NeverTwice(s, t, k) && IsAtKey(s.tasks[t], k) && s.tasks[t].phase.Starting?
    ensures NeverTwice(Step(s, t, found), t, k)
  {
    StepFrame(s, t, found, k);
    PastIsNotAt(s.tasks[t], k);
    if k in s.inflight {
      FollowsTheOnlyLead(s, t, k);
      SameRivals(s, Step(s, t, found), t, k, s.inflight[k].notify);
    }
  }

  lemma WakesAtKey(s: State, t: nat, found: Cached, k: Key, n: nat)
    requires Owned(s) && Rivalry(s, t, k) && NeverTwice(s, t, k) && IsAtKey(s.tasks[t], k) && HasFollowed(s.tasks[t], n)
    ensures NeverTwice(Step(s, t, found), t, k)
  {
    assert s.tasks[t].phase.Looking? ==> n in s.finished by { assert TaskOk(s, t, s.tasks[t]); }
    StepFrame(s, t, found, k);
    PastIsNotAt(s.tasks[t], k);
    SameRivals(s, Step(s, t, found), t, k, n);
  }

  lemma RetriesAtKey(s: State, t: nat, found: Cached, k: Key)
    requires Owned(s) && Rivalry(s, t, k) && NeverTwice(s, t, k) && IsAtKey(s.tasks[t], k) && s.tasks[t].phase.Retrying?
    ensures NeverTwice(Step(s, t, found), t, k)
  {
    PastIsNotAt(s.tasks[t], k);
    var n :| n in s.finished && RivalsLedOnly(s, t, k, n);
    FreeOnRetry(s, t, k, n);
  }

  lemma OwnStepAtKey(s: State, t: nat, found: Cached, k: Key)
    requires Owned(s) && Rivalry(s, t, k) && NeverTwice(s, t, k) && IsAtKey(s.tasks[t], k)
    ensures NeverTwice(Step(s, t, found), t, k)
  {
    match s.tasks[t].phase
    case Starting => BeginsAtKey(s, t, found, k);
    case Following(n) => WakesAtKey(s, t, found, k, n);
    case Looking(n) => WakesAtKey(s, t, found, k, n);
    case Retrying => RetriesAtKey(s, t, found, k);
    case _ =>
  }

  lemma OwnStepKeepsNeverTwice(s: State, t: nat, found: Cached, k: Key)
    requires Owned(s) && Rivalry(s, t, k) && NeverTwice(s, t, k)
    ensures NeverTwice(Step(s, t, found), t, k)
  {
    if IsAtKey(s.tasks[t], k) {
      OwnStepAtKey(s, t, found, k);
    } else {
      OwnStepElsewhere(s, t, found, k);
    }
  }

  lemma OwnStepElsewhere(s: State, t: nat, found: Cached, k: Key)
    requires t in s.tasks && NeverTwice(s, t, k) && !IsAtKey(s.tasks[t], k)
    ensures NeverTwice(Step(s, t, found), t, k)
  {
    BatchKeepsKeys(s, t, s.tasks[t], found);
  }

  /** Names and the distinctness of keys are those of the start. */
  ghost predicate SameNames(tasks: map<nat, Task>, s: State, k: Key) {
    && s.tasks.Keys == tasks.Keys
    && (forall u | u in tasks :: Names(s.tasks[u], k) == Names(tasks[u], k) && s.tasks[u].Reader? == tasks[u].Reader?)
    && (forall u | u in tasks && tasks[u].Batch? :: s.tasks[u].keys == tasks[u].keys)
  }

  lemma {:induction false} NamesNeverChange(tasks: map<nat, Task>, schedule: seq<(nat, Cached)>, k: Key)
    ensures SameNames(tasks, Run(Start(tasks), schedule), k)
  {
    if schedule != [] {
      var n := |schedule| - 1;
      NamesNeverChange(tasks, schedule[..n], k);
      StepKeepsNames(tasks, Run(Start(tasks), schedule[..n]), schedule[n].0, schedule[n].1, k);
    }
  }

  lemma StepKeepsNames(tasks: map<nat, Task>, s: State, t: nat, found: Cached, k: Key)
    requires SameNames(tasks, s, k)
    ensures SameNames(tasks, Step(s, t, found), k)
  {
    if t in s.tasks { StepFrame(s, t, found, k); }
  }

  lemma RivalryStays(tasks: map<nat, Task>, s: State, t: nat, k: Key)
    requires SameNames(tasks, s, k) && OneRival(tasks, t, k) && t in tasks && tasks[t].Batch? && Distinct(tasks[t].keys)
    ensures Rivalry(s, t, k)
  {
  }

  lemma {:induction false} NeverFollowsTwice(tasks: map<nat, Task>, schedule: seq<(nat, Cached)>, t: nat, k: Key)
    requires (forall u | u in tasks :: IsNew(tasks[u])) && t in tasks && tasks[t].Batch? && Distinct(tasks[t].keys)
    requires OneRival(tasks, t, k)
    ensures NeverTwice(Run(Start(tasks), schedule), t, k)
  {
    if schedule == [] {
      assert IsNew(tasks[t]);
    } else {
      var n := |schedule| - 1;
      var s := Run(Start(tasks), schedule[..n]);
      NeverFollowsTwice(tasks, schedule[..n], t, k);
      EveryRunIsOwned(tasks, schedule[..n]);
      NamesNeverChange(tasks, schedule[..n], k);
      RivalryStays(tasks, s, t, k);
      if schedule[n].0 == t {
        OwnStepKeepsNeverTwice(s, t, schedule[n].1, k);
      } else if schedule[n].0 in s.tasks {
        OthersKeepNeverTwice(s, schedule[n].0, schedule[n].1, t, k);
      }
    }
  }

  /** If at most one other task names k, a batch of distinct keys always answers with a count for k. */
  lemma OneRivalLeavesNoGap(tasks: map<nat, Task>, schedule: seq<(nat, Cached)>, t: nat, k: Key)
    requires (forall u | u in tasks :: IsNew(tasks[u])) && t in tasks && tasks[t].Batch? && Distinct(tasks[t].keys)
    requires OneRival(tasks, t, k)
    ensures var s := Run(Start(tasks), schedule); t in s.tasks && s.tasks[t].Batch? && k !in s.tasks[t].unanswered
  {
    NeverFollowsTwice(tasks, schedule, t, k);
  }

  // ----- Two readers of the key -----

  /** Batch t came to k at position j, with readers u and v of k. */
  ghost predicate Scene(s: State, t: nat, keys: seq<Key>, j: nat, phase: BatchPhase, u: nat, ru: ReaderPhase, v: nat,
                        rv: ReaderPhase) {
    && t in s.tasks && u in s.tasks && v in s.tasks && t != u && t != v && u != v && j < |keys|
    && s.tasks[t].Batch? && s.tasks[t].keys == keys && s.tasks[t].next == j && s.tasks[t].phase == phase
    && s.tasks[t].unanswered == []
    && s.tasks[u] == Reader(keys[j], ru) && s.tasks[v] == Reader(keys[j], rv)
  }

  /** The first reader leads, the batch follows, the first reader finishes. */
  lemma FirstRound(s: State, t: nat, keys: seq<Key>, j: nat, u: nat, v: nat)
    requires Scene(s, t, keys, j, Starting, u, Beginning, v, Beginning) && keys[j] !in s.inflight
    ensures var n := s.handles;
            var s' := Step(Step(Step(s, u, Miss), t, Miss), u, Miss);
            && Scene(s', t, keys, j, Following(n), u, Served, v, Beginning) && keys[j] !in s'.inflight
            && n in s'.finished
            && (forall l :: l in s'.inflight ==> l in s.inflight)
  {
    var k, n := keys[j], s.handles;
    var s1 := Step(s, u, Miss);
    assert Scene(s1, t, keys, j, Starting, u, Leading(n), v, Beginning) && k in s1.inflight;
    assert s1.inflight[k].notify == n;
    var s2 := Step(s1, t, Miss);
    assert Scene(s2, t, keys, j, Following(n), u, Leading(n), v, Beginning) && s2.inflight == s1.inflight;
  }

  /** The batch looks, misses, and the second reader leads before it begins again. */
  lemma SecondRound(s: State, t: nat, keys: seq<Key>, j: nat, u: nat, v: nat, n: nat)
    requires Scene(s, t, keys, j, Following(n), u, Served, v, Beginning) && keys[j] !in s.inflight && n in s.finished
    ensures var m := s.handles;
            var s' := Step(Step(Step(s, t, Miss), t, Miss), v, Miss);
            && Scene(s', t, keys, j, Retrying, u, Served, v, Leading(m))
            && keys[j] in s'.inflight && s'.inflight[keys[j]].notify == m
            && (forall l :: l in s'.inflight ==> l in s.inflight || l == keys[j])
  {
    var s1 := Step(s, t, Miss);
    assert Scene(s1, t, keys, j, Looking(n), u, Served, v, Beginning) && s1.inflight == s.inflight;
    assert s1.handles == s.handles;
    var s2 := Step(s1, t, Miss);
    assert Scene(s2, t, keys, j, Retrying, u, Served, v, Beginning) && s2.inflight == s.inflight;
    assert s2.handles == s.handles;
  }

  /** The batch follows the second reader, whose finish ends the second wait. */
  lemma ThirdRound(s: State, t: nat, keys: seq<Key>, j: nat, u: nat, v: nat, m: nat)
    requires Scene(s, t, keys, j, Retrying, u, Served, v, Leading(m)) && keys[j] in s.inflight
    requires s.inflight[keys[j]].notify == m
    ensures var s' := Step(Step(Step(s, t, Miss), v, Miss), t, Miss);
            && t in s'.tasks && s'.tasks[t].Batch? && s'.tasks[t].keys == keys && s'.tasks[t].next == j + 1
            && s'.tasks[t].phase.Starting? && s'.tasks[t].unanswered == [keys[j]]
            && (forall l :: l in s'.inflight ==> l in s.inflight)
  {
    var s1 := Step(s, t, Miss);
    assert Scene(s1, t, keys, j, FollowingAgain(m), u, Served, v, Leading(m));
    var s2 := Step(s1, v, Miss);
    assert Scene(s2, t, keys, j, FollowingAgain(m), u, Served, v, Served) && m in s2.finished;
  }

  /** Three turns. */
  lemma ThreeTurns(start: State, first: seq<(nat, Cached)>, a: nat, b: nat, c: nat)
    ensures Run(start, first + [(a, Miss)] + [(b, Miss)] + [(c, Miss)])
      == Step(Step(Step(Run(start, first), a, Miss), b, Miss), c, Miss)
  {
    RunStep(start, first, (a, Miss));
    RunStep(start, first + [(a, Miss)], (b, Miss));
    RunStep(start, first + [(a, Miss)] + [(b, Miss)], (c, Miss));
  }

  lemma LeadsUpToKey(tasks: map<nat, Task>, t: nat, j: nat)
    requires t in tasks && tasks[t].Batch? && tasks[t] == NewBatch(tasks[t].keys) && Distinct(tasks[t].keys)
    requires j < |tasks[t].keys|
    ensures var keys := tasks[t].keys;
            var s := Run(Start(tasks), Turns(t, j));
            HasLed(Start(tasks), s, t, keys, j) && forall m | j <= m < |keys| :: keys[m] !in s.inflight
  {
    var keys := tasks[t].keys;
    DistinctPrefix(keys, j);
    LeadsFreeKeys(Start(tasks), t, keys, j);
    assert forall i, m | 0 <= i < j <= m < |keys| :: keys[..j][i] != keys[m];
  }

  /** Two readers of k suffice for a batch to answer without a count for it. */
  lemma TwoReadersLeaveAGap(tasks: map<nat, Task>, t: nat, j: nat, u: nat, v: nat)
      returns (schedule: seq<(nat, Cached)>)
    requires t in tasks && tasks[t].Batch? && tasks[t] == NewBatch(tasks[t].keys) && Distinct(tasks[t].keys)
    requires j < |tasks[t].keys|
    requires u in tasks && v in tasks && u != v && tasks[u] == tasks[v] == NewReader(tasks[t].keys[j])
    ensures var s := Run(Start(tasks), schedule);
            Gave(s, t, [tasks[t].keys[j]])
  {
    var start, keys := Start(tasks), tasks[t].keys;
    var lead := Turns(t, j);
    LeadsUpToKey(tasks, t, j);
    var s0 := Run(start, lead);
    assert Scene(s0, t, keys, j, Starting, u, Beginning, v, Beginning);
    FirstRound(s0, t, keys, j, u, v);
    ThreeTurns(start, lead, u, t, u);
    var first := lead + [(u, Miss)] + [(t, Miss)] + [(u, Miss)];
    SecondRound(Run(start, first), t, keys, j, u, v, s0.handles);
    ThreeTurns(start, first, t, t, v);
    var second := first + [(t, Miss)] + [(t, Miss)] + [(v, Miss)];
    ThirdRound(Run(start, second), t, keys, j, u, v, Run(start, first).handles);
    ThreeTurns(start, second, t, v, t);
    var third := second + [(t, Miss)] + [(v, Miss)] + [(t, Miss)];
    assert FreeFrom(Run(start, third), t, [keys[j]]);
    var n := AnswersFromFree(Run(start, third), t, [keys[j]]);
    RunOn(start, third, Turns(t, n));
    schedule := third + Turns(t, n);
  }

  /** In some run batch t answers without a count for k. */
  ghost predicate MayLeaveAGap(tasks: map<nat, Task>, t: nat, k: Key) {
    exists schedule ::
      var s := Run(Start(tasks), schedule);
      t in s.tasks && s.tasks[t].Batch? && Done(s.tasks[t]) && k in s.tasks[t].unanswered
  }

  /** A batch of distinct keys among readers may answer without a count for its key k exactly when at least two
      readers ask for k. */
  lemma GapIffTwoReaders(tasks: map<nat, Task>, t: nat, k: Key)
    requires (forall u | u in tasks :: IsNew(tasks[u])) && (forall u | u in tasks && u != t :: tasks[u].Reader?)
    requires t in tasks && tasks[t].Batch? && Distinct(tasks[t].keys) && k in tasks[t].keys
    ensures MayLeaveAGap(tasks, t, k)
       <==> exists u, v ::
              u in tasks && v in tasks && u != v && u != t && v != t && tasks[u].key == k && tasks[v].key == k
  {
    if u, v :| u in tasks && v in tasks && u != v && u != t && v != t && tasks[u].key == k && tasks[v].key == k {
      var j :| 0 <= j < |tasks[t].keys| && tasks[t].keys[j] == k;
      assert IsNew(tasks[t]) && IsNew(tasks[u]) && IsNew(tasks[v]);
      var schedule := TwoReadersLeaveAGap(tasks, t, j, u, v);
    } else {
      assert OneRival(tasks, t, k);
      forall schedule
        ensures var s := Run(Start(tasks), schedule); t in s.tasks && s.tasks[t].Batch? && k !in s.tasks[t].unanswered
      {
        OneRivalLeavesNoGap(tasks, schedule, t, k);
      }
    }
  }
}
