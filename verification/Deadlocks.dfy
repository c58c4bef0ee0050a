/** Exactly when batches wait for themselves or for each other for ever. */
module Deadlocks {
  import opened Finite
  import opened SingleFlight

  /** n turns of one task, every lookup missing. */
  function Turns(t: nat, n: nat): seq<(nat, Cached)> { if n == 0 then [] else Turns(t, n - 1) + [(t, Miss)] }

  lemma OneTurn(start: State, t: nat, n: nat)
    ensures Run(start, Turns(t, n + 1)) == Step(Run(start, Turns(t, n)), t, Miss)
  {
    RunStep(start, Turns(t, n), (t, Miss));
  }

  // ----- A batch on its way through free keys -----

  /** From `start` on only batch t moved, and it led its first j keys. */
  ghost predicate HasLed(start: State, s: State, t: nat, keys: seq<Key>, j: nat) {
    && j <= |keys| && s.finished == start.finished
    && t in s.tasks && s.tasks[t].Batch? && s.tasks == start.tasks[t := s.tasks[t]]
    && s.tasks[t] == Batch(keys, j, s.tasks[t].held, [], Starting)
    && (forall k :: k in s.inflight <==> k in start.inflight || k in keys[..j])
  }

  /** The first j keys are distinct and nobody leads them. */
  ghost predicate Free(s: State, keys: seq<Key>, j: nat)
    requires j <= |keys|
  {
    Distinct(keys[..j]) && forall k | k in keys[..j] :: k !in s.inflight
  }

  lemma LeadsNext(start: State, s: State, t: nat, keys: seq<Key>, j: nat)
    requires j < |keys| && HasLed(start, s, t, keys, j) && keys[j] !in s.inflight
    ensures HasLed(start, Step(s, t, Miss), t, keys, j + 1)
  {
    assert keys[..j + 1] == keys[..j] + [keys[j]];
  }

  lemma FreeBefore(s: State, keys: seq<Key>, j: nat)
    requires 0 < j <= |keys| && Free(s, keys, j)
    ensures Free(s, keys, j - 1) && keys[j - 1] !in keys[..j - 1] && keys[j - 1] !in s.inflight
  {
    var first := keys[..j];
    assert first[..j - 1] == keys[..j - 1] && first[j - 1] == keys[j - 1];
    forall k | k in keys[..j - 1] ensures k !in s.inflight {
      assert k in first;
    }
  }

  lemma {:induction false} LeadsFreeKeys(start: State, t: nat, keys: seq<Key>, j: nat)
    requires t in start.tasks && start.tasks[t] == NewBatch(keys) && j <= |keys| && Free(start, keys, j)
    ensures HasLed(start, Run(start, Turns(t, j)), t, keys, j)
  {
    if j == 0 {
      assert start.tasks[t := start.tasks[t]] == start.tasks;
    } else {
      FreeBefore(start, keys, j);
      LeadsFreeKeys(start, t, keys, j - 1);
      OneTurn(start, t, j - 1);
      LeadsNext(start, Run(start, Turns(t, j - 1)), t, keys, j - 1);
    }
  }

  // ----- Until a batch comes to its query -----

  predicate OnlyBatches(tasks: map<nat, Task>) { forall t | t in tasks :: tasks[t].Batch? }

  predicate BeforeQuery(task: Task) { task.Batch? && !task.phase.Finishing? && !task.phase.Answered? }

  predicate AllBeforeQuery(s: State) { forall t | t in s.tasks :: BeforeQuery(s.tasks[t]) }

  /** A batch that led every key it came past. */
  predicate LedAllSoFar(b: Task) {
    && b.Batch? && (b.phase.Starting? || b.phase.Following?) && b.unanswered == []
    && |b.held| == b.next <= |b.keys|
    && forall i | 0 <= i < b.next :: b.held[i].key == b.keys[i]
  }

  /** While all batches are before their query nothing is finished, so nobody waited in vain. */
  ghost predicate NothingFinished(s: State) {
    AllBeforeQuery(s) ==> s.finished == {} && forall t | t in s.tasks :: LedAllSoFar(s.tasks[t])
  }

  /** Finishing and answered batches stay so. */
  lemma WasBeforeQuery(s: State, t: nat, found: Cached)
    requires OnlyBatches(s.tasks) && AllBeforeQuery(Step(s, t, found))
    ensures AllBeforeQuery(s)
  {
    if t in s.tasks { BatchKeepsKeys(s, t, s.tasks[t], found); }
    forall u | u in s.tasks ensures BeforeQuery(s.tasks[u]) {
      assert BeforeQuery(Step(s, t, found).tasks[u]);
    }
  }

  /** With nothing finished a batch leads, begins to wait, or goes on waiting. */
  lemma LeadsOrWaits(s: State, t: nat, found: Cached)
    requires t in s.tasks && LedAllSoFar(s.tasks[t]) && s.finished == {} && BeforeQuery(Step(s, t, found).tasks[t])
    ensures Step(s, t, found).finished == {} && LedAllSoFar(Step(s, t, found).tasks[t])
  {
  }

  lemma NothingFinishedYet(s: State, t: nat, found: Cached)
    requires OnlyBatches(s.tasks) && NothingFinished(s)
    ensures OnlyBatches(Step(s, t, found).tasks) && NothingFinished(Step(s, t, found))
  {
    if t in s.tasks {
      BatchKeepsKeys(s, t, s.tasks[t], found);
      if AllBeforeQuery(Step(s, t, found)) {
        WasBeforeQuery(s, t, found);
        LeadsOrWaits(s, t, found);
      }
    }
  }

  lemma {:induction false} BatchesFinishNothingBeforeQuery(tasks: map<nat, Task>, schedule: seq<(nat, Cached)>)
    requires OnlyBatches(tasks) && forall t | t in tasks :: IsNew(tasks[t])
    ensures var s := Run(Start(tasks), schedule); OnlyBatches(s.tasks) && NothingFinished(s)
  {
    if schedule == [] {
      forall t | t in tasks ensures LedAllSoFar(tasks[t]) {
        assert IsNew(tasks[t]);
      }
    } else {
      var n := |schedule| - 1;
      BatchesFinishNothingBeforeQuery(tasks, schedule[..n]);
      NothingFinishedYet(Run(Start(tasks), schedule[..n]), schedule[n].0, schedule[n].1);
    }
  }

  /** Tasks stay, and batches keep their keys. */
  predicate SameKeys(tasks: map<nat, Task>, s: State) {
    && s.tasks.Keys == tasks.Keys
    && forall t | t in tasks && tasks[t].Batch? :: s.tasks[t].Batch? && s.tasks[t].keys == tasks[t].keys
  }

  lemma {:induction false} KeysNeverChange(tasks: map<nat, Task>, schedule: seq<(nat, Cached)>)
    ensures SameKeys(tasks, Run(Start(tasks), schedule))
  {
    if schedule != [] {
      var n := |schedule| - 1;
      KeysNeverChange(tasks, schedule[..n]);
      StepKeepsKeys(tasks, Run(Start(tasks), schedule[..n]), schedule[n].0, schedule[n].1);
    }
  }

  lemma StepKeepsKeys(tasks: map<nat, Task>, s: State, t: nat, found: Cached)
    requires SameKeys(tasks, s)
    ensures SameKeys(tasks, Step(s, t, found))
  {
    if t in s.tasks && s.tasks[t].Batch? { BatchKeepsKeys(s, t, s.tasks[t], found); }
  }

  // ----- One batch -----

  /** One batch, nobody else. */
  function Alone(keys: seq<Key>): State { Start(map[0 := NewBatch(keys)]) }

  lemma {:induction false} FirstRepeat(keys: seq<Key>) returns (j: nat)
    requires !Distinct(keys)
    ensures j < |keys| && Distinct(keys[..j]) && keys[j] in keys[..j]
  {
    var n := |keys| - 1;
    if Distinct(keys[..n]) {
      j := n;
    } else {
      j := FirstRepeat(keys[..n]);
      assert keys[..n][..j] == keys[..j];
    }
  }

  /** The batch has not come past position j. */
  ghost predicate UpTo(s: State, keys: seq<Key>, j: nat) {
    && s.tasks.Keys == {0} && s.tasks[0].Batch? && s.tasks[0].keys == keys
    && BeforeQuery(s.tasks[0]) && s.tasks[0].next <= j
  }

  lemma RepeatIsInFlight(s: State, keys: seq<Key>, j: nat)
    requires Owned(s) && j < |keys| && keys[j] in keys[..j] && 0 in s.tasks && s.finished == {}
    requires LedAllSoFar(s.tasks[0]) && s.tasks[0].keys == keys && s.tasks[0].next == j
    ensures keys[j] in s.inflight
  {
    var i :| 0 <= i < j && keys[i] == keys[j];
    var b := s.tasks[0];
    assert TaskOk(s, 0, b);
    assert PermitOk(s, 0, b.held[i]);
  }

  lemma StaysBeforeRepeat(s: State, keys: seq<Key>, j: nat, t: nat, found: Cached)
    requires Owned(s) && NothingFinished(s) && j < |keys| && keys[j] in keys[..j] && UpTo(s, keys, j)
    ensures UpTo(Step(s, t, found), keys, j)
  {
    assert AllBeforeQuery(s) && LedAllSoFar(s.tasks[0]);
    if s.tasks[0].next == j { RepeatIsInFlight(s, keys, j); }
    OneStepBeforeRepeat(s, keys, j, t, found);
  }

  lemma OneStepBeforeRepeat(s: State, keys: seq<Key>, j: nat, t: nat, found: Cached)
    requires j < |keys| && UpTo(s, keys, j) && LedAllSoFar(s.tasks[0]) && s.finished == {}
    requires s.tasks[0].next == j ==> keys[j] in s.inflight
    ensures UpTo(Step(s, t, found), keys, j)
  {
  }

  /** Whatever its lookups find, a batch never comes past the first key that repeats. */
  lemma {:induction false} NeverPastRepeat(keys: seq<Key>, j: nat, schedule: seq<(nat, Cached)>)
    requires j < |keys| && keys[j] in keys[..j]
    ensures UpTo(Run(Alone(keys), schedule), keys, j)
  {
    if schedule != [] {
      var n := |schedule| - 1;
      var tasks := map[0 := NewBatch(keys)];
      NeverPastRepeat(keys, j, schedule[..n]);
      EveryRunIsOwned(tasks, schedule[..n]);
      BatchesFinishNothingBeforeQuery(tasks, schedule[..n]);
      StaysBeforeRepeat(Run(Alone(keys), schedule[..n]), keys, j, schedule[n].0, schedule[n].1);
    }
  }

  lemma StuckAtRepeat(keys: seq<Key>, j: nat)
    requires j < |keys| && Distinct(keys[..j]) && keys[j] in keys[..j]
    ensures Stuck(Run(Alone(keys), Turns(0, j + 1)))
  {
    LeadsFreeKeys(Alone(keys), 0, keys, j);
    OneTurn(Alone(keys), 0, j);
    var s := Run(Alone(keys), Turns(0, j + 1));
    assert s.tasks[0].phase.Following? && s.finished == {};
    forall t, found ensures Step(s, t, found) == s {
      if t in s.tasks { assert t == 0; }
    }
    assert !Done(s.tasks[0]);
  }

  /** A batch with a repeated missing key waits for itself, even when nothing else runs. */
  lemma RepeatedKeyDeadlocks(keys: seq<Key>)
    requires !Distinct(keys)
    ensures exists schedule :: Stuck(Run(Alone(keys), schedule))
  {
    var j := FirstRepeat(keys);
    StuckAtRepeat(keys, j);
  }

  /** Batch t has `left` permits to finish. */
  predicate HasLeft(s: State, t: nat, unanswered: seq<Key>, left: nat) {
    && t in s.tasks && s.tasks[t].Batch? && s.tasks[t].phase.Finishing? && |s.tasks[t].held| == left
    && s.tasks[t].unanswered == unanswered
  }

  predicate Gave(s: State, t: nat, unanswered: seq<Key>) {
    t in s.tasks && s.tasks[t].Batch? && Done(s.tasks[t]) && s.tasks[t].unanswered == unanswered
  }

  lemma FinishOneMore(s: State, t: nat, unanswered: seq<Key>, left: nat)
    requires HasLeft(s, t, unanswered, left)
    ensures left > 0 ==> HasLeft(Step(s, t, Miss), t, unanswered, left - 1)
    ensures left == 0 ==> Gave(Step(s, t, Miss), t, unanswered)
  {
  }

  lemma {:induction false} FinishesFromLast(s: State, t: nat, unanswered: seq<Key>, left: nat)
    requires HasLeft(s, t, unanswered, left)
    ensures Gave(Run(s, Turns(t, left + 1)), t, unanswered)
    decreases left
  {
    FinishOneMore(s, t, unanswered, left);
    OneTurn(s, t, left);
    if left > 0 {
      FinishesFromLast(Step(s, t, Miss), t, unanswered, left - 1);
      TurnsFrom(s, t, left);
    } else {
      assert Run(s, Turns(t, 0)) == s;
    }
  }

  /** Batch t is before a key, and nobody leads those from there on. */
  ghost predicate FreeFrom(s: State, t: nat, unanswered: seq<Key>) {
    && t in s.tasks && s.tasks[t].Batch? && s.tasks[t].phase.Starting? && s.tasks[t].unanswered == unanswered
    && s.tasks[t].next <= |s.tasks[t].keys| && Distinct(s.tasks[t].keys)
    && forall m | s.tasks[t].next <= m < |s.tasks[t].keys| :: s.tasks[t].keys[m] !in s.inflight
  }

  lemma FreeNext(s: State, t: nat, unanswered: seq<Key>)
    requires FreeFrom(s, t, unanswered)
    ensures var b, s' := s.tasks[t], Step(s, t, Miss);
            if b.next < |b.keys| then
              FreeFrom(s', t, unanswered) && s'.tasks[t].keys == b.keys && s'.tasks[t].next == b.next + 1
            else HasLeft(s', t, unanswered, |b.held|)
  {
  }

  /** A batch before free keys comes to its answer by its own turns. */
  lemma {:induction false} AnswersFromFree(s: State, t: nat, unanswered: seq<Key>) returns (n: nat)
    requires FreeFrom(s, t, unanswered)
    ensures Gave(Run(s, Turns(t, n)), t, unanswered)
    decreases |s.tasks[t].keys| - s.tasks[t].next
  {
    FreeNext(s, t, unanswered);
    if s.tasks[t].next < |s.tasks[t].keys| {
      n := AnswersFromFree(Step(s, t, Miss), t, unanswered);
    } else {
      n := |s.tasks[t].held| + 1;
      FinishesFromLast(Step(s, t, Miss), t, unanswered, |s.tasks[t].held|);
    }
    TurnsFrom(s, t, n);
    n := n + 1;
  }

  lemma TurnsFrom(s: State, t: nat, n: nat)
    ensures Run(s, Turns(t, n + 1)) == Run(Step(s, t, Miss), Turns(t, n))
  {
    if n == 0 {
      OneTurn(s, t, 0);
      assert Run(s, Turns(t, 0)) == s;
    } else {
      TurnsFrom(s, t, n - 1);
      OneTurn(s, t, n);
      OneTurn(Step(s, t, Miss), t, n - 1);
    }
  }

  /** Without repeats a batch on its own is answered. */
  lemma DistinctBatchAloneIsAnswered(keys: seq<Key>)
    requires Distinct(keys)
    ensures exists schedule :: var s := Run(Alone(keys), schedule); s.tasks.Keys == {0} && Done(s.tasks[0])
  {
    var n := AnswersFromFree(Alone(keys), 0, []);
    KeysNeverChange(map[0 := NewBatch(keys)], Turns(0, n));
  }

  ghost predicate EverAnswered(keys: seq<Key>) {
    exists schedule :: var s := Run(Alone(keys), schedule); 0 in s.tasks && Done(s.tasks[0])
  }

  /** A batch alone can be answered exactly when its missing keys are distinct: with a repeat it is not
      answered under any schedule, whatever its lookups find. */
  lemma AloneAnsweredIffDistinct(keys: seq<Key>)
    ensures EverAnswered(keys) <==> Distinct(keys)
  {
    if Distinct(keys) {
      DistinctBatchAloneIsAnswered(keys);
    } else {
      var j := FirstRepeat(keys);
      forall schedule ensures var s := Run(Alone(keys), schedule); 0 !in s.tasks || !Done(s.tasks[0]) {
        NeverPastRepeat(keys, j, schedule);
      }
    }
  }

  // ----- Two batches -----

  function Both(a: seq<Key>, b: seq<Key>): map<nat, Task> { map[0 := NewBatch(a), 1 := NewBatch(b)] }

  /** Each batch comes to a key that the other has already led. */
  ghost predicate Crosses(a: seq<Key>, b: seq<Key>, i: nat, j: nat) {
    && i < |a| && j < |b|
    && (forall k | k in a[..i] :: k !in b[..j])
    && a[i] in b[..j] && b[j] in a[..i]
  }

  predicate Came(task: Task, keys: seq<Key>, j: nat) {
    task.Batch? && task.keys == keys && task.next == j && task.unanswered == [] && task.phase.Starting?
  }

  lemma DistinctPrefix(keys: seq<Key>, j: nat)
    requires Distinct(keys) && j <= |keys|
    ensures Distinct(keys[..j])
  {
  }

  lemma CrossingLeads(a: seq<Key>, b: seq<Key>, i: nat, j: nat)
    requires Distinct(a) && Distinct(b) && Crosses(a, b, i, j)
    ensures var start := Start(Both(a, b));
            var s := Run(start, Turns(0, i) + Turns(1, j));
            && s.finished == {} && s.tasks.Keys == {0, 1}
            && Came(s.tasks[0], a, i) && Came(s.tasks[1], b, j)
            && a[i] in s.inflight && b[j] in s.inflight
  {
    var start := Start(Both(a, b));
    DistinctPrefix(a, i);
    DistinctPrefix(b, j);
    LeadsFreeKeys(start, 0, a, i);
    var s1 := Run(start, Turns(0, i));
    assert forall k | k in b[..j] :: k !in s1.inflight;
    LeadsFreeKeys(s1, 1, b, j);
    RunOn(start, Turns(0, i), Turns(1, j));
  }

  lemma CrossingSticks(s: State, a: seq<Key>, b: seq<Key>, i: nat, j: nat)
    requires i < |a| && j < |b| && s.finished == {} && s.tasks.Keys == {0, 1}
    requires Came(s.tasks[0], a, i) && Came(s.tasks[1], b, j)
    requires a[i] in s.inflight && b[j] in s.inflight
    ensures Stuck(Step(Step(s, 0, Miss), 1, Miss))
  {
    var s' := Step(Step(s, 0, Miss), 1, Miss);
    assert s'.tasks[0].phase.Following? && s'.tasks[1].phase.Following?;
    forall t, found ensures Step(s', t, found) == s' {
      if t in s'.tasks { assert t == 0 || t == 1; }
    }
    assert !Done(s'.tasks[0]);
  }

  lemma CrossingDeadlocks(a: seq<Key>, b: seq<Key>, i: nat, j: nat)
    requires Distinct(a) && Distinct(b) && Crosses(a, b, i, j)
    ensures exists schedule :: Stuck(Run(Start(Both(a, b)), schedule))
  {
    var start := Start(Both(a, b));
    var lead := Turns(0, i) + Turns(1, j);
    CrossingLeads(a, b, i, j);
    RunStep(start, lead, (0, Miss));
    RunStep(start, lead + [(0, Miss)], (1, Miss));
    CrossingSticks(Run(start, lead), a, b, i, j);
  }

  lemma HoldsNoneOfNext(b: Task)
    requires b.Batch? && InBounds(b) && b.next < |b.keys| && Distinct(b.keys)
    ensures forall p | p in b.held :: p.key != b.keys[b.next]
  {
    forall p | p in b.held ensures p.key != b.keys[b.next] {
      var i :| 0 <= i < |b.held| && b.held[i] == p;
      var m :| 0 <= m < b.next && b.keys[..b.next][m] == p.key;
      assert b.keys[m] != b.keys[b.next];
    }
  }

  /** The two tasks are batches of distinct keys. */
  ghost predicate IsPair(s: State) {
    && s.tasks.Keys == {0, 1} && s.tasks[0].Batch? && s.tasks[1].Batch?
    && Distinct(s.tasks[0].keys) && Distinct(s.tasks[1].keys)
  }

  /** Batch t waits for a key that u holds, and u is not done. */
  ghost predicate AwaitsHeld(s: State, t: nat, u: nat) {
    && t in s.tasks && u in s.tasks && s.tasks[u].Batch? && Blocked(s, t) && !Done(s.tasks[u])
    && exists p :: p in s.tasks[u].held && p.key == AwaitedKey(s, t)
  }

  /** A waiting batch waits for another task. */
  lemma AwaitsAnother(s: State, t: nat) returns (u: nat)
    requires Owned(s) && Blocked(s, t) && s.tasks[t].Batch? && Distinct(s.tasks[t].keys)
    ensures u in s.tasks && u != t && !Done(s.tasks[u])
    ensures s.tasks[u].Batch? ==> AwaitsHeld(s, t, u)
  {
    var k := AwaitedKey(s, t);
    BlockedOnALeader(s, t);
    u := s.inflight[k].leader;
    var p :| p in Permits(s.tasks[u]) && p.key == k && p.notify !in s.finished;
    assert InBounds(s.tasks[t]) by { assert TaskOk(s, t, s.tasks[t]); }
    HoldsNoneOfNext(s.tasks[t]);
  }

  /** When batches are stuck, one waits for a second, and that one waits too. */
  lemma StuckBatchesWait(s: State) returns (t: nat, u: nat, v: nat)
    requires Owned(s) && Stuck(s) && forall t | t in s.tasks :: s.tasks[t].Batch? && Distinct(s.tasks[t].keys)
    ensures t in s.tasks && u in s.tasks && v in s.tasks && t != u && u != v
    ensures AwaitsHeld(s, t, u) && AwaitsHeld(s, u, v)
  {
    t :| t in s.tasks && !Done(s.tasks[t]);
    StuckIsBlocked(s, t);
    u := AwaitsAnother(s, t);
    StuckIsBlocked(s, u);
    v := AwaitsAnother(s, u);
  }

  /** So it stands at a crossing. */
  lemma StuckPairCrosses(s: State)
    requires Owned(s) && NothingFinished(s) && IsPair(s) && AwaitsHeld(s, 0, 1) && AwaitsHeld(s, 1, 0)
    ensures Crosses(s.tasks[0].keys, s.tasks[1].keys, s.tasks[0].next, s.tasks[1].next)
  {
    PairIsBeforeQuery(s);
    HeldIsDisjoint(s);
    AwaitsInPrefix(s, 0, 1);
    AwaitsInPrefix(s, 1, 0);
  }

  lemma PairIsBeforeQuery(s: State)
    requires NothingFinished(s) && IsPair(s) && Blocked(s, 0) && Blocked(s, 1)
    ensures s.finished == {} && LedAllSoFar(s.tasks[0]) && LedAllSoFar(s.tasks[1])
  {
    assert BeforeQuery(s.tasks[0]) && BeforeQuery(s.tasks[1]);
    assert AllBeforeQuery(s);
  }

  lemma AwaitsInPrefix(s: State, t: nat, u: nat)
    requires AwaitsHeld(s, t, u) && LedAllSoFar(s.tasks[t]) && LedAllSoFar(s.tasks[u])
    ensures s.tasks[t].next < |s.tasks[t].keys|
    ensures s.tasks[t].keys[s.tasks[t].next] in s.tasks[u].keys[..s.tasks[u].next]
  {
    HeldIsPrefix(s.tasks[u]);
  }

  lemma HeldIsPrefix(b: Task)
    requires LedAllSoFar(b)
    ensures forall p | p in b.held :: p.key in b.keys[..b.next]
    ensures forall k | k in b.keys[..b.next] :: exists p :: p in b.held && p.key == k
  {
    forall p | p in b.held ensures p.key in b.keys[..b.next] {
      var i :| 0 <= i < |b.held| && b.held[i] == p;
      assert b.keys[..b.next][i] == p.key;
    }
    forall k | k in b.keys[..b.next] ensures exists p :: p in b.held && p.key == k {
      var i :| 0 <= i < b.next && b.keys[..b.next][i] == k;
      assert b.held[i] in b.held;
    }
  }

  lemma HolderIsLeader(s: State, t: nat, k: Key)
    requires Owned(s) && s.finished == {} && t in s.tasks && exists p :: p in Permits(s.tasks[t]) && p.key == k
    ensures k in s.inflight && s.inflight[k].leader == t
  {
    var p :| p in Permits(s.tasks[t]) && p.key == k;
    assert TaskOk(s, t, s.tasks[t]) && PermitOk(s, t, p);
  }

  lemma HeldIsDisjoint(s: State)
    requires Owned(s) && s.finished == {} && s.tasks.Keys == {0, 1}
    requires LedAllSoFar(s.tasks[0]) && LedAllSoFar(s.tasks[1])
    ensures forall k | k in s.tasks[0].keys[..s.tasks[0].next] :: k !in s.tasks[1].keys[..s.tasks[1].next]
  {
    HeldIsPrefix(s.tasks[0]);
    HeldIsPrefix(s.tasks[1]);
    forall k | k in s.tasks[0].keys[..s.tasks[0].next] ensures k in s.inflight && s.inflight[k].leader == 0 {
      HolderIsLeader(s, 0, k);
    }
    forall k | k in s.tasks[1].keys[..s.tasks[1].next] ensures k in s.inflight && s.inflight[k].leader == 1 {
      HolderIsLeader(s, 1, k);
    }
  }

  /** With no other task, two batches can wait for each other for ever exactly when each comes to a key the other
      has led before they share any: the first i keys of one and the first j of the other are disjoint, and each's
      next key is among the other's. */
  lemma PairAloneDeadlocksIffItCrosses(a: seq<Key>, b: seq<Key>)
    requires Distinct(a) && Distinct(b)
    ensures (exists schedule :: Stuck(Run(Start(Both(a, b)), schedule))) <==> exists i, j :: Crosses(a, b, i, j)
  {
    if i, j :| Crosses(a, b, i, j) { CrossingDeadlocks(a, b, i, j); }
    forall schedule | Stuck(Run(Start(Both(a, b)), schedule)) ensures exists i, j :: Crosses(a, b, i, j) {
      StuckRunCrosses(a, b, schedule);
    }
  }

  lemma PairWaitsBothWays(s: State, t: nat, u: nat, v: nat)
    requires s.tasks.Keys == {0, 1} && t in s.tasks && u in s.tasks && v in s.tasks && t != u && u != v
    requires AwaitsHeld(s, t, u) && AwaitsHeld(s, u, v)
    ensures AwaitsHeld(s, 0, 1) && AwaitsHeld(s, 1, 0)
  {
    assert t == 0 || t == 1;
  }

  lemma StuckRunCrosses(a: seq<Key>, b: seq<Key>, schedule: seq<(nat, Cached)>)
    requires Distinct(a) && Distinct(b) && Stuck(Run(Start(Both(a, b)), schedule))
    ensures exists i, j :: Crosses(a, b, i, j)
  {
    var s := Run(Start(Both(a, b)), schedule);
    EveryRunIsOwned(Both(a, b), schedule);
    KeysNeverChange(Both(a, b), schedule);
    BatchesFinishNothingBeforeQuery(Both(a, b), schedule);
    assert IsPair(s) && s.tasks[0].keys == a && s.tasks[1].keys == b;
    var t, u, v := StuckBatchesWait(s);
    PairWaitsBothWays(s, t, u, v);
    StuckPairCrosses(s);
    assert Crosses(a, b, s.tasks[0].next, s.tasks[1].next);
  }

  /** Two keys in opposite orders cross. */
  lemma OppositeOrdersDeadlock(k: Key, l: Key)
    requires k != l
    ensures exists schedule :: Stuck(Run(Start(Both([k, l], [l, k])), schedule))
  {
    assert [k, l][..1] == [k] && [l, k][..1] == [l];
    assert Crosses([k, l], [l, k], 1, 1);
    PairAloneDeadlocksIffItCrosses([k, l], [l, k]);
  }
}
