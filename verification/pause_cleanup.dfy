/**
  Call order, failure reports, and convergence of cleanup: how many retries it takes to give every
  suspension back.
 */
module PauseCleanup {
  import opened PauseModel
  import opened PauseRuns

  // ----- call order and failed ids ----------------------------------------------------------

  /** Rolling back from position `k` visits exactly k-1, ..., 0. */
  lemma {:induction false} DescendingBelowAll(owned: set<nat>, k: nat)
    requires forall i: nat :: i < k ==> i in owned
    ensures var s := Descending(owned, k); |s| == k && forall j :: 0 <= j < k ==> s[j] == k - 1 - j
  {
    if k != 0 { DescendingBelowAll(owned, k - 1); }
  }

  ghost predicate IsLeast(i: nat, s: set<nat>) { i in s && forall j :: j in s ==> i <= j }

  ghost predicate IsGreatest(i: nat, s: set<nat>) { i in s && forall j :: j in s ==> j <= i }

  /**
    An accepted begin suspends in ascending order up to the first failure at position k. A failure
    causes exactly k resume attempts, in descending order; what stays owned is exactly what could
    not be resumed, and the smallest of it is reported.
   */
  lemma BeginOutcome(o: Oracle, w: World, p: Pause, generation: nat, now: nat, duration: nat, ids: seq<ThreadId>)
    requires Settled(p) && !p.active && BeginArguments(generation, now, duration) && ValidThreads(ids)
    ensures var r := Begin(o, w, p, generation, now, duration, ids);
            var k := SuspendFrom(o, w, ids, 0).1;
            && (r.status == Ok || r.status == SuspendFailed || r.status == RollbackFailed)
            && (r.status == Ok <==> k == |ids|)
            && (r.status == Ok ==>
                  && r.world.calls == w.calls + SuspendCalls(ids, 0, |ids|)
                  && r.pause == Pause(generation, now, now + duration, Below(|ids|), ids, 0, true))
            && (r.status != Ok ==>
                  var rollback := Descending(Below(k), k);
                  && |rollback| == k && InRange(rollback, |ids|)
                  && (forall j :: 0 <= j < k ==> rollback[j] == k - 1 - j)
                  && r.world.calls == w.calls + SuspendCalls(ids, 0, k) + ResumeCalls(ids, rollback, r.pause.owned)
                  && (r.status == SuspendFailed <==> r.pause == CLEARED)
                  && (r.status == RollbackFailed <==> r.pause.owned != {}))
            && (r.status == RollbackFailed ==>
                  && r.pause == Pause(generation, now, now + duration, r.pause.owned, ids, r.pause.failed, true)
                  && r.pause.owned <= Below(k)
                  && forall i: nat :: IsLeast(i, r.pause.owned) ==> i < k && r.pause.failed == ids[i])
  {
    var (w', k) := SuspendFrom(o, w, ids, 0);
    ValidThreadsDistinct(ids);
    SuspendEffect(o, w, ids, 0, 0);
    if k < |ids| {
      DescendingBelowAll(Below(k), k);
      SweepCalls(o, w', ids, Below(k), k, ids[k], false);
      RollbackFailedId(o, w', ids, Below(k), k, ids[k]);
    }
  }

  // ----- when a begin succeeds, and when its rollback does, on the callbacks alone ----------

  /** Successful suspends of the first `n` threads, in order. */
  function Suspended(ids: seq<ThreadId>, n: nat): (r: seq<Call>)
    requires n <= |ids|
    ensures |r| == n
  {
    seq(n, i requires 0 <= i < n => Call(Suspend, ids[i], true))
  }

  /** Successful resumes of the threads at positions n-1, ..., j+1, in that order. */
  function Resumed(ids: seq<ThreadId>, n: nat, j: nat): (r: seq<Call>)
    requires j < n <= |ids|
    ensures |r| == n - 1 - j
  {
    seq(n - 1 - j, i requires 0 <= i < n - 1 - j => Call(Resume, ids[n - 1 - i], true))
  }

  /** The suspends succeed one after the other up to position `k`. */
  predicate AllSuspend(o: Oracle, past: seq<Call>, ids: seq<ThreadId>, k: nat)
    requires k <= |ids|
  {
    forall i :: 0 <= i < k ==> o(past + Suspended(ids, i), Suspend, ids[i])
  }

  /** The suspend at position `k` is the first one to fail. */
  predicate FailsFirstAt(o: Oracle, past: seq<Call>, ids: seq<ThreadId>, k: nat) {
    k < |ids| && AllSuspend(o, past, ids, k) && !o(past + Suspended(ids, k), Suspend, ids[k])
  }

  /** The resumes succeed one after the other from position n-1 down to 0. */
  predicate AllResume(o: Oracle, past: seq<Call>, ids: seq<ThreadId>, n: nat)
    requires n <= |ids|
  {
    forall j :: 0 <= j < n ==> o(past + Resumed(ids, n, j), Resume, ids[j])
  }

  lemma SuspendedNext(past: seq<Call>, ids: seq<ThreadId>, n: nat)
    requires n < |ids|
    ensures past + Suspended(ids, n) + [Call(Suspend, ids[n], true)] == past + Suspended(ids, n + 1)
  {
  }

  lemma ResumedNext(past: seq<Call>, ids: seq<ThreadId>, n: nat, j: nat)
    requires j < n < |ids|
    ensures past + Resumed(ids, n + 1, j) == past + [Call(Resume, ids[n], true)] + Resumed(ids, n, j)
  {
  }

  /** A suspend loop that has succeeded up to position `i` ends where the first failure is. */
  lemma {:induction false} SuspendReaches(o: Oracle, w: World, past: seq<Call>, ids: seq<ThreadId>, i: nat)
    requires i <= |ids| && w.calls == past + Suspended(ids, i) && AllSuspend(o, past, ids, i)
    ensures var k := SuspendFrom(o, w, ids, i).1;
            k <= |ids| && AllSuspend(o, past, ids, k) && (k < |ids| ==> FailsFirstAt(o, past, ids, k))
    decreases |ids| - i
  {
    if i < |ids| && o(w.calls, Suspend, ids[i]) {
      SuspendedNext(past, ids, i);
      SuspendReaches(o, Invoke(o, w, Suspend, ids[i]), past, ids, i + 1);
    }
  }

  lemma FirstFailureIsUnique(o: Oracle, past: seq<Call>, ids: seq<ThreadId>, k: nat, j: nat)
    requires FailsFirstAt(o, past, ids, k) && j <= |ids| && AllSuspend(o, past, ids, j)
    requires j < |ids| ==> FailsFirstAt(o, past, ids, j)
    ensures j == k
  {
  }

  /** One resume: it must succeed, and so must those after it. */
  lemma AllResumeNext(o: Oracle, past: seq<Call>, ids: seq<ThreadId>, n: nat)
    requires n < |ids|
    ensures AllResume(o, past, ids, n + 1) <==>
            o(past, Resume, ids[n]) && AllResume(o, past + [Call(Resume, ids[n], true)], ids, n)
  {
    assert past + Resumed(ids, n + 1, n) == past;
    forall j | 0 <= j < n
      ensures past + Resumed(ids, n + 1, j) == past + [Call(Resume, ids[n], true)] + Resumed(ids, n, j)
    {
      ResumedNext(past, ids, n, j);
    }
  }

  /** A rollback releases everything exactly when the callbacks let it resume every thread in turn. */
  lemma {:induction false} RollbackReleases(o: Oracle, w: World, ids: seq<ThreadId>, n: nat, failed: ThreadId)
    requires n <= |ids|
    ensures ResumeBelow(o, w, ids, Below(n), n, failed, false).owned == {} <==> AllResume(o, w.calls, ids, n)
    decreases n
  {
    if n != 0 {
      var t := ids[n - 1];
      var w' := Invoke(o, w, Resume, t);
      AllResumeNext(o, w.calls, ids, n - 1);
      if o(w.calls, Resume, t) {
        assert Below(n) - {n - 1} == Below(n - 1);
        RollbackReleases(o, w', ids, n - 1, failed);
      } else {
        SweepOwned(o, w', ids, Below(n), n - 1, t, false);
        assert n - 1 in ResumeBelow(o, w, ids, Below(n), n, failed, false).owned;
      }
    }
  }

  /** An accepted begin succeeds exactly when the callbacks let it suspend every thread in turn. */
  lemma BeginSucceedsExactly(o: Oracle, w: World, p: Pause, generation: nat, now: nat, duration: nat,
                            ids: seq<ThreadId>)
    requires Settled(p) && !p.active && BeginArguments(generation, now, duration) && ValidThreads(ids)
    ensures var status := Begin(o, w, p, generation, now, duration, ids).status;
            && (status == Ok <==> AllSuspend(o, w.calls, ids, |ids|))
            && (status != Ok <==> exists k :: FailsFirstAt(o, w.calls, ids, k))
  {
    BeginOutcome(o, w, p, generation, now, duration, ids);
    assert w.calls + Suspended(ids, 0) == w.calls;
    SuspendReaches(o, w, w.calls, ids, 0);
    var k := SuspendFrom(o, w, ids, 0).1;
    assert k < |ids| ==> FailsFirstAt(o, w.calls, ids, k);
  }

  /**
    A begin whose suspend at position k is the first to fail gives back everything it suspended
    exactly when the callbacks let it resume the positions k-1, ..., 0 in turn.
   */
  lemma RollbackExactly(o: Oracle, w: World, p: Pause, generation: nat, now: nat, duration: nat,
                        ids: seq<ThreadId>, k: nat)
    requires Settled(p) && !p.active && BeginArguments(generation, now, duration) && ValidThreads(ids)
    requires FailsFirstAt(o, w.calls, ids, k)
    ensures var r := Begin(o, w, p, generation, now, duration, ids);
            var failing := w.calls + Suspended(ids, k) + [Call(Suspend, ids[k], false)];
            && r.pause.owned <= Below(k) && failing <= r.world.calls && |r.world.calls| == |failing| + k
            && (r.pause.owned == {} <==> AllResume(o, failing, ids, k))
            && r.status == (if AllResume(o, failing, ids, k) then SuspendFailed else RollbackFailed)
  {
    BeginOutcome(o, w, p, generation, now, duration, ids);
    assert w.calls + Suspended(ids, 0) == w.calls;
    SuspendReaches(o, w, w.calls, ids, 0);
    var (w', stop) := SuspendFrom(o, w, ids, 0);
    FirstFailureIsUnique(o, w.calls, ids, k, stop);
    SuspendEffect(o, w, ids, 0, 0);
    FailedSuspendCalls(w.calls, ids, 0, k);
    RollbackReleases(o, w', ids, k, ids[k]);
    SweepOwned(o, w', ids, Below(k), k, ids[k], false);
  }

  lemma {:induction false} FailedSuspendCalls(past: seq<Call>, ids: seq<ThreadId>, i: nat, k: nat)
    requires i <= k < |ids|
    ensures past + Suspended(ids, i) + SuspendCalls(ids, i, k)
         == past + Suspended(ids, k) + [Call(Suspend, ids[k], false)]
    decreases k - i
  {
    if i < k {
      SuspendedNext(past, ids, i);
      FailedSuspendCalls(past, ids, i + 1, k);
    }
  }

  /** Suspending thread 1 succeeds; every other callback fails. */
  function OnlyFirstSuspends(): Oracle {
    (calls: seq<Call>, action: Action, t: ThreadId) => action.Suspend? && t == 1
  }

  /** A rollback can leave a suspension behind: suspending thread 2 fails, and so does resuming thread 1. */
  lemma RollbackCanFail()
    ensures Settled(CLEARED) && BeginArguments(1, 0, 1) && ValidThreads([1, 2])
    ensures var r := Begin(OnlyFirstSuspends(), World(map[], []), CLEARED, 1, 0, 1, [1, 2]);
            r.status == RollbackFailed && r.pause.owned == {0}
  {
    var o := OnlyFirstSuspends();
    var ids: seq<ThreadId> := [1, 2];
    var w := World(map[], []);
    var w1 := Invoke(o, w, Suspend, 1);
    var w2 := Invoke(o, w1, Suspend, 2);
    assert SuspendFrom(o, w, ids, 0) == SuspendFrom(o, w1, ids, 1) == (w2, 1);
    assert Below(1) == {0};
    assert ResumeBelow(o, w2, ids, Below(1), 1, 2, false).owned == Below(1);
  }

  /**
    A cleanup with the right generation calls resume once per owned position, in descending order;
    what stays owned is exactly what could not be resumed, and the largest of it is reported.
   */
  lemma EndOutcome(o: Oracle, w: World, p: Pause)
    requires Settled(p) && p.active
    ensures var r := End(o, w, p, p.generation);
            var order := Descending(p.owned, |p.threads|);
            && (forall i :: i in order <==> i in p.owned)
            && (forall a, b :: 0 <= a < b < |order| ==> order[a] > order[b])
            && InRange(order, |p.threads|)
            && r.world.calls == w.calls + ResumeCalls(p.threads, order, r.pause.owned)
            && r.pause.owned <= p.owned
            && (r.status == Ok || r.status == ResumeFailed)
            && (r.status == Ok <==> r.pause == CLEARED) && (r.status == Ok <==> r.pause.owned == {})
            && (r.status == ResumeFailed ==>
                  && r.pause == p.(owned := r.pause.owned, failed := r.pause.failed)
                  && forall i: nat :: IsGreatest(i, r.pause.owned) ==>
                      i < |p.threads| && r.pause.failed == p.threads[i])
  {
    var n := |p.threads|;
    DescendingIsTheSet(p.owned, n);
    SweepCalls(o, w, p.threads, p.owned, n, 0, true);
    CleanupFailedId(o, w, p.threads, p.owned, n);
  }

  /** Only a cleanup call with the transaction's own generation acts on an active transaction. */
  lemma GenerationBinding(o: Oracle, w: World, p: Pause, c: Command)
    requires Settled(p) && p.active
    ensures var r := Perform(o, w, p, c);
            (r.pause != p || r.world != w) ==> !c.BeginCommand? && c.generation == p.generation
  {
  }

  /**
    An active transaction survives exactly the ticks from its start to its deadline: those do nothing,
    and any other tick, a clock that ran backwards included, tries to resume whatever is still owned.
   */
  lemma DeadlineEnforced(o: Oracle, w: World, p: Pause, t: nat)
    requires Settled(p) && p.active
    ensures var r := Tick(o, w, p, p.generation, t);
            var order := Descending(p.owned, |p.threads|);
            && (r.status == Ok <==> p.started <= t < p.deadline)
            && (r.status == Ok ==> r.pause == p && r.world == w)
            && (r.status != Ok ==>
                  && (r.status == Expired || r.status == ResumeFailed) && InRange(order, |p.threads|)
                  && r.world.calls == w.calls + ResumeCalls(p.threads, order, r.pause.owned)
                  && (r.status == Expired <==> r.pause == CLEARED))
  {
    EndOutcome(o, w, p);
  }

  /** Between its begin and its end a transaction keeps its generation, threads and window; only ownership shrinks. */
  lemma WindowIsFixed(o: Oracle, w: World, p: Pause, c: Command)
    requires Settled(p) && p.active
    ensures var q := Perform(o, w, p, c).pause;
            q == CLEARED || (q == p.(owned := q.owned, failed := q.failed) && q.owned <= p.owned)
  {
    if !c.BeginCommand? && c.generation == p.generation {
      EndOutcome(o, w, p);
    }
  }

  // ----- convergence ------------------------------------------------------------------------

  function Attempts(calls: seq<Call>, t: ThreadId): nat {
    if calls == [] then 0
    else
      var c := calls[|calls| - 1];
      Attempts(calls[..|calls| - 1], t) + (if c.action.Resume? && c.thread == t then 1 else 0)
  }

  lemma AttemptsAppend(calls: seq<Call>, c: Call, t: ThreadId)
    ensures Attempts(calls + [c], t) == Attempts(calls, t) + (if c.action.Resume? && c.thread == t then 1 else 0)
  {
    assert (calls + [c])[..|calls|] == calls;
  }

  /** From now on, resuming `t` fails exactly `k(t)` more times. */
  ghost predicate Stubborn(o: Oracle, past: seq<Call>, k: ThreadId -> nat) {
    forall calls: seq<Call>, t: ThreadId :: past <= calls ==>
      (o(calls, Resume, t) <==> Attempts(calls, t) >= Attempts(past, t) + k(t))
  }

  /** Stubborn adversaries exist, for every number of failures per thread. */
  lemma StubbornExists(past: seq<Call>, k: ThreadId -> nat) returns (o: Oracle)
    ensures Stubborn(o, past, k)
  {
    o := (calls, action, t) => Attempts(calls, t) >= Attempts(past, t) + k(t);
  }

  /** A sweep attempts each owned thread once and no other. */
  lemma {:induction false} SweepAttempts(o: Oracle, w: World, ids: seq<ThreadId>, owned: set<nat>, n: nat,
                                         failed: ThreadId, j: nat)
    requires n <= |ids| && Distinct(ids) && j < |ids|
    ensures var r := ResumeBelow(o, w, ids, owned, n, failed, true);
            Attempts(r.world.calls, ids[j]) == Attempts(w.calls, ids[j]) + (if j in owned && j < n then 1 else 0)
    decreases n
  {
    if n != 0 {
      var t := ids[n - 1];
      var ok := o(w.calls, Resume, t);
      var w' := Invoke(o, w, Resume, t);
      AttemptsAppend(w.calls, Call(Resume, t, ok), ids[j]);
      if n - 1 !in owned {
        SweepAttempts(o, w, ids, owned, n - 1, failed, j);
      } else if ok {
        SweepAttempts(o, w', ids, owned - {n - 1}, n - 1, failed, j);
      } else {
        SweepAttempts(o, w', ids, owned, n - 1, if failed != 0 then failed else t, j);
      }
    }
  }

  /** All owned threads below `n` have had `m` attempts since `past`. */
  ghost predicate Level(past: seq<Call>, calls: seq<Call>, ids: seq<ThreadId>, owned: set<nat>, n: nat, m: nat)
    requires forall i :: i in owned ==> i < |ids|
  {
    past <= calls && forall i :: i in owned && i < n ==> Attempts(calls, ids[i]) == Attempts(past, ids[i]) + m
  }

  lemma LevelAfterCall(past: seq<Call>, calls: seq<Call>, ids: seq<ThreadId>, owned: set<nat>, n: nat, m: nat, c: Call)
    requires 0 < n <= |ids| && Distinct(ids) && (forall i :: i in owned ==> i < |ids|)
    requires Level(past, calls, ids, owned, n, m) && c.thread == ids[n - 1]
    ensures Level(past, calls + [c], ids, owned, n - 1, m)
  {
    forall i | i in owned && i < n - 1
      ensures Attempts(calls + [c], ids[i]) == Attempts(past, ids[i]) + m
    {
      AttemptsAppend(calls, c, ids[i]);
    }
  }

  /** Under a stubborn adversary a sweep releases exactly the threads whose failures are used up. */
  lemma {:induction false} StubbornSweep(o: Oracle, past: seq<Call>, k: ThreadId -> nat, w: World, ids: seq<ThreadId>,
                                         owned: set<nat>, n: nat, failed: ThreadId, m: nat)
    requires n <= |ids| && Distinct(ids) && (forall i :: i in owned ==> i < |ids|)
    requires Stubborn(o, past, k) && Level(past, w.calls, ids, owned, n, m)
    ensures var r := ResumeBelow(o, w, ids, owned, n, failed, true);
            forall i :: i in r.owned <==> i in owned && (i < n ==> k(ids[i]) > m)
    decreases n
  {
    if n == 0 {
    } else if n - 1 !in owned {
      StubbornSweep(o, past, k, w, ids, owned, n - 1, failed, m);
    } else {
      var t := ids[n - 1];
      var ok := o(w.calls, Resume, t);
      var w' := Invoke(o, w, Resume, t);
      LevelAfterCall(past, w.calls, ids, owned, n, m, Call(Resume, t, ok));
      assert ok <==> m >= k(t);
      if ok {
        StubbornSweep(o, past, k, w', ids, owned - {n - 1}, n - 1, failed, m);
      } else {
        StubbornSweep(o, past, k, w', ids, owned, n - 1, if failed != 0 then failed else t, m);
      }
    }
  }

  /** A call that tries to clean up: an end, or a tick outside the window. */
  predicate IsCleanup(p: Pause, c: Command) {
    || (c.EndCommand? && c.generation == p.generation)
    || (c.TickCommand? && c.generation == p.generation && !InWindow(p, c.now))
  }

  /** A successful abandon: the one call besides cleanup that acts on an active transaction. */
  predicate GivesUp(p: Pause, c: Command) { c.AbandonCommand? && c.generation == p.generation }

  /** What any other call replies while the transaction is active, without effect. */
  function Refusal(p: Pause, c: Command): Status {
    if c.BeginCommand? then
      if BeginArguments(c.generation, c.now, c.duration) then AlreadyActive else InvalidArgument
    else if c.generation == 0 then InvalidArgument
    else if c.generation != p.generation then StaleTarget
    else Ok
  }

  lemma IdleCall(o: Oracle, w: World, p: Pause, c: Command)
    requires Settled(p) && p.active && !IsCleanup(p, c) && !GivesUp(p, c)
    ensures Perform(o, w, p, c) == Result(p, w, Refusal(p, c))
  {
  }

  /** How many of the calls are cleanup calls. */
  function Cleanups(p: Pause, commands: seq<Command>): nat
    decreases |commands|
  {
    if commands == [] then 0
    else (if IsCleanup(p, commands[0]) then 1 else 0) + Cleanups(p, commands[1..])
  }

  /** Success is reported as OK by an end and as EXPIRED by a tick. */
  function Finished(c: Command): Status { if c.TickCommand? then Expired else Ok }

  /** The statuses returned by a sequence of calls, and the state after them. */
  function Replies(o: Oracle, w: World, p: Pause, commands: seq<Command>): (seq<Status>, Pause, World)
    decreases |commands|
  {
    if commands == [] then ([], p, w)
    else
      var r := Perform(o, w, p, commands[0]);
      var (rest, p', w') := Replies(o, r.world, r.pause, commands[1..]);
      ([r.status] + rest, p', w')
  }

  /** A cleanup call is an end up to the status of success. */
  lemma CleanupIsEnd(o: Oracle, w: World, p: Pause, c: Command)
    requires Settled(p) && p.active && IsCleanup(p, c)
    ensures var r, e := Perform(o, w, p, c), End(o, w, p, p.generation);
            r == e.(status := if e.status == Ok then Finished(c) else e.status)
  {
  }

  /** One round of cleanup after `m` earlier ones. */
  lemma CleanupRound(o: Oracle, past: seq<Call>, k: ThreadId -> nat, w: World, p: Pause, c: Command, m: nat)
    requires Settled(p) && p.active && IsCleanup(p, c)
    requires Stubborn(o, past, k) && Level(past, w.calls, p.threads, p.owned, |p.threads|, m)
    ensures var r := Perform(o, w, p, c);
            && (forall i :: i in r.pause.owned <==> i in p.owned && k(p.threads[i]) > m)
            && (r.pause.owned == {} ==> r.pause == CLEARED && r.status == Finished(c))
            && (r.pause.owned != {} ==>
                  && r.status == ResumeFailed
                  && r.pause == p.(owned := r.pause.owned, failed := r.pause.failed)
                  && Level(past, r.world.calls, p.threads, r.pause.owned, |p.threads|, m + 1))
  {
    var r := Perform(o, w, p, c);
    CleanupIsEnd(o, w, p, c);
    EndOutcome(o, w, p);
    ValidThreadsDistinct(p.threads);
    StubbornSweep(o, past, k, w, p.threads, p.owned, |p.threads|, 0, m);
    if r.pause.owned != {} {
      forall i | i in r.pause.owned
        ensures Attempts(r.world.calls, p.threads[i]) == Attempts(past, p.threads[i]) + m + 1
      {
        SweepAttempts(o, w, p.threads, p.owned, |p.threads|, 0, i);
      }
    }
  }

  /** `most` is the largest number of failures any owned thread has left. */
  ghost predicate IsMost(p: Pause, k: ThreadId -> nat, most: nat) {
    && (forall i :: i in p.owned && i < |p.threads| ==> k(p.threads[i]) <= most)
    && (exists i :: i in p.owned && i < |p.threads| && k(p.threads[i]) == most)
  }

  /** As long as some thread has failures left, a round fails and keeps the transaction's identity. */
  lemma RoundFails(o: Oracle, past: seq<Call>, k: ThreadId -> nat, w: World, p: Pause, c: Command, m: nat, most: nat)
    requires Settled(p) && p.active && IsCleanup(p, c) && IsMost(p, k, most) && m < most
    requires Stubborn(o, past, k) && Level(past, w.calls, p.threads, p.owned, |p.threads|, m)
    ensures var r := Perform(o, w, p, c);
            && r.status == ResumeFailed && Settled(r.pause) && r.pause.active && IsMost(r.pause, k, most)
            && r.pause.owned <= p.owned
            && r.pause == p.(owned := r.pause.owned, failed := r.pause.failed)
            && Level(past, r.world.calls, r.pause.threads, r.pause.owned, |r.pause.threads|, m + 1)
  {
    CleanupRound(o, past, k, w, p, c, m);
    var worst :| worst in p.owned && worst < |p.threads| && k(p.threads[worst]) == most;
    assert worst in Perform(o, w, p, c).pause.owned;
  }

  /** The reply to one of a list of calls: cleanup calls fail, except for the last one if that completes. */
  function ReplyTo(p: Pause, c: Command, completes: bool): Status {
    if !IsCleanup(p, c) then Refusal(p, c) else if completes then Finished(c) else ResumeFailed
  }

  ghost predicate RepliesAre(statuses: seq<Status>, p: Pause, commands: seq<Command>, done: bool) {
    && |statuses| == |commands|
    && forall i :: 0 <= i < |commands| ==> statuses[i] == ReplyTo(p, commands[i], done && i == |commands| - 1)
  }

  /** The same transaction, perhaps owning less. */
  predicate SameTransaction(p: Pause, q: Pause) {
    q == p.(owned := q.owned, failed := q.failed) && q.owned <= p.owned
  }

  lemma RepliesCons(statuses: seq<Status>, p: Pause, q: Pause, commands: seq<Command>, done: bool, first: Status)
    requires SameTransaction(p, q) && commands != [] && (done ==> |commands| > 1)
    requires RepliesAre(statuses, q, commands[1..], done) && first == ReplyTo(p, commands[0], false)
    ensures RepliesAre([first] + statuses, p, commands, done)
  {
    forall i | 0 < i < |commands|
      ensures ([first] + statuses)[i] == ReplyTo(p, commands[i], done && i == |commands| - 1)
    {
      assert commands[i] == commands[1..][i - 1];
    }
  }

  lemma OneReply(o: Oracle, w: World, p: Pause, c: Command)
    ensures var r := Perform(o, w, p, c); Replies(o, w, p, [c]) == ([r.status], r.pause, r.world)
  {
    hide Perform;
    var r := Perform(o, w, p, c);
    assert Replies(o, r.world, r.pause, []) == ([], r.pause, r.world);
    assert [c][1..] == [] && [r.status] + [] == [r.status];
  }

  lemma RepliesEnd(p: Pause, c: Command)
    ensures RepliesAre([], p, [], false)
    ensures RepliesAre([ReplyTo(p, c, true)], p, [c], true)
  {
  }

  lemma {:induction false} SameCleanups(p: Pause, q: Pause, commands: seq<Command>)
    requires SameTransaction(p, q)
    ensures Cleanups(q, commands) == Cleanups(p, commands)
    decreases |commands|
  {
    if commands != [] { SameCleanups(p, q, commands[1..]); }
  }

  lemma {:induction false} LastIsCounted(p: Pause, commands: seq<Command>)
    requires commands != [] && IsCleanup(p, commands[|commands| - 1])
    ensures Cleanups(p, commands) > 0
    decreases |commands|
  {
    if |commands| > 1 { LastIsCounted(p, commands[1..]); }
  }

  /** The calls do not give up the transaction, and stop at the `left`-th cleanup call at the latest. */
  ghost predicate Persistent(p: Pause, commands: seq<Command>, left: nat) {
    && (forall i :: 0 <= i < |commands| ==> !GivesUp(p, commands[i]))
    && (Cleanups(p, commands) < left ||
        (Cleanups(p, commands) == left && commands != [] && IsCleanup(p, commands[|commands| - 1])))
  }

  lemma PersistentRest(p: Pause, q: Pause, commands: seq<Command>, left: nat)
    requires Persistent(p, commands, left) && commands != [] && SameTransaction(p, q)
    ensures var n := if IsCleanup(p, commands[0]) then 1 else 0;
            n < left ==> Persistent(q, commands[1..], left - n)
  {
    var rest := commands[1..];
    SameCleanups(p, q, rest);
    assert forall i :: 0 <= i < |rest| ==> rest[i] == commands[i + 1];
  }

  /** After `m` rounds of cleanup, as many calls as leave at most one more than the failures left. */
  lemma {:induction false} CleanupConverges(o: Oracle, past: seq<Call>, k: ThreadId -> nat, w: World, p: Pause,
                                            commands: seq<Command>, m: nat, most: nat)
    requires Settled(p) && p.active && IsMost(p, k, most)
    requires Stubborn(o, past, k) && Level(past, w.calls, p.threads, p.owned, |p.threads|, m)
    requires m <= most && Persistent(p, commands, most - m + 1)
    ensures var (statuses, p', w') := Replies(o, w, p, commands);
            var done := Cleanups(p, commands) == most - m + 1;
            && RepliesAre(statuses, p, commands, done)
            && (if done then p' == CLEARED else p'.active && SameTransaction(p, p'))
    decreases |commands|
  {
    hide Perform, Stubborn, Level, RepliesAre, Refusal, IsCleanup, GivesUp;
    if commands == [] {
      RepliesEnd(p, EndCommand(0));
    } else {
      var c, rest := commands[0], commands[1..];
      var r := Perform(o, w, p, c);
      RepliesEnd(p, c);
      if !IsCleanup(p, c) {
        IdleCall(o, w, p, c);
        PersistentRest(p, p, commands, most - m + 1);
        CleanupConverges(o, past, k, w, p, rest, m, most);
        RepliesCons(Replies(o, w, p, rest).0, p, p, commands, Cleanups(p, commands) == most - m + 1, r.status);
      } else if m < most {
        RoundFails(o, past, k, w, p, c, m, most);
        PersistentRest(p, r.pause, commands, most - m + 1);
        SameCleanups(p, r.pause, rest);
        CleanupConverges(o, past, k, r.world, r.pause, rest, m + 1, most);
        RepliesCons(Replies(o, r.world, r.pause, rest).0, p, r.pause, commands,
                    Cleanups(p, commands) == most - m + 1, r.status);
      } else {
        CleanupRound(o, past, k, w, p, c, m);
        assert r.pause.owned == {};
        if rest != [] { LastIsCounted(p, rest); }
        assert commands == [c];
        OneReply(o, w, p, c);
      }
    }
  }

  /** Counts after calls without a successful abandon: each released thread gave one back. */
  lemma {:induction false} RepliesConserve(o: Oracle, w: World, p: Pause, commands: seq<Command>, t: ThreadId)
    requires Settled(p)
    requires var statuses := Replies(o, w, p, commands).0;
             forall i :: 0 <= i < |commands| ==>
               |statuses| == |commands| && !(commands[i].AbandonCommand? && statuses[i] == Ok)
    ensures var (_, p', w') := Replies(o, w, p, commands);
            && Settled(p')
            && CountOf(w', t) - (if t in OwnedIds(p') then 1 else 0) ==
               CountOf(w, t) - (if t in OwnedIds(p) then 1 else 0)
    decreases |commands|
  {
    if commands != [] {
      var r := Perform(o, w, p, commands[0]);
      PerformConserves(o, w, p, commands[0]);
      var rest := commands[1..];
      var statuses, later := Replies(o, w, p, commands).0, Replies(o, r.world, r.pause, rest).0;
      forall i | 0 <= i < |rest|
        ensures |later| == |rest| && !(rest[i].AbandonCommand? && later[i] == Ok)
      {
        assert rest[i] == commands[i + 1] && later[i] == statuses[i + 1];
      }
      RepliesConserve(o, r.world, r.pause, rest, t);
    }
  }

  /**
    Convergence: let each owned thread t fail k(t) more resumes, and let the calls be any without an
    abandon of this transaction, repeated begins, stale calls and ticks in the window included, up to
    at most the (1 + max k)-th cleanup call. Cleanup calls fail exactly max k times and the next one
    completes; the other calls are refused or do nothing. Each released thread has its count back.
   */
  lemma CleanupCompletes(o: Oracle, w: World, p: Pause, k: ThreadId -> nat, most: nat, commands: seq<Command>)
    requires Settled(p) && p.active && IsMost(p, k, most) && Stubborn(o, w.calls, k)
    requires Persistent(p, commands, most + 1)
    ensures var (statuses, p', w') := Replies(o, w, p, commands);
            var done := Cleanups(p, commands) == most + 1;
            && RepliesAre(statuses, p, commands, done)
            && (if done then p' == CLEARED else p'.active && SameTransaction(p, p'))
            && forall t: ThreadId ::
                 CountOf(w', t) == CountOf(w, t) - (if t in OwnedIds(p) && t !in OwnedIds(p') then 1 else 0)
  {
    CleanupConverges(o, w.calls, k, w, p, commands, 0, most);
    assert OwnedIds(CLEARED) == {};
    var (statuses, p', w') := Replies(o, w, p, commands);
    forall t: ThreadId
      ensures CountOf(w', t) == CountOf(w, t) - (if t in OwnedIds(p) && t !in OwnedIds(p') then 1 else 0)
    {
      RepliesConserve(o, w, p, commands, t);
    }
  }
}
