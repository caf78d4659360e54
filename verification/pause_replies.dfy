/**
  The reply to every call, decided by what the caller can see: its arguments, the record, the clock and
  what the callbacks let through. Together the lemmas give each status its exact condition.
 */
module PauseReplies {
  import opened PauseModel
  import opened PauseRuns
  import opened PauseCleanup

  // ----- begin ------------------------------------------------------------------------------

  /** What begin demands of its numbers: a generation, a duration of at most ten minutes, and a 64-bit deadline. */
  predicate NumbersInOrder(c: Command)
    requires c.BeginCommand?
  {
    c.generation != 0 && 0 < c.duration <= 600000 && c.now + c.duration <= 0xffff_ffff_ffff_ffff
  }

  /** What it demands of the thread list: 1 to 64 positive ids, each smaller than the next. */
  predicate ThreadsInOrder(ids: seq<ThreadId>) {
    && 1 <= |ids| <= 64
    && (forall i :: 0 <= i < |ids| ==> 0 < ids[i])
    && (forall i :: 0 < i < |ids| ==> ids[i - 1] < ids[i])
  }

  /** Ids that grow from each position to the next grow from any position to any later one. */
  lemma {:induction false} IncreasingByNeighbours(ids: seq<ThreadId>, i: nat, j: nat)
    requires i < j < |ids| && forall k :: 0 < k < |ids| ==> ids[k - 1] < ids[k]
    ensures ids[i] < ids[j]
    decreases j
  {
    assert ids[j - 1] < ids[j];
    if i < j - 1 { IncreasingByNeighbours(ids, i, j - 1); }
  }

  lemma ThreadsInOrderExactly(ids: seq<ThreadId>)
    ensures ThreadsInOrder(ids) <==> ValidThreads(ids)
  {
    if ThreadsInOrder(ids) {
      forall i, j | 0 <= i < j < |ids| ensures ids[i] < ids[j] {
        IncreasingByNeighbours(ids, i, j);
      }
    }
  }

  /** The begin gets as far as suspending threads. */
  predicate Attempted(p: Pause, c: Command)
    requires c.BeginCommand?
  {
    NumbersInOrder(c) && !p.active && ThreadsInOrder(c.ids)
  }

  /** A rollback after the failed suspend at position k resumes everything. */
  predicate GivesBack(o: Oracle, past: seq<Call>, ids: seq<ThreadId>, k: nat) {
    && FailsFirstAt(o, past, ids, k)
    && AllResume(o, past + Suspended(ids, k) + [Call(Suspend, ids[k], false)], ids, k)
  }

  /** A rollback after the failed suspend at position k leaves something behind. */
  predicate KeepsSome(o: Oracle, past: seq<Call>, ids: seq<ThreadId>, k: nat) {
    && FailsFirstAt(o, past, ids, k)
    && !AllResume(o, past + Suspended(ids, k) + [Call(Suspend, ids[k], false)], ids, k)
  }

  /** The transaction that an OK begin leaves: all threads owned, the window as asked for, no failure recorded. */
  ghost predicate OwnsAll(q: Pause, c: Command)
    requires c.BeginCommand?
  {
    && q.active && q.generation == c.generation && q.started == c.now && q.deadline == c.now + c.duration
    && q.threads == c.ids && q.failed == 0
    && forall i: nat :: i in q.owned <==> i < |c.ids|
  }

  lemma AttemptedBegin(o: Oracle, w: World, p: Pause, c: Command)
    requires Settled(p) && c.BeginCommand?
    ensures Attempted(p, c) <==> !p.active && BeginArguments(c.generation, c.now, c.duration) && ValidThreads(c.ids)
  {
    ThreadsInOrderExactly(c.ids);
  }

  /** Refusals come before anything is touched, in this order: numbers, a transaction in the way, the list. */
  lemma BeginRefusals(o: Oracle, w: World, p: Pause, c: Command)
    requires Settled(p) && c.BeginCommand?
    ensures var r := Perform(o, w, p, c);
            && (r.status == InvalidArgument <==> !NumbersInOrder(c))
            && (r.status == AlreadyActive <==> NumbersInOrder(c) && p.active)
            && (r.status == InvalidThreads <==> NumbersInOrder(c) && !p.active && !ThreadsInOrder(c.ids))
            && (!Attempted(p, c) ==> r == Result(p, w, r.status))
  {
    ThreadsInOrderExactly(c.ids);
    if Attempted(p, c) {
      BeginOutcome(o, w, p, c.generation, c.now, c.duration, c.ids);
    }
  }

  /** What an attempted begin replies is decided by the callbacks alone. */
  lemma AttemptReplies(o: Oracle, w: World, p: Pause, c: Command)
    requires Settled(p) && c.BeginCommand? && Attempted(p, c)
    ensures var status := Perform(o, w, p, c).status;
            && (status == Ok <==> AllSuspend(o, w.calls, c.ids, |c.ids|))
            && (status == SuspendFailed <==> exists k: nat :: GivesBack(o, w.calls, c.ids, k))
            && (status == RollbackFailed <==> exists k: nat :: KeepsSome(o, w.calls, c.ids, k))
            && (status == Ok || status == SuspendFailed || status == RollbackFailed)
  {
    hide AllSuspend, AllResume, FailsFirstAt;
    AttemptedBegin(o, w, p, c);
    BeginSucceedsExactly(o, w, p, c.generation, c.now, c.duration, c.ids);
    BeginOutcome(o, w, p, c.generation, c.now, c.duration, c.ids);
    forall k: nat | FailsFirstAt(o, w.calls, c.ids, k)
      ensures GivesBack(o, w.calls, c.ids, k) <==> Perform(o, w, p, c).status == SuspendFailed
      ensures KeepsSome(o, w.calls, c.ids, k) <==> Perform(o, w, p, c).status == RollbackFailed
    {
      FailurePosition(o, w.calls, c.ids, k);
      RollbackExactly(o, w, p, c.generation, c.now, c.duration, c.ids, k);
    }
  }

  lemma FailurePosition(o: Oracle, past: seq<Call>, ids: seq<ThreadId>, k: nat)
    requires FailsFirstAt(o, past, ids, k)
    ensures k < |ids|
  {
  }

  /**
    A begin returns OK exactly when its numbers and its list are in order, no transaction is active and
    the callbacks let every suspend succeed in turn; it then owns every thread of the list.
   */
  lemma BeginExactly(o: Oracle, w: World, p: Pause, c: Command)
    requires Settled(p) && c.BeginCommand?
    ensures var r := Perform(o, w, p, c);
            && (r.status == Ok <==>
                  && c.generation != 0 && 0 < c.duration <= 600000 && c.now + c.duration <= 0xffff_ffff_ffff_ffff
                  && !p.active && ThreadsInOrder(c.ids) && AllSuspend(o, w.calls, c.ids, |c.ids|))
            && (r.status == Ok ==> OwnsAll(r.pause, c))
            && r.status in {Ok, InvalidArgument, AlreadyActive, InvalidThreads, SuspendFailed, RollbackFailed}
  {
    BeginRefusals(o, w, p, c);
    if Attempted(p, c) {
      AttemptReplies(o, w, p, c);
      AttemptedBegin(o, w, p, c);
      BeginOutcome(o, w, p, c.generation, c.now, c.duration, c.ids);
    }
  }

  // ----- cleanup, by the callbacks ----------------------------------------------------------

  /** Successful resumes of the first `n` listed positions. */
  function Released(ids: seq<ThreadId>, positions: seq<nat>, n: nat): (r: seq<Call>)
    requires n <= |positions| && InRange(positions, |ids|)
    ensures |r| == n
  {
    seq(n, i requires 0 <= i < n => Call(Resume, ids[positions[i]], true))
  }

  /** The callbacks let every listed position be resumed, one after the other. */
  predicate AllRelease(o: Oracle, past: seq<Call>, ids: seq<ThreadId>, positions: seq<nat>)
    requires InRange(positions, |ids|)
  {
    forall j :: 0 <= j < |positions| ==> o(past + Released(ids, positions, j), Resume, ids[positions[j]])
  }

  lemma NoneToRelease(o: Oracle, past: seq<Call>, ids: seq<ThreadId>)
    ensures InRange([], |ids|) && AllRelease(o, past, ids, [])
  {
  }

  lemma ReleasedNext(past: seq<Call>, ids: seq<ThreadId>, i: nat, positions: seq<nat>, j: nat)
    requires i < |ids| && InRange(positions, |ids|) && j <= |positions|
    ensures InRange([i] + positions, |ids|)
    ensures past + Released(ids, [i] + positions, j + 1) ==
            past + [Call(Resume, ids[i], true)] + Released(ids, positions, j)
  {
  }

  lemma AllReleaseNext(o: Oracle, past: seq<Call>, ids: seq<ThreadId>, i: nat, positions: seq<nat>)
    requires i < |ids| && InRange(positions, |ids|)
    ensures InRange([i] + positions, |ids|)
    ensures AllRelease(o, past, ids, [i] + positions) <==>
            o(past, Resume, ids[i]) && AllRelease(o, past + [Call(Resume, ids[i], true)], ids, positions)
  {
    var all := [i] + positions;
    assert past + Released(ids, all, 0) == past;
    assert all[0] == i;
    forall j | 0 <= j < |positions|
      ensures all[j + 1] == positions[j]
      ensures past + Released(ids, all, j + 1) == past + [Call(Resume, ids[i], true)] + Released(ids, positions, j)
    {
      ReleasedNext(past, ids, i, positions, j);
    }
    if AllRelease(o, past, ids, all) {
      assert o(past + Released(ids, all, 0), Resume, ids[all[0]]);
      forall j | 0 <= j < |positions|
        ensures o(past + [Call(Resume, ids[i], true)] + Released(ids, positions, j), Resume, ids[positions[j]])
      {
        assert o(past + Released(ids, all, j + 1), Resume, ids[all[j + 1]]);
      }
    } else {
      var k :| 0 <= k < |all| && !o(past + Released(ids, all, k), Resume, ids[all[k]]);
      if k > 0 { ReleasedNext(past, ids, i, positions, k - 1); }
    }
  }

  lemma {:induction false} DescendingInRange(owned: set<nat>, n: nat, limit: nat)
    requires n <= limit
    ensures InRange(Descending(owned, n), limit)
  {
    if n != 0 { DescendingInRange(owned, n - 1, limit); }
  }

  lemma {:induction false} DescendingIgnores(owned: set<nat>, n: nat, k: nat)
    requires k >= n
    ensures Descending(owned - {k}, n) == Descending(owned, n)
  {
    if n != 0 { DescendingIgnores(owned, n - 1, k); }
  }

  ghost predicate NoneBelow(s: set<nat>, n: nat) { forall i :: i in s ==> i >= n }

  /** A cleanup releases everything below `n` exactly when the callbacks let it, position by position. */
  lemma {:induction false} SweepReleases(o: Oracle, w: World, ids: seq<ThreadId>, owned: set<nat>, n: nat,
                                         failed: ThreadId)
    requires n <= |ids|
    ensures InRange(Descending(owned, n), |ids|)
    ensures NoneBelow(ResumeBelow(o, w, ids, owned, n, failed, true).owned, n) <==>
            AllRelease(o, w.calls, ids, Descending(owned, n))
    decreases n
  {
    hide AllRelease, InRange;
    DescendingInRange(owned, n, |ids|);
    if n == 0 {
      NoneToRelease(o, w.calls, ids);
    } else if n - 1 !in owned {
      SweepReleases(o, w, ids, owned, n - 1, failed);
      SweepOwned(o, w, ids, owned, n - 1, failed, true);
    } else {
      var t := ids[n - 1];
      var w' := Invoke(o, w, Resume, t);
      DescendingInRange(owned, n - 1, |ids|);
      AllReleaseNext(o, w.calls, ids, n - 1, Descending(owned, n - 1));
      if o(w.calls, Resume, t) {
        DescendingIgnores(owned, n - 1, n - 1);
        SweepReleases(o, w', ids, owned - {n - 1}, n - 1, failed);
        SweepOwned(o, w', ids, owned - {n - 1}, n - 1, failed, true);
      } else {
        SweepOwned(o, w', ids, owned, n - 1, if failed != 0 then failed else t, true);
      }
    }
  }

  /** The positions a transaction owns, from the top down. */
  function OwnedOrder(p: Pause): seq<nat> { Descending(p.owned, |p.threads|) }

  /** A cleanup call succeeds exactly when the callbacks let it resume every owned thread in turn. */
  lemma CleanupSucceedsExactly(o: Oracle, w: World, p: Pause, c: Command)
    requires Settled(p) && p.active && IsCleanup(p, c)
    ensures InRange(OwnedOrder(p), |p.threads|)
    ensures var r := Perform(o, w, p, c);
            && (r.status == (if AllRelease(o, w.calls, p.threads, OwnedOrder(p)) then Finished(c) else ResumeFailed))
            && (r.pause.active <==> r.status == ResumeFailed)
            && (!r.pause.active ==> r.pause == CLEARED)
  {
    hide AllRelease;
    EndOutcome(o, w, p);
    CleanupIsEnd(o, w, p, c);
    SweepReleases(o, w, p.threads, p.owned, |p.threads|, 0);
    SweepOwned(o, w, p.threads, p.owned, |p.threads|, 0, true);
  }

  // ----- end, tick and abandon --------------------------------------------------------------

  /** With no transaction active, nothing but a begin does anything, and the reply says so. */
  lemma InactiveReplies(o: Oracle, w: World, p: Pause, c: Command)
    requires Settled(p) && !p.active && !c.BeginCommand?
    ensures c.generation == 0 ==> Perform(o, w, p, c) == Result(p, w, InvalidArgument)
    ensures c.generation != 0 ==> Perform(o, w, p, c) == Result(p, w, NotActive)
  {
  }

  /** A call for another process generation is refused, and touches nothing. */
  lemma StaleReplies(o: Oracle, w: World, p: Pause, c: Command)
    requires Settled(p) && p.active && !c.BeginCommand? && c.generation != p.generation
    ensures c.generation == 0 ==> Perform(o, w, p, c) == Result(p, w, InvalidArgument)
    ensures c.generation != 0 ==> Perform(o, w, p, c) == Result(p, w, StaleTarget)
  {
  }

  /** An abandon by the transaction's own generation succeeds, makes no call and leaves nothing active. */
  lemma AbandonSucceeds(o: Oracle, w: World, p: Pause, c: Command)
    requires Settled(p) && p.active && c.AbandonCommand? && c.generation == p.generation
    ensures Perform(o, w, p, c) == Result(CLEARED, w, Ok)
    ensures !CLEARED.active && CLEARED.owned == {}
  {
  }

  /**
    EXPIRED is the reply to exactly those ticks that find their own transaction active outside its
    window and resume every thread it owns; no transaction is left then.
   */
  lemma ExpiredExactly(o: Oracle, w: World, p: Pause, c: Command)
    requires Settled(p)
    ensures InRange(OwnedOrder(p), |p.threads|)
    ensures var r := Perform(o, w, p, c);
            && (r.status == Expired <==>
                  && c.TickCommand? && p.active && c.generation == p.generation
                  && !(p.started <= c.now < p.deadline)
                  && AllRelease(o, w.calls, p.threads, OwnedOrder(p)))
            && (r.status == Expired ==> p.active && r.pause == CLEARED)
  {
    hide AllRelease;
    DescendingInRange(p.owned, |p.threads|, |p.threads|);
    if c.BeginCommand? {
      BeginExactly(o, w, p, c);
    } else if !p.active {
      InactiveReplies(o, w, p, c);
    } else if c.generation != p.generation {
      StaleReplies(o, w, p, c);
    } else if IsCleanup(p, c) {
      CleanupSucceedsExactly(o, w, p, c);
    }
  }

  /** OK from an end, a tick or an abandon, exactly. */
  lemma OkExactly(o: Oracle, w: World, p: Pause, c: Command)
    requires Settled(p) && !c.BeginCommand?
    ensures InRange(OwnedOrder(p), |p.threads|)
    ensures Perform(o, w, p, c).status == Ok <==>
              && p.active && c.generation == p.generation
              && (|| c.AbandonCommand?
                  || (c.TickCommand? && p.started <= c.now < p.deadline)
                  || (c.EndCommand? && AllRelease(o, w.calls, p.threads, OwnedOrder(p))))
  {
    hide AllRelease;
    DescendingInRange(p.owned, |p.threads|, |p.threads|);
    if p.active && c.generation == p.generation && IsCleanup(p, c) {
      CleanupSucceedsExactly(o, w, p, c);
    }
  }
}
