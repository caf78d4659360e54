/**
  The pause transaction on values: what each entry point does to the transaction and to the world
  of threads behind the callbacks. Ownership is a set of positions in the thread list here; the
  class in PauseCoordinator keeps it as a 64-bit mask.
 */
module PauseModel {

  type ThreadId = int

  const MAX_THREADS: nat := 64
  const MAX_DURATION_MS: nat := 600000
  const UINT64_MAX: nat := 0xffff_ffff_ffff_ffff

  // ----- the world behind the callbacks -----------------------------------------------------

  datatype Action = Suspend | Resume

  datatype Call = Call(action: Action, thread: ThreadId, ok: bool)

  /** Suspend counts of all threads, and the callbacks made so far. */
  datatype World = World(counts: map<ThreadId, int>, calls: seq<Call>)

  /** The adversary: whether a callback succeeds, given everything called before. */
  type Oracle = (seq<Call>, Action, ThreadId) -> bool

  function CountOf(w: World, t: ThreadId): int {
    if t in w.counts then w.counts[t] else 0
  }

  /** The callback contract: success changes one count by exactly one, failure changes none. */
  function Invoke(o: Oracle, w: World, action: Action, t: ThreadId): World {
    var ok := o(w.calls, action, t);
    var delta := if !ok then 0 else if action.Suspend? then 1 else -1;
    World(w.counts[t := CountOf(w, t) + delta], w.calls + [Call(action, t, ok)])
  }

  // ----- the transaction --------------------------------------------------------------------

  datatype Status = Ok | Expired | InvalidArgument | InvalidThreads | AlreadyActive | NotActive |
                    StaleTarget | SuspendFailed | RollbackFailed | ResumeFailed

  datatype Pause = Pause(
    generation: nat,
    started: nat,
    deadline: nat,
    owned: set<nat>,
    threads: seq<ThreadId>,
    failed: ThreadId,
    active: bool)

  const CLEARED: Pause := Pause(0, 0, 0, {}, [], 0, false)

  datatype Result = Result(pause: Pause, world: World, status: Status)

  /** A non-empty list of at most 64 positive, strictly increasing ids. */
  predicate ValidThreads(ids: seq<ThreadId>) {
    && 0 < |ids| <= MAX_THREADS
    && (forall i :: 0 <= i < |ids| ==> ids[i] > 0)
    && (forall i, j :: 0 <= i < j < |ids| ==> ids[i] < ids[j])
  }

  /** Suspends from position `i` upwards until one fails; returns that position, or the list's end. */
  function SuspendFrom(o: Oracle, w: World, ids: seq<ThreadId>, i: nat): (r: (World, nat))
    requires i <= |ids|
    ensures i <= r.1 <= |ids|
    decreases |ids| - i
  {
    if i == |ids| then (w, i)
    else
      var w' := Invoke(o, w, Suspend, ids[i]);
      if o(w.calls, Suspend, ids[i]) then SuspendFrom(o, w', ids, i + 1) else (w', i)
  }

  datatype Sweep = Sweep(world: World, owned: set<nat>, failed: ThreadId)

  /**
    Tries to resume every owned position below `n`, from the top down. `failed` is the failed id
    recorded so far; a cleanup keeps the first one (0 means none yet), a rollback the latest.
   */
  function ResumeBelow(o: Oracle, w: World, ids: seq<ThreadId>, owned: set<nat>, n: nat,
                       failed: ThreadId, keepFirst: bool): Sweep
    requires n <= |ids|
    decreases n
  {
    if n == 0 then Sweep(w, owned, failed)
    else if n - 1 !in owned then ResumeBelow(o, w, ids, owned, n - 1, failed, keepFirst)
    else
      var t := ids[n - 1];
      var w' := Invoke(o, w, Resume, t);
      if o(w.calls, Resume, t) then ResumeBelow(o, w', ids, owned - {n - 1}, n - 1, failed, keepFirst)
      else ResumeBelow(o, w', ids, owned, n - 1, if keepFirst && failed != 0 then failed else t, keepFirst)
  }

  /** The first `n` positions. */
  function Below(n: nat): (r: set<nat>)
    ensures forall i: nat :: i in r <==> i < n
  {
    if n == 0 then {} else Below(n - 1) + {n - 1}
  }

  predicate BeginArguments(generation: nat, now: nat, duration: nat) {
    generation != 0 && 0 < duration <= MAX_DURATION_MS && now <= UINT64_MAX - duration
  }

  function Begin(o: Oracle, w: World, p: Pause, generation: nat, now: nat, duration: nat, ids: seq<ThreadId>): Result {
    if !BeginArguments(generation, now, duration) then Result(p, w, InvalidArgument)
    else if p.active || p.owned != {} then Result(p, w, AlreadyActive)
    else if !ValidThreads(ids) then Result(p, w, InvalidThreads)
    else
      var started := Pause(generation, now, now + duration, {}, ids, 0, true);
      var (w', k) := SuspendFrom(o, w, ids, 0);
      if k == |ids| then Result(started.(owned := Below(k)), w', Ok)
      else
        var rollback := ResumeBelow(o, w', ids, Below(k), k, ids[k], false);
        if rollback.owned == {} then Result(CLEARED, rollback.world, SuspendFailed)
        else Result(started.(owned := rollback.owned, failed := rollback.failed), rollback.world, RollbackFailed)
  }

  function End(o: Oracle, w: World, p: Pause, generation: nat): Result {
    if generation == 0 then Result(p, w, InvalidArgument)
    else if !p.active then Result(p, w, NotActive)
    else if p.generation != generation then Result(p, w, StaleTarget)
    else
      var sweep := ResumeBelow(o, w, p.threads, p.owned, |p.threads|, 0, true);
      if sweep.owned == {} then Result(CLEARED, sweep.world, Ok)
      else Result(p.(owned := sweep.owned, failed := sweep.failed), sweep.world, ResumeFailed)
  }

  predicate InWindow(p: Pause, now: nat) { p.started <= now < p.deadline }

  function Tick(o: Oracle, w: World, p: Pause, generation: nat, now: nat): Result {
    if generation == 0 then Result(p, w, InvalidArgument)
    else if !p.active then Result(p, w, NotActive)
    else if p.generation != generation then Result(p, w, StaleTarget)
    else if InWindow(p, now) then Result(p, w, Ok)
    else
      var r := End(o, w, p, generation);
      if r.status == Ok then r.(status := Expired) else r
  }

  function Abandon(w: World, p: Pause, generation: nat): Result {
    if generation == 0 then Result(p, w, InvalidArgument)
    else if !p.active then Result(p, w, NotActive)
    else if p.generation != generation then Result(p, w, StaleTarget)
    else Result(CLEARED, w, Ok)
  }

  // ----- what the sweeps do -----------------------------------------------------------------

  /** Owned positions below `n`, from the top down. */
  function Descending(owned: set<nat>, n: nat): seq<nat> {
    if n == 0 then []
    else if n - 1 in owned then [n - 1] + Descending(owned, n - 1)
    else Descending(owned, n - 1)
  }

  lemma {:induction false} DescendingIsTheSet(owned: set<nat>, n: nat)
    ensures var s := Descending(owned, n);
            && (forall i :: i in s <==> i in owned && i < n)
            && (forall a, b :: 0 <= a < b < |s| ==> s[a] > s[b])
  {
    if n != 0 {
      DescendingIsTheSet(owned, n - 1);
      var s := Descending(owned, n - 1);
      assert forall a :: 0 <= a < |s| ==> s[a] in s;
    }
  }

  predicate InRange(positions: seq<nat>, n: nat) { forall i :: 0 <= i < |positions| ==> positions[i] < n }

  /** One resume call per listed position, successful unless the position is still owned afterwards. */
  function ResumeCalls(ids: seq<ThreadId>, positions: seq<nat>, left: set<nat>): (r: seq<Call>)
    requires InRange(positions, |ids|)
    ensures |r| == |positions|
    ensures forall i :: 0 <= i < |r| ==> r[i] == Call(Resume, ids[positions[i]], positions[i] !in left)
  {
    seq(|positions|, i requires 0 <= i < |positions| => Call(Resume, ids[positions[i]], positions[i] !in left))
  }

  lemma NoResumeCalls(ids: seq<ThreadId>, left: set<nat>)
    ensures InRange([], |ids|) && ResumeCalls(ids, [], left) == []
  {
  }

  lemma ResumeCallsCons(ids: seq<ThreadId>, i: nat, positions: seq<nat>, left: set<nat>)
    requires i < |ids| && InRange(positions, |ids|)
    ensures InRange([i] + positions, |ids|)
            && ResumeCalls(ids, [i] + positions, left) ==
               [Call(Resume, ids[i], i !in left)] + ResumeCalls(ids, positions, left)
  {
  }

  /** A sweep only releases, and only below `n`. */
  lemma {:induction false} SweepOwned(o: Oracle, w: World, ids: seq<ThreadId>, owned: set<nat>, n: nat,
                                      failed: ThreadId, keepFirst: bool)
    requires n <= |ids|
    ensures var r := ResumeBelow(o, w, ids, owned, n, failed, keepFirst);
            r.owned <= owned && (forall i :: i in owned && i >= n ==> i in r.owned)
    decreases n
  {
    if n != 0 {
      var t := ids[n - 1];
      var w' := Invoke(o, w, Resume, t);
      if n - 1 !in owned {
        SweepOwned(o, w, ids, owned, n - 1, failed, keepFirst);
      } else if o(w.calls, Resume, t) {
        SweepOwned(o, w', ids, owned - {n - 1}, n - 1, failed, keepFirst);
      } else {
        SweepOwned(o, w', ids, owned, n - 1, if keepFirst && failed != 0 then failed else t, keepFirst);
      }
    }
  }

  /** The resume calls of a sweep, top down, given what it leaves owned. */
  function SweepTrace(ids: seq<ThreadId>, owned: set<nat>, n: nat, left: set<nat>): seq<Call>
    requires n <= |ids|
  {
    if n == 0 then []
    else if n - 1 !in owned then SweepTrace(ids, owned, n - 1, left)
    else [Call(Resume, ids[n - 1], n - 1 !in left)] + SweepTrace(ids, owned, n - 1, left)
  }

  lemma {:induction false} SweepTraceIgnores(ids: seq<ThreadId>, owned: set<nat>, n: nat, left: set<nat>, k: nat)
    requires n <= |ids| && k >= n
    ensures SweepTrace(ids, owned - {k}, n, left) == SweepTrace(ids, owned, n, left)
  {
    if n != 0 { SweepTraceIgnores(ids, owned, n - 1, left, k); }
  }

  lemma {:induction false} SweepTraces(o: Oracle, w: World, ids: seq<ThreadId>, owned: set<nat>, n: nat,
                                       failed: ThreadId, keepFirst: bool)
    requires n <= |ids|
    ensures var r := ResumeBelow(o, w, ids, owned, n, failed, keepFirst);
            r.world.calls == w.calls + SweepTrace(ids, owned, n, r.owned)
    decreases n
  {
    if n == 0 {
    } else if n - 1 !in owned {
      SweepTraces(o, w, ids, owned, n - 1, failed, keepFirst);
    } else {
      var t := ids[n - 1];
      var w' := Invoke(o, w, Resume, t);
      var ok := o(w.calls, Resume, t);
      var owned' := if ok then owned - {n - 1} else owned;
      var failed' := if ok || (keepFirst && failed != 0) then failed else t;
      SweepTraces(o, w', ids, owned', n - 1, failed', keepFirst);
      SweepOwned(o, w', ids, owned', n - 1, failed', keepFirst);
      SweepTraceIgnores(ids, owned, n - 1, ResumeBelow(o, w', ids, owned', n - 1, failed', keepFirst).owned, n - 1);
    }
  }

  lemma {:induction false} SweepTraceInOrder(ids: seq<ThreadId>, owned: set<nat>, n: nat, left: set<nat>)
    requires n <= |ids|
    ensures InRange(Descending(owned, n), |ids|)
            && SweepTrace(ids, owned, n, left) == ResumeCalls(ids, Descending(owned, n), left)
  {
    hide ResumeCalls, InRange;
    if n == 0 {
      NoResumeCalls(ids, left);
    } else {
      SweepTraceInOrder(ids, owned, n - 1, left);
      if n - 1 in owned {
        ResumeCallsCons(ids, n - 1, Descending(owned, n - 1), left);
      }
    }
  }

  /** A sweep only releases, touches nothing at or above `n`, and calls resume once per owned position, top down. */
  lemma SweepCalls(o: Oracle, w: World, ids: seq<ThreadId>, owned: set<nat>, n: nat, failed: ThreadId, keepFirst: bool)
    requires n <= |ids|
    ensures var r := ResumeBelow(o, w, ids, owned, n, failed, keepFirst);
            && r.owned <= owned && (forall i :: i in owned && i >= n ==> i in r.owned)
            && InRange(Descending(owned, n), |ids|)
            && r.world.calls == w.calls + ResumeCalls(ids, Descending(owned, n), r.owned)
  {
    SweepOwned(o, w, ids, owned, n, failed, keepFirst);
    SweepTraces(o, w, ids, owned, n, failed, keepFirst);
    SweepTraceInOrder(ids, owned, n, ResumeBelow(o, w, ids, owned, n, failed, keepFirst).owned);
  }

  predicate Distinct(ids: seq<ThreadId>) {
    forall i, j :: 0 <= i < j < |ids| ==> ids[i] != ids[j]
  }

  /** The ids at a set of positions. */
  function IdsAt(ids: seq<ThreadId>, positions: set<nat>): set<ThreadId> {
    set i | i in positions && i < |ids| :: ids[i]
  }

  /** Each released position gives back exactly one count; nothing else moves. */
  lemma {:induction false} SweepCounts(o: Oracle, w: World, ids: seq<ThreadId>, owned: set<nat>, n: nat,
                                       failed: ThreadId, keepFirst: bool, t: ThreadId)
    requires n <= |ids| && Distinct(ids) && (forall i :: i in owned ==> i < |ids|)
    ensures var r := ResumeBelow(o, w, ids, owned, n, failed, keepFirst);
            CountOf(r.world, t) - (if t in IdsAt(ids, r.owned) then 1 else 0) ==
            CountOf(w, t) - (if t in IdsAt(ids, owned) then 1 else 0)
    decreases n
  {
    if n == 0 {
    } else if n - 1 !in owned {
      SweepCounts(o, w, ids, owned, n - 1, failed, keepFirst, t);
    } else {
      var u := ids[n - 1];
      var w' := Invoke(o, w, Resume, u);
      if o(w.calls, Resume, u) {
        SweepCounts(o, w', ids, owned - {n - 1}, n - 1, failed, keepFirst, t);
        assert IdsAt(ids, owned - {n - 1}) == IdsAt(ids, owned) - {u};
        assert u in IdsAt(ids, owned);
      } else {
        SweepCounts(o, w', ids, owned, n - 1, if keepFirst && failed != 0 then failed else u, keepFirst, t);
      }
    }
  }

  /** A rollback leaves the id of the smallest position it could not release. */
  lemma {:induction false} RollbackFailedId(o: Oracle, w: World, ids: seq<ThreadId>, owned: set<nat>, n: nat,
                                           failed: ThreadId)
    requires n <= |ids|
    ensures var r := ResumeBelow(o, w, ids, owned, n, failed, false);
            && ((forall i :: i in r.owned ==> i >= n) ==> r.failed == failed)
            && (forall i :: i in r.owned && i < n && (forall j :: j in r.owned ==> i <= j) ==> r.failed == ids[i])
    decreases n
  {
    if n != 0 {
      var t := ids[n - 1];
      var w' := Invoke(o, w, Resume, t);
      if n - 1 !in owned {
        RollbackFailedId(o, w, ids, owned, n - 1, failed);
      } else if o(w.calls, Resume, t) {
        RollbackFailedId(o, w', ids, owned - {n - 1}, n - 1, failed);
        SweepOwned(o, w', ids, owned - {n - 1}, n - 1, failed, false);
      } else {
        RollbackFailedId(o, w', ids, owned, n - 1, t);
        SweepOwned(o, w', ids, owned, n - 1, t, false);
      }
      SweepOwned(o, w, ids, owned, n, failed, false);
    }
  }

  /** A cleanup that already has a failed id keeps it. */
  lemma {:induction false} CleanupKeepsFailedId(o: Oracle, w: World, ids: seq<ThreadId>, owned: set<nat>, n: nat,
                                              failed: ThreadId)
    requires n <= |ids| && failed != 0
    ensures ResumeBelow(o, w, ids, owned, n, failed, true).failed == failed
    decreases n
  {
    if n != 0 {
      var w' := Invoke(o, w, Resume, ids[n - 1]);
      if n - 1 !in owned {
        CleanupKeepsFailedId(o, w, ids, owned, n - 1, failed);
      } else if o(w.calls, Resume, ids[n - 1]) {
        CleanupKeepsFailedId(o, w', ids, owned - {n - 1}, n - 1, failed);
      } else {
        CleanupKeepsFailedId(o, w', ids, owned, n - 1, failed);
      }
    }
  }

  /** `failed` is the id of the largest position left, or 0 if none is left. */
  ghost predicate LargestFailed(ids: seq<ThreadId>, left: set<nat>, failed: ThreadId) {
    && (left == {} ==> failed == 0)
    && (forall i :: i in left && (forall j :: j in left ==> j <= i) ==> i < |ids| && failed == ids[i])
  }

  /** If the largest owned position cannot be released, its id is the one reported. */
  lemma CleanupFailsAtTop(o: Oracle, w: World, ids: seq<ThreadId>, owned: set<nat>, n: nat)
    requires 0 < n <= |ids| && ids[n - 1] > 0 && n - 1 in owned && (forall i :: i in owned ==> i < n)
    requires !o(w.calls, Resume, ids[n - 1])
    ensures var r := ResumeBelow(o, w, ids, owned, n, 0, true); LargestFailed(ids, r.owned, r.failed)
  {
    hide Invoke;
    var t := ids[n - 1];
    var w' := Invoke(o, w, Resume, t);
    CleanupKeepsFailedId(o, w', ids, owned, n - 1, t);
    SweepOwned(o, w', ids, owned, n - 1, t, true);
    var r := ResumeBelow(o, w', ids, owned, n - 1, t, true);
    assert n - 1 in r.owned && r == ResumeBelow(o, w, ids, owned, n, 0, true);
  }

  /** A cleanup leaves the id of the largest position it could not release. */
  lemma {:induction false} CleanupFailedId(o: Oracle, w: World, ids: seq<ThreadId>, owned: set<nat>, n: nat)
    requires n <= |ids| && (forall i :: 0 <= i < |ids| ==> ids[i] > 0) && (forall i :: i in owned ==> i < n)
    ensures var r := ResumeBelow(o, w, ids, owned, n, 0, true); LargestFailed(ids, r.owned, r.failed)
    decreases n
  {
    hide Invoke, LargestFailed;
    if n == 0 {
      NoneFailed(ids, owned);
    } else {
      var t := ids[n - 1];
      var w' := Invoke(o, w, Resume, t);
      if n - 1 !in owned {
        CleanupFailedId(o, w, ids, owned, n - 1);
      } else if o(w.calls, Resume, t) {
        CleanupFailedId(o, w', ids, owned - {n - 1}, n - 1);
      } else {
        CleanupFailsAtTop(o, w, ids, owned, n);
      }
    }
  }

  lemma NoneFailed(ids: seq<ThreadId>, left: set<nat>)
    requires forall i :: i in left ==> i < 0
    ensures LargestFailed(ids, left, 0)
  {
  }

  // ----- what suspending does ---------------------------------------------------------------

  /** `count` suspend calls from position `i` on, all successful, and a failed one if `failed`. */
  function SuspendCalls(ids: seq<ThreadId>, i: nat, k: nat): seq<Call>
    requires i <= k <= |ids|
    decreases k - i
  {
    if i == k then (if k == |ids| then [] else [Call(Suspend, ids[k], false)])
    else [Call(Suspend, ids[i], true)] + SuspendCalls(ids, i + 1, k)
  }

  lemma {:induction false} SuspendEffect(o: Oracle, w: World, ids: seq<ThreadId>, i: nat, t: ThreadId)
    requires i <= |ids| && Distinct(ids)
    ensures var (w', k) := SuspendFrom(o, w, ids, i);
            && i <= k <= |ids|
            && w'.calls == w.calls + SuspendCalls(ids, i, k)
            && CountOf(w', t) == CountOf(w, t) + (if exists j :: i <= j < k && ids[j] == t then 1 else 0)
    decreases |ids| - i
  {
    if i < |ids| && o(w.calls, Suspend, ids[i]) {
      var w1 := Invoke(o, w, Suspend, ids[i]);
      SuspendEffect(o, w1, ids, i + 1, t);
      var (w', k) := SuspendFrom(o, w1, ids, i + 1);
      if exists j :: i + 1 <= j < k && ids[j] == t {
        var j :| i + 1 <= j < k && ids[j] == t;
        assert ids[i] != t;
        assert i <= j < k && ids[j] == t;
      } else if ids[i] == t {
        assert i <= i < k && ids[i] == t;
      }
    }
  }
}
