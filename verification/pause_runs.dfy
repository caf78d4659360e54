/**
  Properties of whole runs: any sequence of begin, end, tick and abandon after one initialisation,
  against any behaviour of the callbacks.
 */
module PauseRuns {
  import opened PauseModel

  datatype Command =
    | BeginCommand(generation: nat, now: nat, duration: nat, ids: seq<ThreadId>)
    | EndCommand(generation: nat)
    | TickCommand(generation: nat, now: nat)
    | AbandonCommand(generation: nat)

  /** What happened, in order: callbacks, and the threads given up by an abandon. */
  datatype Event = Called(call: Call) | Dropped(threads: set<ThreadId>)

  datatype System = System(pause: Pause, world: World, log: seq<Event>)

  function Perform(o: Oracle, w: World, p: Pause, c: Command): Result {
    match c
    case BeginCommand(g, now, duration, ids) => Begin(o, w, p, g, now, duration, ids)
    case EndCommand(g) => End(o, w, p, g)
    case TickCommand(g, now) => Tick(o, w, p, g, now)
    case AbandonCommand(g) => Abandon(w, p, g)
  }

  function CallEvents(calls: seq<Call>): (r: seq<Event>)
    ensures |r| == |calls| && forall i :: 0 <= i < |r| ==> r[i] == Called(calls[i])
  {
    seq(|calls|, i requires 0 <= i < |calls| => Called(calls[i]))
  }

  function OwnedIds(p: Pause): set<ThreadId> { IdsAt(p.threads, p.owned) }

  /** The calls a command added; the world's call list only grows (CallsGrow). */
  function NewCalls(before: World, after: World): seq<Call> {
    if |before.calls| <= |after.calls| then after.calls[|before.calls|..] else []
  }

  function Advance(o: Oracle, s: System, c: Command): System {
    var r := Perform(o, s.world, s.pause, c);
    var dropped := if c.AbandonCommand? && r.status == Ok then [Dropped(OwnedIds(s.pause))] else [];
    System(r.pause, r.world, s.log + CallEvents(NewCalls(s.world, r.world)) + dropped)
  }

  function RunAll(o: Oracle, s: System, commands: seq<Command>): System
    decreases |commands|
  {
    if commands == [] then s else RunAll(o, Advance(o, s, commands[0]), commands[1..])
  }

  function Initial(counts: map<ThreadId, int>): System { System(CLEARED, World(counts, []), []) }

  // ----- reading a log ----------------------------------------------------------------------

  /** The threads the transaction holds after one event. */
  function HeldAfterEvent(held: set<ThreadId>, e: Event): set<ThreadId> {
    if e.Dropped? then held - e.threads
    else if !e.call.ok then held
    else if e.call.action.Suspend? then held + {e.call.thread}
    else held - {e.call.thread}
  }

  /** Suspends go to threads not held, resumes only to held ones, and an abandon gives up exactly the held ones. */
  predicate LegalEvent(held: set<ThreadId>, e: Event) {
    if e.Dropped? then e.threads == held && held != {}
    else if e.call.action.Suspend? then e.call.thread !in held
    else e.call.thread in held
  }

  function HeldAfter(held: set<ThreadId>, log: seq<Event>): set<ThreadId> {
    if log == [] then held else HeldAfterEvent(HeldAfter(held, log[..|log| - 1]), log[|log| - 1])
  }

  predicate LegalFrom(held: set<ThreadId>, log: seq<Event>) {
    log == [] ||
    (LegalFrom(held, log[..|log| - 1]) && LegalEvent(HeldAfter(held, log[..|log| - 1]), log[|log| - 1]))
  }

  /** How many times an abandon has given up a count of `t`. */
  function Drops(log: seq<Event>, t: ThreadId): nat {
    if log == [] then 0
    else
      var last := log[|log| - 1];
      Drops(log[..|log| - 1], t) + (if last.Dropped? && t in last.threads then 1 else 0)
  }

  lemma {:induction false} LogConcat(held: set<ThreadId>, a: seq<Event>, b: seq<Event>)
    ensures HeldAfter(held, a + b) == HeldAfter(HeldAfter(held, a), b)
    ensures LegalFrom(held, a + b) <==> LegalFrom(held, a) && LegalFrom(HeldAfter(held, a), b)
    decreases |b|
  {
    if b == [] {
      assert a + b == a;
    } else {
      LogConcat(held, a, b[..|b| - 1]);
      assert (a + b)[..|a + b| - 1] == a + b[..|b| - 1];
    }
  }

  lemma {:induction false} DropsConcat(a: seq<Event>, b: seq<Event>, t: ThreadId)
    ensures Drops(a + b, t) == Drops(a, t) + Drops(b, t)
    decreases |b|
  {
    if b == [] {
      assert a + b == a;
    } else {
      DropsConcat(a, b[..|b| - 1], t);
      assert (a + b)[..|a + b| - 1] == a + b[..|b| - 1];
    }
  }

  lemma {:induction false} CallsDropNothing(calls: seq<Call>, t: ThreadId)
    ensures Drops(CallEvents(calls), t) == 0
    decreases |calls|
  {
    if calls != [] {
      CallsDropNothing(calls[..|calls| - 1], t);
      assert CallEvents(calls)[..|calls| - 1] == CallEvents(calls[..|calls| - 1]);
    }
  }

  // ----- the invariant ----------------------------------------------------------------------

  /** A transaction between calls: active exactly when it owns something, all of it listed. */
  ghost predicate Settled(p: Pause) {
    && (p.active <==> p.owned != {})
    && (p.active ==>
          && ValidThreads(p.threads) && (forall i :: i in p.owned ==> i < |p.threads|)
          && p.generation != 0 && p.started < p.deadline <= UINT64_MAX
          && p.deadline - p.started <= MAX_DURATION_MS)
    && (!p.active ==> p == CLEARED)
  }

  lemma ValidThreadsDistinct(ids: seq<ThreadId>)
    requires ValidThreads(ids)
    ensures Distinct(ids)
  {
  }

  lemma IdsWithout(ids: seq<ThreadId>, owned: set<nat>, i: nat)
    requires Distinct(ids) && i in owned && i < |ids|
    ensures ids[i] in IdsAt(ids, owned) && IdsAt(ids, owned - {i}) == IdsAt(ids, owned) - {ids[i]}
  {
  }

  lemma PrependEvent(held: set<ThreadId>, e: Event, log: seq<Event>)
    ensures HeldAfter(held, [e] + log) == HeldAfter(HeldAfterEvent(held, e), log)
    ensures LegalFrom(held, [e] + log) <==> LegalEvent(held, e) && LegalFrom(HeldAfterEvent(held, e), log)
  {
    LogConcat(held, [e], log);
    OneEvent(held, e);
  }

  /** The log of a sweep is legal, and leaves held exactly the threads still owned. */
  lemma {:induction false} SweepLegal(o: Oracle, w: World, ids: seq<ThreadId>, owned: set<nat>, n: nat,
                                      failed: ThreadId, keepFirst: bool)
    requires n <= |ids| && Distinct(ids) && (forall i :: i in owned ==> i < |ids|)
    ensures var r := ResumeBelow(o, w, ids, owned, n, failed, keepFirst);
            && w.calls <= r.world.calls
            && LegalFrom(IdsAt(ids, owned), CallEvents(NewCalls(w, r.world)))
            && HeldAfter(IdsAt(ids, owned), CallEvents(NewCalls(w, r.world))) == IdsAt(ids, r.owned)
    decreases n
  {
    if n == 0 {
      assert CallEvents(NewCalls(w, w)) == [];
    } else if n - 1 !in owned {
      SweepLegal(o, w, ids, owned, n - 1, failed, keepFirst);
    } else {
      var t := ids[n - 1];
      var ok := o(w.calls, Resume, t);
      var w' := Invoke(o, w, Resume, t);
      var owned' := if ok then owned - {n - 1} else owned;
      var failed' := if ok || (keepFirst && failed != 0) then failed else t;
      var w2 := ResumeBelow(o, w', ids, owned', n - 1, failed', keepFirst).world;
      SweepLegal(o, w', ids, owned', n - 1, failed', keepFirst);
      IdsWithout(ids, owned, n - 1);
      FirstCall(w, w', w2, Call(Resume, t, ok));
      PrependEvent(IdsAt(ids, owned), Called(Call(Resume, t, ok)), CallEvents(NewCalls(w', w2)));
    }
  }

  lemma OneEvent(held: set<ThreadId>, e: Event)
    ensures HeldAfter(held, [e]) == HeldAfterEvent(held, e)
    ensures LegalFrom(held, [e]) <==> LegalEvent(held, e)
  {
    assert [e][..0] == [];
  }

  lemma FirstCall(w: World, w1: World, w2: World, c: Call)
    requires w1.calls == w.calls + [c] && w1.calls <= w2.calls
    ensures w.calls <= w2.calls
    ensures CallEvents(NewCalls(w, w2)) == [Called(c)] + CallEvents(NewCalls(w1, w2))
  {
    assert w2.calls[|w.calls|] == c;
    assert NewCalls(w, w2) == [c] + NewCalls(w1, w2);
  }

  lemma NewCallsChain(w: World, w1: World, w2: World)
    requires w.calls <= w1.calls && w1.calls <= w2.calls
    ensures w.calls <= w2.calls
    ensures CallEvents(NewCalls(w, w2)) == CallEvents(NewCalls(w, w1)) + CallEvents(NewCalls(w1, w2))
  {
    assert NewCalls(w, w2) == NewCalls(w, w1) + NewCalls(w1, w2);
  }

  lemma {:induction false} SuspendLegal(o: Oracle, w: World, ids: seq<ThreadId>, i: nat)
    requires i <= |ids| && Distinct(ids)
    ensures var (w', k) := SuspendFrom(o, w, ids, i);
            && w.calls <= w'.calls
            && LegalFrom(IdsAt(ids, Below(i)), CallEvents(NewCalls(w, w')))
            && HeldAfter(IdsAt(ids, Below(i)), CallEvents(NewCalls(w, w'))) == IdsAt(ids, Below(k))
    decreases |ids| - i
  {
    if i == |ids| {
      assert CallEvents(NewCalls(w, w)) == [];
    } else {
      var t := ids[i];
      var w' := Invoke(o, w, Suspend, t);
      var ok := o(w.calls, Suspend, t);
      assert t !in IdsAt(ids, Below(i));
      OneEvent(IdsAt(ids, Below(i)), Called(Call(Suspend, t, ok)));
      if ok {
        SuspendLegal(o, w', ids, i + 1);
        assert IdsAt(ids, Below(i + 1)) == IdsAt(ids, Below(i)) + {t};
        var w2 := SuspendFrom(o, w', ids, i + 1).0;
        FirstCall(w, w', w2, Call(Suspend, t, ok));
        LogConcat(IdsAt(ids, Below(i)), [Called(Call(Suspend, t, ok))], CallEvents(NewCalls(w', w2)));
      } else {
        assert CallEvents(NewCalls(w', w')) == [];
        FirstCall(w, w', w', Call(Suspend, t, ok));
        assert [Called(Call(Suspend, t, ok))] + [] == [Called(Call(Suspend, t, ok))];
      }
    }
  }

  // ----- one command ------------------------------------------------------------------------

  /** What every command guarantees of its calls and of the transaction it leaves. */
  ghost predicate Conserves(w: World, p: Pause, r: Result, dropped: set<ThreadId>) {
    && w.calls <= r.world.calls
    && LegalFrom(OwnedIds(p), CallEvents(NewCalls(w, r.world)))
    && HeldAfter(OwnedIds(p), CallEvents(NewCalls(w, r.world))) == OwnedIds(r.pause) + dropped
    && forall t: ThreadId ::
         CountOf(r.world, t) - (if t in OwnedIds(r.pause) then 1 else 0) - (if t in dropped then 1 else 0) ==
         CountOf(w, t) - (if t in OwnedIds(p) then 1 else 0)
  }

  lemma NothingCalled(w: World, p: Pause, r: Result)
    requires r.world == w
    ensures OwnedIds(r.pause) == OwnedIds(p) ==> Conserves(w, p, r, {})
  {
    assert CallEvents(NewCalls(w, w)) == [];
  }

  lemma EndConserves(o: Oracle, w: World, p: Pause, generation: nat)
    requires Settled(p)
    ensures var r := End(o, w, p, generation); Settled(r.pause) && Conserves(w, p, r, {})
  {
    var r := End(o, w, p, generation);
    if r.status == InvalidArgument || r.status == NotActive || r.status == StaleTarget {
      NothingCalled(w, p, r);
    } else {
      ValidThreadsDistinct(p.threads);
      var sweep := ResumeBelow(o, w, p.threads, p.owned, |p.threads|, 0, true);
      SweepOwned(o, w, p.threads, p.owned, |p.threads|, 0, true);
      SweepLegal(o, w, p.threads, p.owned, |p.threads|, 0, true);
      assert OwnedIds(r.pause) == IdsAt(p.threads, sweep.owned);
      forall t: ThreadId
        ensures CountOf(r.world, t) - (if t in OwnedIds(r.pause) then 1 else 0) ==
                CountOf(w, t) - (if t in OwnedIds(p) then 1 else 0)
      {
        SweepCounts(o, w, p.threads, p.owned, |p.threads|, 0, true, t);
      }
    }
  }

  lemma TickConserves(o: Oracle, w: World, p: Pause, generation: nat, now: nat)
    requires Settled(p)
    ensures var r := Tick(o, w, p, generation, now); Settled(r.pause) && Conserves(w, p, r, {})
  {
    EndConserves(o, w, p, generation);
    NothingCalled(w, p, Result(p, w, Ok));
  }

  lemma SuspendConserves(o: Oracle, w: World, ids: seq<ThreadId>)
    requires Distinct(ids)
    ensures var (w', k) := SuspendFrom(o, w, ids, 0);
            forall t: ThreadId :: CountOf(w', t) - (if t in IdsAt(ids, Below(k)) then 1 else 0) == CountOf(w, t)
  {
    var (w', k) := SuspendFrom(o, w, ids, 0);
    forall t: ThreadId
      ensures CountOf(w', t) - (if t in IdsAt(ids, Below(k)) then 1 else 0) == CountOf(w, t)
    {
      SuspendEffect(o, w, ids, 0, t);
      assert t in IdsAt(ids, Below(k)) <==> exists j :: 0 <= j < k && ids[j] == t;
    }
  }

  lemma BeginSettled(o: Oracle, w: World, p: Pause, generation: nat, now: nat, duration: nat, ids: seq<ThreadId>)
    requires Settled(p)
    ensures Settled(Begin(o, w, p, generation, now, duration, ids).pause)
  {
    var (w', k) := SuspendFrom(o, w, ids, 0);
    if k < |ids| {
      SweepOwned(o, w', ids, Below(k), k, ids[k], false);
    } else if k > 0 {
      assert 0 in Below(k);
    }
  }

  /** A begin that gets past the argument checks, in two phases. */
  lemma AcceptedBeginConserves(o: Oracle, w: World, p: Pause, ids: seq<ThreadId>, r: Result)
    requires Distinct(ids) && OwnedIds(p) == {}
    requires var (w', k) := SuspendFrom(o, w, ids, 0);
             if k == |ids| then r.world == w' && OwnedIds(r.pause) == IdsAt(ids, Below(k))
             else
               var sweep := ResumeBelow(o, w', ids, Below(k), k, ids[k], false);
               r.world == sweep.world && OwnedIds(r.pause) == IdsAt(ids, sweep.owned)
    ensures Conserves(w, p, r, {})
  {
    var (w', k) := SuspendFrom(o, w, ids, 0);
    SuspendLegal(o, w, ids, 0);
    SuspendConserves(o, w, ids);
    assert IdsAt(ids, Below(0)) == {};
    if k < |ids| {
      RollbackConserves(o, w, w', p, ids, k, r);
    }
  }

  lemma BeginConserves(o: Oracle, w: World, p: Pause, generation: nat, now: nat, duration: nat, ids: seq<ThreadId>)
    requires Settled(p)
    ensures var r := Begin(o, w, p, generation, now, duration, ids); Settled(r.pause) && Conserves(w, p, r, {})
  {
    var r := Begin(o, w, p, generation, now, duration, ids);
    BeginSettled(o, w, p, generation, now, duration, ids);
    if r.status == InvalidArgument || r.status == AlreadyActive || r.status == InvalidThreads {
      NothingCalled(w, p, r);
    } else {
      ValidThreadsDistinct(ids);
      assert IdsAt(ids, {}) == {};
      AcceptedBeginConserves(o, w, p, ids, r);
    }
  }

  lemma RollbackConserves(o: Oracle, w: World, w': World, p: Pause, ids: seq<ThreadId>, k: nat, r: Result)
    requires Distinct(ids) && k < |ids| && OwnedIds(p) == {}
    requires w.calls <= w'.calls && LegalFrom({}, CallEvents(NewCalls(w, w')))
    requires HeldAfter({}, CallEvents(NewCalls(w, w'))) == IdsAt(ids, Below(k))
    requires forall t: ThreadId :: CountOf(w', t) - (if t in IdsAt(ids, Below(k)) then 1 else 0) == CountOf(w, t)
    requires var sweep := ResumeBelow(o, w', ids, Below(k), k, ids[k], false);
             r.world == sweep.world && OwnedIds(r.pause) == IdsAt(ids, sweep.owned)
    ensures Conserves(w, p, r, {})
  {
    SweepOwned(o, w', ids, Below(k), k, ids[k], false);
    SweepLegal(o, w', ids, Below(k), k, ids[k], false);
    NewCallsChain(w, w', r.world);
    LogConcat({}, CallEvents(NewCalls(w, w')), CallEvents(NewCalls(w', r.world)));
    forall t: ThreadId
      ensures CountOf(r.world, t) - (if t in OwnedIds(r.pause) then 1 else 0) == CountOf(w, t)
    {
      SweepCounts(o, w', ids, Below(k), k, ids[k], false, t);
    }
  }

  lemma AbandonConserves(w: World, p: Pause, generation: nat)
    requires Settled(p)
    ensures var r := Abandon(w, p, generation);
            Settled(r.pause) && Conserves(w, p, r, if r.status == Ok then OwnedIds(p) else {})
  {
    assert CallEvents(NewCalls(w, w)) == [];
    assert OwnedIds(CLEARED) == {};
  }

  lemma PerformConserves(o: Oracle, w: World, p: Pause, c: Command)
    requires Settled(p)
    ensures var r := Perform(o, w, p, c);
            Settled(r.pause) && Conserves(w, p, r, if c.AbandonCommand? && r.status == Ok then OwnedIds(p) else {})
  {
    match c
    case BeginCommand(g, now, duration, ids) => BeginConserves(o, w, p, g, now, duration, ids);
    case EndCommand(g) => EndConserves(o, w, p, g);
    case TickCommand(g, now) => TickConserves(o, w, p, g, now);
    case AbandonCommand(g) => AbandonConserves(w, p, g);
  }

  // ----- whole runs -------------------------------------------------------------------------

  /** The state of the system after any run, relative to the counts it started from. */
  ghost predicate Accounted(counts: map<ThreadId, int>, s: System) {
    && Settled(s.pause)
    && LegalFrom({}, s.log) && HeldAfter({}, s.log) == OwnedIds(s.pause)
    && forall t: ThreadId ::
         CountOf(s.world, t) ==
         CountOf(World(counts, []), t) + (if t in OwnedIds(s.pause) then 1 else 0) + Drops(s.log, t)
  }

  /** The log after one more command, given the calls it made and what it dropped. */
  lemma LogAdvances(log: seq<Event>, calls: seq<Event>, dropped: seq<Event>, owned: set<ThreadId>, left: set<ThreadId>)
    requires LegalFrom({}, log) && HeldAfter({}, log) == owned
    requires LegalFrom(owned, calls)
    requires if dropped == [] then HeldAfter(owned, calls) == left
             else calls == [] && dropped == [Dropped(owned)] && owned != {} && left == {}
    ensures LegalFrom({}, log + calls + dropped) && HeldAfter({}, log + calls + dropped) == left
  {
    LogConcat({}, log, calls);
    LogConcat({}, log + calls, dropped);
    if dropped != [] {
      assert log + calls == log;
      OneEvent(owned, Dropped(owned));
    }
  }

  lemma DropsAdvance(log: seq<Event>, calls: seq<Call>, dropped: seq<Event>, owned: set<ThreadId>, t: ThreadId)
    requires dropped == [] || dropped == [Dropped(owned)]
    ensures Drops(log + CallEvents(calls) + dropped, t) ==
            Drops(log, t) + (if dropped != [] && t in owned then 1 else 0)
  {
    DropsConcat(log, CallEvents(calls), t);
    CallsDropNothing(calls, t);
    DropsConcat(log + CallEvents(calls), dropped, t);
    assert dropped != [] ==> dropped[..0] == [];
  }

  lemma AdvanceAccounted(o: Oracle, counts: map<ThreadId, int>, s: System, c: Command)
    requires Accounted(counts, s)
    ensures Accounted(counts, Advance(o, s, c))
  {
    hide Perform, Settled, HeldAfter, LegalFrom, Drops;
    var r := Perform(o, s.world, s.pause, c);
    var owned := OwnedIds(s.pause);
    var calls := NewCalls(s.world, r.world);
    var dropped := if c.AbandonCommand? && r.status == Ok then [Dropped(owned)] else [];
    PerformConserves(o, s.world, s.pause, c);
    if dropped != [] { AbandonDrops(o, s.world, s.pause, c); }
    LogAdvances(s.log, CallEvents(calls), dropped, owned, OwnedIds(r.pause));
    forall t: ThreadId
      ensures CountOf(r.world, t) ==
              CountOf(World(counts, []), t) + (if t in OwnedIds(r.pause) then 1 else 0)
              + Drops(s.log + CallEvents(calls) + dropped, t)
    {
      DropsAdvance(s.log, calls, dropped, owned, t);
    }
  }

  /** A successful abandon makes no call and gives up everything owned. */
  lemma AbandonDrops(o: Oracle, w: World, p: Pause, c: Command)
    requires Settled(p) && c.AbandonCommand? && Perform(o, w, p, c).status == Ok
    ensures var r := Perform(o, w, p, c);
            && r.world == w && CallEvents(NewCalls(w, r.world)) == []
            && OwnedIds(p) != {} && OwnedIds(r.pause) == {}
  {
    OwnsSomething(p);
  }

  lemma OwnsSomething(p: Pause)
    requires Settled(p) && p.active
    ensures OwnedIds(p) != {}
  {
    var i :| i in p.owned;
    assert p.threads[i] in OwnedIds(p);
  }

  lemma {:induction false} RunAccounted(o: Oracle, counts: map<ThreadId, int>, s: System, commands: seq<Command>)
    requires Accounted(counts, s)
    ensures Accounted(counts, RunAll(o, s, commands))
    decreases |commands|
  {
    if commands != [] {
      AdvanceAccounted(o, counts, s, commands[0]);
      RunAccounted(o, counts, Advance(o, s, commands[0]), commands[1..]);
    }
  }

  /**
    Conservation over every run: from initialisation, under any commands and any callback outcomes,
    every count is its start plus one if the transaction owns the thread plus what abandons gave up;
    no thread is resumed unless owned or suspended while owned.
   */
  lemma EveryRunConserves(o: Oracle, counts: map<ThreadId, int>, commands: seq<Command>)
    ensures Accounted(counts, RunAll(o, Initial(counts), commands))
  {
    assert OwnedIds(CLEARED) == {};
    RunAccounted(o, counts, Initial(counts), commands);
  }
}
