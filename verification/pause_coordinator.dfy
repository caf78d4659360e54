/**
  The pause coordinator as the source writes it: a caller-owned record with a 64-bit ownership mask
  and a fixed array of thread ids, driven through two callbacks. Every method is tied to the
  function of PauseModel with the same name.
 */
module PauseCoordinator {
  import opened Bits
  import opened PauseModel

  type Mask = m: nat | m < Pow2(64) witness 0

  /** The positions whose bit is set. */
  function Positions(m: Mask): (r: set<nat>)
    ensures forall i :: i in r <==> i < 64 && HasBit(m, i)
  {
    set i | i in Below(64) && HasBit(m, i)
  }

  lemma NoPositions(m: Mask)
    ensures Positions(m) == {} <==> m == 0
  {
    if m == 0 {
      forall i: nat ensures !HasBit(m, i) { ZeroHasNoBit(i); }
    } else {
      var i := NonzeroHasBit(64, m);
      assert i in Positions(m);
    }
  }

  /** `UINT64_C(1) << index` */
  function BitAt(i: nat): (r: Mask)
    requires i < 64
  {
    ShiftLeft(64, 1, i)
  }

  lemma BitOnlyAt(i: nat, j: nat)
    requires i < 64
    ensures HasBit(BitAt(i), j) == (i == j)
  {
    ShiftOne(64, i);
    PowHasBit(i, j);
  }

  /** `mask & bit` tests membership. */
  lemma TestBit(m: Mask, i: nat)
    requires i < 64
    ensures And(m, BitAt(i)) != 0 <==> i in Positions(m)
  {
    AndBound(m, BitAt(i));
    AndHasBit(m, BitAt(i), i);
    BitOnlyAt(i, i);
    ZeroHasNoBit(i);
    if And(m, BitAt(i)) != 0 {
      var j := NonzeroHasBit(64, And(m, BitAt(i)));
      AndHasBit(m, BitAt(i), j);
      BitOnlyAt(i, j);
    }
  }

  /** `mask |= bit` inserts. */
  lemma InsertBit(m: Mask, i: nat)
    requires i < 64
    ensures Or(m, BitAt(i)) < Pow2(64) && Positions(Or(m, BitAt(i))) == Positions(m) + {i}
  {
    OrBound(64, m, BitAt(i));
    forall j | 0 <= j < 64 ensures HasBit(Or(m, BitAt(i)), j) == (HasBit(m, j) || i == j) {
      OrHasBit(m, BitAt(i), j);
      BitOnlyAt(i, j);
    }
  }

  /** `mask &= ~bit` removes. */
  lemma RemoveBit(m: Mask, i: nat)
    requires i < 64
    ensures And(m, Not(64, BitAt(i))) < Pow2(64) && Positions(And(m, Not(64, BitAt(i)))) == Positions(m) - {i}
  {
    AndBound(m, Not(64, BitAt(i)));
    forall j | 0 <= j < 64 ensures HasBit(And(m, Not(64, BitAt(i))), j) == (HasBit(m, j) && i != j) {
      AndHasBit(m, Not(64, BitAt(i)), j);
      NotHasBit(64, BitAt(i), j);
      BitOnlyAt(i, j);
    }
  }

  /** The top position of those not yet visited either is released or joins the ones kept. */
  lemma VisitTop(n: nat, kept: set<nat>)
    requires forall i :: i in kept ==> n < i
    ensures n in Below(n + 1) + kept
    ensures Below(n + 1) + kept - {n} == Below(n) + kept
    ensures Below(n + 1) + kept == Below(n) + (kept + {n})
  {
  }

  /** The adapter behind `vc_pause_operations`: each call obeys the callback contract. */
  class Adapter {
    const oracle: Oracle
    var world: World

    constructor (oracle: Oracle, world: World)
      ensures this.oracle == oracle && this.world == world
    {
      this.oracle, this.world := oracle, world;
    }

    method Invoke(action: Action, t: ThreadId) returns (result: int)
      modifies this
      ensures world == PauseModel.Invoke(oracle, old(world), action, t)
      ensures result == 0 <==> oracle(old(world).calls, action, t)
    {
      result := if oracle(world.calls, action, t) then 0 else -1;
      world := PauseModel.Invoke(oracle, world, action, t);
    }
  }

  method Zero(ids: array<ThreadId>)
    modifies ids
    ensures forall i :: 0 <= i < ids.Length ==> ids[i] == 0
  {
    for i := 0 to ids.Length
      invariant forall j :: 0 <= j < i ==> ids[j] == 0
    {
      ids[i] := 0;
    }
  }

  method CopyIds(source: seq<ThreadId>, ids: array<ThreadId>)
    requires |source| <= ids.Length
    modifies ids
    ensures ids[..|source|] == source
  {
    for i := 0 to |source|
      invariant ids[..i] == source[..i]
    {
      ids[i] := source[i];
    }
  }

  class PauseState {
    var targetGeneration: nat
    var startedMs: nat
    var deadlineMs: nat
    var ownedMask: Mask
    const threadIds: array<ThreadId>
    var threadCount: nat
    var failedThreadId: ThreadId
    var active: bool

    ghost predicate Valid()
      reads this
    {
      threadIds.Length == MAX_THREADS && threadCount <= MAX_THREADS
    }

    /** The transaction this record stands for. */
    ghost function Value(): Pause
      requires Valid()
      reads this, threadIds
    {
      Pause(targetGeneration, startedMs, deadlineMs, Positions(ownedMask), threadIds[..threadCount],
            failedThreadId, active)
    }

    constructor ()
      ensures Valid() && Value() == CLEARED && fresh(threadIds)
    {
      targetGeneration, startedMs, deadlineMs, ownedMask := 0, 0, 0, 0;
      threadIds := new ThreadId[MAX_THREADS](_ => 0);
      threadCount, failedThreadId, active := 0, 0, false;
      new;
      NoPositions(0);
    }

    /** Models `vc_pause_clear`. */
    method Clear()
      requires Valid()
      modifies this, threadIds
      ensures Valid() && Value() == CLEARED
      ensures forall i :: 0 <= i < MAX_THREADS ==> threadIds[i] == 0
    {
      targetGeneration, startedMs, deadlineMs, ownedMask := 0, 0, 0, 0;
      Zero(threadIds);
      threadCount, failedThreadId, active := 0, 0, false;
      NoPositions(0);
    }

    /** Models `vc_pause_validate_threads`. */
    static method ValidateThreads(ids: seq<ThreadId>) returns (ok: bool)
      ensures ok == ValidThreads(ids)
      ensures ok ==> |ids| <= MAX_THREADS
    {
      if |ids| == 0 || |ids| > MAX_THREADS {
        return false;
      }
      for index := 0 to |ids|
        invariant forall i :: 0 <= i < index ==> ids[i] > 0
        invariant forall i, j :: 0 <= i < j < index ==> ids[i] < ids[j]
      {
        if ids[index] <= 0 || (index != 0 && ids[index - 1] >= ids[index]) {
          return false;
        }
      }
      return true;
    }

    /** Models the resume loop of `vc_pause_end`. */
    method ResumeOwned(adapter: Adapter)
      requires Valid()
      modifies this`ownedMask, this`failedThreadId, adapter
      ensures Valid()
      ensures var r := ResumeBelow(adapter.oracle, old(adapter.world), threadIds[..threadCount],
                                   Positions(old(ownedMask)), threadCount, old(failedThreadId), true);
              adapter.world == r.world && Positions(ownedMask) == r.owned && failedThreadId == r.failed
    {
      hide Positions, And, Not, BitAt, Below, HasBit, Pow2;
      ghost var ids := threadIds[..threadCount];
      ghost var final := ResumeBelow(adapter.oracle, adapter.world, ids, Positions(ownedMask), threadCount,
                                     failedThreadId, true);
      var index := threadCount;
      while index != 0
        invariant 0 <= index <= threadCount && Valid()
        invariant ResumeBelow(adapter.oracle, adapter.world, ids, Positions(ownedMask), index,
                              failedThreadId, true) == final
      {
        index := index - 1;
        TestBit(ownedMask, index);
        RemoveBit(ownedMask, index);
        if And(ownedMask, BitAt(index)) == 0 {
          continue;
        }
        var t := threadIds[index];
        assert ids[index] == t;
        var result := adapter.Invoke(Resume, t);
        if result == 0 {
          ownedMask := And(ownedMask, Not(64, BitAt(index)));
        } else if failedThreadId == 0 {
          failedThreadId := t;
        }
      }
    }

    /** Models the resume loop of `vc_pause_begin`; its flag tells whether anything is still owned. */
    method ResumeSuspended(adapter: Adapter, n: nat) returns (rollbackFailed: bool)
      requires Valid() && n <= threadCount && Positions(ownedMask) == Below(n)
      modifies this`ownedMask, this`failedThreadId, adapter
      ensures Valid()
      ensures var r := ResumeBelow(adapter.oracle, old(adapter.world), threadIds[..threadCount],
                                   Below(n), n, old(failedThreadId), false);
              adapter.world == r.world && Positions(ownedMask) == r.owned && failedThreadId == r.failed
      ensures rollbackFailed <==> Positions(ownedMask) != {}
    {
      hide Positions, And, Not, BitAt, Below, HasBit, Pow2;
      ghost var ids := threadIds[..threadCount];
      ghost var final := ResumeBelow(adapter.oracle, adapter.world, ids, Below(n), n, failedThreadId, false);
      ghost var kept: set<nat> := {};
      rollbackFailed := false;
      var index := n;
      while index != 0
        invariant 0 <= index <= n && Valid()
        invariant ResumeBelow(adapter.oracle, adapter.world, ids, Positions(ownedMask), index,
                              failedThreadId, false) == final
        invariant rollbackFailed <==> kept != {}
        invariant Positions(ownedMask) == Below(index) + kept && forall i :: i in kept ==> index <= i
      {
        index := index - 1;
        TestBit(ownedMask, index);
        RemoveBit(ownedMask, index);
        VisitTop(index, kept);
        if And(ownedMask, BitAt(index)) == 0 {
          continue;
        }
        var t := threadIds[index];
        assert ids[index] == t;
        var result := adapter.Invoke(Resume, t);
        if result == 0 {
          ownedMask := And(ownedMask, Not(64, BitAt(index)));
        } else {
          failedThreadId := t;
          rollbackFailed := true;
          kept := kept + {index};
        }
      }
    }

    /** Models the suspend loop of `vc_pause_begin`, up to the first failure. */
    method SuspendThreads(adapter: Adapter) returns (index: nat)
      requires Valid() && ownedMask == 0
      modifies this`ownedMask, adapter
      ensures Valid() && index <= threadCount
      ensures (adapter.world, index) == SuspendFrom(adapter.oracle, old(adapter.world), threadIds[..threadCount], 0)
      ensures Positions(ownedMask) == Below(index)
    {
      hide Positions, Or, BitAt, Below, HasBit, Pow2;
      ghost var ids := threadIds[..threadCount];
      ghost var final := SuspendFrom(adapter.oracle, adapter.world, ids, 0);
      NoPositions(0);
      index := 0;
      while index < threadCount
        invariant 0 <= index <= threadCount && Valid()
        invariant SuspendFrom(adapter.oracle, adapter.world, ids, index) == final
        invariant Positions(ownedMask) == Below(index)
      {
        var t := threadIds[index];
        assert ids[index] == t;
        var result := adapter.Invoke(Suspend, t);
        if result != 0 {
          return;
        }
        InsertBit(ownedMask, index);
        ownedMask := Or(ownedMask, BitAt(index));
        index := index + 1;
      }
    }

    /** Models `vc_pause_begin`. */
    method Begin(adapter: Adapter, generation: nat, nowMs: nat, maxPauseMs: nat, ids: seq<ThreadId>)
      returns (status: Status)
      requires Valid()
      modifies this, threadIds, adapter
      ensures Valid()
      ensures Result(Value(), adapter.world, status) ==
              PauseModel.Begin(adapter.oracle, old(adapter.world), old(Value()), generation, nowMs, maxPauseMs, ids)
    {
      hide Positions, SuspendFrom, ResumeBelow, ValidThreads, Below;
      if generation == 0 || maxPauseMs == 0 || maxPauseMs > MAX_DURATION_MS || nowMs > UINT64_MAX - maxPauseMs {
        return InvalidArgument;
      }
      NoPositions(ownedMask);
      if active || ownedMask != 0 {
        return AlreadyActive;
      }
      var valid := ValidateThreads(ids);
      if !valid {
        return InvalidThreads;
      }
      Start(generation, nowMs, maxPauseMs, ids);
      ghost var started := Value();
      var index := SuspendThreads(adapter);
      if index < threadCount {
        status := RollBack(adapter, index);
        return;
      }
      failedThreadId := 0;
      return Ok;
    }

    /** Models the rollback of `vc_pause_begin` after the suspension at `index` has failed. */
    method RollBack(adapter: Adapter, index: nat) returns (status: Status)
      requires Valid() && index < threadCount && Positions(ownedMask) == Below(index)
      modifies this, threadIds, adapter
      ensures Valid()
      ensures var before := old(Value());
              var r := ResumeBelow(adapter.oracle, old(adapter.world), before.threads, before.owned, index,
                                   before.threads[index], false);
              && adapter.world == r.world
              && status == (if r.owned == {} then SuspendFailed else RollbackFailed)
              && Value() == if r.owned == {} then CLEARED else before.(owned := r.owned, failed := r.failed)
    {
      hide Positions, ResumeBelow;
      failedThreadId := threadIds[index];
      assert threadIds[..threadCount][index] == threadIds[index];
      var rollbackFailed := ResumeSuspended(adapter, index);
      NoPositions(ownedMask);
      if ownedMask == 0 {
        Clear();
        return SuspendFailed;
      }
      return if rollbackFailed then RollbackFailed else SuspendFailed;
    }

    /** Models the part of `vc_pause_begin` that records the new transaction. */
    method Start(generation: nat, nowMs: nat, maxPauseMs: nat, ids: seq<ThreadId>)
      requires Valid() && |ids| <= MAX_THREADS
      modifies this, threadIds
      ensures Valid() && ownedMask == 0 && threadCount == |ids|
      ensures Value() == Pause(generation, nowMs, nowMs + maxPauseMs, {}, ids, 0, true)
    {
      Clear();
      assert Value().failed == 0 && Value().owned == {};
      NoPositions(ownedMask);
      CopyIds(ids, threadIds);
      targetGeneration, startedMs, deadlineMs := generation, nowMs, nowMs + maxPauseMs;
      threadCount, active := |ids|, true;
      NoPositions(0);
    }

    /** Models `vc_pause_end`. */
    method End(adapter: Adapter, generation: nat) returns (status: Status)
      requires Valid()
      modifies this, threadIds, adapter
      ensures Valid()
      ensures Result(Value(), adapter.world, status) ==
              PauseModel.End(adapter.oracle, old(adapter.world), old(Value()), generation)
    {
      if generation == 0 {
        return InvalidArgument;
      }
      if !active {
        return NotActive;
      }
      if targetGeneration != generation {
        return StaleTarget;
      }
      failedThreadId := 0;
      ResumeOwned(adapter);
      NoPositions(ownedMask);
      if ownedMask != 0 {
        return ResumeFailed;
      }
      Clear();
      return Ok;
    }

    /** Models `vc_pause_tick`. */
    method Tick(adapter: Adapter, generation: nat, nowMs: nat) returns (status: Status)
      requires Valid()
      modifies this, threadIds, adapter
      ensures Valid()
      ensures Result(Value(), adapter.world, status) ==
              PauseModel.Tick(adapter.oracle, old(adapter.world), old(Value()), generation, nowMs)
    {
      if generation == 0 {
        return InvalidArgument;
      }
      if !active {
        return NotActive;
      }
      if targetGeneration != generation {
        return StaleTarget;
      }
      if nowMs >= startedMs && nowMs < deadlineMs {
        return Ok;
      }
      status := End(adapter, generation);
      if status == Ok {
        status := Expired;
      }
    }

    /** Models `vc_pause_abandon`. */
    method Abandon(generation: nat, ghost world: World) returns (status: Status)
      requires Valid()
      modifies this, threadIds
      ensures Valid()
      ensures Result(Value(), world, status) == PauseModel.Abandon(world, old(Value()), generation)
    {
      if generation == 0 {
        return InvalidArgument;
      }
      if !active {
        return NotActive;
      }
      if targetGeneration != generation {
        return StaleTarget;
      }
      Clear();
      return Ok;
    }
  }
}
