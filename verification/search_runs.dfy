/**
  Whole runs of search calls. Each call reads its arguments from the memory it finds, which the caller
  may have changed since the call before; what a call delivers is read back from the memory it leaves.
 */
module SearchRuns {
  import opened Bits
  import opened SearchValues
  import opened SearchSpec
  import opened FlatMemory
  import opened SearchEngine
  import opened SearchEffects

  // ----- single calls -----------------------------------------------------------------------

  predicate ScanAccepted(p: Platform, m: seq<byte>, c: Call) {
    Callable(p, |m|, c) && InitialStatus(p, m, c) == Ok
  }

  /** A refinement and the memory it is called on. */
  datatype Step = Step(memory: seq<byte>, call: RefineCall)

  predicate Accepted(p: Platform, s: Step) {
    RefineCallable(p, |s.memory|, s.call) && RefineStatus(p, s.memory, s.call) == Ok
  }

  ghost function MemoryAfterScan(p: Platform, m: seq<byte>, c: Call): (r: seq<byte>)
    requires ScanAccepted(p, m, c)
    ensures HasEffect(p, m, r, c, InitialFound(p, m, c))
  {
    InitialEffect(p, m, c);
    Commit(p, m, c, InitialFound(p, m, c))
  }

  ghost function MemoryAfter(p: Platform, s: Step): (r: seq<byte>)
    requires Accepted(p, s)
    ensures HasEffect(p, s.memory, r, s.call.scan, RefineFound(p, s.memory, s.call))
  {
    RefineEffect(p, s.memory, s.call);
    Commit(p, s.memory, s.call.scan, RefineFound(p, s.memory, s.call))
  }

  /** The delivered offsets, as many as the count cell says. */
  ghost function ListIn(p: Platform, m: seq<byte>, c: Call): seq<nat>
    requires c.written + SizeBytes(p) <= |m| && c.out + 4 * SizeAt(p, m, c.written) <= |m|
  {
    Words(m, c.out, SizeAt(p, m, c.written))
  }

  /** The list a scan leaves in its output buffer. */
  ghost function ScanList(p: Platform, m: seq<byte>, c: Call): (r: seq<nat>)
    requires ScanAccepted(p, m, c)
    ensures r == InitialFound(p, m, c).written
  {
    ListIn(p, MemoryAfterScan(p, m, c), c)
  }

  /** The list a refinement leaves in its output buffer. */
  ghost function StepList(p: Platform, s: Step): (r: seq<nat>)
    requires Accepted(p, s)
    ensures r == RefineFound(p, s.memory, s.call).written
  {
    ListIn(p, MemoryAfter(p, s), s.call.scan)
  }

  /** The number of matches a refinement stores, delivered or not. */
  ghost function StoredTotal(p: Platform, s: Step): (r: nat)
    requires Accepted(p, s)
    ensures r == RefineFound(p, s.memory, s.call).total
  {
    SizeAt(p, MemoryAfter(p, s), s.call.scan.total)
  }

  /** The candidates a refinement finds in its memory. */
  function CandidatesOf(s: Step): seq<nat>
    requires s.call.candidates + 4 * s.call.count <= |s.memory|
  {
    Words(s.memory, s.call.candidates, s.call.count)
  }

  lemma AcceptedObjects(p: Platform, s: Step)
    requires Accepted(p, s)
    ensures s.call.candidates + 4 * s.call.count <= |s.memory|
    ensures s.call.scan.query + QUERY_BYTES <= |s.memory| && QueryAt(s.memory, s.call.scan.query).Some?
  {
  }

  function QueryOf(s: Step): Query
    requires s.call.scan.query + QUERY_BYTES <= |s.memory| && QueryAt(s.memory, s.call.scan.query).Some?
  {
    QueryAt(s.memory, s.call.scan.query).value
  }

  function RoundOf(p: Platform, s: Step): Round
    requires Accepted(p, s)
  {
    Round(QueryOf(s), Get(s.memory, s.call.previous, s.call.scan.size),
          Get(s.memory, s.call.scan.current, s.call.scan.size), s.call.scan.capacity)
  }

  /** The status the call returns. */
  function StatusOf(p: Platform, s: Step): Status
    requires Accepted(p, s)
  {
    FoundStatus(RefineFound(p, s.memory, s.call))
  }

  // ----- runs -------------------------------------------------------------------------------

  /** The list in the caller's hands after a scan and some refinements. */
  ghost function CurrentList(p: Platform, m: seq<byte>, c: Call, steps: seq<Step>): seq<nat>
    requires ScanAccepted(p, m, c) && forall i :: 0 <= i < |steps| ==> Accepted(p, steps[i])
  {
    if steps == [] then ScanList(p, m, c) else StepList(p, steps[|steps| - 1])
  }

  /** Every call is accepted, and its candidates are the list the call before it delivered. */
  ghost predicate IsRun(p: Platform, m: seq<byte>, c: Call, steps: seq<Step>) {
    && ScanAccepted(p, m, c)
    && (forall i :: 0 <= i < |steps| ==> Accepted(p, steps[i]))
    && (forall i :: 0 <= i < |steps| ==> Continues(p, m, c, steps, i))
  }

  ghost predicate Continues(p: Platform, m: seq<byte>, c: Call, steps: seq<Step>, i: nat)
    requires i < |steps| && ScanAccepted(p, m, c) && forall j :: 0 <= j < |steps| ==> Accepted(p, steps[j])
  {
    AcceptedObjects(p, steps[i]);
    CandidatesOf(steps[i]) == CurrentList(p, m, c, steps[..i])
  }

  /** The call that delivered the current list. */
  function LastCall(c: Call, steps: seq<Step>): Call {
    if steps == [] then c else steps[|steps| - 1].call.scan
  }

  /** The memory that call left. */
  ghost function LastMemory(p: Platform, m: seq<byte>, c: Call, steps: seq<Step>): seq<byte>
    requires ScanAccepted(p, m, c) && forall i :: 0 <= i < |steps| ==> Accepted(p, steps[i])
  {
    if steps == [] then MemoryAfterScan(p, m, c) else MemoryAfter(p, steps[|steps| - 1])
  }

  /** The next refinement gets the output buffer of `c`, with the stored count and its bytes as `c` left them. */
  ghost predicate HandedOn(p: Platform, after: seq<byte>, c: Call, next: Step) {
    && c.written + SizeBytes(p) <= |after|
    && next.call.candidates == c.out && next.call.count == SizeAt(p, after, c.written)
    && var n := 4 * next.call.count;
       && c.out + n <= |after| && c.out + n <= |next.memory|
       && Get(next.memory, c.out, n) == Get(after, c.out, n)
  }

  lemma HandedOnList(p: Platform, after: seq<byte>, c: Call, next: Step)
    requires HandedOn(p, after, c, next)
    ensures CandidatesOf(next) == ListIn(p, after, c)
  {
    SameWords(next.memory, after, c.out, next.call.count);
  }

  lemma RunExtends(p: Platform, m: seq<byte>, c: Call, steps: seq<Step>, next: Step)
    requires IsRun(p, m, c, steps) && Accepted(p, next)
    requires next.call.candidates + 4 * next.call.count <= |next.memory|
    requires CandidatesOf(next) == CurrentList(p, m, c, steps)
    ensures IsRun(p, m, c, steps + [next])
  {
    hide Accepted, ScanAccepted, CandidatesOf, CurrentList;
    var longer, n := steps + [next], |steps|;
    assert longer[..n] == steps && longer[n] == next;
    AcceptedObjects(p, next);
    forall i | 0 <= i <= n ensures Continues(p, m, c, longer, i) {
      if i < n {
        assert Continues(p, m, c, steps, i);
        assert longer[..i] == steps[..i] && longer[i] == steps[i];
      }
    }
  }

  /**
    A caller that hands on the last output buffer, the scan's or a refinement's, continues the run:
    whatever else in memory has changed since, and in place or not.
   */
  lemma PassingOn(p: Platform, m: seq<byte>, c: Call, steps: seq<Step>, next: Step)
    requires IsRun(p, m, c, steps) && Accepted(p, next)
    requires HandedOn(p, LastMemory(p, m, c, steps), LastCall(c, steps), next)
    ensures IsRun(p, m, c, steps + [next])
  {
    HandedOnList(p, LastMemory(p, m, c, steps), LastCall(c, steps), next);
    hide Accepted, ScanAccepted, HandedOn, Continues;
    RunExtends(p, m, c, steps, next);
  }

  lemma WordOfBytes(m: seq<byte>, a: nat, n: nat, i: nat)
    requires i + 4 <= n && a + n <= |m|
    ensures WordAt(m, a + i) == LittleEndian(Get(m, a, n)[i..i + 4])
  {
    var field, word := Get(m, a, n), Get(m, a + i, 4);
    var slice := field[i..i + 4];
    forall j | 0 <= j < 4 ensures word[j] == slice[j] {
      assert field[i + j] == m[a + i + j];
    }
    assert word == slice;
  }

  lemma SameWords(m: seq<byte>, m': seq<byte>, a: nat, n: nat)
    requires a + 4 * n <= |m| && a + 4 * n <= |m'| && Get(m, a, 4 * n) == Get(m', a, 4 * n)
    ensures Words(m, a, n) == Words(m', a, n)
  {
    forall k | 0 <= k < n ensures WordAt(m, a + 4 * k) == WordAt(m', a + 4 * k) {
      WordOfBytes(m, a, 4 * n, 4 * k);
      WordOfBytes(m', a, 4 * n, 4 * k);
    }
  }

  function Rounds(p: Platform, steps: seq<Step>): seq<Round>
    requires forall i :: 0 <= i < |steps| ==> Accepted(p, steps[i])
  {
    if steps == [] then [] else Rounds(p, steps[..|steps| - 1]) + [RoundOf(p, steps[|steps| - 1])]
  }

  function FirstQuery(p: Platform, m: seq<byte>, c: Call): GoodQuery
    requires ScanAccepted(p, m, c)
  {
    QueryAt(m, c.query).value
  }

  function FirstRound(p: Platform, m: seq<byte>, c: Call): Round
    requires ScanAccepted(p, m, c)
  {
    var snapshot := Get(m, c.current, c.size);
    Round(FirstQuery(p, m, c), snapshot, snapshot, c.capacity)
  }

  predicate NoneTruncated(p: Platform, m: seq<byte>, c: Call, steps: seq<Step>)
    requires ScanAccepted(p, m, c) && forall i :: 0 <= i < |steps| ==> Accepted(p, steps[i])
  {
    FoundStatus(InitialFound(p, m, c)) == Ok && forall i :: 0 <= i < |steps| ==> StatusOf(p, steps[i]) == Ok
  }

  lemma RunPrefix(p: Platform, m: seq<byte>, c: Call, steps: seq<Step>)
    requires IsRun(p, m, c, steps) && steps != []
    ensures var init, last := steps[..|steps| - 1], steps[|steps| - 1];
            && IsRun(p, m, c, init) && Accepted(p, last)
            && last.call.candidates + 4 * last.call.count <= |last.memory|
            && CandidatesOf(last) == CurrentList(p, m, c, init)
            && (NoneTruncated(p, m, c, steps) <==> NoneTruncated(p, m, c, init) && StatusOf(p, last) == Ok)
  {
    hide Accepted, ScanAccepted, CurrentList, StatusOf, InitialFound, CandidatesOf;
    var init, n := steps[..|steps| - 1], |steps| - 1;
    AcceptedObjects(p, steps[n]);
    assert forall i :: 0 <= i < n ==> init[i] == steps[i];
    forall i | 0 <= i < n ensures Continues(p, m, c, init, i) {
      assert Continues(p, m, c, steps, i);
      assert init[..i] == steps[..i];
    }
    assert Continues(p, m, c, steps, n);
  }

  lemma RoundsEmpty(p: Platform, first: Round)
    ensures [first] + Rounds(p, []) == [first]
  {
  }

  lemma RoundsExtend(p: Platform, first: Round, steps: seq<Step>)
    requires steps != [] && forall i :: 0 <= i < |steps| ==> Accepted(p, steps[i])
    ensures [first] + Rounds(p, steps) == ([first] + Rounds(p, steps[..|steps| - 1])) + [RoundOf(p, steps[|steps| - 1])]
  {
  }

  lemma NoRefinement(p: Platform, m: seq<byte>, c: Call)
    requires ScanAccepted(p, m, c)
    ensures NoneTruncated(p, m, c, []) <==> FoundStatus(InitialFound(p, m, c)) == Ok
  {
  }

  lemma ScanIsFirstRound(p: Platform, m: seq<byte>, c: Call)
    requires ScanAccepted(p, m, c)
    ensures var q := FirstQuery(p, m, c);
            var offsets := Offsets(c.size, Width(q.scalar), q.stride);
            && ScanList(p, m, c) == Chain(offsets, [FirstRound(p, m, c)])
            && (NeverTruncated(offsets, [FirstRound(p, m, c)]) <==> FoundStatus(InitialFound(p, m, c)) == Ok)
  {
    hide InitialStatus, Callable, Chain, NeverTruncated, InitialFound, Offsets;
    InitialCallIsSession(p, m, c);
  }

  lemma StepIsNextRound(p: Platform, s: Step, start: seq<nat>, rounds: seq<Round>)
    requires Accepted(p, s) && s.call.candidates + 4 * s.call.count <= |s.memory|
    requires CandidatesOf(s) == Chain(start, rounds)
    ensures StepList(p, s) == Chain(start, rounds + [RoundOf(p, s)])
    ensures NeverTruncated(start, rounds + [RoundOf(p, s)]) <==> NeverTruncated(start, rounds) && StatusOf(p, s) == Ok
  {
    hide RefineStatus, RefineCallable, Chain, NeverTruncated, RefineFound;
    CallsAreRounds(p, s.memory, s.call, start, rounds);
  }

  /** The list after any run is the session's result, and it is untruncated exactly when every call returned OK. */
  lemma {:induction false} RunIsSession(p: Platform, m: seq<byte>, c: Call, steps: seq<Step>)
    requires IsRun(p, m, c, steps)
    ensures var q, rounds := FirstQuery(p, m, c), Rounds(p, steps);
            var offsets := Offsets(c.size, Width(q.scalar), q.stride);
            && CurrentList(p, m, c, steps) == Chain(offsets, [FirstRound(p, m, c)] + rounds)
            && (NeverTruncated(offsets, [FirstRound(p, m, c)] + rounds) <==> NoneTruncated(p, m, c, steps))
    decreases |steps|
  {
    hide Accepted, ScanAccepted, FirstRound, FirstQuery, RoundOf, Rounds, CandidatesOf, InitialFound, FoundStatus;
    hide StatusOf, Chain, NeverTruncated, Continues, Offsets, NoneTruncated;
    var q, first := FirstQuery(p, m, c), FirstRound(p, m, c);
    if steps == [] {
      ScanIsFirstRound(p, m, c);
      NoRefinement(p, m, c);
      RoundsEmpty(p, first);
    } else {
      var init, last := steps[..|steps| - 1], steps[|steps| - 1];
      RunPrefix(p, m, c, steps);
      RunIsSession(p, m, c, init);
      StepIsNextRound(p, last, Offsets(c.size, Width(q.scalar), q.stride), [first] + Rounds(p, init));
      RoundsExtend(p, first, steps);
    }
  }

  /**
    What the caller holds after a scan and any refinements: ascending aligned offsets at which every
    call's query holds on that call's own snapshots, and all of them if every call returned OK.
   */
  lemma RunIsConjunction(p: Platform, m: seq<byte>, c: Call, steps: seq<Step>)
    requires IsRun(p, m, c, steps)
    ensures var q, r := FirstQuery(p, m, c), CurrentList(p, m, c, steps);
            var all := [FirstRound(p, m, c)] + Rounds(p, steps);
            && Ascending(r)
            && (forall x :: x in r ==>
                  x % q.stride == 0 && x + Width(q.scalar) <= c.size && SatisfiesAll(all, x))
            && (NoneTruncated(p, m, c, steps) ==>
                  forall x: nat ::
                    x % q.stride == 0 && x + Width(q.scalar) <= c.size && SatisfiesAll(all, x) ==> x in r)
  {
    var q, snapshot := FirstQuery(p, m, c), Get(m, c.current, c.size);
    assert FirstRound(p, m, c) == Round(q, snapshot, snapshot, c.capacity);
    hide IsRun, Accepted, ScanAccepted, FirstRound, FirstQuery, NoneTruncated, CurrentList, Rounds;
    hide NeverTruncated, SatisfiesAll;
    RunIsSession(p, m, c, steps);
    SessionIsConjunction(q, snapshot, c.capacity, Rounds(p, steps));
  }

  /** After any run, no refinement of at least that size and no larger width refuses the list as candidates. */
  lemma RunStaysValid(p: Platform, m: seq<byte>, c: Call, steps: seq<Step>, next: Step)
    requires IsRun(p, m, c, steps)
    requires RefineCallable(p, |next.memory|, next.call) && CommonStatus(p, next.memory, next.call.scan) == Ok
    requires next.call.candidates + 4 * next.call.count <= |next.memory|
    requires CandidatesOf(next) == CurrentList(p, m, c, steps)
    requires c.size <= next.call.scan.size && Width(QueryOf(next).scalar) <= Width(FirstQuery(p, m, c).scalar)
    ensures RefineStatus(p, next.memory, next.call) != InvalidCandidates
  {
    hide Continues, CurrentList, CommonStatus, ScanAccepted, Accepted, SatisfiesAll, FirstQuery;
    var r := CurrentList(p, m, c, steps);
    RunIsConjunction(p, m, c, steps);
    assert forall i :: 0 <= i < |r| ==> r[i] in r;
  }

  // ----- refinements by trend ---------------------------------------------------------------

  /** The constant and the stride of a query play no part in a comparison with the previous snapshot. */
  lemma {:induction false} TrendIgnoresConstant(q: Query, q': Query, previous: seq<byte>, current: seq<byte>,
                                            offsets: seq<nat>)
    requires q.scalar == q'.scalar && q.relation == q'.relation && !q.relation.Equal? && !q.relation.NotEqual?
    ensures Select(q, previous, current, offsets) == Select(q', previous, current, offsets)
    decreases |offsets|
  {
    if offsets != [] {
      TrendIgnoresConstant(q, q', previous, current, offsets[..|offsets| - 1]);
    }
  }

  /** An accepted refinement of the given snapshots and candidates by one relation, wherever they lie in memory. */
  ghost predicate RefinesBy(p: Platform, s: Step, t: ScalarType, r: Relation,
                            previous: seq<byte>, current: seq<byte>, candidates: seq<nat>) {
    && Accepted(p, s) && QueryOf(s).scalar == t && QueryOf(s).relation == r
    && RoundOf(p, s).previous == previous && RoundOf(p, s).current == current
    && Words(s.memory, s.call.candidates, s.call.count) == candidates
  }

  lemma AcceptedCandidates(p: Platform, s: Step)
    requires Accepted(p, s)
    ensures s.call.candidates + 4 * s.call.count <= |s.memory|
    ensures ValidCandidates(CandidatesOf(s), s.call.scan.size, Width(QueryOf(s).scalar))
  {
  }

  lemma DeliveredWhole(matches: seq<nat>, capacity: nat)
    ensures var found := Deliver(matches, capacity);
            found.total == |matches| && (!found.truncated ==> found.written == matches)
  {
  }

  lemma StepSelects(p: Platform, s: Step)
    requires Accepted(p, s) && s.call.candidates + 4 * s.call.count <= |s.memory|
    ensures var r := RoundOf(p, s);
            var matches := Select(r.query, r.previous, r.current, CandidatesOf(s));
            StoredTotal(p, s) == |matches| && (StatusOf(p, s) == Ok ==> StepList(p, s) == matches)
  {
    hide Select, Accepted, StoredTotal, StepList, Deliver;
    var r := RoundOf(p, s);
    DeliveredWhole(Select(r.query, r.previous, r.current, CandidatesOf(s)), r.capacity);
  }

  lemma RefinementSelects(p: Platform, s: Step, q: Query, previous: seq<byte>, current: seq<byte>, candidates: seq<nat>)
    requires RefinesBy(p, s, q.scalar, q.relation, previous, current, candidates)
    requires !q.relation.Equal? && !q.relation.NotEqual?
    ensures var matches := Select(q, previous, current, candidates);
            && StoredTotal(p, s) == |matches|
            && (StatusOf(p, s) == Ok ==> StepList(p, s) == matches)
            && ValidCandidates(candidates, |current|, Width(q.scalar)) && |previous| == |current|
  {
    AcceptedCandidates(p, s);
    hide Accepted, Select, ValidCandidates, StoredTotal, StepList, StatusOf;
    StepSelects(p, s);
    TrendIgnoresConstant(QueryOf(s), q, previous, current, candidates);
  }

  /**
    Four refinements of the same candidates and snapshots, each by its own call on its own memory: the
    totals stored by INCREASED, DECREASED and UNCHANGED add up to the number of candidates and the first
    two to that of CHANGED, and if none is truncated the delivered lists are the partition.
   */
  lemma TrendTotals(p: Platform, t: ScalarType, previous: seq<byte>, current: seq<byte>, candidates: seq<nat>,
                    up: Step, down: Step, same: Step, changed: Step)
    requires RefinesBy(p, up, t, Increased, previous, current, candidates)
    requires RefinesBy(p, down, t, Decreased, previous, current, candidates)
    requires RefinesBy(p, same, t, Unchanged, previous, current, candidates)
    requires RefinesBy(p, changed, t, Changed, previous, current, candidates)
    ensures StoredTotal(p, up) + StoredTotal(p, down) + StoredTotal(p, same) == up.call.count
    ensures StoredTotal(p, up) + StoredTotal(p, down) == StoredTotal(p, changed)
    ensures StatusOf(p, up) == StatusOf(p, down) == StatusOf(p, same) == StatusOf(p, changed) == Ok ==>
              Splits(StepList(p, up), StepList(p, down), StepList(p, same), StepList(p, changed), candidates)
  {
    hide Select, RefineFound;
    var q := Query(t, Increased, 0, 1);
    RefinementSelects(p, up, q, previous, current, candidates);
    RefinementSelects(p, down, q.(relation := Decreased), previous, current, candidates);
    RefinementSelects(p, same, q.(relation := Unchanged), previous, current, candidates);
    RefinementSelects(p, changed, q.(relation := Changed), previous, current, candidates);
    TrendPartition(q, previous, current, candidates);
  }
}
