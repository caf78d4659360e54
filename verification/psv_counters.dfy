/**
  The report's counters are declarative counts over the parse's own output lists.
 */
module PsvCounters {
  import opened Bits
  import opened PsvText
  import opened PsvMachine
  import opened PsvGraph

  ghost function Count<T>(s: seq<T>, p: T -> bool): nat {
    if s == [] then 0
    else Count(s[..|s| - 1], p) + (if p(s[|s| - 1]) then 1 else 0)
  }

  lemma CountAppend<T>(s: seq<T>, x: T, p: T -> bool)
    ensures Count(s + [x], p) == Count(s, p) + (if p(x) then 1 else 0)
  {
    assert (s + [x])[..|s|] == s;
  }

  lemma CountLastUpdate<T>(s: seq<T>, x: T, p: T -> bool)
    requires s != []
    ensures Count(s[|s| - 1 := x], p) == Count(s[..|s| - 1], p) + (if p(x) then 1 else 0)
  {
    assert s[|s| - 1 := x][..|s| - 1] == s[..|s| - 1];
  }

  /** A selector that is well placed in its fields. */
  predicate InRangeSelector(o: Operation) {
    o.kind.SelectModuleBase? && o.rec.address <= 0xff && o.rec.value <= 1
  }

  /** A selector is rejected for its fields or for not being its cheat's first operation. */
  predicate RejectedAt(operations: seq<Operation>, j: nat)
    requires j < |operations|
  {
    && operations[j].kind.SelectModuleBase?
    && (!InRangeSelector(operations[j]) || (j > 0 && operations[j - 1].cheatIndex == operations[j].cheatIndex))
  }

  ghost function RejectedSelectors(operations: seq<Operation>): nat {
    if operations == [] then 0
    else RejectedSelectors(operations[..|operations| - 1])
         + (if RejectedAt(operations, |operations| - 1) then 1 else 0)
  }

  ghost predicate HasTypedWrite(operations: seq<Operation>, lo: nat, hi: nat)
    requires hi <= |operations|
  {
    exists k :: lo <= k < hi && IsTypedWrite(operations[k].kind)
  }

  predicate OpensWithSelector(c: Cheat, operations: seq<Operation>)
    requires RangeEnd(c) <= |operations|
  {
    c.operationCount > 0 && InRangeSelector(operations[c.firstOperationIndex])
  }

  /** An accepted selector that no typed write of the same cheat follows. */
  ghost predicate Dangling(c: Cheat, operations: seq<Operation>) {
    && RangeEnd(c) <= |operations| && OpensWithSelector(c, operations)
    && !HasTypedWrite(operations, c.firstOperationIndex, RangeEnd(c))
  }

  ghost function DanglingCheats(cheats: seq<Cheat>, operations: seq<Operation>): nat {
    if cheats == [] then 0
    else DanglingCheats(cheats[..|cheats| - 1], operations)
         + (if Dangling(cheats[|cheats| - 1], operations) then 1 else 0)
  }

  ghost predicate LinesCounted(st: State) {
    && st.tally.malformed == Count(st.lines, (l: Line) => l.kind.MalformedLine?)
    && |st.operations| == Count(st.lines, (l: Line) => l.kind.CodeLine?)
    && |st.cheats| == Count(st.lines, (l: Line) => l.kind.CheatHeaderLine?)
  }

  ghost predicate OperationsCounted(st: State) {
    st.tally.unsupported == Count(st.operations, (o: Operation) => o.kind.OpaqueOperation?)
  }

  ghost predicate NonDirectCounted(st: State) {
    st.tally.nonDirect == Count(st.cheats, (c: Cheat) => !c.translationState.DirectOnly?)
  }

  ghost predicate LimitsCounted(st: State) {
    st.tally.limits ==
      Count(st.cheats, (c: Cheat) => c.description.length > 65) +
      Count(st.cheats, (c: Cheat) => c.operationCount > 200) +
      (if |st.cheats| > 50 then 1 else 0)
  }

  ghost predicate SequencesCounted(st: State, closed: seq<Cheat>) {
    st.tally.invalid == RejectedSelectors(st.operations) + DanglingCheats(closed, st.operations)
  }

  /** Cheats that no further line can change. */
  function Closed(st: GoodState): seq<Cheat> {
    if st.cur.active.At? then st.cheats[..|st.cheats| - 1] else st.cheats
  }

  /** The per-cheat variables say what has been recorded of the open cheat. */
  ghost predicate Tracks(st: GoodState) {
    if st.cur.active.NoIndex? then st.cur == Fresh(NoIndex)
    else
      var c := st.cheats[|st.cheats| - 1];
      && RangeEnd(c) == |st.operations|
      && st.cur.operations == c.operationCount
      && st.cur.tainted == !c.translationState.DirectOnly?
      && st.cur.baseActive == OpensWithSelector(c, st.operations)
      && st.cur.writeSeen == (st.cur.baseActive && HasTypedWrite(st.operations, c.firstOperationIndex, |st.operations|))
  }

  // ----- lines and operations ---------------------------------------------------------------

  /** The counters a new line advances, by its kind. */
  ghost predicate LineAdvances(st: State, st': State, line: Line) {
    && st'.lines == st.lines + [line]
    && st'.tally.malformed == st.tally.malformed + (if line.kind.MalformedLine? then 1 else 0)
    && |st'.operations| == |st.operations| + (if line.kind.CodeLine? then 1 else 0)
    && |st'.cheats| == |st.cheats| + (if line.kind.CheatHeaderLine? then 1 else 0)
  }

  lemma StepAdvances(st: GoodState, item: Item)
    ensures var st' := Step(st, item.line, item.token);
            |st'.lines| == |st.lines| + 1 && LineAdvances(st, st', st'.lines[|st.lines|])
  {
    StepShape(st, item);
  }

  lemma LinesCountedAppend(st: State, st': State, line: Line)
    requires LinesCounted(st) && LineAdvances(st, st', line)
    ensures LinesCounted(st')
  {
    CountAppend(st.lines, line, (l: Line) => l.kind.MalformedLine?);
    CountAppend(st.lines, line, (l: Line) => l.kind.CodeLine?);
    CountAppend(st.lines, line, (l: Line) => l.kind.CheatHeaderLine?);
  }

  lemma LinesCountedStep(st: GoodState, item: Item)
    requires LinesCounted(st)
    ensures LinesCounted(Step(st, item.line, item.token))
  {
    StepAdvances(st, item);
    var st' := Step(st, item.line, item.token);
    LinesCountedAppend(st, st', st'.lines[|st.lines|]);
  }

  lemma OperationsCountedStep(st: GoodState, item: Item)
    requires OperationsCounted(st)
    ensures OperationsCounted(Step(st, item.line, item.token))
  {
    hide Count;
    StepShape(st, item);
    if item.token.Code? && st.cur.active.At? {
      CountAppend(st.operations, OperationFor(st, item.token.rec), (o: Operation) => o.kind.OpaqueOperation?);
    }
  }

  // ----- translation states -----------------------------------------------------------------

  lemma TaintCounted(st: GoodState, t: TranslationState)
    requires !t.DirectOnly? && NonDirectCounted(st)
    requires st.cur.active.At? ==> st.cur.tainted == !st.cheats[|st.cheats| - 1].translationState.DirectOnly?
    ensures var st' := Taint(st, t);
            NonDirectCounted(st') &&
            (st.cur.active.At? ==> st'.cur.tainted && !st'.cheats[|st'.cheats| - 1].translationState.DirectOnly?)
  {
    if st.cur.active.At? {
      CountLastUpdate(st.cheats, Taint(st, t).cheats[|st.cheats| - 1], (c: Cheat) => !c.translationState.DirectOnly?);
    }
  }

  lemma FinalizeCounted(st: GoodState)
    requires NonDirectCounted(st) && Tracks(st)
    ensures NonDirectCounted(Finalize(st))
  {
    TaintCounted(CountInvalid(st), Malformed);
  }

  lemma JudgeCounted(st: GoodState, r: CodeRecord)
    requires NonDirectCounted(st) && Tracks(st)
    ensures NonDirectCounted(Judge(st, r))
  {
    var kind := KindOf(r.code);
    if kind.SelectModuleBase? {
      if SelectorAccepted(st.cur, r) {
        TaintCounted(st.(cur := st.cur.(baseActive := true, writeSeen := false)), ModuleRelative);
      } else {
        TaintCounted(CountInvalid(st), Malformed);
      }
    } else if kind.OpaqueOperation? {
      TaintCounted(st.(tally := st.tally.(unsupported := st.tally.unsupported + 1)), RequiresUnsupported);
    }
  }

  lemma NonDirectBoundary(st: GoodState, item: Item)
    requires NonDirectCounted(st) && Tracks(st) && (item.token.Header? || item.token.BadHeader?)
    ensures NonDirectCounted(Step(st, item.line, item.token))
  {
    FinalizeCounted(st);
    if item.token.Header? {
      CountAppend(Finalize(st).cheats, OpenCheat(Finalize(st), item.line, item.token).cheats[|st.cheats|],
                  (c: Cheat) => !c.translationState.DirectOnly?);
    } else {
      TaintCounted(CountInvalid(st), Malformed);
      TaintCounted(Finalize(st), Malformed);
    }
  }

  lemma NonDirectOperation(st: GoodState, item: Item)
    requires NonDirectCounted(st) && Tracks(st) && item.token.Code? && st.cur.active.At?
    ensures NonDirectCounted(Step(st, item.line, item.token))
  {
    hide Count;
    var p := (c: Cheat) => !c.translationState.DirectOnly?;
    var r := item.token.rec;
    JudgeCounted(st, r);
    JudgeShape(st, r);
    var judged := Judge(st, r);
    var c := judged.cheats[|st.cheats| - 1];
    CountLastUpdate(judged.cheats, c.(operationCount := c.operationCount + 1), p);
    CountLastUpdate(judged.cheats, c, p);
    assert judged.cheats[|judged.cheats| - 1 := c] == judged.cheats;
  }

  lemma NonDirectStep(st: GoodState, item: Item)
    requires NonDirectCounted(st) && Tracks(st)
    ensures NonDirectCounted(Step(st, item.line, item.token))
  {
    match item.token
    case Blank =>
    case Comment =>
    case Header(_, _, _) => NonDirectBoundary(st, item);
    case BadHeader => NonDirectBoundary(st, item);
    case BadCode => TaintCounted(st, Malformed);
    case Code(r) => if st.cur.active.At? { NonDirectOperation(st, item); }
    case OpaqueText => TaintCounted(st, RequiresUnsupported);
  }

  // ----- limits -----------------------------------------------------------------------------

  /** Counts that do not look at translation states agree on lists of the same shape. */
  lemma {:induction false} CountReshaped(a: seq<Cheat>, b: seq<Cheat>, p: Cheat -> bool)
    requires SameShape(a, b)
    requires forall c: Cheat, t :: p(c.(translationState := t)) == p(c)
    ensures Count(a, p) == Count(b, p)
    decreases |a|
  {
    if a != [] {
      CountReshaped(a[..|a| - 1], b[..|b| - 1], p);
      var n := |a| - 1;
      assert p(a[n].(translationState := b[n].translationState)) == p(a[n]);
    }
  }

  lemma LimitsReshaped(a: seq<Cheat>, b: seq<Cheat>)
    requires SameShape(a, b)
    ensures var long := (c: Cheat) => c.description.length > 65;
            var many := (c: Cheat) => c.operationCount > 200;
            Count(a, long) == Count(b, long) && Count(a, many) == Count(b, many)
  {
    CountReshaped(a, b, (c: Cheat) => c.description.length > 65);
    CountReshaped(a, b, (c: Cheat) => c.operationCount > 200);
  }

  lemma StepLimits(st: GoodState, item: Item)
    ensures var st' := Step(st, item.line, item.token);
            st'.tally.limits ==
              if item.token.Header? then OpenCheat(st, item.line, item.token).tally.limits
              else if item.token.Code? && st.cur.active.At? then CountedOperation(st).tally.limits
              else st.tally.limits
  {
    if item.token.Code? {
      JudgeKeeps(st, item.token.rec);
    }
  }

  lemma JudgeKeeps(st: GoodState, r: CodeRecord)
    ensures Judge(st, r).tally.limits == st.tally.limits && Judge(st, r).cur.operations == st.cur.operations
  {
  }

  lemma LimitsHeader(st: GoodState, item: Item)
    requires LimitsCounted(st) && item.token.Header?
    ensures LimitsCounted(OpenCheat(st, item.line, item.token))
  {
    var cheat := OpenCheat(st, item.line, item.token).cheats[|st.cheats|];
    CountAppend(st.cheats, cheat, (c: Cheat) => c.description.length > 65);
    CountAppend(st.cheats, cheat, (c: Cheat) => c.operationCount > 200);
  }

  lemma CountChangedLast(cheats: seq<Cheat>, c: Cheat, p: Cheat -> bool)
    requires cheats != []
    ensures var n := |cheats| - 1;
            Count(cheats[n := c], p) + (if p(cheats[n]) then 1 else 0) == Count(cheats, p) + (if p(c) then 1 else 0)
  {
    CountLastUpdate(cheats, c, p);
  }

  lemma LimitsOperation(st: GoodState)
    requires LimitsCounted(st) && st.cur.active.At? && st.cur.operations == st.cheats[|st.cheats| - 1].operationCount
    ensures LimitsCounted(CountedOperation(st))
  {
    var cheat := CountedOperation(st).cheats[|st.cheats| - 1];
    CountChangedLast(st.cheats, cheat, (c: Cheat) => c.description.length > 65);
    CountChangedLast(st.cheats, cheat, (c: Cheat) => c.operationCount > 200);
  }

  lemma LimitsStep(st: GoodState, item: Item)
    requires LimitsCounted(st) && Tracks(st)
    ensures LimitsCounted(Step(st, item.line, item.token))
  {
    hide Step;
    var st' := Step(st, item.line, item.token);
    StepShape(st, item);
    StepLimits(st, item);
    if item.token.Header? {
      LimitsHeader(st, item);
      assert SameShape(OpenCheat(st, item.line, item.token).cheats, st'.cheats);
      LimitsReshaped(OpenCheat(st, item.line, item.token).cheats, st'.cheats);
    } else if item.token.Code? && st.cur.active.At? {
      LimitsOperation(st);
      LimitsReshaped(CountedOperation(st).cheats, st'.cheats);
    } else {
      LimitsReshaped(st.cheats, st'.cheats);
    }
  }

  // ----- operation sequences ----------------------------------------------------------------

  lemma {:induction false} DanglingReshaped(a: seq<Cheat>, b: seq<Cheat>, operations: seq<Operation>)
    requires SameShape(a, b)
    ensures DanglingCheats(a, operations) == DanglingCheats(b, operations)
    decreases |a|
  {
    if a != [] {
      DanglingReshaped(a[..|a| - 1], b[..|b| - 1], operations);
      assert Dangling(a[|a| - 1], operations) == Dangling(b[|b| - 1], operations);
    }
  }

  lemma {:induction false} DanglingExtended(cheats: seq<Cheat>, operations: seq<Operation>, o: Operation)
    requires forall i :: 0 <= i < |cheats| ==> RangeEnd(cheats[i]) <= |operations|
    ensures DanglingCheats(cheats, operations + [o]) == DanglingCheats(cheats, operations)
    decreases |cheats|
  {
    if cheats != [] {
      DanglingExtended(cheats[..|cheats| - 1], operations, o);
      var c := cheats[|cheats| - 1];
      var operations' := operations + [o];
      assert forall k :: 0 <= k < |operations| ==> operations'[k] == operations[k];
      if Dangling(c, operations) {
        assert forall k :: c.firstOperationIndex <= k < RangeEnd(c) ==> !IsTypedWrite(operations'[k].kind);
      } else if OpensWithSelector(c, operations) {
        var k :| c.firstOperationIndex <= k < RangeEnd(c) && IsTypedWrite(operations[k].kind);
        assert IsTypedWrite(operations'[k].kind);
      }
    }
  }

  lemma RejectedAppend(operations: seq<Operation>, o: Operation)
    ensures RejectedSelectors(operations + [o]) ==
            RejectedSelectors(operations) + (if RejectedAt(operations + [o], |operations|) then 1 else 0)
  {
    assert (operations + [o])[..|operations|] == operations;
  }

  lemma TaintKeepsInvalid(st: GoodState, t: TranslationState)
    ensures Taint(st, t).tally.invalid == st.tally.invalid
  {
  }

  /** Finalizing settles the open cheat: all cheats are now counted. */
  lemma FinalizeSequences(st: GoodState)
    requires SequencesCounted(st, Closed(st)) && Tracks(st)
    ensures SequencesCounted(Finalize(st), Finalize(st).cheats)
  {
    FinalizeShape(st);
    DanglingReshaped(st.cheats, Finalize(st).cheats, st.operations);
    if st.cur.active.At? {
      var c := st.cheats[|st.cheats| - 1];
      assert Dangling(c, st.operations) <==> st.cur.baseActive && !st.cur.writeSeen;
    }
    TaintKeepsInvalid(CountInvalid(st), Malformed);
  }

  /** The machine rejects a selector exactly when it is rejected on the output list. */
  lemma JudgeSequences(st: GoodState, r: CodeRecord)
    requires st.cur.active.At? && Tracks(st) && Tiled(st.cheats, st.operations)
    ensures var o := OperationFor(st, r);
            Judge(st, r).tally.invalid ==
            st.tally.invalid + (if RejectedAt(st.operations + [o], |st.operations|) then 1 else 0)
  {
    var n := |st.cheats| - 1;
    var j := |st.operations|;
    var o := OperationFor(st, r);
    var operations' := st.operations + [o];
    assert operations'[j] == o;
    assert st.cur.operations != 0 <==> j > 0 && operations'[j - 1].cheatIndex == n by {
      if j > 0 {
        assert operations'[j - 1] == st.operations[j - 1];
        assert st.operations[j - 1].cheatIndex == n <==>
               st.cheats[n].firstOperationIndex <= j - 1 < RangeEnd(st.cheats[n]);
      }
    }
  }

  lemma SequencesOperation(st: GoodState, item: Item)
    requires SequencesCounted(st, Closed(st)) && Tracks(st) && Tiled(st.cheats, st.operations)
    requires item.token.Code? && st.cur.active.At?
    ensures var st' := Step(st, item.line, item.token); SequencesCounted(st', Closed(st'))
  {
    var r := item.token.rec;
    var st' := Step(st, item.line, item.token);
    var o := OperationFor(st, r);
    StepShape(st, item);
    JudgeShape(st, r);
    JudgeSequences(st, r);
    RejectedAppend(st.operations, o);
    DanglingExtended(Closed(st), st.operations, o);
    assert SameShape(Closed(st), Closed(st'));
    DanglingReshaped(Closed(st), Closed(st'), st'.operations);
  }

  lemma SequencesBoundary(st: GoodState, item: Item)
    requires SequencesCounted(st, Closed(st)) && Tracks(st) && (item.token.Header? || item.token.BadHeader?)
    ensures var st' := Step(st, item.line, item.token); SequencesCounted(st', Closed(st'))
  {
    FinalizeSequences(st);
    FinalizeShape(st);
    if item.token.Header? {
      assert Closed(Step(st, item.line, item.token)) == Finalize(st).cheats;
    } else {
      TaintShape(Finalize(st), Malformed);
      TaintKeepsInvalid(Finalize(st), Malformed);
      DanglingReshaped(Finalize(st).cheats, Taint(Finalize(st), Malformed).cheats, st.operations);
    }
  }

  lemma SequencesTaint(st: GoodState, t: TranslationState)
    requires SequencesCounted(st, Closed(st))
    ensures SequencesCounted(Taint(st, t), Closed(Taint(st, t)))
  {
    TaintShape(st, t);
    TaintKeepsInvalid(st, t);
    DanglingReshaped(Closed(st), Closed(Taint(st, t)), st.operations);
  }

  lemma SequencesStep(st: GoodState, item: Item)
    requires SequencesCounted(st, Closed(st)) && Tracks(st) && Tiled(st.cheats, st.operations)
    ensures var st' := Step(st, item.line, item.token); SequencesCounted(st', Closed(st'))
  {
    hide Tiled, Tracks, RejectedSelectors, DanglingCheats;
    match item.token
    case Blank =>
    case Comment =>
    case Header(_, _, _) => SequencesBoundary(st, item);
    case BadHeader => SequencesBoundary(st, item);
    case BadCode => SequencesTaint(st, Malformed);
    case Code(r) => if st.cur.active.At? { SequencesOperation(st, item); }
    case OpaqueText => SequencesTaint(st, RequiresUnsupported);
  }

  // ----- the tracking invariant -------------------------------------------------------------

  lemma TaintTracks(st: GoodState, t: TranslationState)
    requires Tracks(st) && !t.DirectOnly?
    ensures Tracks(Taint(st, t))
  {
  }

  lemma TracksOperation(st: GoodState, item: Item)
    requires Tracks(st) && Tiled(st.cheats, st.operations) && item.token.Code? && st.cur.active.At?
    ensures Tracks(Step(st, item.line, item.token))
  {
    hide Tiled;
    var r := item.token.rec;
    var st' := Step(st, item.line, item.token);
    var c := st.cheats[|st.cheats| - 1];
    var c' := st'.cheats[|st.cheats| - 1];
    var j := |st.operations|;
    StepShape(st, item);
    JudgeShape(st, r);
    assert forall k :: 0 <= k < j ==> st'.operations[k] == st.operations[k];
    assert st'.operations[j] == OperationFor(st, r);
    JudgeCurrent(st, r);
    if HasTypedWrite(st.operations, c.firstOperationIndex, j) {
      var k :| c.firstOperationIndex <= k < j && IsTypedWrite(st.operations[k].kind);
      assert IsTypedWrite(st'.operations[k].kind);
    }
  }

  lemma JudgeCurrent(st: GoodState, r: CodeRecord)
    requires st.cur.active.At? && Tracks(st)
    ensures var st' := Judge(st, r);
            var selects := KindOf(r.code).SelectModuleBase? && SelectorAccepted(st.cur, r);
            && st'.cur.operations == st.cur.operations
            && st'.cur.baseActive == (st.cur.baseActive || selects)
            && st'.cur.writeSeen ==
               (!selects && (st.cur.writeSeen || (st.cur.baseActive && IsTypedWrite(KindOf(r.code)))))
            && st'.cur.tainted == !st'.cheats[|st.cheats| - 1].translationState.DirectOnly?
  {
  }

  lemma TracksHeader(st: GoodState, item: Item)
    requires Tiled(st.cheats, st.operations) && item.token.Header?
    ensures Tracks(OpenCheat(st, item.line, item.token))
  {
  }

  lemma TracksBadHeader(st: GoodState, item: Item)
    requires item.token.BadHeader?
    ensures Tracks(Step(st, item.line, item.token))
  {
  }

  lemma TracksTaintLine(st: GoodState, item: Item)
    requires Tracks(st) && (item.token.BadCode? || item.token.OpaqueText?)
    ensures Tracks(Step(st, item.line, item.token))
  {
    TaintTracks(st, if item.token.BadCode? then Malformed else RequiresUnsupported);
  }

  lemma TracksStep(st: GoodState, item: Item)
    requires Tracks(st) && Tiled(st.cheats, st.operations)
    ensures Tracks(Step(st, item.line, item.token))
  {
    hide Tiled, HasTypedWrite, OpensWithSelector;
    if item.token.Header? {
      FinalizeShape(st);
      TiledReshaped(st.cheats, Finalize(st).cheats, st.operations);
      TracksHeader(Finalize(st), item);
    } else if item.token.BadHeader? {
      TracksBadHeader(st, item);
    } else if item.token.Code? {
      if st.cur.active.At? { TracksOperation(st, item); }
    } else if item.token.BadCode? || item.token.OpaqueText? {
      TracksTaintLine(st, item);
    }
  }

  // ----- whole parses -----------------------------------------------------------------------

  ghost predicate Counted(st: GoodState) {
    && Tiled(st.cheats, st.operations) && Tracks(st)
    && LinesCounted(st) && OperationsCounted(st) && NonDirectCounted(st) && LimitsCounted(st)
    && SequencesCounted(st, Closed(st))
  }

  lemma CountedStep(st: GoodState, item: Item)
    requires Counted(st)
    ensures Counted(Step(st, item.line, item.token))
  {
    TiledStep(st, item);
    TracksStep(st, item);
    LinesCountedStep(st, item);
    OperationsCountedStep(st, item);
    NonDirectStep(st, item);
    LimitsStep(st, item);
    SequencesStep(st, item);
  }

  lemma {:induction false} RunCounted(st: GoodState, items: seq<Item>)
    requires Counted(st)
    ensures Counted(Run(st, items))
    decreases |items|
  {
    if items != [] {
      CountedStep(st, items[0]);
      RunCounted(Step(st, items[0].line, items[0].token), items[1..]);
    }
  }

  /** Each counter of a finished parse is the count it stands for. */
  lemma ReportCounts(s: seq<byte>)
    ensures var st := Parsed(s);
            && LinesCounted(st) && OperationsCounted(st) && NonDirectCounted(st) && LimitsCounted(st)
            && SequencesCounted(st, st.cheats)
  {
    var items := Items(s, 0, true);
    RunCounted(INITIAL, items);
    var st := Run(INITIAL, items);
    FinalizeShape(st);
    FinalizeCounted(st);
    FinalizeSequences(st);
    LimitsReshaped(st.cheats, Finalize(st).cheats);
    FinalizeTally(st);
  }

  lemma FinalizeTally(st: GoodState)
    ensures var t, t' := st.tally, Finalize(st).tally;
            t'.unsupported == t.unsupported && t'.malformed == t.malformed && t'.limits == t.limits
  {
  }
}
