/**
  Compositional parsing: when `a` ends a line and `b` starts with a header, parsing `a + b` is
  parsing `a`, parsing `b`, and shifting the second result's positions and indices.
 */
module PsvCompose {
  import opened Bits
  import opened PsvText
  import opened PsvLines
  import opened PsvMachine
  import opened PsvGraph
  import opened PsvVerdict
  import opened PsvOutcome

  function ShiftIndex(i: Index, d: nat): Index {
    if i.NoIndex? then NoIndex else At(i.value + d)
  }

  function ShiftSpan(p: Span, d: nat): Span { Span(p.offset + d, p.length) }

  /** How far positions and the three kinds of index move. */
  datatype Offsets = Offsets(bytes: nat, lines: nat, cheats: nat, operations: nat)

  function MovedLine(l: Line, d: Offsets): Line {
    Line(ShiftSpan(l.raw, d.bytes), ShiftSpan(l.content, d.bytes), l.kind,
         ShiftIndex(l.cheatIndex, d.cheats), ShiftIndex(l.operationIndex, d.operations))
  }

  function MovedCheat(c: Cheat, d: Offsets): Cheat {
    c.(description := ShiftSpan(c.description, d.bytes),
       headerLineIndex := c.headerLineIndex + d.lines,
       firstOperationIndex := c.firstOperationIndex + d.operations)
  }

  function MovedOperation(o: Operation, d: Offsets): Operation {
    o.(cheatIndex := o.cheatIndex + d.cheats, lineIndex := o.lineIndex + d.lines)
  }

  function MovedLines(s: seq<Line>, d: Offsets): (r: seq<Line>)
    ensures |r| == |s| && forall i :: 0 <= i < |s| ==> r[i] == MovedLine(s[i], d)
  {
    seq(|s|, i requires 0 <= i < |s| => MovedLine(s[i], d))
  }

  function MovedCheats(s: seq<Cheat>, d: Offsets): (r: seq<Cheat>)
    ensures |r| == |s| && forall i :: 0 <= i < |s| ==> r[i] == MovedCheat(s[i], d)
  {
    seq(|s|, i requires 0 <= i < |s| => MovedCheat(s[i], d))
  }

  function MovedOperations(s: seq<Operation>, d: Offsets): (r: seq<Operation>)
    ensures |r| == |s| && forall i :: 0 <= i < |s| ==> r[i] == MovedOperation(s[i], d)
  {
    seq(|s|, i requires 0 <= i < |s| => MovedOperation(s[i], d))
  }

  /** The one-off term of the limit counter: more than 50 cheats. */
  function CheatLimitTerm(n: nat): nat { if n > 50 then 1 else 0 }

  function OffsetsAfter(a: State, bytes: nat): Offsets {
    Offsets(bytes, |a.lines|, |a.cheats|, |a.operations|)
  }

  /** `m` holds `a`'s results followed by `b`'s moved ones, and all counters add. */
  ghost predicate Joined(a: State, b: State, m: State, bytes: nat) {
    var d := OffsetsAfter(a, bytes);
    && m.lines == a.lines + MovedLines(b.lines, d)
    && m.cheats == a.cheats + MovedCheats(b.cheats, d)
    && m.operations == a.operations + MovedOperations(b.operations, d)
    && m.tally.unsupported == a.tally.unsupported + b.tally.unsupported
    && m.tally.nonDirect == a.tally.nonDirect + b.tally.nonDirect
    && m.tally.invalid == a.tally.invalid + b.tally.invalid
    && m.tally.malformed == a.tally.malformed + b.tally.malformed
    && m.tally.limits + CheatLimitTerm(|a.cheats|) + CheatLimitTerm(|b.cheats|)
       == a.tally.limits + b.tally.limits + CheatLimitTerm(|m.cheats|)
  }

  /** The same while `b` is still being read: the per-cheat variables agree up to the index shift. */
  ghost predicate Joining(a: State, b: State, m: State, bytes: nat) {
    Joined(a, b, m, bytes) && m.cur == b.cur.(active := ShiftIndex(b.cur.active, |a.cheats|))
  }

  function MovedItem(item: Item, bytes: nat): Item {
    Item(ShiftLine(item.line, bytes), item.token)
  }

  function MovedItems(items: seq<Item>, bytes: nat): (r: seq<Item>)
    ensures |r| == |items| && forall i :: 0 <= i < |r| ==> r[i] == MovedItem(items[i], bytes)
  {
    if items == [] then [] else [MovedItem(items[0], bytes)] + MovedItems(items[1..], bytes)
  }

  // ----- one step ---------------------------------------------------------------------------

  lemma MovedCheatsUpdate(s: seq<Cheat>, d: Offsets, i: nat, c: Cheat)
    requires i < |s|
    ensures MovedCheats(s[i := c], d) == MovedCheats(s, d)[i := MovedCheat(c, d)]
  {
  }

  lemma ConcatUpdate<T>(a: seq<T>, b: seq<T>, i: nat, x: T)
    requires i < |b|
    ensures (a + b)[|a| + i := x] == a + b[i := x] && (a + b)[|a| + i] == b[i]
  {
  }

  /** Updating the open cheat commutes with joining. */
  lemma JoinCheatUpdate(a: State, b: GoodState, m: GoodState, bytes: nat, c: Cheat)
    requires Joining(a, b, m, bytes) && b.cur.active.At?
    ensures var i := b.cur.active.value;
            var d := OffsetsAfter(a, bytes);
            && m.cur.active == At(|a.cheats| + i)
            && m.cheats[|a.cheats| + i] == MovedCheat(b.cheats[i], d)
            && m.cheats[|a.cheats| + i := MovedCheat(c, d)] == a.cheats + MovedCheats(b.cheats[i := c], d)
  {
    var i := b.cur.active.value;
    var d := OffsetsAfter(a, bytes);
    ConcatUpdate(a.cheats, MovedCheats(b.cheats, d), i, MovedCheat(c, d));
    MovedCheatsUpdate(b.cheats, d, i, c);
  }

  lemma JoinTaint(a: State, b: GoodState, m: GoodState, bytes: nat, t: TranslationState)
    requires Joining(a, b, m, bytes)
    ensures Joining(a, Taint(b, t), Taint(m, t), bytes)
  {
    if b.cur.active.At? {
      var c := b.cheats[b.cur.active.value];
      JoinCheatUpdate(a, b, m, bytes, c.(translationState := Worse(c.translationState, t)));
    }
  }

  lemma JoinFinalize(a: State, b: GoodState, m: GoodState, bytes: nat)
    requires Joining(a, b, m, bytes)
    ensures Joining(a, Finalize(b), Finalize(m), bytes)
  {
    if b.cur.active.At? && b.cur.baseActive && !b.cur.writeSeen {
      JoinTaint(a, CountInvalid(b), CountInvalid(m), bytes, Malformed);
    }
  }

  lemma JoinAddLine(a: State, b: GoodState, m: GoodState, bytes: nat, line: Line)
    requires Joining(a, b, m, bytes)
    ensures Joining(a, AddLine(b, line), AddLine(m, MovedLine(line, OffsetsAfter(a, bytes))), bytes)
  {
    var d := OffsetsAfter(a, bytes);
    assert MovedLines(b.lines + [line], d) == MovedLines(b.lines, d) + [MovedLine(line, d)];
  }

  lemma MovedMakeLine(l: SplitLine, kind: LineKind, cheat: Index, operation: Index, d: Offsets)
    ensures MovedLine(MakeLine(l, kind, cheat, operation), d)
         == MakeLine(ShiftLine(l, d.bytes), kind, ShiftIndex(cheat, d.cheats), ShiftIndex(operation, d.operations))
  {
  }

  lemma JoinPlainLine(a: State, b: GoodState, m: GoodState, bytes: nat, l: SplitLine, kind: LineKind, cheat: Index)
    requires Joining(a, b, m, bytes)
    ensures Joining(a, AddLine(b, MakeLine(l, kind, cheat, NoIndex)),
                    AddLine(m, MakeLine(ShiftLine(l, bytes), kind, ShiftIndex(cheat, |a.cheats|), NoIndex)), bytes)
  {
    JoinAddLine(a, b, m, bytes, MakeLine(l, kind, cheat, NoIndex));
    MovedMakeLine(l, kind, cheat, NoIndex, OffsetsAfter(a, bytes));
  }

  lemma JoinMalformedLine(a: State, b: GoodState, m: GoodState, bytes: nat, l: SplitLine)
    requires Joining(a, b, m, bytes)
    ensures Joining(a, AddMalformedLine(b, l), AddMalformedLine(m, ShiftLine(l, bytes)), bytes)
  {
    JoinPlainLine(a, b, m, bytes, l, MalformedLine, NoIndex);
  }

  lemma MovedLinesAppend(s: seq<Line>, line: Line, d: Offsets)
    ensures MovedLines(s + [line], d) == MovedLines(s, d) + [MovedLine(line, d)]
  {
  }

  lemma MovedCheatsAppend(s: seq<Cheat>, c: Cheat, d: Offsets)
    ensures MovedCheats(s + [c], d) == MovedCheats(s, d) + [MovedCheat(c, d)]
  {
  }

  lemma ConcatAppend<T>(a: seq<T>, b: seq<T>, x: T)
    ensures (a + b) + [x] == a + (b + [x])
  {
  }

  /** The new header line and cheat of a joined state are the moved ones. */
  lemma OpenedRecordsMove(a: State, b: GoodState, m: GoodState, bytes: nat, l: SplitLine, h: Token)
    requires h.Header? && Joined(a, b, m, bytes)
    ensures var d := OffsetsAfter(a, bytes);
            var b', m' := OpenCheat(b, l, h), OpenCheat(m, ShiftLine(l, bytes), h);
            && m'.lines[|m.lines|] == MovedLine(b'.lines[|b.lines|], d)
            && m'.cheats[|m.cheats|] == MovedCheat(b'.cheats[|b.cheats|], d)
  {
  }

  lemma OpenedLimits(a: State, b: GoodState, m: GoodState, bytes: nat, l: SplitLine, h: Token)
    requires h.Header? && Joined(a, b, m, bytes)
    ensures var b', m' := OpenCheat(b, l, h), OpenCheat(m, ShiftLine(l, bytes), h);
            m'.tally.limits + CheatLimitTerm(|a.cheats|) + CheatLimitTerm(|b.cheats| + 1)
            == a.tally.limits + b'.tally.limits + CheatLimitTerm(|m.cheats| + 1)
  {
  }

  lemma JoinOpenCheat(a: State, b: GoodState, m: GoodState, bytes: nat, l: SplitLine, h: Token)
    requires h.Header? && Joined(a, b, m, bytes)
    ensures Joining(a, OpenCheat(b, l, h), OpenCheat(m, ShiftLine(l, bytes), h), bytes)
  {
    var d := OffsetsAfter(a, bytes);
    var b', m' := OpenCheat(b, l, h), OpenCheat(m, ShiftLine(l, bytes), h);
    var line, cheat := b'.lines[|b.lines|], b'.cheats[|b.cheats|];
    OpenedRecordsMove(a, b, m, bytes, l, h);
    OpenedLimits(a, b, m, bytes, l, h);
    MovedLinesAppend(b.lines, line, d);
    MovedCheatsAppend(b.cheats, cheat, d);
    ConcatAppend(a.lines, MovedLines(b.lines, d), MovedLine(line, d));
    ConcatAppend(a.cheats, MovedCheats(b.cheats, d), MovedCheat(cheat, d));
  }

  lemma JoinJudge(a: State, b: GoodState, m: GoodState, bytes: nat, r: CodeRecord)
    requires Joining(a, b, m, bytes)
    ensures Joining(a, Judge(b, r), Judge(m, r), bytes)
  {
    hide Taint;
    var kind := KindOf(r.code);
    if kind.SelectModuleBase? {
      if SelectorAccepted(b.cur, r) {
        JoinTaint(a, b.(cur := b.cur.(baseActive := true, writeSeen := false)),
                  m.(cur := m.cur.(baseActive := true, writeSeen := false)), bytes, ModuleRelative);
      } else {
        JoinTaint(a, CountInvalid(b), CountInvalid(m), bytes, Malformed);
      }
    } else if kind.OpaqueOperation? {
      JoinTaint(a, b.(tally := b.tally.(unsupported := b.tally.unsupported + 1)),
                m.(tally := m.tally.(unsupported := m.tally.unsupported + 1)), bytes, RequiresUnsupported);
    }
  }

  lemma JoinRecord(a: State, b: GoodState, m: GoodState, bytes: nat, o: Operation)
    requires Joining(a, b, m, bytes) && b.cur.active.At?
    ensures Joining(a, RecordOperation(b, o), RecordOperation(m, MovedOperation(o, OffsetsAfter(a, bytes))), bytes)
  {
    var d := OffsetsAfter(a, bytes);
    var c := b.cheats[b.cur.active.value];
    JoinCheatUpdate(a, b, m, bytes, c.(operationCount := c.operationCount + 1));
    assert MovedOperations(b.operations + [o], d) == MovedOperations(b.operations, d) + [MovedOperation(o, d)];
  }

  lemma JoinAddOperation(a: State, b: GoodState, m: GoodState, bytes: nat, l: SplitLine, r: CodeRecord)
    requires Joining(a, b, m, bytes) && b.cur.active.At?
    ensures Joining(a, AddOperation(b, l, r), AddOperation(m, ShiftLine(l, bytes), r), bytes)
  {
    var d := OffsetsAfter(a, bytes);
    var o := OperationFor(b, r);
    var line := MakeLine(l, CodeLine, b.cur.active, At(|b.operations|));
    JoinJudge(a, b, m, bytes, r);
    JudgeShape(b, r);
    JudgeShape(m, r);
    assert OperationFor(m, r) == MovedOperation(o, d);
    JoinRecord(a, Judge(b, r), Judge(m, r), bytes, o);
    MovedMakeLine(l, CodeLine, b.cur.active, At(|b.operations|), d);
    JoinAddLine(a, RecordOperation(Judge(b, r), o), RecordOperation(Judge(m, r), MovedOperation(o, d)), bytes, line);
  }

  lemma JoinBadHeader(a: State, b: GoodState, m: GoodState, bytes: nat, l: SplitLine)
    requires Joining(a, b, m, bytes)
    ensures Joining(a, Step(b, l, BadHeader), Step(m, ShiftLine(l, bytes), BadHeader), bytes)
  {
    JoinFinalize(a, b, m, bytes);
    JoinTaint(a, Finalize(b), Finalize(m), bytes, Malformed);
    JoinMalformedLine(a, Taint(Finalize(b), Malformed), Taint(Finalize(m), Malformed), bytes, l);
  }

  lemma JoinStep(a: State, b: GoodState, m: GoodState, bytes: nat, item: Item)
    requires Joining(a, b, m, bytes)
    ensures Joining(a, Step(b, item.line, item.token), Step(m, ShiftLine(item.line, bytes), item.token), bytes)
  {
    var l := item.line;
    match item.token
    case Blank => JoinPlainLine(a, b, m, bytes, l, BlankLine, NoIndex);
    case Comment => JoinPlainLine(a, b, m, bytes, l, CommentLine, NoIndex);
    case Header(_, _, _) =>
      JoinFinalize(a, b, m, bytes);
      JoinOpenCheat(a, Finalize(b), Finalize(m), bytes, l, item.token);
    case BadHeader => JoinBadHeader(a, b, m, bytes, l);
    case BadCode =>
      JoinTaint(a, b, m, bytes, Malformed);
      JoinMalformedLine(a, Taint(b, Malformed), Taint(m, Malformed), bytes, l);
    case Code(r) =>
      if b.cur.active.NoIndex? {
        JoinMalformedLine(a, b, m, bytes, l);
      } else {
        JoinAddOperation(a, b, m, bytes, l, r);
      }
    case OpaqueText =>
      JoinTaint(a, b, m, bytes, RequiresUnsupported);
      JoinPlainLine(a, Taint(b, RequiresUnsupported), Taint(m, RequiresUnsupported), bytes, l,
                    OpaqueLine, b.cur.active);
  }

  lemma {:induction false} JoinRun(a: State, b: GoodState, m: GoodState, bytes: nat, items: seq<Item>)
    requires Joining(a, b, m, bytes)
    ensures Joining(a, Run(b, items), Run(m, MovedItems(items, bytes)), bytes)
    decreases |items|
  {
    if items != [] {
      var moved := MovedItems(items, bytes);
      assert moved[0] == MovedItem(items[0], bytes) && moved[1..] == MovedItems(items[1..], bytes);
      JoinStep(a, b, m, bytes, items[0]);
      JoinRun(a, Step(b, items[0].line, items[0].token),
              Step(m, ShiftLine(items[0].line, bytes), items[0].token), bytes, items[1..]);
    }
  }

  // ----- whole sources ----------------------------------------------------------------------

  predicate StartsWithBom(s: seq<byte>) { BOM <= s }

  lemma ItemAtRight(a: seq<byte>, b: seq<byte>, pos: nat)
    requires pos < |b|
    ensures ItemAt(a + b, |a| + pos, false) == MovedItem(ItemAt(b, pos, false), |a|)
  {
    LineAtRight(a, b, pos);
    var l := LineAt(b, pos, false);
    assert (a + b)[|a| + l.contentBegin..|a| + l.contentEnd] == b[l.contentBegin..l.contentEnd];
  }

  lemma {:induction false} ItemsRight(a: seq<byte>, b: seq<byte>, pos: nat)
    requires pos <= |b|
    ensures Items(a + b, |a| + pos, false) == MovedItems(Items(b, pos, false), |a|)
    decreases |b| - pos
  {
    hide Classify;
    if pos < |b| {
      ItemAtRight(a, b, pos);
      ItemsRight(a, b, ItemAt(b, pos, false).line.rawEnd);
    }
  }

  lemma ItemAtLeft(a: seq<byte>, b: seq<byte>, pos: nat, first: bool)
    requires CleanSeam(a, b) && pos < |a|
    ensures ItemAt(a + b, pos, first) == ItemAt(a, pos, first)
  {
    LineAtLeft(a, b, pos, first);
    var l := LineAt(a, pos, first);
    assert (a + b)[l.contentBegin..l.contentEnd] == a[l.contentBegin..l.contentEnd];
  }

  lemma {:induction false} ItemsConcat(a: seq<byte>, b: seq<byte>, pos: nat, first: bool)
    requires CleanSeam(a, b) && pos <= |a| && (pos == |a| ==> !first)
    ensures Items(a + b, pos, first) == Items(a, pos, first) + MovedItems(Items(b, 0, false), |a|)
    decreases |a| - pos
  {
    hide Classify;
    if pos == |a| {
      ItemsRight(a, b, 0);
    } else {
      ItemAtLeft(a, b, pos, first);
      var item := ItemAt(a, pos, first);
      ItemsConcat(a, b, item.line.rawEnd, false);
      var rest, right := Items(a, item.line.rawEnd, false), MovedItems(Items(b, 0, false), |a|);
      assert ([item] + rest) + right == [item] + (rest + right);
    }
  }

  /** A source whose first line is a header does not start with LF. */
  lemma HeaderIsNotEmpty(b: seq<byte>, first: bool)
    requires b != [] && ItemAt(b, 0, first).token.Header?
    ensures b[0] != LF
  {
  }

  lemma BomLine(b: seq<byte>)
    requires b != []
    ensures StartsWithBom(b) ==> HasBom(b, 0, LineEnd(b, 0))
    ensures !StartsWithBom(b) ==> Items(b, 0, true) == Items(b, 0, false)
  {
    if StartsWithBom(b) {
      assert b[0] == BOM[0] && b[1] == BOM[1] && b[2] == BOM[2];
      assert LineEnd(b, 0) == LineEnd(b, 1) == LineEnd(b, 2) == LineEnd(b, 3);
    }
  }

  /** The lines of a concatenation, for the three ways the seam can be clean. */
  lemma SeamItems(a: seq<byte>, b: seq<byte>)
    requires b != [] && ItemAt(b, 0, true).token.Header?
    requires a != [] ==> IsEol(a[|a| - 1]) && !StartsWithBom(b)
    ensures Items(a + b, 0, true) == Items(a, 0, true) + MovedItems(Items(b, 0, true), |a|)
  {
    HeaderIsNotEmpty(b, true);
    if a == [] {
      assert a + b == b;
      MoveByNothing(Items(b, 0, true));
    } else {
      BomLine(b);
      ItemsConcat(a, b, 0, true);
    }
  }

  lemma MoveByNothing(items: seq<Item>)
    ensures MovedItems(items, 0) == items
  {
  }

  lemma JoinNothing(a: State, bytes: nat)
    ensures Joined(a, INITIAL, a, bytes)
  {
  }

  /** Whatever was read before it, a header starts afresh: what follows only moves. */
  lemma JoinFromHeader(before: GoodState, bytes: nat, items: seq<Item>)
    requires items != [] && items[0].token.Header?
    ensures Joined(Finalize(before), Finalize(Run(INITIAL, items)),
                   Finalize(Run(before, MovedItems(items, bytes))), bytes)
  {
    var a := Finalize(before);
    var h := items[0];
    var moved := MovedItems(items, bytes);
    assert moved[0] == MovedItem(h, bytes) && moved[1..] == MovedItems(items[1..], bytes);
    JoinNothing(a, bytes);
    assert Finalize(INITIAL) == INITIAL;
    JoinOpenCheat(a, INITIAL, a, bytes, h.line, h.token);
    var b1, m1 := Step(INITIAL, h.line, h.token), Step(before, ShiftLine(h.line, bytes), h.token);
    JoinRun(a, b1, m1, bytes, items[1..]);
    JoinFinalize(a, Run(b1, items[1..]), Run(m1, moved[1..]), bytes);
  }

  /**
    Parsing a source that ends a line, followed by one that starts with a header, is parsing the
    two in turn. A byte order mark is honoured only at the very start, so a second source must not
    carry one.
   */
  lemma ParseConcat(a: seq<byte>, b: seq<byte>)
    requires b != [] && ItemAt(b, 0, true).token.Header?
    requires a != [] ==> IsEol(a[|a| - 1]) && !StartsWithBom(b)
    ensures Joined(Parsed(a), Parsed(b), Parsed(a + b), |a|)
  {
    SeamItems(a, b);
    RunConcat(INITIAL, Items(a, 0, true), MovedItems(Items(b, 0, true), |a|));
    JoinFromHeader(Run(INITIAL, Items(a, 0, true)), |a|, Items(b, 0, true));
  }

  // ----- the same on the level of calls -----------------------------------------------------

  /** Totals and counters of `m` are the sums of those of `a` and `b`, up to the one-off cheat term. */
  predicate ReportsJoin(a: Report, b: Report, m: Report) {
    && m.totalLines == a.totalLines + b.totalLines
    && m.totalCheats == a.totalCheats + b.totalCheats
    && m.totalOperations == a.totalOperations + b.totalOperations
    && m.tally.unsupported == a.tally.unsupported + b.tally.unsupported
    && m.tally.nonDirect == a.tally.nonDirect + b.tally.nonDirect
    && m.tally.invalid == a.tally.invalid + b.tally.invalid
    && m.tally.malformed == a.tally.malformed + b.tally.malformed
    && m.tally.limits + CheatLimitTerm(a.totalCheats) + CheatLimitTerm(b.totalCheats)
       == a.tally.limits + b.tally.limits + CheatLimitTerm(m.totalCheats)
  }

  /**
    Calls on two sources and on their concatenation, with any buffers: totals and counters add up, and
    the call on the concatenation returns OK exactly when its buffers have room for both totals.
   */
  lemma ReportsAdd(a: seq<byte>, b: seq<byte>, la: seq<Line>, ca: seq<Cheat>, oa: seq<Operation>,
                   lb: seq<Line>, cb: seq<Cheat>, ob: seq<Operation>,
                   l: seq<Line>, c: seq<Cheat>, o: seq<Operation>)
    requires b != [] && ItemAt(b, 0, true).token.Header?
    requires a != [] ==> IsEol(a[|a| - 1]) && !StartsWithBom(b)
    requires |a + b| <= 1024 * 1024
    ensures var ra, rb, r := OutcomeOf(a, la, ca, oa).report, OutcomeOf(b, lb, cb, ob).report,
            OutcomeOf(a + b, l, c, o);
            && ra.Some? && rb.Some? && r.report.Some? && ReportsJoin(ra.value, rb.value, r.report.value)
            && (r.status == Ok <==>
                  && |l| >= ra.value.totalLines + rb.value.totalLines
                  && |c| >= ra.value.totalCheats + rb.value.totalCheats
                  && |o| >= ra.value.totalOperations + rb.value.totalOperations)
  {
    hide Parsed, OutcomeOf, MovedLines, MovedCheats, MovedOperations;
    ParseConcat(a, b);
    ReportExact(a, la, ca, oa);
    ReportExact(b, lb, cb, ob);
    ReportExact(a + b, l, c, o);
  }

  /** What an OK call delivers: the first `total` elements of each buffer. */
  predicate Delivers(r: Outcome, lines: seq<Line>, cheats: seq<Cheat>, operations: seq<Operation>) {
    && r.status == Ok && r.report.Some?
    && |lines| == r.report.value.totalLines && lines <= r.lines
    && |cheats| == r.report.value.totalCheats && cheats <= r.cheats
    && |operations| == r.report.value.totalOperations && operations <= r.operations
  }

  /**
    If the calls on the parts return OK and the sums fit, the lists delivered for the concatenation are
    theirs, joined.
   */
  lemma ListsJoin(a: seq<byte>, b: seq<byte>, ra: Outcome, rb: Outcome,
                  la: seq<Line>, ca: seq<Cheat>, oa: seq<Operation>, lb: seq<Line>, cb: seq<Cheat>, ob: seq<Operation>,
                  l: seq<Line>, c: seq<Cheat>, o: seq<Operation>)
    requires b != [] && ItemAt(b, 0, true).token.Header?
    requires a != [] ==> IsEol(a[|a| - 1]) && !StartsWithBom(b)
    requires |a + b| <= 1024 * 1024
    requires exists l1, c1, o1 :: ra == OutcomeOf(a, l1, c1, o1)
    requires exists l2, c2, o2 :: rb == OutcomeOf(b, l2, c2, o2)
    requires Delivers(ra, la, ca, oa) && Delivers(rb, lb, cb, ob)
    requires |l| >= |la| + |lb| && |c| >= |ca| + |cb| && |o| >= |oa| + |ob|
    ensures var d := Offsets(|a|, |la|, |ca|, |oa|);
            Delivers(OutcomeOf(a + b, l, c, o), la + MovedLines(lb, d), ca + MovedCheats(cb, d),
                     oa + MovedOperations(ob, d))
  {
    hide Parsed, OutcomeOf, MovedLines, MovedCheats, MovedOperations;
    var l1, c1, o1 :| ra == OutcomeOf(a, l1, c1, o1);
    var l2, c2, o2 :| rb == OutcomeOf(b, l2, c2, o2);
    DeliversParsed(a, l1, c1, o1, la, ca, oa);
    DeliversParsed(b, l2, c2, o2, lb, cb, ob);
    ParseConcat(a, b);
    ReportExact(a + b, l, c, o);
    CompleteOutcome(a + b, l, c, o);
  }

  lemma DeliversParsed(s: seq<byte>, l0: seq<Line>, c0: seq<Cheat>, o0: seq<Operation>,
                       l: seq<Line>, c: seq<Cheat>, o: seq<Operation>)
    requires Delivers(OutcomeOf(s, l0, c0, o0), l, c, o)
    ensures l == Parsed(s).lines && c == Parsed(s).cheats && o == Parsed(s).operations
  {
    hide OutcomeOf, Parsed;
    CompleteOutcome(s, l0, c0, o0);
    var r, st := OutcomeOf(s, l0, c0, o0), Parsed(s);
    assert l == r.lines[..|l|] == st.lines;
    assert c == r.cheats[..|c|] == st.cheats;
    assert o == r.operations[..|o|] == st.operations;
  }

  // ----- the byte order mark, exactly -------------------------------------------------------

  lemma {:induction false} CountHeadersConcat(a: seq<Item>, b: seq<Item>)
    ensures CountHeaders(a + b) == CountHeaders(a) + CountHeaders(b)
    decreases |b|
  {
    if b == [] {
      assert a + b == a;
    } else {
      assert (a + b)[..|a + b| - 1] == a + b[..|b| - 1];
      CountHeadersConcat(a, b[..|b| - 1]);
    }
  }

  lemma {:induction false} CountHeadersMoved(items: seq<Item>, bytes: nat)
    ensures CountHeaders(MovedItems(items, bytes)) == CountHeaders(items)
    decreases |items|
  {
    if items != [] {
      CountHeadersMoved(items[..|items| - 1], bytes);
      assert MovedItems(items, bytes)[..|items| - 1] == MovedItems(items[..|items| - 1], bytes);
    }
  }

  lemma CheatsAreHeaders(s: seq<byte>)
    ensures |Parsed(s).cheats| == CountHeaders(Items(s, 0, true))
  {
    RunCounts(Items(s, 0, true));
    FinalizeShape(Run(INITIAL, Items(s, 0, true)));
  }

  /** Read as a later line, a header behind a byte order mark is opaque text. */
  lemma MarkedHeaderIsOpaque(b: seq<byte>)
    requires b != [] && StartsWithBom(b)
    ensures ItemAt(b, 0, false).token.OpaqueText?
    ensures Items(b, 0, true) != [] && Items(b, 0, true)[1..] == Items(b, 0, false)[1..]
  {
    BomLine(b);
    var l := LineAt(b, 0, false);
    var t := b[l.contentBegin..l.contentEnd];
    assert t[0] == b[0] == 0xef;
    assert LeadingSpaces(t) == 0;
    var u := t[0..|t| - TrailingSpaces(t)];
    TrailingSpacesAre(t);
    assert t[0..] == t;
    assert TrailingSpaces(t) < |t|;
    assert u[0] == t[0];
  }

  lemma CountFirst(items: seq<Item>)
    requires items != []
    ensures CountHeaders(items) == (if items[0].token.Header? then 1 else 0) + CountHeaders(items[1..])
  {
    CountHeadersConcat(items[..1], items[1..]);
    assert items == items[..1] + items[1..];
    assert items[..1][..0] == [];
  }

  /** The condition on the byte order mark is exact: with a mark in the middle a cheat is lost. */
  lemma ParseConcatExactly(a: seq<byte>, b: seq<byte>)
    requires b != [] && ItemAt(b, 0, true).token.Header?
    requires a != [] ==> IsEol(a[|a| - 1])
    ensures Joined(Parsed(a), Parsed(b), Parsed(a + b), |a|) <==> (a == [] || !StartsWithBom(b))
  {
    if a == [] || !StartsWithBom(b) {
      ParseConcat(a, b);
    } else {
      HeaderIsNotEmpty(b, true);
      ItemsConcat(a, b, 0, true);
      MarkedHeaderIsOpaque(b);
      CheatsAreHeaders(a);
      CheatsAreHeaders(b);
      CheatsAreHeaders(a + b);
      CountHeadersConcat(Items(a, 0, true), MovedItems(Items(b, 0, false), |a|));
      CountHeadersMoved(Items(b, 0, false), |a|);
      CountFirst(Items(b, 0, true));
      CountFirst(Items(b, 0, false));
    }
  }

  /** A pair that does not decompose: a blank line, and a header behind a byte order mark. */
  lemma MarkedHeaderIsLost()
    ensures var a: seq<byte> := [LF];
            var b := BOM + HeaderMark(false);
            && ItemAt(b, 0, true).token.Header? && IsEol(a[|a| - 1])
            && !Joined(Parsed(a), Parsed(b), Parsed(a + b), |a|)
  {
    hide Joined, Parsed;
    var a: seq<byte> := [LF];
    var b := BOM + HeaderMark(false);
    assert LineEnd(b, 0) == LineEnd(b, 1) == LineEnd(b, 2) == LineEnd(b, 3);
    assert LineEnd(b, 3) == LineEnd(b, 4) == LineEnd(b, 5) == LineEnd(b, 6) == |b|;
    var t := b[3..6];
    assert t == [] + (HeaderMark(false) + ([] + [])) + [];
    HeaderComplete(t, false, [], [], [], []);
    assert BOM <= b;
    ParseConcatExactly(a, b);
  }
}
