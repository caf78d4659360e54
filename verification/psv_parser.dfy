/**
  `vc_psv_parse` as the source writes it: one pass over the bytes that fills three caller-owned
  arrays in place and keeps a handful of per-cheat variables and a running report. The class holds
  those variables; its ghost field `st` is the machine state they stand for, including everything
  that did not fit the arrays.
 */
module PsvParser {
  import opened Bits
  import opened Common
  import opened PsvText
  import opened PsvLines
  import opened PsvMachine
  import opened PsvGraph

  /** The `(uint32_t)` casts on source positions. */
  function ToU32(n: nat): (r: nat)
    ensures n < 0x1_0000_0000 ==> r == n
  {
    n % 0x1_0000_0000
  }

  lemma OverlayAppend<T>(buffer: seq<T>, s: seq<T>, x: T)
    ensures Overlay(buffer, s + [x]) ==
            if |s| < |buffer| then Overlay(buffer, s)[|s| := x] else Overlay(buffer, s)
  {
  }

  lemma OverlayUpdate<T>(buffer: seq<T>, s: seq<T>, i: nat, x: T)
    requires i < |s|
    ensures Overlay(buffer, s[i := x]) ==
            if i < |buffer| then Overlay(buffer, s)[i := x] else Overlay(buffer, s)
    ensures i < |buffer| ==> Overlay(buffer, s)[i] == s[i]
  {
  }

  /** A write to an output slot that happens only when the slot exists. */
  method Put<T>(a: array<T>, i: nat, x: T)
    modifies a
    ensures a[..] == if i < a.Length then old(a[..])[i := x] else old(a[..])
  {
    if i < a.Length {
      a[i] := x;
    }
  }

  /** Models one `memset(array, 0, n * sizeof)` of `discard_partial_outputs`. */
  method Clear<T>(a: array<T>, n: nat, zero: T)
    requires n <= a.Length
    modifies a
    ensures a[..] == ZeroPrefix(old(a[..]), n, zero)
  {
    for i := 0 to n
      invariant a[..] == ZeroPrefix(old(a[..]), i, zero)
    {
      a[i] := zero;
    }
  }

  // ----- the source's order of updates, and the machine step it amounts to ------------------

  /** The state right after `store_line`: the line is recorded as opaque until it is classified. */
  function Pending(st: GoodState, l: SplitLine): GoodState {
    AddLine(st, MakeLine(l, OpaqueLine, NoIndex, NoIndex))
  }

  function MarkLast(st: GoodState, kind: LineKind, cheat: Index, operation: Index): GoodState
    requires |st.lines| > 0
  {
    var k := |st.lines| - 1;
    st.(lines := st.lines[k := st.lines[k].(kind := kind, cheatIndex := cheat, operationIndex := operation)])
  }

  function CountMalformed(st: GoodState): GoodState {
    st.(tally := st.tally.(malformed := st.tally.malformed + 1))
  }

  function RecordCheat(st: GoodState, autostart: bool, offset: nat, length: nat): GoodState
    requires |st.lines| > 0
  {
    var cheat := Cheat(if autostart then Autostart else Manual, DirectOnly, Span(offset, length),
                       |st.lines| - 1, |st.operations|, 0);
    var index := At(|st.cheats|);
    var violations :=
      (if length > LEGACY_MAX_DESCRIPTION_BYTES then 1 else 0) +
      (if |st.cheats| == LEGACY_MAX_CHEATS then 1 else 0);
    State(MarkLast(st, CheatHeaderLine, index, NoIndex).lines, st.cheats + [cheat], st.operations,
          Fresh(index), st.tally.(limits := st.tally.limits + violations))
  }

  lemma MarkPending(st: GoodState, l: SplitLine, kind: LineKind, cheat: Index, operation: Index)
    ensures MarkLast(Pending(st, l), kind, cheat, operation) == AddLine(st, MakeLine(l, kind, cheat, operation))
  {
  }

  lemma FinalizePending(st: GoodState, l: SplitLine)
    ensures Finalize(Pending(st, l)) == Pending(Finalize(st), l)
  {
  }

  lemma HeaderComposes(st: GoodState, l: SplitLine, h: Token)
    requires h.Header?
    ensures RecordCheat(Finalize(Pending(st, l)), h.autostart,
                        l.contentBegin + h.descriptionOffset, h.descriptionLength) == Step(st, l, h)
  {
    FinalizePending(st, l);
    MarkPending(Finalize(st), l, CheatHeaderLine, At(|st.cheats|), NoIndex);
  }

  lemma BadHeaderComposes(st: GoodState, l: SplitLine)
    ensures var marked := MarkLast(Finalize(Pending(st, l)), MalformedLine, NoIndex, NoIndex);
            Taint(CountMalformed(marked), Malformed).(cur := Fresh(NoIndex)) == Step(st, l, BadHeader)
  {
    FinalizePending(st, l);
    MarkPending(Finalize(st), l, MalformedLine, NoIndex, NoIndex);
  }

  lemma BadCodeComposes(st: GoodState, l: SplitLine, token: Token)
    requires token.BadCode? || (token.Code? && st.cur.active.NoIndex?)
    ensures var marked := MarkLast(Pending(st, l), MalformedLine, NoIndex, NoIndex);
            Taint(CountMalformed(marked), Malformed) == Step(st, l, token)
  {
    MarkPending(st, l, MalformedLine, NoIndex, NoIndex);
  }

  lemma OpaqueComposes(st: GoodState, l: SplitLine)
    ensures Taint(MarkLast(Pending(st, l), OpaqueLine, st.cur.active, NoIndex), RequiresUnsupported)
         == Step(st, l, OpaqueText)
  {
    MarkPending(st, l, OpaqueLine, st.cur.active, NoIndex);
  }

  lemma JudgeAddLine(st: GoodState, line: Line, r: CodeRecord)
    ensures Judge(AddLine(st, line), r) == AddLine(Judge(st, r), line)
  {
  }

  lemma CodeComposes(st: GoodState, l: SplitLine, r: CodeRecord)
    requires st.cur.active.At?
    ensures var marked := MarkLast(Pending(st, l), CodeLine, st.cur.active, At(|st.operations|));
            RecordOperation(Judge(marked, r), OperationFor(st, r)) == Step(st, l, Code(r))
  {
    var line := MakeLine(l, CodeLine, st.cur.active, At(|st.operations|));
    MarkPending(st, l, CodeLine, st.cur.active, At(|st.operations|));
    JudgeAddLine(st, line, r);
  }

  lemma TrimSlice(source: seq<byte>, lo: nat, begin: nat, end: nat, hi: nat)
    requires lo <= begin <= end <= hi <= |source|
    requires begin == lo + LeadingSpaces(source[lo..hi])
    requires end == hi - TrailingSpaces(source[begin..hi])
    ensures Trim(source[lo..hi]) == source[begin..end]
  {
    SuffixOfSlice(source, lo, begin, hi);
    SliceOfSlice(source, lo, begin, end, hi);
  }

  lemma DollarToken(u: seq<byte>, b: nat)
    requires u != [] && u[0] == DOLLAR
    ensures ClassifyTrimmed(u, b) == if ParseCode(u).Some? then Code(ParseCode(u).value) else BadCode
  {
  }

  class Parser {
    const source: seq<byte>
    const lines: array<Line>
    const cheats: array<Cheat>
    const operations: array<Operation>

    var cur: Current
    var report: Report

    ghost var st: State
    ghost const lines0: seq<Line>
    ghost const cheats0: seq<Cheat>
    ghost const operations0: seq<Operation>

    ghost predicate Valid()
      reads this, lines, cheats, operations
    {
      && PsvMachine.Valid(st)
      && |source| <= MAX_SOURCE_BYTES
      && cur == st.cur
      && report == ReportOf(st, |source|, lines.Length, cheats.Length, operations.Length)
      && |lines0| == lines.Length && |cheats0| == cheats.Length && |operations0| == operations.Length
      && lines[..] == Overlay(lines0, st.lines)
      && cheats[..] == Overlay(cheats0, st.cheats)
      && operations[..] == Overlay(operations0, st.operations)
    }

    constructor (source: seq<byte>, lines: array<Line>, cheats: array<Cheat>, operations: array<Operation>)
      requires |source| <= MAX_SOURCE_BYTES
      ensures Valid() && st == INITIAL
      ensures this.source == source && this.lines == lines && this.cheats == cheats && this.operations == operations
      ensures lines0 == lines[..] && cheats0 == cheats[..] && operations0 == operations[..]
    {
      this.source, this.lines, this.cheats, this.operations := source, lines, cheats, operations;
      cur := Fresh(NoIndex);
      report := ReportOf(INITIAL, |source|, 0, 0, 0);
      st := INITIAL;
      lines0, cheats0, operations0 := lines[..], cheats[..], operations[..];
    }

    /** Models `store_line` and the line counters that follow it. */
    method StoreLine(rawBegin: nat, rawEnd: nat, contentBegin: nat, contentEnd: nat)
      requires Valid() && rawBegin <= contentBegin <= contentEnd <= rawEnd <= |source|
      modifies this, lines
      ensures Valid()
      ensures st == Pending(old(st), RawLine(rawBegin, rawEnd, contentBegin, contentEnd))
    {
      var line := Line(Span(ToU32(rawBegin), ToU32(rawEnd - rawBegin)),
                       Span(ToU32(contentBegin), ToU32(contentEnd - contentBegin)),
                       OpaqueLine, NoIndex, NoIndex);
      OverlayAppend(lines0, st.lines, line);
      Put(lines, report.totalLines, line);
      if report.totalLines < lines.Length {
        report := report.(storedLines := report.storedLines + 1);
      }
      report := report.(totalLines := report.totalLines + 1);
      st := st.(lines := st.lines + [line]);
    }

    /** Models the assignments through `stored_line`, which is null past the capacity. */
    method MarkLine(kind: LineKind, cheat: Index, operation: Index)
      requires Valid() && |st.lines| > 0
      modifies this`st, lines
      ensures Valid()
      ensures st == MarkLast(old(st), kind, cheat, operation)
    {
      var k := report.totalLines - 1;
      ghost var line := st.lines[k].(kind := kind, cheatIndex := cheat, operationIndex := operation);
      OverlayUpdate(lines0, st.lines, k, line);
      if k < lines.Length {
        assert lines[..][k] == st.lines[k];
        Put(lines, k, lines[k].(kind := kind, cheatIndex := cheat, operationIndex := operation));
      }
      st := MarkLast(st, kind, cheat, operation);
    }

    /** Models `taint_active_cheat`. */
    method TaintActiveCheat(t: TranslationState)
      requires Valid()
      modifies this, cheats
      ensures Valid() && st == Taint(old(st), t)
    {
      hide Overlay;
      if cur.active.NoIndex? {
        return;
      }
      if !cur.tainted {
        cur := cur.(tainted := true);
        report := report.(tally := report.tally.(nonDirect := report.tally.nonDirect + 1));
      }
      var i := cur.active.value;
      ghost var cheat := st.cheats[i].(translationState := Worse(st.cheats[i].translationState, t));
      OverlayUpdate(cheats0, st.cheats, i, cheat);
      if i < cheats.Length {
        assert cheats[..][i] == st.cheats[i];
        if Severity(t) > Severity(cheats[i].translationState) {
          Put(cheats, i, cheats[i].(translationState := t));
        }
      }
      st := Taint(st, t);
    }

    method CountInvalidSequence()
      requires Valid()
      modifies this
      ensures Valid() && st == CountInvalid(old(st))
    {
      report := report.(tally := report.tally.(invalid := report.tally.invalid + 1));
      st := CountInvalid(st);
    }

    /** Models `finalize_active_cheat`. */
    method FinalizeActiveCheat()
      requires Valid()
      modifies this, cheats
      ensures Valid() && st == Finalize(old(st))
    {
      if cur.active.At? && cur.baseActive && !cur.writeSeen {
        CountInvalidSequence();
        TaintActiveCheat(Malformed);
      }
    }

    /** Models the marking of a malformed line and its effect on the active cheat. */
    method TakeMalformed()
      requires Valid() && |st.lines| > 0
      modifies this, lines, cheats
      ensures Valid()
      ensures st == Taint(CountMalformed(MarkLast(old(st), MalformedLine, NoIndex, NoIndex)), Malformed)
    {
      MarkLine(MalformedLine, NoIndex, NoIndex);
      report := report.(tally := report.tally.(malformed := report.tally.malformed + 1));
      st := CountMalformed(st);
      TaintActiveCheat(Malformed);
    }

    method CountLimitViolation()
      requires Valid()
      modifies this
      ensures Valid() && st == old(st).(tally := old(st).tally.(limits := old(st).tally.limits + 1))
    {
      report := report.(tally := report.tally.(limits := report.tally.limits + 1));
      st := st.(tally := report.tally);
    }

    /** Models the guarded write of a new cheat, which becomes the active one. */
    method OpenCheat(cheat: Cheat)
      requires Valid()
      modifies this, cheats
      ensures Valid()
      ensures st == old(st).(cheats := old(st).cheats + [cheat], cur := Fresh(At(|old(st).cheats|)))
    {
      hide Overlay;
      OverlayAppend(cheats0, st.cheats, cheat);
      Put(cheats, report.totalCheats, cheat);
      if report.totalCheats < cheats.Length {
        report := report.(storedCheats := report.storedCheats + 1);
      }
      cur := Fresh(At(report.totalCheats));
      report := report.(totalCheats := report.totalCheats + 1);
      st := st.(cheats := st.cheats + [cheat], cur := cur);
    }

    /** Models the recording of a well-formed header. */
    method AppendCheat(autostart: bool, offset: nat, length: nat)
      requires Valid() && |st.lines| > 0 && offset + length <= |source|
      modifies this, lines, cheats
      ensures Valid() && st == RecordCheat(old(st), autostart, offset, length)
    {
      hide Overlay;
      MarkLine(CheatHeaderLine, At(report.totalCheats), NoIndex);
      if length > LEGACY_MAX_DESCRIPTION_BYTES {
        CountLimitViolation();
      }
      OpenCheat(Cheat(if autostart then Autostart else Manual, DirectOnly, Span(ToU32(offset), ToU32(length)),
                      report.totalLines - 1, report.totalOperations, 0));
      if report.totalCheats == LEGACY_MAX_CHEATS + 1 {
        CountLimitViolation();
      }
    }

    /** Models the header branch of the loop, from the activation byte on. */
    method TakeHeader(ghost before: GoodState, l: SplitLine, begin: nat, end: nat)
      requires Valid() && l.rawEnd <= |source| && st == Pending(before, l)
      requires l.contentBegin <= begin && begin + 3 <= end <= l.contentEnd
      requires source[begin] == UNDERSCORE && source[begin + 1] == UPPER_V
      modifies this, lines, cheats, operations
      ensures Valid()
      ensures st == Step(before, l, ClassifyTrimmed(source[begin..end], begin - l.contentBegin))
    {
      ghost var token := ClassifyTrimmed(source[begin..end], begin - l.contentBegin);
      var activation := source[begin + 2];
      var descriptionBegin := begin + 3;
      FinalizeActiveCheat();
      if (activation != DIGIT_0 && activation != DIGIT_1) ||
         (descriptionBegin < end && !IsSpace(source[descriptionBegin]))
      {
        assert token == BadHeader;
        TakeMalformed();
        cur := Fresh(NoIndex);
        st := st.(cur := Fresh(NoIndex));
        BadHeaderComposes(before, l);
        return;
      }
      descriptionBegin := SkipSpaces(source, descriptionBegin, end);
      SuffixOfSlice(source, begin, begin + 3, end);
      AppendCheat(activation == DIGIT_1, descriptionBegin, end - descriptionBegin);
      HeaderComposes(before, l, token);
    }

    /** Models the classification of a selector, a typed write or an opaque operation. */
    method JudgeOperation(r: CodeRecord)
      requires Valid() && cur.active.At?
      modifies this, cheats
      ensures Valid() && st == Judge(old(st), r)
    {
      var kind := KindOf(r.code);
      if kind.SelectModuleBase? {
        if cur.operations != 0 || cur.baseActive || r.address > 0xff || r.value > 1 {
          CountInvalidSequence();
          TaintActiveCheat(Malformed);
        } else {
          cur := cur.(baseActive := true, writeSeen := false);
          st := st.(cur := cur);
          TaintActiveCheat(ModuleRelative);
        }
      } else if !kind.OpaqueOperation? {
        if cur.baseActive {
          cur := cur.(writeSeen := true);
          st := st.(cur := cur);
        }
      } else {
        report := report.(tally := report.tally.(unsupported := report.tally.unsupported + 1));
        st := st.(tally := report.tally);
        TaintActiveCheat(RequiresUnsupported);
      }
    }

    /** Models the guarded increment of the active cheat's operation count. */
    method IncrementOperationCount(i: nat)
      requires Valid() && i < |st.cheats|
      modifies this`st, cheats
      ensures Valid()
      ensures var c := old(st).cheats[i];
              st == old(st).(cheats := old(st).cheats[i := c.(operationCount := c.operationCount + 1)])
    {
      ghost var cheat := st.cheats[i].(operationCount := st.cheats[i].operationCount + 1);
      OverlayUpdate(cheats0, st.cheats, i, cheat);
      if i < cheats.Length {
        assert cheats[..][i] == st.cheats[i];
        Put(cheats, i, cheats[i].(operationCount := cheats[i].operationCount + 1));
      }
      st := st.(cheats := st.cheats[i := cheat]);
    }

    /** Models the operation count of the active cheat and its limit. */
    method CountOperation()
      requires Valid() && cur.active.At?
      modifies this, cheats
      ensures Valid() && st == CountedOperation(old(st))
    {
      IncrementOperationCount(cur.active.value);
      cur := cur.(operations := cur.operations + 1);
      if cur.operations == LEGACY_MAX_CODES_PER_CHEAT + 1 {
        report := report.(tally := report.tally.(limits := report.tally.limits + 1));
      }
      st := st.(cur := cur, tally := report.tally);
    }

    /** Models the recording of an accepted code line. */
    method AppendOperation(operation: Operation)
      requires Valid() && cur.active.At?
      modifies this, cheats, operations
      ensures Valid() && st == RecordOperation(old(st), operation)
    {
      OverlayAppend(operations0, st.operations, operation);
      Put(operations, report.totalOperations, operation);
      if report.totalOperations < operations.Length {
        report := report.(storedOperations := report.storedOperations + 1);
      }
      report := report.(totalOperations := report.totalOperations + 1);
      st := st.(operations := st.operations + [operation]);
      CountOperation();
    }

    /** Models the `$` branch once the record has been decoded. */
    method TakeRecord(ghost before: GoodState, l: SplitLine, r: CodeRecord)
      requires Valid() && st == Pending(before, l) && cur.active.At?
      modifies this, lines, cheats, operations
      ensures Valid() && st == Step(before, l, Code(r))
    {
      var operation := Operation(KindOf(r.code), ModeOf(cur.baseActive, KindOf(r.code)), r,
                                 cur.active.value, report.totalLines - 1);
      assert operation == OperationFor(before, r);
      MarkLine(CodeLine, cur.active, At(report.totalOperations));
      JudgeOperation(r);
      AppendOperation(operation);
      CodeComposes(before, l, r);
    }

    /** Models the `$` branch of the loop. */
    method TakeCode(ghost before: GoodState, l: SplitLine, begin: nat, end: nat)
      requires Valid() && l.rawEnd <= |source| && st == Pending(before, l)
      requires l.contentBegin <= begin < end <= l.contentEnd && source[begin] == DOLLAR
      modifies this, lines, cheats, operations
      ensures Valid()
      ensures st == Step(before, l, ClassifyTrimmed(source[begin..end], begin - l.contentBegin))
    {
      ghost var token := ClassifyTrimmed(source[begin..end], begin - l.contentBegin);
      DollarToken(source[begin..end], begin - l.contentBegin);
      var parsed := None;
      if cur.active.At? {
        parsed := ParseCodeSpan(source, begin, end);
      }
      if parsed.None? {
        TakeMalformed();
        BadCodeComposes(before, l, token);
        return;
      }
      TakeRecord(before, l, parsed.value);
    }

    /** Models the part of the loop body after the line has been stored. */
    method TakeLine(ghost before: GoodState, l: SplitLine)
      requires Valid() && l.rawEnd <= |source| && st == Pending(before, l)
      modifies this, lines, cheats, operations
      ensures Valid()
      ensures st == Step(before, l, Classify(source[l.contentBegin..l.contentEnd]))
    {
      var begin, end := TrimSpan(source, l.contentBegin, l.contentEnd);
      TrimSlice(source, l.contentBegin, begin, end, l.contentEnd);
      if begin == end {
        MarkLine(BlankLine, NoIndex, NoIndex);
        return;
      }
      if source[begin] == HASH {
        MarkLine(CommentLine, NoIndex, NoIndex);
        return;
      }
      if end - begin >= 3 && source[begin] == UNDERSCORE && source[begin + 1] == UPPER_V {
        TakeHeader(before, l, begin, end);
        return;
      }
      if source[begin] == DOLLAR {
        TakeCode(before, l, begin, end);
        return;
      }
      MarkLine(OpaqueLine, cur.active, NoIndex);
      TaintActiveCheat(RequiresUnsupported);
      OpaqueComposes(before, l);
    }

    /** Models the splitting part of the loop body: finds one line, its terminator and its mark. */
    method SplitNext(raw: nat, first: bool) returns (l: RawLine)
      requires raw < |source|
      ensures l == LineAt(source, raw, first)
    {
      var position := raw;
      while position < |source| && source[position] != CR && source[position] != LF
        invariant raw <= position <= |source|
        invariant LineEnd(source, position) == LineEnd(source, raw)
      {
        position := position + 1;
      }
      var contentBegin, contentEnd := raw, position;
      if position < |source| && source[position] == CR {
        position := position + 1;
        if position < |source| && source[position] == LF {
          position := position + 1;
        }
      } else if position < |source| && source[position] == LF {
        position := position + 1;
      }
      if first && contentEnd - contentBegin >= 3 && source[contentBegin] == 0xef &&
         source[contentBegin + 1] == 0xbb && source[contentBegin + 2] == 0xbf
      {
        contentBegin := contentBegin + 3;
      }
      l := RawLine(raw, position, contentBegin, contentEnd);
    }

    /** Models the outer loop and the finalization after it. */
    method Scan()
      requires Valid() && st == INITIAL
      modifies this, lines, cheats, operations
      ensures Valid() && st == Parsed(source)
    {
      var position := 0;
      while position < |source|
        invariant 0 <= position <= |source| && Valid()
        invariant (report.totalLines == 0) == (position == 0)
        invariant Run(st, Items(source, position, position == 0)) == Run(INITIAL, Items(source, 0, true))
      {
        var l := SplitNext(position, report.totalLines == 0);
        ghost var items := Items(source, position, position == 0);
        ghost var before := st;
        StoreLine(l.rawBegin, l.rawEnd, l.contentBegin, l.contentEnd);
        TakeLine(before, l);
        assert items[0] == ItemAt(source, position, position == 0);
        assert items[1..] == Items(source, l.rawEnd, false);
        StepShape(before, items[0]);
        position := l.rawEnd;
      }
      FinalizeActiveCheat();
    }
  }

  /** Models `vc_psv_parse` on buffers that do not overlap. */
  method Parse(source: seq<byte>, lines: array<Line>, cheats: array<Cheat>, operations: array<Operation>)
    returns (status: Status, report: Option<Report>)
    modifies lines, cheats, operations
    ensures Outcome(status, report, lines[..], cheats[..], operations[..]) ==
            OutcomeOf(source, old(lines[..]), old(cheats[..]), old(operations[..]))
  {
    if |source| > MAX_SOURCE_BYTES {
      return SourceTooLarge, None;
    }
    var p := new Parser(source, lines, cheats, operations);
    p.Scan();
    var result := p.report;
    if result.storedLines != result.totalLines || result.storedCheats != result.totalCheats ||
       result.storedOperations != result.totalOperations
    {
      Clear(lines, result.storedLines, ZERO_LINE);
      Clear(cheats, result.storedCheats, ZERO_CHEAT);
      Clear(operations, result.storedOperations, ZERO_OPERATION);
      result := result.(storedLines := 0, storedCheats := 0, storedOperations := 0);
      return Truncated, Some(result);
    }
    return Ok, Some(result);
  }
}
