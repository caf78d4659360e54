/**
  What a caller of `vc_psv_parse` can rely on: nothing of the source is lost, reports do not depend
  on the buffers offered, and a call that runs out of room leaves nothing half done.
 */
module PsvOutcome {
  import opened Bits
  import opened Common
  import opened PsvText
  import opened PsvLines
  import opened PsvMachine
  import opened PsvGraph

  // ----- recorded lines are the split lines -------------------------------------------------

  ghost predicate SpansOf(line: Line, l: RawLine) {
    Ordered(l) && line.raw == RawSpan(l) && line.content == ContentSpan(l)
  }

  lemma StepRecordsLine(st: GoodState, item: Item)
    ensures var st' := Step(st, item.line, item.token);
            && |st'.lines| == |st.lines| + 1 && st'.lines[..|st.lines|] == st.lines
            && SpansOf(st'.lines[|st.lines|], item.line)
  {
    StepShape(st, item);
  }

  lemma {:induction false} RunRecordsLines(st: GoodState, items: seq<Item>)
    ensures var st' := Run(st, items);
            && |st'.lines| == |st.lines| + |items| && st.lines <= st'.lines
            && forall k :: 0 <= k < |items| ==> SpansOf(st'.lines[|st.lines| + k], items[k].line)
    decreases |items|
  {
    if items != [] {
      var next := Step(st, items[0].line, items[0].token);
      var final := Run(next, items[1..]);
      StepRecordsLine(st, items[0]);
      RunRecordsLines(next, items[1..]);
      assert final.lines[|st.lines|] == next.lines[|st.lines|];
      forall k | 0 <= k < |items| ensures SpansOf(final.lines[|st.lines| + k], items[k].line) {
        if k > 0 { assert items[k] == items[1..][k - 1]; }
      }
    }
  }

  lemma {:induction false} ItemsAreLines(s: seq<byte>, pos: nat, first: bool)
    requires pos <= |s|
    ensures var items, ls := Items(s, pos, first), Lines(s, pos, first);
            |items| == |ls| && forall k :: 0 <= k < |ls| ==> items[k].line == ls[k]
    decreases |s| - pos
  {
    if pos < |s| {
      ItemsAreLines(s, LineAt(s, pos, first).rawEnd, false);
    }
  }

  lemma RecordedLines(s: seq<byte>)
    ensures var ls, lines := Lines(s, 0, true), Parsed(s).lines;
            |lines| == |ls| && forall k :: 0 <= k < |ls| ==> SpansOf(lines[k], ls[k])
  {
    var items := Items(s, 0, true);
    RunRecordsLines(INITIAL, items);
    FinalizeShape(Run(INITIAL, items));
    ItemsAreLines(s, 0, true);
  }

  // ----- losslessness -----------------------------------------------------------------------

  predicate WithinSource(p: Span, s: seq<byte>) { p.offset + p.length <= |s| }

  function Bytes(s: seq<byte>, p: Span): seq<byte> {
    if WithinSource(p, s) then s[p.offset..p.offset + p.length] else []
  }

  ghost function Concatenated(s: seq<byte>, lines: seq<Line>): seq<byte> {
    if lines == [] then [] else Bytes(s, lines[0].raw) + Concatenated(s, lines[1..])
  }

  /** A raw line is a byte order mark (first line only), its content without line ends, and a whole terminator. */
  ghost predicate Composed(raw: seq<byte>, mark: seq<byte>, content: seq<byte>, terminator: seq<byte>,
                           first: bool, last: bool) {
    && raw == mark + (content + terminator)
    && (forall i :: 0 <= i < |content| ==> content[i] != 13 && content[i] != 10)
    && (mark == [] || (mark == [0xef, 0xbb, 0xbf] && first))
    && (mark == [] && first ==> !([0xef, 0xbb, 0xbf] <= content))
    && (if terminator == [] then last else IsTerminator(terminator))
  }

  ghost predicate RawComposed(raw: seq<byte>, content: seq<byte>, first: bool, last: bool) {
    exists mark, terminator :: Composed(raw, mark, content, terminator, first, last)
  }

  ghost predicate LineComposed(s: seq<byte>, lines: seq<Line>, k: nat)
    requires k < |lines|
  {
    && WithinSource(lines[k].raw, s) && WithinSource(lines[k].content, s)
    && RawComposed(Bytes(s, lines[k].raw), Bytes(s, lines[k].content), k == 0, k == |lines| - 1)
  }

  /** Raw span `k` is not empty and reaches to the next one, or to the end of the source. */
  predicate Reaches(s: seq<byte>, lines: seq<Line>, k: nat)
    requires k < |lines|
  {
    && lines[k].raw.length > 0
    && lines[k].raw.offset + lines[k].raw.length == (if k + 1 < |lines| then lines[k + 1].raw.offset else |s|)
  }

  lemma {:induction false} ContiguousAt(ls: seq<RawLine>, pos: nat, end: nat, k: nat)
    requires Contiguous(ls, pos, end) && k < |ls|
    ensures ls[k].rawEnd == if k + 1 < |ls| then ls[k + 1].rawBegin else end
    decreases |ls|
  {
    if k > 0 {
      ContiguousAt(ls[1..], ls[0].rawEnd, end, k - 1);
    } else if |ls| > 1 {
      assert ls[1..][0] == ls[1];
    }
  }

  lemma {:induction false} ConcatenatedIsReassembled(s: seq<byte>, lines: seq<Line>, ls: seq<RawLine>)
    requires |lines| == |ls| && forall k :: 0 <= k < |ls| ==> SpansOf(lines[k], ls[k]) && ls[k].rawEnd <= |s|
    ensures (forall k :: 0 <= k < |ls| ==> ls[k].rawBegin <= ls[k].rawEnd <= |s|)
            && Concatenated(s, lines) == Reassemble(s, ls)
    decreases |ls|
  {
    assert forall k :: 0 <= k < |ls| ==> SpansOf(lines[k], ls[k]);
    if ls != [] {
      ConcatenatedIsReassembled(s, lines[1..], ls[1..]);
    }
  }

  /** What is known of the k-th recorded line and the split line it came from. */
  lemma RecordedLine(s: seq<byte>, k: nat) returns (l: RawLine)
    requires k < |Parsed(s).lines|
    ensures var lines := Parsed(s).lines;
            SpansOf(lines[k], l) && WellSplit(s, l, k == 0) && Reaches(s, lines, k)
  {
    var lines, ls := Parsed(s).lines, Lines(s, 0, true);
    RecordedLines(s);
    LinesAreLossless(s, 0, true);
    ContiguousAt(ls, 0, |s|, k);
    l := ls[k];
    assert WellSplit(s, l, true && k == 0) && SpansOf(lines[k], l);
    assert k + 1 < |ls| ==> SpansOf(lines[k + 1], ls[k + 1]);
  }

  /** The recorded raw spans tile the source from its first byte to its last and give it back byte for byte. */
  lemma Lossless(s: seq<byte>)
    ensures var lines := Parsed(s).lines;
            && (lines == [] <==> s == [])
            && (lines != [] ==> lines[0].raw.offset == 0)
            && (forall k :: 0 <= k < |lines| ==> Reaches(s, lines, k))
            && Concatenated(s, lines) == s
  {
    var lines, ls := Parsed(s).lines, Lines(s, 0, true);
    RecordedLines(s);
    LinesAreLossless(s, 0, true);
    assert forall k :: 0 <= k < |ls| ==> WellSplit(s, ls[k], true && k == 0) && SpansOf(lines[k], ls[k]);
    ConcatenatedIsReassembled(s, lines, ls);
    assert s[0..] == s;
    forall k | 0 <= k < |lines| ensures Reaches(s, lines, k) {
      var l := RecordedLine(s, k);
    }
  }

  /** Every recorded line is well composed; only the last may lack a terminator. */
  lemma LinesComposed(s: seq<byte>, k: nat)
    requires k < |Parsed(s).lines|
    ensures LineComposed(s, Parsed(s).lines, k)
  {
    hide Parsed, RawComposed, IsTerminator;
    var lines := Parsed(s).lines;
    var l := RecordedLine(s, k);
    if k + 1 < |lines| {
      var next := RecordedLine(s, k + 1);
    }
    SplitComposed(s, l, k == 0, k == |lines| - 1);
  }

  lemma SplitComposed(s: seq<byte>, l: RawLine, first: bool, last: bool)
    requires WellSplit(s, l, first) && (l.rawEnd == |s| ==> last)
    ensures RawComposed(s[l.rawBegin..l.rawEnd], s[l.contentBegin..l.contentEnd], first, last)
  {
    var mark, content := s[l.rawBegin..l.contentBegin], s[l.contentBegin..l.contentEnd];
    var terminator := s[l.contentEnd..l.rawEnd];
    assert s[l.rawBegin..l.rawEnd] == mark + (content + terminator);
    assert forall i :: 0 <= i < |content| ==> content[i] == s[l.contentBegin + i];
    assert Composed(s[l.rawBegin..l.rawEnd], mark, content, terminator, first, last);
  }

  lemma RawEnds(s: seq<byte>, p: Span)
    requires WithinSource(p, s) && p.length > 0
    ensures var raw := Bytes(s, p);
            |raw| == p.length && raw[0] == s[p.offset] && raw[|raw| - 1] == s[p.offset + p.length - 1]
  {
  }

  lemma WholeTerminator(s: seq<byte>, l: RawLine, first: bool)
    requires WellSplit(s, l, first)
    ensures 0 < l.rawEnd < |s| ==> !(s[l.rawEnd - 1] == 13 && s[l.rawEnd] == 10)
  {
  }

  /** CRLF is never split: no raw line ends in CR where the next one starts with LF. */
  lemma CrLfStaysTogether(s: seq<byte>, k: nat)
    requires k + 1 < |Parsed(s).lines|
    ensures var line, next := Bytes(s, Parsed(s).lines[k].raw), Bytes(s, Parsed(s).lines[k + 1].raw);
            line != [] && next != [] && !(line[|line| - 1] == 13 && next[0] == 10)
  {
    hide Parsed, IsTerminator, Bytes;
    var l := RecordedLine(s, k);
    var next := RecordedLine(s, k + 1);
    WholeTerminator(s, l, k == 0);
    hide WellSplit;
    RawEnds(s, Parsed(s).lines[k].raw);
    RawEnds(s, Parsed(s).lines[k + 1].raw);
  }

  /** Totals are bounded by the source, so 32-bit spans and the index sentinel are never exceeded. */
  lemma TotalsBounded(s: seq<byte>)
    ensures var st := Parsed(s);
            && |st.lines| <= |s| && |st.operations| <= |st.lines| && |st.cheats| <= |st.lines|
  {
    RecordedLines(s);
    LinesAreLossless(s, 0, true);
    RunBounds(INITIAL, Items(s, 0, true));
    FinalizeShape(Run(INITIAL, Items(s, 0, true)));
  }

  lemma {:induction false} RunBounds(st: GoodState, items: seq<Item>)
    requires |st.operations| <= |st.lines| && |st.cheats| <= |st.lines|
    ensures var st' := Run(st, items); |st'.operations| <= |st'.lines| && |st'.cheats| <= |st'.lines|
    decreases |items|
  {
    if items != [] {
      StepShape(st, items[0]);
      RunBounds(Step(st, items[0].line, items[0].token), items[1..]);
    }
  }

  // ----- buffers ----------------------------------------------------------------------------

  /** The report with the fields that depend on capacities blanked out. */
  function SourceReport(r: Report): Report {
    r.(storedLines := 0, storedCheats := 0, storedOperations := 0)
  }

  /** Two calls on the same source report the same, whatever buffers they were given. */
  lemma ReportIndependentOfCapacity(s: seq<byte>, l1: seq<Line>, c1: seq<Cheat>, o1: seq<Operation>,
                                    l2: seq<Line>, c2: seq<Cheat>, o2: seq<Operation>)
    ensures var a, b := OutcomeOf(s, l1, c1, o1).report, OutcomeOf(s, l2, c2, o2).report;
            a.Some? == b.Some? && (a.Some? ==> SourceReport(a.value) == SourceReport(b.value))
  {
  }

  /** The status says exactly whether the source and then all three totals fit. */
  lemma StatusExact(s: seq<byte>, l: seq<Line>, c: seq<Cheat>, o: seq<Operation>)
    ensures var r := OutcomeOf(s, l, c, o);
            && (r.status == SourceTooLarge <==> |s| > 1024 * 1024)
            && (r.status == SourceTooLarge ==> r.report == None && r.lines == l && r.cheats == c && r.operations == o)
            && (r.status != SourceTooLarge ==> r.report.Some?)
            && (r.report.Some? ==>
                  (r.status == Ok <==>
                     && r.report.value.totalLines <= |l| && r.report.value.totalCheats <= |c|
                     && r.report.value.totalOperations <= |o|))
            && (r.status == Ok || r.status == Truncated || r.status == SourceTooLarge)
  {
  }

  /** Every field of every report, and when there is one. */
  lemma ReportExact(s: seq<byte>, l: seq<Line>, c: seq<Cheat>, o: seq<Operation>)
    ensures var r, st := OutcomeOf(s, l, c, o), Parsed(s);
            && (r.report.Some? <==> |s| <= 1024 * 1024)
            && (r.report.Some? ==>
                  var report, fits := r.report.value, |st.lines| <= |l| && |st.cheats| <= |c| && |st.operations| <= |o|;
                  && report.schemaVersion == 2 && report.sourceSize == |s|
                  && report.totalLines == |st.lines| && report.totalCheats == |st.cheats|
                  && report.totalOperations == |st.operations| && report.tally == st.tally
                  && report.storedLines == (if fits then |st.lines| else 0)
                  && report.storedCheats == (if fits then |st.cheats| else 0)
                  && report.storedOperations == (if fits then |st.operations| else 0)
                  && r.status == (if fits then Ok else Truncated))
  {
    hide Parsed;
  }

  /** A call with no room at all reports the sizes with which the next call succeeds. */
  lemma SizesFromEmptyCall(s: seq<byte>, l: seq<Line>, c: seq<Cheat>, o: seq<Operation>)
    requires |s| <= 1024 * 1024
    ensures var r := OutcomeOf(s, [], [], []).report;
            && r.Some?
            && (|l| == r.value.totalLines && |c| == r.value.totalCheats && |o| == r.value.totalOperations ==>
                  var st := Parsed(s);
                  var full := OutcomeOf(s, l, c, o);
                  && full.status == Ok && full.lines == st.lines
                  && full.cheats == st.cheats && full.operations == st.operations
                  && full.report.value.storedLines == |st.lines| && full.report.value.storedCheats == |st.cheats|
                  && full.report.value.storedOperations == |st.operations|)
  {
  }

  /** After OK the buffers start with the complete lists and are otherwise untouched. */
  lemma CompleteOutcome(s: seq<byte>, l: seq<Line>, c: seq<Cheat>, o: seq<Operation>)
    requires OutcomeOf(s, l, c, o).status == Ok
    ensures var r, st := OutcomeOf(s, l, c, o), Parsed(s);
            && st.lines <= r.lines && st.cheats <= r.cheats && st.operations <= r.operations
            && r.lines[|st.lines|..] == l[|st.lines|..] && r.cheats[|st.cheats|..] == c[|st.cheats|..]
            && r.operations[|st.operations|..] == o[|st.operations|..]
            && r.report.value.tally == st.tally
            && r.report.value.storedLines == r.report.value.totalLines == |st.lines|
            && r.report.value.storedCheats == r.report.value.totalCheats == |st.cheats|
            && r.report.value.storedOperations == r.report.value.totalOperations == |st.operations|
  {
  }

  ghost predicate Cleared<T>(before: seq<T>, after: seq<T>, total: nat, zero: T) {
    |after| == |before| && forall k :: 0 <= k < |after| ==> after[k] == if k < total then zero else before[k]
  }

  /** After TRUNCATED every slot that had been written is zero, the rest is untouched, and nothing is stored. */
  lemma TruncatedIsCleared(s: seq<byte>, l: seq<Line>, c: seq<Cheat>, o: seq<Operation>)
    requires OutcomeOf(s, l, c, o).status == Truncated
    ensures var r := OutcomeOf(s, l, c, o);
            && r.report.Some?
            && r.report.value.storedLines == r.report.value.storedCheats == r.report.value.storedOperations == 0
            && Cleared(l, r.lines, r.report.value.totalLines, Line(Span(0, 0), Span(0, 0), BlankLine, At(0), At(0)))
            && Cleared(c, r.cheats, r.report.value.totalCheats, Cheat(Manual, DirectOnly, Span(0, 0), 0, 0, 0))
            && Cleared(o, r.operations, r.report.value.totalOperations,
                       Operation(OpaqueOperation, NotApplicable, CodeRecord(0, 0, 0), 0, 0))
  {
  }
}
