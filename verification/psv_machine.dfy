/**
  The importer's one-pass machine on values: what one line does to the parse state, and the outcome
  of a whole parse for given output buffers. Output lists here are unbounded; `Outcome` applies the
  caller's capacities and the all-or-nothing rule.
 */
module PsvMachine {
  import opened Bits
  import opened Common
  import opened PsvText
  import opened PsvLines

  const SCHEMA_VERSION: nat := 2
  const MAX_SOURCE_BYTES: nat := 1024 * 1024
  const LEGACY_MAX_CHEATS: nat := 50
  const LEGACY_MAX_CODES_PER_CHEAT: nat := 200
  const LEGACY_MAX_DESCRIPTION_BYTES: nat := 65

  // ----- records ----------------------------------------------------------------------------

  /** An index into an output array; `NoIndex` is the VC_PSV_NO_INDEX sentinel. */
  datatype Index = NoIndex | At(value: nat)

  datatype Span = Span(offset: nat, length: nat)

  datatype LineKind = BlankLine | CommentLine | CheatHeaderLine | CodeLine | OpaqueLine | MalformedLine

  datatype Line = Line(raw: Span, content: Span, kind: LineKind, cheatIndex: Index, operationIndex: Index)

  datatype Activation = Manual | Autostart

  datatype TranslationState = DirectOnly | ModuleRelative | RequiresUnsupported | Malformed

  function Severity(t: TranslationState): nat {
    match t
    case DirectOnly => 0
    case ModuleRelative => 1
    case RequiresUnsupported => 2
    case Malformed => 3
  }

  function Worse(a: TranslationState, b: TranslationState): TranslationState {
    if Severity(b) > Severity(a) then b else a
  }

  datatype Cheat = Cheat(
    activation: Activation,
    translationState: TranslationState,
    description: Span,
    headerLineIndex: nat,
    firstOperationIndex: nat,
    operationCount: nat)

  datatype OperationKind = OpaqueOperation | WriteU8 | WriteU16 | WriteU32 | SelectModuleBase

  datatype AddressMode = NotApplicable | Absolute | SelectedModuleRelative

  datatype Operation = Operation(
    kind: OperationKind,
    addressMode: AddressMode,
    rec: CodeRecord,
    cheatIndex: nat,
    lineIndex: nat)

  function KindOf(code: nat): OperationKind {
    if code == 0x0000 then WriteU8
    else if code == 0x0100 then WriteU16
    else if code == 0x0200 then WriteU32
    else if code == 0xb200 then SelectModuleBase
    else OpaqueOperation
  }

  predicate IsTypedWrite(k: OperationKind) { k.WriteU8? || k.WriteU16? || k.WriteU32? }

  // ----- parse state ------------------------------------------------------------------------

  /** The per-cheat variables: which cheat is open and what has been seen in it so far. */
  datatype Current = Current(active: Index, operations: nat, tainted: bool, baseActive: bool, writeSeen: bool)

  /** The report's diagnostic counters. */
  datatype Tally = Tally(unsupported: nat, nonDirect: nat, invalid: nat, malformed: nat, limits: nat)

  datatype State = State(
    lines: seq<Line>,
    cheats: seq<Cheat>,
    operations: seq<Operation>,
    cur: Current,
    tally: Tally)

  const INITIAL: State := State([], [], [], Fresh(NoIndex), Tally(0, 0, 0, 0, 0))

  function Fresh(active: Index): Current { Current(active, 0, false, false, false) }

  /** Only the newest cheat can be active. */
  predicate Valid(st: State) { st.cur.active.At? ==> st.cur.active.value + 1 == |st.cheats| }

  type GoodState = st: State | Valid(st) witness INITIAL

  function Taint(st: GoodState, t: TranslationState): GoodState {
    if st.cur.active.NoIndex? then st else
      var i := st.cur.active.value;
      var c := st.cheats[i];
      st.(cur := st.cur.(tainted := true),
          tally := if st.cur.tainted then st.tally else st.tally.(nonDirect := st.tally.nonDirect + 1),
          cheats := st.cheats[i := c.(translationState := Worse(c.translationState, t))])
  }

  function CountInvalid(st: GoodState): GoodState {
    st.(tally := st.tally.(invalid := st.tally.invalid + 1))
  }

  function Finalize(st: GoodState): GoodState {
    if st.cur.active.At? && st.cur.baseActive && !st.cur.writeSeen then Taint(CountInvalid(st), Malformed)
    else st
  }

  function RawSpan(l: RawLine): Span
    requires l.rawBegin <= l.rawEnd
  {
    Span(l.rawBegin, l.rawEnd - l.rawBegin)
  }

  function ContentSpan(l: RawLine): Span
    requires l.contentBegin <= l.contentEnd
  {
    Span(l.contentBegin, l.contentEnd - l.contentBegin)
  }

  predicate Ordered(l: RawLine) { l.rawBegin <= l.contentBegin <= l.contentEnd <= l.rawEnd }

  type SplitLine = l: RawLine | Ordered(l) witness RawLine(0, 0, 0, 0)

  function MakeLine(l: SplitLine, kind: LineKind, cheat: Index, operation: Index): Line {
    Line(RawSpan(l), ContentSpan(l), kind, cheat, operation)
  }

  function AddLine(st: GoodState, line: Line): GoodState {
    st.(lines := st.lines + [line])
  }

  function OpenCheat(st: GoodState, l: SplitLine, h: Token): GoodState
    requires h.Header?
  {
    var cheat := Cheat(
      if h.autostart then Autostart else Manual, DirectOnly,
      Span(l.contentBegin + h.descriptionOffset, h.descriptionLength),
      |st.lines|, |st.operations|, 0);
    var index := At(|st.cheats|);
    var violations :=
      (if h.descriptionLength > LEGACY_MAX_DESCRIPTION_BYTES then 1 else 0) +
      (if |st.cheats| == LEGACY_MAX_CHEATS then 1 else 0);
    State(st.lines + [MakeLine(l, CheatHeaderLine, index, NoIndex)],
          st.cheats + [cheat],
          st.operations,
          Fresh(index),
          st.tally.(limits := st.tally.limits + violations))
  }

  function AddMalformedLine(st: GoodState, l: SplitLine): GoodState {
    st.(lines := st.lines + [MakeLine(l, MalformedLine, NoIndex, NoIndex)],
        tally := st.tally.(malformed := st.tally.malformed + 1))
  }

  predicate SelectorAccepted(cur: Current, r: CodeRecord) {
    cur.operations == 0 && !cur.baseActive && r.address <= 0xff && r.value <= 1
  }

  /** The state change caused by an operation's kind, before the operation is recorded. */
  function Judge(st: GoodState, r: CodeRecord): GoodState {
    match KindOf(r.code)
    case SelectModuleBase =>
      if SelectorAccepted(st.cur, r) then
        Taint(st.(cur := st.cur.(baseActive := true, writeSeen := false)), ModuleRelative)
      else
        Taint(CountInvalid(st), Malformed)
    case OpaqueOperation =>
      Taint(st.(tally := st.tally.(unsupported := st.tally.unsupported + 1)), RequiresUnsupported)
    case _ => st.(cur := st.cur.(writeSeen := st.cur.writeSeen || st.cur.baseActive))
  }

  function ModeOf(baseActive: bool, kind: OperationKind): AddressMode {
    if !IsTypedWrite(kind) then NotApplicable
    else if baseActive then SelectedModuleRelative else Absolute
  }

  function CountedOperation(st: GoodState): GoodState
    requires st.cur.active.At?
  {
    var i := st.cur.active.value;
    var c := st.cheats[i];
    var violations := if st.cur.operations == LEGACY_MAX_CODES_PER_CHEAT then 1 else 0;
    st.(cheats := st.cheats[i := c.(operationCount := c.operationCount + 1)],
        cur := st.cur.(operations := st.cur.operations + 1),
        tally := st.tally.(limits := st.tally.limits + violations))
  }

  function RecordOperation(st: GoodState, operation: Operation): GoodState
    requires st.cur.active.At?
  {
    CountedOperation(st.(operations := st.operations + [operation]))
  }

  function OperationFor(st: GoodState, r: CodeRecord): Operation
    requires st.cur.active.At?
  {
    Operation(KindOf(r.code), ModeOf(st.cur.baseActive, KindOf(r.code)), r, st.cur.active.value, |st.lines|)
  }

  function AddOperation(st: GoodState, l: SplitLine, r: CodeRecord): GoodState
    requires st.cur.active.At?
  {
    AddLine(RecordOperation(Judge(st, r), OperationFor(st, r)),
            MakeLine(l, CodeLine, st.cur.active, At(|st.operations|)))
  }

  function Step(st: GoodState, l: SplitLine, token: Token): GoodState {
    match token
    case Blank => AddLine(st, MakeLine(l, BlankLine, NoIndex, NoIndex))
    case Comment => AddLine(st, MakeLine(l, CommentLine, NoIndex, NoIndex))
    case Header(_, _, _) => OpenCheat(Finalize(st), l, token)
    case BadHeader => AddMalformedLine(Taint(Finalize(st), Malformed), l).(cur := Fresh(NoIndex))
    case BadCode => AddMalformedLine(Taint(st, Malformed), l)
    case Code(r) => if st.cur.active.NoIndex? then AddMalformedLine(st, l) else AddOperation(st, l, r)
    case OpaqueText =>
      AddLine(Taint(st, RequiresUnsupported), MakeLine(l, OpaqueLine, st.cur.active, NoIndex))
  }

  // ----- whole runs -------------------------------------------------------------------------

  datatype Item = Item(line: SplitLine, token: Token)

  function ItemAt(s: seq<byte>, pos: nat, first: bool): Item
    requires pos < |s|
  {
    var l := LineAt(s, pos, first);
    Item(l, Classify(s[l.contentBegin..l.contentEnd]))
  }

  /** The classified lines of the source from `pos` on. */
  function Items(s: seq<byte>, pos: nat, first: bool): seq<Item>
    requires pos <= |s|
    decreases |s| - pos
  {
    if pos == |s| then [] else
      [ItemAt(s, pos, first)] + Items(s, ItemAt(s, pos, first).line.rawEnd, false)
  }

  function Run(st: GoodState, items: seq<Item>): GoodState
    decreases |items|
  {
    if items == [] then st else Run(Step(st, items[0].line, items[0].token), items[1..])
  }

  /** The parse of a whole source: all lines in order, then the last cheat is finalized. */
  function Parsed(s: seq<byte>): GoodState {
    Finalize(Run(INITIAL, Items(s, 0, true)))
  }

  lemma {:induction false} RunConcat(st: GoodState, a: seq<Item>, b: seq<Item>)
    ensures Run(st, a + b) == Run(Run(st, a), b)
    decreases |a|
  {
    if a == [] {
      assert a + b == b;
    } else {
      assert (a + b)[1..] == a[1..] + b;
      RunConcat(Step(st, a[0].line, a[0].token), a[1..], b);
    }
  }

  // ----- outcome for given buffers ----------------------------------------------------------

  datatype Status = Ok | Truncated | InvalidArgument | SourceTooLarge

  datatype Report = Report(
    schemaVersion: nat,
    sourceSize: nat,
    totalLines: nat,
    storedLines: nat,
    totalCheats: nat,
    storedCheats: nat,
    totalOperations: nat,
    storedOperations: nat,
    tally: Tally)

  function ReportOf(st: State, size: nat, lineCapacity: nat, cheatCapacity: nat, operationCapacity: nat): Report {
    Report(SCHEMA_VERSION, size,
           |st.lines|, Min(|st.lines|, lineCapacity),
           |st.cheats|, Min(|st.cheats|, cheatCapacity),
           |st.operations|, Min(|st.operations|, operationCapacity),
           st.tally)
  }

  /** A buffer whose first slots received `s`, as far as it is long enough; the rest is kept. */
  function Overlay<T>(buffer: seq<T>, s: seq<T>): (r: seq<T>)
    ensures |r| == |buffer|
  {
    if |s| >= |buffer| then s[..|buffer|] else s + buffer[|s|..]
  }

  /** A buffer whose first `n` slots were zeroed. */
  function ZeroPrefix<T>(buffer: seq<T>, n: nat, zero: T): (r: seq<T>)
    requires n <= |buffer|
    ensures |r| == |buffer|
  {
    seq(n, _ => zero) + buffer[n..]
  }

  const ZERO_LINE: Line := Line(Span(0, 0), Span(0, 0), BlankLine, At(0), At(0))
  const ZERO_CHEAT: Cheat := Cheat(Manual, DirectOnly, Span(0, 0), 0, 0, 0)
  const ZERO_OPERATION: Operation := Operation(OpaqueOperation, NotApplicable, CodeRecord(0, 0, 0), 0, 0)

  /** Everything a call leaves behind: its status, its report if one is written, and the buffers. */
  datatype Outcome = Outcome(
    status: Status,
    report: Option<Report>,
    lines: seq<Line>,
    cheats: seq<Cheat>,
    operations: seq<Operation>)

  predicate Fits(st: State, lineCapacity: nat, cheatCapacity: nat, operationCapacity: nat) {
    |st.lines| <= lineCapacity && |st.cheats| <= cheatCapacity && |st.operations| <= operationCapacity
  }

  function OutcomeOf(s: seq<byte>, lines: seq<Line>, cheats: seq<Cheat>, operations: seq<Operation>): Outcome {
    if |s| > MAX_SOURCE_BYTES then Outcome(SourceTooLarge, None, lines, cheats, operations)
    else
      var st := Parsed(s);
      var report := ReportOf(st, |s|, |lines|, |cheats|, |operations|);
      if Fits(st, |lines|, |cheats|, |operations|) then
        Outcome(Ok, Some(report), Overlay(lines, st.lines), Overlay(cheats, st.cheats),
                Overlay(operations, st.operations))
      else
        Outcome(Truncated, Some(report.(storedLines := 0, storedCheats := 0, storedOperations := 0)),
                ZeroPrefix(lines, report.storedLines, ZERO_LINE),
                ZeroPrefix(cheats, report.storedCheats, ZERO_CHEAT),
                ZeroPrefix(operations, report.storedOperations, ZERO_OPERATION))
  }
}
