/**
  The closed object graph: in every parse the line, cheat and operation lists point at each other
  consistently, and the cheats' operation ranges tile the operation list.
 */
module PsvGraph {
  import opened Bits
  import opened PsvText
  import opened PsvMachine

  predicate Inside(inner: Span, outer: Span) {
    outer.offset <= inner.offset && inner.offset + inner.length <= outer.offset + outer.length
  }

  predicate LineLinked(st: State, k: nat)
    requires k < |st.lines|
  {
    var l := st.lines[k];
    match l.kind
    case CodeLine =>
      && l.operationIndex.At? && l.operationIndex.value < |st.operations|
      && st.operations[l.operationIndex.value].lineIndex == k
      && l.cheatIndex == At(st.operations[l.operationIndex.value].cheatIndex)
    case CheatHeaderLine =>
      && l.operationIndex.NoIndex? && l.cheatIndex.At? && l.cheatIndex.value < |st.cheats|
      && st.cheats[l.cheatIndex.value].headerLineIndex == k
    case OpaqueLine =>
      && l.operationIndex.NoIndex? && (l.cheatIndex.At? ==> l.cheatIndex.value < |st.cheats|)
    case _ => l.operationIndex.NoIndex? && l.cheatIndex.NoIndex?
  }

  predicate OperationLinked(st: State, j: nat)
    requires j < |st.operations|
  {
    var k := st.operations[j].lineIndex;
    k < |st.lines| && st.lines[k].kind.CodeLine? && st.lines[k].operationIndex == At(j)
  }

  predicate CheatLinked(st: State, i: nat)
    requires i < |st.cheats|
  {
    var k := st.cheats[i].headerLineIndex;
    && k < |st.lines| && st.lines[k].kind.CheatHeaderLine? && st.lines[k].cheatIndex == At(i)
    && Inside(st.cheats[i].description, st.lines[k].content)
  }

  ghost predicate Linked(st: State) {
    && (forall k :: 0 <= k < |st.lines| ==> LineLinked(st, k))
    && (forall j :: 0 <= j < |st.operations| ==> OperationLinked(st, j))
    && (forall i :: 0 <= i < |st.cheats| ==> CheatLinked(st, i))
  }

  function RangeEnd(c: Cheat): nat { c.firstOperationIndex + c.operationCount }

  /** Ranges are consecutive, start at 0, end at the operation count, and hold exactly their cheat's operations. */
  ghost predicate Tiled(cheats: seq<Cheat>, operations: seq<Operation>) {
    && (cheats == [] ==> operations == [])
    && (cheats != [] ==> cheats[0].firstOperationIndex == 0 && RangeEnd(cheats[|cheats| - 1]) == |operations|)
    && (forall i :: 0 < i < |cheats| ==> RangeEnd(cheats[i - 1]) == cheats[i].firstOperationIndex)
    && (forall i :: 0 <= i < |cheats| ==> RangeEnd(cheats[i]) <= |operations|)
    && (forall j :: 0 <= j < |operations| ==> operations[j].cheatIndex < |cheats|)
    && (forall i, j :: 0 <= i < |cheats| && 0 <= j < |operations| ==>
          (operations[j].cheatIndex == i <==> cheats[i].firstOperationIndex <= j < RangeEnd(cheats[i])))
  }

  /** Two cheat lists that differ in nothing but translation states. */
  ghost predicate SameShape(a: seq<Cheat>, b: seq<Cheat>) {
    |a| == |b| && forall i :: 0 <= i < |a| ==> b[i] == a[i].(translationState := b[i].translationState)
  }

  predicate ItemFits(item: Item) {
    item.token.Header? ==>
      item.token.descriptionOffset + item.token.descriptionLength <= item.line.contentEnd - item.line.contentBegin
  }

  // ----- links ------------------------------------------------------------------------------

  lemma LinkedReshaped(st: State, st': State)
    requires Linked(st) && st'.lines == st.lines && st'.operations == st.operations && SameShape(st.cheats, st'.cheats)
    ensures Linked(st')
  {
    forall k | 0 <= k < |st'.lines| ensures LineLinked(st', k) { assert LineLinked(st, k); }
    forall j | 0 <= j < |st'.operations| ensures OperationLinked(st', j) { assert OperationLinked(st, j); }
    forall i | 0 <= i < |st'.cheats| ensures CheatLinked(st', i) { assert CheatLinked(st, i); }
  }

  /** Appending a line that is neither a header nor a code line. */
  lemma LinkedPlainLine(st: State, st': State, line: Line)
    requires Linked(st) && st'.lines == st.lines + [line]
    requires st'.operations == st.operations && st'.cheats == st.cheats
    requires !line.kind.CodeLine? && !line.kind.CheatHeaderLine? && line.operationIndex.NoIndex?
    requires line.cheatIndex.At? ==> line.kind.OpaqueLine? && line.cheatIndex.value < |st.cheats|
    ensures Linked(st')
  {
    forall k | 0 <= k < |st'.lines| ensures LineLinked(st', k) {
      if k < |st.lines| { assert LineLinked(st, k); }
    }
    forall j | 0 <= j < |st'.operations| ensures OperationLinked(st', j) { assert OperationLinked(st, j); }
    forall i | 0 <= i < |st'.cheats| ensures CheatLinked(st', i) { assert CheatLinked(st, i); }
  }

  lemma LinkedHeader(st: GoodState, item: Item)
    requires Linked(st) && item.token.Header? && ItemFits(item)
    ensures Linked(OpenCheat(st, item.line, item.token))
  {
    var st' := OpenCheat(st, item.line, item.token);
    forall k | 0 <= k < |st'.lines| ensures LineLinked(st', k) {
      if k < |st.lines| { assert LineLinked(st, k); }
    }
    forall j | 0 <= j < |st'.operations| ensures OperationLinked(st', j) { assert OperationLinked(st, j); }
    forall i | 0 <= i < |st'.cheats| ensures CheatLinked(st', i) {
      if i < |st.cheats| { assert CheatLinked(st, i); }
    }
  }

  lemma LinkedOperation(st: GoodState, st': State, line: Line, operation: Operation)
    requires Linked(st) && st'.lines == st.lines + [line] && st'.operations == st.operations + [operation]
    requires |st'.cheats| == |st.cheats|
    requires forall i :: 0 <= i < |st.cheats| ==>
               && st'.cheats[i].headerLineIndex == st.cheats[i].headerLineIndex
               && st'.cheats[i].description == st.cheats[i].description
    requires line.kind.CodeLine? && line.operationIndex == At(|st.operations|)
    requires line.cheatIndex == At(operation.cheatIndex) && operation.lineIndex == |st.lines|
    ensures Linked(st')
  {
    forall k | 0 <= k < |st'.lines| ensures LineLinked(st', k) {
      if k < |st.lines| { assert LineLinked(st, k); }
    }
    forall j | 0 <= j < |st'.operations| ensures OperationLinked(st', j) {
      if j < |st.operations| { assert OperationLinked(st, j); }
    }
    forall i | 0 <= i < |st'.cheats| ensures CheatLinked(st', i) { assert CheatLinked(st, i); }
  }

  lemma TaintShape(st: GoodState, t: TranslationState)
    ensures var st' := Taint(st, t);
            && st'.lines == st.lines && st'.operations == st.operations && SameShape(st.cheats, st'.cheats)
            && st'.cur.active == st.cur.active
  {
  }

  lemma FinalizeShape(st: GoodState)
    ensures var st' := Finalize(st);
            && st'.lines == st.lines && st'.operations == st.operations && SameShape(st.cheats, st'.cheats)
            && st'.cur.active == st.cur.active
  {
    TaintShape(CountInvalid(st), Malformed);
  }

  lemma JudgeShape(st: GoodState, r: CodeRecord)
    ensures var st' := Judge(st, r);
            && st'.lines == st.lines && st'.operations == st.operations && SameShape(st.cheats, st'.cheats)
            && st'.cur.active == st.cur.active
  {
    var kind := KindOf(r.code);
    if kind.SelectModuleBase? {
      if SelectorAccepted(st.cur, r) {
        TaintShape(st.(cur := st.cur.(baseActive := true, writeSeen := false)), ModuleRelative);
      } else {
        TaintShape(CountInvalid(st), Malformed);
      }
    } else if kind.OpaqueOperation? {
      TaintShape(st.(tally := st.tally.(unsupported := st.tally.unsupported + 1)), RequiresUnsupported);
    }
  }

  /**
    What a step does to the three lists, whatever it does to translation states: it appends one
    line, and with it either nothing, a new empty cheat, or an operation of the open cheat.
   */
  lemma StepShape(st: GoodState, item: Item)
    ensures var st' := Step(st, item.line, item.token);
            && |st'.lines| == |st.lines| + 1 && st.lines == st'.lines[..|st.lines|]
            && (match item.token
                case Header(_, _, _) =>
                  && st'.operations == st.operations && |st'.cheats| == |st.cheats| + 1
                  && SameShape(st.cheats, st'.cheats[..|st.cheats|])
                  && st'.cheats[|st.cheats|] == OpenCheat(st, item.line, item.token).cheats[|st.cheats|]
                case Code(r) =>
                  if st.cur.active.NoIndex? then st'.operations == st.operations && st'.cheats == st.cheats
                  else
                    && st'.operations == st.operations + [OperationFor(st, r)]
                    && SameShape(CountedOperation(st).cheats, st'.cheats)
                case _ => st'.operations == st.operations && SameShape(st.cheats, st'.cheats))
  {
    match item.token
    case Blank =>
    case Comment =>
    case Header(_, _, _) => FinalizeShape(st);
    case BadHeader => FinalizeShape(st); TaintShape(Finalize(st), Malformed);
    case BadCode => TaintShape(st, Malformed);
    case Code(r) => JudgeShape(st, r);
    case OpaqueText => TaintShape(st, RequiresUnsupported);
  }

  lemma LinkedStep(st: GoodState, item: Item)
    requires Linked(st) && ItemFits(item)
    ensures Linked(Step(st, item.line, item.token))
  {
    var st' := Step(st, item.line, item.token);
    match item.token
    case Blank => LinkedPlainLine(st, st', MakeLine(item.line, BlankLine, NoIndex, NoIndex));
    case Comment => LinkedPlainLine(st, st', MakeLine(item.line, CommentLine, NoIndex, NoIndex));
    case Header(_, _, _) =>
      FinalizeShape(st);
      LinkedReshaped(st, Finalize(st));
      LinkedHeader(Finalize(st), item);
    case BadHeader =>
      FinalizeShape(st);
      TaintShape(Finalize(st), Malformed);
      LinkedReshaped(st, Taint(Finalize(st), Malformed));
      LinkedPlainLine(Taint(Finalize(st), Malformed), st', MakeLine(item.line, MalformedLine, NoIndex, NoIndex));
    case BadCode =>
      TaintShape(st, Malformed);
      LinkedReshaped(st, Taint(st, Malformed));
      LinkedPlainLine(Taint(st, Malformed), st', MakeLine(item.line, MalformedLine, NoIndex, NoIndex));
    case Code(r) =>
      if st.cur.active.NoIndex? {
        LinkedPlainLine(st, st', MakeLine(item.line, MalformedLine, NoIndex, NoIndex));
      } else {
        JudgeShape(st, r);
        LinkedOperation(st, st', MakeLine(item.line, CodeLine, st.cur.active, At(|st.operations|)),
                        OperationFor(st, r));
      }
    case OpaqueText =>
      TaintShape(st, RequiresUnsupported);
      LinkedReshaped(st, Taint(st, RequiresUnsupported));
      LinkedPlainLine(Taint(st, RequiresUnsupported), st', MakeLine(item.line, OpaqueLine, st.cur.active, NoIndex));
  }

  // ----- ranges -----------------------------------------------------------------------------

  lemma TiledReshaped(a: seq<Cheat>, b: seq<Cheat>, operations: seq<Operation>)
    requires Tiled(a, operations) && SameShape(a, b)
    ensures Tiled(b, operations)
  {
  }

  lemma TiledHeader(cheats: seq<Cheat>, operations: seq<Operation>, c: Cheat)
    requires Tiled(cheats, operations) && c.firstOperationIndex == |operations| && c.operationCount == 0
    ensures Tiled(cheats + [c], operations)
  {
  }

  lemma TiledOperation(cheats: seq<Cheat>, operations: seq<Operation>, operation: Operation)
    requires Tiled(cheats, operations) && cheats != [] && operation.cheatIndex == |cheats| - 1
    ensures var c := cheats[|cheats| - 1];
            Tiled(cheats[|cheats| - 1 := c.(operationCount := c.operationCount + 1)], operations + [operation])
  {
    var n := |cheats| - 1;
    var c := cheats[n];
    var cheats' := cheats[n := c.(operationCount := c.operationCount + 1)];
    var operations' := operations + [operation];
    forall i, j | 0 <= i < |cheats'| && 0 <= j < |operations'|
      ensures operations'[j].cheatIndex == i <==> cheats'[i].firstOperationIndex <= j < RangeEnd(cheats'[i])
    {
      if j < |operations| {
        assert operations[j].cheatIndex == i <==> cheats[i].firstOperationIndex <= j < RangeEnd(cheats[i]);
      } else {
        assert RangeEnd(cheats[i]) <= |operations|;
        assert RangeEnd(cheats[n]) == |operations|;
      }
    }
  }

  lemma TiledStep(st: GoodState, item: Item)
    requires Tiled(st.cheats, st.operations)
    ensures var st' := Step(st, item.line, item.token); Tiled(st'.cheats, st'.operations)
  {
    var st' := Step(st, item.line, item.token);
    StepShape(st, item);
    if item.token.Header? {
      var before := st'.cheats[..|st.cheats|];
      TiledReshaped(st.cheats, before, st.operations);
      TiledHeader(before, st.operations, st'.cheats[|st.cheats|]);
      assert st'.cheats == before + [st'.cheats[|st.cheats|]];
    } else if item.token.Code? && st.cur.active.At? {
      TiledOperation(st.cheats, st.operations, OperationFor(st, item.token.rec));
      TiledReshaped(CountedOperation(st).cheats, st'.cheats, st'.operations);
    } else {
      TiledReshaped(st.cheats, st'.cheats, st.operations);
    }
  }

  // ----- whole parses -----------------------------------------------------------------------

  lemma {:induction false} RunGraph(st: GoodState, items: seq<Item>)
    requires Linked(st) && Tiled(st.cheats, st.operations)
    requires forall i :: 0 <= i < |items| ==> ItemFits(items[i])
    ensures var st' := Run(st, items); Linked(st') && Tiled(st'.cheats, st'.operations)
    decreases |items|
  {
    if items != [] {
      LinkedStep(st, items[0]);
      TiledStep(st, items[0]);
      RunGraph(Step(st, items[0].line, items[0].token), items[1..]);
    }
  }

  lemma DescriptionInside(t: seq<byte>)
    ensures var token := Classify(t);
            token.Header? ==> token.descriptionOffset + token.descriptionLength <= |t|
  {
    if Classify(t).Header? {
      HeaderSound(t);
    }
  }

  lemma {:induction false} ItemsFit(s: seq<byte>, pos: nat, first: bool)
    requires pos <= |s|
    ensures forall i :: 0 <= i < |Items(s, pos, first)| ==> ItemFits(Items(s, pos, first)[i])
    decreases |s| - pos
  {
    if pos < |s| {
      var item := ItemAt(s, pos, first);
      DescriptionInside(s[item.line.contentBegin..item.line.contentEnd]);
      ItemsFit(s, item.line.rawEnd, false);
    }
  }

  /** Every parse yields a closed object graph. */
  lemma ClosedGraph(s: seq<byte>)
    ensures Linked(Parsed(s)) && Tiled(Parsed(s).cheats, Parsed(s).operations)
  {
    var items := Items(s, 0, true);
    ItemsFit(s, 0, true);
    RunGraph(INITIAL, items);
    var st := Run(INITIAL, items);
    FinalizeShape(st);
    LinkedReshaped(st, Finalize(st));
    TiledReshaped(st.cheats, Finalize(st).cheats, st.operations);
  }
}
