/**
  Exact verdicts. A cheat's block is what stands between its header and the next header attempt,
  well formed or not. The machine's running maximum, kept in five variables over the whole pass,
  ends with the verdict that can be read off the block alone.
 */
module PsvVerdict {
  import opened Bits
  import opened PsvText
  import opened PsvMachine
  import opened PsvGraph

  predicate IsBoundary(t: Token) { t.Header? || t.BadHeader? }

  predicate NoBoundary(body: seq<Item>) {
    forall i :: 0 <= i < |body| ==> !IsBoundary(body[i].token)
  }

  function CountHeaders(items: seq<Item>): nat {
    if items == [] then 0
    else CountHeaders(items[..|items| - 1]) + (if items[|items| - 1].token.Header? then 1 else 0)
  }

  /** The first boundary at or after position `i`. */
  function BlockEnd(items: seq<Item>, i: nat): (e: nat)
    requires i <= |items|
    ensures i <= e <= |items|
    ensures NoBoundary(items[i..e]) && (e < |items| ==> IsBoundary(items[e].token))
    decreases |items| - i
  {
    if i == |items| || IsBoundary(items[i].token) then i else BlockEnd(items, i + 1)
  }

  /** The code records of a block, in order. */
  function Codes(body: seq<Item>): seq<CodeRecord> {
    if body == [] then []
    else
      var last := body[|body| - 1].token;
      Codes(body[..|body| - 1]) + (if last.Code? then [last.rec] else [])
  }

  predicate GoodSelector(r: CodeRecord) {
    KindOf(r.code).SelectModuleBase? && r.address <= 0xff && r.value <= 1
  }

  /** Selectors are accepted only as the first operation and only with fields in range. */
  predicate RejectedSelector(codes: seq<CodeRecord>, k: nat)
    requires k < |codes|
  {
    KindOf(codes[k].code).SelectModuleBase? && (k != 0 || !GoodSelector(codes[k]))
  }

  predicate Selects(codes: seq<CodeRecord>) { codes != [] && GoodSelector(codes[0]) }

  ghost predicate HasTypedWrite(codes: seq<CodeRecord>) {
    exists k :: 0 <= k < |codes| && IsTypedWrite(KindOf(codes[k].code))
  }

  ghost predicate HasBadLine(body: seq<Item>) { exists k :: 0 <= k < |body| && body[k].token.BadCode? }

  ghost predicate HasOpaqueLine(body: seq<Item>) { exists k :: 0 <= k < |body| && body[k].token.OpaqueText? }

  ghost predicate HasRejected(codes: seq<CodeRecord>) { exists k :: 0 <= k < |codes| && RejectedSelector(codes, k) }

  ghost predicate HasOpaqueOperation(codes: seq<CodeRecord>) {
    exists k :: 0 <= k < |codes| && KindOf(codes[k].code).OpaqueOperation?
  }

  /** The verdict on a block; `badClose` says that a malformed header ended it. */
  ghost function Verdict(body: seq<Item>, badClose: bool): TranslationState {
    var codes := Codes(body);
    if badClose || HasBadLine(body) || HasRejected(codes) || (Selects(codes) && !HasTypedWrite(codes)) then Malformed
    else if HasOpaqueLine(body) || HasOpaqueOperation(codes) then RequiresUnsupported
    else if Selects(codes) then ModuleRelative
    else DirectOnly
  }

  /** The same for a block that is still being read: a selector may yet get its typed write. */
  ghost function OpenVerdict(body: seq<Item>): TranslationState {
    var codes := Codes(body);
    if HasBadLine(body) || HasRejected(codes) then Malformed
    else if HasOpaqueLine(body) || HasOpaqueOperation(codes) then RequiresUnsupported
    else if Selects(codes) then ModuleRelative
    else DirectOnly
  }

  /** No opaque and no malformed line, the closing one included. */
  ghost predicate Clean(body: seq<Item>, badClose: bool) {
    !badClose && !HasBadLine(body) && !HasOpaqueLine(body)
  }

  ghost predicate AllTypedWrites(codes: seq<CodeRecord>) {
    forall k :: 0 <= k < |codes| ==> IsTypedWrite(KindOf(codes[k].code))
  }

  /** The four verdicts, each characterised by what the block contains. */
  lemma VerdictCharacterised(body: seq<Item>, badClose: bool)
    ensures var v, codes := Verdict(body, badClose), Codes(body);
            && (v == DirectOnly <==> Clean(body, badClose) && AllTypedWrites(codes))
            && (v == ModuleRelative <==>
                  Clean(body, badClose) && |codes| >= 2 && GoodSelector(codes[0]) && AllTypedWrites(codes[1..]))
            && (v == Malformed <==>
                  badClose || HasBadLine(body) || HasRejected(codes) || (Selects(codes) && !HasTypedWrite(codes)))
  {
    var codes := Codes(body);
    if Verdict(body, badClose) == DirectOnly {
      forall k | 0 <= k < |codes| ensures IsTypedWrite(KindOf(codes[k].code)) {
        assert !RejectedSelector(codes, k);
      }
    }
    if Verdict(body, badClose) == ModuleRelative {
      forall k | 0 <= k < |codes[1..]| ensures IsTypedWrite(KindOf(codes[1..][k].code)) {
        assert !RejectedSelector(codes, k + 1);
      }
    }
    if |codes| >= 2 && AllTypedWrites(codes[1..]) {
      assert forall k :: 1 <= k < |codes| ==> codes[k] == codes[1..][k - 1];
      assert IsTypedWrite(KindOf(codes[1].code));
    }
  }

  // ----- one more line ----------------------------------------------------------------------

  /** How bad the next line of a block is, given the records before it. */
  function LineState(codes: seq<CodeRecord>, t: Token): TranslationState {
    match t
    case BadCode => Malformed
    case OpaqueText => RequiresUnsupported
    case Code(r) =>
      (match KindOf(r.code)
       case SelectModuleBase => if codes == [] && GoodSelector(r) then ModuleRelative else Malformed
       case OpaqueOperation => RequiresUnsupported
       case _ => DirectOnly)
    case _ => DirectOnly
  }

  lemma CodesAppend(body: seq<Item>, item: Item)
    ensures Codes(body + [item]) == if item.token.Code? then Codes(body) + [item.token.rec] else Codes(body)
  {
    assert (body + [item])[..|body|] == body;
  }

  lemma LineFlagsAppend(body: seq<Item>, item: Item)
    ensures HasBadLine(body + [item]) == (HasBadLine(body) || item.token.BadCode?)
    ensures HasOpaqueLine(body + [item]) == (HasOpaqueLine(body) || item.token.OpaqueText?)
  {
    var body' := body + [item];
    assert forall k :: 0 <= k < |body| ==> body'[k] == body[k];
    assert body'[|body|] == item;
    if HasBadLine(body) { var k :| 0 <= k < |body| && body[k].token.BadCode?; assert body'[k].token.BadCode?; }
    if HasOpaqueLine(body) { var k :| 0 <= k < |body| && body[k].token.OpaqueText?; assert body'[k].token.OpaqueText?; }
  }

  lemma CodeFlagsAppend(codes: seq<CodeRecord>, r: CodeRecord)
    ensures var codes' := codes + [r];
            && HasRejected(codes') == (HasRejected(codes) || RejectedSelector(codes', |codes|))
            && HasOpaqueOperation(codes') == (HasOpaqueOperation(codes) || KindOf(r.code).OpaqueOperation?)
            && HasTypedWrite(codes') == (HasTypedWrite(codes) || IsTypedWrite(KindOf(r.code)))
            && Selects(codes') == (if codes == [] then GoodSelector(r) else Selects(codes))
  {
    var codes' := codes + [r];
    assert forall k :: 0 <= k < |codes| ==> codes'[k] == codes[k];
    assert codes'[|codes|] == r;
    if HasRejected(codes) {
      var k :| 0 <= k < |codes| && RejectedSelector(codes, k);
      assert RejectedSelector(codes', k);
    }
    if HasOpaqueOperation(codes) {
      var k :| 0 <= k < |codes| && KindOf(codes[k].code).OpaqueOperation?;
      assert KindOf(codes'[k].code).OpaqueOperation?;
    }
    if HasTypedWrite(codes) {
      var k :| 0 <= k < |codes| && IsTypedWrite(KindOf(codes[k].code));
      assert IsTypedWrite(KindOf(codes'[k].code));
    }
    if HasRejected(codes') {
      var k :| 0 <= k < |codes'| && RejectedSelector(codes', k);
      assert k < |codes| ==> RejectedSelector(codes, k);
    }
  }

  /** The open verdict is a running maximum of line severities. */
  lemma OpenVerdictAppend(body: seq<Item>, item: Item)
    ensures OpenVerdict(body + [item]) == Worse(OpenVerdict(body), LineState(Codes(body), item.token))
  {
    CodesAppend(body, item);
    LineFlagsAppend(body, item);
    if item.token.Code? {
      CodeFlagsAppend(Codes(body), item.token.rec);
    }
  }

  // ----- the machine inside a block ---------------------------------------------------------

  /** The cheat record a header and its block amount to. */
  function CheatFor(header: Item, lineIndex: nat, firstOperation: nat, count: nat, t: TranslationState): Cheat
    requires header.token.Header?
  {
    Cheat(if header.token.autostart then Autostart else Manual, t,
          Span(header.line.contentBegin + header.token.descriptionOffset, header.token.descriptionLength),
          lineIndex, firstOperation, count)
  }

  function ModeIn(codes: seq<CodeRecord>, k: nat): AddressMode
    requires k < |codes|
  {
    ModeOf(Selects(codes), KindOf(codes[k].code))
  }

  /** Operations from `first` on are those of the block, in order, decoded and addressed as it says. */
  ghost predicate Records(operations: seq<Operation>, first: nat, codes: seq<CodeRecord>, cheat: nat) {
    && first + |codes| <= |operations|
    && forall k :: 0 <= k < |codes| ==>
         var o := operations[first + k];
         o.rec == codes[k] && o.kind == KindOf(codes[k].code)
         && o.addressMode == ModeIn(codes, k) && o.cheatIndex == cheat
  }

  /** The state `st` after the lines `body` of the cheat opened in `start`. */
  ghost predicate InBlock(start: GoodState, body: seq<Item>, st: GoodState) {
    var codes := Codes(body);
    var n := |start.cheats| - 1;
    && start.cur.active.At?
    && |st.cheats| == |start.cheats| && st.cheats[..n] == start.cheats[..n]
    && st.cheats[n] == start.cheats[n].(translationState := OpenVerdict(body), operationCount := |codes|)
    && |st.operations| == |start.operations| + |codes|
    && Records(st.operations, |start.operations|, codes, n)
    && st.cur.active == At(n) && st.cur.operations == |codes|
    && st.cur.baseActive == Selects(codes)
    && st.cur.writeSeen == (Selects(codes) && HasTypedWrite(codes))
  }

  lemma JudgeInBlock(start: GoodState, body: seq<Item>, st: GoodState, r: CodeRecord)
    requires InBlock(start, body, st)
    ensures var st' := Judge(st, r);
            var codes := Codes(body);
            var n := |start.cheats| - 1;
            && st'.operations == st.operations && |st'.cheats| == |st.cheats| && st'.cheats[..n] == st.cheats[..n]
            && st'.cheats[n] == st.cheats[n].(translationState := Worse(OpenVerdict(body), LineState(codes, Code(r))))
            && st'.cur.active == At(n) && st'.cur.operations == |codes|
            && st'.cur.baseActive == (if codes == [] then GoodSelector(r) else Selects(codes))
            && st'.cur.writeSeen == (Selects(codes) && (HasTypedWrite(codes) || IsTypedWrite(KindOf(r.code))))
  {
  }

  /** A line of the block keeps the state in step with the block. */
  lemma BlockOperation(start: GoodState, body: seq<Item>, st: GoodState, item: Item)
    requires InBlock(start, body, st) && item.token.Code?
    ensures InBlock(start, body + [item], Step(st, item.line, item.token))
  {
    var codes := Codes(body);
    var n := |start.cheats| - 1;
    var r := item.token.rec;
    var st' := Step(st, item.line, item.token);
    var first := |start.operations|;
    CodesAppend(body, item);
    CodeFlagsAppend(codes, r);
    OpenVerdictAppend(body, item);
    JudgeInBlock(start, body, st, r);
    assert Selects(codes + [r]) && IsTypedWrite(KindOf(r.code)) ==> codes != [];
    assert Records(st'.operations, first, codes + [r], n) by {
      RecordsAppend(st.operations, first, codes, n, OperationFor(st, r), r);
    }
  }

  lemma RecordsAppend(operations: seq<Operation>, first: nat, codes: seq<CodeRecord>, n: nat,
                      o: Operation, r: CodeRecord)
    requires Records(operations, first, codes, n) && |operations| == first + |codes|
    requires o.rec == r && o.kind == KindOf(r.code) && o.cheatIndex == n
    requires o.addressMode == ModeOf(Selects(codes), KindOf(r.code))
    ensures Records(operations + [o], first, codes + [r], n)
  {
    var codes' := codes + [r];
    forall k | 0 <= k < |codes'|
      ensures var p := (operations + [o])[first + k];
              p.rec == codes'[k] && p.kind == KindOf(codes'[k].code)
              && p.addressMode == ModeIn(codes', k) && p.cheatIndex == n
    {
      if k < |codes| {
        assert (operations + [o])[first + k] == operations[first + k];
        assert operations[first + k].addressMode == ModeIn(codes, k);
      }
    }
  }

  lemma BlockPlainLine(start: GoodState, body: seq<Item>, st: GoodState, item: Item)
    requires InBlock(start, body, st) && !IsBoundary(item.token) && !item.token.Code?
    ensures InBlock(start, body + [item], Step(st, item.line, item.token))
  {
    CodesAppend(body, item);
    OpenVerdictAppend(body, item);
  }

  lemma {:induction false} RunInBlock(start: GoodState, body: seq<Item>)
    requires InBlock(start, [], start) && NoBoundary(body)
    ensures InBlock(start, body, Run(start, body))
    decreases |body|
  {
    if body != [] {
      var init, last := body[..|body| - 1], body[|body| - 1];
      assert body == init + [last];
      RunInBlock(start, init);
      RunConcat(start, init, [last]);
      var st := Run(start, init);
      assert Run(st, [last]) == Step(st, last.line, last.token);
      if last.token.Code? {
        BlockOperation(start, init, st, last);
      } else {
        BlockPlainLine(start, init, st, last);
      }
    }
  }

  // ----- after a block ----------------------------------------------------------------------

  /** The cheat at `n` is closed: it is not the active one. */
  predicate Settled(st: GoodState, n: nat) {
    n < |st.cheats| && st.cur.active != At(n)
  }

  /** A settled cheat and the operations recorded so far never change again. */
  lemma SettledStep(st: GoodState, item: Item, n: nat)
    requires Settled(st, n)
    ensures var st' := Step(st, item.line, item.token);
            Settled(st', n) && st'.cheats[n] == st.cheats[n] && st.operations <= st'.operations
  {
    match item.token
    case Blank =>
    case Comment =>
    case Header(_, _, _) => FinalizeShape(st);
    case BadHeader => FinalizeShape(st);
    case BadCode => TaintShape(st, Malformed);
    case Code(r) => if st.cur.active.At? { JudgeShape(st, r); SettledJudge(st, r, n); }
    case OpaqueText => TaintShape(st, RequiresUnsupported);
  }

  lemma SettledJudge(st: GoodState, r: CodeRecord, n: nat)
    requires Settled(st, n)
    ensures Judge(st, r).cheats[n] == st.cheats[n]
  {
  }

  lemma {:induction false} SettledRun(st: GoodState, items: seq<Item>, n: nat)
    requires Settled(st, n)
    ensures var st' := Run(st, items);
            Settled(st', n) && st'.cheats[n] == st.cheats[n] && st.operations <= st'.operations
    decreases |items|
  {
    if items != [] {
      SettledStep(st, items[0], n);
      SettledRun(Step(st, items[0].line, items[0].token), items[1..], n);
    }
  }

  /** Closing a block, at a boundary or at the end of the source, turns its open verdict into the verdict. */
  lemma FinalizeBlock(start: GoodState, body: seq<Item>, st: GoodState)
    requires InBlock(start, body, st)
    ensures var n := |start.cheats| - 1;
            && Finalize(st).cheats[n] == st.cheats[n].(translationState := Verdict(body, false))
            && Finalize(st).operations == st.operations && |Finalize(st).cheats| == |st.cheats|
            && Finalize(st).cur.active == At(n)
  {
  }

  lemma CloseBlock(start: GoodState, body: seq<Item>, st: GoodState, item: Item)
    requires InBlock(start, body, st) && IsBoundary(item.token)
    ensures var n := |start.cheats| - 1;
            var st' := Step(st, item.line, item.token);
            && Settled(st', n) && st'.operations == st.operations
            && st'.cheats[n] == st.cheats[n].(translationState := Verdict(body, item.token.BadHeader?))
  {
    FinalizeBlock(start, body, st);
  }

  /** Everything from a fresh header on: the block, what closes it, and the rest. */
  lemma AfterHeader(start: GoodState, rest: seq<Item>)
    requires InBlock(start, [], start)
    ensures var n := |start.cheats| - 1;
            var e := BlockEnd(rest, 0);
            var body := rest[..e];
            var badClose := e < |rest| && rest[e].token.BadHeader?;
            var final := Finalize(Run(start, rest));
            && n < |final.cheats|
            && final.cheats[n] ==
               start.cheats[n].(translationState := Verdict(body, badClose), operationCount := |Codes(body)|)
            && Records(final.operations, |start.operations|, Codes(body), n)
  {
    var n := |start.cheats| - 1;
    var e := BlockEnd(rest, 0);
    var body := rest[..e];
    assert rest[0..e] == body;
    var st := Run(start, body);
    RunInBlock(start, body);
    RunConcat(start, body, rest[e..]);
    assert rest == body + rest[e..];
    if e == |rest| {
      assert rest[e..] == [];
      FinalizeBlock(start, body, st);
    } else {
      AfterBlock(start, body, st, rest[e..]);
    }
  }

  lemma AfterBlock(start: GoodState, body: seq<Item>, st: GoodState, rest: seq<Item>)
    requires InBlock(start, body, st) && rest != [] && IsBoundary(rest[0].token)
    ensures var n := |start.cheats| - 1;
            var final := Finalize(Run(st, rest));
            && n < |final.cheats|
            && final.cheats[n] == st.cheats[n].(translationState := Verdict(body, rest[0].token.BadHeader?))
            && Records(final.operations, |start.operations|, Codes(body), n)
  {
    var n := |start.cheats| - 1;
    CloseBlock(start, body, st, rest[0]);
    var st' := Step(st, rest[0].line, rest[0].token);
    SettledRun(st', rest[1..], n);
    var last := Run(st', rest[1..]);
    FinalizeSettled(last, n);
    RecordsKept(st.operations, last.operations, |start.operations|, Codes(body), n);
  }

  lemma RecordsKept(before: seq<Operation>, after: seq<Operation>, first: nat, codes: seq<CodeRecord>, n: nat)
    requires Records(before, first, codes, n) && before <= after
    ensures Records(after, first, codes, n)
  {
    assert forall k :: 0 <= k < |before| ==> after[k] == before[k];
  }

  lemma FinalizeSettled(st: GoodState, n: nat)
    requires Settled(st, n)
    ensures |Finalize(st).cheats| == |st.cheats| && Finalize(st).cheats[n] == st.cheats[n]
    ensures Finalize(st).operations == st.operations
  {
  }

  // ----- every cheat of every source --------------------------------------------------------

  lemma {:induction false} RunCounts(items: seq<Item>)
    ensures |Run(INITIAL, items).lines| == |items| && |Run(INITIAL, items).cheats| == CountHeaders(items)
    decreases |items|
  {
    if items != [] {
      var init, last := items[..|items| - 1], items[|items| - 1];
      assert items == init + [last];
      RunCounts(init);
      RunConcat(INITIAL, init, [last]);
      StepShape(Run(INITIAL, init), last);
    }
  }

  lemma RunFromHeader(items: seq<Item>, h: nat)
    requires h < |items|
    ensures var start := Step(Run(INITIAL, items[..h]), items[h].line, items[h].token);
            Run(INITIAL, items) == Run(start, items[h + 1..])
  {
    hide Step;
    var rest := items[h..];
    assert items == items[..h] + rest;
    RunConcat(INITIAL, items[..h], rest);
    assert rest[0] == items[h] && rest[1..] == items[h + 1..];
  }

  lemma HeaderOpensBlock(before: GoodState, item: Item)
    requires item.token.Header?
    ensures var start := Step(before, item.line, item.token);
            && InBlock(start, [], start) && |start.cheats| == |before.cheats| + 1
            && start.operations == before.operations
            && start.cheats[|before.cheats|] == CheatFor(item, |before.lines|, |before.operations|, 0, DirectOnly)
  {
    FinalizeShape(before);
  }

  /**
    The header at line `h` opens the cheat whose index is the number of headers before it, and the
    finished record of that cheat, its operations included, is a function of its block.
   */
  lemma ExactVerdict(s: seq<byte>, h: nat)
    requires h < |Items(s, 0, true)| && Items(s, 0, true)[h].token.Header?
    ensures var items := Items(s, 0, true);
            var i := CountHeaders(items[..h]);
            var rest := items[h + 1..];
            var e := BlockEnd(rest, 0);
            var body := rest[..e];
            var badClose := e < |rest| && rest[e].token.BadHeader?;
            var first := |Run(INITIAL, items[..h]).operations|;
            var st := Parsed(s);
            && i < |st.cheats|
            && st.cheats[i] == CheatFor(items[h], h, first, |Codes(body)|, Verdict(body, badClose))
            && Records(st.operations, first, Codes(body), i)
  {
    hide Items, BlockEnd, Run, Step, Finalize, InBlock, Codes, Verdict, Records, CountHeaders;
    var items := Items(s, 0, true);
    var before := Run(INITIAL, items[..h]);
    RunCounts(items[..h]);
    var start := Step(before, items[h].line, items[h].token);
    HeaderOpensBlock(before, items[h]);
    RunFromHeader(items, h);
    AfterHeader(start, items[h + 1..]);
  }

  /** Conversely every cheat of a parse comes from exactly one header line. */
  lemma {:induction false} HeaderOfCheat(items: seq<Item>, i: nat) returns (h: nat)
    requires i < CountHeaders(items)
    ensures h < |items| && items[h].token.Header? && CountHeaders(items[..h]) == i
    decreases |items|
  {
    var n := |items| - 1;
    if items[n].token.Header? && CountHeaders(items[..n]) == i {
      h := n;
    } else {
      h := HeaderOfCheat(items[..n], i);
      assert items[..n][..h] == items[..h];
    }
  }

  lemma EveryCheatHasAHeader(s: seq<byte>, i: nat) returns (h: nat)
    requires i < |Parsed(s).cheats|
    ensures h < |Items(s, 0, true)| && Items(s, 0, true)[h].token.Header?
    ensures CountHeaders(Items(s, 0, true)[..h]) == i && Parsed(s).cheats[i].headerLineIndex == h
  {
    var items := Items(s, 0, true);
    RunCounts(items);
    FinalizeShape(Run(INITIAL, items));
    h := HeaderOfCheat(items, i);
    ExactVerdict(s, h);
  }
}
