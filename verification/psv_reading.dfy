/**
  The output lists read on their own: every recorded line against the bytes of its own content, every
  operation against its code and the first operation of its cheat, and every verdict against the lines
  and codes of its entry. Codes, limits and characters are written out here.
 */
module PsvReading {
  import opened Bits
  import opened Common
  import opened PsvText
  import opened PsvMachine
  import opened PsvGraph
  import opened PsvVerdict
  import opened PsvRecords
  import opened PsvOutcome

  // ----- the text of a line -----------------------------------------------------------------

  predicate White(b: byte) { b == 32 || b == 9 }

  predicate AllWhite(t: seq<byte>) { forall i :: 0 <= i < |t| ==> White(t[i]) }

  /** `u` is what remains of `t` without the white space around it. */
  ghost predicate Framed(t: seq<byte>, w1: seq<byte>, u: seq<byte>, w3: seq<byte>) {
    && t == w1 + u + w3 && AllWhite(w1) && AllWhite(w3)
    && (u != [] ==> !White(u[0]) && !White(u[|u| - 1]))
    && (u == [] ==> w3 == [])
  }

  lemma EveryLineIsFramed(t: seq<byte>) returns (w1: seq<byte>, u: seq<byte>, w3: seq<byte>)
    ensures Framed(t, w1, u, w3)
  {
    w1, u, w3 := TrimSplits(t);
    if u == [] {
      LeadingSpacesAre(t);
      assert |t| == |w1| + |w3|;
    }
  }

  lemma FramedIsTrimmed(t: seq<byte>, w1: seq<byte>, u: seq<byte>, w3: seq<byte>)
    requires Framed(t, w1, u, w3)
    ensures Trim(t) == u && LeadingSpaces(t) == |w1|
  {
    assert AllSpaces(w1) && AllSpaces(w3);
    if u == [] {
      assert t == w1 + [];
      LeadingSpacesUnique(w1, []);
    } else {
      TrimFindsCore(t, w1, u, w3);
    }
  }

  /** `_V` and at least one more byte. */
  predicate HeaderAttempt(u: seq<byte>) { |u| >= 3 && u[0] == 95 && u[1] == 86 }

  /** The activation is `0` or `1`, and white space separates it from whatever follows. */
  predicate HeaderSucceeds(u: seq<byte>)
    requires HeaderAttempt(u)
  {
    (u[2] == 48 || u[2] == 49) && (|u| > 3 ==> White(u[3]))
  }

  ghost predicate HasRecord(u: seq<byte>) { exists r :: IsCodeRecord(u, r) }

  /** What each kind of line looks like, character by character. */
  ghost predicate TokenReads(token: Token, u: seq<byte>) {
    && (token.Blank? <==> u == [])
    && (token.Comment? <==> u != [] && u[0] == 35)
    && (token.Header? <==> HeaderAttempt(u) && HeaderSucceeds(u))
    && (token.Header? ==> (token.autostart <==> u[2] == 49))
    && (token.BadHeader? <==> HeaderAttempt(u) && !HeaderSucceeds(u))
    && (token.Code? <==> HasRecord(u))
    && (token.Code? ==> IsCodeRecord(u, token.rec))
    && (token.BadCode? <==> u != [] && u[0] == 36 && !HasRecord(u))
    && (token.OpaqueText? <==> u != [] && u[0] != 35 && u[0] != 36 && !HeaderAttempt(u))
  }

  lemma RecordStart(u: seq<byte>)
    ensures HasRecord(u) <==> ParseCode(u).Some?
    ensures ParseCode(u).Some? ==> IsCodeRecord(u, ParseCode(u).value) && u != [] && u[0] == 36
  {
    if ParseCode(u).Some? {
      CodeRecordGrammar(u, ParseCode(u).value);
    }
    if HasRecord(u) {
      var r :| IsCodeRecord(u, r);
      CodeRecordGrammar(u, r);
    }
  }

  lemma TrimmedReads(u: seq<byte>, b: nat)
    ensures TokenReads(ClassifyTrimmed(u, b), u)
  {
    hide ParseCode, IsCodeRecord, LeadingSpaces;
    RecordStart(u);
  }

  /** The classification of a line, for every line: by its first characters, and by the record grammar. */
  lemma LineGrammar(t: seq<byte>, w1: seq<byte>, u: seq<byte>, w3: seq<byte>)
    requires Framed(t, w1, u, w3)
    ensures TokenReads(Classify(t), u)
  {
    hide ClassifyTrimmed;
    FramedIsTrimmed(t, w1, u, w3);
    TrimmedReads(u, |w1|);
  }

  /** The hexadecimal digits, in both cases, and nothing else. */
  lemma HexDigitsExact(b: byte, v: nat)
    ensures HexDigit(b) == Some(v) <==>
              v < 16 && (b == "0123456789abcdef"[v] as int || b == "0123456789ABCDEF"[v] as int)
  {
  }

  // ----- recorded lines ---------------------------------------------------------------------

  /** A line of the source, with the classification of its content. */
  predicate Classified(s: seq<byte>, item: Item) {
    && item.line.contentEnd <= |s|
    && item.token == Classify(s[item.line.contentBegin..item.line.contentEnd])
  }

  lemma {:induction false} ItemsClassify(s: seq<byte>, pos: nat, first: bool)
    requires pos <= |s|
    ensures forall k :: 0 <= k < |Items(s, pos, first)| ==> Classified(s, Items(s, pos, first)[k])
    decreases |s| - pos
  {
    hide Classify;
    if pos < |s| {
      var items, item := Items(s, pos, first), ItemAt(s, pos, first);
      var rest := Items(s, item.line.rawEnd, false);
      ItemsClassify(s, item.line.rawEnd, false);
      assert Classified(s, item);
      forall k | 0 <= k < |items| ensures Classified(s, items[k]) {
        assert k > 0 ==> items[k] == rest[k - 1];
      }
    }
  }

  /** The recorded line `k` carries the content that was classified. */
  lemma LineText(s: seq<byte>, k: nat)
    requires k < |Parsed(s).lines|
    ensures var items, l := Items(s, 0, true), Parsed(s).lines[k];
            && k < |items| && l == RecordAt(items, k)
            && WithinSource(l.content, s) && items[k].token == Classify(Bytes(s, l.content))
  {
    hide Classify, Parsed;
    RecordsExact(s);
    ItemsClassify(s, 0, true);
    assert Classified(s, Items(s, 0, true)[k]);
  }

  /** The kinds of line, each by the text of the line and by whether a cheat is open before it. */
  ghost predicate KindReads(kind: LineKind, u: seq<byte>, open: bool) {
    && (kind.BlankLine? <==> u == [])
    && (kind.CommentLine? <==> u != [] && u[0] == 35)
    && (kind.CheatHeaderLine? <==> HeaderAttempt(u) && HeaderSucceeds(u))
    && (kind.CodeLine? <==> HasRecord(u) && open)
    && (kind.MalformedLine? <==>
          (HeaderAttempt(u) && !HeaderSucceeds(u)) || (u != [] && u[0] == 36 && !(HasRecord(u) && open)))
    && (kind.OpaqueLine? <==> u != [] && u[0] != 35 && u[0] != 36 && !HeaderAttempt(u))
  }

  /** Every recorded line of every source has the kind that its own content, without white space, calls for. */
  lemma KindExact(s: seq<byte>, k: nat, w1: seq<byte>, u: seq<byte>, w3: seq<byte>)
    requires k < |Parsed(s).lines| && Framed(Bytes(s, Parsed(s).lines[k].content), w1, u, w3)
    ensures k <= |Items(s, 0, true)|
    ensures KindReads(Parsed(s).lines[k].kind, u, OpenAt(Items(s, 0, true), k).At?)
  {
    hide Parsed, IsCodeRecord, Framed;
    LineText(s, k);
    LineGrammar(Bytes(s, Parsed(s).lines[k].content), w1, u, w3);
    RecordStart(u);
  }

  /** A cheat's activation and description are those of the content of its header line. */
  lemma HeaderExact(s: seq<byte>, i: nat)
    requires i < |Parsed(s).cheats|
    ensures var c := Parsed(s).cheats[i];
            && c.headerLineIndex < |Parsed(s).lines|
            && var content := Parsed(s).lines[c.headerLineIndex].content;
               && WithinSource(content, s) && content.offset <= c.description.offset
               && IsHeaderLine(Bytes(s, content), c.activation == Autostart,
                               c.description.offset - content.offset, c.description.length)
  {
    hide Parsed, Classify, IsHeaderLine, Items, Verdict, BlockEnd, Codes, Records;
    var h := EveryCheatHasAHeader(s, i);
    RecordsExact(s);
    LineText(s, h);
    ExactVerdict(s, h);
    var header := Items(s, 0, true)[h].token;
    HeaderGrammar(Bytes(s, Parsed(s).lines[h].content), header.autostart, header.descriptionOffset,
                  header.descriptionLength);
  }

  // ----- operations -------------------------------------------------------------------------

  /** Every operation so far holds the record of the line it names. */
  ghost predicate ReadsItems(operations: seq<Operation>, items: seq<Item>) {
    forall j :: 0 <= j < |operations| ==>
      var o := operations[j];
      o.lineIndex < |items| && items[o.lineIndex].token == Code(o.rec)
  }

  lemma ReadsItemsStep(st: GoodState, items: seq<Item>, item: Item)
    requires ReadsItems(st.operations, items) && |st.lines| == |items|
    ensures ReadsItems(Step(st, item.line, item.token).operations, items + [item])
  {
    hide Step;
    StepShape(st, item);
    var all := items + [item];
    assert forall k :: 0 <= k < |items| ==> all[k] == items[k];
    assert all[|items|] == item;
  }

  lemma {:induction false} RunReadsItems(items: seq<Item>)
    ensures var st := Run(INITIAL, items); |st.lines| == |items| && ReadsItems(st.operations, items)
    decreases |items|
  {
    hide Step, ReadsItems;
    if items == [] {
      NothingRead();
    } else {
      var init, last := items[..|items| - 1], items[|items| - 1];
      assert items == init + [last];
      RunReadsItems(init);
      RunConcat(INITIAL, init, [last]);
      StepShape(Run(INITIAL, init), last);
      ReadsItemsStep(Run(INITIAL, init), init, last);
    }
  }

  lemma NothingRead()
    ensures ReadsItems([], [])
  {
  }

  /** An operation holds the record printed on the line it names, and that line names it. */
  lemma OperationReadsLine(s: seq<byte>, j: nat)
    requires j < |Parsed(s).operations|
    ensures var o := Parsed(s).operations[j];
            && o.lineIndex < |Parsed(s).lines|
            && Parsed(s).lines[o.lineIndex].operationIndex == At(j)
            && IsCodeRecord(Trim(Bytes(s, Parsed(s).lines[o.lineIndex].content)), o.rec)
  {
    hide Items, Classify, IsCodeRecord, Linked, Tiled;
    var items := Items(s, 0, true);
    RunReadsItems(items);
    FinalizeShape(Run(INITIAL, items));
    var o := Parsed(s).operations[j];
    OperationIsLinked(s, j);
    LineText(s, o.lineIndex);
    var t := Bytes(s, Parsed(s).lines[o.lineIndex].content);
    var w1, u, w3 := EveryLineIsFramed(t);
    FramedIsTrimmed(t, w1, u, w3);
    LineGrammar(t, w1, u, w3);
  }

  lemma OperationIsLinked(s: seq<byte>, j: nat)
    requires j < |Parsed(s).operations|
    ensures OperationLinked(Parsed(s), j)
  {
    ClosedGraph(s);
  }

  predicate WriteCode(code: nat) { code == 0x0000 || code == 0x0100 || code == 0x0200 }

  /** A module selector with its serial and segment in range. */
  predicate ModuleSelector(r: CodeRecord) { r.code == 0xb200 && r.address <= 0xff && r.value <= 1 }

  /** The operation kinds, by code. */
  predicate KindOfCode(kind: OperationKind, code: nat) {
    && (kind.WriteU8? <==> code == 0x0000)
    && (kind.WriteU16? <==> code == 0x0100)
    && (kind.WriteU32? <==> code == 0x0200)
    && (kind.SelectModuleBase? <==> code == 0xb200)
    && (kind.OpaqueOperation? <==> !WriteCode(code) && code != 0xb200)
  }

  /** The address modes: only writes have one, and it depends on how the cheat starts. */
  predicate ModeReads(mode: AddressMode, code: nat, first: CodeRecord) {
    && (mode.Absolute? <==> WriteCode(code) && !ModuleSelector(first))
    && (mode.SelectedModuleRelative? <==> WriteCode(code) && ModuleSelector(first))
    && (mode.NotApplicable? <==> !WriteCode(code))
  }

  /** The codes of a cheat's block are those of its operations. */
  ghost predicate CodesAre(codes: seq<CodeRecord>, operations: seq<Operation>, c: Cheat) {
    && |codes| == c.operationCount && RangeEnd(c) <= |operations|
    && forall j :: c.firstOperationIndex <= j < RangeEnd(c) ==>
         operations[j].rec == codes[j - c.firstOperationIndex]
  }

  ghost function Block(s: seq<byte>, h: nat): seq<Item>
    requires h < |Items(s, 0, true)|
  {
    var rest := Items(s, 0, true)[h + 1..];
    rest[..BlockEnd(rest, 0)]
  }

  predicate ClosedBadly(s: seq<byte>, h: nat)
    requires h < |Items(s, 0, true)|
  {
    var rest := Items(s, 0, true)[h + 1..];
    var e := BlockEnd(rest, 0);
    e < |rest| && rest[e].token.BadHeader?
  }

  /** A cheat of the output, the header line it came from, and the block behind that line. */
  lemma CheatBlock(s: seq<byte>, i: nat) returns (h: nat)
    requires i < |Parsed(s).cheats|
    ensures h < |Items(s, 0, true)| && Items(s, 0, true)[h].token.Header?
    ensures CountHeaders(Items(s, 0, true)[..h]) == i
    ensures var st, c := Parsed(s), Parsed(s).cheats[i];
            && c.headerLineIndex == h
            && CodesAre(Codes(Block(s, h)), st.operations, c)
            && Records(st.operations, c.firstOperationIndex, Codes(Block(s, h)), i)
            && c.translationState == Verdict(Block(s, h), ClosedBadly(s, h))
  {
    hide Parsed, Items, Verdict, BlockEnd, Codes;
    h := EveryCheatHasAHeader(s, i);
    ExactVerdict(s, h);
    var st, codes := Parsed(s), Codes(Block(s, h));
    var first := st.cheats[i].firstOperationIndex;
    forall j | first <= j < first + |codes| ensures st.operations[j].rec == codes[j - first] {
      assert st.operations[first + (j - first)].rec == codes[j - first];
    }
  }

  lemma InOwnRange(s: seq<byte>, j: nat)
    requires j < |Parsed(s).operations|
    ensures var st, i := Parsed(s), Parsed(s).operations[j].cheatIndex;
            i < |st.cheats| && st.cheats[i].firstOperationIndex <= j < RangeEnd(st.cheats[i]) <= |st.operations|
  {
    hide Parsed, Linked;
    ClosedGraph(s);
  }

  /** No operation before a cheat's first one belongs to it. */
  lemma FirstIsFirst(s: seq<byte>, i: nat)
    requires i < |Parsed(s).cheats|
    ensures var st, first := Parsed(s), Parsed(s).cheats[i].firstOperationIndex;
            && first <= |st.operations|
            && (first > 0 ==> st.operations[first - 1].cheatIndex != i)
            && (first < RangeEnd(st.cheats[i]) ==> first < |st.operations| && st.operations[first].cheatIndex == i)
  {
    hide Parsed, Linked;
    ClosedGraph(s);
  }

  /** The operations of one cheat, by their codes. */
  lemma RecordReads(operations: seq<Operation>, first: nat, codes: seq<CodeRecord>, cheat: nat, k: nat)
    requires Records(operations, first, codes, cheat) && k < |codes|
    ensures KindOfCode(operations[first + k].kind, operations[first + k].rec.code)
    ensures ModeReads(operations[first + k].addressMode, operations[first + k].rec.code, operations[first].rec)
  {
    assert operations[first + 0].rec == codes[0];
    assert operations[first + k].rec == codes[k];
  }

  /** The operations of a cheat are the records of its block. */
  lemma CheatRecords(s: seq<byte>, i: nat) returns (codes: seq<CodeRecord>)
    requires i < |Parsed(s).cheats|
    ensures var st, c := Parsed(s), Parsed(s).cheats[i];
            |codes| == c.operationCount && Records(st.operations, c.firstOperationIndex, codes, i)
  {
    hide Parsed, Items, Verdict, Codes, CountHeaders, Records, BlockEnd;
    var h := CheatBlock(s, i);
    codes := Codes(Block(s, h));
  }

  /**
    Every operation of every parse: its kind follows from its code, and its address mode from its code
    and from whether the first operation of its cheat is a selector in range.
   */
  lemma OperationExact(s: seq<byte>, j: nat)
    requires j < |Parsed(s).operations|
    ensures var st, o := Parsed(s), Parsed(s).operations[j];
            && o.cheatIndex < |st.cheats|
            && var first := st.cheats[o.cheatIndex].firstOperationIndex;
               && first <= j && st.operations[first].cheatIndex == o.cheatIndex
               && (first > 0 ==> st.operations[first - 1].cheatIndex != o.cheatIndex)
               && KindOfCode(o.kind, o.rec.code)
               && ModeReads(o.addressMode, o.rec.code, st.operations[first].rec)
  {
    var st, i := Parsed(s), Parsed(s).operations[j].cheatIndex;
    hide Parsed, Records, KindOfCode, ModeReads;
    InOwnRange(s, j);
    FirstIsFirst(s, i);
    var codes := CheatRecords(s, i);
    RecordReads(st.operations, st.cheats[i].firstOperationIndex, codes, i, j - st.cheats[i].firstOperationIndex);
  }

  // ----- verdicts ---------------------------------------------------------------------------

  /** Where the entry of cheat `i` ends: at the next header, or with the source. */
  function EntryEnd(st: State, i: nat): nat
    requires i < |st.cheats|
  {
    if i + 1 < |st.cheats| then st.cheats[i + 1].headerLineIndex else |st.lines|
  }

  ghost predicate HasLine(lines: seq<Line>, lo: nat, hi: nat, kind: LineKind) {
    exists k :: lo < k < hi && k < |lines| && lines[k].kind == kind
  }

  ghost predicate AllWrites(operations: seq<Operation>, lo: nat, hi: nat)
    requires hi <= |operations|
  {
    forall j :: lo <= j < hi ==> WriteCode(operations[j].rec.code)
  }

  /** Some operation in the range is a write. */
  ghost predicate SomeWrite(operations: seq<Operation>, lo: nat, hi: nat)
    requires hi <= |operations|
  {
    exists j :: lo <= j < hi && WriteCode(operations[j].rec.code)
  }

  /** Some selector in the range is not its first operation, or has a field out of range. */
  ghost predicate SomeMisplaced(operations: seq<Operation>, lo: nat, hi: nat)
    requires hi <= |operations|
  {
    exists j :: lo <= j < hi && operations[j].rec.code == 0xb200 && (j != lo || !ModuleSelector(operations[j].rec))
  }

  /** Some operation in the range is of a type the importer does not know. */
  ghost predicate SomeUnknown(operations: seq<Operation>, lo: nat, hi: nat)
    requires hi <= |operations|
  {
    exists j :: lo <= j < hi && !WriteCode(operations[j].rec.code) && operations[j].rec.code != 0xb200
  }

  /** The four verdicts, read off the lines between two headers and the codes of the operations there. */
  ghost predicate VerdictReads(t: TranslationState, lines: seq<Line>, h: nat, e: nat,
                               operations: seq<Operation>, lo: nat, hi: nat)
    requires lo <= hi <= |operations|
  {
    var malformed, unread := HasLine(lines, h, e, MalformedLine), HasLine(lines, h, e, OpaqueLine);
    var selects := lo < hi && ModuleSelector(operations[lo].rec);
    && (t == Malformed <==>
          malformed || SomeMisplaced(operations, lo, hi) || (selects && !SomeWrite(operations, lo, hi)))
    && (t == DirectOnly <==> !malformed && !unread && AllWrites(operations, lo, hi))
    && (t == ModuleRelative <==>
          !malformed && !unread && hi - lo >= 2 && selects && AllWrites(operations, lo + 1, hi))
    && (t == RequiresUnsupported <==>
          t != Malformed && (unread || SomeUnknown(operations, lo, hi)))
  }

  /** The header after line `h` is the next line with one more header before it. */
  lemma {:induction false} HeadersBetween(items: seq<Item>, lo: nat, hi: nat)
    requires lo <= hi <= |items|
    ensures CountHeaders(items[..lo]) <= CountHeaders(items[..hi])
    ensures CountHeaders(items[..lo]) == CountHeaders(items[..hi]) <==> NoHeader(items, lo, hi)
    decreases hi - lo
  {
    if lo < hi {
      HeadersBetween(items, lo, hi - 1);
      assert items[..hi][..hi - 1] == items[..hi - 1];
    }
  }

  /** An entry reaches from its header to the next one. */
  lemma EntryReaches(s: seq<byte>, i: nat, h: nat)
    requires i < |Parsed(s).cheats| && h < |Items(s, 0, true)| && Items(s, 0, true)[h].token.Header?
    requires CountHeaders(Items(s, 0, true)[..h]) == i
    ensures var items, e := Items(s, 0, true), EntryEnd(Parsed(s), i);
            h < e <= |items| && NoHeader(items, h + 1, e) && (e < |items| ==> items[e].token.Header?)
  {
    hide Parsed, Items;
    var items, e := Items(s, 0, true), EntryEnd(Parsed(s), i);
    RecordsExact(s);
    assert items[..h + 1][..h] == items[..h];
    assert CountHeaders(items[..h + 1]) == i + 1;
    if i + 1 < |Parsed(s).cheats| {
      var next := EveryCheatHasAHeader(s, i + 1);
      if next <= h { HeadersBetween(items, next, h); }
    } else {
      assert items[..|items|] == items;
    }
    HeadersBetween(items, h + 1, e);
  }

  lemma BlockLines(items: seq<Item>, h: nat)
    requires h < |items|
    ensures var rest := items[h + 1..];
            var stop := h + 1 + BlockEnd(rest, 0);
            && stop <= |items| && (forall k :: h < k < stop ==> items[k] == rest[..BlockEnd(rest, 0)][k - h - 1])
            && (forall k :: h < k < stop ==> !IsBoundary(items[k].token))
            && (stop < |items| ==> items[stop] == rest[BlockEnd(rest, 0)] && IsBoundary(items[stop].token))
  {
    var rest := items[h + 1..];
    var n := BlockEnd(rest, 0);
    assert rest[0..n] == rest[..n];
    forall k | h < k < h + 1 + n ensures items[k] == rest[..n][k - h - 1] && !IsBoundary(items[k].token) {
      assert rest[..n][k - h - 1] == rest[k - h - 1] == items[k];
    }
  }

  /** What stands in the entry behind a header, block and all, against what is recorded of it. */
  lemma EntryKinds(items: seq<Item>, lines: seq<Line>, h: nat, e: nat)
    requires h < e <= |items| && items[h].token.Header? && NoHeader(items, h + 1, e)
    requires e < |items| ==> items[e].token.Header?
    requires |lines| == |items| && forall k :: 0 <= k < |items| ==> lines[k] == RecordAt(items, k)
    ensures var rest := items[h + 1..];
            var n := BlockEnd(rest, 0);
            var bad := n < |rest| && rest[n].token.BadHeader?;
            && (HasLine(lines, h, e, MalformedLine) <==> bad || HasBadLine(rest[..n]))
            && (!bad ==> (HasLine(lines, h, e, OpaqueLine) <==> HasOpaqueLine(rest[..n])))
  {
    hide RecordAt;
    var rest := items[h + 1..];
    var n := BlockEnd(rest, 0);
    var body := rest[..n];
    var stop := h + 1 + n;
    BlockLines(items, h);
    forall k | h < k < stop
      ensures lines[k].kind.MalformedLine? <==> body[k - h - 1].token.BadCode?
      ensures lines[k].kind.OpaqueLine? <==> body[k - h - 1].token.OpaqueText?
    {
      OpenAtInBlock(items, h, k);
      BlockLineKind(items, k);
    }
    if stop < e {
      assert items[stop].token.BadHeader?;
      BlockLineKind(items, stop);
    }
    BlockHas(lines, h, stop, body);
    if stop < e {
      assert HasLine(lines, h, e, MalformedLine) by { assert lines[stop].kind == MalformedLine; }
    }
  }

  lemma BlockLineKind(items: seq<Item>, k: nat)
    requires k < |items| && !items[k].token.Header? && (items[k].token.Code? ==> OpenAt(items, k).At?)
    ensures RecordAt(items, k).kind.MalformedLine? <==> items[k].token.BadCode? || items[k].token.BadHeader?
    ensures RecordAt(items, k).kind.OpaqueLine? <==> items[k].token.OpaqueText?
  {
  }

  lemma BlockHas(lines: seq<Line>, h: nat, stop: nat, body: seq<Item>)
    requires stop == h + 1 + |body| <= |lines|
    requires forall k :: h < k < stop ==>
               && (lines[k].kind.MalformedLine? <==> body[k - h - 1].token.BadCode?)
               && (lines[k].kind.OpaqueLine? <==> body[k - h - 1].token.OpaqueText?)
    ensures HasLine(lines, h, stop, MalformedLine) <==> HasBadLine(body)
    ensures HasLine(lines, h, stop, OpaqueLine) <==> HasOpaqueLine(body)
  {
    if HasBadLine(body) {
      var k :| 0 <= k < |body| && body[k].token.BadCode?;
      assert lines[h + 1 + k].kind == MalformedLine;
    }
    if HasOpaqueLine(body) {
      var k :| 0 <= k < |body| && body[k].token.OpaqueText?;
      assert lines[h + 1 + k].kind == OpaqueLine;
    }
  }

  lemma RejectedRead(codes: seq<CodeRecord>, operations: seq<Operation>, c: Cheat)
    requires CodesAre(codes, operations, c)
    ensures HasRejected(codes) <==> SomeMisplaced(operations, c.firstOperationIndex, RangeEnd(c))
  {
    var lo, hi := c.firstOperationIndex, RangeEnd(c);
    if HasRejected(codes) {
      var k :| 0 <= k < |codes| && RejectedSelector(codes, k);
      assert operations[lo + k].rec == codes[lo + k - lo];
    }
    if SomeMisplaced(operations, lo, hi) {
      var j :| lo <= j < hi && operations[j].rec.code == 0xb200 && (j != lo || !ModuleSelector(operations[j].rec));
      assert RejectedSelector(codes, j - lo);
    }
  }

  lemma UnknownRead(codes: seq<CodeRecord>, operations: seq<Operation>, c: Cheat)
    requires CodesAre(codes, operations, c)
    ensures HasOpaqueOperation(codes) <==> SomeUnknown(operations, c.firstOperationIndex, RangeEnd(c))
  {
    var lo, hi := c.firstOperationIndex, RangeEnd(c);
    if HasOpaqueOperation(codes) {
      var k :| 0 <= k < |codes| && KindOf(codes[k].code).OpaqueOperation?;
      assert operations[lo + k].rec == codes[lo + k - lo];
    }
    if SomeUnknown(operations, lo, hi) {
      var j :| lo <= j < hi && !WriteCode(operations[j].rec.code) && operations[j].rec.code != 0xb200;
      assert KindOf(codes[j - lo].code).OpaqueOperation?;
    }
  }

  lemma SomeWriteRead(codes: seq<CodeRecord>, operations: seq<Operation>, c: Cheat)
    requires CodesAre(codes, operations, c)
    ensures HasTypedWrite(codes) <==> SomeWrite(operations, c.firstOperationIndex, RangeEnd(c))
  {
    var lo, hi := c.firstOperationIndex, RangeEnd(c);
    if HasTypedWrite(codes) {
      var k :| 0 <= k < |codes| && IsTypedWrite(KindOf(codes[k].code));
      assert operations[lo + k].rec == codes[lo + k - lo];
    }
    if SomeWrite(operations, lo, hi) {
      var j :| lo <= j < hi && WriteCode(operations[j].rec.code);
      assert IsTypedWrite(KindOf(codes[j - lo].code));
    }
  }

  lemma SelectsRead(codes: seq<CodeRecord>, operations: seq<Operation>, c: Cheat)
    requires CodesAre(codes, operations, c)
    ensures var lo := c.firstOperationIndex;
            Selects(codes) <==> lo < RangeEnd(c) && ModuleSelector(operations[lo].rec)
  {
    if codes != [] { assert operations[c.firstOperationIndex].rec == codes[0]; }
  }

  lemma WritesRead(codes: seq<CodeRecord>, operations: seq<Operation>, c: Cheat, skip: nat)
    requires CodesAre(codes, operations, c) && skip <= |codes|
    ensures AllTypedWrites(codes[skip..]) <==> AllWrites(operations, c.firstOperationIndex + skip, RangeEnd(c))
  {
    var lo := c.firstOperationIndex;
    assert forall k :: 0 <= k < |codes| - skip ==> codes[skip..][k] == operations[lo + skip + k].rec;
    if AllTypedWrites(codes[skip..]) {
      forall j | lo + skip <= j < RangeEnd(c) ensures WriteCode(operations[j].rec.code) {
        assert IsTypedWrite(KindOf(codes[skip..][j - lo - skip].code));
      }
    }
  }

  /**
    The verdict of every cheat of every parse, on the output lists alone: which lines stand between its
    header and the next one, and which codes its operations have.
   */
  lemma VerdictOnOutput(s: seq<byte>, i: nat)
    requires i < |Parsed(s).cheats|
    ensures var st, c := Parsed(s), Parsed(s).cheats[i];
            && RangeEnd(c) <= |st.operations|
            && c.headerLineIndex < EntryEnd(st, i) <= |st.lines|
            && VerdictReads(c.translationState, st.lines, c.headerLineIndex, EntryEnd(st, i),
                            st.operations, c.firstOperationIndex, RangeEnd(c))
  {
    hide Parsed, Items, Codes, HasLine, AllWrites, SomeWrite, SomeMisplaced, SomeUnknown, CountHeaders, RecordAt;
    hide HasBadLine, HasOpaqueLine, HasRejected, HasOpaqueOperation, HasTypedWrite, AllTypedWrites, Records;
    var st, c := Parsed(s), Parsed(s).cheats[i];
    var h := CheatBlock(s, i);
    var body, codes := Block(s, h), Codes(Block(s, h));
    RecordsExact(s);
    EntryReaches(s, i, h);
    EntryKinds(Items(s, 0, true), st.lines, h, EntryEnd(st, i));
    RejectedRead(codes, st.operations, c);
    UnknownRead(codes, st.operations, c);
    SomeWriteRead(codes, st.operations, c);
    SelectsRead(codes, st.operations, c);
    WritesRead(codes, st.operations, c, 0);
    assert codes[0..] == codes;
    if codes != [] { WritesRead(codes, st.operations, c, 1); }
    VerdictCharacterised(body, ClosedBadly(s, h));
  }
}
