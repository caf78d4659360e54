/**
  The recorded lines, one by one: each is a function of its own text, of whether a cheat is open at
  its position, and of how many headers and operations precede it.
 */
module PsvRecords {
  import opened Bits
  import opened PsvMachine
  import opened PsvGraph
  import opened PsvVerdict

  /** The cheat that is open just before line `k`: the one of the last header attempt, if that was well formed. */
  function OpenAt(items: seq<Item>, k: nat): Index
    requires k <= |items|
  {
    if k == 0 || items[k - 1].token.BadHeader? then NoIndex
    else if items[k - 1].token.Header? then At(CountHeaders(items[..k - 1]))
    else OpenAt(items, k - 1)
  }

  predicate IsOperation(items: seq<Item>, k: nat)
    requires k < |items|
  {
    items[k].token.Code? && OpenAt(items, k).At?
  }

  function OperationsBefore(items: seq<Item>, k: nat): nat
    requires k <= |items|
  {
    if k == 0 then 0 else OperationsBefore(items, k - 1) + (if IsOperation(items, k - 1) then 1 else 0)
  }

  /** What is recorded for line `k`. */
  function RecordAt(items: seq<Item>, k: nat): Line
    requires k < |items|
  {
    var l := items[k].line;
    match items[k].token
    case Blank => MakeLine(l, BlankLine, NoIndex, NoIndex)
    case Comment => MakeLine(l, CommentLine, NoIndex, NoIndex)
    case Header(_, _, _) => MakeLine(l, CheatHeaderLine, At(CountHeaders(items[..k])), NoIndex)
    case BadHeader => MakeLine(l, MalformedLine, NoIndex, NoIndex)
    case BadCode => MakeLine(l, MalformedLine, NoIndex, NoIndex)
    case Code(_) =>
      if OpenAt(items, k).NoIndex? then MakeLine(l, MalformedLine, NoIndex, NoIndex)
      else MakeLine(l, CodeLine, OpenAt(items, k), At(OperationsBefore(items, k)))
    case OpaqueText => MakeLine(l, OpaqueLine, OpenAt(items, k), NoIndex)
  }

  /** The machine's view of the lines read so far: what is open and how much has been recorded. */
  ghost predicate Positioned(items: seq<Item>, k: nat, st: GoodState)
    requires k <= |items|
  {
    && st.cur.active == OpenAt(items, k)
    && |st.lines| == k && |st.cheats| == CountHeaders(items[..k]) && |st.operations| == OperationsBefore(items, k)
  }

  lemma StepActive(st: GoodState, item: Item)
    ensures Step(st, item.line, item.token).cur.active ==
            if item.token.Header? then At(|st.cheats|)
            else if item.token.BadHeader? then NoIndex
            else st.cur.active
  {
    if item.token.Header? {
      FinalizeShape(st);
    } else if item.token.Code? {
      JudgeShape(st, item.token.rec);
    }
  }

  lemma StepLine(items: seq<Item>, k: nat, st: GoodState)
    requires k < |items| && Positioned(items, k, st)
    ensures var st' := Step(st, items[k].line, items[k].token);
            st'.lines == st.lines + [RecordAt(items, k)]
  {
    if items[k].token.Header? || items[k].token.BadHeader? {
      FinalizeShape(st);
    } else if items[k].token.Code? {
      JudgeShape(st, items[k].token.rec);
    }
  }

  lemma PositionedStep(items: seq<Item>, k: nat, st: GoodState)
    requires k < |items| && Positioned(items, k, st)
    ensures Positioned(items, k + 1, Step(st, items[k].line, items[k].token))
  {
    hide Step;
    StepActive(st, items[k]);
    StepShape(st, items[k]);
    assert items[..k + 1][..k] == items[..k];
  }

  lemma {:induction false} RunPositioned(items: seq<Item>, k: nat)
    requires k <= |items|
    ensures var st := Run(INITIAL, items[..k]);
            Positioned(items, k, st) && forall i :: 0 <= i < k ==> st.lines[i] == RecordAt(items, i)
  {
    hide Step, RecordAt;
    if k == 0 {
      assert items[..0] == [];
    } else {
      var st := Run(INITIAL, items[..k - 1]);
      RunPositioned(items, k - 1);
      assert items[..k] == items[..k - 1] + [items[k - 1]];
      RunConcat(INITIAL, items[..k - 1], [items[k - 1]]);
      PositionedStep(items, k - 1, st);
      StepLine(items, k - 1, st);
    }
  }

  /** Every recorded line of every source, exactly. */
  lemma RecordsExact(s: seq<byte>)
    ensures var items, st := Items(s, 0, true), Parsed(s);
            && |st.lines| == |items| && (forall k :: 0 <= k < |items| ==> st.lines[k] == RecordAt(items, k))
            && |st.cheats| == CountHeaders(items) && |st.operations| == OperationsBefore(items, |items|)
  {
    hide RecordAt;
    var items := Items(s, 0, true);
    RunPositioned(items, |items|);
    assert items[..|items|] == items;
    FinalizeShape(Run(INITIAL, items));
  }

  /** Throughout a block the open cheat is the one its header opened. */
  lemma OpenAtInBlock(items: seq<Item>, h: nat, k: nat)
    requires h < k <= |items| && items[h].token.Header?
    requires forall i :: h < i < k ==> !IsBoundary(items[i].token)
    ensures OpenAt(items, k) == At(CountHeaders(items[..h]))
    decreases k
  {
    if k > h + 1 {
      OpenAtInBlock(items, h, k - 1);
    }
  }

  // ----- tainting ---------------------------------------------------------------------------

  predicate NoHeader(items: seq<Item>, lo: nat, hi: nat)
    requires hi <= |items|
  {
    forall i :: lo <= i < hi ==> !items[i].token.Header?
  }

  /** A malformed line of an entry makes its verdict MALFORMED, an opaque one at least REQUIRES_UNSUPPORTED. */
  lemma LineTaintsVerdict(rest: seq<Item>, k: nat, e: nat)
    requires k < |rest| && e == BlockEnd(rest, 0) && NoHeader(rest, 0, k + 1)
    ensures var badClose := e < |rest| && rest[e].token.BadHeader?;
            var v := Verdict(rest[..e], badClose);
            && (rest[k].token.BadCode? || rest[k].token.BadHeader? || k > e ==> v == Malformed)
            && (rest[k].token.OpaqueText? ==> v == Malformed || v == RequiresUnsupported)
  {
    var body := rest[..e];
    if k < e {
      assert rest[0..e] == body && body[k] == rest[k];
    } else {
      assert rest[e].token.BadHeader?;
    }
  }

  /**
    One opaque or malformed line taints the complete entry: up to the next well-formed header, every
    line recorded as malformed stands in an entry whose verdict is MALFORMED, and every opaque line in
    one that is never offered for direct or relative use.
   */
  lemma LinesTaintEntry(s: seq<byte>, h: nat, k: nat)
    requires h < k < |Items(s, 0, true)| && Items(s, 0, true)[h].token.Header?
    requires NoHeader(Items(s, 0, true), h + 1, k + 1)
    ensures var i := CountHeaders(Items(s, 0, true)[..h]);
            var st := Parsed(s);
            && i < |st.cheats| && k < |st.lines|
            && (st.lines[k].kind.MalformedLine? ==> st.cheats[i].translationState == Malformed)
            && (st.lines[k].kind.OpaqueLine? ==>
                  st.cheats[i].translationState == Malformed || st.cheats[i].translationState == RequiresUnsupported)
  {
    hide Verdict, Run, Parsed, Items, CountHeaders, Records, Codes;
    var items := Items(s, 0, true);
    var rest := items[h + 1..];
    var e := BlockEnd(rest, 0);
    ExactVerdict(s, h);
    RecordsExact(s);
    assert rest[k - h - 1] == items[k];
    LineTaintsVerdict(rest, k - h - 1, e);
    if k - h - 1 <= e {
      var body := rest[0..e];
      forall i | h < i < k ensures !IsBoundary(items[i].token) {
        assert body[i - h - 1] == rest[i - h - 1] == items[i];
      }
      OpenAtInBlock(items, h, k);
    }
  }
}
