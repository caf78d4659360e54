/**
  Search calls read on the bytes of memory: which calls are accepted, and what an accepted one
  delivers, by the numeric codes a query holds for its type and its relation.
 */
module SearchCalls {
  import opened Bits
  import opened Common
  import opened SearchValues
  import opened SearchSpec
  import opened FlatMemory
  import opened SearchEngine
  import opened SearchEffects
  import opened SearchRuns

  // ----- codes ------------------------------------------------------------------------------

  /** Bytes of a value: type codes 0 and 1 stand for 8-bit values, 2 and 3 for 16-bit, 4 and 5 for 32-bit ones. */
  function CodeWidth(code: nat): nat { if code <= 1 then 1 else if code <= 3 then 2 else 4 }

  predicate SignedCode(code: nat) { code == 1 || code == 3 || code == 5 }

  /** 256^n for the three widths. */
  function Range(width: nat): nat {
    if width == 1 then 0x100 else if width == 2 then 0x1_0000 else 0x1_0000_0000
  }

  /** The number that the bytes of a value stand for: base 256, negative if signed and the top bit is set. */
  function NumberIn(code: nat, t: seq<byte>): int
    requires |t| == CodeWidth(code)
  {
    if SignedCode(code) && t[|t| - 1] >= 128 then LittleEndian(t) - Range(|t|) else LittleEndian(t)
  }

  /** The relation codes, on the current number, the previous one and the constant. */
  predicate Meets(relation: nat, current: int, previous: int, constant: int) {
    || (relation == 0 && current == constant)
    || (relation == 1 && current != constant)
    || (relation == 2 && current != previous)
    || (relation == 3 && current == previous)
    || (relation == 4 && current > previous)
    || (relation == 5 && current < previous)
  }

  /** A query object in memory: type, relation, constant and stride, four bytes each. */
  predicate QueryInOrder(m: seq<byte>, a: nat)
    requires a + 16 <= |m|
  {
    WordAt(m, a) <= 5 && WordAt(m, a + 4) <= 5 && WordAt(m, a + 12) > 0
  }

  lemma DecodedQuery(m: seq<byte>, a: nat)
    requires a + 16 <= |m|
    ensures QueryAt(m, a).Some? <==> QueryInOrder(m, a)
    ensures QueryAt(m, a).Some? ==>
              var q := QueryAt(m, a).value;
              && DecodeType(WordAt(m, a)) == Some(q.scalar) && DecodeRelation(WordAt(m, a + 4)) == Some(q.relation)
              && q.valueBits == WordAt(m, a + 8) && q.stride == WordAt(m, a + 12)
              && Width(q.scalar) == CodeWidth(WordAt(m, a))
  {
  }

  // ----- numbers ----------------------------------------------------------------------------

  lemma RangeIsPower(width: nat)
    requires width == 1 || width == 2 || width == 4
    ensures Range(width) == Pow2(8 * width)
  {
    WidthMaskIsPower(width);
  }

  lemma TopDigit(low: nat, b: nat, p: nat)
    requires low < p
    ensures b >= 128 <==> low + b * p >= 128 * p
  {
    if b >= 128 {
      assert b * p >= 128 * p;
    } else {
      assert b * p <= 127 * p;
    }
  }

  /** The last byte of a value holds its sign bit. */
  lemma TopByte(t: seq<byte>)
    requires t != []
    ensures t[|t| - 1] >= 128 <==> LittleEndian(t) >= Pow2(8 * |t| - 1)
  {
    assert Pow2(7) == 128;
    hide Pow2, LittleEndian;
    var low, b := t[..|t| - 1], t[|t| - 1];
    assert t == low + [b];
    LittleEndianAppend(low, b);
    LittleEndianBound(low);
    PowSum(7, 8 * |low|);
    TopDigit(LittleEndian(low), b, Pow2(8 * |low|));
  }

  lemma NumberIsNumeric(t: ScalarType, code: nat, bytes: seq<byte>)
    requires DecodeType(code) == Some(t) && |bytes| == Width(t)
    ensures |bytes| == CodeWidth(code) && Numeric(t, LittleEndian(bytes)) == NumberIn(code, bytes)
  {
    var v, m := LittleEndian(bytes), Pow2(8 * |bytes|);
    LittleEndianBound(bytes);
    DivModUnique(v, m, 0, v);
    TopByte(bytes);
    RangeIsPower(|bytes|);
  }

  /** One more byte below a number in base 256. */
  lemma LowByte(b: nat, rest: nat, high: nat, p: nat, low: nat)
    requires rest == high * p + low
    ensures b + 256 * rest == high * (256 * p) + (b + 256 * low)
  {
  }

  /** The low bytes of a number are its value modulo a power of 256. */
  lemma {:induction false} LowBytes(t: seq<byte>, n: nat) returns (high: nat)
    requires n <= |t|
    ensures LittleEndian(t) == high * Pow2(8 * n) + LittleEndian(t[..n])
    decreases n
  {
    if n == 0 {
      high := LittleEndian(t);
    } else {
      high := LowBytes(t[1..], n - 1);
      assert t[..n][1..] == t[1..][..n - 1];
      Pow256(n - 1);
      LowByte(t[0], LittleEndian(t[1..]), high, Pow2(8 * (n - 1)), LittleEndian(t[1..][..n - 1]));
    }
  }

  /** The constant of a query: its low bytes, as many as the type has, read like a value. */
  lemma ConstantIsNumeric(t: ScalarType, code: nat, bytes: seq<byte>)
    requires DecodeType(code) == Some(t) && Width(t) <= |bytes|
    ensures |bytes[..Width(t)]| == CodeWidth(code)
    ensures Numeric(t, LittleEndian(bytes)) == NumberIn(code, bytes[..Width(t)])
  {
    var w := Width(t);
    var high := LowBytes(bytes, w);
    LittleEndianBound(bytes[..w]);
    DivModUnique(LittleEndian(bytes), Pow2(8 * w), high, LittleEndian(bytes[..w]));
    NumericOfReduced(t, LittleEndian(bytes));
    NumberIsNumeric(t, code, bytes[..w]);
  }

  lemma MeetsIsRelated(t: ScalarType, r: Relation, code: nat, p: nat, c: nat, k: nat)
    requires DecodeRelation(code) == Some(r)
    ensures Related(t, r, p, c, k) <==> Meets(code, Numeric(t, c), Numeric(t, p), Numeric(t, k))
  {
  }

  /** The value of the given type at an address. */
  function NumberAt(code: nat, m: seq<byte>, a: nat): int
    requires a + CodeWidth(code) <= |m|
  {
    NumberIn(code, Get(m, a, CodeWidth(code)))
  }

  /** The query at `a` holds at an offset into the snapshots that start at `previous` and `current`. */
  predicate HoldsAt(m: seq<byte>, a: nat, previous: nat, current: nat, size: nat, offset: nat)
    requires a + 16 <= |m| && previous + size <= |m| && current + size <= |m|
  {
    var code := WordAt(m, a);
    && offset + CodeWidth(code) <= size
    && Meets(WordAt(m, a + 4), NumberAt(code, m, current + offset), NumberAt(code, m, previous + offset),
             NumberAt(code, m, a + 8))
  }

  lemma SelectedHolds(m: seq<byte>, a: nat, previous: nat, current: nat, size: nat, offset: nat)
    requires a + 16 <= |m| && previous + size <= |m| && current + size <= |m|
    requires QueryAt(m, a).Some?
    ensures Selected(QueryAt(m, a).value, Get(m, previous, size), Get(m, current, size), offset) <==>
            HoldsAt(m, a, previous, current, size, offset)
  {
    hide NumberIn, Numeric, Meets, Related, LittleEndian, DecodeType, DecodeRelation, QueryAt;
    DecodedQuery(m, a);
    var q, code := QueryAt(m, a).value, WordAt(m, a);
    var w := Width(q.scalar);
    if offset + w <= size {
      SliceOfGet(m, previous, size, offset, w);
      SliceOfGet(m, current, size, offset, w);
      NumberIsNumeric(q.scalar, code, Get(m, previous + offset, w));
      NumberIsNumeric(q.scalar, code, Get(m, current + offset, w));
      ConstantIsNumeric(q.scalar, code, Get(m, a + 8, 4));
      assert Get(m, a + 8, 4)[..w] == Get(m, a + 8, w);
      MeetsIsRelated(q.scalar, q.relation, WordAt(m, a + 4), LittleEndian(Get(m, previous + offset, w)),
                     LittleEndian(Get(m, current + offset, w)), q.valueBits);
    }
  }

  // ----- which calls are accepted -----------------------------------------------------------

  /** Nothing that is needed is null, and every offset fits 32 bits. */
  predicate PointersInOrder(c: Call) {
    && c.query != NULL && c.written != NULL && c.total != NULL
    && (c.current == NULL ==> c.size == 0) && (c.out == NULL ==> c.capacity == 0)
    && c.size <= 0x1_0000_0000
  }

  /** The output and the two cells lie apart from each other and from snapshot and query. */
  ghost predicate OutputsInOrder(p: Platform, c: Call) {
    && 4 * c.capacity <= SizeMax(p)
    && Separate(p, WrittenCell(p, c), TotalCell(p, c))
    && Separate(p, Output(c), WrittenCell(p, c)) && Separate(p, Output(c), TotalCell(p, c))
    && Separate(p, Output(c), Snapshot(c)) && Separate(p, Output(c), QueryObject(c))
    && Separate(p, WrittenCell(p, c), Snapshot(c)) && Separate(p, WrittenCell(p, c), QueryObject(c))
    && Separate(p, TotalCell(p, c), Snapshot(c)) && Separate(p, TotalCell(p, c), QueryObject(c))
  }

  lemma NullsExactly(p: Platform, c: Call)
    requires c.size <= SizeMax(p)
    ensures NullArguments(p, c) <==> !PointersInOrder(c)
  {
  }

  lemma TangledExactly(p: Platform, c: Call)
    requires c.size <= SizeMax(p) && 4 * c.capacity <= SizeMax(p) && PointersInOrder(c)
    ensures Tangled(p, c) <==> !OutputsInOrder(p, c)
  {
    hide RangesOverlap, Separate;
    var out, written, total := Output(c), WrittenCell(p, c), TotalCell(p, c);
    TestIsExact(p, written, total);
    TestIsExact(p, out, written);
    TestIsExact(p, out, total);
    TestIsExact(p, out, Snapshot(c));
    TestIsExact(p, out, QueryObject(c));
    TestIsExact(p, written, Snapshot(c));
    TestIsExact(p, written, QueryObject(c));
    TestIsExact(p, total, Snapshot(c));
    TestIsExact(p, total, QueryObject(c));
  }

  /** The verdict that scans and refinements share. */
  lemma CommonExactly(p: Platform, m: seq<byte>, c: Call)
    requires Callable(p, |m|, c)
    ensures PointersInOrder(c) ==> c.query + 16 <= |m|
    ensures CommonStatus(p, m, c) ==
              if !PointersInOrder(c) then InvalidArgument
              else if !QueryInOrder(m, c.query) then InvalidQuery
              else if !OutputsInOrder(p, c) then InvalidArgument
              else Ok
  {
    hide NullArguments, Tangled, OutputsInOrder, QueryAt, QueryInOrder;
    NullsExactly(p, c);
    if PointersInOrder(c) {
      DecodedQuery(m, c.query);
      if 4 * c.capacity <= SizeMax(p) {
        TangledExactly(p, c);
      } else {
        NoRoom(p, c);
      }
    }
  }

  lemma NoRoom(p: Platform, c: Call)
    requires 4 * c.capacity > SizeMax(p)
    ensures !OutputsInOrder(p, c)
  {
  }

  /**
    A scan is accepted exactly when its pointers, its query and its outputs are in order and it compares
    with a constant; each refusal has its exact condition.
   */
  lemma ScanAcceptedExactly(p: Platform, m: seq<byte>, c: Call)
    requires Callable(p, |m|, c)
    ensures PointersInOrder(c) ==> c.query + 16 <= |m|
    ensures InitialStatus(p, m, c) == Ok <==>
              PointersInOrder(c) && QueryInOrder(m, c.query) && WordAt(m, c.query + 4) <= 1 && OutputsInOrder(p, c)
    ensures InitialStatus(p, m, c) == InvalidArgument <==>
              !PointersInOrder(c) || (QueryInOrder(m, c.query) && !OutputsInOrder(p, c))
    ensures InitialStatus(p, m, c) == InvalidQuery <==>
              PointersInOrder(c) &&
              (!QueryInOrder(m, c.query) || (WordAt(m, c.query + 4) >= 2 && OutputsInOrder(p, c)))
    ensures InitialStatus(p, m, c) in {Ok, InvalidArgument, InvalidQuery}
  {
    hide CommonStatus, OutputsInOrder, QueryAt;
    CommonExactly(p, m, c);
    if PointersInOrder(c) {
      DecodedQuery(m, c.query);
      if CommonStatus(p, m, c) == Ok { QueryDecodes(p, m, c); }
    }
  }

  lemma QueryDecodes(p: Platform, m: seq<byte>, c: Call)
    requires Callable(p, |m|, c) && CommonStatus(p, m, c) == Ok
    ensures c.query + 16 <= |m| && QueryAt(m, c.query).Some?
  {
  }

  /** The pointers a refinement has beyond those of a scan. */
  predicate RefinePointersInOrder(c: RefineCall) {
    (c.previous == NULL ==> c.scan.size == 0) && (c.candidates == NULL ==> c.count == 0)
  }

  /** Each candidate is smaller than the next, and a whole value fits at each. */
  predicate CandidatesInOrder(words: seq<nat>, size: nat, width: nat) {
    && (forall i :: 0 < i < |words| ==> words[i - 1] < words[i])
    && (forall i :: 0 <= i < |words| ==> words[i] + width <= size)
  }

  /** The outputs lie apart from the previous snapshot and the candidates, except for the exact alias. */
  ghost predicate RefineOutputsInOrder(p: Platform, c: RefineCall) {
    && 4 * c.count <= SizeMax(p)
    && Separate(p, Previous(c), Output(c.scan))
    && Separate(p, WrittenCell(p, c.scan), Previous(c)) && Separate(p, TotalCell(p, c.scan), Previous(c))
    && Separate(p, WrittenCell(p, c.scan), Candidates(c)) && Separate(p, TotalCell(p, c.scan), Candidates(c))
    && (c.scan.out != c.candidates ==> Separate(p, Candidates(c), Output(c.scan)))
  }

  lemma RefineTangledExactly(p: Platform, c: RefineCall)
    requires c.scan.size <= SizeMax(p) && 4 * c.scan.capacity <= SizeMax(p) && 4 * c.count <= SizeMax(p)
    requires PointersInOrder(c.scan) && RefinePointersInOrder(c)
    ensures RefineTangled(p, c) <==> !RefineOutputsInOrder(p, c)
  {
    hide RangesOverlap, Separate;
    var out, written, total := Output(c.scan), WrittenCell(p, c.scan), TotalCell(p, c.scan);
    TestIsExact(p, Previous(c), out);
    TestIsExact(p, written, Previous(c));
    TestIsExact(p, total, Previous(c));
    TestIsExact(p, written, Candidates(c));
    TestIsExact(p, total, Candidates(c));
    TestIsExact(p, Candidates(c), out);
  }

  lemma {:induction false} AscendingByNeighbours(s: seq<nat>, i: nat, j: nat)
    requires i < j < |s| && forall k :: 0 < k < |s| ==> s[k - 1] < s[k]
    ensures s[i] < s[j]
    decreases j
  {
    assert s[j - 1] < s[j];
    if i < j - 1 { AscendingByNeighbours(s, i, j - 1); }
  }

  lemma CandidatesExactly(words: seq<nat>, size: nat, width: nat)
    ensures CandidatesInOrder(words, size, width) <==> ValidCandidates(words, size, width)
  {
    if CandidatesInOrder(words, size, width) {
      forall i, j | 0 <= i < j < |words| ensures words[i] < words[j] {
        AscendingByNeighbours(words, i, j);
      }
    }
  }

  /** What a refinement checks first: what a scan checks, and the pointers of its own. */
  ghost predicate ArgumentsInOrder(p: Platform, m: seq<byte>, c: RefineCall)
    requires PointersInOrder(c.scan) ==> c.scan.query + 16 <= |m|
  {
    && PointersInOrder(c.scan) && QueryInOrder(m, c.scan.query) && OutputsInOrder(p, c.scan)
    && RefinePointersInOrder(c)
  }

  /** The list of candidates found at entry is in order for the query's type. */
  predicate ListInOrder(m: seq<byte>, c: RefineCall)
    requires c.scan.query + 16 <= |m| && c.candidates + 4 * c.count <= |m|
  {
    CandidatesInOrder(Words(m, c.candidates, c.count), c.scan.size, CodeWidth(WordAt(m, c.scan.query)))
  }

  lemma RefineObjects(p: Platform, m: seq<byte>, c: RefineCall)
    requires RefineCallable(p, |m|, c)
    ensures PointersInOrder(c.scan) ==> c.scan.query + 16 <= |m|
    ensures RefinePointersInOrder(c) ==> c.candidates + 4 * c.count <= |m|
  {
  }

  /** The verdict of a refinement, check by check. */
  lemma RefineVerdict(p: Platform, m: seq<byte>, c: RefineCall)
    requires RefineCallable(p, |m|, c)
    ensures PointersInOrder(c.scan) ==> c.scan.query + 16 <= |m|
    ensures RefinePointersInOrder(c) ==> c.candidates + 4 * c.count <= |m|
    ensures RefineStatus(p, m, c) ==
              if CommonStatus(p, m, c.scan) != Ok then CommonStatus(p, m, c.scan)
              else if !RefinePointersInOrder(c) then InvalidArgument
              else if !ListInOrder(m, c) then InvalidCandidates
              else if !RefineOutputsInOrder(p, c) then InvalidArgument
              else Ok
  {
    hide RefineTangled, RefineOutputsInOrder, OutputsInOrder, ValidCandidates, CandidatesInOrder, QueryInOrder, QueryAt;
    hide CommonStatus;
    RefineObjects(p, m, c);
    CommonExactly(p, m, c.scan);
    if CommonStatus(p, m, c.scan) == Ok && RefinePointersInOrder(c) {
      QueryDecodes(p, m, c.scan);
      DecodedQuery(m, c.scan.query);
      CandidatesExactly(Words(m, c.candidates, c.count), c.scan.size, CodeWidth(WordAt(m, c.scan.query)));
      OutputFits(p, c.scan);
      if 4 * c.count <= SizeMax(p) {
        RefineTangledExactly(p, c);
      } else {
        NoRoomForCandidates(p, c);
      }
    }
  }

  lemma OutputFits(p: Platform, c: Call)
    ensures OutputsInOrder(p, c) ==> 4 * c.capacity <= SizeMax(p)
  {
  }

  lemma NoRoomForCandidates(p: Platform, c: RefineCall)
    requires 4 * c.count > SizeMax(p)
    ensures !RefineOutputsInOrder(p, c)
  {
  }

  /**
    A refinement is accepted exactly when its pointers, query, candidates and outputs are in order; each
    refusal has its exact condition, and the checks come in the order written here.
   */
  lemma RefineAcceptedExactly(p: Platform, m: seq<byte>, c: RefineCall)
    requires RefineCallable(p, |m|, c)
    ensures PointersInOrder(c.scan) ==> c.scan.query + 16 <= |m|
    ensures RefinePointersInOrder(c) ==> c.candidates + 4 * c.count <= |m|
    ensures RefineStatus(p, m, c) == Ok <==>
              ArgumentsInOrder(p, m, c) && ListInOrder(m, c) && RefineOutputsInOrder(p, c)
    ensures RefineStatus(p, m, c) == InvalidQuery <==>
              PointersInOrder(c.scan) && !QueryInOrder(m, c.scan.query)
    ensures RefineStatus(p, m, c) == InvalidCandidates <==>
              ArgumentsInOrder(p, m, c) && !ListInOrder(m, c)
    ensures RefineStatus(p, m, c) == InvalidArgument <==>
              || !PointersInOrder(c.scan)
              || (QueryInOrder(m, c.scan.query) && !(OutputsInOrder(p, c.scan) && RefinePointersInOrder(c)))
              || (ArgumentsInOrder(p, m, c) && ListInOrder(m, c) && !RefineOutputsInOrder(p, c))
    ensures RefineStatus(p, m, c) != Truncated
  {
    hide RefineStatus, CommonStatus, RefineOutputsInOrder, OutputsInOrder, ListInOrder, QueryInOrder;
    RefineVerdict(p, m, c);
    CommonExactly(p, m, c.scan);
  }

  // ----- what an accepted call delivers -----------------------------------------------------

  /** `delivered` and `total` report the matches `all` into a buffer of the given capacity. */
  predicate Reports(all: seq<nat>, capacity: nat, delivered: seq<nat>, total: nat, status: Status) {
    && total == |all|
    && delivered == (if |all| <= capacity then all else all[..capacity])
    && status == (if |all| <= capacity then Ok else Truncated)
  }

  /**
    An accepted scan: the offsets at which it examines a whole value are the multiples of the stride, and
    it reports exactly those whose number equals the constant (relation code 0), or differs (1), ascending.
   */
  lemma ScanDelivers(p: Platform, m: seq<byte>, c: Call) returns (all: seq<nat>)
    requires ScanAccepted(p, m, c)
    ensures c.query + 16 <= |m| && c.current + c.size <= |m|
    ensures QueryInOrder(m, c.query) && WordAt(m, c.query + 4) <= 1
    ensures Ascending(all)
    ensures forall x: nat :: x in all <==>
              x % WordAt(m, c.query + 12) == 0 && HoldsAt(m, c.query, c.current, c.current, c.size, x)
    ensures Reports(all, c.capacity, ScanList(p, m, c), SizeAt(p, MemoryAfterScan(p, m, c), c.total),
                    FoundStatus(InitialFound(p, m, c)))
  {
    hide Select, HoldsAt, QueryAt, Selected, CommonStatus;
    ScanAcceptedExactly(p, m, c);
    AcceptedScan(p, m, c);
    QueryDecodes(p, m, c);
    DecodedQuery(m, c.query);
    var q, snapshot := QueryAt(m, c.query).value, Get(m, c.current, c.size);
    var offsets := Offsets(c.size, Width(q.scalar), q.stride);
    OffsetsExact(c.size, Width(q.scalar), q.stride, 0);
    all := Select(q, snapshot, snapshot, offsets);
    SelectExact(q, snapshot, snapshot, offsets);
    forall x: nat
      ensures x in all <==> x % q.stride == 0 && HoldsAt(m, c.query, c.current, c.current, c.size, x)
    {
      OffsetsExact(c.size, Width(q.scalar), q.stride, x);
      SelectedHolds(m, c.query, c.current, c.current, c.size, x);
      HoldsInside(m, c.query, c.current, c.current, c.size, x);
    }
    assert all[..|all|] == all;
  }

  lemma HoldsInside(m: seq<byte>, a: nat, previous: nat, current: nat, size: nat, offset: nat)
    requires a + 16 <= |m| && previous + size <= |m| && current + size <= |m|
    ensures HoldsAt(m, a, previous, current, size, offset) ==> offset + CodeWidth(WordAt(m, a)) <= size
  {
  }

  /** A scan without a buffer stores the number of all matches and writes nothing but its two cells. */
  lemma CountOnly(p: Platform, m: seq<byte>, c: Call) returns (all: seq<nat>)
    requires ScanAccepted(p, m, c) && c.capacity == 0
    ensures c.query + 16 <= |m| && c.current + c.size <= |m|
    ensures forall x: nat :: x in all <==>
              x % WordAt(m, c.query + 12) == 0 && HoldsAt(m, c.query, c.current, c.current, c.size, x)
    ensures Ascending(all)
    ensures var after := MemoryAfterScan(p, m, c);
            && SizeAt(p, after, c.written) == 0 && SizeAt(p, after, c.total) == |all|
            && forall x | 0 <= x < |m| ::
                 !Contains(WrittenCell(p, c), x) && !Contains(TotalCell(p, c), x) ==> after[x] == m[x]
  {
    all := ScanDelivers(p, m, c);
    hide HoldsAt, ScanAccepted, CellsApart, Words, SizeAt;
    var after := MemoryAfterScan(p, m, c);
    var found := InitialFound(p, m, c);
    assert |found.written| == 0;
    forall x | 0 <= x < |m| && !Contains(WrittenCell(p, c), x) && !Contains(TotalCell(p, c), x)
      ensures after[x] == m[x]
    {
      assert Untouched(p, c, found, x);
    }
  }

  /** The call without a buffer that counts what a given call would deliver. */
  lemma CountOnlyAccepted(p: Platform, m: seq<byte>, c: Call)
    requires Callable(p, |m|, c) && InitialStatus(p, m, c) == Ok
    ensures var counting := c.(out := NULL, capacity := 0);
            Callable(p, |m|, counting) && InitialStatus(p, m, counting) == Ok
  {
    hide InitialStatus;
    ScanAcceptedExactly(p, m, c);
    ScanAcceptedExactly(p, m, c.(out := NULL, capacity := 0));
  }

  lemma DeliverReports(matches: seq<nat>, capacity: nat)
    ensures var found := Deliver(matches, capacity);
            Reports(matches, capacity, found.written, found.total, FoundStatus(found))
  {
    assert matches[..|matches|] == matches;
  }

  /** The objects of an accepted refinement lie in memory, and its query and its candidates are in order. */
  lemma AcceptedStep(p: Platform, s: Step)
    requires Accepted(p, s)
    ensures var m, c := s.memory, s.call;
            && c.scan.query + 16 <= |m| && c.scan.current + c.scan.size <= |m|
            && c.previous + c.scan.size <= |m| && c.candidates + 4 * c.count <= |m|
            && QueryInOrder(m, c.scan.query) && QueryAt(m, c.scan.query).Some? && Ascending(CandidatesOf(s))
  {
    hide RefineTangled, Tangled;
    var m, c := s.memory, s.call;
    AcceptedRefinement(p, m, c);
    AcceptedScan(p, m, c.scan);
    QueryDecodes(p, m, c.scan);
    DecodedQuery(m, c.scan.query);
  }

  /** What an accepted refinement leaves are the matches of its round, as far as there is room. */
  lemma StepReports(p: Platform, s: Step)
    requires Accepted(p, s) && s.call.candidates + 4 * s.call.count <= |s.memory|
    ensures var r := RoundOf(p, s);
            Reports(Select(r.query, r.previous, r.current, CandidatesOf(s)), s.call.scan.capacity,
                    StepList(p, s), StoredTotal(p, s), StatusOf(p, s))
  {
    hide Select, Accepted, Deliver, Reports;
    var r := RoundOf(p, s);
    DeliverReports(Select(r.query, r.previous, r.current, CandidatesOf(s)), s.call.scan.capacity);
  }

  /**
    An accepted refinement reports exactly those of the candidates found at entry whose current number
    stands in the query's relation to the constant or to the previous number, in order.
   */
  lemma RefineDelivers(p: Platform, s: Step) returns (all: seq<nat>)
    requires Accepted(p, s)
    ensures var m, c := s.memory, s.call;
            && c.scan.query + 16 <= |m| && c.scan.current + c.scan.size <= |m|
            && c.previous + c.scan.size <= |m| && c.candidates + 4 * c.count <= |m|
            && QueryInOrder(m, c.scan.query)
            && forall x: nat :: x in all <==>
                 x in CandidatesOf(s) && HoldsAt(m, c.scan.query, c.previous, c.scan.current, c.scan.size, x)
    ensures Ascending(all)
    ensures Reports(all, s.call.scan.capacity, StepList(p, s), StoredTotal(p, s), StatusOf(p, s))
  {
    AcceptedStep(p, s);
    hide Select, HoldsAt, QueryAt, Selected, Accepted, Reports, StepList, StoredTotal, StatusOf;
    var m, c, r := s.memory, s.call, RoundOf(p, s);
    all := Select(r.query, r.previous, r.current, CandidatesOf(s));
    SelectExact(r.query, r.previous, r.current, CandidatesOf(s));
    StepReports(p, s);
    forall x: nat
      ensures x in all <==>
              x in CandidatesOf(s) && HoldsAt(m, c.scan.query, c.previous, c.scan.current, c.scan.size, x)
    {
      SelectedHolds(m, c.scan.query, c.previous, c.scan.current, c.scan.size, x);
    }
  }
}
