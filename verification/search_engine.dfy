/**
  `vc_search_initial` and `vc_search_refine` as the source writes them, on a flat memory with real
  pointers: validation, the two loops with bounded output, and in-place compaction through an exact
  pointer alias. Each method's effect on the whole memory is a function of the memory at entry.
 */
module SearchEngine {
  import opened Bits
  import opened Common
  import opened SearchValues
  import opened SearchSpec
  import opened FlatMemory

  datatype Status = Ok | Truncated | InvalidArgument | InvalidQuery | InvalidCandidates

  const QUERY_BYTES: nat := 16
  const UINT32_MAX: nat := 0xffff_ffff

  /** Arguments of an initial scan; pointers are addresses. */
  datatype Call = Call(current: nat, size: nat, query: nat, out: nat, capacity: nat, written: nat, total: nat)

  /** Arguments of a refinement: `scan` holds those it shares with an initial scan. */
  datatype RefineCall = RefineCall(scan: Call, previous: nat, candidates: nat, count: nat)

  function Snapshot(c: Call): Region { Region(c.current, c.size) }
  function QueryObject(c: Call): Region { Region(c.query, QUERY_BYTES) }
  function Output(c: Call): Region { Region(c.out, 4 * c.capacity) }
  function WrittenCell(p: Platform, c: Call): Region { Region(c.written, SizeBytes(p)) }
  function TotalCell(p: Platform, c: Call): Region { Region(c.total, SizeBytes(p)) }
  function Previous(c: RefineCall): Region { Region(c.previous, c.scan.size) }
  function Candidates(c: RefineCall): Region { Region(c.candidates, 4 * c.count) }

  /** What C demands of the caller: `size_t` arguments, and non-null pointers to objects of the stated sizes. */
  predicate Callable(p: Platform, n: nat, c: Call) {
    && n <= SizeMax(p) + 1
    && c.size <= SizeMax(p) && c.capacity <= SizeMax(p)
    && IsObject(Snapshot(c), n) && IsObject(QueryObject(c), n)
    && (4 * c.capacity <= SizeMax(p) ==> IsObject(Output(c), n))
    && IsObject(WrittenCell(p, c), n) && IsObject(TotalCell(p, c), n)
  }

  predicate RefineCallable(p: Platform, n: nat, c: RefineCall) {
    Callable(p, n, c.scan) && c.count <= SizeMax(p) && IsObject(Previous(c), n) && IsObject(Candidates(c), n)
  }

  // ----- queries ----------------------------------------------------------------------------

  function DecodeType(raw: nat): Option<ScalarType> {
    if raw == 0 then Some(U8) else if raw == 1 then Some(S8)
    else if raw == 2 then Some(U16) else if raw == 3 then Some(S16)
    else if raw == 4 then Some(U32) else if raw == 5 then Some(S32)
    else None
  }

  function DecodeRelation(raw: nat): Option<Relation> {
    if raw == 0 then Some(Equal) else if raw == 1 then Some(NotEqual)
    else if raw == 2 then Some(Changed) else if raw == 3 then Some(Unchanged)
    else if raw == 4 then Some(Increased) else if raw == 5 then Some(Decreased)
    else None
  }

  /** The query at an address, if its type, relation and stride are usable. */
  function QueryAt(m: seq<byte>, a: nat): Option<Query>
    requires a + QUERY_BYTES <= |m|
  {
    var scalar, relation := DecodeType(WordAt(m, a)), DecodeRelation(WordAt(m, a + 4));
    if scalar.None? || WordAt(m, a + 12) == 0 || relation.None? then None
    else Some(Query(scalar.value, relation.value, WordAt(m, a + 8), WordAt(m, a + 12)))
  }

  type GoodQuery = q: Query | q.stride > 0 witness Query(U8, Equal, 0, 1)

  // ----- validation -------------------------------------------------------------------------

  predicate Representable(p: Platform, size: nat) { p.Host64? ==> size <= UINT32_MAX + 1 }

  /** Some pair of an initial scan's objects overlaps. */
  predicate Tangled(p: Platform, c: Call)
    requires c.size <= SizeMax(p) && 4 * c.capacity <= SizeMax(p)
  {
    || RangesOverlap(p, WrittenCell(p, c), TotalCell(p, c))
    || RangesOverlap(p, Output(c), Snapshot(c))
    || RangesOverlap(p, Output(c), QueryObject(c))
    || RangesOverlap(p, Output(c), WrittenCell(p, c))
    || RangesOverlap(p, Output(c), TotalCell(p, c))
    || RangesOverlap(p, WrittenCell(p, c), Snapshot(c))
    || RangesOverlap(p, TotalCell(p, c), Snapshot(c))
    || RangesOverlap(p, WrittenCell(p, c), QueryObject(c))
    || RangesOverlap(p, TotalCell(p, c), QueryObject(c))
  }

  predicate RefineTangled(p: Platform, c: RefineCall)
    requires c.scan.size <= SizeMax(p) && 4 * c.scan.capacity <= SizeMax(p) && 4 * c.count <= SizeMax(p)
  {
    || RangesOverlap(p, Previous(c), Output(c.scan))
    || RangesOverlap(p, WrittenCell(p, c.scan), Previous(c))
    || RangesOverlap(p, TotalCell(p, c.scan), Previous(c))
    || RangesOverlap(p, WrittenCell(p, c.scan), Candidates(c))
    || RangesOverlap(p, TotalCell(p, c.scan), Candidates(c))
    || (c.scan.out != c.candidates && RangesOverlap(p, Candidates(c), Output(c.scan)))
  }

  predicate NullArguments(p: Platform, c: Call) {
    || c.written == NULL || c.total == NULL
    || c.query == NULL || (c.current == NULL && c.size != 0) || (c.out == NULL && c.capacity != 0)
    || !Representable(p, c.size)
  }

  /** The verdict of `vc_validate_common`. */
  function CommonStatus(p: Platform, m: seq<byte>, c: Call): Status
    requires Callable(p, |m|, c)
  {
    if NullArguments(p, c) then InvalidArgument
    else if QueryAt(m, c.query).None? then InvalidQuery
    else if 4 * c.capacity > SizeMax(p) || Tangled(p, c) then InvalidArgument
    else Ok
  }

  /** The verdict of all checks of an initial scan. */
  function InitialStatus(p: Platform, m: seq<byte>, c: Call): Status
    requires Callable(p, |m|, c)
  {
    var status := CommonStatus(p, m, c);
    if status != Ok then status
    else
      var relation := QueryAt(m, c.query).value.relation;
      if !relation.Equal? && !relation.NotEqual? then InvalidQuery else Ok
  }

  /** The verdict of all checks of a refinement. */
  function RefineStatus(p: Platform, m: seq<byte>, c: RefineCall): Status
    requires RefineCallable(p, |m|, c)
  {
    var status := CommonStatus(p, m, c.scan);
    if status != Ok then status
    else if c.previous == NULL && c.scan.size != 0 then InvalidArgument
    else if c.candidates == NULL && c.count != 0 then InvalidArgument
    else if !ValidCandidates(Words(m, c.candidates, c.count), c.scan.size,
                             Width(QueryAt(m, c.scan.query).value.scalar)) then
      InvalidCandidates
    else if 4 * c.count > SizeMax(p) || RefineTangled(p, c) then InvalidArgument
    else Ok
  }

  // ----- outcomes ---------------------------------------------------------------------------

  function Take(matches: seq<nat>, capacity: nat): seq<nat> { matches[..Min(capacity, |matches|)] }

  /** The memory after a search: the delivered words, then the two counts. */
  function Commit(p: Platform, m: seq<byte>, c: Call, found: Found): (r: seq<byte>)
    requires c.out + 4 * |found.written| <= |m|
    requires c.written + SizeBytes(p) <= |m| && c.total + SizeBytes(p) <= |m|
    ensures |r| == |m|
  {
    var m1 := Put(m, c.out, EncodeWords(found.written));
    var m2 := Put(m1, c.written, Encode(|found.written|, SizeBytes(p)));
    Put(m2, c.total, Encode(found.total, SizeBytes(p)))
  }

  function FoundStatus(found: Found): Status { if found.truncated then Truncated else Ok }

  /** What an accepted initial scan finds. */
  function InitialFound(p: Platform, m: seq<byte>, c: Call): Found
    requires Callable(p, |m|, c) && InitialStatus(p, m, c) == Ok
  {
    var q := QueryAt(m, c.query).value;
    var snapshot := Get(m, c.current, c.size);
    Deliver(Select(q, snapshot, snapshot, Offsets(c.size, Width(q.scalar), q.stride)), c.capacity)
  }

  /** What an accepted refinement finds among the candidates present at entry. */
  function RefineFound(p: Platform, m: seq<byte>, c: RefineCall): Found
    requires RefineCallable(p, |m|, c) && RefineStatus(p, m, c) == Ok
  {
    var q := QueryAt(m, c.scan.query).value;
    Deliver(Select(q, Get(m, c.previous, c.scan.size), Get(m, c.scan.current, c.scan.size),
                   Words(m, c.candidates, c.count)), c.scan.capacity)
  }

  // ----- code -------------------------------------------------------------------------------

  method LoadQuery(mem: array<byte>, a: nat) returns (q: Option<Query>)
    requires a + QUERY_BYTES <= mem.Length
    ensures q == QueryAt(mem[..], a)
  {
    var rawType := ReadLittleEndian(mem, a, 4);
    var rawRelation := ReadLittleEndian(mem, a + 4, 4);
    var valueBits := ReadLittleEndian(mem, a + 8, 4);
    var stride := ReadLittleEndian(mem, a + 12, 4);
    var scalar, relation := DecodeType(rawType), DecodeRelation(rawRelation);
    if scalar.None? || stride == 0 || relation.None? {
      return None;
    }
    q := Some(Query(scalar.value, relation.value, valueBits, stride));
  }

  /** Models `vc_validate_common`. */
  method ValidateCommon(p: Platform, mem: array<byte>, c: Call) returns (status: Status, q: GoodQuery)
    requires Callable(p, mem.Length, c)
    ensures status == CommonStatus(p, mem[..], c)
    ensures status == Ok ==> QueryAt(mem[..], c.query) == Some(q)
  {
    q := Query(U8, Equal, 0, 1);
    if c.written == NULL || c.total == NULL {
      return InvalidArgument, q;
    }
    if c.query == NULL || (c.current == NULL && c.size != 0) || (c.out == NULL && c.capacity != 0) ||
       !Representable(p, c.size)
    {
      return InvalidArgument, q;
    }
    var decoded := LoadQuery(mem, c.query);
    if decoded.None? {
      return InvalidQuery, q;
    }
    q := decoded.value;
    MultiplyExact(p, c.capacity, 4);
    var outputBytes := MultiplySize(p, c.capacity, 4);
    if outputBytes.None? {
      return InvalidArgument, q;
    }
    if Tangled(p, c) {
      return InvalidArgument, q;
    }
    return Ok, q;
  }

  /** The memory in the middle of a search: what fits of the matches so far has been written. */
  ghost predicate Delivered(m: seq<byte>, m0: seq<byte>, out: nat, capacity: nat, matches: seq<nat>) {
    out + 4 * capacity <= |m0| && m == Put(m0, out, EncodeWords(Take(matches, capacity)))
  }

  lemma TakeAppend(matches: seq<nat>, capacity: nat, x: nat)
    ensures Take(matches + [x], capacity) ==
            if |matches| < capacity then Take(matches, capacity) + [x] else Take(matches, capacity)
  {
  }

  lemma DeliveredNext(m0: seq<byte>, out: nat, capacity: nat, matches: seq<nat>, x: nat)
    requires out + 4 * capacity <= |m0|
    ensures var before := Put(m0, out, EncodeWords(Take(matches, capacity)));
            var n := |Take(matches, capacity)|;
            Put(m0, out, EncodeWords(Take(matches + [x], capacity))) ==
            if n < capacity then Put(before, out + 4 * n, Encode(x, 4)) else before
  {
    TakeAppend(matches, capacity, x);
    if |matches| < capacity {
      AppendWord(m0, out, Take(matches, capacity), x);
    }
  }

  /** Models the bounded store of one match. */
  method Record(mem: array<byte>, out: nat, capacity: nat, written: nat, x: nat,
                ghost m0: seq<byte>, ghost matches: seq<nat>) returns (next: nat)
    requires Delivered(mem[..], m0, out, capacity, matches) && |m0| == mem.Length
    requires written == |Take(matches, capacity)|
    modifies mem
    ensures Delivered(mem[..], m0, out, capacity, matches + [x])
    ensures next == |Take(matches + [x], capacity)|
  {
    DeliveredNext(m0, out, capacity, matches, x);
    next := written;
    if written < capacity {
      Store(mem, out + 4 * written, x, 4);
      next := written + 1;
    }
  }

  /** Bytes outside the output region still have their entry-time values. */
  lemma DeliveredKeeps(m: seq<byte>, m0: seq<byte>, out: nat, capacity: nat, matches: seq<nat>, a: nat, n: nat)
    requires Delivered(m, m0, out, capacity, matches) && a + n <= |m0|
    requires Apart(Region(out, 4 * |Take(matches, capacity)|), Region(a, n))
    ensures Get(m, a, n) == Get(m0, a, n)
  {
    PutOutside(m0, out, EncodeWords(Take(matches, capacity)), a, n);
  }

  lemma SliceOfGet(m: seq<byte>, a: nat, n: nat, i: nat, w: nat)
    requires a + n <= |m| && i + w <= n
    ensures Get(m, a, n)[i..i + w] == Get(m, a + i, w)
  {
    var t := Get(m, a, n);
    var left, right := t[i..i + w], Get(m, a + i, w);
    forall k | 0 <= k < w ensures left[k] == right[k] {
      assert left[k] == t[i + k];
    }
  }

  /** A value read during the loop is the value of the entry-time snapshot. */
  lemma ValueKept(m: seq<byte>, m0: seq<byte>, out: nat, capacity: nat, matches: seq<nat>,
                  snapshot: Region, offset: nat, w: nat)
    requires Delivered(m, m0, out, capacity, matches)
    requires snapshot.start + snapshot.size <= |m0| && offset + w <= snapshot.size
    requires Apart(Region(out, 4 * capacity), snapshot)
    ensures LittleEndian(Get(m, snapshot.start + offset, w)) ==
            ValueAt(Get(m0, snapshot.start, snapshot.size), offset, w)
  {
    assert |Take(matches, capacity)| <= capacity;
    if w == 0 {
      assert Get(m, snapshot.start + offset, w) == Get(m0, snapshot.start + offset, w) == [];
    } else {
      DeliveredKeeps(m, m0, out, capacity, matches, snapshot.start + offset, w);
    }
    SliceOfGet(m0, snapshot.start, snapshot.size, offset, w);
  }

  /** Models the end of both searches: the two counts are stored and the status is chosen. */
  method Finish(p: Platform, mem: array<byte>, c: Call, written: nat, total: nat,
                ghost m0: seq<byte>, ghost matches: seq<nat>) returns (status: Status)
    requires Delivered(mem[..], m0, c.out, c.capacity, matches) && |m0| == mem.Length
    requires written == |Take(matches, c.capacity)| && total == |matches|
    requires c.written + SizeBytes(p) <= mem.Length && c.total + SizeBytes(p) <= mem.Length
    modifies mem
    ensures status == FoundStatus(Deliver(matches, c.capacity))
    ensures mem[..] == Commit(p, m0, c, Deliver(matches, c.capacity))
  {
    Store(mem, c.written, written, SizeBytes(p));
    Store(mem, c.total, total, SizeBytes(p));
    status := if total > c.capacity then Truncated else Ok;
  }

  /** The guards an accepted scan has passed. */
  lemma AcceptedScan(p: Platform, m: seq<byte>, c: Call)
    requires Callable(p, |m|, c) && CommonStatus(p, m, c) == Ok
    ensures c.current + c.size <= |m| && c.out + 4 * c.capacity <= |m|
    ensures c.written + SizeBytes(p) <= |m| && c.total + SizeBytes(p) <= |m|
    ensures Apart(Output(c), Snapshot(c)) && Apart(Output(c), WrittenCell(p, c)) && Apart(Output(c), TotalCell(p, c))
    ensures Apart(WrittenCell(p, c), TotalCell(p, c))
    ensures Apart(WrittenCell(p, c), Snapshot(c)) && Apart(TotalCell(p, c), Snapshot(c))
    ensures c.size <= UINT32_MAX + 1
  {
    NotOverlapping(p, Output(c), Snapshot(c));
    NotOverlapping(p, Output(c), WrittenCell(p, c));
    NotOverlapping(p, Output(c), TotalCell(p, c));
    NotOverlapping(p, WrittenCell(p, c), TotalCell(p, c));
    NotOverlapping(p, WrittenCell(p, c), Snapshot(c));
    NotOverlapping(p, TotalCell(p, c), Snapshot(c));
  }

  /** The scan's comparison of an offset is the selection of the specification. */
  lemma ConstantRelation(q: Query, snapshot: seq<byte>, offset: nat)
    requires (q.relation.Equal? || q.relation.NotEqual?) && offset + Width(q.scalar) <= |snapshot|
    ensures Related(q.scalar, q.relation, 0, ValueAt(snapshot, offset, Width(q.scalar)), q.valueBits)
         == Selected(q, snapshot, snapshot, offset)
  {
  }

  /** Models the call of `vc_matches`. */
  method Compare(q: Query, previous: nat, current: nat) returns (hit: bool)
    ensures hit == Related(q.scalar, q.relation, previous, current, q.valueBits)
  {
    MatchesIsRelation(q.scalar, q.relation, previous, current, q.valueBits);
    hit := Matches(q.scalar, q.relation, previous, current, q.valueBits);
  }

  lemma SelectNext(q: Query, previous: seq<byte>, current: seq<byte>, offsets: seq<nat>, x: nat)
    ensures Select(q, previous, current, offsets + [x]) ==
            Select(q, previous, current, offsets) + (if Selected(q, previous, current, x) then [x] else [])
  {
    assert (offsets + [x])[..|offsets|] == offsets;
  }

  lemma MultiplesNext(n: nat, stride: nat)
    ensures Multiples(n + 1, stride) == Multiples(n, stride) + [n * stride]
  {
  }

  lemma NextMultiple(k: nat, stride: nat)
    ensures (k + 1) * stride == k * stride + stride
  {
  }

  lemma LastMultiple(size: nat, width: nat, stride: nat, k: nat)
    requires stride > 0 && width <= size && k * stride <= size - width < k * stride + stride
    ensures OffsetCount(size, width, stride) == k + 1
  {
    DivModUnique(size - width, stride, k, size - width - k * stride);
  }

  /** What the loop of an initial scan relies on. */
  ghost predicate ScanSeparated(n: nat, c: Call) {
    && c.current + c.size <= n && c.out + 4 * c.capacity <= n
    && c.size <= UINT32_MAX + 1 && Apart(Output(c), Snapshot(c))
  }

  /** The matches among the first `k` offsets of the entry-time snapshot. */
  ghost function ScannedSoFar(q: GoodQuery, c: Call, m0: seq<byte>, k: nat): (r: seq<nat>)
    requires ScanSeparated(|m0|, c)
  {
    Select(q, Get(m0, c.current, c.size), Get(m0, c.current, c.size), Multiples(k, q.stride))
  }

  lemma ScannedNext(q: GoodQuery, c: Call, m0: seq<byte>, k: nat)
    requires ScanSeparated(|m0|, c)
    ensures var snapshot := Get(m0, c.current, c.size);
            ScannedSoFar(q, c, m0, k + 1) == ScannedSoFar(q, c, m0, k) +
              (if Selected(q, snapshot, snapshot, k * q.stride) then [k * q.stride] else [])
  {
    MultiplesNext(k, q.stride);
    SelectNext(q, Get(m0, c.current, c.size), Get(m0, c.current, c.size), Multiples(k, q.stride), k * q.stride);
  }

  /** Models the read and the comparison of one offset of an initial scan. */
  method CompareOffset(mem: array<byte>, c: Call, q: GoodQuery, offset: nat,
                       ghost m0: seq<byte>, ghost matches: seq<nat>)
    returns (hit: bool)
    requires Delivered(mem[..], m0, c.out, c.capacity, matches) && |m0| == mem.Length
    requires ScanSeparated(mem.Length, c)
    requires offset + Width(q.scalar) <= c.size && (q.relation.Equal? || q.relation.NotEqual?)
    ensures var snapshot := Get(m0, c.current, c.size); hit == Selected(q, snapshot, snapshot, offset)
  {
    var value := ReadLittleEndian(mem, c.current + offset, Width(q.scalar));
    ValueKept(mem[..], m0, c.out, c.capacity, matches, Snapshot(c), offset, Width(q.scalar));
    hit := Compare(q, 0, value);
    ConstantRelation(q, Get(m0, c.current, c.size), offset);
  }

  /** One examined offset of an initial scan. */
  method ExamineOffset(mem: array<byte>, c: Call, q: GoodQuery, offset: nat, written: nat, total: nat,
                       ghost m0: seq<byte>, ghost matches: seq<nat>, ghost k: nat)
    returns (nextWritten: nat, nextTotal: nat, ghost nextMatches: seq<nat>)
    requires Delivered(mem[..], m0, c.out, c.capacity, matches) && |m0| == mem.Length
    requires written == |Take(matches, c.capacity)| && total == |matches|
    requires ScanSeparated(mem.Length, c)
    requires offset + Width(q.scalar) <= c.size && (q.relation.Equal? || q.relation.NotEqual?)
    requires offset == k * q.stride && matches == ScannedSoFar(q, c, m0, k)
    modifies mem
    ensures nextMatches == ScannedSoFar(q, c, m0, k + 1)
    ensures Delivered(mem[..], m0, c.out, c.capacity, nextMatches)
    ensures nextWritten == |Take(nextMatches, c.capacity)| && nextTotal == |nextMatches|
  {
    hide Selected, ScannedSoFar, Delivered, Take;
    var hit := CompareOffset(mem, c, q, offset, m0, matches);
    ScannedNext(q, c, m0, k);
    nextWritten, nextTotal, nextMatches := written, total, matches;
    if hit {
      nextMatches := matches + [offset];
      nextWritten := Record(mem, c.out, c.capacity, written, offset % (UINT32_MAX + 1), m0, matches);
      nextTotal := total + 1;
    }
  }

  /** Models `vc_search_initial`. */
  method SearchInitial(p: Platform, mem: array<byte>, c: Call) returns (status: Status)
    requires Callable(p, mem.Length, c)
    modifies mem
    ensures InitialStatus(p, old(mem[..]), c) != Ok ==>
              status == InitialStatus(p, old(mem[..]), c) && mem[..] == old(mem[..])
    ensures InitialStatus(p, old(mem[..]), c) == Ok ==>
              var found := InitialFound(p, old(mem[..]), c);
              && c.out + 4 * |found.written| <= mem.Length
              && c.written + SizeBytes(p) <= mem.Length && c.total + SizeBytes(p) <= mem.Length
              && status == FoundStatus(found) && mem[..] == Commit(p, old(mem[..]), c, found)
  {
    var q: GoodQuery;
    status, q := ValidateCommon(p, mem, c);
    if status != Ok {
      return;
    }
    if !q.relation.Equal? && !q.relation.NotEqual? {
      return InvalidQuery;
    }
    ghost var m0 := mem[..];
    AcceptedScan(p, m0, c);
    NothingDelivered(m0, c.out, c.capacity);
    var width := Width(q.scalar);
    if c.size < width {
      status := Finish(p, mem, c, 0, 0, m0, []);
      return;
    }
    var written, total, matches := ScanOffsets(mem, c, q, m0);
    status := Finish(p, mem, c, written, total, m0, matches);
  }

  /** Models the loop of `vc_search_initial`. */
  method ScanOffsets(mem: array<byte>, c: Call, q: GoodQuery, ghost m0: seq<byte>)
    returns (written: nat, total: nat, ghost matches: seq<nat>)
    requires m0 == mem[..] && ScanSeparated(mem.Length, c)
    requires (q.relation.Equal? || q.relation.NotEqual?) && Width(q.scalar) <= c.size
    modifies mem
    ensures matches == ScannedSoFar(q, c, m0, OffsetCount(c.size, Width(q.scalar), q.stride))
    ensures Delivered(mem[..], m0, c.out, c.capacity, matches)
    ensures written == |Take(matches, c.capacity)| && total == |matches|
  {
    hide Selected, Delivered;
    var lastOffset := c.size - Width(q.scalar);
    var offset := 0;
    ghost var k: nat := 0;
    written, total, matches := 0, 0, [];
    NothingDelivered(m0, c.out, c.capacity);
    while true
      invariant offset == k * q.stride && offset <= lastOffset
      invariant matches == ScannedSoFar(q, c, m0, k)
      invariant Delivered(mem[..], m0, c.out, c.capacity, matches)
      invariant written == |Take(matches, c.capacity)| && total == |matches|
      decreases lastOffset - offset
    {
      written, total, matches := ExamineOffset(mem, c, q, offset, written, total, m0, matches, k);
      if q.stride > lastOffset - offset {
        break;
      }
      NextMultiple(k, q.stride);
      offset := offset + q.stride;
      k := k + 1;
    }
    LastMultiple(c.size, Width(q.scalar), q.stride, k);
  }

  method LoadCandidate(mem: array<byte>, candidates: nat, count: nat, index: nat) returns (offset: nat)
    requires candidates + 4 * count <= mem.Length && index < count
    ensures offset == Words(mem[..], candidates, count)[index]
  {
    offset := ReadLittleEndian(mem, candidates + 4 * index, 4);
  }

  /** Models `vc_validate_candidates`. */
  method ValidateCandidates(mem: array<byte>, candidates: nat, count: nat, size: nat, width: nat)
    returns (status: Status)
    requires IsObject(Region(candidates, 4 * count), mem.Length)
    ensures candidates == NULL && count != 0 ==> status == InvalidArgument
    ensures !(candidates == NULL && count != 0) ==>
              status == if ValidCandidates(Words(mem[..], candidates, count), size, width)
                     then Ok else InvalidCandidates
  {
    if candidates == NULL && count != 0 {
      return InvalidArgument;
    }
    hide ValidCandidates, ValidPrefix, LittleEndian, Words;
    ghost var words := Words(mem[..], candidates, count);
    var before := 0;
    PrefixEnds(words, size, width);
    for index := 0 to count
      invariant index > 0 ==> before == words[index - 1]
      invariant ValidPrefix(words, index, size, width)
    {
      var offset := LoadCandidate(mem, candidates, count, index);
      CandidatesNext(words, index, size, width);
      if index != 0 && before >= offset {
        return InvalidCandidates;
      }
      if offset > size || width > size - offset {
        return InvalidCandidates;
      }
      before := offset;
    }
    return Ok;
  }

  predicate ValidPrefix(words: seq<nat>, n: nat, size: nat, width: nat)
    requires n <= |words|
  {
    ValidCandidates(words[..n], size, width)
  }

  lemma PrefixEnds(words: seq<nat>, size: nat, width: nat)
    ensures ValidPrefix(words, 0, size, width)
    ensures ValidPrefix(words, |words|, size, width) == ValidCandidates(words, size, width)
  {
    assert words[..|words|] == words;
  }

  /** Checking an element against its predecessor and the size decides whether the prefix stays valid. */
  lemma CandidatesNext(words: seq<nat>, index: nat, size: nat, width: nat)
    requires index < |words| && ValidPrefix(words, index, size, width)
    ensures ValidPrefix(words, index + 1, size, width) <==>
            (index > 0 ==> words[index - 1] < words[index]) && words[index] + width <= size
    ensures !ValidPrefix(words, index + 1, size, width) ==> !ValidCandidates(words, size, width)
  {
    var next := words[..index + 1];
    assert forall i :: 0 <= i < index ==> next[i] == words[..index][i];
    assert next[index] == words[index];
    if ValidCandidates(words, size, width) {
      assert forall i :: 0 <= i < |next| ==> next[i] == words[i];
    }
  }

  /** The guards an accepted refinement has passed, beyond those of a scan. */
  lemma AcceptedRefinement(p: Platform, m: seq<byte>, c: RefineCall)
    requires RefineCallable(p, |m|, c) && RefineStatus(p, m, c) == Ok
    ensures c.previous + c.scan.size <= |m| && c.candidates + 4 * c.count <= |m|
    ensures Apart(Output(c.scan), Previous(c))
    ensures c.scan.out == c.candidates || Apart(Output(c.scan), Candidates(c))
    ensures Apart(WrittenCell(p, c.scan), Previous(c)) && Apart(TotalCell(p, c.scan), Previous(c))
    ensures Apart(WrittenCell(p, c.scan), Candidates(c)) && Apart(TotalCell(p, c.scan), Candidates(c))
    ensures AllFit(Words(m, c.candidates, c.count), c.scan.size, Width(QueryAt(m, c.scan.query).value.scalar))
  {
    NotOverlapping(p, Previous(c), Output(c.scan));
    NotOverlapping(p, WrittenCell(p, c.scan), Previous(c));
    NotOverlapping(p, TotalCell(p, c.scan), Previous(c));
    NotOverlapping(p, WrittenCell(p, c.scan), Candidates(c));
    NotOverlapping(p, TotalCell(p, c.scan), Candidates(c));
    if c.scan.out != c.candidates {
      NotOverlapping(p, Candidates(c), Output(c.scan));
    }
  }

  /** In place or not, the next candidate has not been overwritten yet. */
  lemma CandidateKept(m: seq<byte>, m0: seq<byte>, c: RefineCall, matches: seq<nat>, index: nat)
    requires Delivered(m, m0, c.scan.out, c.scan.capacity, matches) && |matches| <= index < c.count
    requires c.candidates + 4 * c.count <= |m0|
    requires c.scan.out == c.candidates || Apart(Output(c.scan), Candidates(c))
    ensures WordAt(m, c.candidates + 4 * index) == Words(m0, c.candidates, c.count)[index]
  {
    var taken := |Take(matches, c.scan.capacity)|;
    assert taken <= index && taken <= c.scan.capacity;
    DeliveredKeeps(m, m0, c.scan.out, c.scan.capacity, matches, c.candidates + 4 * index, 4);
  }

  /** What the loop of a refinement relies on. */
  ghost predicate Separated(n: nat, c: RefineCall) {
    && c.scan.current + c.scan.size <= n && c.previous + c.scan.size <= n && c.candidates + 4 * c.count <= n
    && c.scan.out + 4 * c.scan.capacity <= n
    && Apart(Output(c.scan), Snapshot(c.scan)) && Apart(Output(c.scan), Previous(c))
    && (c.scan.out == c.candidates || Apart(Output(c.scan), Candidates(c)))
  }

  /** Models the two reads and the comparison of one candidate. */
  method CompareCandidate(mem: array<byte>, c: RefineCall, q: GoodQuery, offset: nat,
                          ghost m0: seq<byte>, ghost matches: seq<nat>) returns (hit: bool)
    requires Delivered(mem[..], m0, c.scan.out, c.scan.capacity, matches) && |m0| == mem.Length
    requires Separated(mem.Length, c) && offset + Width(q.scalar) <= c.scan.size
    ensures hit == Selected(q, Get(m0, c.previous, c.scan.size), Get(m0, c.scan.current, c.scan.size), offset)
  {
    hide Related, Delivered;
    var width := Width(q.scalar);
    var previousValue := ReadLittleEndian(mem, c.previous + offset, width);
    var currentValue := ReadLittleEndian(mem, c.scan.current + offset, width);
    ValueKept(mem[..], m0, c.scan.out, c.scan.capacity, matches, Previous(c), offset, width);
    ValueKept(mem[..], m0, c.scan.out, c.scan.capacity, matches, Snapshot(c.scan), offset, width);
    hit := Compare(q, previousValue, currentValue);
  }

  /** The matches among the first `n` candidates present at entry. */
  ghost function SelectedSoFar(q: Query, c: RefineCall, m0: seq<byte>, n: nat): (r: seq<nat>)
    requires Separated(|m0|, c) && n <= c.count
    ensures |r| <= n
  {
    Select(q, Get(m0, c.previous, c.scan.size), Get(m0, c.scan.current, c.scan.size),
           Words(m0, c.candidates, c.count)[..n])
  }

  lemma SelectedNext(q: Query, c: RefineCall, m0: seq<byte>, n: nat)
    requires Separated(|m0|, c) && n < c.count
    ensures var x := Words(m0, c.candidates, c.count)[n];
            SelectedSoFar(q, c, m0, n + 1) == SelectedSoFar(q, c, m0, n) +
              (if Selected(q, Get(m0, c.previous, c.scan.size), Get(m0, c.scan.current, c.scan.size), x)
               then [x] else [])
  {
    var words := Words(m0, c.candidates, c.count);
    SelectNext(q, Get(m0, c.previous, c.scan.size), Get(m0, c.scan.current, c.scan.size), words[..n], words[n]);
    assert words[..n + 1] == words[..n] + [words[n]];
  }

  /** One examined candidate of a refinement. */
  method ExamineCandidate(mem: array<byte>, c: RefineCall, q: GoodQuery, index: nat, written: nat, total: nat,
                          ghost m0: seq<byte>, ghost matches: seq<nat>)
    returns (nextWritten: nat, nextTotal: nat, ghost nextMatches: seq<nat>)
    requires Delivered(mem[..], m0, c.scan.out, c.scan.capacity, matches) && |m0| == mem.Length
    requires written == |Take(matches, c.scan.capacity)| && total == |matches| <= index < c.count
    requires Separated(mem.Length, c) && AllFit(Words(m0, c.candidates, c.count), c.scan.size, Width(q.scalar))
    requires matches == SelectedSoFar(q, c, m0, index)
    modifies mem
    ensures nextMatches == SelectedSoFar(q, c, m0, index + 1)
    ensures Delivered(mem[..], m0, c.scan.out, c.scan.capacity, nextMatches)
    ensures nextWritten == |Take(nextMatches, c.scan.capacity)| && nextTotal == |nextMatches|
  {
    hide Selected;
    CandidateKept(mem[..], m0, c, matches, index);
    var offset := ReadLittleEndian(mem, c.candidates + 4 * index, 4);
    var hit := CompareCandidate(mem, c, q, offset, m0, matches);
    SelectedNext(q, c, m0, index);
    nextWritten, nextTotal, nextMatches := written, total, matches;
    if hit {
      nextMatches := matches + [offset];
      nextWritten := Record(mem, c.scan.out, c.scan.capacity, written, offset, m0, matches);
      nextTotal := total + 1;
    }
  }

  predicate AllFit(offsets: seq<nat>, size: nat, width: nat) {
    forall k :: 0 <= k < |offsets| ==> offsets[k] + width <= size
  }

  lemma SelectedAll(q: Query, c: RefineCall, m0: seq<byte>)
    requires Separated(|m0|, c)
    ensures SelectedSoFar(q, c, m0, 0) == []
    ensures SelectedSoFar(q, c, m0, c.count) ==
            Select(q, Get(m0, c.previous, c.scan.size), Get(m0, c.scan.current, c.scan.size),
                   Words(m0, c.candidates, c.count))
  {
    var words := Words(m0, c.candidates, c.count);
    assert words[..c.count] == words && words[..0] == [];
  }

  /** Models the loop of `vc_search_refine`. */
  method RefineCandidates(mem: array<byte>, c: RefineCall, q: GoodQuery, ghost m0: seq<byte>)
    returns (written: nat, total: nat, ghost matches: seq<nat>)
    requires m0 == mem[..] && Separated(mem.Length, c)
    requires AllFit(Words(m0, c.candidates, c.count), c.scan.size, Width(q.scalar))
    modifies mem
    ensures matches == SelectedSoFar(q, c, m0, c.count)
    ensures Delivered(mem[..], m0, c.scan.out, c.scan.capacity, matches)
    ensures written == |Take(matches, c.scan.capacity)| && total == |matches|
  {
    hide Selected, Delivered;
    SelectedAll(q, c, m0);
    written, total, matches := 0, 0, [];
    NothingDelivered(m0, c.scan.out, c.scan.capacity);
    for index := 0 to c.count
      invariant matches == SelectedSoFar(q, c, m0, index)
      invariant Delivered(mem[..], m0, c.scan.out, c.scan.capacity, matches)
      invariant written == |Take(matches, c.scan.capacity)| && total == |matches|
    {
      written, total, matches := ExamineCandidate(mem, c, q, index, written, total, m0, matches);
    }
  }

  lemma NothingDelivered(m0: seq<byte>, out: nat, capacity: nat)
    requires out + 4 * capacity <= |m0|
    ensures Take([], capacity) == [] && Delivered(m0, m0, out, capacity, [])
  {
    assert Put(m0, out, []) == m0;
  }

  /** Models the part of `vc_search_refine` after all checks have passed. */
  method RefineAccepted(p: Platform, mem: array<byte>, c: RefineCall, q: GoodQuery) returns (status: Status)
    requires RefineCallable(p, mem.Length, c) && RefineStatus(p, mem[..], c) == Ok
    requires QueryAt(mem[..], c.scan.query) == Some(q)
    modifies mem
    ensures var found := RefineFound(p, old(mem[..]), c);
            && c.scan.out + 4 * |found.written| <= mem.Length
            && c.scan.written + SizeBytes(p) <= mem.Length && c.scan.total + SizeBytes(p) <= mem.Length
            && status == FoundStatus(found) && mem[..] == Commit(p, old(mem[..]), c.scan, found)
  {
    hide Select, Commit, Delivered, RefineStatus, CommonStatus, QueryAt;
    ghost var m0 := mem[..];
    RefineStatusImplies(p, m0, c);
    AcceptedScan(p, m0, c.scan);
    AcceptedRefinement(p, m0, c);
    var written, total, matches := RefineCandidates(mem, c, q, m0);
    SelectedAll(q, c, m0);
    status := Finish(p, mem, c.scan, written, total, m0, matches);
  }

  lemma RefineStatusImplies(p: Platform, m: seq<byte>, c: RefineCall)
    requires RefineCallable(p, |m|, c) && RefineStatus(p, m, c) == Ok
    ensures CommonStatus(p, m, c.scan) == Ok
  {
  }

  /** Models `vc_search_refine`. */
  method SearchRefine(p: Platform, mem: array<byte>, c: RefineCall) returns (status: Status)
    requires RefineCallable(p, mem.Length, c)
    modifies mem
    ensures RefineStatus(p, old(mem[..]), c) != Ok ==>
              status == RefineStatus(p, old(mem[..]), c) && mem[..] == old(mem[..])
    ensures RefineStatus(p, old(mem[..]), c) == Ok ==>
              var found := RefineFound(p, old(mem[..]), c);
              && c.scan.out + 4 * |found.written| <= mem.Length
              && c.scan.written + SizeBytes(p) <= mem.Length && c.scan.total + SizeBytes(p) <= mem.Length
              && status == FoundStatus(found) && mem[..] == Commit(p, old(mem[..]), c.scan, found)
  {
    hide Select, Commit, Delivered, Tangled, RefineTangled, NullArguments, ValidCandidates, RangesOverlap;
    var q: GoodQuery;
    status, q := ValidateCommon(p, mem, c.scan);
    if status != Ok {
      return;
    }
    if c.previous == NULL && c.scan.size != 0 {
      return InvalidArgument;
    }
    status := ValidateCandidates(mem, c.candidates, c.count, c.scan.size, Width(q.scalar));
    if status != Ok {
      return;
    }
    MultiplyExact(p, c.count, 4);
    var candidateBytes := MultiplySize(p, c.count, 4);
    if candidateBytes.None? {
      return InvalidArgument;
    }
    if RefineTangled(p, c) {
      return InvalidArgument;
    }
    status := RefineAccepted(p, mem, c, q);
  }
}
