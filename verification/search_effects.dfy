/**
  What an accepted search call does to memory, read declaratively, and how in-place refinement and
  chains of calls follow from it.
 */
module SearchEffects {
  import opened Bits
  import opened Common
  import opened SearchValues
  import opened SearchSpec
  import opened FlatMemory
  import opened SearchEngine

  /** The size_t stored in a result cell. */
  function SizeAt(p: Platform, m: seq<byte>, a: nat): nat
    requires a + SizeBytes(p) <= |m|
  {
    LittleEndian(Get(m, a, SizeBytes(p)))
  }

  /** The output slots actually written. */
  function WrittenWords(c: Call, found: Found): Region { Region(c.out, 4 * |found.written|) }

  /** Results that fit their cells: 32-bit offsets and `size_t` counts. */
  predicate FitsCells(p: Platform, found: Found) {
    && (forall k :: 0 <= k < |found.written| ==> found.written[k] < Pow2(32))
    && |found.written| <= found.total <= SizeMax(p)
  }

  /** A scan's result lies apart from its two count cells, and those apart from each other. */
  predicate CellsApart(p: Platform, c: Call, n: nat) {
    && c.out + 4 * c.capacity <= n && c.written + SizeBytes(p) <= n && c.total + SizeBytes(p) <= n
    && Apart(Output(c), WrittenCell(p, c)) && Apart(Output(c), TotalCell(p, c))
    && Apart(WrittenCell(p, c), TotalCell(p, c))
  }

  predicate Untouched(p: Platform, c: Call, found: Found, x: nat) {
    !Contains(WrittenWords(c, found), x) && !Contains(WrittenCell(p, c), x) && !Contains(TotalCell(p, c), x)
  }

  /** The declarative reading of a search's effect: results where they belong, every other byte unchanged. */
  ghost predicate HasEffect(p: Platform, before: seq<byte>, after: seq<byte>, c: Call, found: Found) {
    && |after| == |before| && CellsApart(p, c, |before|) && |found.written| <= c.capacity
    && Words(after, c.out, |found.written|) == found.written
    && SizeAt(p, after, c.written) == |found.written|
    && SizeAt(p, after, c.total) == found.total
    && (forall x | 0 <= x < |before| :: Untouched(p, c, found, x) ==> after[x] == before[x])
  }

  lemma SizePower(p: Platform)
    ensures SizeMax(p) < Pow2(8 * SizeBytes(p))
  {
    assert Pow2(1) == 2;
    hide Pow2;
    assert Pow2(2) == 4 by { PowSum(1, 1); }
    assert Pow2(4) == 0x10 by { PowSum(2, 2); }
    assert Pow2(8) == 0x100 by { PowSum(4, 4); }
    assert Pow2(16) == 0x1_0000 by { PowSum(8, 8); }
    assert Pow2(32) == 0x1_0000_0000 by { PowSum(16, 16); }
    assert Pow2(64) == 0x1_0000_0000 * 0x1_0000_0000 by { PowSum(32, 32); }
  }

  lemma StoredSize(p: Platform, m: seq<byte>, a: nat, v: nat)
    requires a + SizeBytes(p) <= |m| && v <= SizeMax(p)
    ensures SizeAt(p, Put(m, a, Encode(v, SizeBytes(p))), a) == v
  {
    SizePower(p);
    PutInside(m, a, Encode(v, SizeBytes(p)));
    EncodeDecode(v, SizeBytes(p));
  }

  lemma WordsOutside(m: seq<byte>, a: nat, t: seq<byte>, b: nat, n: nat)
    requires a + |t| <= |m| && b + 4 * n <= |m| && Apart(Region(a, |t|), Region(b, 4 * n))
    ensures Words(Put(m, a, t), b, n) == Words(m, b, n)
  {
    forall k | 0 <= k < n ensures WordAt(Put(m, a, t), b + 4 * k) == WordAt(m, b + 4 * k) {
      PutOutside(m, a, t, b + 4 * k, 4);
    }
  }

  lemma CommitHasEffect(p: Platform, m: seq<byte>, c: Call, found: Found)
    requires CellsApart(p, c, |m|) && FitsCells(p, found) && |found.written| <= c.capacity
    ensures HasEffect(p, m, Commit(p, m, c, found), c, found)
  {
    var n := |found.written|;
    var m1 := Put(m, c.out, EncodeWords(found.written));
    var w, t := Encode(n, SizeBytes(p)), Encode(found.total, SizeBytes(p));
    var m2 := Put(m1, c.written, w);
    var m3 := Put(m2, c.total, t);
    EncodedWords(found.written);
    WordsWritten(m, c.out, EncodeWords(found.written), found.written);
    WordsOutside(m1, c.written, w, c.out, n);
    WordsOutside(m2, c.total, t, c.out, n);
    StoredSize(p, m1, c.written, n);
    PutOutside(m2, c.total, t, c.written, SizeBytes(p));
    StoredSize(p, m2, c.total, found.total);
    forall x | 0 <= x < |m| && Untouched(p, c, found, x) ensures m3[x] == m[x]
    {
      PutByte(m, c.out, EncodeWords(found.written), x);
      PutByte(m1, c.written, w, x);
      PutByte(m2, c.total, t, x);
    }
  }

  // ----- results fit ------------------------------------------------------------------------

  lemma {:induction false} SelectIsSubset(q: Query, previous: seq<byte>, current: seq<byte>, offsets: seq<nat>)
    ensures forall x :: x in Select(q, previous, current, offsets) ==> x in offsets
    decreases |offsets|
  {
    if offsets != [] {
      SelectIsSubset(q, previous, current, offsets[..|offsets| - 1]);
    }
  }

  lemma DeliverFits(p: Platform, q: Query, previous: seq<byte>, current: seq<byte>, offsets: seq<nat>, capacity: nat)
    requires |offsets| <= SizeMax(p) && forall x :: x in offsets ==> x < Pow2(32)
    ensures var found := Deliver(Select(q, previous, current, offsets), capacity);
            FitsCells(p, found) && |found.written| <= capacity
  {
    SelectIsSubset(q, previous, current, offsets);
    var matches := Select(q, previous, current, offsets);
    var found := Deliver(matches, capacity);
    forall k | 0 <= k < |found.written| ensures found.written[k] < Pow2(32) {
      assert found.written[k] == matches[k];
      assert matches[k] in matches;
    }
  }

  lemma WordsAreSmall(m: seq<byte>, a: nat, n: nat)
    requires a + 4 * n <= |m|
    ensures forall x :: x in Words(m, a, n) ==> x < Pow2(32)
  {
    forall k | 0 <= k < n ensures Words(m, a, n)[k] < Pow2(32) {
      LittleEndianBound(Get(m, a + 4 * k, 4));
    }
  }

  lemma OffsetCountBound(size: nat, width: nat, stride: nat)
    requires stride > 0 && width > 0
    ensures OffsetCount(size, width, stride) <= size
  {
    if size >= width {
      DivBound((size - width) / stride, stride, size - width);
      QuotientBound(size - width, stride);
    }
  }

  lemma QuotientBound(x: nat, d: nat)
    requires d > 0
    ensures x / d <= x
  {
    ProductBound(x + 1, d);
    DivBound(x + 1, d, x);
  }

  lemma ProductBound(n: nat, d: nat)
    requires d > 0
    ensures n <= n * d
  {
  }

  // ----- effects of accepted calls ----------------------------------------------------------

  lemma ScanCellsApart(p: Platform, m: seq<byte>, c: Call)
    requires Callable(p, |m|, c) && CommonStatus(p, m, c) == Ok
    ensures CellsApart(p, c, |m|)
  {
    AcceptedScan(p, m, c);
  }

  /** The query object survives an accepted call. */
  lemma QueryKept(p: Platform, m: seq<byte>, c: Call, found: Found)
    requires Callable(p, |m|, c) && CommonStatus(p, m, c) == Ok
    requires CellsApart(p, c, |m|) && |found.written| <= c.capacity
    ensures c.query + QUERY_BYTES <= |m|
    ensures Get(Commit(p, m, c, found), c.query, QUERY_BYTES) == Get(m, c.query, QUERY_BYTES)
  {
    NotOverlapping(p, Output(c), QueryObject(c));
    NotOverlapping(p, WrittenCell(p, c), QueryObject(c));
    NotOverlapping(p, TotalCell(p, c), QueryObject(c));
    CommitKeeps(p, m, c, found, c.query, QUERY_BYTES);
  }

  /** An accepted initial scan reports exactly what it finds and leaves its snapshot and query alone. */
  lemma InitialEffect(p: Platform, m: seq<byte>, c: Call)
    requires Callable(p, |m|, c) && InitialStatus(p, m, c) == Ok
    ensures var found := InitialFound(p, m, c);
            && |found.written| <= c.capacity && CellsApart(p, c, |m|)
            && var m' := Commit(p, m, c, found);
               && HasEffect(p, m, m', c, found)
               && Get(m', c.query, QUERY_BYTES) == Get(m, c.query, QUERY_BYTES)
               && Get(m', c.current, c.size) == Get(m, c.current, c.size)
  {
    var q := QueryAt(m, c.query).value;
    var w := Width(q.scalar);
    var offsets := Offsets(c.size, w, q.stride);
    var snapshot := Get(m, c.current, c.size);
    AcceptedScan(p, m, c);
    ScanCellsApart(p, m, c);
    OffsetCountBound(c.size, w, q.stride);
    SizePower(Vita32);
    forall x | x in offsets ensures x < Pow2(32) {
      OffsetsExact(c.size, w, q.stride, x);
    }
    DeliverFits(p, q, snapshot, snapshot, offsets, c.capacity);
    CommitHasEffect(p, m, c, InitialFound(p, m, c));
    CommitKeeps(p, m, c, InitialFound(p, m, c), c.current, c.size);
    QueryKept(p, m, c, InitialFound(p, m, c));
  }

  /** A region apart from everything written survives. */
  lemma CommitKeeps(p: Platform, m: seq<byte>, c: Call, found: Found, a: nat, n: nat)
    requires CellsApart(p, c, |m|) && |found.written| <= c.capacity && a + n <= |m|
    requires Apart(Output(c), Region(a, n))
    requires Apart(WrittenCell(p, c), Region(a, n)) && Apart(TotalCell(p, c), Region(a, n))
    ensures Get(Commit(p, m, c, found), a, n) == Get(m, a, n)
  {
    if n != 0 {
      var m1 := Put(m, c.out, EncodeWords(found.written));
      var m2 := Put(m1, c.written, Encode(|found.written|, SizeBytes(p)));
      PutOutside(m, c.out, EncodeWords(found.written), a, n);
      PutOutside(m1, c.written, Encode(|found.written|, SizeBytes(p)), a, n);
      PutOutside(m2, c.total, Encode(found.total, SizeBytes(p)), a, n);
    }
  }

  /**
    An accepted refinement reports exactly what it finds among the candidates present at entry, and
    changes no input: query and snapshots never, candidates only under the exact alias.
   */
  lemma RefineEffect(p: Platform, m: seq<byte>, c: RefineCall)
    requires RefineCallable(p, |m|, c) && RefineStatus(p, m, c) == Ok
    ensures var found := RefineFound(p, m, c);
            && |found.written| <= c.scan.capacity && |found.written| <= c.count && CellsApart(p, c.scan, |m|)
            && var m' := Commit(p, m, c.scan, found);
               && HasEffect(p, m, m', c.scan, found)
               && Get(m', c.scan.query, QUERY_BYTES) == Get(m, c.scan.query, QUERY_BYTES)
               && Get(m', c.scan.current, c.scan.size) == Get(m, c.scan.current, c.scan.size)
               && Get(m', c.previous, c.scan.size) == Get(m, c.previous, c.scan.size)
               && (c.scan.out != c.candidates ==>
                     Words(m', c.candidates, c.count) == Words(m, c.candidates, c.count))
               && (c.scan.out == c.candidates ==>
                     Words(m', c.candidates, c.count) ==
                     found.written + Words(m, c.candidates, c.count)[|found.written|..])
  {
    var q := QueryAt(m, c.scan.query).value;
    var found := RefineFound(p, m, c);
    AcceptedScan(p, m, c.scan);
    AcceptedRefinement(p, m, c);
    ScanCellsApart(p, m, c.scan);
    WordsAreSmall(m, c.candidates, c.count);
    DeliverFits(p, q, Get(m, c.previous, c.scan.size), Get(m, c.scan.current, c.scan.size),
                Words(m, c.candidates, c.count), c.scan.capacity);
    CommitHasEffect(p, m, c.scan, found);
    CommitKeeps(p, m, c.scan, found, c.scan.current, c.scan.size);
    CommitKeeps(p, m, c.scan, found, c.previous, c.scan.size);
    QueryKept(p, m, c.scan, found);
    CandidatesAfter(p, m, c, found);
  }

  /** The candidate array afterwards: untouched, or compacted at its front under the alias. */
  lemma CandidatesAfter(p: Platform, m: seq<byte>, c: RefineCall, found: Found)
    requires CellsApart(p, c.scan, |m|) && |found.written| <= c.scan.capacity && |found.written| <= c.count
    requires c.candidates + 4 * c.count <= |m|
    requires c.scan.out == c.candidates || Apart(Output(c.scan), Candidates(c))
    requires Apart(WrittenCell(p, c.scan), Candidates(c)) && Apart(TotalCell(p, c.scan), Candidates(c))
    requires Words(Commit(p, m, c.scan, found), c.scan.out, |found.written|) == found.written
    ensures var m' := Commit(p, m, c.scan, found);
            Words(m', c.candidates, c.count) ==
            if c.scan.out == c.candidates then found.written + Words(m, c.candidates, c.count)[|found.written|..]
            else Words(m, c.candidates, c.count)
  {
    var m' := Commit(p, m, c.scan, found);
    var before, after := Words(m, c.candidates, c.count), Words(m', c.candidates, c.count);
    if c.scan.out == c.candidates {
      var n := |found.written|;
      TailKept(p, m, c, found, n);
      forall k | 0 <= k < n ensures after[k] == found.written[k] {
        assert Words(m', c.scan.out, n)[k] == found.written[k];
      }
      assert after == found.written + before[n..];
    } else {
      TailKept(p, m, c, found, 0);
    }
  }

  lemma TailKept(p: Platform, m: seq<byte>, c: RefineCall, found: Found, n: nat)
    requires CellsApart(p, c.scan, |m|) && |found.written| <= c.scan.capacity
    requires c.candidates + 4 * c.count <= |m|
    requires Apart(WrittenCell(p, c.scan), Candidates(c)) && Apart(TotalCell(p, c.scan), Candidates(c))
    requires (c.scan.out == c.candidates && n == |found.written|) || Apart(Output(c.scan), Candidates(c))
    ensures var m' := Commit(p, m, c.scan, found);
            forall k :: n <= k < c.count ==> Words(m', c.candidates, c.count)[k] == Words(m, c.candidates, c.count)[k]
  {
    forall k | n <= k < c.count
      ensures Words(Commit(p, m, c.scan, found), c.candidates, c.count)[k] == Words(m, c.candidates, c.count)[k]
    {
      CommitKeepsWord(p, m, c.scan, found, c.candidates + 4 * k);
    }
  }

  lemma CommitKeepsWord(p: Platform, m: seq<byte>, c: Call, found: Found, a: nat)
    requires CellsApart(p, c, |m|) && |found.written| <= c.capacity && a + 4 <= |m|
    requires Apart(WrittenWords(c, found), Region(a, 4))
    requires Apart(WrittenCell(p, c), Region(a, 4)) && Apart(TotalCell(p, c), Region(a, 4))
    ensures WordAt(Commit(p, m, c, found), a) == WordAt(m, a)
  {
    var m1 := Put(m, c.out, EncodeWords(found.written));
    var m2 := Put(m1, c.written, Encode(|found.written|, SizeBytes(p)));
    PutOutside(m, c.out, EncodeWords(found.written), a, 4);
    PutOutside(m1, c.written, Encode(|found.written|, SizeBytes(p)), a, 4);
    PutOutside(m2, c.total, Encode(found.total, SizeBytes(p)), a, 4);
  }

  // ----- in place ---------------------------------------------------------------------------

  /** The same call with another output buffer. */
  function WithOutput(c: RefineCall, out: nat): RefineCall { c.(scan := c.scan.(out := out)) }

  /** Compacting in place delivers what a separate buffer would receive, with any capacity. */
  lemma InPlaceEqualsSeparate(p: Platform, m: seq<byte>, c: RefineCall, out: nat)
    requires c.scan.out == c.candidates
    requires RefineCallable(p, |m|, c) && RefineStatus(p, m, c) == Ok
    requires RefineCallable(p, |m|, WithOutput(c, out)) && RefineStatus(p, m, WithOutput(c, out)) == Ok
    ensures var inPlace, separate := RefineFound(p, m, c), RefineFound(p, m, WithOutput(c, out));
            && |inPlace.written| <= c.scan.capacity && |separate.written| <= c.scan.capacity
            && CellsApart(p, c.scan, |m|) && CellsApart(p, WithOutput(c, out).scan, |m|)
            && FoundStatus(inPlace) == FoundStatus(separate)
            && var m1, m2 := Commit(p, m, c.scan, inPlace), Commit(p, m, WithOutput(c, out).scan, separate);
               && SizeAt(p, m1, c.scan.written) == SizeAt(p, m2, c.scan.written)
               && SizeAt(p, m1, c.scan.total) == SizeAt(p, m2, c.scan.total)
               && Words(m1, c.candidates, |inPlace.written|) == Words(m2, out, |separate.written|)
  {
    RefineEffect(p, m, c);
    RefineEffect(p, m, WithOutput(c, out));
  }

  // ----- chains of calls --------------------------------------------------------------------

  /** A prefix of a selection from valid candidates is valid for every width up to the one checked. */
  lemma DeliveredIsValid(q: Query, previous: seq<byte>, current: seq<byte>, offsets: seq<nat>,
                         capacity: nat, size: nat, w: nat)
    requires ValidCandidates(offsets, size, Width(q.scalar)) && w <= Width(q.scalar)
    ensures ValidCandidates(Deliver(Select(q, previous, current, offsets), capacity).written, size, w)
  {
    SelectExact(q, previous, current, offsets);
    var matches := Select(q, previous, current, offsets);
    PrefixAscending(matches, Min(capacity, |matches|));
    forall k | 0 <= k < Min(capacity, |matches|) ensures matches[k] + w <= size {
      assert matches[k] in matches;
    }
  }

  /** Each accepted refinement of a chain's output is the chain's next round, and truncates it only if it says so. */
  lemma CallsAreRounds(p: Platform, m: seq<byte>, c: RefineCall, start: seq<nat>, rounds: seq<Round>)
    requires RefineCallable(p, |m|, c) && RefineStatus(p, m, c) == Ok
    requires Words(m, c.candidates, c.count) == Chain(start, rounds)
    ensures var q := QueryAt(m, c.scan.query).value;
            var round := Round(q, Get(m, c.previous, c.scan.size), Get(m, c.scan.current, c.scan.size),
                               c.scan.capacity);
            var found := RefineFound(p, m, c);
            && found.written == Chain(start, rounds + [round])
            && (NeverTruncated(start, rounds + [round]) <==>
                  NeverTruncated(start, rounds) && FoundStatus(found) != Truncated)
  {
    hide Select;
    var q := QueryAt(m, c.scan.query).value;
    var round := Round(q, Get(m, c.previous, c.scan.size), Get(m, c.scan.current, c.scan.size), c.scan.capacity);
    assert (rounds + [round])[..|rounds|] == rounds;
  }

  /** An accepted initial scan starts such a chain. */
  lemma InitialCallIsSession(p: Platform, m: seq<byte>, c: Call)
    requires Callable(p, |m|, c) && InitialStatus(p, m, c) == Ok
    ensures var q := QueryAt(m, c.query).value;
            var snapshot := Get(m, c.current, c.size);
            var round := Round(q, snapshot, snapshot, c.capacity);
            var offsets := Offsets(c.size, Width(q.scalar), q.stride);
            var found := InitialFound(p, m, c);
            && found.written == Session(q, snapshot, c.capacity, []) == Chain(offsets, [round])
            && (NeverTruncated(offsets, [round]) <==> FoundStatus(found) != Truncated)
  {
    hide Select;
    var q := QueryAt(m, c.query).value;
    var snapshot := Get(m, c.current, c.size);
    var round := Round(q, snapshot, snapshot, c.capacity);
    assert [round] + [] == [round];
    assert [round][..0] == [];
    assert Chain(Offsets(c.size, Width(q.scalar), q.stride), []) == Offsets(c.size, Width(q.scalar), q.stride);
  }

  /** A list delivered by an accepted refinement is accepted as candidates by any later one of no larger width. */
  lemma RefinedListsAreValid(p: Platform, m: seq<byte>, c: RefineCall, m2: seq<byte>, c2: RefineCall)
    requires RefineCallable(p, |m|, c) && RefineStatus(p, m, c) == Ok
    requires RefineCallable(p, |m2|, c2) && c2.scan.size == c.scan.size
    requires c2.candidates != NULL || c2.count == 0
    requires Words(m2, c2.candidates, c2.count) == RefineFound(p, m, c).written
    requires CommonStatus(p, m2, c2.scan) == Ok
    requires Width(QueryAt(m2, c2.scan.query).value.scalar) <= Width(QueryAt(m, c.scan.query).value.scalar)
    ensures RefineStatus(p, m2, c2) != InvalidCandidates
  {
    var q := QueryAt(m, c.scan.query).value;
    DeliveredIsValid(q, Get(m, c.previous, c.scan.size), Get(m, c.scan.current, c.scan.size),
                     Words(m, c.candidates, c.count), c.scan.capacity, c.scan.size,
                     Width(QueryAt(m2, c2.scan.query).value.scalar));
  }

  lemma InitialListsAreValid(p: Platform, m: seq<byte>, c: Call, m2: seq<byte>, c2: RefineCall)
    requires Callable(p, |m|, c) && InitialStatus(p, m, c) == Ok
    requires RefineCallable(p, |m2|, c2) && c2.scan.size == c.size
    requires c2.candidates != NULL || c2.count == 0
    requires Words(m2, c2.candidates, c2.count) == InitialFound(p, m, c).written
    requires CommonStatus(p, m2, c2.scan) == Ok
    requires Width(QueryAt(m2, c2.scan.query).value.scalar) <= Width(QueryAt(m, c.query).value.scalar)
    ensures RefineStatus(p, m2, c2) != InvalidCandidates
  {
    var q := QueryAt(m, c.query).value;
    var offsets := Offsets(c.size, Width(q.scalar), q.stride);
    OffsetsExact(c.size, Width(q.scalar), q.stride, 0);
    forall k | 0 <= k < |offsets| ensures offsets[k] + Width(q.scalar) <= c.size {
      OffsetsExact(c.size, Width(q.scalar), q.stride, offsets[k]);
    }
    DeliveredIsValid(q, Get(m, c.current, c.size), Get(m, c.current, c.size), offsets, c.capacity, c.size,
                     Width(QueryAt(m2, c2.scan.query).value.scalar));
  }
}
