/**
  The guards at the entry of `vc_psv_parse`, on addresses: what they accept is exactly what lets the
  rest of the function treat its source, its three buffers and its report as separate objects.
 */
module PsvGuards {
  import opened Bits
  import opened Common
  import opened FlatMemory
  import opened PsvMachine

  /** An output buffer: its address, how many elements it has room for, and the size of one. */
  datatype Buffer = Buffer(start: nat, capacity: nat, width: nat)

  datatype Arguments = Arguments(source: Region, lines: Buffer, cheats: Buffer, operations: Buffer, report: Region)

  function Bytes(b: Buffer): Region { Region(b.start, b.capacity * b.width) }

  /** The arguments are `size_t` values, and the elements and the report have sizes. */
  predicate Passable(p: Platform, a: Arguments) {
    && a.source.size <= SizeMax(p) && 0 < a.report.size <= SizeMax(p)
    && a.lines.capacity <= SizeMax(p) && a.cheats.capacity <= SizeMax(p) && a.operations.capacity <= SizeMax(p)
    && 0 < a.lines.width && 0 < a.cheats.width && 0 < a.operations.width
  }

  predicate Given(b: Buffer) { b.start == NULL ==> b.capacity == 0 }

  /** Only empty objects may be null, and the report may not be. */
  predicate PointersGiven(a: Arguments) {
    && a.report.start != NULL && (a.source.start == NULL ==> a.source.size == 0)
    && Given(a.lines) && Given(a.cheats) && Given(a.operations)
  }

  /** Every buffer's size in bytes is a `size_t` value. */
  predicate Sized(p: Platform, a: Arguments) {
    Bytes(a.lines).size <= SizeMax(p) && Bytes(a.cheats).size <= SizeMax(p) && Bytes(a.operations).size <= SizeMax(p)
  }

  function Objects(a: Arguments): seq<Region> {
    [a.source, Bytes(a.lines), Bytes(a.cheats), Bytes(a.operations), a.report]
  }

  ghost predicate PairwiseSeparate(p: Platform, objects: seq<Region>) {
    forall i, j :: 0 <= i < j < |objects| ==> Separate(p, objects[i], objects[j])
  }

  /** `!ranges_overlap` for every pair, in the source's order. */
  predicate NoOverlap(p: Platform, source: Region, lines: Region, cheats: Region, operations: Region, report: Region)
    requires source.size <= SizeMax(p) && lines.size <= SizeMax(p) && cheats.size <= SizeMax(p)
    requires operations.size <= SizeMax(p) && report.size <= SizeMax(p)
  {
    && !RangesOverlap(p, source, lines) && !RangesOverlap(p, source, cheats)
    && !RangesOverlap(p, source, operations) && !RangesOverlap(p, source, report)
    && !RangesOverlap(p, lines, cheats) && !RangesOverlap(p, lines, operations) && !RangesOverlap(p, lines, report)
    && !RangesOverlap(p, cheats, operations) && !RangesOverlap(p, cheats, report)
    && !RangesOverlap(p, operations, report)
  }

  lemma NullIsEmpty(a: Arguments, i: nat)
    requires PointersGiven(a) && i < 5
    ensures Objects(a)[i].start == NULL ==> Objects(a)[i].size == 0
  {
  }

  lemma NoOverlapExact(p: Platform, a: Arguments)
    requires Passable(p, a) && PointersGiven(a) && Sized(p, a)
    ensures NoOverlap(p, a.source, Bytes(a.lines), Bytes(a.cheats), Bytes(a.operations), a.report) <==>
            PairwiseSeparate(p, Objects(a))
  {
    hide Separate, RangesOverlap, Bytes;
    var objects := Objects(a);
    assert objects[0] == a.source && objects[4] == a.report;
    assert objects[1] == Bytes(a.lines) && objects[2] == Bytes(a.cheats) && objects[3] == Bytes(a.operations);
    forall i, j | 0 <= i < j < 5
      ensures RangesOverlap(p, objects[i], objects[j]) <==> !Separate(p, objects[i], objects[j])
    {
      NullIsEmpty(a, i);
      NullIsEmpty(a, j);
      TestIsExact(p, objects[i], objects[j]);
    }
  }

  /** Models the guards of `vc_psv_parse`: `None` lets the parse begin. */
  method Guard(p: Platform, a: Arguments) returns (refusal: Option<Status>)
    requires Passable(p, a)
    ensures refusal == None <==>
              PointersGiven(a) && a.source.size <= 1024 * 1024 && Sized(p, a) && PairwiseSeparate(p, Objects(a))
    ensures refusal == Some(SourceTooLarge) <==> PointersGiven(a) && a.source.size > 1024 * 1024
    ensures refusal != None && refusal != Some(SourceTooLarge) ==> refusal == Some(InvalidArgument)
  {
    if a.report.start == NULL || (a.source.start == NULL && a.source.size != 0) ||
       (a.lines.start == NULL && a.lines.capacity != 0) ||
       (a.cheats.start == NULL && a.cheats.capacity != 0) ||
       (a.operations.start == NULL && a.operations.capacity != 0)
    {
      return Some(InvalidArgument);
    }
    if a.source.size > MAX_SOURCE_BYTES {
      return Some(SourceTooLarge);
    }
    hide Bytes, PairwiseSeparate;
    MultiplyExact(p, a.lines.capacity, a.lines.width);
    MultiplyExact(p, a.cheats.capacity, a.cheats.width);
    MultiplyExact(p, a.operations.capacity, a.operations.width);
    var lineBytes := MultiplySize(p, a.lines.capacity, a.lines.width);
    var cheatBytes := MultiplySize(p, a.cheats.capacity, a.cheats.width);
    var operationBytes := MultiplySize(p, a.operations.capacity, a.operations.width);
    if lineBytes.None? || cheatBytes.None? || operationBytes.None? {
      return Some(InvalidArgument);
    }
    NoOverlapExact(p, a);
    if !NoOverlap(p, a.source, Region(a.lines.start, lineBytes.value), Region(a.cheats.start, cheatBytes.value),
                  Region(a.operations.start, operationBytes.value), a.report)
    {
      return Some(InvalidArgument);
    }
    return None;
  }

  // ----- what acceptance is for: the objects behave as separate arrays ----------------------

  /** All objects lie in a memory of `n` bytes. */
  predicate InMemory(a: Arguments, n: nat) {
    forall i :: 0 <= i < 5 ==> Objects(a)[i].start + Objects(a)[i].size <= n
  }

  /** A store into the object with the given number. */
  datatype Store = Store(target: nat, offset: nat, bytes: seq<byte>)

  predicate Inside(a: Arguments, s: Store) {
    s.target < 5 && s.offset + |s.bytes| <= Objects(a)[s.target].size
  }

  predicate AllInside(a: Arguments, stores: seq<Store>) {
    forall i :: 0 <= i < |stores| ==> Inside(a, stores[i])
  }

  /** The memory after a sequence of stores. */
  function Flat(m: seq<byte>, a: Arguments, stores: seq<Store>): (r: seq<byte>)
    requires InMemory(a, |m|) && AllInside(a, stores)
    ensures |r| == |m|
  {
    if stores == [] then m
    else
      var last := stores[|stores| - 1];
      Put(Flat(m, a, stores[..|stores| - 1]), Objects(a)[last.target].start + last.offset, last.bytes)
  }

  /** Object `i` as an array of its own, after the stores into it alone. */
  function Alone(t: seq<byte>, a: Arguments, stores: seq<Store>, i: nat): (r: seq<byte>)
    requires i < 5 && |t| == Objects(a)[i].size && AllInside(a, stores)
    ensures |r| == |t|
  {
    if stores == [] then t
    else
      var last := stores[|stores| - 1];
      var before := Alone(t, a, stores[..|stores| - 1], i);
      if last.target == i then Put(before, last.offset, last.bytes) else before
  }

  function ContentsOf(m: seq<byte>, r: Region): (t: seq<byte>)
    requires r.start + r.size <= |m|
    ensures |t| == r.size
  {
    Get(m, r.start, r.size)
  }

  lemma StoreInside(m: seq<byte>, r: Region, offset: nat, bytes: seq<byte>)
    requires r.start + r.size <= |m| && offset + |bytes| <= r.size
    ensures ContentsOf(Put(m, r.start + offset, bytes), r) == Put(ContentsOf(m, r), offset, bytes)
  {
    var after, own := ContentsOf(Put(m, r.start + offset, bytes), r), Put(ContentsOf(m, r), offset, bytes);
    forall x | 0 <= x < r.size ensures after[x] == own[x] {
      assert ContentsOf(m, r)[x] == m[r.start + x];
    }
  }

  lemma StoreElsewhere(m: seq<byte>, r: Region, s: Region, offset: nat, bytes: seq<byte>)
    requires r.start + r.size <= |m| && s.start + s.size <= |m| && offset + |bytes| <= s.size && Disjoint(r, s)
    ensures ContentsOf(Put(m, s.start + offset, bytes), r) == ContentsOf(m, r)
  {
    var after, before := ContentsOf(Put(m, s.start + offset, bytes), r), ContentsOf(m, r);
    forall x | 0 <= x < r.size ensures after[x] == before[x] {
      assert Contains(r, r.start + x);
      PutByte(m, s.start + offset, bytes, r.start + x);
    }
  }

  /**
    After an accepted call has made any stores into its objects, each object holds what an array of its
    own would hold after the stores into it: loads and stores in memory are loads and stores in five
    separate arrays, and the source, into which nothing is stored, never changes.
   */
  lemma {:induction false} ObjectsAreArrays(p: Platform, m: seq<byte>, a: Arguments, stores: seq<Store>, i: nat)
    requires InMemory(a, |m|) && PairwiseSeparate(p, Objects(a)) && AllInside(a, stores) && i < 5
    ensures ContentsOf(Flat(m, a, stores), Objects(a)[i]) == Alone(ContentsOf(m, Objects(a)[i]), a, stores, i)
    ensures (forall k :: 0 <= k < |stores| ==> stores[k].target != i) ==>
              ContentsOf(Flat(m, a, stores), Objects(a)[i]) == ContentsOf(m, Objects(a)[i])
    decreases |stores|
  {
    if stores != [] {
      var init, last := stores[..|stores| - 1], stores[|stores| - 1];
      var r, s := Objects(a)[i], Objects(a)[last.target];
      assert Inside(a, last);
      assert forall k :: 0 <= k < |init| ==> init[k] == stores[k];
      ObjectsAreArrays(p, m, a, init, i);
      if last.target == i {
        StoreInside(Flat(m, a, init), r, last.offset, last.bytes);
      } else {
        assert Separate(p, Objects(a)[if i < last.target then i else last.target],
                        Objects(a)[if i < last.target then last.target else i]);
        StoreElsewhere(Flat(m, a, init), r, s, last.offset, last.bytes);
      }
    }
  }

  /** The bytes of an array of elements, for any layout of one element. */
  function Layout<T(!new)>(elements: seq<T>, width: nat, encode: T -> seq<byte>): (t: seq<byte>)
    requires forall x :: |encode(x)| == width
    ensures |t| == |elements| * width
  {
    if elements == [] then []
    else Layout(elements[..|elements| - 1], width, encode) + encode(elements[|elements| - 1])
  }

  lemma SlotInside(k: nat, n: nat, width: nat)
    requires k < n
    ensures k * width + width <= n * width
  {
    assert (k + 1) * width <= n * width;
  }

  /** Writing one slot of such an array in memory is writing that element. */
  lemma {:induction false} WriteElement<T(!new)>(elements: seq<T>, width: nat, encode: T -> seq<byte>, k: nat, x: T)
    requires (forall y :: |encode(y)| == width) && k < |elements|
    ensures k * width + width <= |elements| * width
    ensures Put(Layout(elements, width, encode), k * width, encode(x)) == Layout(elements[k := x], width, encode)
    decreases |elements|
  {
    var n := |elements| - 1;
    SlotInside(k, |elements|, width);
    var before, last := Layout(elements[..n], width, encode), encode(elements[n]);
    if k == n {
      assert elements[k := x][..n] == elements[..n];
    } else {
      SlotInside(k, n, width);
      WriteElement(elements[..n], width, encode, k, x);
      assert elements[k := x][..n] == elements[..n][k := x];
      PutLeft(before, last, k * width, encode(x));
    }
  }

  lemma PutLeft(s: seq<byte>, rest: seq<byte>, a: nat, t: seq<byte>)
    requires a + |t| <= |s|
    ensures Put(s + rest, a, t) == Put(s, a, t) + rest
  {
  }
}
