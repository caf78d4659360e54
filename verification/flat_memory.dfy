/**
  A flat byte memory with integer addresses, and the guards with which the source justifies treating
  its buffers as separate: the checked multiplication and the range-overlap test.
 */
module FlatMemory {
  import opened Bits
  import opened Common
  import opened SearchValues

  /** The two supported data models: 32-bit Vita and 64-bit host, both little-endian. */
  datatype Platform = Vita32 | Host64

  function SizeMax(p: Platform): nat {
    if p.Vita32? then 0xffff_ffff else 0xffff_ffff_ffff_ffff
  }

  /** sizeof(size_t) */
  function SizeBytes(p: Platform): nat { if p.Vita32? then 4 else 8 }

  const NULL: nat := 0

  /** `vc_multiply_size`: the machine product, unless the check refuses it. */
  function MultiplySize(p: Platform, left: nat, right: nat): Option<nat> {
    if left != 0 && right > SizeMax(p) / left then None
    else Some(left * right % (SizeMax(p) + 1))
  }

  /** The multiplication is accepted exactly when the product fits, and is then exact. */
  lemma MultiplyExact(p: Platform, left: nat, right: nat)
    ensures MultiplySize(p, left, right) ==
            if left * right <= SizeMax(p) then Some(left * right) else None
  {
    if left != 0 {
      DivBound(right, left, SizeMax(p));
      if left * right <= SizeMax(p) {
        DivModUnique(left * right, SizeMax(p) + 1, 0, left * right);
      }
    }
  }

  // ----- regions ----------------------------------------------------------------------------

  datatype Region = Region(start: nat, size: nat)

  predicate Contains(r: Region, x: nat) { r.start <= x < r.start + r.size }

  ghost predicate Disjoint(a: Region, b: Region) { forall x: nat :: !(Contains(a, x) && Contains(b, x)) }

  /** The region lies in a memory of `n` bytes, or its pointer is null. */
  predicate IsObject(r: Region, n: nat) { r.start == NULL || r.start + r.size <= n }

  /** `vc_ranges_overlap` and `ranges_overlap` */
  predicate RangesOverlap(p: Platform, a: Region, b: Region)
    requires a.size <= SizeMax(p) && b.size <= SizeMax(p)
  {
    if a.size == 0 || b.size == 0 || a.start == NULL || b.start == NULL then false
    else if a.start > SizeMax(p) - a.size || b.start > SizeMax(p) - b.size then true
    else a.start < b.start + b.size && b.start < a.start + a.size
  }

  /** The test is exact, except that it refuses whatever touches the end of the address space. */
  lemma OverlapExact(p: Platform, a: Region, b: Region)
    requires a.size <= SizeMax(p) && b.size <= SizeMax(p) && a.start != NULL && b.start != NULL
    ensures var atTop := a.size > 0 && b.size > 0 && (a.start + a.size > SizeMax(p) || b.start + b.size > SizeMax(p));
            RangesOverlap(p, a, b) <==> atTop || !Disjoint(a, b)
  {
    if a.size > 0 && b.size > 0 && a.start < b.start + b.size && b.start < a.start + a.size {
      var x := if a.start >= b.start then a.start else b.start;
      assert Contains(a, x) && Contains(b, x);
    }
  }

  /** No byte in common; and, when neither is empty, both end below the top of the address space. */
  ghost predicate Separate(p: Platform, a: Region, b: Region) {
    && Disjoint(a, b)
    && (a.size > 0 && b.size > 0 ==> a.start + a.size <= SizeMax(p) && b.start + b.size <= SizeMax(p))
  }

  /** For objects of which only empty ones are null, the test decides exactly that. */
  lemma TestIsExact(p: Platform, a: Region, b: Region)
    requires a.size <= SizeMax(p) && b.size <= SizeMax(p)
    requires (a.start == NULL ==> a.size == 0) && (b.start == NULL ==> b.size == 0)
    ensures RangesOverlap(p, a, b) <==> !Separate(p, a, b)
  {
    if a.start != NULL && b.start != NULL {
      OverlapExact(p, a, b);
    }
  }

  /** What an accepted guard says about two objects. */
  predicate Apart(a: Region, b: Region) {
    a.size == 0 || b.size == 0 || a.start + a.size <= b.start || b.start + b.size <= a.start
  }

  lemma NotOverlapping(p: Platform, a: Region, b: Region)
    requires a.size <= SizeMax(p) && b.size <= SizeMax(p) && !RangesOverlap(p, a, b)
    requires (a.start == NULL ==> a.size == 0) && (b.start == NULL ==> b.size == 0)
    ensures Apart(a, b) && Disjoint(a, b)
  {
  }

  // ----- reading and writing ----------------------------------------------------------------

  /** The memory after writing `t` at address `a`. */
  function Put(m: seq<byte>, a: nat, t: seq<byte>): (r: seq<byte>)
    requires a + |t| <= |m|
    ensures |r| == |m|
  {
    m[..a] + t + m[a + |t|..]
  }

  function Get(m: seq<byte>, a: nat, n: nat): (t: seq<byte>)
    requires a + n <= |m|
    ensures |t| == n
  {
    m[a..a + n]
  }

  lemma PutOutside(m: seq<byte>, a: nat, t: seq<byte>, b: nat, n: nat)
    requires a + |t| <= |m| && b + n <= |m| && Apart(Region(a, |t|), Region(b, n))
    ensures Get(Put(m, a, t), b, n) == Get(m, b, n)
  {
  }

  lemma PutInside(m: seq<byte>, a: nat, t: seq<byte>)
    requires a + |t| <= |m|
    ensures Get(Put(m, a, t), a, |t|) == t
  {
  }

  lemma PutSlice(m: seq<byte>, a: nat, t: seq<byte>, i: nat, n: nat)
    requires a + |t| <= |m| && i + n <= |t|
    ensures Get(Put(m, a, t), a + i, n) == t[i..i + n]
  {
  }

  lemma PutByte(m: seq<byte>, a: nat, t: seq<byte>, x: nat)
    requires a + |t| <= |m| && x < |m| && !Contains(Region(a, |t|), x)
    ensures Put(m, a, t)[x] == m[x]
  {
  }

  lemma PutPut(m: seq<byte>, a: nat, t: seq<byte>, u: seq<byte>)
    requires a + |t| + |u| <= |m|
    ensures Put(Put(m, a, t), a + |t|, u) == Put(m, a, t + u)
  {
  }

  lemma PutNothing(m: seq<byte>, a: nat)
    requires a <= |m|
    ensures Put(m, a, []) == m
  {
  }

  /** An array of 32-bit words as it lies in memory. */
  function EncodeWords(ws: seq<nat>): (t: seq<byte>)
    ensures |t| == 4 * |ws|
  {
    if ws == [] then [] else EncodeWords(ws[..|ws| - 1]) + Encode(ws[|ws| - 1], 4)
  }

  function WordAt(m: seq<byte>, a: nat): nat
    requires a + 4 <= |m|
  {
    LittleEndian(Get(m, a, 4))
  }

  function Words(m: seq<byte>, a: nat, n: nat): (ws: seq<nat>)
    requires a + 4 * n <= |m|
    ensures |ws| == n && forall k :: 0 <= k < n ==> ws[k] == WordAt(m, a + 4 * k)
  {
    seq(n, k requires 0 <= k < n => WordAt(m, a + 4 * k))
  }

  lemma {:induction false} EncodedWord(ws: seq<nat>, k: nat)
    requires k < |ws|
    ensures EncodeWords(ws)[4 * k..4 * k + 4] == Encode(ws[k], 4)
    decreases |ws|
  {
    if k < |ws| - 1 {
      EncodedWord(ws[..|ws| - 1], k);
      assert EncodeWords(ws)[4 * k..4 * k + 4] == EncodeWords(ws[..|ws| - 1])[4 * k..4 * k + 4];
    }
  }

  lemma SliceDecodes(m: seq<byte>, a: nat, t: seq<byte>, i: nat, v: nat)
    requires a + |t| <= |m| && i + 4 <= |t| && t[i..i + 4] == Encode(v, 4) && v < Pow2(32)
    ensures WordAt(Put(m, a, t), a + i) == v
  {
    PutSlice(m, a, t, i, 4);
    EncodeDecode(v, 4);
  }

  /** A byte string that holds the given words. */
  ghost predicate Holds(t: seq<byte>, ws: seq<nat>) {
    |t| == 4 * |ws| && forall k :: 0 <= k < |ws| ==> t[4 * k..4 * k + 4] == Encode(ws[k], 4)
  }

  lemma EncodedWords(ws: seq<nat>)
    ensures Holds(EncodeWords(ws), ws)
  {
    forall k | 0 <= k < |ws| ensures EncodeWords(ws)[4 * k..4 * k + 4] == Encode(ws[k], 4) {
      EncodedWord(ws, k);
    }
  }

  /** Words written are read back. */
  lemma WordsWritten(m: seq<byte>, a: nat, t: seq<byte>, ws: seq<nat>)
    requires Holds(t, ws) && a + |t| <= |m| && forall k :: 0 <= k < |ws| ==> ws[k] < Pow2(32)
    ensures Words(Put(m, a, t), a, |ws|) == ws
  {
    forall k | 0 <= k < |ws| ensures WordAt(Put(m, a, t), a + 4 * k) == ws[k] {
      SliceDecodes(m, a, t, 4 * k, ws[k]);
    }
  }

  lemma WordsAppend(ws: seq<nat>, w: nat)
    ensures EncodeWords(ws + [w]) == EncodeWords(ws) + Encode(w, 4)
  {
    assert (ws + [w])[..|ws|] == ws;
  }

  lemma AppendBytes(m: seq<byte>, a: nat, t: seq<byte>, e: seq<byte>, all: seq<byte>)
    requires a + |t| + |e| <= |m| && all == t + e
    ensures Put(m, a, all) == Put(Put(m, a, t), a + |t|, e)
  {
    PutPut(m, a, t, e);
  }

  /** Storing one more word behind an array of words extends the array. */
  lemma AppendWord(m: seq<byte>, a: nat, ws: seq<nat>, w: nat)
    requires a + 4 * |ws| + 4 <= |m|
    ensures Put(m, a, EncodeWords(ws + [w])) == Put(Put(m, a, EncodeWords(ws)), a + 4 * |ws|, Encode(w, 4))
  {
    hide EncodeWords, Put;
    WordsAppend(ws, w);
    AppendBytes(m, a, EncodeWords(ws), Encode(w, 4), EncodeWords(ws + [w]));
  }

  /** Models `vc_read_little_endian` at an address. */
  method ReadLittleEndian(mem: array<byte>, a: nat, width: nat) returns (value: nat)
    requires a + width <= mem.Length && width <= 4
    ensures value == LittleEndian(Get(mem[..], a, width))
  {
    value := 0;
    ghost var field := Get(mem[..], a, width);
    for index := 0 to width
      invariant value == LittleEndian(field[..index])
    {
      assert field[index] == mem[a + index];
      ShiftOrByte(field[..index], mem[a + index]);
      assert field[..index + 1] == field[..index] + [mem[a + index]];
      value := Or(value, ShiftLeft(32, mem[a + index], 8 * index));
    }
    assert field[..width] == field;
  }

  /** A store of an `n`-byte unsigned number. */
  method Store(mem: array<byte>, a: nat, v: nat, n: nat)
    requires a + n <= mem.Length
    modifies mem
    ensures mem[..] == Put(old(mem[..]), a, Encode(v, n))
  {
    hide Put;
    ghost var m := mem[..];
    ghost var t: seq<byte> := [];
    var rest := v;
    PutNothing(m, a);
    for i := 0 to n
      invariant |t| == i && t + Encode(rest, n - i) == Encode(v, n)
      invariant mem[..] == Put(m, a, t)
    {
      var b: byte := rest % 256;
      StoreByte(mem, a + i, b);
      PutPut(m, a, t, [b]);
      assert t + Encode(rest, n - i) == (t + [b]) + Encode(rest / 256, n - i - 1);
      t := t + [b];
      rest := rest / 256;
    }
    assert t + Encode(rest, 0) == t;
  }

  method StoreByte(mem: array<byte>, a: nat, b: byte)
    requires a < mem.Length
    modifies mem
    ensures mem[..] == Put(old(mem[..]), a, [b])
  {
    mem[a] := b;
  }
}
