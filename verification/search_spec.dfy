/**
  Searching as filtering: an initial scan selects from the stride-aligned offsets of a snapshot, a
  refinement selects from a candidate list, and a chain of searches computes a conjunction.
 */
module SearchSpec {
  import opened Bits
  import opened Common
  import opened SearchValues

  datatype Query = Query(scalar: ScalarType, relation: Relation, valueBits: nat, stride: nat)

  /** The value of width `w` at `offset`. */
  function ValueAt(snapshot: seq<byte>, offset: nat, w: nat): nat
    requires offset + w <= |snapshot|
  {
    LittleEndian(snapshot[offset..offset + w])
  }

  /** The offset holds a whole value in both snapshots and satisfies the query. */
  predicate Selected(q: Query, previous: seq<byte>, current: seq<byte>, offset: nat) {
    var w := Width(q.scalar);
    && offset + w <= |previous| && offset + w <= |current|
    && Related(q.scalar, q.relation, ValueAt(previous, offset, w), ValueAt(current, offset, w), q.valueBits)
  }

  function Select(q: Query, previous: seq<byte>, current: seq<byte>, offsets: seq<nat>): (r: seq<nat>)
    ensures |r| <= |offsets|
  {
    if offsets == [] then []
    else
      var last := offsets[|offsets| - 1];
      Select(q, previous, current, offsets[..|offsets| - 1]) +
      (if Selected(q, previous, current, last) then [last] else [])
  }

  predicate Ascending(s: seq<nat>) { forall i, j :: 0 <= i < j < |s| ==> s[i] < s[j] }

  /** How many multiples of the stride leave room for a value. */
  function OffsetCount(size: nat, width: nat, stride: nat): nat
    requires stride > 0
  {
    if size < width then 0 else (size - width) / stride + 1
  }

  function Multiples(n: nat, stride: nat): (s: seq<nat>)
    ensures |s| == n && forall k :: 0 <= k < n ==> s[k] == k * stride
  {
    seq(n, k requires 0 <= k < n => k * stride)
  }

  /** The offsets an initial scan examines. */
  function Offsets(size: nat, width: nat, stride: nat): seq<nat>
    requires stride > 0
  {
    Multiples(OffsetCount(size, width, stride), stride)
  }

  /** What a search delivers into a buffer of the given capacity. */
  datatype Found = Found(written: seq<nat>, total: nat, truncated: bool)

  function Deliver(matches: seq<nat>, capacity: nat): Found {
    Found(matches[..Min(capacity, |matches|)], |matches|, |matches| > capacity)
  }

  // ----- the offsets examined ---------------------------------------------------------------

  lemma StrictlyIncreasing(n: nat, stride: nat)
    requires stride > 0
    ensures Ascending(Multiples(n, stride))
  {
    var s := Multiples(n, stride);
    forall i, j | 0 <= i < j < n ensures s[i] < s[j] {
      assert i * stride < j * stride;
    }
  }

  lemma MultipleFits(size: nat, width: nat, stride: nat, k: nat)
    requires stride > 0 && k < OffsetCount(size, width, stride)
    ensures k * stride % stride == 0 && k * stride + width <= size
  {
    DivBound(k, stride, size - width);
    DivModUnique(k * stride, stride, k, 0);
  }

  lemma FittingMultiple(size: nat, width: nat, stride: nat, offset: nat)
    requires stride > 0 && offset % stride == 0 && offset + width <= size
    ensures offset / stride < OffsetCount(size, width, stride) && offset / stride * stride == offset
  {
    DivBound(offset / stride, stride, size - width);
  }

  /** An initial scan examines exactly the multiples of the stride at which a whole value fits. */
  lemma OffsetsExact(size: nat, width: nat, stride: nat, offset: nat)
    requires stride > 0
    ensures Ascending(Offsets(size, width, stride))
    ensures offset in Offsets(size, width, stride) <==> offset % stride == 0 && offset + width <= size
  {
    var s := Offsets(size, width, stride);
    StrictlyIncreasing(OffsetCount(size, width, stride), stride);
    if offset in s {
      var k :| 0 <= k < |s| && s[k] == offset;
      MultipleFits(size, width, stride, k);
    }
    if offset % stride == 0 && offset + width <= size {
      FittingMultiple(size, width, stride, offset);
      assert s[offset / stride] == offset;
    }
  }

  // ----- selection --------------------------------------------------------------------------

  /** Selection keeps order and keeps exactly the elements that satisfy the query. */
  lemma {:induction false} SelectExact(q: Query, previous: seq<byte>, current: seq<byte>, offsets: seq<nat>)
    requires Ascending(offsets)
    ensures var r := Select(q, previous, current, offsets);
            && Ascending(r)
            && forall x :: x in r <==> x in offsets && Selected(q, previous, current, x)
    decreases |offsets|
  {
    if offsets != [] {
      var init, last := offsets[..|offsets| - 1], offsets[|offsets| - 1];
      SelectExact(q, previous, current, init);
      var r := Select(q, previous, current, init);
      assert forall x :: x in offsets <==> x in init || x == last;
      if Selected(q, previous, current, last) {
        AppendGreatest(r, init, last);
      }
    }
  }

  lemma AppendGreatest(r: seq<nat>, init: seq<nat>, last: nat)
    requires Ascending(r) && (forall x :: x in r ==> x in init) && (forall i :: 0 <= i < |init| ==> init[i] < last)
    ensures Ascending(r + [last]) && forall x :: x in r + [last] <==> x in r || x == last
  {
    assert forall k :: 0 <= k < |r| ==> r[k] in init;
  }

  lemma HasElement(s: seq<nat>)
    ensures s == [] || exists x :: x in s
  {
    if s != [] { assert s[0] in s; }
  }

  /** Two ascending sequences with the same elements are equal. */
  lemma {:induction false} AscendingUnique(a: seq<nat>, b: seq<nat>)
    requires Ascending(a) && Ascending(b) && forall x :: x in a <==> x in b
    ensures a == b
    decreases |a|
  {
    if a == [] {
      HasElement(b);
    } else {
      assert a[|a| - 1] in b;
      assert b[|b| - 1] in a;
      LastIsGreatest(a);
      LastIsGreatest(b);
      var a', b' := a[..|a| - 1], b[..|b| - 1];
      DropLast(a);
      DropLast(b);
      AscendingUnique(a', b');
      assert a == a' + [a[|a| - 1]] && b == b' + [b[|b| - 1]];
    }
  }

  lemma LastIsGreatest(a: seq<nat>)
    requires Ascending(a) && a != []
    ensures forall x :: x in a ==> x <= a[|a| - 1]
  {
  }

  lemma DropLast(a: seq<nat>)
    requires Ascending(a) && a != []
    ensures var a' := a[..|a| - 1];
            Ascending(a') && forall x :: x in a' <==> x in a && x != a[|a| - 1]
  {
  }

  // ----- refinement by trend ----------------------------------------------------------------

  /** Three lists split a fourth, and a fifth merges the first two. */
  ghost predicate Splits(up: seq<nat>, down: seq<nat>, same: seq<nat>, changed: seq<nat>, all: seq<nat>) {
    && |up| + |down| + |same| == |all| && |changed| == |up| + |down|
    && multiset(up) + multiset(down) + multiset(same) == multiset(all)
    && multiset(changed) == multiset(up) + multiset(down)
  }

  function Also(s: seq<nat>, b: bool, x: nat): seq<nat> { if b then s + [x] else s }

  lemma SplitsAppend(up: seq<nat>, down: seq<nat>, same: seq<nat>, changed: seq<nat>, all: seq<nat>,
                     x: nat, u: bool, d: bool)
    requires Splits(up, down, same, changed, all) && !(u && d)
    ensures Splits(Also(up, u, x), Also(down, d, x), Also(same, !u && !d, x), Also(changed, u || d, x), all + [x])
  {
  }

  lemma SelectAppend(q: Query, previous: seq<byte>, current: seq<byte>, offsets: seq<nat>)
    requires offsets != []
    ensures var init, last := offsets[..|offsets| - 1], offsets[|offsets| - 1];
            Select(q, previous, current, offsets) ==
            Also(Select(q, previous, current, init), Selected(q, previous, current, last), last)
  {
  }

  /** INCREASED, DECREASED and UNCHANGED partition the candidates; CHANGED merges the first two. */
  lemma {:induction false} TrendPartition(q: Query, previous: seq<byte>, current: seq<byte>, offsets: seq<nat>)
    requires forall i :: 0 <= i < |offsets| ==>
               offsets[i] + Width(q.scalar) <= |previous| && offsets[i] + Width(q.scalar) <= |current|
    ensures Splits(Select(q.(relation := Increased), previous, current, offsets),
                   Select(q.(relation := Decreased), previous, current, offsets),
                   Select(q.(relation := Unchanged), previous, current, offsets),
                   Select(q.(relation := Changed), previous, current, offsets), offsets)
    decreases |offsets|
  {
    hide Selected;
    if offsets != [] {
      TrendPartition(q, previous, current, offsets[..|offsets| - 1]);
      var u, d := TrendAppend(q, previous, current, offsets);
      var init, last := offsets[..|offsets| - 1], offsets[|offsets| - 1];
      assert offsets == init + [last];
      SplitsAppend(Select(q.(relation := Increased), previous, current, init),
                   Select(q.(relation := Decreased), previous, current, init),
                   Select(q.(relation := Unchanged), previous, current, init),
                   Select(q.(relation := Changed), previous, current, init), init, last, u, d);
    }
  }

  /** The last offset goes to exactly one of the three trends. */
  lemma TrendAppend(q: Query, previous: seq<byte>, current: seq<byte>, offsets: seq<nat>) returns (u: bool, d: bool)
    requires offsets != []
    requires var last := offsets[|offsets| - 1];
             last + Width(q.scalar) <= |previous| && last + Width(q.scalar) <= |current|
    ensures var init, last := offsets[..|offsets| - 1], offsets[|offsets| - 1];
            var qu, qd := q.(relation := Increased), q.(relation := Decreased);
            var qs, qc := q.(relation := Unchanged), q.(relation := Changed);
            && !(u && d)
            && Select(qu, previous, current, offsets) == Also(Select(qu, previous, current, init), u, last)
            && Select(qd, previous, current, offsets) == Also(Select(qd, previous, current, init), d, last)
            && Select(qs, previous, current, offsets) == Also(Select(qs, previous, current, init), !u && !d, last)
            && Select(qc, previous, current, offsets) == Also(Select(qc, previous, current, init), u || d, last)
  {
    var last := offsets[|offsets| - 1];
    TrendOf(q, previous, current, last);
    SelectAppend(q.(relation := Increased), previous, current, offsets);
    SelectAppend(q.(relation := Decreased), previous, current, offsets);
    SelectAppend(q.(relation := Unchanged), previous, current, offsets);
    SelectAppend(q.(relation := Changed), previous, current, offsets);
    u := Selected(q.(relation := Increased), previous, current, last);
    d := Selected(q.(relation := Decreased), previous, current, last);
  }

  /** Exactly one of the three trends holds at an offset. */
  lemma TrendOf(q: Query, previous: seq<byte>, current: seq<byte>, offset: nat)
    requires offset + Width(q.scalar) <= |previous| && offset + Width(q.scalar) <= |current|
    ensures var up := Selected(q.(relation := Increased), previous, current, offset);
            var down := Selected(q.(relation := Decreased), previous, current, offset);
            var same := Selected(q.(relation := Unchanged), previous, current, offset);
            && (up || down || same) && !(up && down) && !(up && same) && !(down && same)
            && Selected(q.(relation := Changed), previous, current, offset) == (up || down)
  {
  }

  /** On an ascending list the merge of INCREASED and DECREASED is CHANGED itself, element by element. */
  lemma ChangedIsOrderedMerge(q: Query, previous: seq<byte>, current: seq<byte>, offsets: seq<nat>, merge: seq<nat>)
    requires Ascending(offsets) && Ascending(merge)
    requires forall i :: 0 <= i < |offsets| ==>
               offsets[i] + Width(q.scalar) <= |previous| && offsets[i] + Width(q.scalar) <= |current|
    requires forall x :: x in merge <==>
               x in Select(q.(relation := Increased), previous, current, offsets) ||
               x in Select(q.(relation := Decreased), previous, current, offsets)
    ensures merge == Select(q.(relation := Changed), previous, current, offsets)
  {
    SelectExact(q.(relation := Increased), previous, current, offsets);
    SelectExact(q.(relation := Decreased), previous, current, offsets);
    SelectExact(q.(relation := Changed), previous, current, offsets);
    forall x | x in offsets
      ensures Selected(q.(relation := Changed), previous, current, x) <==>
              Selected(q.(relation := Increased), previous, current, x) ||
              Selected(q.(relation := Decreased), previous, current, x)
    {
      TrendOf(q, previous, current, x);
    }
    AscendingUnique(merge, Select(q.(relation := Changed), previous, current, offsets));
  }

  /** At an offset whose bytes are the same in both snapshots nothing has changed, and conversely. */
  lemma UnchangedIsSameBytes(q: Query, previous: seq<byte>, current: seq<byte>, offset: nat)
    requires q.relation.Unchanged? && offset + Width(q.scalar) <= |previous| && offset + Width(q.scalar) <= |current|
    ensures var w := Width(q.scalar);
            Selected(q, previous, current, offset) <==> previous[offset..offset + w] == current[offset..offset + w]
  {
    var w := Width(q.scalar);
    var a, b := previous[offset..offset + w], current[offset..offset + w];
    LittleEndianBound(a);
    LittleEndianBound(b);
    NumericInjective(q.scalar, LittleEndian(a), LittleEndian(b));
    DivModUnique(LittleEndian(a), Pow2(8 * w), 0, LittleEndian(a));
    DivModUnique(LittleEndian(b), Pow2(8 * w), 0, LittleEndian(b));
    if LittleEndian(a) == LittleEndian(b) {
      LittleEndianInjective(a, b);
    }
  }

  // ----- candidate lists --------------------------------------------------------------------

  /** The lists `vc_validate_candidates` accepts. */
  predicate ValidCandidates(candidates: seq<nat>, size: nat, width: nat) {
    Ascending(candidates) && forall i :: 0 <= i < |candidates| ==> candidates[i] + width <= size
  }

  /** For an ascending list only its last element can be out of range. */
  lemma CandidatesByLast(candidates: seq<nat>, size: nat, width: nat)
    requires Ascending(candidates)
    ensures ValidCandidates(candidates, size, width) <==>
            candidates == [] || candidates[|candidates| - 1] + width <= size
  {
    if candidates != [] {
      LastIsGreatest(candidates);
      assert forall i :: 0 <= i < |candidates| ==> candidates[i] in candidates;
    }
  }

  // ----- chains -----------------------------------------------------------------------------

  datatype Round = Round(query: Query, previous: seq<byte>, current: seq<byte>, capacity: nat)

  predicate SelectedIn(r: Round, offset: nat) { Selected(r.query, r.previous, r.current, offset) }

  predicate SatisfiesAll(rounds: seq<Round>, offset: nat) {
    forall i :: 0 <= i < |rounds| ==> SelectedIn(rounds[i], offset)
  }

  lemma SatisfiesLast(rounds: seq<Round>, offset: nat)
    requires rounds != []
    ensures SatisfiesAll(rounds, offset) <==>
            SatisfiesAll(rounds[..|rounds| - 1], offset) && SelectedIn(rounds[|rounds| - 1], offset)
  {
    var init := rounds[..|rounds| - 1];
    assert forall i :: 0 <= i < |init| ==> rounds[i] == init[i];
  }

  /** The list left after the rounds, each one's output being the next one's candidates. */
  function Chain(start: seq<nat>, rounds: seq<Round>): seq<nat> {
    if rounds == [] then start
    else
      var last := rounds[|rounds| - 1];
      Deliver(Select(last.query, last.previous, last.current, Chain(start, rounds[..|rounds| - 1])),
              last.capacity).written
  }

  /** No round had more matches than room. */
  predicate NeverTruncated(start: seq<nat>, rounds: seq<Round>) {
    rounds == [] ||
    (var last := rounds[|rounds| - 1];
     && NeverTruncated(start, rounds[..|rounds| - 1])
     && |Select(last.query, last.previous, last.current, Chain(start, rounds[..|rounds| - 1]))| <= last.capacity)
  }

  lemma PrefixAscending(s: seq<nat>, n: nat)
    requires Ascending(s) && n <= |s|
    ensures Ascending(s[..n]) && forall x :: x in s[..n] ==> x in s
  {
  }

  /** Any chain yields ascending offsets that satisfy every query; an untruncated one misses none. */
  lemma {:induction false} ChainIsConjunction(start: seq<nat>, rounds: seq<Round>)
    requires Ascending(start)
    ensures var r := Chain(start, rounds);
            && Ascending(r)
            && (forall x :: x in r ==> x in start && SatisfiesAll(rounds, x))
            && (NeverTruncated(start, rounds) ==>
                  forall x :: x in start && SatisfiesAll(rounds, x) ==> x in r)
    decreases |rounds|
  {
    if rounds != [] {
      var init, last := rounds[..|rounds| - 1], rounds[|rounds| - 1];
      ChainIsConjunction(start, init);
      var before := Chain(start, init);
      var matches := Select(last.query, last.previous, last.current, before);
      SelectExact(last.query, last.previous, last.current, before);
      PrefixAscending(matches, Min(last.capacity, |matches|));
      forall x ensures SatisfiesAll(rounds, x) <==> SatisfiesAll(init, x) && SelectedIn(last, x) {
        SatisfiesLast(rounds, x);
      }
      assert matches[..|matches|] == matches;
    }
  }

  /** A whole search session: an initial scan followed by refinements. */
  function Session(first: Query, snapshot: seq<byte>, capacity: nat, rounds: seq<Round>): seq<nat>
    requires first.stride > 0
  {
    Chain(Offsets(|snapshot|, Width(first.scalar), first.stride), [Round(first, snapshot, snapshot, capacity)] + rounds)
  }

  /**
    A session's result is ascending and consists of stride-aligned offsets that satisfy all its
    queries; if no search was truncated it consists of all of them. It is a valid candidate list for
    every further refinement of the same size and no larger width.
   */
  lemma SessionIsConjunction(first: Query, snapshot: seq<byte>, capacity: nat, rounds: seq<Round>)
    requires first.stride > 0
    ensures var r := Session(first, snapshot, capacity, rounds);
            var all := [Round(first, snapshot, snapshot, capacity)] + rounds;
            var offsets := Offsets(|snapshot|, Width(first.scalar), first.stride);
            && Ascending(r)
            && (forall x :: x in r ==>
                  x % first.stride == 0 && x + Width(first.scalar) <= |snapshot| && SatisfiesAll(all, x))
            && (NeverTruncated(offsets, all) ==>
                  forall x: nat ::
                    x % first.stride == 0 && x + Width(first.scalar) <= |snapshot| && SatisfiesAll(all, x) ==> x in r)
            && (forall w: nat :: w <= Width(first.scalar) ==> ValidCandidates(r, |snapshot|, w))
  {
    var w := Width(first.scalar);
    var offsets := Offsets(|snapshot|, w, first.stride);
    var all := [Round(first, snapshot, snapshot, capacity)] + rounds;
    OffsetsExact(|snapshot|, w, first.stride, 0);
    ChainIsConjunction(offsets, all);
    forall x: nat ensures x in offsets <==> x % first.stride == 0 && x + w <= |snapshot| {
      OffsetsExact(|snapshot|, w, first.stride, x);
    }
    var r := Session(first, snapshot, capacity, rounds);
    assert forall i :: 0 <= i < |r| ==> r[i] in r;
  }
}
