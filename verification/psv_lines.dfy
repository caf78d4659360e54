/**
  Splitting a source into lines: LF, CR or CRLF terminators and a byte order mark on the first
  line only. `Lines` is the one-pass splitter; the lemmas say that it loses nothing and never cuts
  a terminator in two.
 */
module PsvLines {
  import opened Bits
  import opened PsvText

  /** Positions in the source; the raw span includes the line's terminator, the content excludes it. */
  datatype RawLine = RawLine(rawBegin: nat, rawEnd: nat, contentBegin: nat, contentEnd: nat)

  predicate IsEol(b: byte) { b == CR || b == LF }

  function LineEnd(s: seq<byte>, pos: nat): (e: nat)
    requires pos <= |s|
    ensures pos <= e <= |s|
    decreases |s| - pos
  {
    if pos == |s| || IsEol(s[pos]) then pos else LineEnd(s, pos + 1)
  }

  function AfterTerminator(s: seq<byte>, e: nat): (r: nat)
    requires e <= |s|
    ensures e <= r <= |s|
    ensures e < |s| ==> e < r
  {
    if e == |s| then e
    else if s[e] == CR && e + 1 < |s| && s[e + 1] == LF then e + 2
    else e + 1
  }

  const BOM: seq<byte> := [0xef, 0xbb, 0xbf]

  predicate HasBom(s: seq<byte>, b: nat, e: nat)
    requires b <= e <= |s|
  {
    e - b >= 3 && s[b] == 0xef && s[b + 1] == 0xbb && s[b + 2] == 0xbf
  }

  function LineAt(s: seq<byte>, pos: nat, first: bool): (l: RawLine)
    requires pos < |s|
    ensures pos == l.rawBegin <= l.contentBegin <= l.contentEnd <= l.rawEnd <= |s|
    ensures pos < l.rawEnd
  {
    var e := LineEnd(s, pos);
    RawLine(pos, AfterTerminator(s, e), if first && HasBom(s, pos, e) then pos + 3 else pos, e)
  }

  function Lines(s: seq<byte>, pos: nat, first: bool): seq<RawLine>
    requires pos <= |s|
    decreases |s| - pos
  {
    if pos == |s| then [] else
      var l := LineAt(s, pos, first);
      [l] + Lines(s, l.rawEnd, false)
  }

  // ----- what a line is ---------------------------------------------------------------------

  lemma {:induction false} LineEndIsFirstEol(s: seq<byte>, pos: nat)
    requires pos <= |s|
    ensures var e := LineEnd(s, pos);
            && (forall i :: pos <= i < e ==> !IsEol(s[i]))
            && (e < |s| ==> IsEol(s[e]))
    decreases |s| - pos
  {
    if pos < |s| && !IsEol(s[pos]) {
      LineEndIsFirstEol(s, pos + 1);
    }
  }

  ghost predicate IsTerminator(t: seq<byte>) { t == [10] || t == [13] || t == [13, 10] }

  /** One line: an optional byte order mark, terminator-free content, and a whole terminator. */
  ghost predicate WellSplit(s: seq<byte>, l: RawLine, first: bool) {
    && l.rawBegin <= l.contentBegin <= l.contentEnd <= l.rawEnd <= |s|
    && l.rawBegin < l.rawEnd
    && (forall i :: l.contentBegin <= i < l.contentEnd ==> !IsEol(s[i]))
    && s[l.rawBegin..l.contentBegin] == (if l.contentBegin == l.rawBegin then [] else [0xef, 0xbb, 0xbf])
    && (l.contentBegin != l.rawBegin ==> first)
    && (first && l.contentBegin == l.rawBegin ==> !([0xef, 0xbb, 0xbf] <= s[l.rawBegin..l.contentEnd]))
    && (l.contentEnd < l.rawEnd ==> IsTerminator(s[l.contentEnd..l.rawEnd]))
    && (l.contentEnd == l.rawEnd ==> l.rawEnd == |s|)
    && !(0 < l.rawEnd < |s| && s[l.rawEnd - 1] == CR && s[l.rawEnd] == LF)
  }

  lemma LineAtWellSplit(s: seq<byte>, pos: nat, first: bool)
    requires pos < |s|
    ensures WellSplit(s, LineAt(s, pos, first), first)
  {
    var l := LineAt(s, pos, first);
    LineEndIsFirstEol(s, pos);
    TerminatorIsWhole(s, l.contentEnd);
  }

  lemma TerminatorIsWhole(s: seq<byte>, e: nat)
    requires e <= |s| && (e < |s| ==> IsEol(s[e]))
    ensures var r := AfterTerminator(s, e);
            && (e < r ==> IsTerminator(s[e..r]))
            && (e == r ==> r == |s|)
            && (e < r < |s| ==> !(s[r - 1] == CR && s[r] == LF))
  {
  }

  // ----- losslessness -----------------------------------------------------------------------

  /** Raw spans are contiguous from `pos` to the end of the source. */
  ghost predicate Contiguous(ls: seq<RawLine>, pos: nat, end: nat) {
    if ls == [] then pos == end
    else ls[0].rawBegin == pos <= ls[0].rawEnd && Contiguous(ls[1..], ls[0].rawEnd, end)
  }

  /** The bytes of all raw spans, in order. */
  ghost function Reassemble(s: seq<byte>, ls: seq<RawLine>): seq<byte>
    requires forall i :: 0 <= i < |ls| ==> ls[i].rawBegin <= ls[i].rawEnd <= |s|
  {
    if ls == [] then [] else s[ls[0].rawBegin..ls[0].rawEnd] + Reassemble(s, ls[1..])
  }

  lemma {:induction false} LinesAreLossless(s: seq<byte>, pos: nat, first: bool)
    requires pos <= |s|
    ensures var ls := Lines(s, pos, first);
            && (forall i :: 0 <= i < |ls| ==> WellSplit(s, ls[i], first && i == 0))
            && Contiguous(ls, pos, |s|)
            && Reassemble(s, ls) == s[pos..]
            && |ls| <= |s| - pos
    decreases |s| - pos
  {
    hide LineAt, IsTerminator;
    if pos < |s| {
      var l := LineAt(s, pos, first);
      var rest := Lines(s, l.rawEnd, false);
      LineAtWellSplit(s, pos, first);
      LinesAreLossless(s, l.rawEnd, false);
      var ls := Lines(s, pos, first);
      assert ls[1..] == rest;
      forall i | 0 <= i < |ls| ensures WellSplit(s, ls[i], first && i == 0) {
        if i > 0 { assert ls[i] == rest[i - 1]; }
      }
      assert s[pos..] == s[pos..l.rawEnd] + s[l.rawEnd..];
    }
  }

  // ----- concatenation ----------------------------------------------------------------------

  function ShiftLine(l: RawLine, d: nat): RawLine {
    RawLine(l.rawBegin + d, l.rawEnd + d, l.contentBegin + d, l.contentEnd + d)
  }

  /** `a` ends a line, and joining it with `b` does not form a CRLF across the seam. */
  predicate CleanSeam(a: seq<byte>, b: seq<byte>) {
    && (a != [] ==> IsEol(a[|a| - 1]))
    && (b != [] ==> b[0] != LF)
  }

  lemma {:induction false} LineEndLeft(a: seq<byte>, b: seq<byte>, pos: nat)
    requires CleanSeam(a, b) && pos < |a|
    ensures LineEnd(a + b, pos) == LineEnd(a, pos) < |a|
    decreases |a| - pos
  {
    if !IsEol(a[pos]) {
      LineEndLeft(a, b, pos + 1);
    }
  }

  lemma {:induction false} LineEndRight(a: seq<byte>, b: seq<byte>, pos: nat)
    requires pos <= |b|
    ensures LineEnd(a + b, |a| + pos) == |a| + LineEnd(b, pos)
    decreases |b| - pos
  {
    if pos < |b| && !IsEol(b[pos]) {
      LineEndRight(a, b, pos + 1);
    }
  }

  lemma LineAtLeft(a: seq<byte>, b: seq<byte>, pos: nat, first: bool)
    requires CleanSeam(a, b) && pos < |a|
    ensures LineAt(a + b, pos, first) == LineAt(a, pos, first)
  {
    LineEndLeft(a, b, pos);
  }

  lemma LineAtRight(a: seq<byte>, b: seq<byte>, pos: nat)
    requires pos < |b|
    ensures LineAt(a + b, |a| + pos, false) == ShiftLine(LineAt(b, pos, false), |a|)
  {
    LineEndRight(a, b, pos);
  }
}
