/**
  The text of one `.psv` line: white space, hexadecimal fields, the code record and the cheat
  header, each as a function on the line's bytes together with the grammar it recognises.
 */
module PsvText {
  import opened Bits
  import opened Common

  const TAB: byte := 9
  const LF: byte := 10
  const CR: byte := 13
  const SPACE: byte := 32
  const HASH: byte := 35
  const DOLLAR: byte := 36
  const DIGIT_0: byte := 48
  const DIGIT_1: byte := 49
  const UPPER_V: byte := 86
  const UNDERSCORE: byte := 95

  lemma SuffixOfSlice<T>(s: seq<T>, a: nat, b: nat, c: nat)
    requires a <= b <= c <= |s|
    ensures s[a..c][b - a..] == s[b..c]
  {
  }

  lemma PrefixOfSlice<T>(s: seq<T>, a: nat, b: nat, c: nat)
    requires a <= b <= c <= |s|
    ensures s[a..c][..b - a] == s[a..b]
  {
  }

  lemma SliceOfSlice<T>(s: seq<T>, lo: nat, b: nat, e: nat, hi: nat)
    requires lo <= b <= e <= hi <= |s|
    ensures s[lo..hi][b - lo..e - lo] == s[b..e]
  {
    var left, right := s[lo..hi][b - lo..e - lo], s[b..e];
    assert |left| == |right|;
    forall k | 0 <= k < |right| ensures left[k] == right[k] {
      assert left[k] == s[lo..hi][b - lo + k];
    }
  }

  predicate IsSpace(b: byte) { b == SPACE || b == TAB }

  predicate AllSpaces(t: seq<byte>) { forall i :: 0 <= i < |t| ==> IsSpace(t[i]) }

  function LeadingSpaces(t: seq<byte>): (n: nat)
    ensures n <= |t|
  {
    if t == [] || !IsSpace(t[0]) then 0 else 1 + LeadingSpaces(t[1..])
  }

  function TrailingSpaces(t: seq<byte>): (n: nat)
    ensures n <= |t|
  {
    if t == [] || !IsSpace(t[|t| - 1]) then 0 else 1 + TrailingSpaces(t[..|t| - 1])
  }

  lemma {:induction false} LeadingSpacesAre(t: seq<byte>)
    ensures var n := LeadingSpaces(t);
            AllSpaces(t[..n]) && (n < |t| ==> !IsSpace(t[n]))
  {
    if t != [] && IsSpace(t[0]) {
      LeadingSpacesAre(t[1..]);
    }
  }

  lemma {:induction false} TrailingSpacesAre(t: seq<byte>)
    ensures var n := TrailingSpaces(t);
            AllSpaces(t[|t| - n..]) && (n < |t| ==> !IsSpace(t[|t| - n - 1]))
  {
    if t != [] && IsSpace(t[|t| - 1]) {
      TrailingSpacesAre(t[..|t| - 1]);
    }
  }

  /** The number of leading spaces is the only split into spaces and a rest that starts otherwise. */
  lemma {:induction false} LeadingSpacesUnique(w: seq<byte>, rest: seq<byte>)
    requires AllSpaces(w) && (rest == [] || !IsSpace(rest[0]))
    ensures LeadingSpaces(w + rest) == |w| && (w + rest)[|w|..] == rest
  {
    if w == [] {
      assert w + rest == rest;
    } else {
      assert (w + rest)[1..] == w[1..] + rest;
      LeadingSpacesUnique(w[1..], rest);
    }
  }

  lemma {:induction false} TrailingSpacesUnique(rest: seq<byte>, w: seq<byte>)
    requires AllSpaces(w) && (rest == [] || !IsSpace(rest[|rest| - 1]))
    ensures TrailingSpaces(rest + w) == |w|
  {
    if w == [] {
      assert rest + w == rest;
    } else {
      assert (rest + w)[..|rest + w| - 1] == rest + w[..|w| - 1];
      TrailingSpacesUnique(rest, w[..|w| - 1]);
    }
  }

  // ----- hexadecimal fields -----------------------------------------------------------------

  function HexDigit(b: byte): Option<nat> {
    if '0' as int <= b <= '9' as int then Some(b - '0' as int)
    else if 'a' as int <= b <= 'f' as int then Some(b - 'a' as int + 10)
    else if 'A' as int <= b <= 'F' as int then Some(b - 'A' as int + 10)
    else None
  }

  predicate AllHex(t: seq<byte>) { forall i :: 0 <= i < |t| ==> HexDigit(t[i]).Some? }

  /** Base-16 positional value, most significant digit first. */
  function HexValue(t: seq<byte>): nat
    requires AllHex(t)
  {
    if t == [] then 0 else HexDigit(t[0]).value * Pow2(4 * (|t| - 1)) + HexValue(t[1..])
  }

  lemma ScaleDigit(d: nat, p: nat, low: nat)
    requires d < 16 && low < p
    ensures d * p + low < 16 * p && d * (16 * p) == 16 * (d * p)
  {
    assert d * p <= 15 * p;
  }

  lemma Pow16(k: nat)
    ensures Pow2(4 * (k + 1)) == 16 * Pow2(4 * k)
  {
    PowSum(4, 4 * k);
    assert Pow2(4) == 16;
  }

  lemma {:induction false} HexValueBound(t: seq<byte>)
    requires AllHex(t)
    ensures HexValue(t) < Pow2(4 * |t|)
  {
    if t != [] {
      HexValueBound(t[1..]);
      Pow16(|t| - 1);
      ScaleDigit(HexDigit(t[0]).value, Pow2(4 * (|t| - 1)), HexValue(t[1..]));
    }
  }

  lemma {:induction false} HexValueAppend(t: seq<byte>, b: byte)
    requires AllHex(t) && HexDigit(b).Some?
    ensures AllHex(t + [b])
    ensures HexValue(t + [b]) == 16 * HexValue(t) + HexDigit(b).value
  {
    if t == [] {
      assert t + [b] == [b];
      assert HexValue([b]) == HexDigit(b).value * Pow2(0) + HexValue([]);
    } else {
      assert (t + [b])[1..] == t[1..] + [b];
      HexValueAppend(t[1..], b);
      Pow16(|t| - 1);
      ScaleDigit(HexDigit(t[0]).value, Pow2(4 * (|t| - 1)), 0);
    }
  }

  /** One accumulation step `(parsed << 4) | digit` in 32 bits loses nothing below 2^28. */
  lemma ShiftOrDigit(parsed: nat, digit: nat)
    requires parsed < Pow2(28) && digit < 16
    ensures Or(ShiftLeft(32, parsed, 4), digit) == 16 * parsed + digit < Pow2(32)
  {
    PowSum(28, 4);
    assert Pow2(4) == 16;
    DivModUnique(parsed * 16, Pow2(32), 0, parsed * 16);
    OrDisjoint(parsed, digit, 4);
  }

  lemma HexStep(field: seq<byte>, index: nat, parsed: nat)
    requires index < |field| <= 8 && AllHex(field[..index]) && parsed == HexValue(field[..index])
    requires HexDigit(field[index]).Some?
    ensures AllHex(field[..index + 1])
    ensures Or(ShiftLeft(32, parsed, 4), HexDigit(field[index]).value) == HexValue(field[..index + 1])
  {
    var before := field[..index];
    HexValueBound(before);
    PowMonotone(4 * index, 28);
    ShiftOrDigit(parsed, HexDigit(field[index]).value);
    HexValueAppend(before, field[index]);
    assert field[..index + 1] == before + [field[index]];
  }

  /** Models `parse_hex_exact`: exactly `digits` hexadecimal digits starting at `offset`. */
  method ParseHexExact(source: seq<byte>, offset: nat, digits: nat) returns (r: Option<nat>)
    requires offset + digits <= |source| && digits <= 8
    ensures r == ParseHex(source[offset..offset + digits])
  {
    ghost var field := source[offset..offset + digits];
    var parsed := 0;
    for index := 0 to digits
      invariant AllHex(field[..index]) && parsed == HexValue(field[..index])
    {
      var digit := HexDigit(source[offset + index]);
      assert field[index] == source[offset + index];
      if digit.None? {
        return None;
      }
      HexStep(field, index, parsed);
      parsed := Or(ShiftLeft(32, parsed, 4), digit.value);
    }
    assert field[..digits] == field;
    r := Some(parsed);
  }

  function ParseHex(t: seq<byte>): Option<nat> {
    if AllHex(t) then Some(HexValue(t)) else None
  }

  // ----- code records -----------------------------------------------------------------------

  datatype CodeRecord = CodeRecord(code: nat, address: nat, value: nat)

  predicate FitsFields(r: CodeRecord) {
    r.code < Pow2(16) && r.address < Pow2(32) && r.value < Pow2(32)
  }

  function AfterSpaces(t: seq<byte>): seq<byte> { t[LeadingSpaces(t)..] }

  function ParseCode(t: seq<byte>): Option<CodeRecord> {
    if |t| < 23 || t[0] != DOLLAR then None
    else ParseCodeField(t[1..])
  }

  function ParseCodeField(t: seq<byte>): Option<CodeRecord>
    requires |t| >= 4
  {
    if !AllHex(t[..4]) || |t| == 4 || !IsSpace(t[4]) then None
    else ParseAddressField(HexValue(t[..4]), AfterSpaces(t[4..]))
  }

  function ParseAddressField(code: nat, t: seq<byte>): Option<CodeRecord> {
    if |t| < 8 || !AllHex(t[..8]) || |t| == 8 || !IsSpace(t[8]) then None
    else ParseValueField(code, HexValue(t[..8]), AfterSpaces(t[8..]))
  }

  function ParseValueField(code: nat, address: nat, t: seq<byte>): Option<CodeRecord> {
    if |t| < 8 || !AllHex(t[..8]) || AfterSpaces(t[8..]) != [] then None
    else Some(CodeRecord(code, address, HexValue(t[..8])))
  }

  /** Models the separator loops of `parse_code` and the first loop of `trim_span`. */
  method SkipSpaces(source: seq<byte>, begin: nat, end: nat) returns (r: nat)
    requires begin <= end <= |source|
    ensures begin <= r <= end
    ensures r == begin + LeadingSpaces(source[begin..end])
    ensures source[r..end] == AfterSpaces(source[begin..end])
  {
    r := begin;
    while r < end && IsSpace(source[r])
      invariant begin <= r <= end
      invariant r + LeadingSpaces(source[r..end]) == begin + LeadingSpaces(source[begin..end])
    {
      SuffixOfSlice(source, r, r + 1, end);
      r := r + 1;
    }
    SuffixOfSlice(source, begin, r, end);
  }

  /** Models `trim_span`. */
  method TrimSpan(source: seq<byte>, begin: nat, end: nat) returns (b: nat, e: nat)
    requires begin <= end <= |source|
    ensures begin <= b <= e <= end
    ensures b == begin + LeadingSpaces(source[begin..end])
    ensures e == end - TrailingSpaces(source[b..end])
  {
    b := SkipSpaces(source, begin, end);
    e := end;
    while e > b && IsSpace(source[e - 1])
      invariant b <= e <= end
      invariant e - TrailingSpaces(source[b..e]) == end - TrailingSpaces(source[b..end])
    {
      PrefixOfSlice(source, b, e - 1, e);
      e := e - 1;
    }
  }

  /** Models `parse_code` on the span [start, end) of the source. */
  method ParseCodeSpan(source: seq<byte>, start: nat, end: nat) returns (r: Option<CodeRecord>)
    requires start <= end <= |source|
    ensures r == ParseCode(source[start..end])
  {
    ghost var t := source[start..end];
    if end - start < 23 || source[start] != DOLLAR {
      return None;
    }
    var begin := start + 1;
    SuffixOfSlice(source, start, begin, end);
    var code := ParseHexExact(source, begin, 4);
    PrefixOfSlice(source, begin, begin + 4, end);
    if code.None? {
      return None;
    }
    SuffixOfSlice(source, begin, begin + 4, end);
    begin := begin + 4;
    if begin == end || !IsSpace(source[begin]) {
      return None;
    }
    begin := SkipSpaces(source, begin, end);
    assert ParseCode(t) == ParseAddressField(code.value, source[begin..end]);
    r := ParseAddressSpan(source, begin, end, code.value);
  }

  method ParseAddressSpan(source: seq<byte>, start: nat, end: nat, code: nat)
    returns (r: Option<CodeRecord>)
    requires start <= end <= |source|
    ensures r == ParseAddressField(code, source[start..end])
  {
    hide AllHex, HexValue, LeadingSpaces;
    var begin := start;
    if end - begin < 8 {
      return None;
    }
    var address := ParseHexExact(source, begin, 8);
    PrefixOfSlice(source, begin, begin + 8, end);
    if address.None? {
      return None;
    }
    SuffixOfSlice(source, begin, begin + 8, end);
    begin := begin + 8;
    if begin == end || !IsSpace(source[begin]) {
      return None;
    }
    begin := SkipSpaces(source, begin, end);
    if end - begin < 8 {
      return None;
    }
    var value := ParseHexExact(source, begin, 8);
    PrefixOfSlice(source, begin, begin + 8, end);
    if value.None? {
      return None;
    }
    SuffixOfSlice(source, begin, begin + 8, end);
    begin := begin + 8;
    begin := SkipSpaces(source, begin, end);
    if begin != end {
      return None;
    }
    r := Some(CodeRecord(code, address.value, value.value));
  }

  /** `$` hex4 ws+ hex8 ws+ hex8 ws*, with the fields' positional values. */
  ghost predicate RecordShape(t: seq<byte>, r: CodeRecord, h: seq<byte>, w1: seq<byte>,
                              a: seq<byte>, w2: seq<byte>, v: seq<byte>, w3: seq<byte>)
  {
    && t == [DOLLAR] + (h + (w1 + (a + (w2 + (v + w3)))))
    && |h| == 4 && |a| == |v| == 8 && AllHex(h) && AllHex(a) && AllHex(v)
    && w1 != [] && w2 != [] && AllSpaces(w1) && AllSpaces(w2) && AllSpaces(w3)
    && r == CodeRecord(HexValue(h), HexValue(a), HexValue(v))
  }

  ghost predicate IsCodeRecord(t: seq<byte>, r: CodeRecord) {
    exists h, w1, a, w2, v, w3 :: RecordShape(t, r, h, w1, a, w2, v, w3)
  }

  lemma FieldFollows(w: seq<byte>, field: seq<byte>, rest: seq<byte>)
    requires AllSpaces(w) && w != [] && AllHex(field) && field != []
    ensures var t := w + (field + rest); IsSpace(t[0]) && AfterSpaces(t) == field + rest
  {
    LeadingSpacesUnique(w, field + rest);
  }

  lemma FieldSplits(field: seq<byte>, rest: seq<byte>)
    ensures var t := field + rest; t[..|field|] == field && t[|field|..] == rest
  {
  }

  lemma CodeRecordComplete(t: seq<byte>, r: CodeRecord, h: seq<byte>, w1: seq<byte>,
                           a: seq<byte>, w2: seq<byte>, v: seq<byte>, w3: seq<byte>)
    requires RecordShape(t, r, h, w1, a, w2, v, w3)
    ensures ParseCode(t) == Some(r)
  {
    var t3 := v + w3;
    var t2 := a + (w2 + t3);
    var t1 := h + (w1 + t2);
    assert ParseValueField(r.code, r.address, t3) == Some(r) by {
      FieldSplits(v, w3);
      assert w3 + [] == w3;
      LeadingSpacesUnique(w3, []);
    }
    assert ParseAddressField(r.code, t2) == Some(r) by {
      FieldSplits(a, w2 + t3);
      FieldFollows(w2, v, w3);
      assert t2[8] == (w2 + t3)[0];
    }
    assert ParseCodeField(t1) == Some(r) by {
      FieldSplits(h, w1 + t2);
      FieldFollows(w1, a, w2 + t3);
      assert t1[4] == (w1 + t2)[0];
    }
    FieldSplits([DOLLAR], t1);
  }

  /** Splits off the separator in front of a field. */
  lemma SeparatorSplits(t: seq<byte>) returns (w: seq<byte>)
    ensures AllSpaces(w) && t == w + AfterSpaces(t)
    ensures t != [] && IsSpace(t[0]) ==> w != []
  {
    LeadingSpacesAre(t);
    w := t[..LeadingSpaces(t)];
  }

  lemma ValueFieldSound(code: nat, address: nat, t: seq<byte>) returns (v: seq<byte>, w: seq<byte>)
    requires ParseValueField(code, address, t).Some?
    ensures t == v + w && |v| == 8 && AllHex(v) && AllSpaces(w)
    ensures ParseValueField(code, address, t).value == CodeRecord(code, address, HexValue(v))
  {
    v := t[..8];
    w := SeparatorSplits(t[8..]);
  }

  lemma AddressFieldSound(code: nat, t: seq<byte>)
    returns (a: seq<byte>, w2: seq<byte>, v: seq<byte>, w3: seq<byte>)
    requires ParseAddressField(code, t).Some?
    ensures t == a + (w2 + (v + w3)) && |a| == |v| == 8 && AllHex(a) && AllHex(v)
    ensures w2 != [] && AllSpaces(w2) && AllSpaces(w3)
    ensures ParseAddressField(code, t).value == CodeRecord(code, HexValue(a), HexValue(v))
  {
    a := t[..8];
    var u := t[8..];
    w2 := SeparatorSplits(u);
    v, w3 := ValueFieldSound(code, HexValue(a), AfterSpaces(u));
    assert t == a + u;
  }

  lemma CodeRecordWitness(t: seq<byte>)
    returns (h: seq<byte>, w1: seq<byte>, a: seq<byte>, w2: seq<byte>, v: seq<byte>, w3: seq<byte>)
    requires ParseCode(t).Some?
    ensures RecordShape(t, ParseCode(t).value, h, w1, a, w2, v, w3)
  {
    hide AllSpaces, AllHex, HexValue, LeadingSpaces, ParseAddressField;
    var t1 := t[1..];
    h := t1[..4];
    var u := t1[4..];
    w1 := SeparatorSplits(u);
    a, w2, v, w3 := AddressFieldSound(HexValue(h), AfterSpaces(u));
    assert t1 == h + u;
    assert t == [DOLLAR] + t1;
  }

  lemma CodeRecordSound(t: seq<byte>)
    requires ParseCode(t).Some?
    ensures IsCodeRecord(t, ParseCode(t).value)
  {
    var h, w1, a, w2, v, w3 := CodeRecordWitness(t);
  }

  /** `parse_code` recognises exactly the record grammar, with exactly the positional values. */
  lemma CodeRecordGrammar(t: seq<byte>, r: CodeRecord)
    ensures ParseCode(t) == Some(r) <==> IsCodeRecord(t, r)
    ensures IsCodeRecord(t, r) ==> FitsFields(r)
  {
    if ParseCode(t) == Some(r) {
      CodeRecordSound(t);
    }
    if IsCodeRecord(t, r) {
      var h, w1, a, w2, v, w3 :| RecordShape(t, r, h, w1, a, w2, v, w3);
      CodeRecordComplete(t, r, h, w1, a, w2, v, w3);
      HexValueBound(h);
      HexValueBound(a);
      HexValueBound(v);
    }
  }

  // ----- printing ---------------------------------------------------------------------------

  function HexChar(d: nat, upper: bool): byte
    requires d < 16
  {
    if d < 10 then '0' as int + d
    else if upper then 'A' as int + d - 10 else 'a' as int + d - 10
  }

  /** The `|upper|` low hexadecimal digits of `v`; each digit's case is chosen separately. */
  function PrintHex(v: nat, upper: seq<bool>): (t: seq<byte>)
    ensures |t| == |upper|
  {
    if upper == [] then []
    else PrintHex(v / 16, upper[..|upper| - 1]) + [HexChar(v % 16, upper[|upper| - 1])]
  }

  lemma {:induction false} PrintHexValue(v: nat, upper: seq<bool>)
    requires v < Pow2(4 * |upper|)
    ensures AllHex(PrintHex(v, upper)) && HexValue(PrintHex(v, upper)) == v
    decreases |upper|
  {
    if upper != [] {
      var shorter := upper[..|upper| - 1];
      PowSum(4, 4 * |shorter|);
      assert Pow2(4) == 16;
      PrintHexValue(v / 16, shorter);
      HexValueAppend(PrintHex(v / 16, shorter), HexChar(v % 16, upper[|upper| - 1]));
    }
  }

  function PrintCode(r: CodeRecord, c: seq<bool>, w1: seq<byte>, a: seq<bool>, w2: seq<byte>,
                     v: seq<bool>, w3: seq<byte>): seq<byte>
  {
    [DOLLAR] + (PrintHex(r.code, c) + (w1 + (PrintHex(r.address, a) + (w2 + (PrintHex(r.value, v) + w3)))))
  }

  /** Any record, printed in any mix of hex cases with any nonempty separators, parses back. */
  lemma PrintParseRoundTrip(r: CodeRecord, c: seq<bool>, w1: seq<byte>, a: seq<bool>,
                            w2: seq<byte>, v: seq<bool>, w3: seq<byte>)
    requires FitsFields(r) && |c| == 4 && |a| == |v| == 8
    requires w1 != [] && w2 != [] && AllSpaces(w1) && AllSpaces(w2) && AllSpaces(w3)
    ensures ParseCode(PrintCode(r, c, w1, a, w2, v, w3)) == Some(r)
  {
    PrintHexValue(r.code, c);
    PrintHexValue(r.address, a);
    PrintHexValue(r.value, v);
    CodeRecordComplete(PrintCode(r, c, w1, a, w2, v, w3), r,
                       PrintHex(r.code, c), w1, PrintHex(r.address, a), w2, PrintHex(r.value, v), w3);
  }

  // ----- line classification ----------------------------------------------------------------

  /** What one line says, before the parser's state is taken into account. */
  datatype Token =
    | Blank
    | Comment
    | Header(autostart: bool, descriptionOffset: nat, descriptionLength: nat)
    | BadHeader
    | Code(rec: CodeRecord)
    | BadCode
    | OpaqueText

  /** Classification of a line's content; description offsets count from the content's start. */
  function Classify(t: seq<byte>): Token {
    ClassifyTrimmed(Trim(t), LeadingSpaces(t))
  }

  function Trim(t: seq<byte>): seq<byte> {
    t[LeadingSpaces(t)..|t| - TrailingSpaces(AfterSpaces(t))]
  }

  function ClassifyTrimmed(u: seq<byte>, b: nat): Token {
    if u == [] then Blank
    else if u[0] == HASH then Comment
    else if |u| >= 3 && u[0] == UNDERSCORE && u[1] == UPPER_V then
      if (u[2] != DIGIT_0 && u[2] != DIGIT_1) || (|u| > 3 && !IsSpace(u[3])) then BadHeader
      else
        var d := 3 + LeadingSpaces(u[3..]);
        Header(u[2] == DIGIT_1, b + d, |u| - d)
    else if u[0] == DOLLAR then
      match ParseCode(u)
      case Some(r) => Code(r)
      case None => BadCode
    else OpaqueText
  }

  function HeaderMark(autostart: bool): seq<byte> {
    [UNDERSCORE, UPPER_V, if autostart then DIGIT_1 else DIGIT_0]
  }

  /** ws* `_V` (`0`|`1`) [ws+ description] ws*, where a description neither starts nor ends in white space. */
  ghost predicate HeaderShape(t: seq<byte>, autostart: bool, w1: seq<byte>, w2: seq<byte>,
                              description: seq<byte>, w3: seq<byte>)
  {
    && t == w1 + (HeaderMark(autostart) + (w2 + description)) + w3
    && AllSpaces(w1) && AllSpaces(w2) && AllSpaces(w3)
    && (description != [] ==>
          w2 != [] && !IsSpace(description[0]) && !IsSpace(description[|description| - 1]))
    && (description == [] ==> w2 == [])
  }

  ghost predicate IsHeaderLine(t: seq<byte>, autostart: bool, offset: nat, length: nat) {
    exists w1, w2, description, w3 ::
      && HeaderShape(t, autostart, w1, w2, description, w3)
      && offset == |w1| + 3 + |w2| && length == |description|
  }

  /** A line is a header exactly when it has the header shape, and its span is the description. */
  lemma HeaderGrammar(t: seq<byte>, autostart: bool, offset: nat, length: nat)
    ensures Classify(t) == Header(autostart, offset, length) <==>
            IsHeaderLine(t, autostart, offset, length)
  {
    if Classify(t) == Header(autostart, offset, length) {
      HeaderSound(t);
    }
    if IsHeaderLine(t, autostart, offset, length) {
      var w1, w2, description, w3 :|
        && HeaderShape(t, autostart, w1, w2, description, w3)
        && offset == |w1| + 3 + |w2| && length == |description|;
      HeaderComplete(t, autostart, w1, w2, description, w3);
    }
  }

  /** Trimming finds the core between two runs of white space. */
  lemma TrimFindsCore(t: seq<byte>, w1: seq<byte>, core: seq<byte>, w3: seq<byte>)
    requires t == w1 + core + w3 && AllSpaces(w1) && AllSpaces(w3)
    requires core != [] && !IsSpace(core[0]) && !IsSpace(core[|core| - 1])
    ensures LeadingSpaces(t) == |w1| && Trim(t) == core
  {
    hide LeadingSpaces, TrailingSpaces, AllSpaces;
    assert t == w1 + (core + w3);
    LeadingSpacesUnique(w1, core + w3);
    TrailingSpacesUnique(core, w3);
    assert t[|w1|..|t| - |w3|] == core;
  }

  /** A core of mark, separator and description is classified as that header. */
  lemma CoreIsHeader(autostart: bool, w2: seq<byte>, description: seq<byte>, b: nat)
    requires AllSpaces(w2)
    requires description != [] ==> w2 != [] && !IsSpace(description[0])
    requires description == [] ==> w2 == []
    ensures ClassifyTrimmed(HeaderMark(autostart) + (w2 + description), b)
         == Header(autostart, b + 3 + |w2|, |description|)
  {
    hide LeadingSpaces, ParseCode;
    var core := HeaderMark(autostart) + (w2 + description);
    assert core[3..] == w2 + description;
    LeadingSpacesUnique(w2, description);
  }

  lemma HeaderComplete(t: seq<byte>, autostart: bool, w1: seq<byte>, w2: seq<byte>,
                       description: seq<byte>, w3: seq<byte>)
    requires HeaderShape(t, autostart, w1, w2, description, w3)
    ensures Classify(t) == Header(autostart, |w1| + 3 + |w2|, |description|)
  {
    hide LeadingSpaces, AllSpaces, Trim, ClassifyTrimmed;
    var tail := w2 + description;
    var core := HeaderMark(autostart) + tail;
    assert core[|core| - 1] ==
      if description == [] then HeaderMark(autostart)[2] else description[|description| - 1];
    TrimFindsCore(t, w1, core, w3);
    CoreIsHeader(autostart, w2, description, |w1|);
  }

  /** Trimming splits a line into white space around a core that starts and ends otherwise. */
  lemma TrimSplits(t: seq<byte>) returns (w1: seq<byte>, u: seq<byte>, w3: seq<byte>)
    ensures t == w1 + u + w3 && AllSpaces(w1) && AllSpaces(w3)
    ensures |w1| == LeadingSpaces(t) && u == Trim(t)
    ensures u != [] ==> !IsSpace(u[0]) && !IsSpace(u[|u| - 1])
  {
    hide LeadingSpaces, TrailingSpaces, AllSpaces;
    LeadingSpacesAre(t);
    var b := LeadingSpaces(t);
    var rest := t[b..];
    TrailingSpacesAre(rest);
    var n := |rest| - TrailingSpaces(rest);
    w1, u, w3 := t[..b], rest[..n], rest[n..];
    assert u != [] ==> u[0] == t[b] && u[|u| - 1] == rest[n - 1];
    assert t == w1 + u + w3;
    assert u == t[b..b + n];
  }

  /** What follows the activation digit of an accepted, trimmed header. */
  lemma HeaderTailSplits(u: seq<byte>) returns (w2: seq<byte>, description: seq<byte>)
    requires |u| >= 3 && !IsSpace(u[|u| - 1]) && (|u| > 3 ==> IsSpace(u[3]))
    ensures u == u[..3] + (w2 + description) && AllSpaces(w2)
    ensures |w2| == LeadingSpaces(u[3..])
    ensures if |u| == 3 then w2 == description == []
            else w2 != [] && description != [] && !IsSpace(description[0])
                 && description[|description| - 1] == u[|u| - 1]
  {
    var tail := u[3..];
    w2 := SeparatorSplits(tail);
    description := AfterSpaces(tail);
    LeadingSpacesAre(tail);
    assert |u| > 3 ==> tail[|tail| - 1] == u[|u| - 1];
  }

  /** What an accepted header token says about the trimmed line it came from. */
  lemma HeaderToken(u: seq<byte>, b: nat)
    requires ClassifyTrimmed(u, b).Header?
    ensures var h := ClassifyTrimmed(u, b);
            && |u| >= 3 && u[..3] == HeaderMark(h.autostart) && (|u| > 3 ==> IsSpace(u[3]))
            && h.descriptionOffset == b + 3 + LeadingSpaces(u[3..])
            && h.descriptionLength == |u| - 3 - LeadingSpaces(u[3..])
  {
  }

  lemma HeaderAssembles(t: seq<byte>, autostart: bool, w1: seq<byte>, u: seq<byte>, w2: seq<byte>,
                        description: seq<byte>, w3: seq<byte>)
    requires t == w1 + u + w3 && u == HeaderMark(autostart) + (w2 + description)
    requires AllSpaces(w1) && AllSpaces(w2) && AllSpaces(w3)
    requires if description == [] then w2 == []
             else w2 != [] && !IsSpace(description[0]) && !IsSpace(description[|description| - 1])
    ensures IsHeaderLine(t, autostart, |w1| + 3 + |w2|, |description|)
  {
    assert HeaderShape(t, autostart, w1, w2, description, w3);
  }

  lemma HeaderSound(t: seq<byte>)
    requires Classify(t).Header?
    ensures var h := Classify(t);
            IsHeaderLine(t, h.autostart, h.descriptionOffset, h.descriptionLength)
  {
    hide ClassifyTrimmed, IsHeaderLine, HeaderMark, LeadingSpaces, TrailingSpaces, AllSpaces, Trim;
    var h := Classify(t);
    var w1, u, w3 := TrimSplits(t);
    HeaderToken(u, |w1|);
    var w2, description := HeaderTailSplits(u);
    HeaderAssembles(t, h.autostart, w1, u, w2, description, w3);
  }
}
