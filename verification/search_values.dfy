/**
  Scalar values in a snapshot: the little-endian read, the signed reading and the comparison
  relations, in the source's bit operations and in plain arithmetic.
 */
module SearchValues {
  import opened Bits

  datatype ScalarType = U8 | S8 | U16 | S16 | U32 | S32

  datatype Relation = Equal | NotEqual | Changed | Unchanged | Increased | Decreased

  function Width(t: ScalarType): (w: nat)
    ensures w == 1 || w == 2 || w == 4
  {
    match t
    case U8 => 1
    case S8 => 1
    case U16 => 2
    case S16 => 2
    case U32 => 4
    case S32 => 4
  }

  predicate IsSigned(t: ScalarType) { t.S8? || t.S16? || t.S32? }

  // ----- little-endian numbers --------------------------------------------------------------

  /** Base-256 value, least significant byte first. */
  function LittleEndian(t: seq<byte>): nat {
    if t == [] then 0 else t[0] + 256 * LittleEndian(t[1..])
  }

  /** The `n` low bytes of `v`, least significant first. */
  function Encode(v: nat, n: nat): (t: seq<byte>)
    ensures |t| == n
  {
    if n == 0 then [] else [v % 256] + Encode(v / 256, n - 1)
  }

  lemma Pow256(n: nat)
    ensures Pow2(8 * (n + 1)) == 256 * Pow2(8 * n)
  {
    PowSum(8, 8 * n);
    assert Pow2(8) == 256;
  }

  lemma {:induction false} LittleEndianBound(t: seq<byte>)
    ensures LittleEndian(t) < Pow2(8 * |t|)
  {
    if t != [] {
      LittleEndianBound(t[1..]);
      Pow256(|t| - 1);
    }
  }

  lemma {:induction false} LittleEndianAppend(t: seq<byte>, b: byte)
    ensures LittleEndian(t + [b]) == LittleEndian(t) + b * Pow2(8 * |t|)
  {
    if t == [] {
      assert t + [b] == [b];
      assert LittleEndian([b]) == b + 256 * LittleEndian([]);
    } else {
      assert (t + [b])[1..] == t[1..] + [b];
      LittleEndianAppend(t[1..], b);
      Pow256(|t| - 1);
      var p := Pow2(8 * (|t| - 1));
      assert 256 * (b * p) == b * (256 * p);
    }
  }

  /** Writing a number and reading it back, when it fits. */
  lemma {:induction false} EncodeDecode(v: nat, n: nat)
    requires v < Pow2(8 * n)
    ensures LittleEndian(Encode(v, n)) == v
    decreases n
  {
    if n != 0 {
      Pow256(n - 1);
      EncodeDecode(v / 256, n - 1);
    }
  }

  /** Equal values of equal width are equal bytes: a read loses nothing. */
  lemma {:induction false} LittleEndianInjective(a: seq<byte>, b: seq<byte>)
    requires |a| == |b| && LittleEndian(a) == LittleEndian(b)
    ensures a == b
    decreases |a|
  {
    if a != [] {
      assert a[0] == LittleEndian(a) % 256 && b[0] == LittleEndian(b) % 256;
      LittleEndianInjective(a[1..], b[1..]);
      assert a == [a[0]] + a[1..] && b == [b[0]] + b[1..];
    }
  }

  lemma ShiftByte(b: byte, k: nat)
    requires k <= 24
    ensures ShiftLeft(32, b, k) == b * Pow2(k)
  {
    PowSum(8, k);
    assert Pow2(8) == 256;
    PowMonotone(8 + k, 32);
    ByteTimes(b, Pow2(k), Pow2(32));
  }

  lemma ByteTimes(b: byte, p: nat, limit: nat)
    requires 0 < p && 256 * p <= limit
    ensures 0 <= b * p < limit && b * p % limit == b * p
  {
    assert b * p <= 255 * p;
    DivModUnique(b * p, limit, 0, b * p);
  }

  /** One step `value |= byte << (index * 8)` of `vc_read_little_endian`. */
  lemma ShiftOrByte(t: seq<byte>, b: byte)
    requires |t| < 4
    ensures Or(LittleEndian(t), ShiftLeft(32, b, 8 * |t|)) == LittleEndian(t + [b])
  {
    LittleEndianBound(t);
    ShiftByte(b, 8 * |t|);
    OrDisjoint(b, LittleEndian(t), 8 * |t|);
    LittleEndianAppend(t, b);
  }

  // ----- signed values ----------------------------------------------------------------------

  function WidthMask(width: nat): nat {
    if width == 1 then 0xff else if width == 2 then 0xffff else 0xffff_ffff
  }

  /** `vc_signed_value` */
  function SignedValue(bits: nat, width: nat): int
    requires 1 <= width
  {
    var mask := WidthMask(width);
    var value := And(bits, mask);
    var signBit := ShiftLeft(64, 1, width * 8 - 1);
    if And(value, signBit) != 0 then -((mask - value) + 1) else value
  }

  /** The value modulo 2^(8*width). */
  function Reduced(t: ScalarType, bits: nat): nat { bits % Pow2(8 * Width(t)) }

  /** The number a bit pattern stands for: unsigned, or two's complement. */
  function Numeric(t: ScalarType, bits: nat): int {
    var v := Reduced(t, bits);
    if IsSigned(t) && v >= Pow2(8 * Width(t) - 1) then v - Pow2(8 * Width(t)) else v
  }

  lemma WidthMaskIsPower(width: nat)
    requires width == 1 || width == 2 || width == 4
    ensures WidthMask(width) == Pow2(8 * width) - 1
  {
    assert Pow2(8) == 0x100;
    PowSum(8, 8);
    PowSum(16, 16);
  }

  lemma MaskReduces(t: ScalarType, bits: nat)
    ensures And(bits, WidthMask(Width(t))) == Reduced(t, bits) < Pow2(8 * Width(t))
    ensures WidthMask(Width(t)) == Pow2(8 * Width(t)) - 1
  {
    WidthMaskIsPower(Width(t));
    AndMask(bits, 8 * Width(t));
  }

  /** The sign-bit arithmetic of the source is two's complement. */
  lemma SignedValueIsTwosComplement(t: ScalarType, bits: nat)
    requires IsSigned(t)
    ensures SignedValue(bits, Width(t)) == Numeric(t, bits)
  {
    MaskReduces(t, bits);
    ShiftOne(64, 8 * Width(t) - 1);
    TopBit(Reduced(t, bits), 8 * Width(t) - 1);
  }

  /** Reading a value as a number never identifies two different bit patterns. */
  lemma NumericInjective(t: ScalarType, a: nat, b: nat)
    ensures Numeric(t, a) == Numeric(t, b) <==> Reduced(t, a) == Reduced(t, b)
  {
    assert Pow2(8 * Width(t)) == 2 * Pow2(8 * Width(t) - 1);
    MaskReduces(t, a);
    MaskReduces(t, b);
  }

  // ----- relations --------------------------------------------------------------------------

  /** `vc_matches` */
  predicate Matches(t: ScalarType, r: Relation, previous: nat, current: nat, constant: nat) {
    var width := Width(t);
    var mask := WidthMask(width);
    var p, c, k := And(previous, mask), And(current, mask), And(constant, mask);
    match r
    case Equal => c == k
    case NotEqual => c != k
    case Changed => c != p
    case Unchanged => c == p
    case Increased => if IsSigned(t) then SignedValue(c, width) > SignedValue(p, width) else c > p
    case Decreased => if IsSigned(t) then SignedValue(c, width) < SignedValue(p, width) else c < p
  }

  /** The relation on the numbers the two bit patterns stand for. */
  predicate Related(t: ScalarType, r: Relation, previous: nat, current: nat, constant: nat) {
    var p, c, k := Numeric(t, previous), Numeric(t, current), Numeric(t, constant);
    match r
    case Equal => c == k
    case NotEqual => c != k
    case Changed => c != p
    case Unchanged => c == p
    case Increased => c > p
    case Decreased => c < p
  }

  lemma NumericOfReduced(t: ScalarType, bits: nat)
    ensures Numeric(t, Reduced(t, bits)) == Numeric(t, bits)
  {
    var m := Pow2(8 * Width(t));
    DivModUnique(bits % m, m, 0, bits % m);
  }

  /** Masked comparisons of bit patterns are comparisons of numbers. */
  lemma MatchesIsRelation(t: ScalarType, r: Relation, previous: nat, current: nat, constant: nat)
    ensures Matches(t, r, previous, current, constant) == Related(t, r, previous, current, constant)
  {
    MaskReduces(t, previous);
    MaskReduces(t, current);
    MaskReduces(t, constant);
    NumericInjective(t, current, previous);
    NumericInjective(t, current, constant);
    if IsSigned(t) {
      SignedValueIsTwosComplement(t, Reduced(t, previous));
      SignedValueIsTwosComplement(t, Reduced(t, current));
      NumericOfReduced(t, previous);
      NumericOfReduced(t, current);
    }
  }

  /** Every pair of values is increased, decreased or unchanged, and never two of these. */
  lemma RelationTrichotomy(t: ScalarType, previous: nat, current: nat, constant: nat)
    ensures var up := Matches(t, Increased, previous, current, constant);
            var down := Matches(t, Decreased, previous, current, constant);
            var same := Matches(t, Unchanged, previous, current, constant);
            && (up || down || same) && !(up && down) && !(up && same) && !(down && same)
            && Matches(t, Changed, previous, current, constant) == (up || down)
  {
    MatchesIsRelation(t, Increased, previous, current, constant);
    MatchesIsRelation(t, Decreased, previous, current, constant);
    MatchesIsRelation(t, Unchanged, previous, current, constant);
    MatchesIsRelation(t, Changed, previous, current, constant);
  }
}
