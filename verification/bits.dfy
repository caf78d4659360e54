/**
  Fixed-width unsigned words as natural numbers. The C code builds numbers and ownership sets with
  shifts, `|`, `&` and `~`; these are the same operators written out bit by bit, and the lemmas
  below are the arithmetic and set-theoretic readings the rest of the project relies on.
 */
module Bits {

  type byte = b: int | 0 <= b < 256

  function Pow2(n: nat): (r: nat)
    ensures r > 0
  {
    if n == 0 then 1 else 2 * Pow2(n - 1)
  }

  predicate HasBit(x: nat, i: nat) {
    if i == 0 then x % 2 == 1 else HasBit(x / 2, i - 1)
  }

  function Or(x: nat, y: nat): nat {
    if x == 0 && y == 0 then 0
    else 2 * Or(x / 2, y / 2) + (if x % 2 == 1 || y % 2 == 1 then 1 else 0)
  }

  function And(x: nat, y: nat): nat
    decreases x + y
  {
    if x == 0 && y == 0 then 0
    else 2 * And(x / 2, y / 2) + (if x % 2 == 1 && y % 2 == 1 then 1 else 0)
  }

  /** One's complement of a `width`-bit word. */
  function Not(width: nat, x: nat): nat
    requires x < Pow2(width)
  {
    Pow2(width) - 1 - x
  }

  /** Left shift of a `width`-bit word: bits pushed past the top are lost. */
  function ShiftLeft(width: nat, x: nat, k: nat): (r: nat)
    ensures r < Pow2(width)
  {
    x * Pow2(k) % Pow2(width)
  }

  lemma {:induction false} PowSum(a: nat, b: nat)
    ensures Pow2(a + b) == Pow2(a) * Pow2(b)
  {
    if b != 0 {
      PowSum(a, b - 1);
      assert Pow2(a + b) == 2 * Pow2(a + b - 1);
    }
  }

  lemma {:induction false} PowMonotone(a: nat, b: nat)
    requires a <= b
    ensures Pow2(a) <= Pow2(b)
  {
    if a < b { PowMonotone(a, b - 1); }
  }

  lemma OrHalves(x: nat, y: nat)
    ensures Or(x, y) / 2 == Or(x / 2, y / 2) && (Or(x, y) % 2 == 1 <==> x % 2 == 1 || y % 2 == 1)
  {
  }

  lemma AndHalves(x: nat, y: nat)
    ensures And(x, y) / 2 == And(x / 2, y / 2) && (And(x, y) % 2 == 1 <==> x % 2 == 1 && y % 2 == 1)
  {
  }

  lemma {:induction false} OrHasBit(x: nat, y: nat, i: nat)
    ensures HasBit(Or(x, y), i) == (HasBit(x, i) || HasBit(y, i))
    decreases i
  {
    hide Or;
    OrHalves(x, y);
    if i != 0 { OrHasBit(x / 2, y / 2, i - 1); }
  }

  lemma {:induction false} AndHasBit(x: nat, y: nat, i: nat)
    ensures HasBit(And(x, y), i) == (HasBit(x, i) && HasBit(y, i))
    decreases i
  {
    hide And;
    AndHalves(x, y);
    if i != 0 { AndHasBit(x / 2, y / 2, i - 1); }
  }

  lemma {:induction false} NotHasBit(width: nat, x: nat, i: nat)
    requires x < Pow2(width) && i < width
    ensures HasBit(Not(width, x), i) == !HasBit(x, i)
    decreases width
  {
    var y := Not(width, x);
    assert Pow2(width) == 2 * Pow2(width - 1);
    assert y / 2 == Not(width - 1, x / 2);
    if i != 0 { NotHasBit(width - 1, x / 2, i - 1); }
  }

  lemma {:induction false} PowHasBit(k: nat, i: nat)
    ensures HasBit(Pow2(k), i) == (k == i)
    decreases k
  {
    if i == 0 {
      assert k != 0 ==> Pow2(k) == 2 * Pow2(k - 1);
    } else if k == 0 {
      ZeroHasNoBit(i - 1);
    } else {
      assert Pow2(k) / 2 == Pow2(k - 1);
      PowHasBit(k - 1, i - 1);
    }
  }

  lemma {:induction false} ZeroHasNoBit(i: nat)
    ensures !HasBit(0, i)
  {
    if i != 0 { ZeroHasNoBit(i - 1); }
  }

  /** A word is nonzero exactly when one of its bits is set. */
  lemma {:induction false} NonzeroHasBit(width: nat, x: nat) returns (i: nat)
    requires 0 < x < Pow2(width)
    ensures i < width && HasBit(x, i)
    decreases width
  {
    if x % 2 == 1 {
      i := 0;
    } else {
      var j := NonzeroHasBit(width - 1, x / 2);
      i := j + 1;
    }
  }

  lemma {:induction false} BitBound(width: nat, x: nat, i: nat)
    requires x < Pow2(width) && HasBit(x, i)
    ensures i < width
    decreases width
  {
    if width == 0 {
      ZeroHasNoBit(i);
    } else if i != 0 {
      BitBound(width - 1, x / 2, i - 1);
    }
  }

  lemma {:induction false} OrBound(width: nat, x: nat, y: nat)
    requires x < Pow2(width) && y < Pow2(width)
    ensures Or(x, y) < Pow2(width)
    decreases width
  {
    if width != 0 { OrBound(width - 1, x / 2, y / 2); }
  }

  lemma {:induction false} AndBound(x: nat, y: nat)
    ensures And(x, y) <= x
    decreases x + y
  {
    if x != 0 || y != 0 { AndBound(x / 2, y / 2); }
  }

  /** Shifting one into place is the single-bit word. */
  lemma ShiftOne(width: nat, k: nat)
    requires k < width
    ensures ShiftLeft(width, 1, k) == Pow2(k) < Pow2(width)
  {
    PowMonotone(k + 1, width);
    var p := Pow2(k);
    assert p < Pow2(width);
    DivModUnique(p, Pow2(width), 0, p);
    assert 1 * p == p;
  }

  lemma {:induction false} OrZero(x: nat)
    ensures Or(x, 0) == x && Or(0, x) == x
  {
    if x != 0 { OrZero(x / 2); }
  }

  /** `|` on words that share no bit position is addition. */
  lemma {:induction false} OrDisjoint(high: nat, low: nat, k: nat)
    requires low < Pow2(k)
    ensures Or(high * Pow2(k), low) == Or(low, high * Pow2(k)) == high * Pow2(k) + low
    decreases k
  {
    if k == 0 {
      OrZero(high);
    } else {
      var x := high * Pow2(k - 1);
      assert high * Pow2(k) == 2 * x by {
        assert Pow2(k) == 2 * Pow2(k - 1);
      }
      OrDisjoint(high, low / 2, k - 1);
      assert (2 * x) / 2 == x;
    }
  }

  /** Masking with 2^k - 1 keeps the value modulo 2^k. */
  lemma {:induction false} AndMask(x: nat, k: nat)
    ensures And(x, Pow2(k) - 1) == x % Pow2(k)
    decreases k
  {
    if k == 0 {
      AndZero(x);
    } else {
      AndMask(x / 2, k - 1);
      AndMaskStep(x, Pow2(k - 1) - 1);
    }
  }

  lemma AndMaskStep(x: nat, m: nat)
    requires And(x / 2, m) == (x / 2) % (m + 1)
    ensures And(x, 2 * m + 1) == x % (2 * (m + 1))
  {
    hide And;
    AndOdd(x, m);
    HalveMod(x, m + 1);
  }

  lemma AndOdd(x: nat, m: nat)
    ensures And(x, 2 * m + 1) == 2 * And(x / 2, m) + x % 2
  {
  }

  lemma {:induction false} AndZero(x: nat)
    ensures And(x, 0) == 0
  {
    if x != 0 { AndZero(x / 2); }
  }

  lemma HalveMod(x: nat, p: nat)
    requires p > 0
    ensures x % (2 * p) == 2 * ((x / 2) % p) + x % 2
  {
    var q := (x / 2) / p;
    var r := (x / 2) % p;
    assert x / 2 == q * p + r;
    assert x == 2 * (q * p + r) + x % 2;
    assert x == q * (2 * p) + (2 * r + x % 2);
    DivModUnique(x, 2 * p, q, 2 * r + x % 2);
  }

  lemma DivModUnique(x: int, d: int, q: int, r: int)
    requires d > 0 && 0 <= r < d && x == q * d + r
    ensures x / d == q && x % d == r
  {
    var q' := x / d;
    assert (q - q') * d == x % d - r;
    assert q - q' >= 1 ==> (q - q') * d >= d;
    assert q - q' <= -1 ==> (q - q') * d <= -d;
  }

  lemma DivBound(k: nat, d: nat, room: nat)
    requires d > 0
    ensures k <= room / d <==> k * d <= room
  {
    var q := room / d;
    assert q * d <= room < (q + 1) * d;
    if k <= q {
      assert k * d <= q * d;
    } else {
      assert (q + 1) * d <= k * d;
    }
  }

  /** The top bit of a (k+1)-bit word tells whether it is at least 2^k. */
  lemma {:induction false} TopBit(x: nat, k: nat)
    requires x < Pow2(k + 1)
    ensures (And(x, Pow2(k)) != 0) == HasBit(x, k) == (x >= Pow2(k))
  {
    TopBitSize(x, k);
    if HasBit(x, k) {
      PowHasBit(k, k);
      AndHasBit(x, Pow2(k), k);
      ZeroHasNoBit(k);
    } else if And(x, Pow2(k)) != 0 {
      var y := And(x, Pow2(k));
      AndBound(x, Pow2(k));
      var i := NonzeroHasBit(k + 1, y);
      AndHasBit(x, Pow2(k), i);
      PowHasBit(k, i);
      assert false;
    }
  }

  lemma {:induction false} TopBitSize(x: nat, k: nat)
    requires x < Pow2(k + 1)
    ensures HasBit(x, k) == (x >= Pow2(k))
    decreases k
  {
    if k != 0 { TopBitSize(x / 2, k - 1); }
  }
}
