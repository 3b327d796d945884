/**
 * Python's `&` and `|` on non-negative (unbounded) integers, bit by bit.
 * Attribute words (`st_mode` plus the list item flags) and style attributes
 * are combined and tested with these.
 */
module Bits {

  function Pow2(k: nat): (r: nat)
    ensures r >= 1
  {
    if k == 0 then 1 else 2 * Pow2(k - 1)
  }

  /** The powers of two that name the flag bits used by the model (bits 9 to 17). */
  lemma Pow2Table()
    ensures Pow2(9) == 0x200 && Pow2(10) == 0x400 && Pow2(11) == 0x800
    ensures Pow2(15) == 0x8000 && Pow2(16) == 0x1_0000 && Pow2(17) == 0x2_0000
  {
    assert Pow2(1) == 2;
    assert Pow2(2) == 4;
    assert Pow2(3) == 8;
    assert Pow2(4) == 16;
    assert Pow2(5) == 32;
    assert Pow2(6) == 64;
    assert Pow2(7) == 128;
    assert Pow2(8) == 256;
    assert Pow2(9) == 512;
    assert Pow2(10) == 1024;
    assert Pow2(11) == 2048;
    assert Pow2(12) == 4096;
    assert Pow2(13) == 8192;
    assert Pow2(14) == 16384;
    assert Pow2(15) == 32768;
    assert Pow2(16) == 65536;
    assert Pow2(17) == 131072;
  }

  /** Bit `k` of `a` is set. */
  predicate TestBit(a: nat, k: nat) {
    if k == 0 then a % 2 == 1 else TestBit(a / 2, k - 1)
  }

  /** `a & b`. */
  function BitAnd(a: nat, b: nat): nat
    decreases a
  {
    if a == 0 || b == 0 then 0 else (a % 2) * (b % 2) + 2 * BitAnd(a / 2, b / 2)
  }

  /** `a | b`. */
  function BitOr(a: nat, b: nat): nat
    decreases a + b
  {
    if a == 0 && b == 0 then 0
    else (if a % 2 == 1 || b % 2 == 1 then 1 else 0) + 2 * BitOr(a / 2, b / 2)
  }

  /** `a & (1 << k)` is non-zero exactly when bit `k` of `a` is set. */
  lemma {:induction false} BitAndPow2(a: nat, k: nat)
    ensures BitAnd(a, Pow2(k)) != 0 <==> TestBit(a, k)
    decreases k
  {
    if k > 0 {
      BitAndPow2(a / 2, k - 1);
      if a != 0 {
        assert BitAnd(a, Pow2(k)) == 2 * BitAnd(a / 2, Pow2(k - 1));
      }
      else {
        ZeroHasNoBits(k);
      }
    }
  }

  /** Bit `k` of `1 << k` is set. */
  lemma {:induction false} Pow2HasBit(k: nat)
    ensures TestBit(Pow2(k), k)
  {
    if k > 0 {
      assert Pow2(k) / 2 == Pow2(k - 1);
      Pow2HasBit(k - 1);
    }
  }

  lemma {:induction false} ZeroHasNoBits(k: nat)
    ensures !TestBit(0, k)
  {
    if k > 0 { ZeroHasNoBits(k - 1); }
  }

  /** `0 & b == 0`. */
  lemma ZeroAnd(b: nat)
    ensures BitAnd(0, b) == 0
  {
  }

  lemma BitOrSplit(a: nat, b: nat)
    ensures BitOr(a, b) % 2 == (if a % 2 == 1 || b % 2 == 1 then 1 else 0)
    ensures BitOr(a, b) / 2 == BitOr(a / 2, b / 2)
  {
  }

  /** Bit `k` of `a | b` is set exactly when it is set in `a` or in `b`. */
  lemma {:induction false} BitOrTest(a: nat, b: nat, k: nat)
    ensures TestBit(BitOr(a, b), k) <==> TestBit(a, k) || TestBit(b, k)
    decreases k
  {
    BitOrSplit(a, b);
    if k > 0 { BitOrTest(a / 2, b / 2, k - 1); }
  }

  /** `a | a == a`. */
  lemma {:induction false} BitOrSelf(a: nat)
    ensures BitOr(a, a) == a
    decreases a
  {
    if a != 0 { BitOrSelf(a / 2); }
  }

  /** `a | b == b | a`. */
  lemma {:induction false} BitOrCommutes(a: nat, b: nat)
    ensures BitOr(a, b) == BitOr(b, a)
    decreases a + b
  {
    if a != 0 || b != 0 { BitOrCommutes(a / 2, b / 2); }
  }

  /** `(a | b) | c == a | (b | c)`. */
  lemma {:induction false} BitOrAssociates(a: nat, b: nat, c: nat)
    ensures BitOr(BitOr(a, b), c) == BitOr(a, BitOr(b, c))
    decreases a + b + c
  {
    BitOrSplit(a, b);
    BitOrSplit(b, c);
    BitOrSplit(BitOr(a, b), c);
    BitOrSplit(a, BitOr(b, c));
    if a != 0 || b != 0 || c != 0 {
      BitOrAssociates(a / 2, b / 2, c / 2);
    }
  }

  /** Or-ing the same flag twice is the same as or-ing it once: `(a | f) | f == a | f`. */
  lemma {:induction false} BitOrIdempotent(a: nat, f: nat)
    ensures BitOr(BitOr(a, f), f) == BitOr(a, f)
  {
    BitOrAssociates(a, f, f);
    BitOrSelf(f);
  }

  /** Or-ing two flags in either order gives the same word: `(a | f) | g == (a | g) | f`. */
  lemma {:induction false} BitOrSwap(a: nat, f: nat, g: nat)
    ensures BitOr(BitOr(a, f), g) == BitOr(BitOr(a, g), f)
  {
    BitOrAssociates(a, f, g);
    BitOrAssociates(a, g, f);
    BitOrCommutes(f, g);
  }

  /** Or-ing never clears a bit: every bit of `a` survives in `a | f`. */
  lemma BitOrKeeps(a: nat, f: nat, k: nat)
    ensures TestBit(a, k) ==> TestBit(BitOr(a, f), k)
    ensures TestBit(f, k) ==> TestBit(BitOr(a, f), k)
  {
    BitOrTest(a, f, k);
  }
}
