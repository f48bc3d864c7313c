/**
 Machine words as the sets of their one bits: bit i of a word is set when i is in the set.

 Exclusive or is symmetric difference, so facts about bits are facts about sets.  Digits and Number
 convert between a natural number and its bits.
 */
module Words {

  type byte = n: int | 0 <= n < 256

  type Word = set<nat>

  function Xor(a: Word, b: Word): Word { (a - b) + (b - a) }

  predicate Above(w: Word, i: nat) { i + 1 in w }

  /** A right shift by one of a word of at most 32 bits. */
  function Shr(w: Word): Word { set i: nat | i < 32 && Above(w, i) }

  /** The word fits in n bits. */
  predicate Fits(w: Word, n: nat) { forall i :: i in w ==> i < n }

  function Up(w: Word): Word { set i | i in w :: i + 1 }

  lemma InUp(w: Word, i: nat)
    ensures i in Up(w) <==> i > 0 && i - 1 in w
  {
    if i > 0 && i - 1 in w { assert (i - 1) + 1 in Up(w); }
  }

  /** The one bits of a number. */
  function Digits(n: nat): Word {
    if n == 0 then {} else Up(Digits(n / 2)) + (if n % 2 == 1 then {0} else {})
  }

  /** The number whose one bits, among the first n, are those of w. */
  function NumberOf(w: Word, n: nat): nat
    decreases n
  {
    if n == 0 then 0 else (if 0 in w then 1 else 0) + 2 * NumberOf(Shr(w), n - 1)
  }

  function Pow2(n: nat): nat { if n == 0 then 1 else 2 * Pow2(n - 1) }

  lemma Pow2Table()
    ensures Pow2(8) == 0x100 && Pow2(16) == 0x1_0000 && Pow2(32) == 0x1_0000_0000
  {
    assert Pow2(2) == 4 && Pow2(4) == 16 && Pow2(6) == 64 && Pow2(8) == 256;
    assert Pow2(10) == 1024 && Pow2(12) == 4096 && Pow2(14) == 16384 && Pow2(16) == 65536;
    assert Pow2(18) == 4 * Pow2(16) && Pow2(20) == 4 * Pow2(18) && Pow2(22) == 4 * Pow2(20);
    assert Pow2(24) == 4 * Pow2(22) && Pow2(26) == 4 * Pow2(24) && Pow2(28) == 4 * Pow2(26);
    assert Pow2(30) == 4 * Pow2(28) && Pow2(32) == 4 * Pow2(30);
  }

  lemma DigitsStep(n: nat)
    ensures 0 in Digits(n) <==> n % 2 == 1
    ensures forall i: nat :: Above(Digits(n), i) <==> i in Digits(n / 2)
  {
    if n > 0 {
      forall i: nat ensures i in Up(Digits(n / 2)) <==> i > 0 && i - 1 in Digits(n / 2) {
        InUp(Digits(n / 2), i);
      }
      forall i: nat ensures Above(Digits(n), i) <==> i in Digits(n / 2) {
        assert i + 1 in Up(Digits(n / 2)) <==> i in Digits(n / 2);
      }
    }
  }

  lemma DigitsFit(n: nat, k: nat)
    requires n < Pow2(k)
    ensures Fits(Digits(n), k)
    decreases k
  {
    if n > 0 {
      DigitsFit(n / 2, k - 1);
      forall i | i in Digits(n) ensures i < k {
        InUp(Digits(n / 2), i);
      }
    }
  }

  lemma NumberBound(w: Word, n: nat)
    ensures NumberOf(w, n) < Pow2(n)
    decreases n
  {
    if n > 0 { NumberBound(Shr(w), n - 1); }
  }

  /** A word of at most 32 bits is recovered from its number. */
  lemma DigitsOfNumber(w: Word, n: nat)
    requires n <= 32 && Fits(w, n)
    ensures Digits(NumberOf(w, n)) == w
    decreases n
  {
    if n > 0 {
      var h := Shr(w);
      forall i | i in h ensures i < n - 1 { assert i + 1 in w; }
      DigitsOfNumber(h, n - 1);
      var v := NumberOf(w, n);
      assert v / 2 == NumberOf(h, n - 1);
      DigitsStep(v);
      forall i: nat ensures i in Digits(v) <==> i in w {
        if i > 0 {
          assert Above(Digits(v), i - 1) <==> i - 1 in h;
          assert i in w ==> Above(w, i - 1);
        }
      }
    }
  }
}
