/**
 CRC-16/IBM as the Teltonika codec computes it, and what it detects.

 The reference is arithmetic on polynomials over GF(2): a polynomial is the set of exponents whose
 coefficient is 1.  Bit 15 - e of the register is the coefficient of x^e.
 */
module Crc {
  import opened Words

  // ---------- the register ----------

  const ZERO: Word := {}

  /** 0xA001, the reflected generator. */
  const REFLECTED: Word := {0, 13, 15}

  function Shift(c: Word): Word {
    if 0 in c then Xor(Shr(c), REFLECTED) else Shr(c)
  }

  /** One message bit enters at the low end of the register. */
  function Feed(c: Word, bit: bool): Word {
    Shift(if bit then Xor(c, {0}) else c)
  }

  function Fold(c: Word, bits: seq<bool>): Word
    decreases |bits|
  {
    if bits == [] then c else Fold(Feed(c, bits[0]), bits[1..])
  }

  /** The low n bits of a word, lowest first. */
  function LowBits(w: Word, n: nat): (bits: seq<bool>)
    ensures |bits| == n && forall i | 0 <= i < n :: bits[i] <==> i in w
  {
    seq(n, i => i in w)
  }

  /** The message bits in the order they are sent: low bit of each byte first. */
  function Bits(data: seq<byte>): (bits: seq<bool>)
    ensures |bits| == 8 * |data|
  {
    if data == [] then [] else LowBits(Digits(data[0]), 8) + Bits(data[1..])
  }

  /** The checksum of a message, bit by bit from an empty register. */
  function Checksum(data: seq<byte>): Word {
    Fold(ZERO, Bits(data))
  }

  function Shifts(c: Word, n: nat): Word
    decreases n
  {
    if n == 0 then c else Shifts(Shift(c), n - 1)
  }

  lemma OneShift(c: Word, n: nat)
    requires n > 0
    ensures Shifts(c, n) == Shifts(if 0 in c then Xor(Shr(c), REFLECTED) else Shr(c), n - 1)
  {
    hide Xor, Shr;
  }

  /** Eight shifts of the register with a byte mixed in feed that byte. */
  lemma ByteIsFed(data: seq<byte>, k: nat, crc: Word)
    requires k < |data| && Shifts(crc, 0) == Shifts(Xor(Checksum(data[..k]), Digits(data[k])), 8)
    ensures crc == Checksum(data[..k + 1])
  {
    assert Shifts(crc, 0) == crc;
    ChecksumFits(data[..k]);
    hide *;
    ByteIsEightBits(Checksum(data[..k]), data[k]);
    ChecksumSnoc(data[..k], data[k]);
    assert data[..k + 1] == data[..k] + [data[k]];
  }

  lemma NothingFed()
    ensures Checksum([]) == ZERO
  {
  }

  // ---------- the program's loop ----------

  method CRC16IBM(data: seq<byte>) returns (crc: Word)
    ensures crc == Checksum(data)
  {
    hide *;
    crc := ZERO;
    NothingFed();
    assert data[..0] == [];
    for k := 0 to |data|
      invariant crc == Checksum(data[..k])
    {
      crc := Xor(crc, Digits(data[k]));
      ghost var mixed := crc;
      for i := 0 to 8
        invariant Shifts(crc, 8 - i) == Shifts(mixed, 8)
      {
        OneShift(crc, 8 - i);
        if 0 in crc {
          crc := Xor(Shr(crc), REFLECTED);
        } else {
          crc := Shr(crc);
        }
      }
      ByteIsFed(data, k, crc);
    }
    assert data[..|data|] == data;
  }

  lemma FoldConcat(c: Word, a: seq<bool>, b: seq<bool>)
    ensures Fold(c, a + b) == Fold(Fold(c, a), b)
    decreases |a|
  {
    if a == [] {
      assert a + b == b;
    } else {
      assert (a + b)[0] == a[0] && (a + b)[1..] == a[1..] + b;
      FoldConcat(Feed(c, a[0]), a[1..], b);
    }
  }

  lemma BitsConcat(a: seq<byte>, b: seq<byte>)
    ensures Bits(a + b) == Bits(a) + Bits(b)
  {
    if a == [] {
      assert a + b == b;
    } else {
      assert (a + b)[0] == a[0] && (a + b)[1..] == a[1..] + b;
      BitsConcat(a[1..], b);
    }
  }

  lemma ChecksumSnoc(data: seq<byte>, b: byte)
    ensures Checksum(data + [b]) == Fold(Checksum(data), LowBits(Digits(b), 8))
  {
    BitsConcat(data, [b]);
    assert Bits([b]) == LowBits(Digits(b), 8) + Bits([]);
    assert Bits([b]) == LowBits(Digits(b), 8);
    FoldConcat(ZERO, Bits(data), LowBits(Digits(b), 8));
  }

  lemma ShiftFits(c: Word)
    requires Fits(c, 16)
    ensures Fits(Shift(c), 16)
  {
  }

  /** A word xored in at once is consumed one low bit per shift. */
  lemma OneBit(c: Word, v: Word)
    requires Fits(c, 16) && Fits(v, 16)
    ensures Shift(Xor(c, v)) == Xor(Feed(c, 0 in v), Shr(v))
    ensures Fits(Feed(c, 0 in v), 16) && Fits(Shr(v), 15)
  {
    assert Shr(Xor(c, v)) == Xor(Shr(c), Shr(v));
    assert Shr(Xor(c, {0})) == Shr(c);
    ShiftFits(if 0 in v then Xor(c, {0}) else c);
  }

  lemma WordIsItsBits(c: Word, v: Word, n: nat)
    requires Fits(c, 16) && Fits(v, n) && n <= 16
    ensures Shifts(Xor(c, v), n) == Fold(c, LowBits(v, n))
    decreases n
  {
    if n == 0 {
      assert Xor(c, v) == c;
    } else {
      OneBit(c, v);
      WordIsItsBits(Feed(c, 0 in v), Shr(v), n - 1);
      assert LowBits(v, n)[1..] == LowBits(Shr(v), n - 1);
    }
  }

  lemma FoldFits(c: Word, bits: seq<bool>)
    requires Fits(c, 16)
    ensures Fits(Fold(c, bits), 16)
    decreases |bits|
  {
    if bits != [] {
      ShiftFits(if bits[0] then Xor(c, {0}) else c);
      FoldFits(Feed(c, bits[0]), bits[1..]);
    }
  }

  lemma ChecksumFits(data: seq<byte>)
    ensures Fits(Checksum(data), 16)
  {
    FoldFits(ZERO, Bits(data));
  }

  lemma ByteFits(b: byte)
    ensures Fits(Digits(b), 8)
  {
    Pow2Table();
    DigitsFit(b, 8);
  }

  lemma ByteIsEightBits(c: Word, b: byte)
    requires Fits(c, 16)
    ensures Shifts(Xor(c, Digits(b)), 8) == Fold(c, LowBits(Digits(b), 8))
  {
    ByteFits(b);
    WordIsItsBits(c, Digits(b), 8);
  }

  // ---------- a known checksum ----------

  lemma {:induction false} DigitOfPower(k: nat)
    ensures Digits(Pow2(k)) == {k}
  {
    if k > 0 {
      DigitOfPower(k - 1);
      assert Pow2(k) / 2 == Pow2(k - 1) && Pow2(k) % 2 == 0 && Pow2(k) > 0;
      forall i ensures i in Digits(Pow2(k)) <==> i == k { if i >= 0 { InUp({k - 1}, i); } }
    } else {
      assert Digits(0) == {};
      forall i ensures i in Up(Digits(0)) <==> false { if i >= 0 { InUp({}, i); } }
    }
  }

  lemma {:induction false} BitShiftsOut(k: nat)
    requires k < 32
    ensures Shifts({k}, k + 1) == REFLECTED
  {
    if k > 0 {
      assert Shr({k}) == {k - 1} by {
        forall i: nat ensures i in Shr({k}) <==> i == k - 1 { assert Above({k}, i) <==> i == k - 1; }
      }
      BitShiftsOut(k - 1);
    } else {
      assert Shr({0}) == {} by { forall i: nat ensures i !in Shr({0}) { } }
      assert Xor({}, REFLECTED) == REFLECTED;
      assert Shifts(REFLECTED, 0) == REFLECTED;
    }
  }

  lemma {:induction false} NumberOfTwoBits(a: nat, b: nat, n: nat)
    requires a < b < n <= 32
    ensures NumberOf({a, b}, n) == Pow2(a) + Pow2(b)
    decreases n
  {
    var w: Word := {a, b};
    forall i: nat ensures i in Shr(w) <==> i < 32 && (i + 1 == a || i + 1 == b) { assert Above(w, i) <==> i + 1 == a || i + 1 == b; }
    if a > 0 {
      assert Shr(w) == {a - 1, b - 1};
      NumberOfTwoBits(a - 1, b - 1, n - 1);
    } else {
      assert Shr(w) == {b - 1};
      NumberOfBit(b - 1, n - 1);
    }
  }

  lemma {:induction false} NumberOfBit(b: nat, n: nat)
    requires b < n <= 32
    ensures NumberOf({b}, n) == Pow2(b)
    decreases n
  {
    var w: Word := {b};
    forall i: nat ensures i in Shr(w) <==> i < 32 && i + 1 == b { assert Above(w, i) <==> i + 1 == b; }
    if b > 0 {
      assert Shr(w) == {b - 1};
      NumberOfBit(b - 1, n - 1);
    } else {
      assert Shr(w) == {};
      NumberOfNothing(n - 1);
    }
  }

  lemma {:induction false} NumberOfNothing(n: nat)
    ensures NumberOf({}, n) == 0
    decreases n
  {
    if n > 0 {
      forall i: nat ensures i !in Shr({}) { assert !Above({}, i); }
      assert Shr({}) == {};
      NumberOfNothing(n - 1);
    }
  }

  lemma OneByteIsShifted(b: byte, k: nat)
    requires Digits(b) == {k}
    ensures Checksum([b]) == Shifts({k}, 8)
  {
    NothingFed();
    hide *;
    ChecksumSnoc([], b);
    ByteIsEightBits(ZERO, b) by { NothingFits(); }
    assert [] + [b] == [b];
    assert Xor(ZERO, {k}) == {k} by { NothingXor({k}); }
  }

  lemma NothingFits()
    ensures Fits(ZERO, 16)
  {
  }

  lemma NothingXor(w: Word)
    ensures Xor(ZERO, w) == w
  {
  }

  lemma NumberOfReflected(w: Word, n: nat)
    requires w == REFLECTED && n == 16
    ensures NumberOf(w, n) == 1 + 2 * (Pow2(12) + Pow2(14))
  {
    forall i: nat ensures i in Shr(w) <==> i == 12 || i == 14 { assert Above(w, i) <==> i + 1 == 13 || i + 1 == 15 || i + 1 == 0; }
    assert Shr(w) == {12, 14};
    assert NumberOf(w, n) == 1 + 2 * NumberOf(Shr(w), n - 1);
    hide NumberOf, Pow2, Shr;
    NumberOfTwoBits(12, 14, n - 1);
  }

  lemma Powers()
    ensures Pow2(7) == 0x80 && Pow2(12) == 4096 && Pow2(14) == 16384
  {
    assert Pow2(4) == 16 && Pow2(7) == 8 * Pow2(4) && Pow2(8) == 16 * Pow2(4);
    assert Pow2(12) == 16 * Pow2(8) && Pow2(14) == 4 * Pow2(12);
  }

  /** The checksum of the byte 0x80, whose one bit is the last to enter, is the reflected generator. */
  lemma {:induction false} KnownChecksum()
    ensures NumberOf(Checksum([0x80]), 16) == 0xA001
  {
    Powers();
    hide *;
    DigitOfPower(7);
    OneByteIsShifted(0x80, 7);
    BitShiftsOut(7);
    NumberOfReflected(Checksum([0x80]), 16);
  }

  // ---------- linearity ----------

  function XorBits(a: seq<bool>, b: seq<bool>): (r: seq<bool>)
    requires |a| == |b|
    ensures |r| == |a|
  {
    seq(|a|, i requires 0 <= i < |a| => a[i] != b[i])
  }

  lemma FeedLinear(c: Word, d: Word, p: bool, q: bool)
    ensures Feed(Xor(c, d), p != q) == Xor(Feed(c, p), Feed(d, q))
  {
    var a := if p then Xor(c, {0}) else c;
    var b := if q then Xor(d, {0}) else d;
    assert (if p != q then Xor(Xor(c, d), {0}) else Xor(c, d)) == Xor(a, b);
    assert Shr(Xor(a, b)) == Xor(Shr(a), Shr(b));
  }

  lemma FoldLinear(c: Word, d: Word, a: seq<bool>, b: seq<bool>)
    requires |a| == |b|
    ensures Fold(Xor(c, d), XorBits(a, b)) == Xor(Fold(c, a), Fold(d, b))
    decreases |a|
  {
    if a != [] {
      FeedLinear(c, d, a[0], b[0]);
      FoldLinear(Feed(c, a[0]), Feed(d, b[0]), a[1..], b[1..]);
      assert XorBits(a, b)[1..] == XorBits(a[1..], b[1..]);
    }
  }

  /** The checksum of a difference is the difference of the checksums. */
  lemma {:induction false} ChecksumIsXorLinear(a: seq<byte>, b: seq<byte>)
    requires |a| == |b|
    ensures Fold(ZERO, XorBits(Bits(a), Bits(b))) == Xor(Checksum(a), Checksum(b))
  {
    assert Xor(ZERO, ZERO) == ZERO;
    FoldLinear(ZERO, ZERO, Bits(a), Bits(b));
  }

  // ---------- appending the checksum ----------

  lemma ZeroBitsKeepZero(n: nat)
    ensures Shifts(ZERO, n) == ZERO
  {
    assert Shr(ZERO) == ZERO;
    if n > 0 { ZeroBitsKeepZero(n - 1); }
  }

  lemma FeedingTheRegisterItself(c: Word, n: nat)
    requires n <= 16 && Fits(c, n)
    ensures Fold(c, LowBits(c, n)) == ZERO
  {
    WordIsItsBits(c, c, n);
    assert Xor(c, c) == ZERO;
    ZeroBitsKeepZero(n);
  }

  /** A message followed by its own checksum, low byte first, has checksum zero. */
  lemma AppendedChecksumCancels(data: seq<byte>, lo: byte, hi: byte)
    requires lo + 256 * hi == NumberOf(Checksum(data), 16)
    ensures Checksum(data + [lo, hi]) == ZERO
  {
    hide *;
    var c := Checksum(data);
    ChecksumFits(data);
    FeedingTheRegisterItself(c, 16);
    TwoBytes(c, lo, hi);
    FoldConcat(c, LowBits(Digits(lo), 8), LowBits(Digits(hi), 8));
    ChecksumSnoc(data, lo);
    ChecksumSnoc(data + [lo], hi);
    assert data + [lo, hi] == data + [lo] + [hi];
  }

  lemma {:induction false} TwoBytes(c: Word, lo: byte, hi: byte)
    requires Fits(c, 16) && lo + 256 * hi == NumberOf(c, 16)
    ensures LowBits(c, 16) == LowBits(Digits(lo), 8) + LowBits(Digits(hi), 8)
  {
    hide *;
    DigitsOfNumber(c, 16);
    Pow2Table();
    SixteenBits(c, lo, hi, lo + 256 * hi, 256 * hi);
  }

  lemma {:induction false} SixteenBits(c: Word, lo: nat, hi: nat, v: nat, shifted: nat)
    requires v == lo + shifted && c == Digits(v) && lo < Pow2(8) && shifted == Pow2(8) * hi
    ensures LowBits(c, 16) == LowBits(Digits(lo), 8) + LowBits(Digits(hi), 8)
  {
    hide Digits, Pow2;
    DigitsOfSum(lo, hi, 8, shifted, v);
    var a, b := LowBits(Digits(lo), 8), LowBits(Digits(hi), 8);
    forall i | 0 <= i < 16 ensures LowBits(c, 16)[i] == (a + b)[i] {
      assert LowBits(c, 16)[i] <==> i in c;
      if i < 8 { assert a[i] <==> i in Digits(lo); } else { assert b[i - 8] <==> i - 8 in Digits(hi); }
    }
  }

  lemma {:induction false} DigitsOfSum(lo: nat, hi: nat, k: nat, shifted: nat, v: nat)
    requires lo < Pow2(k) && shifted == Pow2(k) * hi && v == lo + shifted
    ensures forall i: nat :: i in Digits(v) <==> if i < k then i in Digits(lo) else i - k in Digits(hi)
    decreases k
  {
    hide Digits;
    if k > 0 {
      var half := Pow2(k - 1) * hi;
      Doubled(Pow2(k - 1), hi);
      var h := lo / 2 + half;
      DigitsOfSum(lo / 2, hi, k - 1, half, h);
      DigitsOfDouble(lo, hi, k, v, h);
    }
  }

  lemma Doubled(a: nat, b: nat)
    ensures (2 * a) * b == 2 * (a * b)
  {
  }

  lemma DigitsOfDouble(lo: nat, hi: nat, k: nat, v: nat, h: nat)
    requires k > 0 && v / 2 == h && v % 2 == lo % 2
    requires forall i: nat :: i in Digits(h) <==> if i < k - 1 then i in Digits(lo / 2) else i - (k - 1) in Digits(hi)
    ensures forall i: nat :: i in Digits(v) <==> if i < k then i in Digits(lo) else i - k in Digits(hi)
  {
    hide Digits;
    DigitsStep(v);
    DigitsStep(lo);
    forall i: nat ensures i in Digits(v) <==> if i < k then i in Digits(lo) else i - k in Digits(hi) {
      if i > 0 {
        assert Above(Digits(v), i - 1) <==> i - 1 in Digits(h);
        assert Above(Digits(lo), i - 1) <==> i - 1 in Digits(lo / 2);
        assert i - 1 in Digits(h) <==> if i - 1 < k - 1 then i - 1 in Digits(lo / 2) else i - 1 - (k - 1) in Digits(hi);
      }
    }
  }

  // ---------- long division ----------

  type Poly = set<nat>

  /** Multiplication by x^k. */
  function Times(a: Poly, k: nat): Poly { set e | e in a :: e + k }

  /** Multiplication by the generator x^16 + x^15 + x^2 + 1. */
  function TimesG(q: Poly): Poly {
    Xor(Xor(Times(q, 16), Times(q, 15)), Xor(Times(q, 2), q))
  }

  /** The message as a polynomial, first bit highest. */
  function Message(bits: seq<bool>): Poly {
    set i | 0 <= i < |bits| && bits[i] :: |bits| - 1 - i
  }

  predicate HasMirror(c: Word, e: nat) { e < 16 && 15 - e in c }

  /** The register as a polynomial. */
  function Register(c: Word): Poly {
    set e: nat | e < 16 && HasMirror(c, e)
  }

  /** The quotient of the long division the register carries out. */
  function Quotient(bits: seq<bool>): Poly {
    if bits == [] then {}
    else
      var front, bit := bits[..|bits| - 1], bits[|bits| - 1];
      Times(Quotient(front), 1) + (if (0 in Fold(ZERO, front)) != bit then {0} else {})
  }

  lemma InTimes(a: Poly, k: nat, e: nat)
    ensures e in Times(a, k) <==> e >= k && e - k in a
  {
    if e >= k && e - k in a { assert (e - k) + k in Times(a, k); }
  }

  /** The coefficient of x^e, for any integer e. */
  predicate Has(q: Poly, e: int) { e >= 0 && e in q }

  predicate MultipleHas(q: Poly, e: int) {
    (Has(q, e - 16) != Has(q, e - 15)) != (Has(q, e - 2) != Has(q, e))
  }

  lemma InTimesG(q: Poly, e: nat)
    ensures e in TimesG(q) <==> MultipleHas(q, e)
  {
    InTimes(q, 16, e);
    InTimes(q, 15, e);
    InTimes(q, 2, e);
  }

  lemma InMessageSnoc(front: seq<bool>, bit: bool, e: nat)
    ensures e in Message(front + [bit]) <==> if e == 0 then bit else e - 1 in Message(front)
  {
    var bits := front + [bit];
    if e < |bits| {
      var i := |bits| - 1 - e;
      assert e in Message(bits) <==> bits[i];
      if e > 0 { assert e - 1 in Message(front) <==> front[i]; }
    }
  }

  lemma InRegisterOfFeed(c: Word, bit: bool, e: nat)
    requires Fits(c, 16)
    ensures var top := (0 in c) != bit;
            e in Register(Feed(c, bit)) <==>
              e < 16 && ((e > 0 && e - 1 in Register(c)) != (top && (e == 0 || e == 2 || e == 15)))
  {
    var d := if bit then Xor(c, {0}) else c;
    if e < 16 {
      assert HasMirror(Feed(c, bit), e) <==> 15 - e in Shift(d);
      assert 15 - e in Shr(d) <==> Above(d, 15 - e);
      if e > 0 { assert HasMirror(c, e - 1) <==> 15 - (e - 1) in c; }
    }
  }

  /** Long division: the message times x^16 is quotient times generator plus register. */
  lemma {:induction false} DivisionIdentity(bits: seq<bool>)
    ensures Times(Message(bits), 16) == Xor(TimesG(Quotient(bits)), Register(Fold(ZERO, bits)))
  {
    if bits == [] {
      assert Message(bits) == {} && Register(ZERO) == {};
    } else {
      var front, bit := bits[..|bits| - 1], bits[|bits| - 1];
      assert bits == front + [bit];
      DivisionIdentity(front);
      FoldFits(ZERO, front);
      FoldConcat(ZERO, front, [bit]);
      forall e: nat
        ensures e in Times(Message(bits), 16) <==> e in Xor(TimesG(Quotient(bits)), Register(Fold(ZERO, bits)))
      {
        DivisionStepAt(front, bit, e);
      }
    }
  }

  lemma {:induction false} DivisionStepAt(front: seq<bool>, bit: bool, e: nat)
    requires Times(Message(front), 16) == Xor(TimesG(Quotient(front)), Register(Fold(ZERO, front)))
    requires Fits(Fold(ZERO, front), 16)
    ensures var bits := front + [bit];
            e in Times(Message(bits), 16) <==>
              (e in TimesG(Quotient(bits))) != (e in Register(Feed(Fold(ZERO, front), bit)))
  {
    hide *;
    var bits := front + [bit];
    var c, p, q := Fold(ZERO, front), Quotient(front), Quotient(bits);
    var top := (0 in c) != bit;
    QuotientSnoc(front, bit);
    MultipleStep(p, q, top, e);
    InTimesG(q, e);
    InTimes(Message(bits), 16, e);
    InRegisterOfFeed(c, bit, e);
    if e >= 16 { InMessageSnoc(front, bit, e - 16); }
    NoNegativeTerms(p);
    TopOfRegister(c);
    if e >= 1 {
      InTimes(Message(front), 16, e - 1);
      InTimesG(p, e - 1);
      InXor(TimesG(p), Register(c), e - 1);
    }
  }

  lemma QuotientSnoc(front: seq<bool>, bit: bool)
    ensures Quotient(front + [bit])
         == Times(Quotient(front), 1) + (if (0 in Fold(ZERO, front)) != bit then {0} else {})
  {
    assert (front + [bit])[..|front + [bit]| - 1] == front;
  }

  lemma NoNegativeTerms(q: Poly)
    ensures !MultipleHas(q, -1)
  {
  }

  lemma TopOfRegister(c: Word)
    requires Fits(c, 16)
    ensures forall e :: e in Register(c) ==> e < 16
    ensures 15 in Register(c) <==> 0 in c
  {
    assert HasMirror(c, 15) <==> 15 in Register(c);
  }

  lemma InXor(a: Poly, b: Poly, e: nat)
    ensures e in Xor(a, b) <==> (e in a) != (e in b)
  {
  }

  lemma MultipleStep(p: Poly, q: Poly, top: bool, e: nat)
    requires q == Times(p, 1) + (if top then {0} else {})
    ensures MultipleHas(q, e) <==> MultipleHas(p, e - 1) != (top && (e == 0 || e == 2 || e == 15 || e == 16))
  {
    QuotientHas(p, q, top, e);
    QuotientHas(p, q, top, e - 2);
    QuotientHas(p, q, top, e - 15);
    QuotientHas(p, q, top, e - 16);
  }

  lemma QuotientHas(p: Poly, q: Poly, top: bool, j: int)
    requires q == Times(p, 1) + (if top then {0} else {})
    ensures Has(q, j) <==> Has(p, j - 1) != (j == 0 && top)
  {
    if j >= 0 { InTimes(p, 1, j); }
  }

  // ---------- the remainder is unique, and short bursts have one ----------

  lemma {:induction false} TimesGLinear(a: Poly, b: Poly)
    ensures TimesG(Xor(a, b)) == Xor(TimesG(a), TimesG(b))
  {
    forall e: nat ensures e in TimesG(Xor(a, b)) <==> e in Xor(TimesG(a), TimesG(b)) {
      InTimesG(Xor(a, b), e);
      InTimesG(a, e);
      InTimesG(b, e);
    }
  }

  lemma HasGreatest(q: Poly) returns (m: nat)
    requires q != {}
    ensures m in q && forall e :: e in q ==> e <= m
  {
    var first :| first in q;
    m := first;
    if e :| e in q && e > first {
      var rest := q - {first};
      assert e in rest;
      m := HasGreatest(rest);
      forall x | x in q ensures x >= m ==> x == m {
        assert x == first || x in rest;
      }
    }
  }

  lemma HasLeast(q: Poly) returns (m: nat)
    requires q != {}
    ensures m in q && forall e :: e in q ==> m <= e
  {
    var first :| first in q;
    m := first;
    if e :| e in q && e < first {
      var rest := q - {first};
      assert e in rest;
      m := HasLeast(rest);
      forall x | x in q ensures x <= m ==> x == m {
        assert x == first || x in rest;
      }
    }
  }

  /** A nonzero multiple of the generator spans more than sixteen exponents. */
  lemma MultiplesAreWide(q: Poly)
    requires q != {}
    ensures exists lo, hi :: lo in TimesG(q) && hi in TimesG(q) && hi >= lo + 16
  {
    var lo := HasLeast(q);
    var hi := HasGreatest(q);
    InTimesG(q, lo);
    InTimesG(q, hi + 16);
    assert lo in TimesG(q) && hi + 16 in TimesG(q);
  }

  /** The checksum is the remainder of the message times x^16: no other polynomial of degree below 16 is. */
  lemma ChecksumIsTheRemainder(data: seq<byte>, r: Poly)
    ensures (exists q :: Fits(r, 16) && Times(Message(Bits(data)), 16) == Xor(TimesG(q), r)) <==> r == Register(Checksum(data))
  {
    var m, c := Times(Message(Bits(data)), 16), Register(Checksum(data));
    var p := Quotient(Bits(data));
    DivisionIdentity(Bits(data));
    assert Fits(c, 16) && m == Xor(TimesG(p), c);
    forall q | Fits(r, 16) && m == Xor(TimesG(q), r) ensures r == c {
      TimesGLinear(p, q);
      assert TimesG(Xor(p, q)) == Xor(r, c);
      if Xor(p, q) != {} { MultiplesAreWide(Xor(p, q)); }
      assert TimesG(Xor(p, q)) == {};
      assert forall e :: e in r <==> e in c;
    }
  }

  /** Two bit strings agree outside the sixteen positions from i on. */
  predicate DifferInBurst(a: seq<bool>, b: seq<bool>, i: nat) {
    && |a| == |b| && a != b
    && forall j | 0 <= j < |a| :: a[j] != b[j] ==> i <= j < i + 16
  }

  /** Messages of equal length that differ within sixteen consecutive bits have different checksums. */
  lemma BurstsAreDetected(a: seq<byte>, b: seq<byte>, i: nat)
    requires DifferInBurst(Bits(a), Bits(b), i)
    ensures Checksum(a) != Checksum(b)
  {
    var x, y := Bits(a), Bits(b);
    if Checksum(a) == Checksum(b) {
      var q := SharedQuotient(x, y);
      var j :| 0 <= j < |x| && x[j] != y[j];
      var e: nat := |x| - 1 - j + 16;
      BurstExponents(x, y, e);
      InTimesG(q, e);
      assert q != {};
      MultiplesAreWide(q);
      var lo, hi :| lo in TimesG(q) && hi in TimesG(q) && hi >= lo + 16;
      BurstExponents(x, y, lo);
      BurstExponents(x, y, hi);
    }
  }

  lemma SharedQuotient(x: seq<bool>, y: seq<bool>) returns (q: Poly)
    requires Fold(ZERO, x) == Fold(ZERO, y)
    ensures TimesG(q) == Xor(Times(Message(x), 16), Times(Message(y), 16))
  {
    DivisionIdentity(x);
    DivisionIdentity(y);
    q := Xor(Quotient(x), Quotient(y));
    TimesGLinear(Quotient(x), Quotient(y));
    XorCancels(TimesG(Quotient(x)), TimesG(Quotient(y)), Register(Fold(ZERO, x)));
  }

  lemma XorCancels(a: Poly, b: Poly, r: Poly)
    ensures Xor(Xor(a, r), Xor(b, r)) == Xor(a, b)
  {
  }

  /** Where two bit strings differ, as exponents. */
  lemma BurstExponents(x: seq<bool>, y: seq<bool>, e: nat)
    requires |x| == |y|
    ensures e in Xor(Times(Message(x), 16), Times(Message(y), 16)) <==>
              e >= 16 && e - 16 < |x| && x[|x| - 1 - (e - 16)] != y[|x| - 1 - (e - 16)]
  {
    InTimes(Message(x), 16, e);
    InTimes(Message(y), 16, e);
    if 16 <= e < 16 + |x| {
      InMessage(x, e - 16);
      InMessage(y, e - 16);
    }
  }

  lemma InMessage(x: seq<bool>, e: nat)
    requires e < |x|
    ensures e in Message(x) <==> x[|x| - 1 - e]
  {
    var i := |x| - 1 - e;
    assert e == |x| - 1 - i;
  }
}
