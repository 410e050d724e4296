/** The machine word of Bitset.hpp (`size_t` on i686) as a natural number below 2^32, with the
    bitwise operators the bitmap uses, each given digit by digit in base two. */
module Words {

  type Word = w: nat | w < 0x1_0000_0000

  const WORD_MAX: Word := 0xFFFF_FFFF

  function Pow2(n: nat): (r: nat)
    ensures r >= 1
  {
    if n == 0 then 1 else 2 * Pow2(n - 1)
  }

  lemma {:induction false} PowPlus(j: nat, k: nat)
    ensures Pow2(j + k) == Pow2(j) * Pow2(k)
  {
    if j > 0 {
      PowPlus(j - 1, k);
    }
  }

  lemma WordPowers()
    ensures Pow2(31) == 0x8000_0000 && Pow2(32) == 0x1_0000_0000
  {
    assert Pow2(4) == 16;
    PowPlus(4, 4);
    PowPlus(8, 8);
    PowPlus(16, 16);
  }

  /** Bit k, least significant first: `w >> k & 1`. */
  predicate Bit(w: nat, k: nat) {
    if k == 0 then w % 2 == 1 else Bit(w / 2, k - 1)
  }

  /** `w >> k` */
  function Shr(w: nat, k: nat): (r: nat)
    ensures r <= w
    decreases k
  {
    if k == 0 then w else Shr(w / 2, k - 1)
  }

  /** `w << 1`, which drops what leaves the word. */
  function Double(w: Word): Word {
    if 2 * w > WORD_MAX then 2 * w - 0x1_0000_0000 else 2 * w
  }

  /** `w << k` */
  function Shl(w: Word, k: nat): Word
    decreases k
  {
    if k == 0 then w else Shl(Double(w), k - 1)
  }

  /** `x | y` */
  function Or(x: nat, y: nat): nat
    decreases x + y
  {
    if x == 0 && y == 0 then 0
    else 2 * Or(x / 2, y / 2) + if x % 2 == 1 || y % 2 == 1 then 1 else 0
  }

  /** `x & y` */
  function And(x: nat, y: nat): (r: nat)
    ensures r <= x
  {
    if x == 0 then 0
    else 2 * And(x / 2, y / 2) + if x % 2 == 1 && y % 2 == 1 then 1 else 0
  }

  /** `~w` */
  function Not(w: Word): Word {
    WORD_MAX - w
  }

  lemma {:induction false} BitZero(k: nat)
    ensures !Bit(0, k)
  {
    if k > 0 {
      BitZero(k - 1);
    }
  }

  lemma {:induction false} BitShr(w: nat, j: nat, k: nat)
    ensures Bit(Shr(w, j), k) <==> Bit(w, j + k)
  {
    if j > 0 {
      BitShr(w / 2, j - 1, k);
    }
  }

  lemma {:induction false} BitOr(x: nat, y: nat, k: nat)
    ensures Bit(Or(x, y), k) <==> Bit(x, k) || Bit(y, k)
  {
    if x == 0 && y == 0 {
      BitZero(k);
    } else if k > 0 {
      BitOr(x / 2, y / 2, k - 1);
    }
  }

  lemma {:induction false} BitAnd(x: nat, y: nat, k: nat)
    ensures Bit(And(x, y), k) <==> Bit(x, k) && Bit(y, k)
  {
    if x == 0 {
      BitZero(k);
    } else if k > 0 {
      BitAnd(x / 2, y / 2, k - 1);
    }
  }

  lemma {:induction false} OrBound(x: nat, y: nat, n: nat)
    requires x < Pow2(n) && y < Pow2(n)
    ensures Or(x, y) < Pow2(n)
  {
    if n > 0 {
      OrBound(x / 2, y / 2, n - 1);
    }
  }

  lemma WordOr(x: Word, y: Word)
    ensures Or(x, y) <= WORD_MAX
  {
    WordPowers();
    OrBound(x, y, 32);
  }

  lemma {:induction false} BitTop(w: nat, n: nat, k: nat)
    requires w < Pow2(n) && n <= k
    ensures !Bit(w, k)
  {
    if n == 0 {
      BitZero(k);
    } else {
      BitTop(w / 2, n - 1, k - 1);
    }
  }

  /** A number below 2^n whose low n bits are all clear is zero. */
  lemma {:induction false} ZeroBits(w: nat, n: nat)
    requires w < Pow2(n)
    requires forall k :: 0 <= k < n ==> !Bit(w, k)
    ensures w == 0
  {
    if n > 0 {
      forall k | 0 <= k < n - 1
        ensures !Bit(w / 2, k)
      {
        assert !Bit(w, k + 1);
      }
      assert !Bit(w, 0);
      ZeroBits(w / 2, n - 1);
    }
  }

  /** Taking 2^n away from a number that holds it leaves the bits below n alone. */
  lemma {:induction false} BitDropTop(w: nat, n: nat, k: nat)
    requires k < n && Pow2(n) <= w
    ensures Bit(w - Pow2(n), k) <==> Bit(w, k)
  {
    if k > 0 {
      assert (w - Pow2(n)) / 2 == w / 2 - Pow2(n - 1);
      BitDropTop(w / 2, n - 1, k - 1);
    }
  }

  lemma {:induction false} BitShl(w: Word, k: nat, p: nat)
    requires p < 32
    ensures Bit(Shl(w, k), p) <==> p >= k && Bit(w, p - k)
    decreases k
  {
    if k > 0 {
      BitShl(Double(w), k - 1, p);
      if p >= k - 1 && 2 * w > WORD_MAX {
        WordPowers();
        BitDropTop(2 * w, 32, p - (k - 1));
      }
    }
  }

  lemma SingleBit(o: nat, p: nat)
    requires p < 32
    ensures Bit(Shl(1, o), p) <==> p == o
  {
    BitShl(1, o, p);
    if p > o {
      BitZero(p - o - 1);
    }
  }

  lemma {:induction false} BitComplement(w: nat, n: nat, p: nat)
    requires w < Pow2(n) && p < n
    ensures Bit(Pow2(n) - 1 - w, p) <==> !Bit(w, p)
  {
    if p > 0 {
      BitComplement(w / 2, n - 1, p - 1);
      assert (Pow2(n) - 1 - w) / 2 == Pow2(n - 1) - 1 - w / 2;
    }
  }

  lemma BitNot(w: Word, p: nat)
    requires p < 32
    ensures Bit(Not(w), p) <==> !Bit(w, p)
  {
    WordPowers();
    BitComplement(w, 32, p);
  }

  /** `w | 1 << o` sets bit o and keeps every other bit. */
  lemma SetOneBit(w: Word, o: nat, p: nat)
    requires p < 32
    ensures Bit(Or(w, Shl(1, o)), p) <==> p == o || Bit(w, p)
  {
    BitOr(w, Shl(1, o), p);
    SingleBit(o, p);
  }

  /** `w & ~(1 << o)` clears bit o and keeps every other bit. */
  lemma ClearOneBit(w: Word, o: nat, p: nat)
    requires p < 32
    ensures Bit(And(w, Not(Shl(1, o))), p) <==> p != o && Bit(w, p)
  {
    BitAnd(w, Not(Shl(1, o)), p);
    BitNot(Shl(1, o), p);
    SingleBit(o, p);
  }

  lemma {:induction false} PowMonotone(j: nat, k: nat)
    requires j <= k
    ensures Pow2(j) <= Pow2(k)
  {
    if j < k {
      PowMonotone(j, k - 1);
    }
  }

  lemma {:induction false} ShlPow(j: nat, k: nat)
    requires j + k < 32
    ensures Pow2(j) <= WORD_MAX && Shl(Pow2(j), k) == Pow2(j + k)
    decreases k
  {
    PowMonotone(j, 31);
    WordPowers();
    if k > 0 {
      PowMonotone(j + 1, 31);
      ShlPow(j + 1, k - 1);
    }
  }

  /** `(1 << count) - 1` */
  function Mask(count: nat): (m: Word)
    requires count < 32
    ensures m == Pow2(count) - 1
  {
    PowMonotone(count, 31);
    WordPowers();
    ShlPow(0, count);
    Shl(1, count) - 1
  }

  /** The mask selects exactly the low `count` bits. */
  lemma MaskBit(count: nat, p: nat)
    requires count < 32
    ensures Bit(Mask(count), p) <==> p < count
  {
    if p < count {
      BitComplement(0, count, p);
      BitZero(p);
    } else {
      BitTop(Mask(count), count, p);
    }
  }

  /** The low `count` bits of `w` are all clear. */
  predicate LowClear(w: nat, count: nat) {
    forall p :: 0 <= p < count ==> !Bit(w, p)
  }

  /** Of the low `count` bits of `w`, bit 0 is the only set one. */
  predicate LowOne(w: nat, count: nat) {
    count > 0 && forall p :: 0 <= p < count ==> (Bit(w, p) <==> p == 0)
  }

  lemma MaskedBit(check: Word, count: nat, p: nat)
    requires count < 32
    ensures Bit(And(check, Mask(count)), p) <==> p < count && Bit(check, p)
  {
    BitAnd(check, Mask(count), p);
    MaskBit(count, p);
  }

  /** `check & mask` is zero exactly when the low `count` bits of `check` are all clear. */
  lemma MaskedZero(check: Word, count: nat)
    requires count < 32
    ensures And(check, Mask(count)) == 0 <==> LowClear(check, count)
  {
    var x := And(check, Mask(count));
    forall p | 0 <= p < 32
      ensures Bit(x, p) <==> p < count && Bit(check, p)
    {
      MaskedBit(check, count, p);
    }
    if LowClear(check, count) {
      WordPowers();
      ZeroBits(x, 32);
    }
    if x == 0 {
      forall p | 0 <= p < count
        ensures !Bit(check, p)
      {
        BitZero(p);
      }
    }
  }

  /** `check & mask` is one exactly when bit 0 is the only set one among the low `count` bits. */
  lemma MaskedOne(check: Word, count: nat)
    requires count < 32
    ensures And(check, Mask(count)) == 1 <==> LowOne(check, count)
  {
    var x := And(check, Mask(count));
    forall p | 0 <= p < 32
      ensures Bit(x, p) <==> p < count && Bit(check, p)
    {
      MaskedBit(check, count, p);
    }
    if LowOne(check, count) {
      forall p | 0 <= p < 31
        ensures !Bit(x / 2, p)
      {
        assert !Bit(x, p + 1);
      }
      WordPowers();
      ZeroBits(x / 2, 31);
      assert Bit(x, 0);
    }
    if x == 1 {
      assert Bit(x, 0);
      forall p | 0 <= p < count
        ensures Bit(check, p) <==> p == 0
      {
        if p > 0 {
          BitZero(p - 1);
          assert !Bit(x, p);
        }
      }
    }
  }
}
