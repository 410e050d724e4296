/** The packed bitmap of Kernel/Library/Bitset.hpp: a fixed number of bits in an array of words,
    changed in place, and searched for one bit or for a run of bits. */
module Bitsets {
  import opened Words

  /** `SIZE_MAX`, returned by a search that finds nothing. */
  const NPOS: nat := 0xFFFF_FFFF

  /** Bit `pos` of a row of words. */
  predicate BitAt(words: seq<Word>, pos: nat)
    requires pos < 32 * |words|
  {
    Bit(words[pos / 32], pos % 32)
  }

  /** Bits i, i+1, ..., i+count-1 are all clear. */
  predicate ClearRun(bits: seq<bool>, i: nat, count: nat)
    requires i + count <= |bits|
  {
    forall p :: i <= p < i + count ==> !bits[p]
  }

  /** Bits i, i+1, ..., i+count-1 are all set, which the documentation asks of a search for set bits. */
  predicate SetRun(bits: seq<bool>, i: nat, count: nat)
    requires i + count <= |bits|
  {
    forall p :: i <= p < i + count ==> bits[p]
  }

  /** What the search accepts at position i: the masked window, read as a number, equals `isSet`. */
  predicate Accepts(bits: seq<bool>, i: nat, count: nat, isSet: bool)
    requires i + count <= |bits|
  {
    if isSet then count > 0 && forall p :: i <= p < i + count ==> (bits[p] <==> p == i)
    else ClearRun(bits, i, count)
  }

  /** The two-word window at position i: the word holding bit i shifted down, joined with the next
      word shifted up. `beyond` is whatever memory holds after the last word. */
  function Window(words: seq<Word>, i: nat, beyond: Word): Word
    requires i < 32 * |words|
  {
    var idx, offset := i / 32, i % 32;
    var next := if idx + 1 < |words| then words[idx + 1] else beyond;
    WordOr(Shr(words[idx], offset), if offset != 0 then Shl(next, 32 - offset) else 0);
    Or(Shr(words[idx], offset), if offset != 0 then Shl(next, 32 - offset) else 0)
  }

  /** Bit p of the window is bit i + p of the bitmap, also across a word boundary, as long as that
      bit exists: the memory beyond the last word never shows. */
  lemma WindowBit(words: seq<Word>, i: nat, p: nat, beyond: Word)
    requires i + p < 32 * |words| && p < 32
    ensures Bit(Window(words, i, beyond), p) <==> BitAt(words, i + p)
  {
    var idx, offset := i / 32, i % 32;
    var low := Shr(words[idx], offset);
    var next := if idx + 1 < |words| then words[idx + 1] else beyond;
    BitShr(words[idx], offset, p);
    if offset == 0 {
      BitOr(low, 0, p);
      BitZero(p);
    } else {
      BitOr(low, Shl(next, 32 - offset), p);
      BitShl(next, 32 - offset, p);
      if offset + p < 32 {
        assert (i + p) / 32 == idx && (i + p) % 32 == offset + p;
      } else {
        WordPowers();
        BitTop(words[idx], 32, offset + p);
        assert (i + p) / 32 == idx + 1 && (i + p) % 32 == offset + p - 32;
      }
    }
  }

  /** The masked window equals `isSet` exactly when the bit-by-bit test accepts position i. */
  lemma WindowAccepts(words: seq<Word>, bits: seq<bool>, i: nat, count: nat, isSet: bool, beyond: Word)
    requires |bits| <= 32 * |words| && i < |bits|
    requires forall p :: 0 <= p < |bits| ==> bits[p] == BitAt(words, p)
    requires count < 32 && i + count <= |bits|
    ensures And(Window(words, i, beyond), Mask(count)) == (if isSet then 1 else 0) <==> Accepts(bits, i, count, isSet)
  {
    var check := Window(words, i, beyond);
    forall p: nat | p < count
      ensures Bit(check, p) <==> bits[i + p]
    {
      WindowBit(words, i, p, beyond);
    }
    if isSet {
      MaskedOne(check, count);
      assert LowOne(check, count) <==> Accepts(bits, i, count, isSet) by {
        if LowOne(check, count) {
          forall q | i <= q < i + count
            ensures bits[q] <==> q == i
          {
            assert Bit(check, q - i) <==> bits[i + (q - i)];
          }
        }
        if Accepts(bits, i, count, isSet) {
          assert forall p: nat | p < count :: Bit(check, p) <==> bits[i + p];
        }
      }
    } else {
      MaskedZero(check, count);
      assert LowClear(check, count) <==> ClearRun(bits, i, count) by {
        if LowClear(check, count) {
          forall q | i <= q < i + count
            ensures !bits[q]
          {
            assert Bit(check, q - i) <==> bits[i + (q - i)];
          }
        }
        if ClearRun(bits, i, count) {
          assert forall p: nat | p < count :: Bit(check, p) <==> bits[i + p];
        }
      }
    }
  }

  /** The documentation promises a run of `count` set bits when `isSet` is true. The comparison
      against the number one delivers that for every bitmap and position exactly for count 1. */
  lemma SetSearchMeetsItsDocumentation(count: nat)
    ensures (forall bits: seq<bool>, i: nat | i + count <= |bits| :: Accepts(bits, i, count, true) <==> SetRun(bits, i, count))
       <==> count == 1
  {
    var ones := seq(count, _ => true);
    assert 0 + count <= |ones|;
    assert SetRun(ones, 0, count);
    if count > 1 {
      assert ones[1];
      assert !Accepts(ones, 0, count, true);
    } else if count == 0 {
      assert !Accepts(ones, 0, count, true);
    } else {
      forall bits: seq<bool>, i: nat | i + 1 <= |bits|
        ensures Accepts(bits, i, 1, true) <==> SetRun(bits, i, 1)
      {
      }
    }
  }

  class Bitset {
    const size: nat
    const words: array<Word>

    ghost predicate Valid() {
      size <= 32 * words.Length && size < NPOS
    }

    /** The bitmap as the caller sees it. */
    ghost function Bits(): (bits: seq<bool>)
      requires Valid()
      reads words
      ensures |bits| == size
      ensures forall p :: 0 <= p < size ==> bits[p] == BitAt(words[..], p)
    {
      seq(size, p requires 0 <= p < size reads words => BitAt(words[..], p))
    }

    /** The array holds size / 32 words, so a size that is not a whole number of words would leave
        bits without storage. */
    constructor (numBits: nat, defaultValue: bool)
      requires numBits % 32 == 0 && numBits < NPOS
      ensures Valid() && fresh(words) && size == numBits
      ensures forall p :: 0 <= p < size ==> Bits()[p] == defaultValue
    {
      size := numBits;
      words := new Word[numBits / 32](_ => 0);
      new;
      for i := 0 to words.Length
        invariant forall k :: 0 <= k < i ==> words[k] == if defaultValue then WORD_MAX else 0
      {
        words[i] := if defaultValue then WORD_MAX else 0;
      }
      forall p | 0 <= p < size
        ensures BitAt(words[..], p) == defaultValue
      {
        BitZero(p % 32);
        BitNot(0, p % 32);
      }
    }

    method Set(pos: nat)
      requires Valid() && pos < size
      modifies words
      ensures Bits() == old(Bits())[pos := true]
    {
      WordOr(words[pos / 32], Shl(1, pos % 32));
      words[pos / 32] := Or(words[pos / 32], Shl(1, pos % 32));
      forall p | 0 <= p < size
        ensures BitAt(words[..], p) == (p == pos || old(BitAt(words[..], p)))
      {
        if p / 32 == pos / 32 {
          SetOneBit(old(words[pos / 32]), pos % 32, p % 32);
        }
      }
    }

    method Clear(pos: nat)
      requires Valid() && pos < size
      modifies words
      ensures Bits() == old(Bits())[pos := false]
    {
      words[pos / 32] := And(words[pos / 32], Not(Shl(1, pos % 32)));
      forall p | 0 <= p < size
        ensures BitAt(words[..], p) == (p != pos && old(BitAt(words[..], p)))
      {
        if p / 32 == pos / 32 {
          ClearOneBit(old(words[pos / 32]), pos % 32, p % 32);
        }
      }
    }

    method Test(pos: nat) returns (r: bool)
      requires Valid() && pos < size
      ensures r == Bits()[pos]
    {
      BitShr(words[pos / 32], pos % 32, 0);
      r := Shr(words[pos / 32], pos % 32) % 2 == 1;
    }

    method FindFirstBit(isSet: bool) returns (r: nat)
      requires Valid()
      ensures r < size ==> Bits()[r] == isSet && forall j :: 0 <= j < r ==> Bits()[j] != isSet
      ensures r >= size ==> r == NPOS && forall j :: 0 <= j < size ==> Bits()[j] != isSet
    {
      for i := 0 to size
        invariant forall j :: 0 <= j < i ==> Bits()[j] != isSet
      {
        var b := Test(i);
        if b == isSet {
          return i;
        }
      }
      return NPOS;
    }

    /** The loop stops short of position size - count, so a run ending at the last bit is never
        reported. A count of 32 or more would shift by the whole word. */
    method FindFirstRange(count: nat, isSet: bool, beyond: Word) returns (r: nat)
      requires Valid() && count < 32 && count <= size
      ensures r < size - count ==> Accepts(Bits(), r, count, isSet)
      ensures r < size - count ==> forall j :: 0 <= j < r ==> !Accepts(Bits(), j, count, isSet)
      ensures r >= size - count ==> r == NPOS && forall j :: 0 <= j < size - count ==> !Accepts(Bits(), j, count, isSet)
    {
      var mask := Mask(count);
      ghost var bits := Bits();
      var i := 0;
      while i < size - count
        invariant i <= size - count
        invariant forall j :: 0 <= j < i ==> !Accepts(bits, j, count, isSet)
      {
        var idx, offset := i / 32, i % 32;
        var checkLow := Shr(words[idx], offset);
        var next := if idx + 1 < words.Length then words[idx + 1] else beyond;
        var checkHigh := if offset != 0 then Shl(next, 32 - offset) else 0;
        var check := Or(checkLow, checkHigh);
        assert check == Window(words[..], i, beyond);
        WindowAccepts(words[..], bits, i, count, isSet, beyond);
        if And(check, mask) == if isSet then 1 else 0 {
          return i;
        }
        i := i + 1;
      }
      return NPOS;
    }
  }
}
