/** The 32 by 32 bit multiplication of the simulated processor (Mult in machine/mipssim.cc). */
module Multiplier {
  import opened Bytes
  import opened BitMaps

  const WORD := 0x1_0000_0000

  /** A double word from its halves. */
  function Double(hi: uint32, lo: uint32): nat {
    hi * WORD + lo
  }

  /** `hi:lo += bHi:bLo`, with the carry out of the low word found by comparing. */
  method Add(hi: uint32, lo: uint32, bHi: uint32, bLo: uint32) returns (h: uint32, l: uint32)
    ensures Double(h, l) == (Double(hi, lo) + Double(bHi, bLo)) % (WORD * WORD)
  {
    l := (lo + bLo) % WORD;
    h := hi;
    if l < bLo {
      h := (h + 1) % WORD;
    }
    h := (h + bHi) % WORD;
    Carry(hi, lo, bHi, bLo, h, l);
  }

  lemma Carry(hi: uint32, lo: uint32, bHi: uint32, bLo: uint32, h: uint32, l: uint32)
    requires l == (lo + bLo) % WORD
    requires h == (if l < bLo then (hi + 1) % WORD + bHi else hi + bHi) % WORD
    ensures Double(h, l) == (Double(hi, lo) + Double(bHi, bLo)) % (WORD * WORD)
  {
    var c := if l < bLo then 1 else 0;
    assert lo + bLo == c * WORD + l;
    var carry := (hi + c + bHi - h) / WORD;
    assert hi + c + bHi == carry * WORD + h;
    assert Double(hi, lo) + Double(bHi, bLo) == carry * (WORD * WORD) + Double(h, l);
  }

  /** `bHi:bLo <<= 1`, a word at a time. */
  method ShiftLeft(bHi: uint32, bLo: uint32) returns (h: uint32, l: uint32)
    ensures Double(h, l) == 2 * Double(bHi, bLo) % (WORD * WORD)
  {
    h := bHi * 2 % WORD;
    if bLo >= 0x8000_0000 {
      h := h + 1;
    }
    l := bLo * 2 % WORD;
    var c := if bLo >= 0x8000_0000 then 1 else 0;
    var d := if bHi >= 0x8000_0000 then 1 else 0;
    assert 2 * Double(bHi, bLo) == d * (WORD * WORD) + Double(h, l);
  }

  /** The two's complement of a double word. */
  method Complement(hi: uint32, lo: uint32) returns (h: uint32, l: uint32)
    ensures Double(h, l) == (WORD * WORD - Double(hi, lo)) % (WORD * WORD)
  {
    h := WORD - 1 - hi;
    l := WORD - 1 - lo;
    l := (l + 1) % WORD;
    if l == 0 {
      h := (h + 1) % WORD;
    }
  }

  /** How `a`, shifted right `i` times keeping its sign, stands for the bits of a word that are still to
      come: `q` is 2 to the number of those. */
  predicate BitsLeft(a: int, left: nat, q: nat, signed: bool) {
    left < q && a == if signed then left - q else left
  }

  lemma NextBit(a: int, left: nat, q: nat, signed: bool)
    requires BitsLeft(a, left, q, signed) && q % 2 == 0
    ensures a % 2 == left % 2
    ensures BitsLeft(a / 2, left / 2, q / 2, signed)
    ensures a == 1 && !signed ==> left == 1
  {
  }

  lemma PowersOf(i: nat)
    requires i < 32
    ensures Pow2(32 - i) == 2 * Pow2(31 - i) && Pow2(i + 1) == 2 * Pow2(i)
  {
  }

  lemma {:induction false} PowersProduct(i: nat)
    requires i <= 32
    ensures Pow2(i) * Pow2(32 - i) == WORD
    decreases i
  {
    if i == 0 {
      WordWidth();
    } else {
      PowersProduct(i - 1);
      var x, y := Pow2(i - 1), Pow2(32 - i);
      assert 2 * x * y == x * (2 * y);
    }
  }

  function Times(x: nat, y: nat): nat {
    x * y
  }

  /** What the loop knows after `i` bits of `total`: `done` of it has been multiplied, `left` is to come. */
  ghost predicate Progress(total: nat, b: nat, i: nat, done: nat, left: nat, sum: nat, shifted: nat) {
    && i <= 32
    && total == done + Times(Pow2(i), left)
    && sum == Times(done, b) && shifted == Times(Pow2(i), b)
  }

  lemma PowerBound(i: nat)
    requires i <= 32
    ensures Pow2(i) <= WORD
  {
    PowersProduct(i);
    Monotone(1, Pow2(32 - i), Pow2(i));
  }

  lemma TimesBound(x: nat, whole: nat, b: nat)
    requires x <= whole <= WORD && b < WORD
    ensures Times(x, b) < WORD * WORD
  {
    ProductBound(x, b);
  }

  lemma ProductBound(x: nat, y: nat)
    requires x <= WORD && y < WORD
    ensures x * y < WORD * WORD
  {
    Monotone(x, WORD, y);
  }

  lemma Monotone(x: nat, z: nat, y: nat)
    requires x <= z
    ensures x * y <= z * y
  {
  }

  lemma Split(p: nat, left: nat, b: nat, done: nat)
    ensures Times(p, left) == Times(2 * p, left / 2) + if left % 2 == 1 then p else 0
    ensures Times(done + p, b) == Times(done, b) + Times(p, b)
    ensures Times(2 * p, b) == 2 * Times(p, b)
  {
  }

  /** A bit that is set is accounted for by adding; no carry is lost. */
  lemma AddBit(total: nat, b: nat, i: nat, done: nat, left: nat, sum: nat, shifted: nat)
    requires Progress(total, b, i, done, left, sum, shifted) && left % 2 == 1 && total < WORD && b < WORD
    ensures sum + shifted < WORD * WORD && sum + shifted == Times(done + Pow2(i), b)
    ensures left == 1 ==> done + Pow2(i) == total
  {
    Split(Pow2(i), left, b, done);
    hide Pow2;
    TimesBound(done + Pow2(i), total, b);
  }

  /** Going on to the next bit. */
  lemma NextPlace(total: nat, b: nat, i: nat, done: nat, left: nat, sum: nat, shifted: nat)
    requires Progress(total, b, i, done, left, sum, shifted) && i < 32 && b < WORD
    ensures 2 * shifted < WORD * WORD
    ensures var d := if left % 2 == 1 then done + Pow2(i) else done;
            Progress(total, b, i + 1, d, left / 2, Times(d, b), 2 * shifted)
  {
    PowersOf(i);
    Split(Pow2(i), left, b, done);
    PowerBound(i + 1);
    hide Pow2;
    TimesBound(Pow2(i + 1), WORD, b);
  }

  /** The shift-and-add loop: for each bit of `a` from the lowest on, `b` shifted accordingly is added if
      the bit is set. `a` keeps its sign while it is shifted, which matters to none of the 32 bits. The
      loop ends early when no bits are left. */
  method Accumulate(first: int32, b: uint32) returns (hi: uint32, lo: uint32)
    ensures Double(hi, lo) == Times(ToUnsigned(first), b)
  {
    hide Pow2, Times, Double;
    var a: int := first;
    var bLo: uint32, bHi: uint32 := b, 0;
    lo, hi := 0, 0;
    ghost var total: nat, done: nat, left: nat := ToUnsigned(first), 0, ToUnsigned(first);
    Beginning(total, b, first);
    for i := 0 to 32
      invariant BitsLeft(a, left, Pow2(32 - i), first < 0)
      invariant Progress(total, b, i, done, left, Double(hi, lo), Double(bHi, bLo))
    {
      PowersOf(i);
      NextBit(a, left, Pow2(32 - i), first < 0);
      NextPlace(total, b, i, done, left, Double(hi, lo), Double(bHi, bLo));
      if a % 2 == 1 {
        AddBit(total, b, i, done, left, Double(hi, lo), Double(bHi, bLo));
        hi, lo := Add(hi, lo, bHi, bLo);
        done := done + Pow2(i);
        if a == 0 || a == 1 {
          assert done == total;
          break;
        }
      }
      bHi, bLo := ShiftLeft(bHi, bLo);
      a := a / 2;
      left := left / 2;
    }
    assert done == total by {
      AtTheEnd(total, done, left);
    }
  }

  lemma Beginning(total: nat, b: uint32, first: int32)
    requires total == ToUnsigned(first)
    ensures BitsLeft(first, total, Pow2(32), first < 0)
    ensures Progress(total, b, 0, 0, total, Double(0, 0), Double(0, b))
  {
    WordWidth();
  }

  lemma AtTheEnd(total: nat, done: nat, left: nat)
    requires done == total || (left < Pow2(0) && total == done + Times(Pow2(32), left))
    ensures done == total
  {
  }

  /** Negation, which leaves the most negative number as it is. */
  function Negate(x: int32): int32 {
    if x == -0x8000_0000 then x else -x
  }

  /** Negating or not, the magnitude ends up in the word as a number without sign. */
  lemma Magnitude(x: int32)
    ensures ToUnsigned(if x < 0 then Negate(x) else x) == if x < 0 then -(x as int) else x
  {
  }

  /** Sign and magnitude of a product. */
  lemma SignedProduct(a: int, b: int)
    ensures a * b == (if (a < 0) != (b < 0) then -1 else 1) * ((if a < 0 then -a else a) * (if b < 0 then -b else b))
  {
  }

  lemma SmallProduct(x: nat, y: nat)
    requires x <= 0x8000_0000 && y <= 0x8000_0000
    ensures x * y <= 0x8000_0000 * 0x8000_0000
  {
    Monotone(x, 0x8000_0000, y);
  }

  /** The number that two registers hold together, the high one being signed. */
  function Signed(hi: int32, lo: int32): int {
    hi * WORD + ToUnsigned(lo)
  }

  function Unsigned(hi: int32, lo: int32): int {
    ToUnsigned(hi) * WORD + ToUnsigned(lo)
  }

  lemma FromDouble(hi: uint32, lo: uint32)
    ensures Unsigned(ToSigned(hi), ToSigned(lo)) == Double(hi, lo)
    ensures Signed(ToSigned(hi), ToSigned(lo)) == if hi < 0x8000_0000 then Double(hi, lo)
              else Double(hi, lo) - WORD * WORD
  {
  }

  /** The registers receive all 64 bits of the product, for all operands, signed or not. */
  method Mult(a: int32, b: int32, signedArith: bool) returns (hi: int32, lo: int32)
    ensures signedArith ==> hi * 0x1_0000_0000 + lo % 0x1_0000_0000 == a * b
    ensures !signedArith ==>
              hi % 0x1_0000_0000 * 0x1_0000_0000 + lo % 0x1_0000_0000 == (a % 0x1_0000_0000) * (b % 0x1_0000_0000)
  {
    if a == 0 || b == 0 {
      return 0, 0;
    }
    var negative, x, y := false, a, b;
    if signedArith {
      if x < 0 {
        negative := !negative;
        x := Negate(x);
      }
      if y < 0 {
        negative := !negative;
        y := Negate(y);
      }
    }
    var h, l := Accumulate(x, ToUnsigned(y));
    ghost var product := Double(h, l);
    if negative {
      h, l := Complement(h, l);
    }
    if signedArith {
      Magnitude(a);
      Magnitude(b);
      Signs(a, b, h, l, product);
    }
    FromDouble(h, l);
    return ToSigned(h), ToSigned(l);
  }

  lemma Signs(a: int32, b: int32, h: uint32, l: uint32, product: nat)
    requires a != 0 && b != 0
    requires product == Times(if a < 0 then -(a as int) else a, if b < 0 then -(b as int) else b)
    requires Double(h, l) == if (a < 0) != (b < 0) then (WORD * WORD - product) % (WORD * WORD) else product
    ensures Signed(ToSigned(h), ToSigned(l)) == a * b
  {
    var x: nat, y: nat := if a < 0 then -(a as int) else a, if b < 0 then -(b as int) else b;
    SignedProduct(a, b);
    SmallProduct(x, y);
    NotZero(x, y);
    FromDouble(h, l);
    TopBit(h, l);
  }

  lemma NotZero(x: nat, y: nat)
    requires x > 0 && y > 0
    ensures x * y > 0
  {
  }

  lemma TopBit(h: uint32, l: uint32)
    ensures h < 0x8000_0000 <==> Double(h, l) < 0x8000_0000 * WORD
  {
  }
}
