/** The word-packed bitmap of userprog/bitmap.cc, seen as a set of bit numbers. */
module BitMaps {
  import opened Sequences
  import opened Bytes

  const BITS_IN_WORD := 32

  function Pow2(k: nat): (r: nat)
    ensures r > 0
  {
    if k == 0 then 1 else 2 * Pow2(k - 1)
  }

  /** Bit `k` of an unsigned word: `w & (1 << k)` is not zero. */
  predicate Bit(w: nat, k: nat) {
    if k == 0 then w % 2 == 1 else Bit(w / 2, k - 1)
  }

  /** The word `w | (1 << k)`. */
  function SetBit(w: nat, k: nat): nat {
    if k == 0 then w / 2 * 2 + 1 else SetBit(w / 2, k - 1) * 2 + w % 2
  }

  /** The word `w & ~(1 << k)`. */
  function ResetBit(w: nat, k: nat): nat {
    if k == 0 then w / 2 * 2 else ResetBit(w / 2, k - 1) * 2 + w % 2
  }

  lemma Digits(q: nat, r: nat)
    requires r < 2
    ensures (q * 2 + r) / 2 == q && (q * 2 + r) % 2 == r
  {
  }

  /** In numbers: setting adds `1 << k` unless the bit is there, resetting takes it away if it is. */
  lemma {:induction false} BitArithmetic(w: nat, k: nat)
    ensures SetBit(w, k) == if Bit(w, k) then w else w + Pow2(k)
    ensures ResetBit(w, k) == if Bit(w, k) then w - Pow2(k) else w
  {
    if k > 0 {
      BitArithmetic(w / 2, k - 1);
    }
  }

  lemma {:induction false} BitWidth(w: nat, k: nat, n: nat)
    requires w < Pow2(n) && k < n
    ensures SetBit(w, k) < Pow2(n) && ResetBit(w, k) < Pow2(n)
    decreases k
  {
    assert Pow2(n) == 2 * Pow2(n - 1) && w / 2 < Pow2(n - 1);
    if k > 0 {
      BitWidth(w / 2, k - 1, n - 1);
    }
  }

  lemma WordWidth()
    ensures Pow2(BITS_IN_WORD) == 0x1_0000_0000
  {
    assert Pow2(8) == 0x100;
    assert Pow2(16) == 0x1_0000;
    assert Pow2(24) == 0x100_0000;
  }

  lemma {:induction false} SetBitAt(w: nat, k: nat, j: nat)
    ensures Bit(SetBit(w, k), j) <==> j == k || Bit(w, j)
    decreases k
  {
    if k == 0 {
      Digits(w / 2, 1);
    } else {
      Digits(SetBit(w / 2, k - 1), w % 2);
      if j > 0 {
        SetBitAt(w / 2, k - 1, j - 1);
      }
    }
  }

  lemma {:induction false} ResetBitAt(w: nat, k: nat, j: nat)
    ensures Bit(ResetBit(w, k), j) <==> j != k && Bit(w, j)
    decreases k
  {
    if k == 0 {
      Digits(w / 2, 0);
    } else {
      Digits(ResetBit(w / 2, k - 1), w % 2);
      if j > 0 {
        ResetBitAt(w / 2, k - 1, j - 1);
      }
    }
  }

  predicate TestBit(words: seq<uint32>, which: int)
    requires 0 <= which < BITS_IN_WORD * |words|
  {
    Bit(words[which / BITS_IN_WORD], which % BITS_IN_WORD)
  }

  /** The numbers below `n` of the bits that are set. */
  ghost function SetBits(words: seq<uint32>, n: nat): set<int>
    requires n <= BITS_IN_WORD * |words|
  {
    set i | 0 <= i < n && TestBit(words, i)
  }

  lemma SetBitsStep(words: seq<uint32>, i: nat)
    requires i < BITS_IN_WORD * |words|
    ensures SetBits(words, i + 1) == if TestBit(words, i) then SetBits(words, i) + {i} else SetBits(words, i)
    ensures i !in SetBits(words, i)
  {
  }

  function MarkBit(words: seq<uint32>, which: int): (r: seq<uint32>)
    requires 0 <= which < BITS_IN_WORD * |words|
    ensures |r| == |words|
  {
    WordWidth();
    BitWidth(words[which / BITS_IN_WORD], which % BITS_IN_WORD, BITS_IN_WORD);
    words[which / BITS_IN_WORD := SetBit(words[which / BITS_IN_WORD], which % BITS_IN_WORD)]
  }

  function ClearBit(words: seq<uint32>, which: int): (r: seq<uint32>)
    requires 0 <= which < BITS_IN_WORD * |words|
    ensures |r| == |words|
  {
    WordWidth();
    BitWidth(words[which / BITS_IN_WORD], which % BITS_IN_WORD, BITS_IN_WORD);
    words[which / BITS_IN_WORD := ResetBit(words[which / BITS_IN_WORD], which % BITS_IN_WORD)]
  }

  /** Setting one bit changes no other bit, in its own word or another. */
  lemma MarkBitAt(words: seq<uint32>, which: int, k: int)
    requires 0 <= which < BITS_IN_WORD * |words| && 0 <= k < BITS_IN_WORD * |words|
    ensures TestBit(MarkBit(words, which), k) <==> k == which || TestBit(words, k)
  {
    SetBitAt(words[which / BITS_IN_WORD], which % BITS_IN_WORD, k % BITS_IN_WORD);
  }

  lemma ClearBitAt(words: seq<uint32>, which: int, k: int)
    requires 0 <= which < BITS_IN_WORD * |words| && 0 <= k < BITS_IN_WORD * |words|
    ensures TestBit(ClearBit(words, which), k) <==> k != which && TestBit(words, k)
  {
    ResetBitAt(words[which / BITS_IN_WORD], which % BITS_IN_WORD, k % BITS_IN_WORD);
  }

  /** Which bit of which word it is: a bit that is marked or cleared is worth that power of two there. */
  lemma BitPlace(words: seq<uint32>, which: nat)
    requires which < 32 * |words|
    ensures var w, p := words[which / 32], Pow2(which % 32);
            && MarkBit(words, which)
               == (if TestBit(words, which) then words else words[..which / 32] + [w + p] + words[which / 32 + 1..])
            && ClearBit(words, which)
               == (if TestBit(words, which) then words[..which / 32] + [w - p] + words[which / 32 + 1..] else words)
  {
    BitArithmetic(words[which / 32], which % 32);
  }

  /** The least number from `i` up to `n` that is not in `marked`, or -1. */
  ghost function FirstClear(marked: set<int>, i: nat, n: nat): (r: int)
    requires i <= n
    ensures r == -1 || i <= r < n
    ensures r != -1 ==> r !in marked && forall k :: i <= k < r ==> k in marked
    ensures r == -1 ==> forall k :: i <= k < n ==> k in marked
    decreases n - i, marked
  {
    if i == n then -1 else if i !in marked then i else FirstClear(marked, i + 1, n)
  }

  /** What `k` successive Finds hand out. */
  ghost function Picks(marked: set<int>, n: nat, k: nat): (s: seq<int>)
    ensures |s| == k
    decreases k, marked
  {
    if k == 0 then []
    else
      var before := Picks(marked, n, k - 1);
      before + [FirstClear(marked + Elements(before), 0, n)]
  }

  ghost function Elements(s: seq<int>): set<int> {
    set x | x in s
  }

  predicate InRange(i: int, n: nat) {
    0 <= i < n
  }

  ghost function Range(n: nat): set<int> {
    set i | 0 <= i < n && InRange(i, n)
  }

  lemma {:induction false} RangeSize(n: nat)
    ensures |Range(n)| == n
  {
    if n > 0 {
      RangeSize(n - 1);
      assert Range(n) == Range(n - 1) + {n - 1};
    }
  }

  lemma SubsetSize(a: set<int>, b: set<int>)
    requires a <= b
    ensures |a| <= |b|
    ensures |a| == |b| ==> a == b
  {
    assert b == a + (b - a);
    assert |b| == |a| + |b - a|;
  }

  lemma FullIffNoneClear(marked: set<int>, n: nat)
    requires marked <= Range(n)
    ensures FirstClear(marked, 0, n) == -1 <==> |marked| == n
  {
    RangeSize(n);
    SubsetSize(marked, Range(n));
    var f := FirstClear(marked, 0, n);
    if f == -1 {
      assert Range(n) <= marked;
      assert marked == Range(n);
    } else {
      assert f in Range(n) && f !in marked;
      assert marked != Range(n);
    }
  }

  lemma ElementsSnoc(s: seq<int>, x: int)
    ensures Elements(s + [x]) == Elements(s) + {x}
  {
  }

  lemma {:induction false} DistinctSize(s: seq<int>)
    requires Distinct(s)
    ensures |Elements(s)| == |s|
    decreases |s|
  {
    if s != [] {
      var t := s[..|s| - 1];
      DistinctSize(t);
      ElementsSnoc(t, s[|s| - 1]);
      assert t + [s[|s| - 1]] == s;
    }
  }

  /** `s` lists numbers below `n` outside `marked` in increasing order, leaving no gap: all that lies
      below its last number is marked or listed. */
  ghost predicate FreshPicks(s: seq<int>, marked: set<int>, n: nat) {
    && (forall i :: 0 <= i < |s| ==> 0 <= s[i] < n && s[i] !in marked)
    && (forall i, j :: 0 <= i < j < |s| ==> s[i] < s[j])
    && (s != [] ==> forall m :: 0 <= m < s[|s| - 1] ==> m in marked || m in s)
  }

  lemma TakenSize(s: seq<int>, marked: set<int>, n: nat)
    requires marked <= Range(n) && FreshPicks(s, marked, n)
    ensures marked + Elements(s) <= Range(n)
    ensures |marked + Elements(s)| == |marked| + |s|
  {
    DistinctSize(s);
    assert marked !! Elements(s);
  }

  lemma FreshPicksSnoc(s: seq<int>, f: int, marked: set<int>, n: nat)
    requires FreshPicks(s, marked, n)
    requires f == FirstClear(marked + Elements(s), 0, n) && 0 <= f
    ensures FreshPicks(s + [f], marked, n)
  {
  }

  lemma NextIsFresh(s: seq<int>, marked: set<int>, n: nat)
    requires marked <= Range(n) && FreshPicks(s, marked, n)
    requires |marked| + |s| < n
    ensures var f := FirstClear(marked + Elements(s), 0, n); 0 <= f && FreshPicks(s + [f], marked, n)
  {
    TakenSize(s, marked, n);
    FullIffNoneClear(marked + Elements(s), n);
    FreshPicksSnoc(s, FirstClear(marked + Elements(s), 0, n), marked, n);
  }

  /** As long as at least `k` bits are clear, `k` Finds return `k` different bits, all clear before,
      smallest first. This is what FileHeader::Allocate relies on after its NumClear test. */
  lemma {:induction false} PicksAreFresh(marked: set<int>, n: nat, k: nat)
    requires marked <= Range(n)
    requires |marked| + k <= n
    ensures FreshPicks(Picks(marked, n, k), marked, n)
    decreases k
  {
    if k == 0 {
      assert Picks(marked, n, 0) == [];
    } else {
      PicksAreFresh(marked, n, k - 1);
      NextIsFresh(Picks(marked, n, k - 1), marked, n);
    }
  }

  /** A Find after `k` others succeeds if it was counted on, and its bit joins the picks. */
  lemma NextPick(marked: set<int>, n: nat, k: nat)
    requires marked <= Range(n) && |marked| + k < n
    ensures var picked := Picks(marked, n, k);
            var s := FirstClear(marked + Elements(picked), 0, n);
            && 0 <= s
            && Picks(marked, n, k + 1) == picked + [s]
            && marked + Elements(picked) + {s} == marked + Elements(picked + [s])
  {
    var picked := Picks(marked, n, k);
    PicksAreFresh(marked, n, k);
    NextIsFresh(picked, marked, n);
    ElementsSnoc(picked, FirstClear(marked + Elements(picked), 0, n));
  }

  class BitMap {
    const numBits: nat
    const words: array<uint32>

    ghost predicate Valid() {
      words.Length == (numBits + BITS_IN_WORD - 1) / BITS_IN_WORD
    }

    ghost function Bits(): (s: set<int>)
      requires Valid()
      reads words
      ensures s <= Range(numBits)
    {
      SetBits(words[..], numBits)
    }

    constructor (nitems: nat)
      ensures Valid() && numBits == nitems && fresh(words)
      ensures Bits() == {}
    {
      numBits := nitems;
      words := new uint32[nitems / BITS_IN_WORD + if nitems % BITS_IN_WORD > 0 then 1 else 0];
      new;
      for i := 0 to numBits
        invariant forall k :: 0 <= k < i ==> !TestBit(words[..], k)
      {
        Clear(i);
      }
    }

    method Mark(which: int)
      requires Valid() && 0 <= which < numBits
      modifies words
      ensures forall k :: 0 <= k < BITS_IN_WORD * words.Length ==>
                TestBit(words[..], k) == (k == which || TestBit(old(words[..]), k))
      ensures Bits() == old(Bits()) + {which}
    {
      ghost var before := words[..];
      WordWidth();
      BitWidth(words[which / BITS_IN_WORD], which % BITS_IN_WORD, BITS_IN_WORD);
      words[which / BITS_IN_WORD] := SetBit(words[which / BITS_IN_WORD], which % BITS_IN_WORD);
      assert words[..] == MarkBit(before, which);
      forall k | 0 <= k < BITS_IN_WORD * |before|
        ensures TestBit(words[..], k) == (k == which || TestBit(before, k))
      {
        MarkBitAt(before, which, k);
      }
    }

    method Clear(which: int)
      requires Valid() && 0 <= which < numBits
      modifies words
      ensures forall k :: 0 <= k < BITS_IN_WORD * words.Length ==>
                TestBit(words[..], k) == (k != which && TestBit(old(words[..]), k))
      ensures Bits() == old(Bits()) - {which}
    {
      ghost var before := words[..];
      WordWidth();
      BitWidth(words[which / BITS_IN_WORD], which % BITS_IN_WORD, BITS_IN_WORD);
      words[which / BITS_IN_WORD] := ResetBit(words[which / BITS_IN_WORD], which % BITS_IN_WORD);
      assert words[..] == ClearBit(before, which);
      forall k | 0 <= k < BITS_IN_WORD * |before|
        ensures TestBit(words[..], k) == (k != which && TestBit(before, k))
      {
        ClearBitAt(before, which, k);
      }
    }

    method Test(which: int) returns (r: bool)
      requires Valid() && 0 <= which < numBits
      ensures r <==> TestBit(words[..], which)
    {
      r := Bit(words[which / BITS_IN_WORD], which % BITS_IN_WORD);
    }

    method Find() returns (r: int)
      requires Valid()
      modifies words
      ensures r == FirstClear(old(Bits()), 0, numBits)
      ensures Bits() == if r == -1 then old(Bits()) else old(Bits()) + {r}
    {
      for i := 0 to numBits
        invariant words[..] == old(words[..])
        invariant FirstClear(Bits(), 0, numBits) == FirstClear(Bits(), i, numBits)
      {
        var t := Test(i);
        assert t <==> i in Bits();
        if !t {
          Mark(i);
          return i;
        }
      }
      return -1;
    }

    method NumClear() returns (count: nat)
      requires Valid()
      ensures count == numBits - |Bits()|
    {
      count := 0;
      for i := 0 to numBits
        invariant count == i - |SetBits(words[..], i)|
      {
        var t := Test(i);
        SetBitsStep(words[..], i);
        if !t {
          count := count + 1;
        }
      }
    }
  }
}
