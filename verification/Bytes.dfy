/** Raw memory as the C code sees it: bytes, and the little-endian layout of `int` and
    `unsigned int` in the four bytes that hold them. */
module Bytes {

  type byte = x: int | 0 <= x < 0x100
  type int32 = x: int | -0x8000_0000 <= x < 0x8000_0000
  type uint32 = x: int | 0 <= x < 0x1_0000_0000

  const INT_MAX := 0x7fff_ffff

  /** The four bytes of an `unsigned int`, least significant byte first. */
  function EncodeWord(u: uint32): (b: seq<byte>)
    ensures |b| == 4
  {
    [u % 0x100, u / 0x100 % 0x100, u / 0x1_0000 % 0x100, u / 0x100_0000]
  }

  function DecodeWord(b: seq<byte>): uint32
    requires |b| == 4
  {
    var b0: int, b1: int, b2: int, b3: int := b[0], b[1], b[2], b[3];
    b0 + 0x100 * b1 + 0x1_0000 * b2 + 0x100_0000 * b3
  }

  lemma WordRoundTrip(u: uint32)
    ensures DecodeWord(EncodeWord(u)) == u
  {
    assert u / 0x1_0000 == u / 0x100 / 0x100 && u / 0x100_0000 == u / 0x1_0000 / 0x100;
  }

  /** An `int` is stored in two's complement. */
  function ToUnsigned(x: int32): (u: uint32)
    ensures u == x % 0x1_0000_0000
  {
    if x < 0 then x + 0x1_0000_0000 else x
  }

  function ToSigned(u: uint32): (x: int32)
    ensures ToUnsigned(x) == u
  {
    if u < 0x8000_0000 then u else u - 0x1_0000_0000
  }

  function EncodeInt(x: int32): (b: seq<byte>)
    ensures |b| == 4
  {
    EncodeWord(ToUnsigned(x))
  }

  function DecodeInt(b: seq<byte>): int32
    requires |b| == 4
  {
    ToSigned(DecodeWord(b))
  }

  lemma IntRoundTrip(x: int32)
    ensures DecodeInt(EncodeInt(x)) == x
  {
    WordRoundTrip(ToUnsigned(x));
  }

  /** An `int` in memory: the least significant byte comes first. */
  lemma IntValue(b: seq<byte>)
    requires |b| == 4
    ensures var b0: int, b1: int, b2: int, b3: int := b[0], b[1], b[2], b[3];
            DecodeInt(b) % 0x1_0000_0000 == b0 + 0x100 * b1 + 0x1_0000 * b2 + 0x100_0000 * b3
  {
  }

  /** An array of `int`, copied out as raw memory. */
  function EncodeInts(s: seq<int32>): (b: seq<byte>)
    ensures |b| == 4 * |s|
  {
    if s == [] then [] else EncodeInt(s[0]) + EncodeInts(s[1..])
  }

  function DecodeInts(b: seq<byte>): (s: seq<int32>)
    ensures |s| == |b| / 4
  {
    if |b| < 4 then [] else [DecodeInt(b[..4])] + DecodeInts(b[4..])
  }

  lemma {:induction false} IntsRoundTrip(s: seq<int32>)
    ensures DecodeInts(EncodeInts(s)) == s
  {
    if s != [] {
      var b := EncodeInts(s);
      assert b[..4] == EncodeInt(s[0]) && b[4..] == EncodeInts(s[1..]);
      IntRoundTrip(s[0]);
      IntsRoundTrip(s[1..]);
    }
  }

  /** Each `int` has its own four bytes. */
  lemma {:induction false} IntsAt(b: seq<byte>, k: nat)
    requires 4 * k + 4 <= |b|
    ensures DecodeInts(b)[k] == DecodeInt(b[4 * k..4 * k + 4])
    decreases k
  {
    if k > 0 {
      IntsAt(b[4..], k - 1);
      assert b[4..][4 * (k - 1)..4 * (k - 1) + 4] == b[4 * k..4 * k + 4];
    }
  }

  /** An array of `unsigned int`, copied out as raw memory. */
  function EncodeWords(s: seq<uint32>): (b: seq<byte>)
    ensures |b| == 4 * |s|
  {
    if s == [] then [] else EncodeWord(s[0]) + EncodeWords(s[1..])
  }

  function DecodeWords(b: seq<byte>): (s: seq<uint32>)
    ensures |s| == |b| / 4
  {
    if |b| < 4 then [] else [DecodeWord(b[..4])] + DecodeWords(b[4..])
  }

  lemma {:induction false} WordsRoundTrip(s: seq<uint32>)
    ensures DecodeWords(EncodeWords(s)) == s
  {
    if s != [] {
      var b := EncodeWords(s);
      assert b[..4] == EncodeWord(s[0]) && b[4..] == EncodeWords(s[1..]);
      WordRoundTrip(s[0]);
      WordsRoundTrip(s[1..]);
    }
  }

  lemma {:induction false} WordsAt(b: seq<byte>, k: nat)
    requires 4 * k + 4 <= |b|
    ensures var b0: int, b1: int, b2: int, b3: int := b[4 * k], b[4 * k + 1], b[4 * k + 2], b[4 * k + 3];
            DecodeWords(b)[k] == b0 + 0x100 * b1 + 0x1_0000 * b2 + 0x100_0000 * b3
    decreases k
  {
    if k > 0 {
      WordsAt(b[4..], k - 1);
    }
  }

  /** `s` with `t` laid over it from index `at`: what copying `t` there does. */
  function Splice<T>(s: seq<T>, at: nat, t: seq<T>): (r: seq<T>)
    requires at + |t| <= |s|
    ensures |r| == |s|
    ensures forall k :: 0 <= k < |s| ==> r[k] == if at <= k < at + |t| then t[k - at] else s[k]
  {
    seq(|s|, k requires 0 <= k < |s| => if at <= k < at + |t| then t[k - at] else s[k])
  }
}
