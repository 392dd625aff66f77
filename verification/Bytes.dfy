/** Machine words, little-endian encodings and byte-string updates shared by every component. */
module Bytes {

  const TWO32 := 0x1_0000_0000
  const TWO64 := 0x1_0000_0000_0000_0000
  const UINT32_MAX := 0xFFFF_FFFF

  type byte = x: int | 0 <= x < 256
  type u32 = x: int | 0 <= x < 0x1_0000_0000
  type u64 = x: int | 0 <= x < 0x1_0000_0000_0000_0000

  function One(b: bool): nat {
    if b then 1 else 0
  }

  function Min(a: int, b: int): int {
    if a <= b then a else b
  }

  /** Is bit `k`, given by its weight, set in `w`? */
  predicate Bit(w: u32, weight: nat)
    requires weight > 0
  {
    w / weight % 2 == 1
  }

  /** Two's-complement reading of a byte (`int8_t`). */
  function Int8(b: byte): int {
    if b < 128 then b else b - 256
  }

  /** Two's-complement reading of a word (`int32_t`). */
  function Signed(w: u32): int {
    if w < 0x8000_0000 then w else w - TWO32
  }

  /** The word that an `int32_t` or a wider sum leaves in four bytes of memory. */
  function ToU32(x: int): u32 {
    x % TWO32
  }

  /** `int32_t` arithmetic with two's-complement wrap-around. */
  function Wrap32(x: int): int {
    Signed(ToU32(x))
  }

  predicate FitsInt32(x: int) {
    -0x8000_0000 <= x <= 0x7FFF_FFFF
  }

  lemma Wrap32Exact(x: int)
    ensures Wrap32(x) == x <==> FitsInt32(x)
    ensures ToU32(Wrap32(x)) == ToU32(x)
    ensures FitsInt32(Wrap32(x))
  {
  }

  /** Wrapping after every addition is the same as wrapping once at the end. */
  lemma Wrap32Add(x: int, y: int)
    ensures Wrap32(Wrap32(x) + y) == Wrap32(x + y)
  {
  }

  /** A 64-bit word is its two halves. */
  lemma Halves(w: u64)
    ensures w % TWO32 + TWO32 * (w / TWO32) == w && w / TWO32 < TWO32
  {
  }

  lemma SmallMod(x: nat, n: nat)
    requires x < n
    ensures x % n == x
  {
  }

  function Le32(w: u32): (s: seq<byte>)
    ensures |s| == 4
  {
    [w % 256, w / 256 % 256, w / 65536 % 256, w / 16777216]
  }

  function FromLe32(s: seq<byte>): u32
    requires |s| == 4
  {
    (s[0] as int) + 256 * (s[1] as int) + 65536 * (s[2] as int) + 16777216 * (s[3] as int)
  }

  lemma DecodeLe32(w: u32)
    ensures FromLe32(Le32(w)) == w
  {
    Quotients(w);
    FourDigits(w, w / 256, w / 65536, w / 16777216);
  }

  lemma Quotients(w: nat)
    ensures w / 65536 == w / 256 / 256 && w / 16777216 == w / 65536 / 256
  {
  }

  lemma FourDigits(w: nat, q1: nat, q2: nat, q3: nat)
    requires q1 == w / 256 && q2 == q1 / 256 && q3 == q2 / 256
    ensures w % 256 + 256 * (q1 % 256) + 65536 * (q2 % 256) + 16777216 * q3 == w
  {
  }

  lemma EncodeLe32(s: seq<byte>)
    requires |s| == 4
    ensures Le32(FromLe32(s)) == s
  {
    var w := FromLe32(s);
    var b1: int, b2: int, b3: int := s[1], s[2], s[3];
    assert w / 256 == b1 + 256 * b2 + 65536 * b3;
    assert w / 65536 == b2 + 256 * b3;
  }

  function Le64(w: u64): (s: seq<byte>)
    ensures |s| == 8
  {
    Le32(w % TWO32) + Le32(w / TWO32)
  }

  function FromLe64(s: seq<byte>): u64
    requires |s| == 8
  {
    FromLe32(s[..4]) + TWO32 * FromLe32(s[4..])
  }

  lemma DecodeLe64(w: u64)
    ensures FromLe64(Le64(w)) == w
  {
    var lo, hi := w % TWO32, w / TWO32;
    DecodeLe32(lo);
    DecodeLe32(hi);
    assert Le64(w)[..4] == Le32(lo) && Le64(w)[4..] == Le32(hi);
  }

  /** The four bytes from `o` on stand for `w`, lowest byte first. */
  predicate IsWord(s: seq<byte>, o: nat, w: int) {
    && o + 4 <= |s|
    && var b0: int, b1: int, b2: int, b3: int := s[o], s[o + 1], s[o + 2], s[o + 3];
       w == b0 + 0x100 * b1 + 0x1_0000 * b2 + 0x100_0000 * b3
  }

  /** The eight bytes from `o` on stand for `w`. */
  predicate IsLong(s: seq<byte>, o: nat, w: int) {
    && o + 8 <= |s|
    && var b0: int, b1: int, b2: int, b3: int := s[o], s[o + 1], s[o + 2], s[o + 3];
       var b4: int, b5: int, b6: int, b7: int := s[o + 4], s[o + 5], s[o + 6], s[o + 7];
       w == b0 + 0x100 * b1 + 0x1_0000 * b2 + 0x100_0000 * b3 +
            0x1_0000_0000 * b4 + 0x100_0000_0000 * b5 + 0x1_0000_0000_0000 * b6 + 0x100_0000_0000_0000 * b7
  }

  /** The four bytes from `o` on stand for `v` in two's complement. */
  predicate IsSignedWord(s: seq<byte>, o: nat, v: int) {
    -0x8000_0000 <= v <= 0x7FFF_FFFF && IsWord(s, o, if v < 0 then v + 0x1_0000_0000 else v)
  }

  /** They stand for one number only, whose last byte tells the sign. */
  lemma SignedWordUnique(s: seq<byte>, o: nat, v: int, w: int)
    requires IsSignedWord(s, o, v) && IsSignedWord(s, o, w)
    ensures v == w && (v < 0 <==> s[o + 3] >= 128)
  {
  }

  lemma WordIs(s: seq<byte>, o: nat, b: seq<byte>, w: u32)
    requires o + 4 <= |s| && b == s[o..o + 4]
    ensures w == FromLe32(b) <==> IsWord(s, o, w)
    ensures b == Le32(w) <==> IsWord(s, o, w)
  {
    DecodeLe32(w);
    EncodeLe32(b);
  }

  lemma SignedWordIs(s: seq<byte>, o: nat, b: seq<byte>)
    requires o + 4 <= |s| && b == s[o..o + 4]
    ensures IsSignedWord(s, o, Signed(FromLe32(b)))
  {
    WordIs(s, o, b, FromLe32(b));
  }

  lemma LongIs(s: seq<byte>, o: nat, b: seq<byte>)
    requires o + 8 <= |s| && b == s[o..o + 8]
    ensures IsLong(s, o, FromLe64(b))
  {
    WordIs(b, 0, b[..4], FromLe32(b[..4]));
    WordIs(b, 4, b[4..], FromLe32(b[4..]));
  }

  /** A byte as `int8_t`. */
  predicate IsSignedByte(b: byte, v: int) {
    var n: int := b;
    v == if n < 128 then n else n - 256
  }

  /** A 32-bit result is the exact one modulo 2^32, in two's complement. */
  lemma WrapIs(x: int, r: int)
    ensures r == Wrap32(x) <==> -0x8000_0000 <= r < 0x8000_0000 && (x - r) % 0x1_0000_0000 == 0
  {
  }

  /** `s` with the bytes from `at` on overwritten by `b`. */
  function Splice<T>(s: seq<T>, at: nat, b: seq<T>): (r: seq<T>)
    requires at + |b| <= |s|
    ensures |r| == |s|
    ensures forall i :: 0 <= i < |s| ==> r[i] == if at <= i < at + |b| then b[i - at] else s[i]
  {
    s[..at] + b + s[at + |b|..]
  }

  /** Two adjacent overwrites are one. */
  lemma SpliceAppend<T>(s: seq<T>, at: nat, b: seq<T>, c: seq<T>)
    requires at + |b| + |c| <= |s|
    ensures Splice(Splice(s, at, b), at + |b|, c) == Splice(s, at, b + c)
  {
  }

  lemma SpliceLast<T>(s: seq<T>, at: nat, b: seq<T>)
    requires b != [] && at + |b| <= |s|
    ensures Splice(s, at, b[..|b| - 1])[at + |b| - 1 := b[|b| - 1]] == Splice(s, at, b)
  {
  }

  lemma SpliceSelf<T>(s: seq<T>, len: nat)
    requires len <= |s|
    ensures Splice(s, 0, s[..len]) == s
  {
  }

  lemma SpliceWord<T>(s: seq<T>, at: nat, b: seq<T>, i: nat)
    requires at + |b| <= |s| && 4 * i + 4 <= |b|
    ensures Splice(s, at, b)[at + 4 * i..at + 4 * i + 4] == b[4 * i..4 * i + 4]
  {
  }

  lemma SpliceSlice<T>(s: seq<T>, at: nat, b: seq<T>, len: nat, r: seq<T>)
    requires len == |b| && at + len <= |s| && r == Splice(s, at, b)
    ensures r[at..at + len] == b
  {
  }
}
