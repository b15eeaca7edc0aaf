// MD5 on whole messages: padding, the fold over blocks, the two-word bit counter and the little-endian words.
module Md5Model {
  import opened Wrappers

  type Word = x: int | 0 <= x < 0x1_0000_0000

  const TWO32 := 0x1_0000_0000
  const TWO64 := 0x1_0000_0000_0000_0000

  // The four chaining words.
  type Chain = s: seq<Word> | |s| == 4 witness [0, 0, 0, 0]

  // The block function is left open: it takes a state and a block of 64 bytes.
  type Compress = (Chain, seq<byte>) -> Chain

  const INIT: Chain := [0x67452301, 0xEFCDAB89, 0x98BADCFE, 0x10325476]

  // Blocks are taken in order, as many as are complete.
  function Fold(f: Compress, s: Chain, m: seq<byte>): Chain
    decreases |m|
  {
    if |m| < 64 then s else Fold(f, f(s, m[..64]), m[64..])
  }

  lemma {:induction false} FoldSnoc(f: Compress, s: Chain, m: seq<byte>, b: seq<byte>)
    requires |m| % 64 == 0 && |b| == 64
    ensures Fold(f, s, []) == s
    ensures Fold(f, s, m + b) == f(Fold(f, s, m), b)
    decreases |m|
  {
    if m == [] {
      assert m + b == b && b[..64] == b;
    } else {
      assert (m + b)[..64] == m[..64] && (m + b)[64..] == m[64..] + b;
      FoldSnoc(f, f(s, m[..64]), m[64..], b);
    }
  }

  // A word as four bytes, the least significant first, and back: section 2 of RFC 1321.
  function Bytes(w: Word): (b: seq<byte>)
    ensures |b| == 4
  {
    [w % 0x100, w / 0x100 % 0x100, w / 0x1_0000 % 0x100, w / 0x100_0000]
  }

  function Join(b: seq<byte>): Word
    requires |b| == 4
  {
    b[0] as int + 0x100 * (b[1] as int + 0x100 * (b[2] as int + 0x100 * (b[3] as int)))
  }

  function EncodeSpec(ws: seq<Word>): (b: seq<byte>)
    ensures |b| == 4 * |ws|
  {
    if ws == [] then [] else Bytes(ws[0]) + EncodeSpec(ws[1..])
  }

  function DecodeSpec(b: seq<byte>): (ws: seq<Word>)
    requires |b| % 4 == 0
    ensures 4 * |ws| == |b|
  {
    if b == [] then [] else [Join(b[..4])] + DecodeSpec(b[4..])
  }

  lemma JoinBytes(w: Word)
    ensures Join(Bytes(w)) == w
  {
    var q1 := w / 0x100;
    var q2 := q1 / 0x100;
    assert w / 0x1_0000 == q2 && w / 0x100_0000 == q2 / 0x100;
  }

  lemma BytesJoin(b: seq<byte>)
    requires |b| == 4
    ensures Bytes(Join(b)) == b
  {
    var v2 := b[2] as int + 0x100 * (b[3] as int);
    var v1 := b[1] as int + 0x100 * v2;
    var v := b[0] as int + 0x100 * v1;
    assert v / 0x100 == v1 && v1 / 0x100 == v2 && v2 / 0x100 == b[3];
  }

  // Words and bytes determine each other.
  lemma {:induction false} DecodeEncode(ws: seq<Word>)
    ensures DecodeSpec(EncodeSpec(ws)) == ws
    decreases |ws|
  {
    if ws != [] {
      JoinBytes(ws[0]);
      var b := EncodeSpec(ws);
      assert b[..4] == Bytes(ws[0]) && b[4..] == EncodeSpec(ws[1..]);
      DecodeEncode(ws[1..]);
    }
  }

  lemma {:induction false} EncodeDecode(b: seq<byte>)
    requires |b| % 4 == 0
    ensures EncodeSpec(DecodeSpec(b)) == b
    decreases |b|
  {
    if b != [] {
      BytesJoin(b[..4]);
      EncodeDecode(b[4..]);
      assert b == b[..4] + b[4..];
    }
  }

  // How many padding bytes follow n message bytes: the least positive number that leaves room for eight in the block.
  function PadLen(n: nat): (k: nat)
    ensures 1 <= k <= 64 && (n + k) % 64 == 56
  {
    if n % 64 < 56 then 56 - n % 64 else 120 - n % 64
  }

  function Zeros(k: nat): (z: seq<byte>)
    ensures |z| == k && forall i :: 0 <= i < k ==> z[i] == 0
  {
    seq(k, _ => 0)
  }

  // Sections 3.1 and 3.2 of RFC 1321: a one bit, zeros, and the message length in bits modulo 2^64.
  function Pad(m: seq<byte>): (p: seq<byte>)
    ensures |p| % 64 == 0 && m <= p
  {
    PadFits(|m|);
    m + Filler(|m|) + LengthBytes(|m|)
  }

  function Filler(n: nat): (b: seq<byte>)
    ensures |b| == PadLen(n)
  {
    [0x80] + Zeros(PadLen(n) - 1)
  }

  function LengthBytes(n: nat): (b: seq<byte>)
    ensures |b| == 8
  {
    var bits := 8 * n % TWO64;
    EncodeSpec([bits % TWO32, bits / TWO32])
  }

  lemma PadFits(n: nat)
    ensures (n + PadLen(n) + 8) % 64 == 0
  {
  }

  // The digest of a whole message.
  function Digest(f: Compress, m: seq<byte>): seq<byte> {
    EncodeSpec(Fold(f, INIT, Pad(m)))
  }

  // The bit counter as one number.
  function Total(lo: Word, hi: Word): int {
    hi * TWO32 + lo
  }

  // The counter after `len` more bytes, as it is computed: the new low word is compared with the bits added.
  function NewLow(lo: Word, len: nat): Word {
    (lo + 8 * len) % TWO32
  }

  function NewHigh(lo: Word, hi: Word, len: nat): Word {
    var carried := if NewLow(lo, len) < 8 * len then (hi + 1) % TWO32 else hi;
    (carried + len / 0x2000_0000) % TWO32
  }

  // The counter is right exactly for updates below 2^29 bytes and for larger ones whose low words carry.
  lemma CounterIff(lo: Word, hi: Word, len: nat)
    requires len < 0x2000_0000_0000_0000
    ensures Total(NewLow(lo, len), NewHigh(lo, hi, len)) == (Total(lo, hi) + 8 * len) % TWO64
      <==> len < 0x2000_0000 || lo + 8 * len % TWO32 >= TWO32
  {
    var q, r := len / 0x2000_0000, len % 0x2000_0000;
    assert 8 * len == q * TWO32 + 8 * r && 8 * len % TWO32 == 8 * r;
    var carry := if lo + 8 * r >= TWO32 then 1 else 0;
    LowWord(lo, q, r);
    var high := hi + q + carry;
    WrapHigh(high, lo + 8 * r - carry * TWO32);
    assert Total(lo, hi) + 8 * len == high * TWO32 + (lo + 8 * r - carry * TWO32);
    if len < 0x2000_0000 {
      assert q == 0;
    } else {
      LargeHigh(lo, hi, len);
      DifferByOne(hi + q);
    }
  }

  // A large update always looks like a carry.
  lemma LargeHigh(lo: Word, hi: Word, len: nat)
    requires 0x2000_0000 <= len
    ensures NewHigh(lo, hi, len) == (hi + len / 0x2000_0000 + 1) % TWO32
  {
    assert NewLow(lo, len) < 8 * len;
    HighWraps(hi, len / 0x2000_0000);
  }

  lemma LowWord(lo: Word, q: nat, r: nat)
    requires r < 0x2000_0000
    ensures (lo + (q * TWO32 + 8 * r)) % TWO32 == if lo + 8 * r >= TWO32 then lo + 8 * r - TWO32 else lo + 8 * r
  {
  }

  lemma WrapHigh(high: nat, low: Word)
    ensures (high * TWO32 + low) % TWO64 == high % TWO32 * TWO32 + low
  {
    var k := high / TWO32;
    assert high == k * TWO32 + high % TWO32;
    assert high * TWO32 + low == k * TWO64 + (high % TWO32 * TWO32 + low);
  }

  lemma HighWraps(hi: Word, q: nat)
    ensures ((hi + 1) % TWO32 + q) % TWO32 == (hi + q + 1) % TWO32
  {
  }

  lemma DifferByOne(n: nat)
    ensures n % TWO32 != (n + 1) % TWO32
  {
  }

  // Where in its block the next byte goes, from the low word of the counter.
  lemma IndexOk(lo: Word, n: nat)
    requires lo == 8 * n % TWO32
    ensures lo / 8 % 64 == n % 64
  {
    var k := 8 * n / TWO32;
    assert 8 * n == k * TWO32 + lo;
    assert n == k * 0x2000_0000 + lo / 8;
    Mod64(lo / 8, k * 0x80_0000);
  }

  lemma Mod64(a: nat, q: nat)
    ensures (a + 64 * q) % 64 == a % 64
  {
  }

  function Value4(b0: int, b1: int, b2: int, b3: int): int {
    b0 + 0x100 * b1 + 0x1_0000 * b2 + 0x100_0000 * b3
  }

  // Section 2 of RFC 1321: the first byte of a word is the least significant one.
  lemma WordOfBytes(w: Word)
    ensures var b := Bytes(w); w == Value4(b[0], b[1], b[2], b[3])
  {
    JoinBytes(w);
  }

  // Section 3.3 of RFC 1321: the chaining words start as the bytes 01 23 .. ef fe .. 10.
  lemma InitBytes()
    ensures EncodeSpec(INIT) == [0x01, 0x23, 0x45, 0x67, 0x89, 0xab, 0xcd, 0xef, 0xfe, 0xdc, 0xba, 0x98, 0x76, 0x54, 0x32, 0x10]
  {
    assert INIT == [0x67452301] + [0xEFCDAB89] + [0x98BADCFE] + [0x10325476];
    assert EncodeSpec(INIT) == Bytes(INIT[0]) + (Bytes(INIT[1]) + (Bytes(INIT[2]) + (Bytes(INIT[3]) + []))) by {
      assert INIT[1..][1..][1..][1..] == [];
    }
  }

  // Sections 3.1 and 3.2 of RFC 1321: after the message a one bit, as few zeros as leave room for eight bytes in the
  // last block, and the length in bits, least significant byte first.
  lemma PadShape(m: seq<byte>)
    ensures
      var k := PadLen(|m|) - 1;
      var n := |m| + 1 + k;
      && k < 64 && n % 64 == 56 && |Pad(m)| == n + 8
      && Pad(m)[..|m|] == m && Pad(m)[|m|] == 0x80 && (forall i :: |m| < i < n ==> Pad(m)[i] == 0)
      && LengthOf(Pad(m)[n..]) == 8 * |m| % TWO64
  {
    var bits := 8 * |m| % TWO64;
    var lo, hi := bits % TWO32, bits / TWO32;
    var p, n := Pad(m), |m| + PadLen(|m|);
    assert p[n..] == LengthBytes(|m|);
    assert [lo, hi][1..] == [hi] && [hi][1..] == [];
    assert EncodeSpec([lo, hi]) == Bytes(lo) + (Bytes(hi) + []);
    WordOfBytes(lo);
    WordOfBytes(hi);
  }

  function LengthOf(b: seq<byte>): int
    requires |b| == 8
  {
    Value4(b[0], b[1], b[2], b[3]) + 0x1_0000_0000 * Value4(b[4], b[5], b[6], b[7])
  }
}
