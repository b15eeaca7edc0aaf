// The cipher against its standard, FIPS 197: the substitution table from the field and the affine map of section
// 5.1.1, the order of the rounds of section 5.1, and steps of the example of appendix C.1.
module AesVectors {
  import opened AesBytes
  import opened AesModel

  function Term(a: bv8, bit: bv8, b: bv8): bv8 {
    if a & bit != 0 then b else 0
  }

  // The product of two bytes in GF(2^8).
  function Product(a: bv8, b: bv8): bv8 {
    var b1 := Twice(b);
    var b2 := Twice(b1);
    var b3 := Twice(b2);
    var b4 := Twice(b3);
    var b5 := Twice(b4);
    var b6 := Twice(b5);
    var b7 := Twice(b6);
    Term(a, 0x01, b) ^ Term(a, 0x02, b1) ^ Term(a, 0x04, b2) ^ Term(a, 0x08, b3)
    ^ Term(a, 0x10, b4) ^ Term(a, 0x20, b5) ^ Term(a, 0x40, b6) ^ Term(a, 0x80, b7)
  }

  function Affine(b: bv8): bv8 {
    b ^ b.RotateLeft(1) ^ b.RotateLeft(2) ^ b.RotateLeft(3) ^ b.RotateLeft(4) ^ 0x63
  }

  function UnAffine(b: bv8): bv8 {
    b.RotateLeft(1) ^ b.RotateLeft(3) ^ b.RotateLeft(6) ^ 0x05
  }

  lemma AffineBack(b: bv8)
    ensures Affine(UnAffine(b)) == b && UnAffine(Affine(b)) == b
  {
  }

  // The table is the affine image of the inverse in the field; zero, which has none, stands for itself.
  predicate SboxOk(x: bv8) {
    var y := UnAffine(Sbox(x));
    if x == 0 then y == 0 else Product(x, y) == 1
  }

  lemma SboxOk0(x: bv8)
    requires x < 0x40
    ensures SboxOk(x)
  {
  }

  lemma SboxOk1(x: bv8)
    requires 0x40 <= x < 0x80
    ensures SboxOk(x)
  {
  }

  lemma SboxOk2(x: bv8)
    requires 0x80 <= x < 0xc0
    ensures SboxOk(x)
  {
  }

  lemma SboxOk3(x: bv8)
    requires 0xc0 <= x
    ensures SboxOk(x)
  {
  }

  // Section 5.1.1 of FIPS 197: invert, then apply the affine map.
  lemma SboxIsAffineInverse(x: bv8)
    ensures exists y :: Sbox(x) == Affine(y) && (if x == 0 then y == 0 else Product(x, y) == 1)
  {
    if x < 0x40 {
      SboxOk0(x);
    } else if x < 0x80 {
      SboxOk1(x);
    } else if x < 0xc0 {
      SboxOk2(x);
    } else {
      SboxOk3(x);
    }
    AffineBack(Sbox(x));
    assert Sbox(x) == Affine(UnAffine(Sbox(x)));
  }

  // ---- the order of the rounds ----

  // Nine full rounds after the first round key.
  function Full(s: Block, w: seq<Block>, n: nat): Block
    requires n < |w|
  {
    if n == 0 then Add(s, w[0]) else Add(Mix(Shift(Sub(Full(s, w, n - 1)))), w[n])
  }

  lemma {:induction false} FullRounds(s: Block, w: seq<Block>, n: nat)
    requires |w| == 11 && n <= 9
    ensures Rounds(STANDARD, s, w, n) == Full(s, w, n)
  {
    if n > 0 { FullRounds(s, w, n - 1); }
  }

  // Section 5.1 of FIPS 197: nine full rounds and one that does not mix.
  lemma CipherIsStandard(x: seq<bv8>, w: seq<Block>)
    requires |x| == 16 && |w| == 11
    ensures Cipher(x, w) == Store(Add(Shift(Sub(Full(Load(x), w, 9))), w[10]))
  {
    FullRounds(Load(x), w, 9);
  }

  // ---- steps of the example of appendix C.1 of FIPS 197: key 00 01 .. 0f, block 00 11 .. ff ----

  // Mixing in terms of doubling only.
  function MixedByte(a: bv8, b: bv8, c: bv8, d: bv8): bv8 {
    Xor(Xor(Xor(Twice(a), Xor(b, Twice(b))), c), d)
  }

  function MixedRow(a: Row, b: Row, c: Row, d: Row): Row {
    Row(MixedByte(a.c0, b.c0, c.c0, d.c0), MixedByte(a.c1, b.c1, c.c1, d.c1),
        MixedByte(a.c2, b.c2, c.c2, d.c2), MixedByte(a.c3, b.c3, c.c3, d.c3))
  }

  lemma MixRowIs(a: Row, b: Row, c: Row, d: Row)
    ensures MixRow(a, b, c, d) == MixedRow(a, b, c, d)
  {
    MixByteIs(a.c0, b.c0, c.c0, d.c0);
    MixByteIs(a.c1, b.c1, c.c1, d.c1);
    MixByteIs(a.c2, b.c2, c.c2, d.c2);
    MixByteIs(a.c3, b.c3, c.c3, d.c3);
  }

  lemma MixByteIs(a: bv8, b: bv8, c: bv8, d: bv8)
    ensures MixByte(a, b, c, d) == MixedByte(a, b, c, d)
  {
    Factors(a);
    Factors(b);
    Factors(c);
    Factors(d);
  }

  lemma MixIs(s: Block)
    ensures Mix(s) == Block(MixedRow(s.r0, s.r1, s.r2, s.r3), MixedRow(s.r1, s.r2, s.r3, s.r0),
                            MixedRow(s.r2, s.r3, s.r0, s.r1), MixedRow(s.r3, s.r0, s.r1, s.r2))
  {
    MixRowIs(s.r0, s.r1, s.r2, s.r3);
    MixRowIs(s.r1, s.r2, s.r3, s.r0);
    MixRowIs(s.r2, s.r3, s.r0, s.r1);
    MixRowIs(s.r3, s.r0, s.r1, s.r2);
  }

  const KEY: seq<bv8> := [0x00, 0x01, 0x02, 0x03, 0x04, 0x05, 0x06, 0x07, 0x08, 0x09, 0x0a, 0x0b, 0x0c, 0x0d, 0x0e, 0x0f]
  const PLAIN: seq<bv8> := [0x00, 0x11, 0x22, 0x33, 0x44, 0x55, 0x66, 0x77, 0x88, 0x99, 0xaa, 0xbb, 0xcc, 0xdd, 0xee, 0xff]
  const SECRET: seq<bv8> := [0x69, 0xc4, 0xe0, 0xd8, 0x6a, 0x7b, 0x04, 0x30, 0xd8, 0xcd, 0xb7, 0x80, 0x70, 0xb4, 0xc5, 0x5a]

  // The first round keys and states, and the last ones.
  const KEY1 := Block(Row(0xd6, 0xd2, 0xda, 0xd6), Row(0xaa, 0xaf, 0xa6, 0xab), Row(0x74, 0x72, 0x78, 0x76), Row(0xfd, 0xfa, 0xf1, 0xfe))
  const KEY10 := Block(Row(0x13, 0xe3, 0xf3, 0x4d), Row(0x11, 0x94, 0x07, 0x2b), Row(0x1d, 0x4a, 0xa7, 0x30), Row(0x7f, 0x17, 0x8b, 0xc5))
  const STATE0 := Block(Row(0x00, 0x40, 0x80, 0xc0), Row(0x10, 0x50, 0x90, 0xd0), Row(0x20, 0x60, 0xa0, 0xe0), Row(0x30, 0x70, 0xb0, 0xf0))
  const SUB1 := Block(Row(0x63, 0x09, 0xcd, 0xba), Row(0xca, 0x53, 0x60, 0x70), Row(0xb7, 0xd0, 0xe0, 0xe1), Row(0x04, 0x51, 0xe7, 0x8c))
  const MIX1 := Block(Row(0x5f, 0x57, 0xf7, 0x1d), Row(0x72, 0xf5, 0xbe, 0xb9), Row(0x64, 0xbc, 0x3b, 0xf9), Row(0x15, 0x92, 0x29, 0x1a))
  const STATE1 := Block(Row(0x89, 0x85, 0x2d, 0xcb), Row(0xd8, 0x5a, 0x18, 0x12), Row(0x10, 0xce, 0x43, 0x8f), Row(0xe8, 0x68, 0xd8, 0xe4))
  const STATE9 := Block(Row(0xbd, 0xf2, 0x0b, 0x8b), Row(0x6e, 0xb5, 0x61, 0x10), Row(0x7c, 0x77, 0x21, 0xb6), Row(0x3d, 0x9e, 0x6e, 0x89))
  const SUB10 := Block(Row(0x7a, 0x89, 0x2b, 0x3d), Row(0x9f, 0xd5, 0xef, 0xca), Row(0x10, 0xf5, 0xfd, 0x4e), Row(0x27, 0x0b, 0x9f, 0xa7))

  lemma Sub1()
    ensures Sub(STATE0) == SUB1
  {
  }

  lemma Mix1()
    ensures Mix(Shift(SUB1)) == MIX1
  {
    MixIs(Shift(SUB1));
  }

  // The start and the first round.
  lemma FirstRound()
    ensures Add(Mix(Shift(Sub(Add(Load(PLAIN), Load(KEY))))), KEY1) == STATE1
  {
    assert Add(Load(PLAIN), Load(KEY)) == STATE0;
    Sub1();
    Mix1();
    assert Add(MIX1, KEY1) == STATE1;
  }

  lemma Sub10()
    ensures Sub(STATE9) == SUB10
  {
  }

  // The last round and the output.
  lemma LastRound()
    ensures Store(Add(Shift(Sub(STATE9)), KEY10)) == SECRET
  {
    Sub10();
  }

  // The first round key that follows from the key.
  lemma FirstKey()
    ensures Follows(Load(KEY), KEY1, 1)
  {
    assert SubRow(Turn(Column(Load(KEY), 3))) == Row(0xd7, 0xab, 0x76, 0xfe);
  }
}
