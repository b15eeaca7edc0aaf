// AES bytes: the substitution tables, which are inverse to each other, and multiplication in GF(2^8).
module AesBytes {
  // A table row holds sixteen bytes, the first one in the most significant place.
  function SboxRow(r: bv8): bv128 {
    if r == 0x0 then 0x637c777bf26b6fc53001672bfed7ab76
    else if r == 0x1 then 0xca82c97dfa5947f0add4a2af9ca472c0
    else if r == 0x2 then 0xb7fd9326363ff7cc34a5e5f171d83115
    else if r == 0x3 then 0x04c723c31896059a071280e2eb27b275
    else if r == 0x4 then 0x09832c1a1b6e5aa0523bd6b329e32f84
    else if r == 0x5 then 0x53d100ed20fcb15b6acbbe394a4c58cf
    else if r == 0x6 then 0xd0efaafb434d338545f9027f503c9fa8
    else if r == 0x7 then 0x51a3408f929d38f5bcb6da2110fff3d2
    else if r == 0x8 then 0xcd0c13ec5f974417c4a77e3d645d1973
    else if r == 0x9 then 0x60814fdc222a908846eeb814de5e0bdb
    else if r == 0xa then 0xe0323a0a4906245cc2d3ac629195e479
    else if r == 0xb then 0xe7c8376d8dd54ea96c56f4ea657aae08
    else if r == 0xc then 0xba78252e1ca6b4c6e8dd741f4bbd8b8a
    else if r == 0xd then 0x703eb5664803f60e613557b986c11d9e
    else if r == 0xe then 0xe1f8981169d98e949b1e87e9ce5528df
    else 0x8ca1890dbfe6426841992d0fb054bb16
  }

  function InvSboxRow(r: bv8): bv128 {
    if r == 0x0 then 0x52096ad53036a538bf40a39e81f3d7fb
    else if r == 0x1 then 0x7ce339829b2fff87348e4344c4dee9cb
    else if r == 0x2 then 0x547b9432a6c2233dee4c950b42fac34e
    else if r == 0x3 then 0x082ea16628d924b2765ba2496d8bd125
    else if r == 0x4 then 0x72f8f66486689816d4a45ccc5d65b692
    else if r == 0x5 then 0x6c704850fdedb9da5e154657a78d9d84
    else if r == 0x6 then 0x90d8ab008cbcd30af7e45805b8b34506
    else if r == 0x7 then 0xd02c1e8fca3f0f02c1afbd0301138a6b
    else if r == 0x8 then 0x3a9111414f67dcea97f2cfcef0b4e673
    else if r == 0x9 then 0x96ac7422e7ad3585e2f937e81c75df6e
    else if r == 0xa then 0x47f11a711d29c5896fb7620eaa18be1b
    else if r == 0xb then 0xfc563e4bc6d279209adbc0fe78cd5af4
    else if r == 0xc then 0x1fdda8338807c731b11210592780ec5f
    else if r == 0xd then 0x60517fa919b54a0d2de57a9f93c99cef
    else if r == 0xe then 0xa0e03b4dae2af5b0c8ebbb3c83539961
    else 0x172b047eba77d626e169146355210c7d
  }

  function Pick(row: bv128, c: bv8): bv8
    requires c < 16
  {
    ((row >> (120 - (c << 3))) & 0xff) as bv8
  }

  function Sbox(x: bv8): bv8 {
    Pick(SboxRow(x >> 4), x & 0xf)
  }

  function InvSbox(x: bv8): bv8 {
    Pick(InvSboxRow(x >> 4), x & 0xf)
  }

  // Substitution and inverse substitution undo each other on every byte.
  lemma SboxInverse(x: bv8)
    ensures InvSbox(Sbox(x)) == x
  {
    if x < 0x40 {
      SboxInverse0(x);
    } else if x < 0x80 {
      SboxInverse1(x);
    } else if x < 0xc0 {
      SboxInverse2(x);
    } else {
      SboxInverse3(x);
    }
  }

  lemma SboxInverse0(x: bv8)
    requires x < 0x40
    ensures InvSbox(Sbox(x)) == x
  {
  }

  lemma SboxInverse1(x: bv8)
    requires 0x40 <= x < 0x80
    ensures InvSbox(Sbox(x)) == x
  {
  }

  lemma SboxInverse2(x: bv8)
    requires 0x80 <= x < 0xc0
    ensures InvSbox(Sbox(x)) == x
  {
  }

  lemma SboxInverse3(x: bv8)
    requires 0xc0 <= x
    ensures InvSbox(Sbox(x)) == x
  {
  }

  function Xor(a: bv8, b: bv8): bv8 {
    a ^ b
  }

  // Twice a byte, modulo x^8 + x^4 + x^3 + x + 1.
  function Twice(b: bv8): bv8 {
    if b & 0x80 != 0 then Xor(b << 1, 0x1b) else b << 1
  }

  function Double(b: bv8, k: nat): bv8 {
    if k == 0 then b else Twice(Double(b, k - 1))
  }

  predicate Bit(a: bv8, i: nat)
    requires i < 8
  {
    (a >> i) & 1 != 0
  }

  // The product with the lowest bits of a factor.
  function Partial(a: bv8, b: bv8, bits: nat): bv8
    requires bits <= 8
  {
    if bits == 0 then 0
    else if Bit(a, bits - 1) then Xor(Partial(a, b, bits - 1), Double(b, bits - 1))
    else Partial(a, b, bits - 1)
  }

  // FFmul looks at four bits of its first factor only.
  function FFmulSpec(a: bv8, b: bv8): bv8 {
    Partial(a, b, 4)
  }

  method FFmul(a: bv8, b: bv8) returns (res: bv8)
    ensures res == FFmulSpec(a, b)
  {
    var bw := new bv8[4];
    res := 0;
    bw[0] := b;
    for i := 1 to 4
      invariant forall j :: 0 <= j < i ==> bw[j] == Double(b, j)
    {
      bw[i] := bw[i - 1] << 1;
      if bw[i - 1] & 0x80 != 0 {
        bw[i] := Xor(bw[i], 0x1b);
      }
      assert bw[i] == Twice(bw[i - 1]);
    }
    for i := 0 to 4
      invariant res == Partial(a, b, i)
    {
      if Bit(a, i) {
        res := Xor(res, bw[i]);
      }
    }
  }

  lemma XorComm(a: bv8, b: bv8)
    ensures Xor(a, b) == Xor(b, a)
  {
  }

  lemma XorAssoc(a: bv8, b: bv8, c: bv8)
    ensures Xor(Xor(a, b), c) == Xor(a, Xor(b, c))
  {
  }

  lemma XorZero(a: bv8)
    ensures Xor(a, 0) == a && Xor(0, a) == a && Xor(a, a) == 0
  {
  }

  lemma XorSwap(a: bv8, b: bv8, c: bv8, d: bv8)
    ensures Xor(Xor(a, b), Xor(c, d)) == Xor(Xor(a, c), Xor(b, d))
  {
    XorAssoc(a, b, Xor(c, d));
    XorAssoc(b, c, d);
    XorComm(b, c);
    XorAssoc(c, b, d);
    XorAssoc(a, c, Xor(b, d));
  }

  lemma XorTwice(a: bv8, b: bv8)
    ensures Xor(Xor(a, b), b) == a
  {
    XorAssoc(a, b, b);
    XorZero(b);
    XorZero(a);
  }

  lemma ShiftXor(a: bv8, b: bv8)
    ensures Xor(a, b) << 1 == Xor(a << 1, b << 1)
    ensures Xor(a, b) & 0x80 != 0 <==> ((a & 0x80 != 0) != (b & 0x80 != 0))
  {
  }

  lemma TwiceXor(a: bv8, b: bv8)
    ensures Twice(Xor(a, b)) == Xor(Twice(a), Twice(b))
  {
    var x, y := a << 1, b << 1;
    ShiftXor(a, b);
    XorSwap(x, 0x1b, y, 0x1b);
    XorZero(0x1b);
    XorZero(Xor(x, y));
    XorAssoc(x, y, 0x1b);
    XorAssoc(x, 0x1b, y);
    XorComm(0x1b, y);
  }

  lemma {:induction false} DoubleXor(a: bv8, b: bv8, k: nat)
    ensures Double(Xor(a, b), k) == Xor(Double(a, k), Double(b, k))
    decreases k
  {
    if k > 0 {
      DoubleXor(a, b, k - 1);
      TwiceXor(Double(a, k - 1), Double(b, k - 1));
    }
  }

  lemma {:induction false} PartialXor(k: bv8, a: bv8, b: bv8, bits: nat)
    requires bits <= 8
    ensures Partial(k, Xor(a, b), bits) == Xor(Partial(k, a, bits), Partial(k, b, bits))
    decreases bits
  {
    if bits == 0 {
      XorZero(0);
    } else {
      PartialXor(k, a, b, bits - 1);
      DoubleXor(a, b, bits - 1);
      XorSwap(Partial(k, a, bits - 1), Partial(k, b, bits - 1), Double(a, bits - 1), Double(b, bits - 1));
    }
  }

  // Multiplication by a fixed factor is additive.
  lemma FFmulXor(k: bv8, a: bv8, b: bv8)
    ensures FFmulSpec(k, Xor(a, b)) == Xor(FFmulSpec(k, a), FFmulSpec(k, b))
  {
    PartialXor(k, a, b, 4);
  }

  lemma Bits3(a: bv8, b: bv8, b0: bool, b1: bool, b2: bool, b3: bool)
    requires b0 == Bit(a, 0) && b1 == Bit(a, 1) && b2 == Bit(a, 2) && b3 == Bit(a, 3)
    ensures
      var s0 := if b0 then Xor(0, b) else 0;
      var s1 := if b1 then Xor(s0, Twice(b)) else s0;
      var s2 := if b2 then Xor(s1, Twice(Twice(b))) else s1;
      FFmulSpec(a, b) == if b3 then Xor(s2, Twice(Twice(Twice(b)))) else s2
  {
    assert Double(b, 1) == Twice(Double(b, 0));
    assert Double(b, 2) == Twice(Double(b, 1));
    assert Partial(a, b, 0) == 0;
    assert Partial(a, b, 1) == if b0 then Xor(0, b) else 0;
    assert Partial(a, b, 2) == if b1 then Xor(Partial(a, b, 1), Twice(b)) else Partial(a, b, 1);
    assert Partial(a, b, 3) == if b2 then Xor(Partial(a, b, 2), Twice(Twice(b))) else Partial(a, b, 2);
  }

  // The factors of the two column mixes, in powers of two.
  lemma Factors(x: bv8)
    ensures FFmulSpec(1, x) == x && FFmulSpec(2, x) == Twice(x) && FFmulSpec(3, x) == Xor(x, Twice(x))
  {
    XorZero(x);
    XorZero(Twice(x));
    Bits3(1, x, true, false, false, false);
    Bits3(2, x, false, true, false, false);
    Bits3(3, x, true, true, false, false);
  }

  lemma InvFactors(x: bv8)
    ensures FFmulSpec(0xe, x) == Xor(Xor(Twice(x), Twice(Twice(x))), Twice(Twice(Twice(x))))
    ensures FFmulSpec(0xb, x) == Xor(Xor(x, Twice(x)), Twice(Twice(Twice(x))))
    ensures FFmulSpec(0xd, x) == Xor(Xor(x, Twice(Twice(x))), Twice(Twice(Twice(x))))
    ensures FFmulSpec(9, x) == Xor(x, Twice(Twice(Twice(x))))
  {
    XorZero(x);
    XorZero(Twice(x));
    Bits3(0xe, x, false, true, true, true);
    Bits3(0xb, x, true, true, false, true);
    Bits3(0xd, x, true, false, true, true);
    Bits3(9, x, true, false, false, true);
  }

  function Sum4(a: bv8, b: bv8, c: bv8, d: bv8): bv8 {
    Xor(Xor(Xor(a, b), c), d)
  }

  lemma Sum4Xor(a: bv8, b: bv8, c: bv8, d: bv8, e: bv8, f: bv8, g: bv8, h: bv8)
    ensures Xor(Sum4(a, b, c, d), Sum4(e, f, g, h)) == Sum4(Xor(a, e), Xor(b, f), Xor(c, g), Xor(d, h))
  {
    XorSwap(Xor(Xor(a, b), c), d, Xor(Xor(e, f), g), h);
    XorSwap(Xor(a, b), c, Xor(e, f), g);
    XorSwap(a, b, e, f);
  }

  // One byte of a mixed column, and of an unmixed one.
  function MixByte(a: bv8, b: bv8, c: bv8, d: bv8): bv8 {
    Sum4(FFmulSpec(2, a), FFmulSpec(3, b), FFmulSpec(1, c), FFmulSpec(1, d))
  }

  function InvMixByte(a: bv8, b: bv8, c: bv8, d: bv8): bv8 {
    Sum4(FFmulSpec(0xe, a), FFmulSpec(0xb, b), FFmulSpec(0xd, c), FFmulSpec(9, d))
  }

  lemma FFmulSum4(k: bv8, a: bv8, b: bv8, c: bv8, d: bv8)
    ensures FFmulSpec(k, Sum4(a, b, c, d)) == Sum4(FFmulSpec(k, a), FFmulSpec(k, b), FFmulSpec(k, c), FFmulSpec(k, d))
  {
    FFmulXor(k, Xor(Xor(a, b), c), d);
    FFmulXor(k, Xor(a, b), c);
    FFmulXor(k, a, b);
  }

  lemma Sum4Turn(a: bv8, b: bv8, c: bv8, d: bv8)
    ensures Sum4(a, b, c, d) == Sum4(d, a, b, c)
  {
    XorComm(Xor(Xor(a, b), c), d);
    XorAssoc(d, Xor(a, b), c);
    XorAssoc(d, a, b);
  }

  // A sum of sums may be taken the other way round.
  lemma Sum4Transpose(a: (bv8, bv8, bv8, bv8), b: (bv8, bv8, bv8, bv8), c: (bv8, bv8, bv8, bv8), d: (bv8, bv8, bv8, bv8))
    ensures Sum4(Sum4(a.0, a.1, a.2, a.3), Sum4(b.0, b.1, b.2, b.3), Sum4(c.0, c.1, c.2, c.3), Sum4(d.0, d.1, d.2, d.3))
            == Sum4(Sum4(a.0, b.0, c.0, d.0), Sum4(a.1, b.1, c.1, d.1), Sum4(a.2, b.2, c.2, d.2), Sum4(a.3, b.3, c.3, d.3))
  {
    Sum4Xor(a.0, a.1, a.2, a.3, b.0, b.1, b.2, b.3);
    Sum4Xor(Xor(a.0, b.0), Xor(a.1, b.1), Xor(a.2, b.2), Xor(a.3, b.3), c.0, c.1, c.2, c.3);
    Sum4Xor(Xor(Xor(a.0, b.0), c.0), Xor(Xor(a.1, b.1), c.1), Xor(Xor(a.2, b.2), c.2), Xor(Xor(a.3, b.3), c.3), d.0, d.1, d.2, d.3);
  }

  // With t0..t4 a byte and its doubles: what one input byte adds to an unmixed one, itself once and nothing thrice.
  lemma CancelA(t0: bv8, t1: bv8, t2: bv8, t3: bv8, t4: bv8)
    ensures Sum4(Xor(Xor(t2, t3), t4), Xor(Xor(t0, t1), t3), Xor(Xor(t0, t2), t3), Xor(Xor(t0, t3), Xor(t1, t4))) == t0
  {
  }

  lemma CancelB(t0: bv8, t1: bv8, t2: bv8, t3: bv8, t4: bv8)
    ensures Sum4(Xor(Xor(Xor(t1, t2), t3), Xor(Xor(t2, t3), t4)), Xor(Xor(t1, t2), t4), Xor(Xor(t0, t2), t3), Xor(t0, t3)) == 0
  {
  }

  lemma CancelC(t0: bv8, t1: bv8, t2: bv8, t3: bv8, t4: bv8)
    ensures Sum4(Xor(Xor(t1, t2), t3), Xor(Xor(Xor(t0, t1), t3), Xor(Xor(t1, t2), t4)), Xor(Xor(t1, t3), t4), Xor(t0, t3)) == 0
  {
  }

  lemma CancelD(t0: bv8, t1: bv8, t2: bv8, t3: bv8, t4: bv8)
    ensures Sum4(Xor(Xor(t1, t2), t3), Xor(Xor(t0, t1), t3), Xor(Xor(Xor(t0, t2), t3), Xor(Xor(t1, t3), t4)), Xor(t1, t4)) == 0
  {
  }

  lemma Coefficients(x: bv8)
    ensures InvMixByte(FFmulSpec(2, x), FFmulSpec(1, x), FFmulSpec(1, x), FFmulSpec(3, x)) == x
    ensures InvMixByte(FFmulSpec(3, x), FFmulSpec(2, x), FFmulSpec(1, x), FFmulSpec(1, x)) == 0
    ensures InvMixByte(FFmulSpec(1, x), FFmulSpec(3, x), FFmulSpec(2, x), FFmulSpec(1, x)) == 0
    ensures InvMixByte(FFmulSpec(1, x), FFmulSpec(1, x), FFmulSpec(3, x), FFmulSpec(2, x)) == 0
  {
    var t1 := Twice(x);
    var t2 := Twice(t1);
    var t3 := Twice(t2);
    var t4 := Twice(t3);
    Factors(x);
    InvFactors(x);
    InvFactors(t1);
    FFmulXor(0xe, x, t1);
    FFmulXor(0xb, x, t1);
    FFmulXor(0xd, x, t1);
    FFmulXor(9, x, t1);
    CancelA(x, t1, t2, t3, t4);
    CancelB(x, t1, t2, t3, t4);
    CancelC(x, t1, t2, t3, t4);
    CancelD(x, t1, t2, t3, t4);
  }

  // Unmixing a mixed column gives each byte back.
  lemma Unmix(a: bv8, b: bv8, c: bv8, d: bv8)
    ensures InvMixByte(MixByte(a, b, c, d), MixByte(b, c, d, a), MixByte(c, d, a, b), MixByte(d, a, b, c)) == a
  {
    UnmixRows(a, b, c, d);
    var k0, k1, k2, k3 := 0xe as bv8, 0xb as bv8, 0xd as bv8, 9 as bv8;
    Sum4Transpose(
      (FFmulSpec(k0, FFmulSpec(2, a)), FFmulSpec(k0, FFmulSpec(3, b)), FFmulSpec(k0, FFmulSpec(1, c)), FFmulSpec(k0, FFmulSpec(1, d))),
      (FFmulSpec(k1, FFmulSpec(1, a)), FFmulSpec(k1, FFmulSpec(2, b)), FFmulSpec(k1, FFmulSpec(3, c)), FFmulSpec(k1, FFmulSpec(1, d))),
      (FFmulSpec(k2, FFmulSpec(1, a)), FFmulSpec(k2, FFmulSpec(1, b)), FFmulSpec(k2, FFmulSpec(2, c)), FFmulSpec(k2, FFmulSpec(3, d))),
      (FFmulSpec(k3, FFmulSpec(3, a)), FFmulSpec(k3, FFmulSpec(1, b)), FFmulSpec(k3, FFmulSpec(1, c)), FFmulSpec(k3, FFmulSpec(2, d))));
    Coefficients(a);
    Coefficients(b);
    Coefficients(c);
    Coefficients(d);
    XorZero(a);
  }

  // Each term of the unmixed byte, by input byte.
  lemma UnmixRows(a: bv8, b: bv8, c: bv8, d: bv8)
    ensures FFmulSpec(0xe, MixByte(a, b, c, d)) == Sum4(FFmulSpec(0xe, FFmulSpec(2, a)), FFmulSpec(0xe, FFmulSpec(3, b)), FFmulSpec(0xe, FFmulSpec(1, c)), FFmulSpec(0xe, FFmulSpec(1, d)))
    ensures FFmulSpec(0xb, MixByte(b, c, d, a)) == Sum4(FFmulSpec(0xb, FFmulSpec(1, a)), FFmulSpec(0xb, FFmulSpec(2, b)), FFmulSpec(0xb, FFmulSpec(3, c)), FFmulSpec(0xb, FFmulSpec(1, d)))
    ensures FFmulSpec(0xd, MixByte(c, d, a, b)) == Sum4(FFmulSpec(0xd, FFmulSpec(1, a)), FFmulSpec(0xd, FFmulSpec(1, b)), FFmulSpec(0xd, FFmulSpec(2, c)), FFmulSpec(0xd, FFmulSpec(3, d)))
    ensures FFmulSpec(9, MixByte(d, a, b, c)) == Sum4(FFmulSpec(9, FFmulSpec(3, a)), FFmulSpec(9, FFmulSpec(1, b)), FFmulSpec(9, FFmulSpec(1, c)), FFmulSpec(9, FFmulSpec(2, d)))
  {
    FFmulSum4(0xe, FFmulSpec(2, a), FFmulSpec(3, b), FFmulSpec(1, c), FFmulSpec(1, d));
    FFmulSum4(0xb, FFmulSpec(2, b), FFmulSpec(3, c), FFmulSpec(1, d), FFmulSpec(1, a));
    FFmulSum4(0xd, FFmulSpec(2, c), FFmulSpec(3, d), FFmulSpec(1, a), FFmulSpec(1, b));
    FFmulSum4(9, FFmulSpec(2, d), FFmulSpec(3, a), FFmulSpec(1, b), FFmulSpec(1, c));
    TurnOnce(0xb, FFmulSpec(2, b), FFmulSpec(3, c), FFmulSpec(1, d), FFmulSpec(1, a));
    TurnOnce(0xd, FFmulSpec(2, c), FFmulSpec(3, d), FFmulSpec(1, a), FFmulSpec(1, b));
    TurnOnce(0xd, FFmulSpec(1, b), FFmulSpec(2, c), FFmulSpec(3, d), FFmulSpec(1, a));
    TurnOnce(9, FFmulSpec(3, a), FFmulSpec(1, b), FFmulSpec(1, c), FFmulSpec(2, d));
  }

  lemma TurnOnce(k: bv8, a: bv8, b: bv8, c: bv8, d: bv8)
    ensures Sum4(FFmulSpec(k, a), FFmulSpec(k, b), FFmulSpec(k, c), FFmulSpec(k, d))
            == Sum4(FFmulSpec(k, d), FFmulSpec(k, a), FFmulSpec(k, b), FFmulSpec(k, c))
  {
    Sum4Turn(FFmulSpec(k, a), FFmulSpec(k, b), FFmulSpec(k, c), FFmulSpec(k, d));
  }
}
