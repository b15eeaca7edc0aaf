// The AES rounds on values, and why the inverse cipher undoes the cipher for every key schedule.
module AesModel {
  import opened AesBytes

  datatype Row = Row(c0: bv8, c1: bv8, c2: bv8, c3: bv8)

  datatype Block = Block(r0: Row, r1: Row, r2: Row, r3: Row)

  function SubRow(r: Row): Row {
    Row(Sbox(r.c0), Sbox(r.c1), Sbox(r.c2), Sbox(r.c3))
  }

  function InvSubRow(r: Row): Row {
    Row(InvSbox(r.c0), InvSbox(r.c1), InvSbox(r.c2), InvSbox(r.c3))
  }

  function Sub(s: Block): Block {
    Block(SubRow(s.r0), SubRow(s.r1), SubRow(s.r2), SubRow(s.r3))
  }

  function InvSub(s: Block): Block {
    Block(InvSubRow(s.r0), InvSubRow(s.r1), InvSubRow(s.r2), InvSubRow(s.r3))
  }

  // A row turned left by one place.
  function Turn(r: Row): Row {
    Row(r.c1, r.c2, r.c3, r.c0)
  }

  // Row r turns left by r places.
  function Shift(s: Block): Block {
    Block(s.r0, Turn(s.r1), Turn(Turn(s.r2)), Turn(Turn(Turn(s.r3))))
  }

  function InvShift(s: Block): Block {
    Block(s.r0, Turn(Turn(Turn(s.r1))), Turn(Turn(s.r2)), Turn(s.r3))
  }

  // A mixed row, from the row itself and those below it.
  function MixRow(a: Row, b: Row, c: Row, d: Row): Row {
    Row(MixByte(a.c0, b.c0, c.c0, d.c0), MixByte(a.c1, b.c1, c.c1, d.c1),
        MixByte(a.c2, b.c2, c.c2, d.c2), MixByte(a.c3, b.c3, c.c3, d.c3))
  }

  function InvMixRow(a: Row, b: Row, c: Row, d: Row): Row {
    Row(InvMixByte(a.c0, b.c0, c.c0, d.c0), InvMixByte(a.c1, b.c1, c.c1, d.c1),
        InvMixByte(a.c2, b.c2, c.c2, d.c2), InvMixByte(a.c3, b.c3, c.c3, d.c3))
  }

  function Mix(s: Block): Block {
    Block(MixRow(s.r0, s.r1, s.r2, s.r3), MixRow(s.r1, s.r2, s.r3, s.r0),
          MixRow(s.r2, s.r3, s.r0, s.r1), MixRow(s.r3, s.r0, s.r1, s.r2))
  }

  function InvMix(s: Block): Block {
    Block(InvMixRow(s.r0, s.r1, s.r2, s.r3), InvMixRow(s.r1, s.r2, s.r3, s.r0),
          InvMixRow(s.r2, s.r3, s.r0, s.r1), InvMixRow(s.r3, s.r0, s.r1, s.r2))
  }

  function AddRow(r: Row, k: Row): Row {
    Row(Xor(r.c0, k.c0), Xor(r.c1, k.c1), Xor(r.c2, k.c2), Xor(r.c3, k.c3))
  }

  function Add(s: Block, k: Block): Block {
    Block(AddRow(s.r0, k.r0), AddRow(s.r1, k.r1), AddRow(s.r2, k.r2), AddRow(s.r3, k.r3))
  }

  // Bytes go into the state column by column, and out of it the same way.
  function Load(x: seq<bv8>): Block
    requires |x| == 16
  {
    Block(Row(x[0], x[4], x[8], x[12]), Row(x[1], x[5], x[9], x[13]),
          Row(x[2], x[6], x[10], x[14]), Row(x[3], x[7], x[11], x[15]))
  }

  function Store(s: Block): (r: seq<bv8>)
    ensures |r| == 16
  {
    [s.r0.c0, s.r1.c0, s.r2.c0, s.r3.c0, s.r0.c1, s.r1.c1, s.r2.c1, s.r3.c1,
     s.r0.c2, s.r1.c2, s.r2.c2, s.r3.c2, s.r0.c3, s.r1.c3, s.r2.c3, s.r3.c3]
  }

  // What a round is made of, with the ways back.
  datatype Parts = Parts(
    scramble: Block -> Block, unscramble: Block -> Block,
    mix: Block -> Block, unmix: Block -> Block,
    add: (Block, Block) -> Block)

  function Scramble(s: Block): Block {
    Shift(Sub(s))
  }

  function Unscramble(s: Block): Block {
    InvSub(InvShift(s))
  }

  const STANDARD := Parts(Scramble, Unscramble, Mix, InvMix, Add)

  // Round i of the cipher with its round key, and step i of the inverse cipher.
  function RoundOf(p: Parts, s: Block, k: Block, i: nat): Block {
    var t := p.scramble(s);
    p.add(if i != 10 then p.mix(t) else t, k)
  }

  function InvRoundOf(p: Parts, s: Block, k: Block, i: nat): Block {
    var t := p.add(p.unscramble(s), k);
    if i != 0 then p.unmix(t) else t
  }

  // The state after round n of the cipher; `w` holds the round keys.
  function Rounds(p: Parts, s: Block, w: seq<Block>, n: nat): Block
    requires |w| == 11 && n <= 10
    decreases |w| + n
  {
    if n == 0 then p.add(s, w[0]) else RoundOf(p, Rounds(p, s, w, n - 1), w[n], n)
  }

  // The state of the inverse cipher after it used round keys 10 down to n.
  function InvRounds(p: Parts, s: Block, w: seq<Block>, n: nat): Block
    requires |w| == 11 && n <= 10
    decreases |w| - n
  {
    if n == 10 then p.add(s, w[10]) else InvRoundOf(p, InvRounds(p, s, w, n + 1), w[n], n)
  }

  predicate WayBack(p: Parts, s: Block, k: Block) {
    p.unscramble(p.scramble(s)) == s && p.unmix(p.mix(s)) == s && p.add(p.add(s, k), k) == s
  }

  // Every part of a round can be undone.
  ghost predicate Undoable(p: Parts) {
    forall s, k :: WayBack(p, s, k)
  }

  lemma SubRowInverse(r: Row)
    ensures InvSubRow(SubRow(r)) == r
  {
    SboxInverse(r.c0);
    SboxInverse(r.c1);
    SboxInverse(r.c2);
    SboxInverse(r.c3);
  }

  lemma ShiftSubInverse(s: Block)
    ensures InvSub(InvShift(Shift(Sub(s)))) == s
  {
    SubRowInverse(s.r0);
    SubRowInverse(s.r1);
    SubRowInverse(s.r2);
    SubRowInverse(s.r3);
  }

  lemma AddRowInverse(r: Row, k: Row)
    ensures AddRow(AddRow(r, k), k) == r
  {
    XorTwice(r.c0, k.c0);
    XorTwice(r.c1, k.c1);
    XorTwice(r.c2, k.c2);
    XorTwice(r.c3, k.c3);
  }

  lemma AddInverse(s: Block, k: Block)
    ensures Add(Add(s, k), k) == s
  {
    AddRowInverse(s.r0, k.r0);
    AddRowInverse(s.r1, k.r1);
    AddRowInverse(s.r2, k.r2);
    AddRowInverse(s.r3, k.r3);
  }

  lemma MixRowInverse(a: Row, b: Row, c: Row, d: Row)
    ensures InvMixRow(MixRow(a, b, c, d), MixRow(b, c, d, a), MixRow(c, d, a, b), MixRow(d, a, b, c)) == a
  {
    Unmix(a.c0, b.c0, c.c0, d.c0);
    Unmix(a.c1, b.c1, c.c1, d.c1);
    Unmix(a.c2, b.c2, c.c2, d.c2);
    Unmix(a.c3, b.c3, c.c3, d.c3);
  }

  lemma MixInverse(s: Block)
    ensures InvMix(Mix(s)) == s
  {
    MixRowInverse(s.r0, s.r1, s.r2, s.r3);
    MixRowInverse(s.r1, s.r2, s.r3, s.r0);
    MixRowInverse(s.r2, s.r3, s.r0, s.r1);
    MixRowInverse(s.r3, s.r0, s.r1, s.r2);
  }

  lemma StandardUndoable()
    ensures Undoable(STANDARD)
  {
    forall s, k ensures WayBack(STANDARD, s, k) {
      ShiftSubInverse(s);
      MixInverse(s);
      AddInverse(s, k);
    }
  }

  // Undoing rounds 10 to n leaves the state of round n - 1, scrambled.
  lemma {:induction false} InvRoundsUndo(p: Parts, x: Block, w: seq<Block>, n: nat)
    requires Undoable(p) && |w| == 11 && 1 <= n <= 10
    ensures InvRounds(p, Rounds(p, x, w, 10), w, n) == p.scramble(Rounds(p, x, w, n - 1))
    decreases 10 - n
  {
    var r := Rounds(p, x, w, n - 1);
    var t := p.scramble(r);
    assert WayBack(p, t, w[n]) && WayBack(p, p.mix(t), w[n]);
    if n < 10 {
      InvRoundsUndo(p, x, w, n + 1);
      assert WayBack(p, Rounds(p, x, w, n), w[n]);
    }
  }

  lemma AllRoundsUndo(p: Parts, s: Block, w: seq<Block>)
    requires Undoable(p) && |w| == 11
    ensures InvRounds(p, Rounds(p, s, w, 10), w, 0) == s
  {
    InvRoundsUndo(p, s, w, 1);
    assert WayBack(p, Rounds(p, s, w, 0), w[0]) && WayBack(p, s, w[0]);
  }

  function Cipher(x: seq<bv8>, w: seq<Block>): (r: seq<bv8>)
    requires |x| == 16 && |w| == 11
    ensures |r| == 16
  {
    Store(Rounds(STANDARD, Load(x), w, 10))
  }

  function InvCipher(x: seq<bv8>, w: seq<Block>): (r: seq<bv8>)
    requires |x| == 16 && |w| == 11
    ensures |r| == 16
  {
    Store(InvRounds(STANDARD, Load(x), w, 0))
  }

  lemma LoadStore(s: Block)
    ensures Load(Store(s)) == s
  {
  }

  lemma StoreLoad(x: seq<bv8>)
    requires |x| == 16
    ensures Store(Load(x)) == x
  {
  }

  // Section 5.3 of FIPS 197: for every key schedule and every block the inverse cipher undoes the cipher.
  lemma CipherInverse(x: seq<bv8>, w: seq<Block>)
    requires |x| == 16 && |w| == 11
    ensures InvCipher(Cipher(x, w), w) == x
  {
    LoadStore(Rounds(STANDARD, Load(x), w, 10));
    StandardUndoable();
    AllRoundsUndo(STANDARD, Load(x), w);
    StoreLoad(x);
  }

  // The round constants, and a column of a state from top to bottom.
  function Rc(i: nat): bv8
    requires 1 <= i <= 10
  {
    [0x01, 0x02, 0x04, 0x08, 0x10, 0x20, 0x40, 0x80, 0x1b, 0x36][i - 1]
  }

  // Section 5.2 of FIPS 197: the round constants are the powers of two of the field.
  lemma RcIsPower(i: nat)
    requires 1 <= i <= 10
    ensures i == 1 ==> Rc(i) == 1
    ensures i > 1 ==> Rc(i) == Twice(Rc(i - 1))
  {
  }

  function Column(s: Block, j: nat): Row
    requires j < 4
  {
    if j == 0 then Row(s.r0.c0, s.r1.c0, s.r2.c0, s.r3.c0)
    else if j == 1 then Row(s.r0.c1, s.r1.c1, s.r2.c1, s.r3.c1)
    else if j == 2 then Row(s.r0.c2, s.r1.c2, s.r2.c2, s.r3.c2)
    else Row(s.r0.c3, s.r1.c3, s.r2.c3, s.r3.c3)
  }

  // What is added to column j of the last round key to give column j of round key i.
  function Added(prev: Block, next: Block, i: nat, j: nat): Row
    requires 1 <= i <= 10 && j < 4
  {
    if j > 0 then Column(next, j - 1)
    else
      var t := SubRow(Turn(Column(prev, 3)));
      t.(c0 := Xor(t.c0, Rc(i)))
  }

  // One round key follows from the one before: section 5.2 of FIPS 197.
  predicate Follows(prev: Block, next: Block, i: nat)
    requires 1 <= i <= 10
  {
    forall j :: 0 <= j < 4 ==> Column(next, j) == AddRow(Column(prev, j), Added(prev, next, i, j))
  }

  predicate IsExpansion(key: seq<bv8>, w: seq<Block>) {
    && |key| == 16 && |w| == 11 && w[0] == Load(key)
    && forall i :: 1 <= i <= 10 ==> Follows(w[i - 1], w[i], i)
  }

  // A key has one expansion only.
  lemma {:induction false} OneExpansion(key: seq<bv8>, v: seq<Block>, w: seq<Block>, n: nat)
    requires IsExpansion(key, v) && IsExpansion(key, w) && n < 11
    ensures v[n] == w[n]
    decreases n
  {
    if n > 0 {
      OneExpansion(key, v, w, n - 1);
      assert Follows(v[n - 1], v[n], n) && Follows(w[n - 1], w[n], n);
      SameNext(w[n - 1], v[n], w[n], n);
    }
  }

  lemma SameNext(prev: Block, a: Block, b: Block, i: nat)
    requires 1 <= i <= 10 && Follows(prev, a, i) && Follows(prev, b, i)
    ensures a == b
  {
    assert Column(a, 0) == Column(b, 0);
    assert Column(a, 1) == Column(b, 1);
    assert Column(a, 2) == Column(b, 2);
    assert Column(a, 3) == Column(b, 3);
  }
}
