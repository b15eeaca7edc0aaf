// The AES cipher as it is written: loops that rewrite a 4x4 state, and the round keys, in place.
module Aes {
  import opened AesBytes
  import opened AesModel

  predicate Square(a: array2<bv8>) {
    a.Length0 == 4 && a.Length1 == 4
  }

  function RowOf(a: array2<bv8>, r: int): Row
    requires Square(a) && 0 <= r < 4
    reads a
  {
    Row(a[r, 0], a[r, 1], a[r, 2], a[r, 3])
  }

  function Grid(a: array2<bv8>): Block
    requires Square(a)
    reads a
  {
    Block(RowOf(a, 0), RowOf(a, 1), RowOf(a, 2), RowOf(a, 3))
  }

  method SubBytes(state: array2<bv8>)
    requires Square(state)
    modifies state
    ensures Grid(state) == Sub(old(Grid(state)))
  {
    for r := 0 to 4
      invariant forall i, j :: 0 <= i < 4 && 0 <= j < 4 ==> state[i, j] == if i < r then Sbox(old(state[i, j])) else old(state[i, j])
    {
      for c := 0 to 4
        invariant forall i, j :: 0 <= i < 4 && 0 <= j < 4 ==>
          state[i, j] == if i < r || (i == r && j < c) then Sbox(old(state[i, j])) else old(state[i, j])
      {
        state[r, c] := Sbox(state[r, c]);
      }
    }
  }

  method InvSubBytes(state: array2<bv8>)
    requires Square(state)
    modifies state
    ensures Grid(state) == InvSub(old(Grid(state)))
  {
    for r := 0 to 4
      invariant forall i, j :: 0 <= i < 4 && 0 <= j < 4 ==> state[i, j] == if i < r then InvSbox(old(state[i, j])) else old(state[i, j])
    {
      for c := 0 to 4
        invariant forall i, j :: 0 <= i < 4 && 0 <= j < 4 ==>
          state[i, j] == if i < r || (i == r && j < c) then InvSbox(old(state[i, j])) else old(state[i, j])
      {
        state[r, c] := InvSbox(state[r, c]);
      }
    }
  }

  function TurnBy(r: Row, n: nat): Row {
    if n == 0 then r else Turn(TurnBy(r, n - 1))
  }

  lemma TurnFour(r: Row)
    ensures TurnBy(r, 0) == r && TurnBy(r, 1) == Turn(r) && TurnBy(r, 2) == Turn(Turn(r))
    ensures TurnBy(r, 3) == Turn(Turn(Turn(r)))
  {
    assert TurnBy(r, 2) == Turn(TurnBy(r, 1));
  }

  method CopyTurned(state: array2<bv8>, r: int, n: nat) returns (t: array<bv8>)
    requires Square(state) && 0 <= r < 4 && n < 4
    ensures fresh(t) && t.Length == 4 && Row(t[0], t[1], t[2], t[3]) == TurnBy(RowOf(state, r), n)
  {
    t := new bv8[4];
    for c := 0 to 4
      invariant forall j :: 0 <= j < c ==> t[j] == state[r, (j + n) % 4]
    {
      t[c] := state[r, (c + n) % 4];
    }
    TurnFour(RowOf(state, r));
    assert t[0] == state[r, n % 4] && t[1] == state[r, (1 + n) % 4] && t[2] == state[r, (2 + n) % 4] && t[3] == state[r, (3 + n) % 4];
  }

  // Row r turns left by n places, by way of a buffer.
  method TurnRow(state: array2<bv8>, r: int, n: nat)
    requires Square(state) && 0 <= r < 4 && n < 4
    modifies state
    ensures RowOf(state, r) == TurnBy(old(RowOf(state, r)), n)
    ensures forall i :: 0 <= i < 4 && i != r ==> RowOf(state, i) == old(RowOf(state, i))
  {
    var t := CopyTurned(state, r, n);
    for c := 0 to 4
      invariant Row(t[0], t[1], t[2], t[3]) == TurnBy(old(RowOf(state, r)), n)
      invariant forall i, j :: 0 <= i < 4 && 0 <= j < 4 ==> state[i, j] == if i == r && j < c then t[j] else old(state[i, j])
    {
      state[r, c] := t[c];
    }
  }

  method ShiftRows(state: array2<bv8>)
    requires Square(state)
    modifies state
    ensures Grid(state) == Shift(old(Grid(state)))
  {
    for r := 1 to 4
      invariant forall i :: 0 <= i < 4 ==> RowOf(state, i) == TurnBy(old(RowOf(state, i)), if i < r then i else 0)
    {
      TurnRow(state, r, r);
    }
    TurnFour(old(RowOf(state, 1)));
    TurnFour(old(RowOf(state, 2)));
    TurnFour(old(RowOf(state, 3)));
  }

  method InvShiftRows(state: array2<bv8>)
    requires Square(state)
    modifies state
    ensures Grid(state) == InvShift(old(Grid(state)))
  {
    for r := 1 to 4
      invariant forall i :: 0 <= i < 4 ==> RowOf(state, i) == TurnBy(old(RowOf(state, i)), if 0 < i < r then 4 - i else 0)
    {
      TurnRow(state, r, 4 - r);
    }
    TurnFour(old(RowOf(state, 1)));
    TurnFour(old(RowOf(state, 2)));
    TurnFour(old(RowOf(state, 3)));
  }

  function ColumnOf(a: array2<bv8>, c: int): (t: seq<bv8>)
    requires Square(a) && 0 <= c < 4
    reads a
    ensures |t| == 4
  {
    [a[0, c], a[1, c], a[2, c], a[3, c]]
  }

  method CopyColumn(state: array2<bv8>, c: int) returns (t: array<bv8>)
    requires Square(state) && 0 <= c < 4
    ensures fresh(t) && t.Length == 4 && t[..] == ColumnOf(state, c)
  {
    t := new bv8[4];
    for r := 0 to 4
      invariant forall i :: 0 <= i < r ==> t[i] == state[i, c]
    {
      t[r] := state[r, c];
    }
  }

  function MixedAt(t: seq<bv8>, r: int): bv8
    requires |t| == 4 && 0 <= r < 4
  {
    MixByte(t[r], t[(r + 1) % 4], t[(r + 2) % 4], t[(r + 3) % 4])
  }

  method MixOne(t: array<bv8>, r: int) returns (b: bv8)
    requires t.Length == 4 && 0 <= r < 4
    ensures b == MixedAt(t[..], r)
  {
    var p := FFmul(0x02, t[r]);
    var q := FFmul(0x03, t[(r + 1) % 4]);
    var u := FFmul(0x01, t[(r + 2) % 4]);
    var v := FFmul(0x01, t[(r + 3) % 4]);
    b := Sum4(p, q, u, v);
  }

  method MixColumn(state: array2<bv8>, c: int)
    requires Square(state) && 0 <= c < 4
    modifies state
    ensures forall i, j :: 0 <= i < 4 && 0 <= j < 4 ==>
      state[i, j] == if j == c then MixedAt(old(ColumnOf(state, c)), i) else old(state[i, j])
  {
    var t := CopyColumn(state, c);
    for r := 0 to 4
      invariant t[..] == old(ColumnOf(state, c))
      invariant forall i, j :: 0 <= i < 4 && 0 <= j < 4 ==>
        state[i, j] == if j == c && i < r then MixedAt(t[..], i) else old(state[i, j])
    {
      var b := MixOne(t, r);
      state[r, c] := b;
    }
  }

  method MixColumns(state: array2<bv8>)
    requires Square(state)
    modifies state
    ensures Grid(state) == Mix(old(Grid(state)))
  {
    for c := 0 to 4
      invariant forall i, j :: 0 <= i < 4 && 0 <= j < 4 ==>
        state[i, j] == if j < c then MixedAt(old(ColumnOf(state, j)), i) else old(state[i, j])
    {
      MixColumn(state, c);
    }
  }

  function InvMixedAt(t: seq<bv8>, r: int): bv8
    requires |t| == 4 && 0 <= r < 4
  {
    InvMixByte(t[r], t[(r + 1) % 4], t[(r + 2) % 4], t[(r + 3) % 4])
  }

  method InvMixOne(t: array<bv8>, r: int) returns (b: bv8)
    requires t.Length == 4 && 0 <= r < 4
    ensures b == InvMixedAt(t[..], r)
  {
    var p := FFmul(0x0e, t[r]);
    var q := FFmul(0x0b, t[(r + 1) % 4]);
    var u := FFmul(0x0d, t[(r + 2) % 4]);
    var v := FFmul(0x09, t[(r + 3) % 4]);
    b := Sum4(p, q, u, v);
  }

  method InvMixColumn(state: array2<bv8>, c: int)
    requires Square(state) && 0 <= c < 4
    modifies state
    ensures forall i, j :: 0 <= i < 4 && 0 <= j < 4 ==>
      state[i, j] == if j == c then InvMixedAt(old(ColumnOf(state, c)), i) else old(state[i, j])
  {
    var t := CopyColumn(state, c);
    for r := 0 to 4
      invariant t[..] == old(ColumnOf(state, c))
      invariant forall i, j :: 0 <= i < 4 && 0 <= j < 4 ==>
        state[i, j] == if j == c && i < r then InvMixedAt(t[..], i) else old(state[i, j])
    {
      var b := InvMixOne(t, r);
      state[r, c] := b;
    }
  }

  method InvMixColumns(state: array2<bv8>)
    requires Square(state)
    modifies state
    ensures Grid(state) == InvMix(old(Grid(state)))
  {
    for c := 0 to 4
      invariant forall i, j :: 0 <= i < 4 && 0 <= j < 4 ==>
        state[i, j] == if j < c then InvMixedAt(old(ColumnOf(state, j)), i) else old(state[i, j])
    {
      InvMixColumn(state, c);
    }
  }

  method LoadState(input: array<bv8>) returns (state: array2<bv8>)
    requires input.Length == 16
    ensures fresh(state) && Square(state) && Grid(state) == Load(input[..])
  {
    state := new bv8[4, 4];
    for r := 0 to 4
      invariant forall i, j :: 0 <= i < r && 0 <= j < 4 ==> state[i, j] == input[j * 4 + i]
    {
      for c := 0 to 4
        invariant forall i, j :: 0 <= i < 4 && 0 <= j < 4 && (i < r || (i == r && j < c)) ==> state[i, j] == input[j * 4 + i]
      {
        state[r, c] := input[c * 4 + r];
      }
    }
  }

  method StoreState(state: array2<bv8>, output: array<bv8>)
    requires Square(state) && output.Length == 16
    modifies output
    ensures output[..] == Store(Grid(state))
  {
    for r := 0 to 4
      invariant forall i, j :: 0 <= i < r && 0 <= j < 4 ==> output[j * 4 + i] == state[i, j]
    {
      for c := 0 to 4
        invariant forall i, j :: 0 <= i < 4 && 0 <= j < 4 && (i < r || (i == r && j < c)) ==> output[j * 4 + i] == state[i, j]
      {
        output[c * 4 + r] := state[r, c];
      }
    }
  }

  class AES {
    // Round key i is w[i, .., ..].
    const w: array3<bv8>

    ghost predicate Valid() {
      w.Length0 == 11 && w.Length1 == 4 && w.Length2 == 4
    }

    function KeyRow(i: int, r: int): Row
      requires w.Length0 == 11 && w.Length1 == 4 && w.Length2 == 4 && 0 <= i < 11 && 0 <= r < 4
      reads w
    {
      Row(w[i, r, 0], w[i, r, 1], w[i, r, 2], w[i, r, 3])
    }

    function Key(i: int): Block
      requires w.Length0 == 11 && w.Length1 == 4 && w.Length2 == 4 && 0 <= i < 11
      reads w
    {
      Block(KeyRow(i, 0), KeyRow(i, 1), KeyRow(i, 2), KeyRow(i, 3))
    }

    function Schedule(): (s: seq<Block>)
      requires w.Length0 == 11 && w.Length1 == 4 && w.Length2 == 4
      reads w
      ensures |s| == 11
    {
      seq(11, i requires 0 <= i < 11 reads w => Key(i))
    }

    constructor (key: array<bv8>)
      requires key.Length == 16
      ensures Valid() && fresh(w) && IsExpansion(key[..], Schedule())
    {
      w := new bv8[11, 4, 4];
      new;
      KeyExpansion(key);
    }

    method AddRoundKey(state: array2<bv8>, n: int)
      requires Valid() && Square(state) && 0 <= n < 11
      modifies state
      ensures Grid(state) == Add(old(Grid(state)), Key(n))
    {
      for c := 0 to 4
        invariant forall i, j :: 0 <= i < 4 && 0 <= j < 4 ==> state[i, j] == if j < c then Xor(old(state[i, j]), w[n, i, j]) else old(state[i, j])
      {
        for r := 0 to 4
          invariant forall i, j :: 0 <= i < 4 && 0 <= j < 4 ==>
            state[i, j] == if j < c || (j == c && i < r) then Xor(old(state[i, j]), w[n, i, j]) else old(state[i, j])
        {
          state[r, c] := Xor(state[r, c], w[n, r, c]);
        }
      }
    }

    method Round(state: array2<bv8>, i: int)
      requires Valid() && Square(state) && 1 <= i <= 10
      modifies state
      ensures Grid(state) == RoundOf(STANDARD, old(Grid(state)), Key(i), i)
    {
      SubBytes(state);
      ShiftRows(state);
      if i != 10 {
        MixColumns(state);
      }
      AddRoundKey(state, i);
    }

    method InvRound(state: array2<bv8>, i: int)
      requires Valid() && Square(state) && 0 <= i < 10
      modifies state
      ensures Grid(state) == InvRoundOf(STANDARD, old(Grid(state)), Key(i), i)
    {
      InvShiftRows(state);
      InvSubBytes(state);
      AddRoundKey(state, i);
      if i != 0 {
        InvMixColumns(state);
      }
    }

    // `input` and `output` may be the same buffer.
    method Cipher(input: array<bv8>, output: array<bv8>)
      requires Valid() && input.Length == 16 && output.Length == 16
      modifies output
      ensures output[..] == AesModel.Cipher(old(input[..]), Schedule())
    {
      var state := LoadState(input);
      ghost var s := Grid(state);
      AddRoundKey(state, 0);
      for i := 1 to 11
        invariant Grid(state) == Rounds(STANDARD, s, Schedule(), i - 1)
      {
        Round(state, i);
      }
      StoreState(state, output);
    }

    method InvCipher(input: array<bv8>, output: array<bv8>)
      requires Valid() && input.Length == 16 && output.Length == 16
      modifies output
      ensures output[..] == AesModel.InvCipher(old(input[..]), Schedule())
    {
      var state := LoadState(input);
      ghost var s := Grid(state);
      AddRoundKey(state, 10);
      for i := 10 downto 0
        invariant Grid(state) == InvRounds(STANDARD, s, Schedule(), i)
      {
        InvRound(state, i);
      }
      StoreState(state, output);
    }

    method KeyExpansion(key: array<bv8>)
      requires Valid() && key.Length == 16
      modifies w
      ensures IsExpansion(key[..], Schedule())
    {
      CopyKey(key);
      for i := 1 to 11
        invariant Key(0) == Load(key[..])
        invariant forall n :: 1 <= n < i ==> Follows(Key(n - 1), Key(n), n)
      {
        NextKey(i);
      }
    }

    method CopyKey(key: array<bv8>)
      requires Valid() && key.Length == 16
      modifies w
      ensures Key(0) == Load(key[..])
    {
      for r := 0 to 4
        invariant forall i, j :: 0 <= i < r && 0 <= j < 4 ==> w[0, i, j] == key[i + j * 4]
      {
        for c := 0 to 4
          invariant forall i, j :: 0 <= i < 4 && 0 <= j < 4 && (i < r || (i == r && j < c)) ==> w[0, i, j] == key[i + j * 4]
        {
          w[0, r, c] := key[r + c * 4];
        }
      }
    }

    // Computes round key i from round key i - 1, column by column.
    method NextKey(i: int)
      requires Valid() && 1 <= i <= 10
      modifies w
      ensures Follows(Key(i - 1), Key(i), i)
      ensures forall n :: 0 <= n < 11 && n != i ==> Key(n) == old(Key(n))
    {
      for j := 0 to 4
        invariant forall n :: 0 <= n < 11 && n != i ==> Key(n) == old(Key(n))
        invariant forall k :: 0 <= k < j ==> Column(Key(i), k) == AddRow(Column(Key(i - 1), k), Added(Key(i - 1), Key(i), i, k))
      {
        NextColumn(i, j);
      }
    }

    method NextColumn(i: int, j: int)
      requires Valid() && 1 <= i <= 10 && 0 <= j < 4
      modifies w
      ensures forall n :: 0 <= n < 11 && n != i ==> Key(n) == old(Key(n))
      ensures forall k :: 0 <= k < 4 && k != j ==> Column(Key(i), k) == old(Column(Key(i), k))
      ensures Column(Key(i), j) == AddRow(Column(Key(i - 1), j), old(Added(Key(i - 1), Key(i), i, j)))
    {
      var t := LastColumn(i, j);
      if j == 0 {
        Core(t, i);
      }
      AddColumn(i, j, t);
    }

    method LastColumn(i: int, j: int) returns (t: array<bv8>)
      requires Valid() && 1 <= i <= 10 && 0 <= j < 4
      ensures fresh(t) && t.Length == 4
      ensures Word(t) == if j > 0 then Column(Key(i), j - 1) else Column(Key(i - 1), 3)
    {
      t := new bv8[4];
      for r := 0 to 4
        invariant forall n :: 0 <= n < r ==> t[n] == if j > 0 then w[i, n, j - 1] else w[i - 1, n, 3]
      {
        t[r] := if j > 0 then w[i, r, j - 1] else w[i - 1, r, 3];
      }
    }

    method AddColumn(i: int, j: int, t: array<bv8>)
      requires Valid() && 1 <= i <= 10 && 0 <= j < 4 && t.Length == 4
      modifies w
      ensures forall n :: 0 <= n < 11 && n != i ==> Key(n) == old(Key(n))
      ensures forall k :: 0 <= k < 4 && k != j ==> Column(Key(i), k) == old(Column(Key(i), k))
      ensures Column(Key(i), j) == AddRow(Column(Key(i - 1), j), Word(t))
    {
      for r := 0 to 4
        invariant forall n, m, k :: 0 <= n < 11 && 0 <= m < 4 && 0 <= k < 4 ==>
          w[n, m, k] == if n == i && k == j && m < r then Xor(old(w[i - 1, m, j]), t[m]) else old(w[n, m, k])
      {
        w[i, r, j] := Xor(w[i - 1, r, j], t[r]);
      }
    }
  }

  function Word(t: array<bv8>): Row
    requires t.Length == 4
    reads t
  {
    Row(t[0], t[1], t[2], t[3])
  }

  // A column is turned and substituted, and the round constant added to its top.
  method Core(t: array<bv8>, i: int)
    requires t.Length == 4 && 1 <= i <= 10
    modifies t
    ensures var u := SubRow(Turn(old(Word(t)))); Word(t) == u.(c0 := Xor(u.c0, Rc(i)))
  {
    SubTurn(t);
    t[0] := Xor(t[0], Rc(i));
  }

  method SubTurn(t: array<bv8>)
    requires t.Length == 4
    modifies t
    ensures Word(t) == SubRow(Turn(old(Word(t))))
  {
    var temp := t[0];
    for r := 0 to 3
      invariant t[0] == if r > 0 then Sbox(old(t[1])) else old(t[0])
      invariant t[1] == if r > 1 then Sbox(old(t[2])) else old(t[1])
      invariant t[2] == if r > 2 then Sbox(old(t[3])) else old(t[2])
      invariant t[3] == old(t[3])
    {
      t[r] := Sbox(t[(r + 1) % 4]);
    }
    t[3] := Sbox(temp);
  }
}
