// Integers of 64 bits in one to ten bytes: seven bits a byte, the top bit set on all bytes but the last.
module ScalableInteger {
  import opened Wrappers

  const TWO64 := 0x1_0000_0000_0000_0000

  type U64 = x: int | 0 <= x < TWO64

  // The least value that takes n bytes; a value of n bytes is stored less this number.
  const MIN_TABLE: seq<U64> := [
    0, 0, 0x80, 0x4080, 0x20_4080, 0x1020_4080, 0x8_1020_4080, 0x408_1020_4080,
    0x2_0408_1020_4080, 0x102_0408_1020_4080, 0x8102_0408_1020_4080]

  const MAX_TABLE: seq<U64> := [
    0, 0x7f, 0x407f, 0x20_407f, 0x1020_407f, 0x8_1020_407f, 0x408_1020_407f,
    0x2_0408_1020_407f, 0x102_0408_1020_407f, 0x8102_0408_1020_407f]

  function Pow128(n: nat): (p: nat)
    ensures p > 0
  {
    if n == 0 then 1 else 128 * Pow128(n - 1)
  }

  lemma Powers()
    ensures Pow128(1) == 0x80 && Pow128(2) == 0x4000 && Pow128(3) == 0x20_0000 && Pow128(4) == 0x1000_0000
    ensures Pow128(5) == 0x8_0000_0000 && Pow128(6) == 0x400_0000_0000 && Pow128(7) == 0x2_0000_0000_0000
    ensures Pow128(8) == 0x100_0000_0000_0000 && Pow128(9) == 0x8000_0000_0000_0000 && Pow128(10) == 64 * TWO64
  {
    assert Pow128(2) == 128 * Pow128(1);
    assert Pow128(4) == 128 * Pow128(3) && Pow128(3) == 128 * Pow128(2);
    assert Pow128(6) == 128 * Pow128(5) && Pow128(5) == 128 * Pow128(4);
    assert Pow128(8) == 128 * Pow128(7) && Pow128(7) == 128 * Pow128(6);
    assert Pow128(10) == 128 * Pow128(9) && Pow128(9) == 128 * Pow128(8);
  }

  // Lengths share the values without gap or overlap: n bytes hold the next 128^n values.
  lemma TablesFit(n: nat)
    requires 1 <= n <= 9
    ensures MIN_TABLE[n + 1] == MIN_TABLE[n] + Pow128(n) && MAX_TABLE[n] == MIN_TABLE[n + 1] - 1
  {
    Powers();
  }

  function NeedFrom(v: U64, n: nat): (r: nat)
    requires 1 <= n <= 10
    ensures n <= r <= 10
    ensures r < 10 ==> v <= MAX_TABLE[r]
    ensures forall k :: n <= k < r ==> v > MAX_TABLE[k]
    decreases 10 - n
  {
    if n == 10 || v <= MAX_TABLE[n] then n else NeedFrom(v, n + 1)
  }

  // How many bytes a value takes.
  function Need(v: U64): nat {
    NeedFrom(v, 1)
  }

  lemma NeedFits(v: U64)
    ensures 1 <= Need(v) <= 10 && MIN_TABLE[Need(v)] <= v && v - MIN_TABLE[Need(v)] < Pow128(Need(v))
  {
    var n := Need(v);
    Powers();
    if n > 1 {
      assert v > MAX_TABLE[n - 1];
      TablesFit(n - 1);
    }
    if n < 10 {
      TablesFit(n);
    }
  }

  // A value takes n bytes exactly when it lies in their range.
  lemma NeedIff(v: U64, n: nat)
    requires 1 <= n <= 9
    ensures Need(v) == n <==> MIN_TABLE[n] <= v < MIN_TABLE[n] + Pow128(n)
  {
    TablesFit(n);
    NeedFits(v);
    if Need(v) < n {
      Ordered(Need(v) + 1, n);
      TablesFit(Need(v));
    }
  }

  lemma {:induction false} Ordered(a: nat, b: nat)
    requires 1 <= a <= b <= 10
    ensures MIN_TABLE[a] <= MIN_TABLE[b]
    decreases b
  {
    if a < b {
      Ordered(a, b - 1);
      TablesFit(b - 1);
    }
  }

  // The n low groups of seven bits, most significant first, each with its top bit set.
  function Lead(x: nat, n: nat): (s: seq<byte>)
    ensures |s| == n && forall b :: b in s ==> b >= 0x80
  {
    if n == 0 then [] else Lead(x / 0x80, n - 1) + [0x80 + x % 0x80]
  }

  function Code(v: U64): (s: seq<byte>)
    ensures |s| == Need(v)
  {
    NeedFits(v);
    var x := v - MIN_TABLE[Need(v)];
    Lead(x / 0x80, Need(v) - 1) + [x % 0x80]
  }

  // The number that a string of seven-bit groups stands for.
  function Value(s: seq<byte>): nat {
    if s == [] then 0 else 0x80 * Value(s[..|s| - 1]) + s[|s| - 1] % 0x80
  }

  lemma {:induction false} ValueLead(x: nat, n: nat)
    requires x < Pow128(n)
    ensures Value(Lead(x, n)) == x
    decreases n
  {
    if n > 0 {
      ValueLead(x / 0x80, n - 1);
      var s := Lead(x, n);
      assert s[..n - 1] == Lead(x / 0x80, n - 1);
    }
  }

  lemma {:induction false} LeadValue(s: seq<byte>)
    requires forall b :: b in s ==> b >= 0x80
    ensures Lead(Value(s), |s|) == s && Value(s) < Pow128(|s|)
    decreases |s|
  {
    if s != [] {
      var t := s[..|s| - 1];
      forall b | b in t ensures b >= 0x80 {
        assert b in s;
      }
      LeadValue(t);
      assert s[|s| - 1] in s;
      assert Value(s) / 0x80 == Value(t) && Value(s) % 0x80 == s[|s| - 1] - 0x80;
      assert s == t + [s[|s| - 1]];
    }
  }

  // Where the first code in a string ends: the first byte without its top bit.
  predicate Complete(s: seq<byte>, n: nat) {
    1 <= n <= |s| && s[n - 1] < 0x80 && forall k :: 0 <= k < n - 1 ==> s[k] >= 0x80
  }

  // What the parser finds. A code of eleven bytes makes it look past the end of its table.
  datatype Parsed = Incomplete | Beyond | Number(bytes: nat, value: U64)

  function Meaning(s: seq<byte>, n: nat): U64
    requires 1 <= n <= 10 && n <= |s|
  {
    (MIN_TABLE[n] + Value(s[..n]) % TWO64) % TWO64
  }

  function ParseFrom(s: seq<byte>, n: nat): Parsed
    decreases |s| - n
  {
    if n >= |s| || n > 10 then Incomplete
    else if s[n] >= 0x80 then ParseFrom(s, n + 1)
    else if n == 10 then Beyond
    else Number(n + 1, Meaning(s, n + 1))
  }

  function Parse(s: seq<byte>): Parsed {
    ParseFrom(s, 0)
  }

  lemma {:induction false} ParseComplete(s: seq<byte>, n: nat, from: nat)
    requires Complete(s, n) && from < n <= 10
    ensures ParseFrom(s, from) == Number(n, Meaning(s, n))
    decreases n - from
  {
    if from < n - 1 {
      ParseComplete(s, n, from + 1);
    }
  }

  lemma {:induction false} ParseFromIff(s: seq<byte>, from: nat)
    requires from <= |s| && from <= 11 && forall k :: 0 <= k < from ==> s[k] >= 0x80
    ensures ParseFrom(s, from) == Beyond <==> Complete(s, 11)
    ensures ParseFrom(s, from) == Incomplete <==> forall n :: 1 <= n <= 11 ==> !Complete(s, n)
    decreases |s| - from
  {
    if from < |s| && from <= 10 {
      if s[from] >= 0x80 {
        ParseFromIff(s, from + 1);
      } else {
        assert Complete(s, from + 1);
      }
    }
  }

  // The three outcomes of the parser: it looks past its table exactly on a code of eleven bytes, it finds nothing
  // exactly if no code ends within eleven bytes, and otherwise it finds the first code.
  lemma OutcomeIff(s: seq<byte>)
    ensures Parse(s) == Beyond <==> Complete(s, 11)
    ensures Parse(s) == Incomplete <==> forall n :: 1 <= n <= 11 ==> !Complete(s, n)
    ensures Parse(s).Number? <==> exists n :: 1 <= n <= 10 && Complete(s, n)
    ensures Parse(s).Number? ==> var n := Parse(s).bytes; Complete(s, n) && Parse(s) == Number(n, Meaning(s, n))
  {
    ParseFromIff(s, 0);
    if n :| 1 <= n <= 10 && Complete(s, n) {
      ParseComplete(s, n, 0);
    } else if !Complete(s, 11) {
      assert Parse(s) == Incomplete;
    }
  }

  // The shortest such code: ten groups that go on, and one that ends.
  lemma ElevenBytes()
    ensures Parse(seq(10, _ => 0x80) + [0]) == Beyond
  {
    var s: seq<byte> := seq(10, _ => 0x80) + [0];
    assert Complete(s, 11);
    OutcomeIff(s);
  }

  lemma CodeComplete(v: U64, rest: seq<byte>)
    ensures Complete(Code(v) + rest, Need(v)) && (Code(v) + rest)[..Need(v)] == Code(v)
  {
    NeedFits(v);
    var x := v - MIN_TABLE[Need(v)];
    var lead := Lead(x / 0x80, Need(v) - 1);
    forall k | 0 <= k < Need(v) - 1 ensures (Code(v) + rest)[k] >= 0x80 {
      assert lead[k] in lead;
    }
  }

  lemma CodeValue(v: U64)
    ensures Value(Code(v)) == v - MIN_TABLE[Need(v)]
  {
    NeedFits(v);
    var n := Need(v);
    var x := v - MIN_TABLE[n];
    assert Pow128(n) == 0x80 * Pow128(n - 1);
    assert x / 0x80 < Pow128(n - 1);
    ValueLead(x / 0x80, n - 1);
    assert Code(v)[..n - 1] == Lead(x / 0x80, n - 1);
  }

  // Every value is read back, whatever follows it.
  lemma ParseCode(v: U64, rest: seq<byte>)
    ensures Parse(Code(v) + rest) == Number(|Code(v)|, v)
  {
    NeedFits(v);
    CodeComplete(v, rest);
    CodeValue(v);
    ParseComplete(Code(v) + rest, Need(v), 0);
    WrapBack(MIN_TABLE[Need(v)], v);
  }

  lemma WrapBack(m: U64, v: U64)
    requires m <= v
    ensures (m + (v - m) % TWO64) % TWO64 == v
  {
  }

  // The ends of the first ranges.
  lemma Examples()
    ensures Code(0) == [0] && Code(127) == [0x7f]
    ensures Code(128) == [0x80, 0x00] && Code(16511) == [0xff, 0x7f]
  {
    assert Need(0) == 1 && Need(127) == 1 && Need(128) == 2 && Need(16511) == 2;
  }

  lemma ThreeBytes()
    ensures Code(16512) == [0x80, 0x80, 0x00]
  {
    assert Need(16512) == NeedFrom(16512, 2) == NeedFrom(16512, 3) == 3;
    assert Lead(0, 2) == Lead(0, 1) + [0x80] && Lead(0, 1) == Lead(0, 0) + [0x80];
  }

  // No code is the beginning of another one.
  lemma PrefixFree(a: U64, b: U64, rest: seq<byte>)
    requires Code(a) + rest == Code(b)
    ensures a == b && rest == []
  {
    ParseCode(a, rest);
    ParseCode(b, []);
    assert Code(b) + [] == Code(b);
  }

  lemma CodeOfRange(v: U64, n: nat, x: nat)
    requires 1 <= n <= 9 && v == MIN_TABLE[n] + x && x < Pow128(n)
    ensures Code(v) == Lead(x / 0x80, n - 1) + [x % 0x80]
  {
    NeedIff(v, n);
  }

  // The groups of a complete string.
  lemma CompleteValue(s: seq<byte>, n: nat)
    requires Complete(s, n)
    ensures var x := Value(s[..n]);
      x < Pow128(n) && s[..n] == Lead(x / 0x80, n - 1) + [x % 0x80]
  {
    var t, last := s[..n - 1], s[n - 1];
    forall b | b in t ensures b >= 0x80 {
    }
    LeadValue(t);
    assert s[..n][..n - 1] == t;
    assert Value(s[..n]) == 0x80 * Value(t) + last;
    GroupSplit(Value(t), last);
    assert s[..n] == t + [last];
  }

  lemma GroupSplit(v: nat, g: nat)
    requires g < 0x80
    ensures (0x80 * v + g) / 0x80 == v && (0x80 * v + g) % 0x80 == g
  {
  }

  // A complete string of up to nine bytes is the code of what it means.
  lemma CodeParse(s: seq<byte>, n: nat)
    requires Complete(s, n) && n <= 9
    ensures Code(Meaning(s, n)) == s[..n]
  {
    CompleteValue(s, n);
    SmallMeaning(s, n);
    CodeOfRange(Meaning(s, n), n, Value(s[..n]));
  }

  lemma SmallMeaning(s: seq<byte>, n: nat)
    requires 1 <= n <= 9 && n <= |s| && Value(s[..n]) < Pow128(n)
    ensures Meaning(s, n) == MIN_TABLE[n] + Value(s[..n])
  {
    TablesFit(n);
    NoWrap(MIN_TABLE[n], Value(s[..n]));
  }

  lemma NoWrap(m: nat, v: nat)
    requires m + v < TWO64
    ensures (m + v % TWO64) % TWO64 == m + v
  {
  }

  // No complete string of up to ten bytes is shorter than the code of what it means.
  lemma CodeIsShortest(s: seq<byte>, n: nat)
    requires Complete(s, n) && n <= 10
    ensures |Code(Meaning(s, n))| <= n
  {
    NeedFits(Meaning(s, n));
    if n <= 9 {
      CodeParse(s, n);
    }
  }

  method NeedBytes(value: U64) returns (need: nat)
    ensures need == Need(value)
  {
    need := 1;
    while need < 10
      invariant 1 <= need <= 10 && NeedFrom(value, need) == Need(value)
      decreases 10 - need
    {
      if value <= MAX_TABLE[need] { break; }
      need := need + 1;
    }
  }

  // The writer, from the last byte to the first; 0 when the buffer is too small.
  method DumpScalableInteger(value: U64, buff: array<byte>, from: nat) returns (n: nat)
    requires from <= buff.Length
    modifies buff
    ensures n == if buff.Length - from < Need(value) then 0 else Need(value)
    ensures buff[..from + n] == old(buff[..from]) + (if n == 0 then [] else Code(value))
    ensures buff[from + n..] == old(buff[from + n..])
  {
    var need := NeedBytes(value);
    if buff.Length - from < need {
      return 0;
    }
    NeedFits(value);
    var store := value;
    if need > 1 {
      store := store - MIN_TABLE[need];
    }
    WriteGroups(store, buff, from, need);
    return need;
  }

  method WriteGroups(value: nat, buff: array<byte>, from: nat, n: nat)
    requires 1 <= n && from + n <= buff.Length
    modifies buff
    ensures buff[from..from + n] == Lead(value / 0x80, n - 1) + [value % 0x80]
    ensures buff[..from] == old(buff[..from]) && buff[from + n..] == old(buff[from + n..])
  {
    var store := value;
    buff[from + n - 1] := store % 0x80;
    store := store / 0x80;
    ghost var goal := Lead(store, n - 1) + [value % 0x80];
    var pos := n - 1;
    while pos > 0
      invariant 0 <= pos < n
      invariant goal == Lead(store, pos) + buff[from + pos..from + n]
      invariant buff[..from] == old(buff[..from]) && buff[from + n..] == old(buff[from + n..])
    {
      pos := pos - 1;
      buff[from + pos] := 0x80 + store % 0x80;
      assert buff[from + pos..from + n] == [0x80 + store % 0x80] + buff[from + pos + 1..from + n];
      store := store / 0x80;
    }
  }

  method ParseScalableInteger(buff: seq<byte>) returns (r: Parsed)
    ensures r == Parse(buff)
    ensures r == Beyond <==> Complete(buff, 11)
    ensures r == Incomplete <==> forall n :: 1 <= n <= 11 ==> !Complete(buff, n)
    ensures r.Number? ==> r.bytes <= 10 && Complete(buff, r.bytes) && r.value == Meaning(buff, r.bytes)
  {
    OutcomeIff(buff);
    var value: U64 := 0;
    var i := 0;
    while i < |buff| && i <= 10
      invariant i <= |buff| && i <= 11
      invariant value == Value(buff[..i]) % TWO64 && ParseFrom(buff, i) == Parse(buff)
    {
      GroupWraps(Value(buff[..i]), buff[i] % 0x80);
      assert buff[..i + 1][..i] == buff[..i];
      value := (value * 0x80) % TWO64 + buff[i] % 0x80;
      if buff[i] < 0x80 {
        if i == 10 {
          return Beyond;  // the table has no entry 11
        }
        return Number(i + 1, (MIN_TABLE[i + 1] + value) % TWO64);
      }
      i := i + 1;
    }
    return Incomplete;
  }

  // A shift by seven bits leaves room for the next group.
  lemma GroupWraps(v: nat, g: nat)
    requires g < 0x80
    ensures v % TWO64 * 0x80 % TWO64 + g == (v * 0x80 + g) % TWO64
  {
    var k := v / TWO64;
    assert v * 0x80 == (k * 0x80) * TWO64 + v % TWO64 * 0x80;
    var q := v % TWO64 * 0x80 / TWO64;
    assert v % TWO64 * 0x80 == q * TWO64 + v % TWO64 * 0x80 % TWO64;
    assert v * 0x80 + g == (k * 0x80 + q) * TWO64 + (v % TWO64 * 0x80 % TWO64 + g);
  }
}
