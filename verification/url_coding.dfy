// Percent-encoding of byte strings, and splitting at a separator.
module UrlCoding {
  import opened Wrappers

  type Byte = c: char | c as int < 256 witness 'a'

  type Text = seq<Byte>

  const FULL_SPECIAL := " +&=<>\"#,%{}|\\^[]`;?:@$/."
  const PATH_SPECIAL := " +&=<>\"#,%{}|\\^[]`;?:@$"

  function Special(pathMode: bool): string {
    if pathMode then PATH_SPECIAL else FULL_SPECIAL
  }

  // isprint() in the C locale.
  predicate IsPrint(c: Byte) {
    0x20 <= c as int <= 0x7e
  }

  function CharToHex(v: nat): Byte
    requires v < 16
  {
    if v < 10 then ('0' as int + v) as char else ('A' as int + v - 10) as char
  }

  // None stands for the exception.
  function HexCharToValue(c: Byte): (v: Option<nat>)
    ensures v.Some? ==> v.value < 16
  {
    if '0' <= c <= '9' then Some(c as int - '0' as int)
    else if 'A' <= c <= 'F' then Some(c as int - 'A' as int + 10)
    else if 'a' <= c <= 'f' then Some(c as int - 'a' as int + 10)
    else None
  }

  lemma HexInverse(v: nat)
    requires v < 16
    ensures HexCharToValue(CharToHex(v)) == Some(v)
  {
  }

  function EncodeChar(c: Byte, pathMode: bool): Text {
    if c in Special(pathMode) || !IsPrint(c) then ['%', CharToHex(c as int / 16), CharToHex(c as int % 16)]
    else [c]
  }

  function Encode(s: Text, pathMode: bool): Text {
    if s == [] then [] else EncodeChar(s[0], pathMode) + Encode(s[1..], pathMode)
  }

  // Where the decoder is inside an escape.
  datatype State = Plain | Start | HalfHex(tmp: nat)

  // None when a character that is not a hex digit turns up inside an escape; an escape cut short is dropped.
  function Decode(st: State, s: Text): Option<Text>
    requires st.HalfHex? ==> st.tmp < 16
    decreases |s|
  {
    if s == [] then Some([])
    else if st == Plain then
      if s[0] == '%' then Decode(Start, s[1..])
      else
        var r := Decode(Plain, s[1..]);
        if r == None then None else Some([s[0]] + r.value)
    else
      var v := HexCharToValue(s[0]);
      if v == None then None
      else if st == Start then Decode(HalfHex(v.value), s[1..])
      else
        var r := Decode(Plain, s[1..]);
        if r == None then None else Some([(16 * st.tmp + v.value) as char] + r.value)
  }

  lemma SpecialHasPercent(pathMode: bool)
    ensures '%' in Special(pathMode)
  {
    assert FULL_SPECIAL[9] == '%' && PATH_SPECIAL[9] == '%';
  }

  lemma DecodeEscape(c: Byte, rest: Text)
    ensures Decode(Plain, ['%', CharToHex(c as int / 16), CharToHex(c as int % 16)] + rest)
      == var r := Decode(Plain, rest); if r == None then None else Some([c] + r.value)
  {
    var hi, lo := c as int / 16, c as int % 16;
    var e := ['%', CharToHex(hi), CharToHex(lo)] + rest;
    HexInverse(hi);
    HexInverse(lo);
    var e1 := e[1..];
    var e2 := e1[1..];
    assert e1[0] == CharToHex(hi) && e2[0] == CharToHex(lo) && e2[1..] == rest;
    assert Decode(Plain, e) == Decode(Start, e1) == Decode(HalfHex(hi), e2);
  }

  lemma DecodeChar(c: Byte, rest: Text, pathMode: bool)
    ensures Decode(Plain, EncodeChar(c, pathMode) + rest)
      == var r := Decode(Plain, rest); if r == None then None else Some([c] + r.value)
  {
    SpecialHasPercent(pathMode);
    if EncodeChar(c, pathMode) == [c] && c != '%' {
      assert ([c] + rest)[1..] == rest;
    } else {
      DecodeEscape(c, rest);
    }
  }

  // Decoding undoes encoding on every byte string, in both modes.
  lemma {:induction false} DecodeEncode(s: Text, pathMode: bool)
    ensures Decode(Plain, Encode(s, pathMode)) == Some(s)
    decreases |s|
  {
    if s != [] {
      assert s == [s[0]] + s[1..];
      DecodeEncode(s[1..], pathMode);
      DecodeChar(s[0], Encode(s[1..], pathMode), pathMode);
    }
  }

  // The digits, by their place; small letters are read too, but not written.
  lemma HexDigits(c: Byte, v: nat)
    requires v < 16
    ensures CharToHex(v) == "0123456789ABCDEF"[v]
    ensures HexCharToValue(c) == Some(v) <==> c == "0123456789ABCDEF"[v] || c == "0123456789abcdef"[v]
  {
  }

  lemma DecodePair(h: Byte, l: Byte, rest: Text)
    requires HexCharToValue(h).Some? && HexCharToValue(l).Some?
    ensures Decode(Plain, ['%', h, l] + rest)
      == var r := Decode(Plain, rest);
         if r == None then None else Some([(16 * HexCharToValue(h).value + HexCharToValue(l).value) as char] + r.value)
  {
    var e := ['%', h, l] + rest;
    var e1 := e[1..];
    var e2 := e1[1..];
    assert e1[0] == h && e2[0] == l && e2[1..] == rest;
    assert Decode(Plain, e) == Decode(Start, e1) == Decode(HalfHex(HexCharToValue(h).value), e2);
  }

  // An escape with a character that is no hex digit fails.
  lemma DecodeBroken(h: Byte, l: Byte, rest: Text)
    ensures HexCharToValue(h) == None ==> Decode(Plain, ['%', h] + rest) == None
    ensures HexCharToValue(h).Some? && HexCharToValue(l) == None ==> Decode(Plain, ['%', h, l] + rest) == None
  {
    var e := ['%', h] + rest;
    assert e[1..][0] == h;
    assert Decode(Plain, e) == Decode(Start, e[1..]);
    var f := ['%', h, l] + rest;
    var f1 := f[1..];
    assert f1[0] == h && f1[1..][0] == l;
    assert Decode(Plain, f) == Decode(Start, f1);
    if HexCharToValue(h).Some? {
      assert Decode(Start, f1) == Decode(HalfHex(HexCharToValue(h).value), f1[1..]);
    }
  }

  // One that the string cuts short is dropped.
  lemma DecodeCut(h: Byte)
    requires HexCharToValue(h).Some?
    ensures Decode(Plain, ['%']) == Some([]) && Decode(Plain, ['%', h]) == Some([])
  {
    assert ['%'][1..] == [] && ['%', h][1..] == [h] && [h][1..] == [];
    assert Decode(Plain, ['%', h]) == Decode(Start, [h]) == Decode(HalfHex(HexCharToValue(h).value), []);
  }

  // The characters that encoding leaves alone.
  predicate Unescaped(c: Byte, pathMode: bool) {
    || 'a' <= c <= 'z' || 'A' <= c <= 'Z' || '0' <= c <= '9'
    || c == '!' || '\'' <= c <= '*' || c == '-' || c == '_' || c == '~'
    || (pathMode && (c == '.' || c == '/'))
  }

  lemma EscapedIff(c: Byte, pathMode: bool)
    ensures EncodeChar(c, pathMode) == [c] <==> Unescaped(c, pathMode)
  {
    assert EncodeChar(c, pathMode) == [c] <==> c !in Special(pathMode) && IsPrint(c);
    FullIsPath(c);
    if c in FULL_SPECIAL || !IsPrint(c) { SpecialEscapes(c); } else { OthersStay(c); }
  }

  lemma FullIsPath(c: Byte)
    ensures c in FULL_SPECIAL <==> c in PATH_SPECIAL || c == '/' || c == '.'
    ensures '/' !in PATH_SPECIAL && '.' !in PATH_SPECIAL
  {
    assert FULL_SPECIAL == PATH_SPECIAL + "/.";
  }

  lemma SpecialEscapes(c: Byte)
    requires c in FULL_SPECIAL || !IsPrint(c)
    ensures !Unescaped(c, false)
  {
    if c in FULL_SPECIAL {
      NoLetter(c);
      NoMark(c);
    }
  }

  lemma NoLetter(c: Byte)
    requires c in FULL_SPECIAL
    ensures !('a' <= c <= 'z' || 'A' <= c <= 'Z' || '0' <= c <= '9')
  {
  }

  lemma NoMark(c: Byte)
    requires c in FULL_SPECIAL
    ensures !(c == '!' || '\'' <= c <= '*' || c == '-' || c == '_' || c == '~')
  {
  }

  lemma OthersStay(c: Byte)
    requires c !in FULL_SPECIAL && IsPrint(c)
    ensures Unescaped(c, false)
  {
  }

  // What an encoded string cannot hold: the special characters other than the escape itself.
  lemma {:induction false} EncodeHides(s: Text, pathMode: bool, c: Byte)
    requires c in Special(pathMode) && c != '%'
    ensures c !in Encode(s, pathMode)
    decreases |s|
  {
    if s != [] {
      EncodeHides(s[1..], pathMode, c);
      SeparatorIsNotHex(c, pathMode);
    }
  }

  lemma SeparatorIsNotHex(c: Byte, pathMode: bool)
    requires c in Special(pathMode)
    ensures forall v :: 0 <= v < 16 ==> CharToHex(v) != c
  {
    forall v | 0 <= v < 16 ensures CharToHex(v) !in FULL_SPECIAL && CharToHex(v) !in PATH_SPECIAL {
    }
  }

  // Decoding leaves a string as it is exactly when it holds no escape.
  lemma {:induction false} DecodeShortens(st: State, s: Text)
    requires st.HalfHex? ==> st.tmp < 16
    ensures Decode(st, s).Some? ==> |Decode(st, s).value| <= |s|
    ensures Decode(st, s).Some? && s != [] && (st != Plain || '%' in s) ==> |Decode(st, s).value| < |s| || st.HalfHex?
    decreases |s|
  {
    if s != [] {
      if st == Plain && s[0] != '%' {
        DecodeShortens(Plain, s[1..]);
      } else if st == Plain {
        DecodeShortens(Start, s[1..]);
      } else if HexCharToValue(s[0]).Some? {
        DecodeShortens(if st == Start then HalfHex(HexCharToValue(s[0]).value) else Plain, s[1..]);
      }
    }
  }

  lemma {:induction false} DecodePlain(s: Text)
    requires '%' !in s
    ensures Decode(Plain, s) == Some(s)
    decreases |s|
  {
    if s != [] {
      assert s == [s[0]] + s[1..];
      DecodePlain(s[1..]);
    }
  }

  lemma DecodeSameIff(s: Text)
    ensures Decode(Plain, s) == Some(s) <==> '%' !in s
  {
    if '%' in s {
      DecodeShortens(Plain, s);
    } else {
      DecodePlain(s);
    }
  }

  // The first place of a character.
  function Find(s: Text, c: Byte): (r: Option<nat>)
    ensures r.Some? ==> r.value < |s|
  {
    if s == [] then None
    else if s[0] == c then Some(0)
    else
      var r := Find(s[1..], c);
      if r == None then None else Some(r.value + 1)
  }

  lemma {:induction false} FindIsFirst(s: Text, c: Byte)
    ensures Find(s, c) == None <==> c !in s
    ensures Find(s, c).Some? ==> s[Find(s, c).value] == c && c !in s[..Find(s, c).value]
    decreases |s|
  {
    if s != [] && s[0] != c {
      FindIsFirst(s[1..], c);
      if Find(s, c).Some? {
        assert s[..Find(s, c).value] == [s[0]] + s[1..][..Find(s, c).value - 1];
      }
    }
  }

  lemma {:induction false} FindAfter(a: Text, b: Text, c: Byte)
    requires c !in a
    ensures Find(a + b, c) == if Find(b, c) == None then None else Some(|a| + Find(b, c).value)
    decreases |a|
  {
    if a == [] {
      assert a + b == b;
    } else {
      assert (a + b)[1..] == a[1..] + b;
      FindAfter(a[1..], b, c);
    }
  }

  // The pieces of a string between separators; one piece more than there are separators.
  function Split(s: Text, sep: Byte): (r: seq<Text>)
    ensures r != []
    decreases |s|
  {
    var k := Find(s, sep);
    if k == None then [s] else [s[..k.value]] + Split(s[k.value + 1..], sep)
  }

  function Join(parts: seq<Text>, sep: Byte): Text
    requires parts != []
  {
    if |parts| == 1 then parts[0] else parts[0] + [sep] + Join(parts[1..], sep)
  }

  lemma JoinFirst(p: Text, parts: seq<Text>, sep: Byte)
    requires parts != []
    ensures Join([p] + parts, sep) == p + [sep] + Join(parts, sep)
  {
    assert ([p] + parts)[1..] == parts;
  }

  // No piece holds the separator, and joining the pieces gives the string back.
  lemma {:induction false} JoinSplit(s: Text, sep: Byte)
    ensures forall p :: p in Split(s, sep) ==> sep !in p
    ensures Join(Split(s, sep), sep) == s
    decreases |s|
  {
    var k := Find(s, sep);
    FindIsFirst(s, sep);
    if k.Some? {
      var head, rest := s[..k.value], s[k.value + 1..];
      JoinSplit(rest, sep);
      assert Split(s, sep) == [head] + Split(rest, sep);
      JoinFirst(head, Split(rest, sep), sep);
      assert s == head + [sep] + rest;
    }
  }

  lemma SplitFirst(a: Text, rest: Text, sep: Byte)
    requires sep !in a
    ensures Split(a + [sep] + rest, sep) == [a] + Split(rest, sep)
  {
    var s := a + [sep] + rest;
    assert s == a + ([sep] + rest);
    assert ([sep] + rest)[0] == sep;
    FindAfter(a, [sep] + rest, sep);
    assert s[..|a|] == a && s[|a| + 1..] == rest;
  }

  // Splitting undoes joining when no part holds the separator.
  lemma {:induction false} SplitJoin(parts: seq<Text>, sep: Byte)
    requires parts != [] && forall p :: p in parts ==> sep !in p
    ensures Split(Join(parts, sep), sep) == parts
    decreases |parts|
  {
    assert parts[0] in parts;
    FindIsFirst(parts[0], sep);
    if |parts| > 1 {
      SplitJoin(parts[1..], sep);
      SplitFirst(parts[0], Join(parts[1..], sep), sep);
      assert parts == [parts[0]] + parts[1..];
    }
  }

  // The piece from `start` on, and where the next one begins.
  method NextPiece(s: Text, start: nat, sep: Byte) returns (piece: Text, next: Option<nat>)
    requires start <= |s|
    ensures next == None ==> Split(s[start..], sep) == [piece]
    ensures next.Some? ==> start < next.value <= |s| && Split(s[start..], sep) == [piece] + Split(s[next.value..], sep)
  {
    var end := Find(s[start..], sep);
    if end == None {
      return s[start..], None;
    }
    var k := end.value;
    SplitOnce(s[start..], sep, k);
    SliceSlice(s, start, k);
    return s[start..start + k], Some(start + k + 1);
  }

  lemma SplitOnce(t: Text, sep: Byte, k: nat)
    requires Find(t, sep) == Some(k)
    ensures Split(t, sep) == [t[..k]] + Split(t[k + 1..], sep)
  {
  }

  lemma SliceSlice<T>(s: seq<T>, start: nat, k: nat)
    requires start + k < |s|
    ensures s[start..][..k] == s[start..start + k] && s[start..][k + 1..] == s[start + k + 1..]
  {
  }

  method SplitAll(s: Text, sep: Byte) returns (r: seq<Text>)
    ensures r == Split(s, sep)
  {
    var start := 0;
    r := [];
    assert s[0..] == s;
    while true
      invariant start <= |s| && r + Split(s[start..], sep) == Split(s, sep)
      decreases |s| - start
    {
      var piece, next := NextPiece(s, start, sep);
      if next == None {
        return r + [piece];
      }
      Assoc(r, [piece], Split(s[next.value..], sep));
      r := r + [piece];
      start := next.value;
    }
  }

  method UrlEncode(localStr: Text, pathMode: bool) returns (url: Text)
    ensures url == Encode(localStr, pathMode)
  {
    url := [];
    for i := 0 to |localStr|
      invariant url == Encode(localStr[..i], pathMode)
    {
      var c := localStr[i];
      EncodeSnoc(localStr[..i], c, pathMode);
      assert localStr[..i + 1] == localStr[..i] + [c];
      ghost var before := url;
      if c in Special(pathMode) || !IsPrint(c) {
        url := url + ['%'];
        url := url + [CharToHex(c as int / 16)];
        url := url + [CharToHex(c as int % 16)];
      } else {
        url := url + [c];
      }
      assert url == before + EncodeChar(c, pathMode);
    }
    assert localStr[..|localStr|] == localStr;
  }

  lemma {:induction false} EncodeSnoc(s: Text, c: Byte, pathMode: bool)
    ensures Encode(s + [c], pathMode) == Encode(s, pathMode) + EncodeChar(c, pathMode)
    decreases |s|
  {
    if s == [] {
      assert [c][1..] == [];
    } else {
      assert (s + [c])[1..] == s[1..] + [c];
      EncodeSnoc(s[1..], c, pathMode);
    }
  }

  // What the decoder still has to add to what it has produced.
  function Rest(done: Text, st: State, s: Text): Option<Text>
    requires st.HalfHex? ==> st.tmp < 16
  {
    var r := Decode(st, s);
    if r == None then None else Some(done + r.value)
  }

  // None is the exception leaving the function.
  method UrlDecode(urlStr: Text) returns (r: Option<Text>)
    ensures r == Decode(Plain, urlStr)
  {
    var local: Text := [];
    var st := Plain;
    assert urlStr[0..] == urlStr;
    RestNothing(st, urlStr);
    for i := 0 to |urlStr|
      invariant st.HalfHex? ==> st.tmp < 16
      invariant Rest(local, st, urlStr[i..]) == Decode(Plain, urlStr)
    {
      var c := urlStr[i];
      assert urlStr[i..][1..] == urlStr[i + 1..];
      ghost var was := local;
      if st == Plain {
        if c == '%' {
          st := Start;
        } else {
          local := local + [c];
        }
      } else {
        var v := HexCharToValue(c);
        if v == None {
          return None;
        }
        if st == Start {
          st := HalfHex(v.value);
        } else {
          local := local + [(16 * st.tmp + v.value) as char];
          st := Plain;
        }
      }
      RestStep(was, local, st, urlStr[i + 1..]);
    }
    assert local + [] == local;
    return Some(local);
  }

  lemma RestNothing(st: State, s: Text)
    requires st.HalfHex? ==> st.tmp < 16
    ensures Rest([], st, s) == Decode(st, s)
  {
    var r := Decode(st, s);
    if r.Some? {
      assert [] + r.value == r.value;
    }
  }

  lemma RestStep(was: Text, now: Text, st: State, s: Text)
    requires st.HalfHex? ==> st.tmp < 16
    requires |was| <= |now| && now[..|was|] == was
    ensures Rest(now, st, s) == (var r := Rest(now[|was|..], st, s); if r == None then None else Some(was + r.value))
  {
    assert now == was + now[|was|..];
    var r := Decode(st, s);
    if r.Some? {
      assert now + r.value == was + (now[|was|..] + r.value);
    }
  }
}
