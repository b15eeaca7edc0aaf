// Printing and parsing the path part of a URL: /<path>;<params>?<query>#<frag>
module UrlPath {
  import opened Wrappers
  import opened UrlCoding

  type StringMap = map<Text, Text>

  datatype Path = Path(path: Text, params: StringMap, query: StringMap, frag: Text)

  const EMPTY := Path([], map[], map[], [])

  datatype Pair = Pair(key: Text, value: Text)

  function Put(m: StringMap, ps: seq<Pair>): StringMap
    decreases |ps|
  {
    if ps == [] then m else Put(m[ps[0].key := ps[0].value], ps[1..])
  }

  // The entries of a map in some order, each once.
  predicate Lists(ps: seq<Pair>, m: StringMap) {
    Put(map[], ps) == m && forall i, j :: 0 <= i < j < |ps| ==> ps[i].key != ps[j].key
  }

  function ItemText(p: Pair): Text {
    Encode(p.key, false) + ['='] + Encode(p.value, false)
  }

  function ItemTexts(ps: seq<Pair>): (r: seq<Text>)
    ensures |r| == |ps|
  {
    if ps == [] then [] else [ItemText(ps[0])] + ItemTexts(ps[1..])
  }

  function ParamsText(ps: seq<Pair>): Text {
    if ps == [] then [] else [';'] + ItemText(ps[0]) + ParamsText(ps[1..])
  }

  // Every item but the first comes after an ampersand.
  function MoreText(qs: seq<Pair>): Text {
    if qs == [] then [] else ['&'] + ItemText(qs[0]) + MoreText(qs[1..])
  }

  function QueryText(qs: seq<Pair>): Text {
    if qs == [] then [] else ['?'] + ItemText(qs[0]) + MoreText(qs[1..])
  }

  function FragText(frag: Text): Text {
    if frag == [] then [] else ['#'] + frag
  }

  function PathText(path: Text, ps: seq<Pair>, qs: seq<Pair>, frag: Text): Text {
    Encode(path, true) + (ParamsText(ps) + (QueryText(qs) + FragText(frag)))
  }

  // One `key=value`; None where the parser gives up.
  function ParseItem(t: Text): Option<Pair> {
    var kv := Split(t, '=');
    if |kv| != 2 || kv[0] == [] then None
    else
      var k, v := Decode(Plain, kv[0]), Decode(Plain, kv[1]);
      if k == None || v == None then None else Some(Pair(k.value, v.value))
  }

  function ParseItems(parts: seq<Text>, m: StringMap): Option<StringMap>
    decreases |parts|
  {
    if parts == [] then Some(m)
    else
      var p := ParseItem(parts[0]);
      if p == None then None else ParseItems(parts[1..], m[p.value.key := p.value.value])
  }

  function FirstOf(a: Option<nat>, b: Option<nat>): Option<nat> {
    if a.Some? then a else b
  }

  // substr() with an unsigned length: an end before the start wraps around and takes the rest.
  function Sub(s: Text, from: nat, end: Option<nat>): Text
    requires from <= |s| && (end.Some? ==> end.value <= |s|)
  {
    if end == None || end.value < from then s[from..] else s[from..end.value]
  }

  function ParseList(s: Text, at: Option<nat>, end: Option<nat>, sep: Byte, m: StringMap): Option<StringMap>
    requires at.Some? ==> at.value < |s|
    requires end.Some? ==> end.value <= |s|
  {
    if at == None then Some(m) else ParseItems(Split(Sub(s, at.value + 1, end), sep), m)
  }

  // The path ends at the first mark there is, in this order.
  function PathPart(s: Text): Option<Text> {
    Decode(Plain, Sub(s, 0, FirstOf(Find(s, ';'), FirstOf(Find(s, '?'), Find(s, '#')))))
  }

  function ParamsPart(s: Text, m: StringMap): Option<StringMap> {
    ParseList(s, Find(s, ';'), FirstOf(Find(s, '?'), Find(s, '#')), ';', m)
  }

  function QueryPart(s: Text, m: StringMap): Option<StringMap> {
    ParseList(s, Find(s, '?'), Find(s, '#'), '&', m)
  }

  function FragPart(s: Text, frag: Text): Option<Text> {
    var pound := Find(s, '#');
    if pound == None then Some(frag) else Decode(Plain, s[pound.value + 1..])
  }

  function Combine(a: Option<Text>, b: Option<StringMap>, c: Option<StringMap>, d: Option<Text>): Option<Path> {
    if a == None || b == None || c == None || d == None then None
    else Some(Path(a.value, b.value, c.value, d.value))
  }

  // The fields of a path that was not empty before are kept or added to.
  function Parse(s: Text, init: Path): Option<Path> {
    if s == [] || s[0] != '/' then None
    else Combine(PathPart(s), ParamsPart(s, init.params), QueryPart(s, init.query), FragPart(s, init.frag))
  }

  // A printed item parses back, unless its key is empty.
  lemma ItemParses(p: Pair)
    ensures ParseItem(ItemText(p)) == if p.key == [] then None else Some(p)
  {
    EncodeHides(p.key, false, '=');
    EncodeHides(p.value, false, '=');
    SplitFirst(Encode(p.key, false), Encode(p.value, false), '=');
    FindIsFirst(Encode(p.value, false), '=');
    DecodeEncode(p.key, false);
    DecodeEncode(p.value, false);
  }

  // An item is a key that is not empty, one equals sign, and a value; both are decoded.
  lemma ItemShape(k: Text, v: Text, t: Text)
    requires '=' !in k && '=' !in v
    ensures
      ParseItem(k + ['='] + v) ==
        if k == [] || Decode(Plain, k) == None || Decode(Plain, v) == None then None
        else Some(Pair(Decode(Plain, k).value, Decode(Plain, v).value))
    ensures ParseItem(k) == None && ParseItem(k + ['='] + v + ['='] + t) == None
  {
    FindIsFirst(k, '=');
    FindIsFirst(v, '=');
    SplitFirst(k, v, '=');
    SplitFirst(v, t, '=');
    Assoc(k + ['='], v, ['='] + t);
    Assoc(k + ['='] + v, ['='], t);
    Assoc(v, ['='], t);
    SplitFirst(k, v + ['='] + t, '=');
    assert |Split(t, '=')| >= 1;
    assert k + ['='] + v + ['='] + t == k + ['='] + (v + ['='] + t);
  }

  predicate HasEmptyKey(ps: seq<Pair>) {
    exists i :: 0 <= i < |ps| && ps[i].key == []
  }

  lemma {:induction false} ItemsParse(ps: seq<Pair>, m: StringMap)
    ensures ParseItems(ItemTexts(ps), m) == if HasEmptyKey(ps) then None else Some(Put(m, ps))
    decreases |ps|
  {
    if ps != [] {
      ItemParses(ps[0]);
      ItemsParse(ps[1..], m[ps[0].key := ps[0].value]);
      assert HasEmptyKey(ps) <==> ps[0].key == [] || HasEmptyKey(ps[1..]) by {
        if HasEmptyKey(ps[1..]) {
          var i :| 0 <= i < |ps[1..]| && ps[1..][i].key == [];
          assert ps[i + 1].key == [];
        }
      }
    }
  }

  // The characters that structure a path never occur inside a printed item.
  lemma ItemHides(p: Pair, c: Byte)
    requires c == ';' || c == '&' || c == '?' || c == '#'
    ensures c !in ItemText(p)
  {
    SpecialChars();
    EncodeHides(p.key, false, c);
    EncodeHides(p.value, false, c);
  }

  lemma SpecialChars()
    ensures forall b: bool :: ';' in Special(b) && '?' in Special(b) && '#' in Special(b) && '&' in Special(b)
  {
    assert FULL_SPECIAL[18] == ';' && FULL_SPECIAL[19] == '?' && FULL_SPECIAL[7] == '#' && FULL_SPECIAL[2] == '&';
    assert PATH_SPECIAL[18] == ';' && PATH_SPECIAL[19] == '?' && PATH_SPECIAL[7] == '#' && PATH_SPECIAL[2] == '&';
  }

  lemma {:induction false} ListsHide(ps: seq<Pair>, c: Byte)
    requires c == '?' || c == '#' || c == ';' || c == '&'
    ensures c != ';' ==> c !in ParamsText(ps)
    ensures c != '&' ==> c !in MoreText(ps)
    decreases |ps|
  {
    if ps != [] {
      ItemHides(ps[0], c);
      ListsHide(ps[1..], c);
    }
  }

  lemma {:induction false} ParamsJoin(ps: seq<Pair>)
    requires ps != []
    ensures ParamsText(ps) == [';'] + Join(ItemTexts(ps), ';')
    decreases |ps|
  {
    if |ps| > 1 {
      ParamsJoin(ps[1..]);
      assert ItemTexts(ps)[1..] == ItemTexts(ps[1..]);
    } else {
      assert ParamsText(ps[1..]) == [];
    }
  }

  lemma {:induction false} QueryJoin(qs: seq<Pair>)
    requires qs != []
    ensures ItemText(qs[0]) + MoreText(qs[1..]) == Join(ItemTexts(qs), '&')
    decreases |qs|
  {
    if |qs| > 1 {
      QueryJoin(qs[1..]);
      assert ItemTexts(qs)[1..] == ItemTexts(qs[1..]);
      assert qs[1..][0] == qs[1] && qs[1..][1..] == qs[2..];
      assert MoreText(qs[1..]) == ['&'] + (ItemText(qs[1]) + MoreText(qs[2..]));
    } else {
      assert MoreText(qs[1..]) == [];
    }
  }

  lemma {:induction false} TextsHide(ps: seq<Pair>, c: Byte)
    requires c == ';' || c == '&'
    ensures forall t :: t in ItemTexts(ps) ==> c !in t
    decreases |ps|
  {
    if ps != [] {
      ItemHides(ps[0], c);
      TextsHide(ps[1..], c);
    }
  }

  // Text without special characters is printed as it is.
  lemma {:induction false} EncodePlain(s: Text, pathMode: bool)
    requires forall c :: c in s ==> Unescaped(c, pathMode)
    ensures Encode(s, pathMode) == s
    decreases |s|
  {
    if s != [] {
      EscapedIff(s[0], pathMode);
      EncodePlain(s[1..], pathMode);
      assert s == [s[0]] + s[1..];
    }
  }

  lemma PlainItem(k: Byte, v: Byte)
    requires Unescaped(k, false) && Unescaped(v, false)
    ensures ItemText(Pair([k], [v])) == [k, '=', v]
  {
    EncodePlain([k], false);
    EncodePlain([v], false);
  }

  lemma TwoParams(p: Pair, q: Pair)
    ensures ParamsText([p, q]) == [';'] + ItemText(p) + ([';'] + ItemText(q))
  {
    assert [p, q][1..] == [q] && [q][1..] == [];
    assert ParamsText([q]) == [';'] + ItemText(q) + [];
  }

  lemma TwoQuery(p: Pair, q: Pair)
    ensures QueryText([p, q]) == ['?'] + ItemText(p) + (['&'] + ItemText(q))
  {
    assert [p, q][1..] == [q] && [q][1..] == [];
    assert MoreText([q]) == ['&'] + ItemText(q) + [];
  }

  // Where the marks go: /path;item;item?item&item#frag
  lemma PrintedForm(path: Text, frag: Text, p: Pair, q: Pair, x: Pair, y: Pair)
    requires frag != []
    ensures
      PathText(path, [p, q], [x, y], frag)
      == Encode(path, true)
         + ([';'] + ItemText(p) + ([';'] + ItemText(q)) + (['?'] + ItemText(x) + (['&'] + ItemText(y)) + (['#'] + frag)))
  {
    TwoParams(p, q);
    TwoQuery(x, y);
  }
}
