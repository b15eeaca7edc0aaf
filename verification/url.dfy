// Printing and parsing as it is written: loops over entries and pieces.
module Url {
  import opened Wrappers
  import opened UrlCoding
  import opened UrlPath

  lemma {:induction false} ParamsSnoc(ps: seq<Pair>, p: Pair)
    ensures ParamsText(ps + [p]) == ParamsText(ps) + ([';'] + ItemText(p))
    decreases |ps|
  {
    if ps == [] {
      assert [p][1..] == [];
      assert ParamsText([p]) == [';'] + ItemText(p) + ParamsText([]);
    } else {
      assert (ps + [p])[1..] == ps[1..] + [p];
      ParamsSnoc(ps[1..], p);
      Assoc([';'] + ItemText(ps[0]), ParamsText(ps[1..]), [';'] + ItemText(p));
    }
  }

  lemma {:induction false} MoreSnoc(qs: seq<Pair>, p: Pair)
    ensures MoreText(qs + [p]) == MoreText(qs) + (['&'] + ItemText(p))
    decreases |qs|
  {
    if qs == [] {
      assert [p][1..] == [];
      assert MoreText([p]) == ['&'] + ItemText(p) + MoreText([]);
    } else {
      assert (qs + [p])[1..] == qs[1..] + [p];
      MoreSnoc(qs[1..], p);
      Assoc(['&'] + ItemText(qs[0]), MoreText(qs[1..]), ['&'] + ItemText(p));
    }
  }

  lemma QuerySnoc(qs: seq<Pair>, i: nat)
    requires i < |qs|
    ensures QueryText(qs[..i + 1]) == if i == 0 then ['?'] + ItemText(qs[0]) else QueryText(qs[..i]) + (['&'] + ItemText(qs[i]))
  {
    if i == 0 {
      assert qs[..1][1..] == [];
      assert MoreText(qs[..1][1..]) == [];
    } else {
      assert qs[..i + 1][1..] == qs[..i][1..] + [qs[i]];
      MoreSnoc(qs[..i][1..], qs[i]);
      Assoc(['?'] + ItemText(qs[0]), MoreText(qs[..i][1..]), ['&'] + ItemText(qs[i]));
    }
  }

  method PrintItem(p: Pair) returns (s: Text)
    ensures s == ItemText(p)
  {
    var k := UrlEncode(p.key, false);
    var v := UrlEncode(p.value, false);
    return k + ['='] + v;
  }

  method PrintParams(ps: seq<Pair>) returns (s: Text)
    ensures s == ParamsText(ps)
  {
    s := [];
    for i := 0 to |ps|
      invariant s == ParamsText(ps[..i])
    {
      var item := PrintItem(ps[i]);
      ParamsSnoc(ps[..i], ps[i]);
      assert ps[..i + 1] == ps[..i] + [ps[i]];
      s := s + ([';'] + item);
    }
    assert ps[..|ps|] == ps;
  }

  method PrintQuery(qs: seq<Pair>) returns (s: Text)
    ensures s == QueryText(qs)
  {
    if qs == [] {
      return [];
    }
    s := ['?'];
    var notFirst := false;
    for i := 0 to |qs|
      invariant notFirst == (i > 0)
      invariant s == if i == 0 then ['?'] else QueryText(qs[..i])
    {
      QuerySnoc(qs, i);
      var item := PrintItem(qs[i]);
      s := s + ((if notFirst then ['&'] else []) + item);
      notFirst := true;
    }
    assert qs[..|qs|] == qs;
  }

  // `ps` and `qs` are the entries of the two maps in the order they are visited.
  method UrlPathToString(p: Path, ps: seq<Pair>, qs: seq<Pair>) returns (s: Text)
    requires Lists(ps, p.params) && Lists(qs, p.query)
    ensures s == PathText(p.path, ps, qs, p.frag)
  {
    s := UrlEncode(p.path, true);
    var params := PrintParams(ps);
    var query := PrintQuery(qs);
    s := s + (params + (query + (if p.frag != [] then ['#'] + p.frag else [])));
  }

  method ParseOne(t: Text) returns (r: Option<Pair>)
    ensures r == ParseItem(t)
  {
    var kv := SplitAll(t, '=');
    if |kv| != 2 || kv[0] == [] {
      return None;
    }
    var k := UrlDecode(kv[0]);
    var v := UrlDecode(kv[1]);
    if k == None || v == None {
      return None;
    }
    return Some(Pair(k.value, v.value));
  }

  // The loop over the pieces of a list; entries read before a bad one are lost with it here.
  method ParseAll(s: Text, sep: Byte, init: StringMap) returns (r: Option<StringMap>)
    ensures r == ParseItems(Split(s, sep), init)
  {
    var parts := SplitAll(s, sep);
    var m := init;
    for i := 0 to |parts|
      invariant ParseItems(parts[i..], m) == ParseItems(parts, init)
    {
      var p := ParseOne(parts[i]);
      assert parts[i..][1..] == parts[i + 1..];
      if p == None {
        return None;
      }
      m := m[p.value.key := p.value.value];
    }
    return Some(m);
  }

  method ParsePieces(s: Text, at: Option<nat>, end: Option<nat>, sep: Byte, init: StringMap) returns (r: Option<StringMap>)
    requires at.Some? ==> at.value < |s|
    requires end.Some? ==> end.value <= |s|
    ensures r == ParseList(s, at, end, sep, init)
  {
    if at == None {
      return Some(init);
    }
    r := ParseAll(Sub(s, at.value + 1, end), sep, init);
  }

  method StringToUrlPath(s: Text, init: Path) returns (r: Option<Path>)
    ensures r == Parse(s, init)
  {
    if s == [] || s[0] != '/' {
      return None;
    }
    var semi, query, pound := Find(s, ';'), Find(s, '?'), Find(s, '#');
    var path := UrlDecode(Sub(s, 0, FirstOf(semi, FirstOf(query, pound))));
    var params := ParsePieces(s, semi, FirstOf(query, pound), ';', init.params);
    var queries := ParsePieces(s, query, pound, '&', init.query);
    var frag := Some(init.frag);
    if pound.Some? {
      frag := UrlDecode(s[pound.value + 1..]);
    }
    r := Combine(path, params, queries, frag);
  }
}
