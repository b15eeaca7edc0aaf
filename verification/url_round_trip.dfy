// Exactly which paths come back from printing and parsing.
module UrlRoundTrip {
  import opened Wrappers
  import opened UrlCoding
  import opened UrlPath

  // The four parts of a printed path.
  datatype Parts = Parts(e: Text, p: Text, q: Text, f: Text) {
    function All(): Text {
      e + (p + (q + f))
    }
  }

  function PartsOf(path: Text, ps: seq<Pair>, qs: seq<Pair>, frag: Text): Parts {
    Parts(Encode(path, true), ParamsText(ps), QueryText(qs), FragText(frag))
  }

  // Each part keeps to its own characters.
  predicate Tidy(t: Parts) {
    && ';' !in t.e && '?' !in t.e && '#' !in t.e
    && '?' !in t.p && '#' !in t.p && ';' !in t.q && '#' !in t.q
    && (t.p != [] ==> t.p[0] == ';') && (t.q != [] ==> t.q[0] == '?') && (t.f != [] ==> t.f[0] == '#')
  }

  // No fragment character can be taken for the start of a part that is missing.
  predicate Clear(t: Parts) {
    (t.p == [] ==> ';' !in t.f) && (t.q == [] ==> '?' !in t.f)
  }

  lemma PartsTidy(path: Text, ps: seq<Pair>, qs: seq<Pair>, frag: Text)
    ensures Tidy(PartsOf(path, ps, qs, frag))
  {
    SpecialChars();
    EncodeHides(path, true, ';');
    EncodeHides(path, true, '?');
    EncodeHides(path, true, '#');
    ListsHide(ps, '?');
    ListsHide(ps, '#');
    if qs != [] {
      ItemHides(qs[0], ';');
      ItemHides(qs[0], '#');
      ListsHide(qs[1..], ';');
      ListsHide(qs[1..], '#');
    }
  }

  function Shift(r: Option<nat>, n: nat): Option<nat> {
    if r == None then None else Some(r.value + n)
  }

  lemma FindHead(s: Text, c: Byte)
    requires s != [] && s[0] == c
    ensures Find(s, c) == Some(0)
  {
  }

  lemma FindSemi(t: Parts)
    requires Tidy(t)
    ensures Find(t.All(), ';') == if t.p != [] then Some(|t.e|) else Shift(Find(t.f, ';'), |t.e| + |t.q|)
  {
    FindAfter(t.e, t.p + (t.q + t.f), ';');
    if t.p != [] {
      FindHead(t.p + (t.q + t.f), ';');
    } else {
      assert t.p + (t.q + t.f) == t.q + t.f;
      FindAfter(t.q, t.f, ';');
    }
  }

  lemma FindQuery(t: Parts)
    requires Tidy(t)
    ensures Find(t.All(), '?') == if t.q != [] then Some(|t.e| + |t.p|) else Shift(Find(t.f, '?'), |t.e| + |t.p|)
  {
    FindAfter(t.e, t.p + (t.q + t.f), '?');
    FindAfter(t.p, t.q + t.f, '?');
    if t.q != [] {
      FindHead(t.q + t.f, '?');
    } else {
      assert t.q + t.f == t.f;
    }
  }

  lemma FindPound(t: Parts)
    requires Tidy(t)
    ensures Find(t.All(), '#') == if t.f != [] then Some(|t.e| + |t.p| + |t.q|) else None
  {
    FindAfter(t.e, t.p + (t.q + t.f), '#');
    FindAfter(t.p, t.q + t.f, '#');
    FindAfter(t.q, t.f, '#');
    if t.f != [] {
      FindHead(t.f, '#');
    }
  }

  // In a clear text every mark found is the start of its own part.
  lemma Marks(t: Parts)
    requires Tidy(t) && Clear(t)
    ensures Find(t.All(), ';') == if t.p != [] then Some(|t.e|) else None
    ensures Find(t.All(), '?') == if t.q != [] then Some(|t.e| + |t.p|) else None
    ensures Find(t.All(), '#') == if t.f != [] then Some(|t.e| + |t.p| + |t.q|) else None
  {
    FindSemi(t);
    FindQuery(t);
    FindPound(t);
    FindIsFirst(t.f, ';');
    FindIsFirst(t.f, '?');
  }

  lemma PartSlices(t: Parts)
    ensures |t.All()| == |t.e| + |t.p| + |t.q| + |t.f|
    ensures t.All()[..|t.e|] == t.e
    ensures t.p != [] ==> t.All()[|t.e| + 1..|t.e| + |t.p|] == t.p[1..]
    ensures t.q != [] ==> t.All()[|t.e| + |t.p| + 1..|t.e| + |t.p| + |t.q|] == t.q[1..]
    ensures t.f != [] ==> t.All()[|t.e| + |t.p| + |t.q| + 1..] == t.f[1..]
  {
  }

  // What the parser makes of the parts of a clear text.
  function ReadList(part: Text, sep: Byte): Option<StringMap> {
    if part == [] then Some(map[]) else ParseItems(Split(part[1..], sep), map[])
  }

  function ReadFrag(part: Text): Option<Text> {
    if part == [] then Some([]) else Decode(Plain, part[1..])
  }

  lemma ParsePathPart(t: Parts)
    requires Tidy(t) && Clear(t)
    ensures PathPart(t.All()) == Decode(Plain, t.e)
  {
    Marks(t);
    PartSlices(t);
    var s := t.All();
    assert Sub(s, 0, FirstOf(Find(s, ';'), FirstOf(Find(s, '?'), Find(s, '#')))) == t.e;
  }

  lemma ParseParamsPart(t: Parts)
    requires Tidy(t) && Clear(t)
    ensures ParamsPart(t.All(), map[]) == ReadList(t.p, ';')
  {
    Marks(t);
    PartSlices(t);
    if t.p != [] {
      var s := t.All();
      var end := FirstOf(Find(s, '?'), Find(s, '#'));
      assert Sub(s, |t.e| + 1, end) == t.p[1..];
    }
  }

  lemma SubEnd(s: Text, from: nat, to: nat, end: Option<nat>)
    requires from <= to <= |s| && (if to == |s| then end == None || end == Some(to) else end == Some(to))
    ensures Sub(s, from, end) == s[from..to]
  {
  }

  lemma ParseQueryPart(t: Parts)
    requires Tidy(t) && Clear(t)
    ensures QueryPart(t.All(), map[]) == ReadList(t.q, '&')
  {
    Marks(t);
    PartSlices(t);
    if t.q != [] {
      SubEnd(t.All(), |t.e| + |t.p| + 1, |t.e| + |t.p| + |t.q|, Find(t.All(), '#'));
    }
  }

  lemma ParseFragPart(t: Parts)
    requires Tidy(t)
    ensures FragPart(t.All(), []) == ReadFrag(t.f)
  {
    FindPound(t);
    PartSlices(t);
  }

  lemma ParseReads(t: Parts)
    requires Tidy(t) && Clear(t) && t.e != [] && t.e[0] == '/'
    ensures Parse(t.All(), EMPTY) == Combine(Decode(Plain, t.e), ReadList(t.p, ';'), ReadList(t.q, '&'), ReadFrag(t.f))
  {
    ParsePathPart(t);
    ParseParamsPart(t);
    ParseQueryPart(t);
    ParseFragPart(t);
    assert t.All()[0] == '/';
  }

  function Entries(ps: seq<Pair>): Option<StringMap> {
    if HasEmptyKey(ps) then None else Some(Put(map[], ps))
  }

  lemma ReadParams(ps: seq<Pair>)
    ensures ReadList(ParamsText(ps), ';') == Entries(ps)
  {
    if ps != [] {
      ParamsJoin(ps);
      assert ParamsText(ps)[1..] == Join(ItemTexts(ps), ';');
      TextsHide(ps, ';');
      SplitJoin(ItemTexts(ps), ';');
      ItemsParse(ps, map[]);
    }
  }

  lemma TailOf(c: Byte, s: Text)
    ensures ([c] + s)[1..] == s
  {
  }

  lemma QueryTail(qs: seq<Pair>)
    requires qs != []
    ensures QueryText(qs)[1..] == Join(ItemTexts(qs), '&')
  {
    QueryJoin(qs);
    Assoc(['?'], ItemText(qs[0]), MoreText(qs[1..]));
    TailOf('?', ItemText(qs[0]) + MoreText(qs[1..]));
  }

  lemma ReadQuery(qs: seq<Pair>)
    ensures ReadList(QueryText(qs), '&') == Entries(qs)
  {
    if qs != [] {
      QueryTail(qs);
      TextsHide(qs, '&');
      SplitJoin(ItemTexts(qs), '&');
      ItemsParse(qs, map[]);
    }
  }

  lemma ReadFragText(frag: Text)
    ensures ReadFrag(FragText(frag)) == Decode(Plain, frag)
  {
    if frag != [] {
      assert FragText(frag)[1..] == frag;
    }
  }

  lemma {:induction false} PutKeys(m: StringMap, ps: seq<Pair>)
    ensures forall k :: k in Put(m, ps) <==> k in m || exists i :: 0 <= i < |ps| && ps[i].key == k
    decreases |ps|
  {
    if ps != [] {
      PutKeys(m[ps[0].key := ps[0].value], ps[1..]);
      forall k ensures k in Put(m, ps) <==> k in m || exists i :: 0 <= i < |ps| && ps[i].key == k {
        if i :| 0 <= i < |ps| && ps[i].key == k && i > 0 {
          assert ps[1..][i - 1].key == k;
        }
        if i :| 0 <= i < |ps[1..]| && ps[1..][i].key == k {
          assert ps[i + 1].key == k;
        }
      }
    }
  }

  lemma {:induction false} ParsedNotEmpty(parts: seq<Text>, m: StringMap)
    requires ParseItems(parts, m).Some? && (parts != [] || m != map[])
    ensures ParseItems(parts, m).value != map[]
    decreases |parts|
  {
    if parts != [] {
      var p := ParseItem(parts[0]).value;
      assert p.key in m[p.key := p.value];
      ParsedNotEmpty(parts[1..], m[p.key := p.value]);
    }
  }

  // A path that starts with a slash, without empty keys, whose fragment has no escape and no mark of a missing part.
  predicate Printable(p: Path) {
    && p.path != [] && p.path[0] == '/'
    && [] !in p.params && [] !in p.query
    && '%' !in p.frag
    && (p.params == map[] ==> ';' !in p.frag)
    && (p.query == map[] ==> '?' !in p.frag)
  }

  lemma EncodeFirst(path: Text)
    ensures Encode(path, true) == [] <==> path == []
    ensures path != [] ==> (Encode(path, true)[0] == '/' <==> path[0] == '/')
  {
    if path != [] {
      assert '/' !in PATH_SPECIAL;
    }
  }

  // A text that does not start with a slash is refused; so is a path that does not.
  lemma NoSlash(path: Text, ps: seq<Pair>, qs: seq<Pair>, frag: Text)
    requires path == [] || path[0] != '/'
    ensures Parse(PathText(path, ps, qs, frag), EMPTY) == None
  {
    EncodeFirst(path);
    PartsTidy(path, ps, qs, frag);
    var t := PartsOf(path, ps, qs, frag);
    assert t.All() == [] || t.All()[0] != '/';
  }

  // A list that is there has entries when it can be read at all.
  lemma ListNotEmpty(s: Text, at: nat, end: Option<nat>, sep: Byte)
    requires at < |s| && (end.Some? ==> end.value <= |s|)
    requires ParseList(s, Some(at), end, sep, map[]).Some?
    ensures ParseList(s, Some(at), end, sep, map[]).value != map[]
  {
    ParsedNotEmpty(Split(Sub(s, at + 1, end), sep), map[]);
  }

  // A mark in the fragment of a path without that part is read as the part, which then is not empty.
  lemma NotClear(t: Parts, p: Path)
    requires Tidy(t) && !Clear(t)
    requires (t.p == [] ==> p.params == map[]) && (t.q == [] ==> p.query == map[])
    ensures Parse(t.All(), EMPTY) != Some(p)
  {
    FindSemi(t);
    FindQuery(t);
    FindIsFirst(t.f, ';');
    FindIsFirst(t.f, '?');
    var s := t.All();
    if Parse(s, EMPTY).Some? {
      if t.p == [] && ';' in t.f {
        ListNotEmpty(s, Find(s, ';').value, FirstOf(Find(s, '?'), Find(s, '#')), ';');
      } else {
        ListNotEmpty(s, Find(s, '?').value, Find(s, '#'), '&');
      }
    }
  }

  // A clear text gives the path back when no key is empty and the fragment has no escape.
  lemma ClearRoundTrip(p: Path, ps: seq<Pair>, qs: seq<Pair>)
    requires Clear(PartsOf(p.path, ps, qs, p.frag)) && p.path != [] && p.path[0] == '/'
    requires Put(map[], ps) == p.params && Put(map[], qs) == p.query
    ensures Parse(PathText(p.path, ps, qs, p.frag), EMPTY) == Some(p) <==> !HasEmptyKey(ps) && !HasEmptyKey(qs) && '%' !in p.frag
  {
    var t := PartsOf(p.path, ps, qs, p.frag);
    PartsTidy(p.path, ps, qs, p.frag);
    EncodeFirst(p.path);
    ParseReads(t);
    DecodeEncode(p.path, true);
    ReadParams(ps);
    ReadQuery(qs);
    ReadFragText(p.frag);
    DecodeSameIff(p.frag);
  }

  lemma ListsFacts(ps: seq<Pair>, m: StringMap)
    requires Lists(ps, m)
    ensures m == map[] <==> ps == []
    ensures [] in m <==> HasEmptyKey(ps)
  {
    PutKeys(map[], ps);
    if ps != [] {
      assert ps[0].key in m;
    }
  }

  lemma ClearIff(p: Path, ps: seq<Pair>, qs: seq<Pair>)
    requires Lists(ps, p.params) && Lists(qs, p.query)
    ensures Clear(PartsOf(p.path, ps, qs, p.frag))
      <==> (p.params == map[] ==> ';' !in p.frag) && (p.query == map[] ==> '?' !in p.frag)
  {
    ListsFacts(ps, p.params);
    ListsFacts(qs, p.query);
  }

  // Printing and then parsing into a fresh path gives the path back exactly when it is printable.
  lemma RoundTripIff(p: Path, ps: seq<Pair>, qs: seq<Pair>)
    requires Lists(ps, p.params) && Lists(qs, p.query)
    ensures Parse(PathText(p.path, ps, qs, p.frag), EMPTY) == Some(p) <==> Printable(p)
  {
    ListsFacts(ps, p.params);
    ListsFacts(qs, p.query);
    ClearIff(p, ps, qs);
    if p.path == [] || p.path[0] != '/' {
      NoSlash(p.path, ps, qs, p.frag);
    } else if !Clear(PartsOf(p.path, ps, qs, p.frag)) {
      PartsTidy(p.path, ps, qs, p.frag);
      NotClear(PartsOf(p.path, ps, qs, p.frag), p);
    } else {
      ClearRoundTrip(p, ps, qs);
    }
  }
}
