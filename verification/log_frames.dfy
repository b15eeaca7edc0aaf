// Log records as frames in a byte stream, and why the chunks they arrive in do not matter.
module LogFrames {
  import opened Wrappers
  import opened Buffers

  // A frame starts with a header of fixed size that tells the length of the text after it.
  datatype Format = Format(headerSize: nat, textLen: seq<byte> -> nat)

  datatype Record = Record(header: seq<byte>, text: seq<byte>)

  predicate Fits(f: Format, r: Record) {
    |r.header| == f.headerSize > 0 && f.textLen(r.header) == |r.text|
  }

  function Stream(rs: seq<Record>): seq<byte>
    decreases |rs|
  {
    if rs == [] then [] else rs[0].header + rs[0].text + Stream(rs[1..])
  }

  // How long the first frame is; None while that cannot be told or not all of it is there.
  function FrameSize(f: Format, s: seq<byte>): (n: Option<nat>)
    ensures n.Some? ==> f.headerSize <= n.value <= |s|
  {
    if |s| < f.headerSize then None
    else
      var n := f.headerSize + f.textLen(s[..f.headerSize]);
      if n > |s| then None else Some(n)
  }

  datatype Drained = Drained(records: seq<Record>, rest: seq<byte>)

  // Takes every complete frame off a string.
  function Drain(f: Format, s: seq<byte>): Drained
    requires f.headerSize > 0
    decreases |s|
  {
    var n := FrameSize(f, s);
    if n == None then Drained([], s)
    else
      var more := Drain(f, s[n.value..]);
      Drained([Record(s[..f.headerSize], s[f.headerSize..n.value])] + more.records, more.rest)
  }

  lemma FrameSizeGrows(f: Format, a: seq<byte>, b: seq<byte>)
    requires FrameSize(f, a).Some?
    ensures FrameSize(f, a + b) == FrameSize(f, a)
  {
    assert (a + b)[..f.headerSize] == a[..f.headerSize];
  }

  // Draining a string at once or in two parts is the same.
  lemma {:induction false} DrainSplit(f: Format, a: seq<byte>, b: seq<byte>)
    requires f.headerSize > 0
    ensures var d := Drain(f, a); var e := Drain(f, d.rest + b);
      Drain(f, a + b) == Drained(d.records + e.records, e.rest)
    decreases |a|
  {
    var n := FrameSize(f, a);
    var e := Drain(f, Drain(f, a).rest + b);
    if n.Some? {
      FrameSizeGrows(f, a, b);
      DrainSplit(f, a[n.value..], b);
      assert (a + b)[n.value..] == a[n.value..] + b;
      assert (a + b)[..f.headerSize] == a[..f.headerSize];
      assert (a + b)[f.headerSize..n.value] == a[f.headerSize..n.value];
    } else {
      assert [] + e.records == e.records;
    }
  }

  // A reader that keeps the rest between chunks.
  function Feed(f: Format, rest: seq<byte>, chunks: seq<seq<byte>>): Drained
    requires f.headerSize > 0
    decreases |chunks|
  {
    if chunks == [] then Drained([], rest)
    else
      var d := Drain(f, rest + chunks[0]);
      var more := Feed(f, d.rest, chunks[1..]);
      Drained(d.records + more.records, more.rest)
  }

  // Nothing complete is kept back.
  lemma {:induction false} RestIsIncomplete(f: Format, s: seq<byte>)
    requires f.headerSize > 0
    ensures FrameSize(f, Drain(f, s).rest) == None
    decreases |s|
  {
    var n := FrameSize(f, s);
    if n.Some? {
      RestIsIncomplete(f, s[n.value..]);
    }
  }

  lemma {:induction false} FeedIsDrain(f: Format, rest: seq<byte>, chunks: seq<seq<byte>>)
    requires f.headerSize > 0 && FrameSize(f, rest) == None
    ensures Feed(f, rest, chunks) == Drain(f, rest + Flatten(chunks))
    decreases |chunks|
  {
    if chunks == [] {
      assert rest + [] == rest;
    } else {
      var d := Drain(f, rest + chunks[0]);
      RestIsIncomplete(f, rest + chunks[0]);
      FeedIsDrain(f, d.rest, chunks[1..]);
      DrainSplit(f, rest + chunks[0], Flatten(chunks[1..]));
      Assoc(rest, chunks[0], Flatten(chunks[1..]));
    }
  }

  // One frame at the front of a string.
  lemma DrainFirst(f: Format, r: Record, s: seq<byte>)
    requires Fits(f, r)
    ensures Drain(f, r.header + r.text + s) == var d := Drain(f, s); Drained([r] + d.records, d.rest)
  {
    var all := r.header + r.text + s;
    assert all[..f.headerSize] == r.header;
    assert all[f.headerSize..f.headerSize + |r.text|] == r.text;
    assert all[f.headerSize + |r.text|..] == s;
  }

  // How many records have arrived completely in the first n bytes of their stream.
  function Arrived(rs: seq<Record>, n: nat): (k: nat)
    ensures k <= |rs|
    decreases |rs|
  {
    if rs == [] then 0
    else
      var size := |rs[0].header| + |rs[0].text|;
      if size > n then 0 else 1 + Arrived(rs[1..], n - size)
  }

  lemma {:induction false} ArrivedIsMost(rs: seq<Record>, n: nat)
    ensures var k := Arrived(rs, n); |Stream(rs[..k])| <= n && (k < |rs| ==> n < |Stream(rs[..k + 1])|)
    decreases |rs|
  {
    if rs != [] {
      var size := |rs[0].header| + |rs[0].text|;
      if size <= n {
        var k := Arrived(rs[1..], n - size);
        ArrivedIsMost(rs[1..], n - size);
        assert rs[..k + 1][1..] == rs[1..][..k];
        if k < |rs[1..]| {
          assert rs[..k + 2][1..] == rs[1..][..k + 1];
        }
      } else {
        assert rs[..1][1..] == [];
        assert Stream(rs[..1]) == rs[0].header + rs[0].text + Stream([]);
      }
    }
  }

  predicate AllFit(f: Format, rs: seq<Record>) {
    forall i :: 0 <= i < |rs| ==> Fits(f, rs[i])
  }

  // From the first n bytes of the stream exactly the records that have arrived come out.
  lemma {:induction false} DrainPrefix(f: Format, rs: seq<Record>, n: nat)
    requires f.headerSize > 0 && AllFit(f, rs) && n <= |Stream(rs)|
    ensures Drain(f, Stream(rs)[..n]).records == rs[..Arrived(rs, n)]
    decreases |rs|
  {
    if rs != [] {
      var r := rs[0];
      var size := |r.header| + |r.text|;
      if size > n {
        NotYet(f, r, Stream(rs[1..]), n);
      } else {
        var s := Stream(rs[1..])[..n - size];
        DrainPrefix(f, rs[1..], n - size);
        TakeInside(r.header + r.text, Stream(rs[1..]), n);
        DrainFirst(f, r, s);
        assert rs[..Arrived(rs, n)] == [r] + rs[1..][..Arrived(rs[1..], n - size)];
      }
    }
  }

  lemma TakeInside(a: seq<byte>, b: seq<byte>, n: nat)
    requires |a| <= n <= |a + b|
    ensures (a + b)[..n] == a + b[..n - |a|]
  {
  }

  lemma NotYet(f: Format, r: Record, s: seq<byte>, n: nat)
    requires Fits(f, r) && n < |r.header| + |r.text|
    ensures Drain(f, (r.header + r.text + s)[..n]).records == []
  {
    var p := (r.header + r.text + s)[..n];
    if n >= f.headerSize {
      assert p[..f.headerSize] == r.header;
    }
  }

  // However the first n bytes of the stream are cut into chunks, the reader hands out, in order, exactly the
  // records whose bytes have all arrived.
  lemma ChunksDoNotMatter(f: Format, rs: seq<Record>, chunks: seq<seq<byte>>, n: nat)
    requires f.headerSize > 0 && AllFit(f, rs) && n <= |Stream(rs)| && Flatten(chunks) == Stream(rs)[..n]
    ensures Feed(f, [], chunks).records == rs[..Arrived(rs, n)]
  {
    FeedIsDrain(f, [], chunks);
    assert [] + Flatten(chunks) == Flatten(chunks);
    DrainPrefix(f, rs, n);
  }

  // The backend of the log sink.
  class LogReader {
    const format: Format
    const buffer: Buffer

    constructor (f: Format)
      requires f.headerSize > 0
      ensures format == f && fresh(buffer) && fresh(buffer.data) && buffer.Valid() && buffer.Contents() == []
    {
      format := f;
      buffer := new Buffer(0);
    }

    // One chunk from the pipe.
    method OnReadPipe(chunk: seq<byte>) returns (out: seq<Record>)
      requires buffer.Valid() && format.headerSize > 0
      modifies buffer, buffer.data
      ensures buffer.Valid() && (buffer.data == old(buffer.data) || fresh(buffer.data))
      ensures Drained(out, buffer.Contents()) == Drain(format, old(buffer.Contents()) + chunk)
    {
      var _ := buffer.Append(chunk);
      ghost var all := buffer.Contents();
      out := [];
      while true
        invariant buffer.Valid() && (buffer.data == old(buffer.data) || fresh(buffer.data))
        invariant out + Drain(format, buffer.Contents()).records == Drain(format, all).records
        invariant Drain(format, buffer.Contents()).rest == Drain(format, all).rest
        decreases buffer.ReadableSize()
      {
        ghost var s := buffer.Contents();
        var r := TakeFrame();
        if r == None {
          break;
        }
        DrainStep(format, out, s);
        out := out + [r.value];
      }
    }

    // Takes the first frame off the buffer if all of it is there.
    method TakeFrame() returns (r: Option<Record>)
      requires buffer.Valid() && format.headerSize > 0
      modifies buffer`readIndex, buffer`writeIndex
      ensures buffer.Valid()
      ensures
        var s := old(buffer.Contents());
        var n := FrameSize(format, s);
        if n == None then r == None && buffer.Contents() == s
        else r == Some(Record(s[..format.headerSize], s[format.headerSize..n.value])) && buffer.Contents() == s[n.value..]
    {
      if buffer.ReadableSize() < format.headerSize {
        return None;
      }
      ghost var s := buffer.Contents();
      var header := buffer.Peek(0, format.headerSize);
      var len := format.textLen(header);
      if format.headerSize + len > buffer.ReadableSize() {
        return None;
      }
      var text := buffer.Peek(format.headerSize, len);
      buffer.HasRead(format.headerSize);
      assert buffer.Contents() == s[format.headerSize..];
      buffer.HasRead(len);
      DropDrop(s, format.headerSize, len);
      return Some(Record(header, text));
    }
  }

  lemma DropDrop(s: seq<byte>, a: nat, b: nat)
    requires a + b <= |s|
    ensures s[a..][b..] == s[a + b..]
  {
  }

  lemma DrainStep(f: Format, out: seq<Record>, s: seq<byte>)
    requires f.headerSize > 0 && FrameSize(f, s).Some?
    ensures
      var n := FrameSize(f, s).value;
      var r := Record(s[..f.headerSize], s[f.headerSize..n]);
      out + Drain(f, s).records == out + [r] + Drain(f, s[n..]).records
  {
  }
}
