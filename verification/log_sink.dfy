// The log sink over its pipe: whatever the threads do, the backend hands out whole records, in order.
module LogSink {
  import opened Wrappers
  import opened LogFrames
  import P = AsyncPipeModel

  // The appends of onLogFrontEnd(): the header, and the text if there is any.
  function Writes(rs: seq<Record>): seq<seq<byte>> {
    if rs == [] then []
    else [rs[0].header] + (if rs[0].text != [] then [rs[0].text] else []) + Writes(rs[1..])
  }

  lemma {:induction false} WritesAreStream(rs: seq<Record>)
    ensures Flatten(Writes(rs)) == Stream(rs)
  {
    if rs != [] {
      var h, t := rs[0].header, rs[0].text;
      WritesAreStream(rs[1..]);
      FlattenConcat([h] + (if t != [] then [t] else []), Writes(rs[1..]));
      assert Flatten([h]) == h by { FlattenSnoc([], h); }
      if t != [] {
        FlattenSnoc([h], t);
      }
    }
  }

  lemma FlattenPrefix(xs: seq<seq<byte>>, ys: seq<seq<byte>>)
    requires xs <= ys
    ensures Flatten(xs) <= Flatten(ys)
  {
    assert ys == xs + ys[|xs|..];
    FlattenConcat(xs, ys[|xs|..]);
  }

  /** In every interleaving of the front end, which appends records one after the other, and the backend, at every
      moment: the records handed out are exactly those whose bytes have all been delivered, in order. */
  lemma HandsOutRecords(f: Format, rs: seq<Record>, cfg: P.Config, ss: seq<P.Pipe>, evs: seq<P.Event>, n: nat)
    requires f.headerSize > 0 && AllFit(f, rs)
    requires P.IsRun(cfg, ss, evs) && n < |ss| && P.Calls(evs[..n]) <= Writes(rs)
    ensures
      var got := ss[n].delivered;
      Feed(f, [], got).records == rs[..Arrived(rs, |Flatten(got)|)]
  {
    var s := ss[n];
    var d := Flatten(s.delivered);
    P.RunIsFifo(cfg, ss, evs, n);
    FlattenPrefix(P.Calls(evs[..n]), Writes(rs));
    WritesAreStream(rs);
    assert d <= Flatten(P.Calls(evs[..n]));
    ChunksDoNotMatter(f, rs, s.delivered, |d|);
  }

  /** When the pipe has been cleaned up, every record that was logged has been handed out. */
  lemma AllHandedOut(f: Format, rs: seq<Record>, s: P.Pipe)
    requires f.headerSize > 0 && AllFit(f, rs)
    requires P.Closing(s) && s.back.Exited? && s.asked == Flatten(Writes(rs))
    ensures Feed(f, [], s.delivered).records == rs
  {
    P.ClosedDelivered(s);
    WritesAreStream(rs);
    ChunksDoNotMatter(f, rs, s.delivered, |Stream(rs)|);
    AllArrive(rs);
  }

  lemma {:induction false} AllArrive(rs: seq<Record>)
    ensures Arrived(rs, |Stream(rs)|) == |rs|
  {
    if rs != [] { AllArrive(rs[1..]); }
  }
}
