// The trace file: each record is five integers, the first one the time since the record before it.
module TraceStream {
  import opened Wrappers
  import opened ScalableInteger

  // An index map and the list file whose lines it numbers.
  datatype Table<!K(==)> = Table(index: map<K, nat>, lines: seq<K>) {
    predicate Inv() {
      && (forall k :: k in index ==> index[k] < |lines| && lines[index[k]] == k)
      && (forall i :: 0 <= i < |lines| ==> lines[i] in index && index[lines[i]] == i)
    }

    // The next index is the number of lines.
    function Alloc(k: K): (Table<K>, nat) {
      if k in index then (this, index[k])
      else (Table(index[k := |lines|], lines + [k]), |lines|)
    }
  }

  lemma AllocKeeps<K>(t: Table<K>, k: K)
    requires t.Inv()
    ensures
      var (t1, i) := t.Alloc(k);
      t1.Inv() && i < |t1.lines| && t1.lines[i] == k && t.lines <= t1.lines && |t1.lines| <= |t.lines| + 1
  {
  }

  // Different keys never share an index.
  lemma IndexInjective<K>(t: Table<K>, a: K, b: K)
    requires t.Inv() && a in t.index && b in t.index && t.index[a] == t.index[b]
    ensures a == b
  {
  }

  // A record as it is handed in (the name with its line number), and the five integers it becomes.
  datatype Record = Record(thread: int, name: string, mod: string, endTs: U64, duration: U64)

  datatype Row = Row(diff: U64, duration: U64, thread: U64, name: U64, mod: U64)

  function RowCode(r: Row): seq<byte> {
    Code(r.diff) + (Code(r.duration) + (Code(r.thread) + (Code(r.name) + Code(r.mod))))
  }

  function FileOf(rows: seq<Row>): seq<byte>
    decreases |rows|
  {
    if rows == [] then [] else RowCode(rows[0]) + FileOf(rows[1..])
  }

  // One integer and what follows it; None when there is no complete one.
  function Take(s: seq<byte>): Option<(U64, seq<byte>)> {
    var p := Parse(s);
    if p.Number? && p.bytes <= |s| then Some((p.value, s[p.bytes..])) else None
  }

  function TakeRow(s: seq<byte>): Option<(Row, seq<byte>)> {
    var a := Take(s);
    var b := if a.Some? then Take(a.value.1) else None;
    var c := if b.Some? then Take(b.value.1) else None;
    var d := if c.Some? then Take(c.value.1) else None;
    var e := if d.Some? then Take(d.value.1) else None;
    if e.Some? then Some((Row(a.value.0, b.value.0, c.value.0, d.value.0, e.value.0), e.value.1)) else None
  }

  // Reads as many complete rows as there are.
  function ReadRows(s: seq<byte>): seq<Row>
    decreases |s|
  {
    var r := TakeRow(s);
    if r.Some? && |r.value.1| < |s| then [r.value.0] + ReadRows(r.value.1) else []
  }

  lemma TakeCode(v: U64, rest: seq<byte>)
    ensures Take(Code(v) + rest) == Some((v, rest))
  {
    ParseCode(v, rest);
    assert (Code(v) + rest)[|Code(v)|..] == rest;
  }

  lemma TakeRowCode(r: Row, rest: seq<byte>)
    ensures TakeRow(RowCode(r) + rest) == Some((r, rest))
  {
    var e := Code(r.mod) + rest;
    var d := Code(r.name) + e;
    var c := Code(r.thread) + d;
    var b := Code(r.duration) + c;
    TakeCode(r.diff, b);
    TakeCode(r.duration, c);
    TakeCode(r.thread, d);
    TakeCode(r.name, e);
    TakeCode(r.mod, rest);
    RowAssoc(r, rest);
  }

  lemma RowAssoc(r: Row, rest: seq<byte>)
    ensures RowCode(r) + rest == Code(r.diff) + (Code(r.duration) + (Code(r.thread) + (Code(r.name) + (Code(r.mod) + rest))))
  {
    Assoc(Code(r.name), Code(r.mod), rest);
    Assoc(Code(r.thread), Code(r.name) + Code(r.mod), rest);
    Assoc(Code(r.duration), Code(r.thread) + (Code(r.name) + Code(r.mod)), rest);
    Assoc(Code(r.diff), Code(r.duration) + (Code(r.thread) + (Code(r.name) + Code(r.mod))), rest);
  }

  // The rows come back from their concatenated codes.
  lemma {:induction false} ReadFile(rows: seq<Row>)
    ensures ReadRows(FileOf(rows)) == rows
    decreases |rows|
  {
    if rows != [] {
      ReadFile(rows[1..]);
      TakeRowCode(rows[0], FileOf(rows[1..]));
      NeedFits(rows[0].diff);
    }
  }

  // With indices below 2^32 a row takes at most 35 of the 40 bytes of the buffer.
  lemma RowFits(r: Row)
    requires r.thread < 0x1_0000_0000 && r.name < 0x1_0000_0000 && r.mod < 0x1_0000_0000
    ensures |RowCode(r)| <= 35
  {
    SmallCode(r.thread);
    SmallCode(r.name);
    SmallCode(r.mod);
    NeedFits(r.diff);
    NeedFits(r.duration);
  }

  lemma SmallCode(v: U64)
    requires v < 0x1_0000_0000
    ensures |Code(v)| <= 5
  {
    assert v <= MAX_TABLE[5];
  }

  lemma {:induction false} FileSnoc(rows: seq<Row>, r: Row)
    ensures FileOf(rows + [r]) == FileOf(rows) + RowCode(r)
    decreases |rows|
  {
    if rows == [] {
      assert [r][1..] == [];
      assert FileOf([r]) == RowCode(r) + FileOf([]);
    } else {
      assert (rows + [r])[1..] == rows[1..] + [r];
      FileSnoc(rows[1..], r);
      Assoc(RowCode(rows[0]), FileOf(rows[1..]), RowCode(r));
    }
  }

  // The three list files.
  datatype Lists = Lists(threads: seq<int>, names: seq<string>, mods: seq<string>) {
    predicate Has(r: Row) {
      r.thread < |threads| && r.name < |names| && r.mod < |mods|
    }

    predicate Within(that: Lists) {
      threads <= that.threads && names <= that.names && mods <= that.mods
    }
  }

  predicate AllIn(ls: Lists, rows: seq<Row>) {
    forall i :: 0 <= i < |rows| ==> ls.Has(rows[i])
  }

  // The time of the last record of a file; a file starts at time zero.
  function LastTs(records: seq<Record>): U64 {
    if records == [] then 0 else records[|records| - 1].endTs
  }

  // What a reader makes of the rows with the list files at hand.
  function Restore(ls: Lists, rows: seq<Row>): (r: seq<Record>)
    requires AllIn(ls, rows)
    ensures |r| == |rows|
  {
    if rows == [] then []
    else
      var before := Restore(ls, rows[..|rows| - 1]);
      before + [RestoreOne(ls, LastTs(before), rows[|rows| - 1])]
  }

  // Unsigned addition and subtraction wrap around.
  function Plus(a: U64, b: U64): U64 {
    if a + b < TWO64 then a + b else a + b - TWO64
  }

  function Minus(a: U64, b: U64): U64 {
    if a >= b then a - b else a + TWO64 - b
  }

  function RestoreOne(ls: Lists, last: U64, r: Row): Record
    requires ls.Has(r)
  {
    Record(ls.threads[r.thread], ls.names[r.name], ls.mods[r.mod], Plus(last, r.diff), r.duration)
  }

  lemma {:induction false} RestoreGrows(a: Lists, b: Lists, rows: seq<Row>)
    requires AllIn(a, rows) && a.Within(b)
    ensures AllIn(b, rows) && Restore(b, rows) == Restore(a, rows)
    decreases |rows|
  {
    forall i | 0 <= i < |rows| ensures b.Has(rows[i]) {
      assert a.Has(rows[i]);
    }
    if rows != [] {
      RestoreGrows(a, b, rows[..|rows| - 1]);
      assert a.Has(rows[|rows| - 1]);
    }
  }

  // A difference modulo 2^64 added back modulo 2^64.
  lemma DiffBack(last: U64, now: U64)
    ensures Plus(last, Minus(now, last)) == now
  {
  }

  // One more record in the file is one more record for the reader.
  lemma RestoreSnoc(
      a: Lists, b: Lists, rows: seq<Row>, records: seq<Record>, r: Row, rec: Record)
    requires AllIn(a, rows) && a.Within(b) && Restore(a, rows) == records && b.Has(r)
    requires rec == Record(b.threads[r.thread], b.names[r.name], b.mods[r.mod], rec.endTs, r.duration)
    requires r.diff == Minus(rec.endTs, LastTs(records))
    ensures AllIn(b, rows + [r]) && Restore(b, rows + [r]) == records + [rec]
  {
    RestoreGrows(a, b, rows);
    assert (rows + [r])[..|rows|] == rows;
    DiffBack(LastTs(records), rec.endTs);
  }

  // A file, its rows and its records belong together.
  ghost predicate Agrees(ls: Lists, file: seq<byte>, rows: seq<Row>, records: seq<Record>) {
    file == FileOf(rows) && AllIn(ls, rows) && Restore(ls, rows) == records
  }

  lemma AgreesSnoc(a: Lists, b: Lists, file: seq<byte>, rows: seq<Row>, records: seq<Record>, r: Row, rec: Record)
    requires Agrees(a, file, rows, records) && a.Within(b) && b.Has(r)
    requires rec == Record(b.threads[r.thread], b.names[r.name], b.mods[r.mod], rec.endTs, r.duration)
    requires r.diff == Minus(rec.endTs, LastTs(records))
    ensures Agrees(b, file + RowCode(r), rows + [r], records + [rec])
    ensures LastTs(records + [rec]) == rec.endTs
  {
    RestoreSnoc(a, b, rows, records, r, rec);
    FileSnoc(rows, r);
  }

  // A reader of the file alone, with the list files, gets every record back.
  lemma ReadBack(ls: Lists, file: seq<byte>, rows: seq<Row>, records: seq<Record>)
    requires Agrees(ls, file, rows, records)
    ensures AllIn(ls, ReadRows(file)) && Restore(ls, ReadRows(file)) == records
  {
    ReadFile(rows);
  }

  class Sink {
    var last: U64
    var threads: Table<int>
    var names: Table<string>
    var mods: Table<string>
    var file: seq<byte>
    // The records written to this file, and their rows.
    ghost var records: seq<Record>
    ghost var rows: seq<Row>

    ghost function ListFiles(): Lists
      reads this
    {
      Lists(threads.lines, names.lines, mods.lines)
    }

    // The file and the lists are enough to get every record back.
    ghost predicate Valid()
      reads this
    {
      && threads.Inv() && names.Inv() && mods.Inv()
      && Agrees(ListFiles(), file, rows, records) && last == LastTs(records)
    }

    constructor ()
      ensures Valid() && records == []
    {
      last, file, records, rows := 0, [], [], [];
      threads, names, mods := Table(map[], []), Table(map[], []), Table(map[], []);
    }

    // A new file starts at time zero; the lists go on.
    method OpenFile()
      requires Valid()
      modifies this`last, this`file, this`records, this`rows
      ensures Valid() && records == [] && file == []
    {
      last, file, records, rows := 0, [], [], [];
    }

    // Records of modules that are filtered out leave no trace; the counters of the lists do not wrap.
    method RecvRecord(rec: Record, passed: bool)
      requires Valid() && |threads.lines| < 0x8000_0000 && |names.lines| < 0x1_0000_0000 && |mods.lines| < 0x1_0000_0000
      modifies this
      ensures Valid() && records == if passed then old(records) + [rec] else old(records)
      ensures old(ListFiles()).Within(ListFiles()) && old(file) <= file
    {
      if !passed {
        return;
      }
      ghost var before := ListFiles();
      var t, n, m := AllocIndices(rec);
      var r := Row(Minus(rec.endTs, last), rec.duration, t, n, m);
      var code := Encode(r, rec, before);
      last := rec.endTs;
      file := file + code;
      rows, records := rows + [r], records + [rec];
    }

    // The bytes of the new row; the file with them agrees with the records and the new one.
    method Encode(r: Row, rec: Record, ghost before: Lists) returns (code: seq<byte>)
      requires before.Within(ListFiles()) && ListFiles().Has(r)
      requires Agrees(before, file, rows, records) && r.diff == Minus(rec.endTs, LastTs(records))
      requires rec == Record(threads.lines[r.thread], names.lines[r.name], mods.lines[r.mod], rec.endTs, r.duration)
      requires r.thread < 0x1_0000_0000 && r.name < 0x1_0000_0000 && r.mod < 0x1_0000_0000
      ensures Agrees(ListFiles(), file + code, rows + [r], records + [rec])
      ensures LastTs(records + [rec]) == rec.endTs
    {
      AgreesSnoc(before, ListFiles(), file, rows, records, r, rec);
      code := Dump(r);
    }

    method AllocIndices(rec: Record) returns (t: nat, n: nat, m: nat)
      requires threads.Inv() && names.Inv() && mods.Inv()
      modifies this`threads, this`names, this`mods
      ensures threads.Inv() && names.Inv() && mods.Inv() && old(ListFiles()).Within(ListFiles())
      ensures t < |threads.lines| <= |old(threads).lines| + 1 && threads.lines[t] == rec.thread
      ensures n < |names.lines| <= |old(names).lines| + 1 && names.lines[n] == rec.name
      ensures m < |mods.lines| <= |old(mods).lines| + 1 && mods.lines[m] == rec.mod
    {
      AllocKeeps(threads, rec.thread);
      AllocKeeps(names, rec.name);
      AllocKeeps(mods, rec.mod);
      var (threads1, t1) := threads.Alloc(rec.thread);
      var (names1, n1) := names.Alloc(rec.name);
      var (mods1, m1) := mods.Alloc(rec.mod);
      threads, names, mods := threads1, names1, mods1;
      return t1, n1, m1;
    }

    method Dump(r: Row) returns (code: seq<byte>)
      requires r.thread < 0x1_0000_0000 && r.name < 0x1_0000_0000 && r.mod < 0x1_0000_0000
      ensures code == RowCode(r)
    {
      var buffer := new byte[40];
      RowFits(r);
      var size := Put(r.diff, buffer, 0);
      size := Put(r.duration, buffer, size);
      size := Put(r.thread, buffer, size);
      size := Put(r.name, buffer, size);
      size := Put(r.mod, buffer, size);
      code := buffer[..size];
      LeftRow(r);
    }

    method Put(v: U64, buffer: array<byte>, at: nat) returns (size: nat)
      requires at + Need(v) <= buffer.Length
      modifies buffer
      ensures size == at + |Code(v)| <= buffer.Length && buffer[..size] == old(buffer[..at]) + Code(v)
    {
      NeedFits(v);
      var n := DumpScalableInteger(v, buffer, at);
      size := at + n;
    }
  }

  // The five integers of a row stand in this order.
  lemma LeftRow(r: Row)
    ensures [] + Code(r.diff) + Code(r.duration) + Code(r.thread) + Code(r.name) + Code(r.mod) == RowCode(r)
  {
    var a, b, c, d, e := Code(r.diff), Code(r.duration), Code(r.thread), Code(r.name), Code(r.mod);
    Assoc(c, d, e);
    Assoc(b, c + d, e);
    Assoc(b, c, d);
    Assoc(a, b + (c + d), e);
    Assoc(a, b + c, d);
    Assoc(a, b, c);
    assert [] + a == a;
  }
}
