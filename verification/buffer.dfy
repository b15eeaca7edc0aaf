// The byte buffer: an array with a readable stretch that moves, is compacted and grows.
module Buffers {
  import opened Wrappers

  lemma Halves(s: seq<byte>, a: nat, b: nat, c: nat)
    requires a <= b <= c <= |s|
    ensures s[a..c] == s[a..b] + s[b..c]
  {
  }

  lemma Inside(s: seq<byte>, a: nat, b: nat, at: nat, n: nat)
    requires a + at + n <= b <= |s|
    ensures s[a..b][at..at + n] == s[a + at..a + at + n]
  {
    var t, u, v := s[a..b], s[a..b][at..at + n], s[a + at..a + at + n];
    assert |u| == |v|;
    forall i | 0 <= i < n ensures u[i] == v[i] {
      assert u[i] == t[at + i] == s[a + at + i];
    }
  }

  class Buffer {
    var data: array<byte>
    var readIndex: nat
    var writeIndex: nat

    ghost predicate Valid()
      reads this
    {
      readIndex <= writeIndex <= data.Length
    }

    // What has been written and not yet read.
    ghost function Contents(): (s: seq<byte>)
      requires Valid()
      reads this, data
    {
      data[readIndex..writeIndex]
    }

    function ReadableSize(): nat
      requires Valid()
      reads this
    {
      writeIndex - readIndex
    }

    function WritableSize(): nat
      requires Valid()
      reads this
    {
      data.Length - writeIndex
    }

    constructor (reserveSize: nat)
      ensures Valid() && fresh(data) && Contents() == [] && data.Length == reserveSize
    {
      data := new byte[reserveSize];
      readIndex, writeIndex := 0, 0;
    }

    // Room for more is found by moving the contents to the front or by a larger array; they stay the same.
    method EnsureWritableSize(size: nat) returns (ok: bool)
      requires Valid()
      modifies this, data
      ensures Valid() && ok && WritableSize() >= size && Contents() == old(Contents())
      ensures data == old(data) || fresh(data)
      ensures old(WritableSize() + readIndex) >= size ==> data == old(data)
    {
      if size == 0 {
        return true;
      }
      if WritableSize() >= size {
        return true;
      }
      if WritableSize() + readIndex >= size {
        MoveToFront();
      } else {
        Grow(size);
      }
      return true;
    }

    method MoveToFront()
      requires Valid()
      modifies this`readIndex, this`writeIndex, data
      ensures Valid() && readIndex == 0 && writeIndex == old(writeIndex - readIndex)
      ensures Contents() == old(Contents())
    {
      var n := writeIndex - readIndex;
      MoveDown(n);
      writeIndex := n;
      readIndex := 0;
    }

    // memmove() towards the front, byte by byte.
    method MoveDown(n: nat)
      requires readIndex + n <= data.Length
      modifies data
      ensures data[..n] == old(data[readIndex..readIndex + n])
    {
      ghost var was, r := data[..], readIndex;
      for k := 0 to n
        invariant data[..k] == was[r..r + k] && data[r + k..] == was[r + k..]
      {
        assert data[r + k..][0] == was[r + k..][0] == was[r + k];
        assert was[r..r + k + 1] == was[r..r + k] + [was[r + k]];
        assert was[r + k + 1..] == was[r + k..][1..];
        MoveOne(k);
      }
    }

    method MoveOne(k: nat)
      requires readIndex + k < data.Length
      modifies data
      ensures data[..k + 1] == old(data[..k]) + [old(data[readIndex + k])]
      ensures data[readIndex + k + 1..] == old(data[readIndex + k + 1..])
    {
      data[k] := data[readIndex + k];
    }

    // The larger array keeps the contents where they were.
    method Grow(size: nat)
      requires Valid() && size > 0
      modifies this`data
      ensures Valid() && fresh(data) && WritableSize() >= size && Contents() == old(Contents())
    {
      var newSize := (writeIndex + size) * 2;
      var grown := new byte[newSize];
      CopyTo(grown);
      data := grown;
    }

    method CopyTo(that: array<byte>)
      requires Valid() && that != data && writeIndex <= that.Length
      modifies that
      ensures that[readIndex..writeIndex] == Contents()
    {
      for k := readIndex to writeIndex
        invariant that[readIndex..k] == data[readIndex..k]
      {
        that[k] := data[k];
        assert that[readIndex..k + 1] == that[readIndex..k] + [that[k]];
        assert data[readIndex..k + 1] == data[readIndex..k] + [data[k]];
      }
    }

    // Bytes that stay in the buffer.
    method Peek(at: nat, n: nat) returns (bytes: seq<byte>)
      requires Valid() && at + n <= ReadableSize()
      ensures bytes == Contents()[at..at + n]
    {
      bytes := data[readIndex + at..readIndex + at + n];
      Inside(data[..], readIndex, writeIndex, at, n);
    }

    // Written beyond the end counts as written up to it.
    method HasWritten(size: nat)
      requires Valid()
      modifies this`writeIndex
      ensures Valid() && writeIndex == Min(old(writeIndex) + size, data.Length)
    {
      if writeIndex + size > data.Length {
        writeIndex := data.Length;
      } else {
        writeIndex := writeIndex + size;
      }
    }

    method Append(bytes: seq<byte>) returns (n: nat)
      requires Valid()
      modifies this, data
      ensures Valid() && n == |bytes| && Contents() == old(Contents()) + bytes
      ensures data == old(data) || fresh(data)
    {
      var ok := EnsureWritableSize(|bytes|);
      assert ok;
      Store(bytes);
      HasWritten(|bytes|);
      Halves(data[..], readIndex, writeIndex - |bytes|, writeIndex);
      return |bytes|;
    }

    method Store(bytes: seq<byte>)
      requires Valid() && WritableSize() >= |bytes|
      modifies data
      ensures Contents() == old(Contents())
      ensures data[writeIndex..writeIndex + |bytes|] == bytes
    {
      for k := 0 to |bytes|
        invariant Contents() == old(Contents())
        invariant data[writeIndex..writeIndex + k] == bytes[..k]
      {
        data[writeIndex + k] := bytes[k];
        assert data[writeIndex..writeIndex + k + 1] == data[writeIndex..writeIndex + k] + [bytes[k]];
      }
      assert bytes[..|bytes|] == bytes;
    }

    // Reading more than there is empties the buffer.
    method HasRead(size: nat)
      requires Valid()
      modifies this`readIndex, this`writeIndex
      ensures Valid() && Contents() == old(Contents())[Min(size, old(ReadableSize()))..]
      ensures Contents() == [] ==> readIndex == 0 && writeIndex == 0
    {
      if readIndex + size > writeIndex {
        readIndex, writeIndex := 0, 0;
      } else {
        readIndex := readIndex + size;
        if readIndex == writeIndex {
          readIndex, writeIndex := 0, 0;
        }
      }
    }

    method HasReadAll()
      requires Valid()
      modifies this`readIndex, this`writeIndex
      ensures Valid() && Contents() == []
    {
      readIndex, writeIndex := 0, 0;
    }

    // The oldest bytes go out, as many as there are and as fit.
    method Fetch(out: array<byte>) returns (n: nat)
      requires Valid() && out != data
      modifies this`readIndex, this`writeIndex, out
      ensures Valid() && n == Min(out.Length, old(ReadableSize()))
      ensures out[..n] == old(Contents())[..n] && out[n..] == old(out[n..])
      ensures Contents() == old(Contents())[n..]
    {
      n := if out.Length > ReadableSize() then ReadableSize() else out.Length;
      CopyOut(out, n);
      HasRead(n);
    }

    method CopyOut(out: array<byte>, n: nat)
      requires Valid() && out != data && n <= out.Length && n <= ReadableSize()
      modifies out
      ensures out[..n] == Contents()[..n] && out[n..] == old(out[n..])
    {
      for k := 0 to n
        invariant out[..k] == Contents()[..k] && out[n..] == old(out[n..])
      {
        out[k] := data[readIndex + k];
        assert out[..k + 1] == out[..k] + [out[k]];
        assert Contents()[..k + 1] == Contents()[..k] + [Contents()[k]];
      }
    }

    // Only the readable bytes are copied; the array is exactly as large as they are.
    method CloneFrom(other: Buffer)
      requires other.Valid() && other != this
      modifies this
      ensures Valid() && fresh(data) && Contents() == other.Contents() && data.Length == |Contents()|
    {
      var n := other.ReadableSize();
      var copy := new byte[n];
      other.CopyOut(copy, n);
      data, readIndex, writeIndex := copy, 0, n;
      assert copy[0..n] == copy[..n];
    }

    method Swap(other: Buffer)
      requires Valid() && other.Valid()
      modifies this, other
      ensures Valid() && other.Valid()
      ensures data == old(other.data) && other.data == old(data)
      ensures Contents() == old(other.Contents()) && other.Contents() == old(Contents())
    {
      if other == this {
        return;
      }
      data, other.data := other.data, data;
      readIndex, other.readIndex := other.readIndex, readIndex;
      writeIndex, other.writeIndex := other.writeIndex, writeIndex;
    }

    // Gives back the room that holds no readable bytes.
    method Shrink()
      requires Valid()
      modifies this
      ensures Valid() && fresh(data) && Contents() == old(Contents()) && data.Length == |Contents()|
    {
      var tmp := new Buffer(0);
      tmp.CloneFrom(this);
      Swap(tmp);
    }
  }
}
