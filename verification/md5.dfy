// The MD5 calculator as it is written: a bit counter, a state and a buffer, fed in pieces of any size.
module Md5 {
  import opened Wrappers
  import opened Md5Model

  // Words to bytes, as the loop stores them.
  method Encode(output: array<byte>, input: seq<Word>)
    requires output.Length == 4 * |input|
    modifies output
    ensures output[..] == EncodeSpec(input)
  {
    var i, j := 0, 0;
    while j < output.Length
      invariant j == 4 * i <= output.Length
      invariant output[..j] == EncodeSpec(input[..i])
    {
      StoreWord(output, j, input[i]);
      EncodeSnoc(input[..i], input[i]);
      assert input[..i + 1] == input[..i] + [input[i]];
      i := i + 1;
      j := j + 4;
    }
    assert input[..i] == input && output[..j] == output[..];
  }

  method StoreWord(output: array<byte>, j: nat, w: Word)
    requires j + 4 <= output.Length
    modifies output
    ensures output[..j + 4] == old(output[..j]) + Bytes(w)
  {
    output[j] := w % 0x100;
    output[j + 1] := w / 0x100 % 0x100;
    output[j + 2] := w / 0x1_0000 % 0x100;
    output[j + 3] := w / 0x100_0000 % 0x100;
    assert output[..j] == old(output[..j]);
    assert output[j..j + 4] == Bytes(w);
  }

  lemma EncodeSnoc(ws: seq<Word>, w: Word)
    ensures EncodeSpec(ws + [w]) == EncodeSpec(ws) + Bytes(w)
  {
    if ws != [] {
      assert (ws + [w])[1..] == ws[1..] + [w];
      EncodeSnoc(ws[1..], w);
    } else {
      assert [w][1..] == [];
    }
  }

  // Bytes to words: four bytes that do not overlap make one word.
  method Decode(output: array<Word>, input: seq<byte>)
    requires |input| == 4 * output.Length
    modifies output
    ensures output[..] == DecodeSpec(input) && EncodeSpec(output[..]) == input
  {
    var i, j := 0, 0;
    while j < |input|
      invariant j == 4 * i <= |input|
      invariant EncodeSpec(output[..i]) == input[..j]
    {
      ghost var before := output[..i];
      output[i] := Join(input[j..j + 4]);
      BytesJoin(input[j..j + 4]);
      EncodeSnoc(before, output[i]);
      assert output[..i + 1] == before + [output[i]];
      assert input[..j + 4] == input[..j] + input[j..j + 4];
      i := i + 1;
      j := j + 4;
    }
    assert output[..i] == output[..] && input[..j] == input;
    DecodeEncode(output[..]);
  }

  lemma Slice(m: seq<byte>, n: nat, i: nat)
    requires n + i + 64 <= |m|
    ensures m[n + i..n + i + 64] == m[n..][i..i + 64]
  {
  }

  class MD5 {
    var count0: Word
    var count1: Word
    var state: Chain
    const buffer: array<byte>
    var isFinished: bool
    const f: Compress
    // Everything fed so far, and how many blocks of it have been absorbed.
    ghost var message: seq<byte>
    ghost var blocks: nat

    // The counter holds the length, the state the complete blocks, the buffer the rest.
    ghost predicate Valid()
      reads this, buffer
    {
      buffer.Length == 64 && Total(count0, count1) == 8 * |message| % TWO64 && Absorbed() && Kept()
    }

    ghost predicate Absorbed()
      reads this
    {
      64 * blocks <= |message| && state == Fold(f, INIT, message[..64 * blocks])
    }

    ghost predicate Kept()
      requires buffer.Length == 64
      reads this, buffer
    {
      64 * blocks <= |message| < 64 * blocks + 64 && buffer[..|message| - 64 * blocks] == message[64 * blocks..]
    }

    constructor (compress: Compress)
      ensures Valid() && !isFinished && message == [] && f == compress && fresh(buffer)
    {
      count0, count1, state := 0, 0, INIT;
      buffer := new byte[64];
      isFinished, f, message, blocks := false, compress, [], 0;
    }

    // Any piece shorter than 2^29 bytes is appended to the message.
    method Update(text: seq<byte>)
      requires Valid() && !isFinished && |text| < 0x2000_0000
      modifies this`count0, this`count1, this`state, this`message, this`blocks, buffer
      ensures Valid() && message == old(message) + text
    {
      var index := Index();
      var partlen := 64 - index;
      AddMod(8 * |message|, 8 * |text|);
      CountBytes(|text|);
      Extend(text);
      if |text| >= partlen {
        TakeBlocks(text, index, partlen);
      } else {
        CopyInto(index, text);
        assert message[64 * blocks..] == message[64 * blocks..|message| - |text|] + message[|message| - |text|..];
      }
    }

    // Where in its block the next byte goes.
    method Index() returns (index: nat)
      requires Valid()
      ensures index == |message| - 64 * blocks == |message| % 64
    {
      IndexOf(count0, count1, |message|);
      RestOfBlock(blocks, |message| - 64 * blocks);
      index := count0 / 8 % 64;
    }

    // The message grows; what was absorbed stays so.
    ghost method Extend(text: seq<byte>)
      requires Absorbed()
      modifies this`message
      ensures message == old(message) + text && Absorbed()
    {
      assert (message + text)[..64 * blocks] == message[..64 * blocks];
      message := message + text;
    }

    // Completes the block in the buffer, absorbs every further complete block and keeps the rest.
    method TakeBlocks(text: seq<byte>, index: nat, partlen: nat)
      requires buffer.Length == 64 && index + partlen == 64 && 0 < partlen <= |text| <= |message|
      requires message[|message| - |text|..] == text && |message| - |text| == 64 * blocks + index
      requires Absorbed() && buffer[..index] == message[64 * blocks..|message| - |text|]
      modifies this`state, this`blocks, buffer
      ensures Absorbed() && Kept()
    {
      ghost var n := |message| - |text|;
      CopyInto(index, text[..partlen]);
      assert message[n - index..n + partlen] == message[n - index..n] + message[n..][..partlen];
      Transform(buffer[..]);
      var i := TakeWhole(text, partlen);
      CopyInto(0, text[i..]);
      assert message[n + i..] == message[n..][i..];
    }

    // The loop over the complete blocks of the text itself.
    method TakeWhole(text: seq<byte>, from: nat) returns (i: nat)
      requires from <= |text| <= |message| && message[|message| - |text|..] == text
      requires Absorbed() && |message| - |text| + from == 64 * blocks
      modifies this`state, this`blocks
      ensures from <= i <= |text| < i + 64 && Absorbed() && |message| - |text| + i == 64 * blocks
    {
      ghost var n := |message| - |text|;
      i := from;
      while i + 64 <= |text|
        invariant from <= i <= |text| && Absorbed() && n + i == 64 * blocks
      {
        Slice(message, n, i);
        Transform(text[i..i + 64]);
        i := i + 64;
      }
    }

    method Transform(block: seq<byte>)
      requires Absorbed() && 64 * blocks + 64 <= |message| && block == message[64 * blocks..64 * blocks + 64]
      modifies this`state, this`blocks
      ensures Absorbed() && blocks == old(blocks) + 1
    {
      FoldSnoc(f, INIT, message[..64 * blocks], block);
      assert message[..64 * blocks + 64] == message[..64 * blocks] + block;
      state := f(state, block);
      blocks := blocks + 1;
    }

    method CountBytes(len: nat)
      requires len < 0x2000_0000
      modifies this`count0, this`count1
      ensures Total(count0, count1) == (old(Total(count0, count1)) + 8 * len) % TWO64
    {
      CounterIff(count0, count1, len);
      count0 := (count0 + 8 * len) % TWO32;
      if count0 < 8 * len {
        count1 := (count1 + 1) % TWO32;
      }
      count1 := (count1 + len / 0x2000_0000) % TWO32;
    }

    method CopyInto(at: nat, bytes: seq<byte>)
      requires buffer.Length == 64 && at + |bytes| <= 64
      modifies buffer
      ensures buffer[..at + |bytes|] == old(buffer[..at]) + bytes
    {
      for k := 0 to |bytes|
        invariant buffer[..at + k] == old(buffer[..at]) + bytes[..k]
      {
        buffer[at + k] := bytes[k];
        assert buffer[..at + k + 1] == buffer[..at + k] + [bytes[k]];
      }
      assert bytes[..|bytes|] == bytes;
    }

    // Pads the message, absorbs the last blocks and gives the digest.
    method Finish(digest: array<byte>)
      requires Valid() && !isFinished && digest.Length == 16
      modifies this`count0, this`count1, this`state, this`message, this`blocks, this`isFinished, buffer, digest
      ensures isFinished && digest[..] == Digest(f, old(message))
    {
      ghost var m := message;
      var index := Index();
      var padlen := if index < 56 then 56 - index else 120 - index;
      assert padlen == PadLen(|m|);
      var bits := EncodeCount();
      Update([0x80] + Zeros(padlen - 1));
      Update(bits);
      // The padded message ends on a block boundary, so all of it has been absorbed.
      RestOfBlock(blocks, |message| - 64 * blocks);
      assert message[..64 * blocks] == message == Pad(m);
      Encode(digest, state);
      isFinished := true;
    }

    method EncodeCount() returns (bits: seq<byte>)
      requires Valid()
      ensures bits == LengthBytes(|message|)
    {
      IndexOf(count0, count1, |message|);
      var b := new byte[8];
      Encode(b, [count0, count1]);
      bits := b[..];
    }
  }

  lemma IndexOf(lo: Word, hi: Word, n: nat)
    requires Total(lo, hi) == 8 * n % TWO64
    ensures lo / 8 % 64 == n % 64
    ensures lo == 8 * n % TWO64 % TWO32 && hi == 8 * n % TWO64 / TWO32
  {
    ModMod(8 * n);
    IndexOk(lo, n);
  }

  lemma RestOfBlock(k: nat, rest: nat)
    requires rest < 64
    ensures (64 * k + rest) % 64 == rest
  {
  }

  lemma ModMod(x: nat)
    ensures x % TWO64 % TWO32 == x % TWO32
  {
    var k := x / TWO64;
    assert x == (k * TWO32) * TWO32 + x % TWO64;
  }

  lemma AddMod(x: nat, y: nat)
    ensures (x % TWO64 + y) % TWO64 == (x + y) % TWO64
  {
  }
}
