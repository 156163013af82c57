// A memory output stream that keeps what is written in a list of equal-sized blocks and
// hands them out directly: to a BlockInputStream, to a single array, or to another stream.

module BlockOutputStream {
  import opened Wrappers
  import opened JavaBytes
  import BIS = BlockInputStream

  const DEFAULT_BLOCK_SIZE := 65535
  const INT_MAX := 0x7fff_ffff

  class BlockOutputStream {
    const blockSize: int
    var blocks: seq<array<jbyte>>
    var streamLength: int
    /** The block being filled; null (None) before the first write and after one fills up. */
    var curBlock: Option<array<jbyte>>
    var curPos: int
    /** The bytes written so far. */
    ghost var written: seq<jbyte>

    /**
     * Every block is blockSize long and they are distinct; the block being filled is the
     * last one; streamLength counts every byte written; and the blocks, up to the used part
     * of the last one, hold exactly what was written.
     */
    ghost predicate Valid()
      reads this, blocks
    {
      && Shape()
      && written == BIS.Contents(blocks, LastUsed())
      && streamLength == |written|
    }

    /** The layout half of Valid: block sizes, distinct blocks, and where the current one is. */
    ghost predicate Shape()
      reads this
    {
      && blockSize > 0
      && (forall i :: 0 <= i < |blocks| ==> blocks[i].Length == blockSize)
      && (forall i, j :: 0 <= i < j < |blocks| ==> blocks[i] != blocks[j])
      && (curBlock.None? ==> curPos == 0)
      && (curBlock.Some? ==> |blocks| > 0 && curBlock.value == blocks[|blocks| - 1] && 0 <= curPos < blockSize)
    }

    /** The used part of the last block: all of it once it has filled up (the length openInput passes). */
    function LastUsed(): int
      reads this
    {
      if curBlock.None? && |blocks| > 0 then blockSize else curPos
    }

    /** The block write may fill next, if there is one. */
    function CurrentBlock(): set<array<jbyte>>
      reads this
    {
      if curBlock.Some? then {curBlock.value} else {}
    }

    constructor (blockSize: int)
      requires blockSize > 0
      ensures Valid() && this.blockSize == blockSize && written == []
    {
      this.blockSize := blockSize;
      blocks := [];
      streamLength := 0;
      curBlock := None;
      curPos := 0;
      written := [];
    }

    /** The no-argument constructor: blocks of DEFAULT_BLOCK_SIZE. */
    constructor Default()
      ensures Valid() && blockSize == DEFAULT_BLOCK_SIZE && written == []
    {
      blockSize := DEFAULT_BLOCK_SIZE;
      blocks := [];
      streamLength := 0;
      curBlock := None;
      curPos := 0;
      written := [];
    }

    /** The allocation at the top of the write loop: a fresh, empty last block. */
    method NewBlock()
      requires Valid() && curBlock.None?
      modifies this
      ensures Valid() && written == old(written) && streamLength == old(streamLength)
      ensures curBlock.Some? && fresh(curBlock.value) && curPos == 0
      ensures blocks == old(blocks) + [curBlock.value]
    {
      var block := new jbyte[blockSize];
      var prev := blocks;
      OpenBlockContents(prev, block, blockSize);
      ghost var before := BIS.Contents(prev + [block], 0);
      blocks := prev + [block];
      curBlock := Some(block);
      curPos := 0;
      assert Shape() by {
        assert forall i :: 0 <= i < |prev| ==> prev[i] != block;
      }
      assert LastUsed() == 0;
      assert BIS.Contents(blocks, 0) == before;
    }

    /**
     * The copy in the write loop: remain bytes of b from off onto the end of the current
     * block, which is given up once it is full.
     */
    method Fill(b: array<jbyte>, off: int, remain: int) returns (r: Result<()>)
      requires Valid() && curBlock.Some? && b !in blocks
      requires 0 < remain <= blockSize - curPos
      modifies this, curBlock.value
      ensures Valid() && blocks == old(blocks) && b[..] == old(b[..])
      ensures r.Err? <==> off < 0 || off + remain > b.Length
      ensures r.Err? ==> r.error == IndexOutOfBounds && written == old(written)
      ensures r.Ok? ==> written == old(written) + b[off..off + remain]
    {
      var block := curBlock.value;
      var n := |blocks|;
      assert block !in blocks[..n - 1];
      ghost var front := BIS.FullBlocks(blocks, n - 1);
      ghost var used := block[..curPos];
      assert old(written) == front + used;
      if off < 0 || off + remain > b.Length {
        // System.arraycopy checks both ranges before it copies anything.
        return Err(IndexOutOfBounds);
      }
      ghost var added := b[off..off + remain];
      var _ := ArrayCopy(b, off, block, curPos, remain);
      assert BIS.FullBlocks(blocks, n - 1) == front;
      assert block[..curPos + remain] == used + added;
      ConcatAssoc(front, used, added);
      Advance(remain, added);
      r := Ok(());
    }

    /**
     * The field updates after the copy: curPos and the length move past the copied bytes,
     * and a block that is now full is given up.
     */
    method Advance(remain: int, ghost added: seq<jbyte>)
      requires Shape() && curBlock.Some? && 0 < remain <= blockSize - curPos && |added| == remain
      requires streamLength == |written|
      requires written + added == BIS.FullBlocks(blocks, |blocks| - 1) + curBlock.value[..curPos + remain]
      modifies this
      ensures Valid() && blocks == old(blocks) && written == old(written) + added
    {
      ghost var filled := curPos + remain;
      BIS.ContentsLast(blocks, filled);
      ghost var total := BIS.Contents(blocks, filled);
      assert total == written + added;
      curPos := curPos + remain;
      streamLength := streamLength + remain;
      written := written + added;
      if curPos >= blockSize {
        curBlock := None;
        curPos := 0;
      }
      assert LastUsed() == filled;
      assert BIS.Contents(blocks, filled) == total;
    }

    /**
     * One pass of the write loop: a new block if none is being filled, then as much of
     * b[o..o + l] as fits in it.
     */
    method WriteStep(b: array<jbyte>, o: int, l: int, ghost start: seq<jbyte>, ghost off: int) returns (r: Result<int>)
      requires Valid() && b !in blocks && l > 0
      requires (o == off && written == start) || (0 <= off < o <= b.Length && written == start + b[off..o])
      modifies this, CurrentBlock()
      ensures Valid() && b !in blocks
      ensures forall x :: x in blocks ==> x in old(blocks) || fresh(x)
      ensures curBlock.Some? ==> curBlock.value in old(CurrentBlock()) || fresh(curBlock.value)
      ensures b[..] == old(b[..])
      ensures r.Err? ==> r.error == IndexOutOfBounds && (o < 0 || o + l > b.Length) && written == old(written)
      ensures r.Ok? ==> 0 < r.value <= l && 0 <= o && o + r.value <= b.Length
      ensures r.Ok? ==> 0 <= off < o + r.value <= b.Length && written == start + b[off..o + r.value]
    {
      if curBlock.None? {
        NewBlock();
      }
      r := FillStep(b, o, l, start, off);
    }

    /** The copying half of one pass of the write loop, into the block being filled. */
    method FillStep(b: array<jbyte>, o: int, l: int, ghost start: seq<jbyte>, ghost off: int) returns (r: Result<int>)
      requires Valid() && curBlock.Some? && b !in blocks && l > 0
      requires (o == off && written == start) || (0 <= off < o <= b.Length && written == start + b[off..o])
      modifies this, curBlock.value
      ensures Valid() && b !in blocks && blocks == old(blocks)
      ensures b[..] == old(b[..])
      ensures r.Err? ==> r.error == IndexOutOfBounds && (o < 0 || o + l > b.Length) && written == old(written)
      ensures r.Ok? ==> 0 < r.value <= l && 0 <= o && o + r.value <= b.Length
      ensures r.Ok? ==> 0 <= off < o + r.value <= b.Length && written == start + b[off..o + r.value]
    {
      ghost var w0 := written;
      ghost var src := b[..];
      var remain := blockSize - curPos;
      if remain > l {
        remain := l;
      }
      var copied := Fill(b, o, remain);
      if copied.Err? {
        return Err(copied.error);
      }
      WriteExtends(start, w0, written, src, off, o, remain);
      r := Ok(remain);
    }

    /**
     * write(b, off, len): the bytes b[off..off + len] are appended. Nothing is written for
     * len <= 0; a range outside b throws IndexOutOfBoundsException, after the blocks that did
     * fit were written.
     */
    method Write(b: array<jbyte>, off: int, len: int) returns (r: Result<()>)
      requires Valid() && b !in blocks
      modifies this, CurrentBlock()
      ensures Valid() && b !in blocks
      ensures forall x :: x in blocks ==> x in old(blocks) || fresh(x)
      ensures r.Err? <==> len > 0 && (off < 0 || off + len > b.Length)
      ensures r.Err? ==> r.error == IndexOutOfBounds
      ensures r.Ok? && len > 0 ==> written == old(written) + b[off..off + len]
      ensures r.Ok? && len <= 0 ==> written == old(written)
      ensures r.Err? ==> old(written) <= written
      ensures r.Err? ==> written[|old(written)|..] <= (if 0 <= off <= b.Length then b[off..] else [])
    {
      ghost var start := written;
      ghost var src := b[..];
      var o, l := off, len;
      while l > 0
        invariant Valid() && b !in blocks && b[..] == src
        invariant forall x :: x in blocks ==> x in old(blocks) || fresh(x)
        invariant curBlock.Some? ==> curBlock.value in old(CurrentBlock()) || fresh(curBlock.value)
        invariant o + l == off + len && l <= len && (l < len ==> 0 <= l)
        invariant o == off ==> written == start
        invariant o != off ==> 0 <= off < o <= b.Length
        invariant o != off ==> written == start + b[off..o]
        decreases l
      {
        var step := WriteStep(b, o, l, start, off);
        if step.Err? {
          PartialWrite(start, written, src, off, o);
          return Err(step.error);
        }
        o, l := o + step.value, l - step.value;
      }
      r := Ok(());
    }

    /** write(b): write(b, 0, b.length). */
    method WriteAll(b: array<jbyte>)
      requires Valid() && b !in blocks
      modifies this, CurrentBlock()
      ensures Valid() && b !in blocks
      ensures forall x :: x in blocks ==> x in old(blocks) || fresh(x)
      ensures written == old(written) + b[..]
    {
      var r := Write(b, 0, b.Length);
      assert b[0..b.Length] == b[..];
    }

    /** write(int), with the int narrowed to a byte by the cast (see ByteOfIntAsWritten). */
    method WriteInt(ib: int)
      requires Valid()
      modifies this, CurrentBlock()
      ensures Valid()
      ensures forall x :: x in blocks ==> x in old(blocks) || fresh(x)
      ensures written == old(written) + [ToByte(ib)]
    {
      var one := new jbyte[1](_ => ToByte(ib));
      var r := Write(one, 0, 1);
      assert one[0..1] == [one[0]];
    }

    /** length(), counting a filled-up last block in full (see LengthAsWritten). */
    method Length() returns (r: int)
      requires Valid()
      ensures r == |written|
    {
      BIS.ContentsLength(blocks, blockSize, LastUsed());
      if |blocks| == 0 {
        return 0;
      }
      r := (|blocks| - 1) * blockSize + LastUsed();
    }

    /** openInput: a stream over the same blocks, which yields exactly what was written. */
    method OpenInput() returns (r: BIS.BlockInputStream)
      requires Valid()
      ensures fresh(r) && r.Valid() && r.position == 0
      ensures r.blocks == blocks && r.Data() == written
    {
      r := new BIS.BlockInputStream(blocks, blockSize, if curBlock.None? && |blocks| > 0 then blockSize else curPos);
    }

    /**
     * getBytes, copying the used part of a filled-up last block too (see GetBytesAsWritten):
     * a fresh array holding what was written, or a RuntimeException past 32-bit array sizes.
     */
    method GetBytes() returns (r: Result<array<jbyte>>)
      requires Valid()
      ensures r.Err? <==> |written| > INT_MAX
      ensures r.Err? ==> r.error == Runtime
      ensures r.Ok? ==> fresh(r.value) && r.value[..] == written
    {
      BIS.ContentsLength(blocks, blockSize, LastUsed());
      if streamLength > INT_MAX {
        return Err(Runtime);
      }
      var ret := new jbyte[streamLength](_ => 0);
      CopyBlocks(blocks, blockSize, LastUsed(), ret, written);
      r := Ok(ret);
    }

    /**
     * writeTo(out), with what is handed to out gathered as a sequence of bytes: the whole
     * blocks, then the used part of the last one (see EmittedAsWritten).
     */
    method WriteTo() returns (emitted: seq<jbyte>)
      requires Valid()
      ensures emitted == written
    {
      var n := |blocks|;
      var i := 0;
      emitted := [];
      while i < n - 1
        invariant 0 <= i <= (if n > 0 then n - 1 else 0)
        invariant emitted == BIS.FullBlocks(blocks, i)
      {
        emitted := emitted + blocks[i][..];
        i := i + 1;
      }
      if n > 0 && LastUsed() > 0 {
        emitted := emitted + blocks[n - 1][..LastUsed()];
      }
    }
  }

  lemma ConcatAssoc(a: seq<jbyte>, b: seq<jbyte>, c: seq<jbyte>)
    ensures (a + b) + c == a + (b + c)
  {
  }

  /** Opening a new, empty last block leaves the contents as they were. */
  lemma OpenBlockContents(prev: seq<array<jbyte>>, block: array<jbyte>, blockSize: int)
    requires BIS.Shaped(prev, blockSize, if |prev| > 0 then blockSize else 0) && block.Length == blockSize
    ensures BIS.Contents(prev + [block], 0) == BIS.Contents(prev, if |prev| > 0 then blockSize else 0)
  {
    BIS.ContentsAllFull(prev, blockSize);
    BIS.FullBlocksAppend(prev, [block], |prev|);
    BIS.ContentsLast(prev + [block], 0);
    assert block[..0] == [];
  }

  /** One more pass of the write loop extends the bytes written by the next piece of the source. */
  lemma WriteExtends(start: seq<jbyte>, before: seq<jbyte>, after: seq<jbyte>, src: seq<jbyte>, off: int, o: int, n: int)
    requires 0 <= off <= o && 0 <= n && o + n <= |src|
    requires (o == off && before == start) || (off < o && before == start + src[off..o])
    requires after == before + src[o..o + n]
    ensures after == start + src[off..o + n]
  {
    assert src[off..o + n] == src[off..o] + src[o..o + n];
  }

  /** What an interrupted write leaves: the old bytes, then a prefix of the source from off. */
  lemma PartialWrite(start: seq<jbyte>, w: seq<jbyte>, src: seq<jbyte>, off: int, o: int)
    requires (o == off && w == start) || (0 <= off < o <= |src| && w == start + src[off..o])
    ensures start <= w && w[|start|..] <= (if 0 <= off <= |src| then src[off..] else [])
  {
    if o != off {
      assert w[|start|..] == src[off..o];
    }
  }

  /**
   * The copying half of getBytes: the whole blocks one after another into ret, then the used
   * part of the last block.
   */
  method CopyBlocks(blocks: seq<array<jbyte>>, blockSize: int, used: int, ret: array<jbyte>, ghost expected: seq<jbyte>)
    requires BIS.Shaped(blocks, blockSize, used) && ret !in blocks
    requires expected == BIS.Contents(blocks, used) && ret.Length == |expected|
    modifies ret
    ensures ret[..] == expected
  {
    BIS.ContentsLength(blocks, blockSize, used);
    var n := |blocks|;
    var whole := if n > 0 then n - 1 else 0;
    forall k | 0 <= k < whole
      ensures k * blockSize + blockSize <= |expected| && blocks[k][..] == expected[k * blockSize..k * blockSize + blockSize]
    {
      BIS.ContentsSlice(blocks, blockSize, used, k, 0, blockSize);
      assert blocks[k][..] == blocks[k][..blockSize];
    }
    ghost var tail := if n > 0 then expected[whole * blockSize..] else [];
    if n > 0 {
      BIS.ContentsSlice(blocks, blockSize, used, n - 1, 0, used);
      assert tail == blocks[n - 1][..used];
    }
    assert expected == expected[..whole * blockSize] + tail;
    CopyWholeBlocks(blocks, blockSize, whole, ret, expected);
    if n > 0 && used > 0 {
      var lastBlock := blocks[n - 1];
      ghost var done := ret[..whole * blockSize];
      var _ := ArrayCopy(lastBlock, 0, ret, whole * blockSize, used);
      assert ret[..] == done + lastBlock[..used];
    } else {
      assert ret[..] == ret[..whole * blockSize];
    }
  }

  /** The loop of getBytes over the whole blocks: block k goes to ret at k * blockSize. */
  method CopyWholeBlocks(blocks: seq<array<jbyte>>, blockSize: int, count: nat, ret: array<jbyte>, ghost expected: seq<jbyte>)
    requires count <= |blocks| && blockSize > 0 && ret !in blocks
    requires forall k :: 0 <= k < |blocks| ==> blocks[k].Length == blockSize
    requires count * blockSize <= ret.Length
    requires forall k :: 0 <= k < count ==>
      k * blockSize + blockSize <= |expected| && blocks[k][..] == expected[k * blockSize..k * blockSize + blockSize]
    modifies ret
    ensures count * blockSize <= |expected| && ret[..count * blockSize] == expected[..count * blockSize]
    ensures ret[count * blockSize..] == old(ret[count * blockSize..])
  {
    var i, at := 0, 0;
    while i < count
      invariant 0 <= i <= count && at == i * blockSize && at <= count * blockSize
      invariant at <= |expected| && ret[..at] == expected[..at]
      invariant ret[count * blockSize..] == old(ret[count * blockSize..])
    {
      BIS.MulLe(i + 1, count, blockSize);
      assert (i + 1) * blockSize == at + blockSize;
      var block := blocks[i];
      ghost var done := ret[..at];
      ghost var rest := ret[count * blockSize..];
      var _ := ArrayCopy(block, 0, ret, at, blockSize);
      assert ret[..at + blockSize] == done + block[..];
      assert ret[count * blockSize..] == rest;
      assert expected[..at + blockSize] == expected[..at] + expected[at..at + blockSize];
      i, at := i + 1, at + blockSize;
    }
    if count == 0 {
      assert 0 <= |expected|;
    }
  }

  /** write(int) as written: (byte)(ib < 128 ? ib : 127 - ib). */
  function ByteOfIntAsWritten(ib: int): (b: jbyte)
    ensures 0 <= ib < 128 ==> b == ToByte(ib) == ib
  {
    ToByte(if ib < 128 then ib else 127 - ib)
  }

  /**
   * A byte value of 128..255, which is what InputStream.read returns for a negative byte,
   * does not come back: 200 is stored as -73, which reads back as 183.
   */
  lemma HighByteCorrupted()
    ensures Unsigned(ByteOfIntAsWritten(200)) == 183
    ensures Unsigned(ToByte(200)) == 200
  {
  }

  /** Below 128 the as-written conversion and the cast agree. */
  lemma LowBytesAgree(ib: int)
    requires 0 <= ib < 128
    ensures ByteOfIntAsWritten(ib) == ToByte(ib) == ib
  {
  }

  /** length() as written: the last block counted by curPos, which is 0 once it is full. */
  function LengthAsWritten(blockCount: nat, blockSize: int, curPos: int): int
  {
    if blockCount == 0 then 0 else (blockCount - 1) * blockSize + curPos
  }

  /** writeTo as written: the last block goes out only when curPos > 0. */
  function EmittedAsWritten(blocks: seq<array<jbyte>>, curPos: int): seq<jbyte>
    requires |blocks| > 0 ==> 0 <= curPos <= blocks[|blocks| - 1].Length
    reads blocks
  {
    if |blocks| == 0 then []
    else BIS.FullBlocks(blocks, |blocks| - 1) + (if curPos > 0 then blocks[|blocks| - 1][..curPos] else [])
  }

  /** getBytes as written: the same bytes, in an array of streamLength zeros. */
  function GetBytesAsWritten(blocks: seq<array<jbyte>>, curPos: int, streamLength: int): (r: seq<jbyte>)
    requires |blocks| > 0 ==> 0 <= curPos <= blocks[|blocks| - 1].Length
    requires |EmittedAsWritten(blocks, curPos)| <= streamLength
    reads blocks
    ensures |r| == streamLength && EmittedAsWritten(blocks, curPos) <= r
    ensures forall i :: |EmittedAsWritten(blocks, curPos)| <= i < streamLength ==> r[i] == 0
  {
    EmittedAsWritten(blocks, curPos) + seq(streamLength - |EmittedAsWritten(blocks, curPos)|, _ => 0)
  }

  /**
   * When what was written fills the last block exactly (the write loop has reset curPos to
   * 0), length() is short by a block, writeTo leaves that block out and getBytes leaves
   * zeros in its place.
   */
  lemma FullLastBlockLost(s: BlockOutputStream)
    requires s.Valid() && s.curBlock.None? && |s.blocks| > 0
    ensures |s.written| >= s.blockSize
    ensures LengthAsWritten(|s.blocks|, s.blockSize, s.curPos) == |s.written| - s.blockSize
    ensures EmittedAsWritten(s.blocks, s.curPos) == s.written[..|s.written| - s.blockSize]
    ensures GetBytesAsWritten(s.blocks, s.curPos, s.streamLength)
         == s.written[..|s.written| - s.blockSize] + seq(s.blockSize, _ => 0)
  {
    var n := |s.blocks|;
    BIS.ContentsLength(s.blocks, s.blockSize, s.LastUsed());
    BIS.FullBlocksLength(s.blocks, s.blockSize, n - 1);
    assert s.written[..|s.written| - s.blockSize] == BIS.FullBlocks(s.blocks, n - 1);
  }

  /** While the last block is still being filled, the as-written length, writeTo and getBytes are right. */
  lemma PartialLastBlockKept(s: BlockOutputStream)
    requires s.Valid() && (s.curBlock.Some? || |s.blocks| == 0)
    ensures LengthAsWritten(|s.blocks|, s.blockSize, s.curPos) == |s.written|
    ensures EmittedAsWritten(s.blocks, s.curPos) == s.written
    ensures GetBytesAsWritten(s.blocks, s.curPos, s.streamLength) == s.written
  {
    BIS.ContentsLength(s.blocks, s.blockSize, s.LastUsed());
    if |s.blocks| > 0 && s.curPos == 0 {
      assert s.blocks[|s.blocks| - 1][..0] == [];
    }
  }

  /**
   * Bytes written in one piece come back from a stream opened afterwards, read to the end
   * through a buffer: the round trip of the block I/O test.
   */
  method WriteThenRead(out: BlockOutputStream, src: array<jbyte>, buffer: array<jbyte>) returns (collected: seq<jbyte>)
    requires out.Valid() && src !in out.blocks && buffer !in out.blocks && buffer.Length > 0
    modifies out, out.CurrentBlock(), buffer
    ensures collected == old(out.written) + old(src[..])
  {
    ghost var source := src[..];
    out.WriteAll(src);
    var input := out.OpenInput();
    collected := BIS.ReadToEnd(input, buffer);
  }
}
