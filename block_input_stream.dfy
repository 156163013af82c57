// A memory input stream over a sequence of equal-sized blocks, of which the last is used
// only up to lastLength: the reader of a BlockOutputStream.

module BlockInputStream {
  import opened Wrappers
  import opened JavaBytes

  /** Every block is blockSize long, and lastLength fits the last (0 without blocks). */
  predicate Shaped(blocks: seq<array<jbyte>>, blockSize: int, lastLength: int)
  {
    && blockSize > 0
    && (forall i :: 0 <= i < |blocks| ==> blocks[i].Length == blockSize)
    && 0 <= lastLength <= blockSize
    && (|blocks| == 0 ==> lastLength == 0)
  }

  /** The first k blocks, whole, one after the other. */
  function FullBlocks(blocks: seq<array<jbyte>>, k: nat): (r: seq<jbyte>)
    requires k <= |blocks|
    reads blocks[..k]
  {
    if k == 0 then [] else FullBlocks(blocks, k - 1) + blocks[k - 1][..]
  }

  /** The bytes a stream over the blocks yields: the whole blocks, then the used part of the last. */
  function Contents(blocks: seq<array<jbyte>>, lastLength: int): (r: seq<jbyte>)
    requires |blocks| > 0 ==> 0 <= lastLength <= blocks[|blocks| - 1].Length
    reads blocks
  {
    if |blocks| == 0 then [] else FullBlocks(blocks, |blocks| - 1) + blocks[|blocks| - 1][..lastLength]
  }

  lemma {:induction false} FullBlocksLength(blocks: seq<array<jbyte>>, blockSize: int, k: nat)
    requires k <= |blocks| && forall i :: 0 <= i < |blocks| ==> blocks[i].Length == blockSize
    ensures |FullBlocks(blocks, k)| == k * blockSize
  {
    if k > 0 {
      FullBlocksLength(blocks, blockSize, k - 1);
      assert k * blockSize == (k - 1) * blockSize + blockSize;
    }
  }

  /** Blocks added after the first k do not change them. */
  lemma {:induction false} FullBlocksAppend(blocks: seq<array<jbyte>>, more: seq<array<jbyte>>, k: nat)
    requires k <= |blocks|
    ensures FullBlocks(blocks + more, k) == FullBlocks(blocks, k)
  {
    assert (blocks + more)[..k] == blocks[..k];
    if k > 0 {
      FullBlocksAppend(blocks, more, k - 1);
      assert (blocks + more)[k - 1] == blocks[k - 1];
    }
  }

  /** The contents of a non-empty sequence of blocks: the whole ones, then the start of the last. */
  lemma ContentsLast(blocks: seq<array<jbyte>>, lastLength: int)
    requires |blocks| > 0 && 0 <= lastLength <= blocks[|blocks| - 1].Length
    ensures Contents(blocks, lastLength) == FullBlocks(blocks, |blocks| - 1) + blocks[|blocks| - 1][..lastLength]
  {
  }

  /** When the last block is used in full, the contents are all the blocks whole. */
  lemma ContentsAllFull(blocks: seq<array<jbyte>>, blockSize: int)
    requires Shaped(blocks, blockSize, if |blocks| > 0 then blockSize else 0)
    ensures Contents(blocks, if |blocks| > 0 then blockSize else 0) == FullBlocks(blocks, |blocks|)
  {
    if |blocks| > 0 {
      assert blocks[|blocks| - 1][..blockSize] == blocks[|blocks| - 1][..];
    }
  }

  /** Byte j of block i sits at i * blockSize + j. */
  lemma {:induction false} FullBlocksAt(blocks: seq<array<jbyte>>, blockSize: int, k: nat, i: nat, j: nat)
    requires k <= |blocks| && forall i :: 0 <= i < |blocks| ==> blocks[i].Length == blockSize
    requires i < k && j < blockSize
    ensures i * blockSize + j < |FullBlocks(blocks, k)|
    ensures FullBlocks(blocks, k)[i * blockSize + j] == blocks[i][j]
  {
    FullBlocksLength(blocks, blockSize, k - 1);
    assert k * blockSize == (k - 1) * blockSize + blockSize;
    if i < k - 1 {
      FullBlocksAt(blocks, blockSize, k - 1, i, j);
    } else {
      assert i * blockSize == (k - 1) * blockSize;
    }
  }

  /** The length of the contents: the whole blocks and the used part of the last. */
  lemma ContentsLength(blocks: seq<array<jbyte>>, blockSize: int, lastLength: int)
    requires Shaped(blocks, blockSize, lastLength)
    ensures |Contents(blocks, lastLength)| == if |blocks| == 0 then 0 else (|blocks| - 1) * blockSize + lastLength
  {
    if |blocks| > 0 {
      FullBlocksLength(blocks, blockSize, |blocks| - 1);
    }
  }

  /** Where a block's byte sits in the contents. */
  lemma ContentsAt(blocks: seq<array<jbyte>>, blockSize: int, lastLength: int, i: nat, j: nat)
    requires Shaped(blocks, blockSize, lastLength)
    requires i < |blocks| && j < (if i == |blocks| - 1 then lastLength else blockSize)
    ensures i * blockSize + j < |Contents(blocks, lastLength)|
    ensures Contents(blocks, lastLength)[i * blockSize + j] == blocks[i][j]
  {
    var n := |blocks|;
    FullBlocksLength(blocks, blockSize, n - 1);
    if i < n - 1 {
      FullBlocksAt(blocks, blockSize, n - 1, i, j);
    } else {
      assert i * blockSize == (n - 1) * blockSize;
    }
  }

  lemma MulLe(a: int, b: int, k: int)
    requires a <= b && k >= 0
    ensures a * k <= b * k
  {
  }

  /**
   * A position p == bi * blockSize + bp with 0 <= bp < blockSize is at or past the end of
   * the data exactly when block bi does not exist, or is the last one and bp is past its
   * used part; in the last block the data ends at bi * blockSize + lastLength.
   */
  lemma Locate(blocks: seq<array<jbyte>>, blockSize: int, lastLength: int, p: int, bi: int, bp: int)
    requires Shaped(blocks, blockSize, lastLength)
    requires p == bi * blockSize + bp && 0 <= bi && 0 <= bp < blockSize
    ensures p >= |Contents(blocks, lastLength)| <==> bi >= |blocks| || (bi == |blocks| - 1 && bp >= lastLength)
    ensures bi == |blocks| - 1 ==> bi * blockSize + lastLength == |Contents(blocks, lastLength)|
  {
    var n := |blocks|;
    ContentsLength(blocks, blockSize, lastLength);
    if n > 0 {
      if bi >= n {
        MulLe(n, bi, blockSize);
        assert n * blockSize == (n - 1) * blockSize + blockSize;
      } else if bi < n - 1 {
        MulLe(bi + 1, n - 1, blockSize);
        assert (bi + 1) * blockSize == bi * blockSize + blockSize;
      }
    }
  }

  /** A run of one block's bytes is the same run of the contents. */
  lemma ContentsSlice(blocks: seq<array<jbyte>>, blockSize: int, lastLength: int, i: nat, j: nat, count: nat)
    requires Shaped(blocks, blockSize, lastLength)
    requires i < |blocks| && j + count <= (if i == |blocks| - 1 then lastLength else blockSize)
    ensures i * blockSize + j + count <= |Contents(blocks, lastLength)|
    ensures blocks[i][j..j + count] == Contents(blocks, lastLength)[i * blockSize + j..i * blockSize + j + count]
  {
    var c := Contents(blocks, lastLength);
    var base := i * blockSize;
    var limit := if i == |blocks| - 1 then lastLength else blockSize;
    var e := if j + count > 0 then j + count - 1 else 0;
    if e < limit {
      ContentsAt(blocks, blockSize, lastLength, i, e);
    } else {
      ContentsLength(blocks, blockSize, lastLength);
    }
    var run := blocks[i][j..j + count];
    var want := c[base + j..base + j + count];
    forall t | 0 <= t < count
      ensures run[t] == want[t]
    {
      ContentsAt(blocks, blockSize, lastLength, i, j + t);
    }
    assert run == want;
  }

  /** The stream end skip clamps to, as written: negative for a stream without blocks. */
  function MaxLengthAsWritten(blockCount: nat, blockSize: int, lastLength: int): int
  {
    (blockCount - 1) * blockSize + lastLength
  }

  /** skip(n) as written: the new position and the value returned. */
  function SkipAsWritten(blockCount: nat, blockSize: int, lastLength: int, position: int, n: int): (r: (int, int))
    ensures r.0 == position + r.1 && r.1 <= n
    ensures r.0 <= MaxLengthAsWritten(blockCount, blockSize, lastLength)
  {
    var p := position + n;
    var clamped := if p > MaxLengthAsWritten(blockCount, blockSize, lastLength) then MaxLengthAsWritten(blockCount, blockSize, lastLength) else p;
    (clamped, clamped - position)
  }

  /**
   * On a stream without blocks (what openInput gives for an empty BlockOutputStream) the
   * code as written skips backwards: skip(1) from the start returns -blockSize.
   */
  lemma EmptySkipGoesBackwards(blockSize: int)
    requires blockSize > 0
    ensures SkipAsWritten(0, blockSize, 0, 0, 1) == (-blockSize, -blockSize)
  {
  }

  class BlockInputStream {
    const blocks: seq<array<jbyte>>
    const lastLength: int
    const blockSize: int
    var position: int

    ghost predicate Valid()
    {
      Shaped(blocks, blockSize, lastLength)
    }

    /** The bytes the stream yields from position 0. */
    function Data(): (r: seq<jbyte>)
      requires Valid()
      reads blocks
    {
      Contents(blocks, lastLength)
    }

    constructor (blocks: seq<array<jbyte>>, blockSize: int, lastLength: int)
      ensures this.blocks == blocks && this.blockSize == blockSize && this.lastLength == lastLength
      ensures position == 0
    {
      this.blocks := blocks;
      this.blockSize := blockSize;
      this.lastLength := lastLength;
      position := 0;
    }

    /** available: the capacity of all blocks, never less than what is left to read. */
    method Available() returns (r: int)
      requires Valid()
      ensures r == |blocks| * blockSize
      ensures position >= 0 ==> r >= |Data()| - position
    {
      ContentsLength(blocks, blockSize, lastLength);
      r := |blocks| * blockSize;
    }

    /**
     * skip(n), with the clamp at the end of the data (0 for a stream without blocks): the
     * position moves by n but not past the end, and the distance moved is returned.
     */
    method Skip(n: int) returns (r: int)
      requires Valid()
      modifies this
      ensures position == (if old(position) + n > |Data()| then |Data()| else old(position) + n)
      ensures r == position - old(position)
      ensures 0 <= old(position) <= |Data()| && n >= 0 ==> 0 <= r <= n
      ensures |blocks| > 0 ==> (position, r) == SkipAsWritten(|blocks|, blockSize, lastLength, old(position), n)
    {
      ContentsLength(blocks, blockSize, lastLength);
      var origPosition := position;
      var maxLength := if |blocks| == 0 then 0 else (|blocks| - 1) * blockSize + lastLength;
      position := position + n;
      if position > maxLength {
        position := maxLength;
      }
      r := position - origPosition;
    }

    /**
     * read(b, off, len): at most len bytes from the current block into b from off. At the end
     * it is -1; otherwise the count read, the position advanced by it and the run of the data
     * copied, stopping at len, the end of the data or the end of the block, whichever is first.
     */
    method Read(b: array<jbyte>, off: int, len: int) returns (r: Result<int>)
      requires Valid() && b !in blocks
      modifies this, b
      ensures Data() == old(Data())
      ensures 0 <= old(position) && old(position) >= |Data()| ==>
        r == Ok(-1) && position == old(position) && b[..] == old(b[..])
      ensures r.Err? ==> r.error == IndexOutOfBounds && position == old(position) && b[..] == old(b[..])
      ensures r.Err? ==> old(position) < 0 || off < 0 || len < 0 || off + len > b.Length
      ensures r.Ok? && r.value < 0 ==> r.value == -1 && position == old(position) && b[..] == old(b[..])
      ensures r.Ok? && r.value < 0 && old(position) >= 0 ==> old(position) >= |Data()|
      ensures r.Ok? && r.value >= 0 ==>
        && 0 <= old(position) && old(position) + r.value <= |Data()|
        && 0 <= off && r.value <= len && off + r.value <= b.Length
        && position == old(position) + r.value
        && b[..] == old(b[..off]) + Data()[old(position)..old(position) + r.value] + old(b[off + r.value..])
        && (old(position) % blockSize) + r.value <= blockSize
        && (r.value == len || old(position) + r.value == |Data()| || (old(position) % blockSize) + r.value == blockSize)
      ensures 0 <= old(position) < |Data()| && 0 <= off && 0 < len && off + len <= b.Length ==> r.Ok? && r.value > 0
    {
      ContentsLength(blocks, blockSize, lastLength);
      var blockIndex := JavaDiv(position, blockSize);
      var blockPos := JavaRem(position, blockSize);
      if position >= 0 {
        assert position == blockIndex * blockSize + blockPos;
        assert 0 <= blockIndex;
        assert 0 <= blockPos < blockSize;
        Locate(blocks, blockSize, lastLength, position, blockIndex, blockPos);
      }
      var lastBlock := blockIndex == |blocks| - 1;
      if blockIndex >= |blocks| || (lastBlock && blockPos >= lastLength) {
        return Ok(-1);
      }
      if blockIndex < 0 {
        return Err(IndexOutOfBounds);
      }
      var remain;
      if lastBlock {
        remain := lastLength - blockPos;
      } else {
        remain := blockSize - blockPos;
      }
      if remain > len {
        remain := len;
      }
      r := CopyRun(b, off, blockIndex, blockPos, remain);
    }

    /** The copy at the end of read: remain bytes of block blockIndex from blockPos into b at off. */
    method CopyRun(b: array<jbyte>, off: int, blockIndex: nat, blockPos: int, remain: int) returns (r: Result<int>)
      requires Valid() && b !in blocks
      requires blockIndex < |blocks| && position == blockIndex * blockSize + blockPos
      requires blockPos + remain <= (if blockIndex == |blocks| - 1 then lastLength else blockSize)
      modifies this, b
      ensures Data() == old(Data())
      ensures r.Err? <==> blockPos < 0 || off < 0 || remain < 0 || off + remain > b.Length
      ensures r.Err? ==> r.error == IndexOutOfBounds && position == old(position) && b[..] == old(b[..])
      ensures r.Ok? ==>
        && r.value == remain && position == old(position) + remain && old(position) + remain <= |Data()|
        && b[..] == old(b[..off]) + Data()[old(position)..old(position) + remain] + old(b[off + remain..])
    {
      var block := blocks[blockIndex];
      var copied := ArrayCopy(block, blockPos, b, off, remain);
      if copied.Err? {
        return Err(IndexOutOfBounds);
      }
      ContentsSlice(blocks, blockSize, lastLength, blockIndex, blockPos, remain);
      position := position + remain;
      r := Ok(remain);
    }

    /** read(b): read(b, 0, b.length). */
    method ReadAll(b: array<jbyte>) returns (r: Result<int>)
      requires Valid() && b !in blocks
      modifies this, b
      ensures Data() == old(Data())
      ensures 0 <= old(position) ==> r.Ok?
      ensures 0 <= old(position) && old(position) >= |Data()| ==> r == Ok(-1) && position == old(position)
      ensures r.Ok? && r.value < 0 ==> r.value == -1 && position == old(position)
      ensures r.Ok? && r.value < 0 && old(position) >= 0 ==> old(position) >= |Data()|
      ensures r.Ok? && r.value >= 0 ==>
        && 0 <= old(position) && old(position) + r.value <= |Data()| && r.value <= b.Length
        && position == old(position) + r.value
        && b[..r.value] == Data()[old(position)..position]
      ensures 0 <= old(position) < |Data()| && b.Length > 0 ==> r.Ok? && r.value > 0
    {
      r := Read(b, 0, b.Length);
      if r.Ok? && r.value >= 0 {
        assert b[..r.value] == b[..][..r.value];
      }
    }

    /** read(): the next byte as 0..255, or -1 at the end. */
    method ReadByte() returns (r: Result<int>)
      requires Valid()
      modifies this
      ensures Data() == old(Data())
      ensures 0 <= old(position) ==> r.Ok?
      ensures 0 <= old(position) && old(position) >= |Data()| ==> r == Ok(-1) && position == old(position)
      ensures 0 <= old(position) < |Data()| ==>
        r == Ok(Unsigned(Data()[old(position)])) && position == old(position) + 1
    {
      var ba := new jbyte[1](_ => 0);
      var n := ReadAll(ba);
      if n.Err? {
        return Err(n.error);
      }
      if n.value < 0 {
        return Ok(-1);
      }
      var b := ba[0];
      var v: int := if b < 0 then b as int + 256 else b;
      r := Ok(v);
    }
  }

  /**
   * The read loop of a consumer: read into the buffer until -1, collecting what each read
   * returned. From the start of a stream it collects exactly the stream's data.
   */
  method ReadToEnd(input: BlockInputStream, buffer: array<jbyte>) returns (collected: seq<jbyte>)
    requires input.Valid() && buffer !in input.blocks && buffer.Length > 0
    requires 0 <= input.position <= |input.Data()|
    modifies input, buffer
    ensures collected == old(input.Data()[input.position..])
    ensures input.position == |input.Data()|
  {
    ghost var start := input.position;
    collected := [];
    while true
      invariant input.Data() == old(input.Data())
      invariant start <= input.position <= |input.Data()|
      invariant collected == input.Data()[start..input.position]
      decreases |input.Data()| - input.position
    {
      ghost var before := input.position;
      var r := input.ReadAll(buffer);
      if r.value < 0 {
        break;
      }
      assert input.Data()[start..input.position] == input.Data()[start..before] + input.Data()[before..input.position];
      collected := collected + buffer[..r.value];
    }
  }
}
