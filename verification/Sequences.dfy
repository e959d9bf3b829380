/**
 A sequence's token list and the logical blocks that chunk it.
 */
module Sequences {
  import opened Arithmetic

  /** A block that stores a contiguous chunk of tokens from left to right. */
  class LogicalTokenBlock {
    const blockSize: nat
    var tokenIds: seq<int>
    var numTokens: nat

    ghost predicate Valid()
      reads this
    {
      |tokenIds| == blockSize && numTokens <= blockSize
    }

    ghost function Contents(): seq<int>
      requires Valid()
      reads this
    {
      tokenIds[..numTokens]
    }

    constructor (blockSize: nat)
      ensures Valid() && this.blockSize == blockSize && numTokens == 0
      ensures forall i :: 0 <= i < blockSize ==> tokenIds[i] == -1
    {
      this.blockSize := blockSize;
      tokenIds := seq(blockSize, _ => -1);
      numTokens := 0;
    }

    method AppendTokens(ts: seq<int>)
      requires Valid() && |ts| <= blockSize - numTokens
      modifies this
      ensures Valid() && Contents() == old(Contents()) + ts
    {
      tokenIds := tokenIds[..numTokens] + ts + tokenIds[numTokens + |ts|..];
      numTokens := numTokens + |ts|;
    }
  }

  /** The chunks of a block list, joined. */
  ghost function Flat(bs: seq<LogicalTokenBlock>): seq<int>
    requires forall b :: b in bs ==> b.Valid()
    reads bs
  {
    if bs == [] then [] else Flat(bs[..|bs| - 1]) + bs[|bs| - 1].Contents()
  }

  /** Blocks are filled left to right: all full except the last. */
  ghost predicate Chunked(bs: seq<LogicalTokenBlock>, size: nat)
    reads bs
  {
    && (forall i, j :: 0 <= i < j < |bs| ==> bs[i] != bs[j])
    && (forall i :: 0 <= i < |bs| ==> bs[i].Valid() && bs[i].blockSize == size)
    && (forall i :: 0 <= i < |bs| - 1 ==> bs[i].numTokens == size)
  }

  /** ... and the last is not empty. */
  ghost predicate Packed(bs: seq<LogicalTokenBlock>, size: nat)
    reads bs
  {
    Chunked(bs, size) && (bs != [] ==> bs[|bs| - 1].numTokens > 0)
  }

  lemma ChunkedLast(bs: seq<LogicalTokenBlock>, size: nat)
    requires Chunked(bs, size)
    ensures bs != [] ==> var b := bs[|bs| - 1]; b.Valid() && b.blockSize == size && b.numTokens <= size
  {
  }

  lemma {:induction false} FlatLength(bs: seq<LogicalTokenBlock>, size: nat)
    requires size > 0 && Packed(bs, size)
    ensures |bs| == CeilDiv(|Flat(bs)|, size)
    ensures bs != [] ==> |Flat(bs)| == (|bs| - 1) * size + bs[|bs| - 1].numTokens
  {
    if bs != [] {
      FullLength(bs[..|bs| - 1], size);
      var n := |Flat(bs)|;
      CeilDivBounds(n, size);
      assert |bs| * size == (|bs| - 1) * size + size;
      assert (|bs| - 1) * size < n <= |bs| * size;
      QuotientOrder(CeilDiv(n, size), |bs|, size);
      QuotientOrder(|bs|, CeilDiv(n, size), size);
    }
  }

  lemma {:induction false} FullLength(bs: seq<LogicalTokenBlock>, size: nat)
    requires forall i :: 0 <= i < |bs| ==> bs[i].Valid() && bs[i].numTokens == size
    ensures |Flat(bs)| == |bs| * size
  {
    if bs != [] {
      FullLength(bs[..|bs| - 1], size);
      assert |bs| * size == (|bs| - 1) * size + size;
    }
  }

  ghost function UpTo(ts: seq<int>, n: nat): seq<int> { ts[..if n < |ts| then n else |ts|] }

  lemma NextChunk(before: seq<int>, ts: seq<int>, cursor: nat, next: nat, chunk: seq<int>)
    requires cursor < next && cursor < |ts| && chunk == ts[cursor..if next < |ts| then next else |ts|]
    ensures before + UpTo(ts, cursor) + chunk == before + UpTo(ts, next)
  {
    assert UpTo(ts, cursor) + chunk == UpTo(ts, next);
  }

  /** An empty block behind full ones holds nothing yet. */
  lemma EmptyBlockAdds(bs: seq<LogicalTokenBlock>, size: nat, b: LogicalTokenBlock)
    requires Chunked(bs, size) && (bs != [] ==> bs[|bs| - 1].numTokens == size) && b !in bs
    requires b.Valid() && b.blockSize == size && b.numTokens == 0
    ensures Chunked(bs + [b], size) && Flat(bs + [b]) == Flat(bs)
  {
    hide Flat;
    BlocksValid(bs, size);
    FlatSnoc(bs, b);
  }

  lemma FlatSnoc(bs: seq<LogicalTokenBlock>, b: LogicalTokenBlock)
    requires b.Valid() && forall x :: x in bs ==> x.Valid()
    ensures Flat(bs + [b]) == Flat(bs) + b.Contents()
  {
    var more := bs + [b];
    assert more[..|bs|] == bs && more[|bs|] == b;
  }

  lemma BlocksValid(bs: seq<LogicalTokenBlock>, size: nat)
    requires Chunked(bs, size)
    ensures forall b :: b in bs ==> b.Valid()
  {
  }

  class Sequence {
    const seqId: int
    const blockSize: nat
    var promptIds: seq<int>
    var outputIds: seq<int>
    var logical: seq<LogicalTokenBlock>

    function TokenIds(): seq<int>
      reads this
    {
      promptIds + outputIds
    }

    /** The logical blocks hold exactly the sequence's tokens, in as few blocks as they fit in. */
    ghost predicate Valid()
      reads this, logical
    {
      blockSize > 0 && Packed(logical, blockSize) && Flat(logical) == TokenIds()
    }

    constructor (seqId: int, promptIds: seq<int>, blockSize: nat)
      requires blockSize > 0
      ensures Valid() && fresh(logical) && this.seqId == seqId && this.blockSize == blockSize
      ensures TokenIds() == promptIds && |logical| == CeilDiv(|promptIds|, blockSize)
    {
      this.seqId, this.blockSize := seqId, blockSize;
      this.promptIds, outputIds, logical := promptIds, [], [];
      new;
      hide CeilDiv;
      assert Flat(logical) + promptIds == promptIds;
      AppendTokensToBlocks(promptIds);
      FlatLength(logical, blockSize);
    }

    /** Fill the last block, then new ones. */
    method AppendTokensToBlocks(ts: seq<int>)
      requires blockSize > 0 && Packed(logical, blockSize)
      modifies this`logical, logical
      ensures Packed(logical, blockSize) && Flat(logical) == old(Flat(logical)) + ts
      ensures forall i :: 0 <= i < |logical| ==> logical[i] in old(logical) || fresh(logical[i])
    {
      hide Flat, Chunked;
      BlocksValid(logical, blockSize);
      ghost var before := Flat(logical);
      var cursor := 0;
      while cursor < |ts|
        invariant Packed(logical, blockSize) && forall b :: b in logical ==> b.Valid()
        invariant forall i :: 0 <= i < |logical| ==> logical[i] in old(logical) || fresh(logical[i])
        invariant Flat(logical) == before + UpTo(ts, cursor)
        decreases |ts| - cursor
      {
        var next, chunk := AppendChunk(ts, cursor);
        BlocksValid(logical, blockSize);
        NextChunk(before, ts, cursor, next, chunk);
        cursor := next;
      }
    }

    /** One turn of the cursor loop: the tokens from cursor that fit in the last block. */
    method AppendChunk(ts: seq<int>, cursor: nat) returns (next: nat, chunk: seq<int>)
      requires blockSize > 0 && Packed(logical, blockSize) && cursor < |ts|
      modifies this`logical, logical
      ensures Packed(logical, blockSize) && Flat(logical) == old(Flat(logical)) + chunk
      ensures cursor < next && chunk == ts[cursor..if next < |ts| then next else |ts|]
      ensures forall i :: 0 <= i < |logical| ==> logical[i] in old(logical) || fresh(logical[i])
    {
      hide Flat, Chunked;
      EnsureRoom();
      var room := blockSize - logical[|logical| - 1].numTokens;
      next := cursor + room;
      chunk := if next < |ts| then ts[cursor..next] else ts[cursor..];
      AppendToLast(chunk);
    }

    /** A last block with room, a new one if there is none. */
    method EnsureRoom()
      requires blockSize > 0 && Packed(logical, blockSize)
      modifies this`logical
      ensures Chunked(logical, blockSize) && logical != [] && logical[|logical| - 1].numTokens < blockSize
      ensures Flat(logical) == old(Flat(logical))
      ensures forall i :: 0 <= i < |logical| ==> logical[i] in old(logical) || fresh(logical[i])
    {
      hide Flat, Chunked;
      ChunkedLast(logical, blockSize);
      if |logical| == 0 { AppendLogicalBlock(); }
      if logical[|logical| - 1].numTokens == blockSize { AppendLogicalBlock(); }
      ChunkedLast(logical, blockSize);
    }

    method AppendLogicalBlock()
      requires Chunked(logical, blockSize) && (logical != [] ==> logical[|logical| - 1].numTokens == blockSize)
      modifies this`logical
      ensures Chunked(logical, blockSize) && Flat(logical) == old(Flat(logical))
      ensures |logical| > 0 && logical[..|logical| - 1] == old(logical) && logical[|logical| - 1].numTokens == 0
      ensures fresh(logical[|logical| - 1])
    {
      hide Flat, Chunked;
      var b := new LogicalTokenBlock(blockSize);
      EmptyBlockAdds(logical, blockSize, b);
      logical := logical + [b];
    }

    method AppendToLast(chunk: seq<int>)
      requires Chunked(logical, blockSize) && logical != [] && |chunk| <= blockSize - logical[|logical| - 1].numTokens
      modifies logical[|logical| - 1]
      ensures Chunked(logical, blockSize) && Flat(logical) == old(Flat(logical)) + chunk
      ensures logical[|logical| - 1].numTokens == old(logical[|logical| - 1].numTokens) + |chunk|
    {
      var last := logical[|logical| - 1];
      ghost var rest := logical[..|logical| - 1];
      assert last !in rest;
      last.AppendTokens(chunk);
      assert Flat(rest) == old(Flat(rest));
    }

    method AppendTokenId(tokenId: int)
      requires Valid()
      modifies this, logical
      ensures Valid() && TokenIds() == old(TokenIds()) + [tokenId] && promptIds == old(promptIds)
      ensures |logical| == CeilDiv(|TokenIds()|, blockSize)
      ensures forall i :: 0 <= i < |logical| ==> logical[i] in old(logical) || fresh(logical[i])
    {
      AppendTokensToBlocks([tokenId]);
      outputIds := outputIds + [tokenId];
      FlatLength(logical, blockSize);
    }

    /** The child becomes a deep copy: later appends to either leave the other alone. */
    method Fork(child: Sequence)
      requires Valid() && child != this && child.blockSize == blockSize
      modifies child
      ensures Valid() && child.Valid() && fresh(child.logical)
      ensures child.TokenIds() == TokenIds() && child.promptIds == promptIds && TokenIds() == old(TokenIds())
    {
      hide Packed, Flat;
      var copies := CopyBlocks(logical, blockSize);
      child.logical := copies;
      child.promptIds, child.outputIds := promptIds, outputIds;
    }
  }

  /** b is a separate block with the same tokens as a. */
  ghost predicate SameBlock(a: LogicalTokenBlock, b: LogicalTokenBlock)
    reads a, b
  {
    a.blockSize == b.blockSize && a.tokenIds == b.tokenIds && a.numTokens == b.numTokens
  }

  method CopyBlocks(bs: seq<LogicalTokenBlock>, size: nat) returns (copies: seq<LogicalTokenBlock>)
    requires Packed(bs, size)
    ensures |copies| == |bs| && fresh(copies) && Packed(copies, size) && Flat(copies) == Flat(bs)
    ensures forall k :: 0 <= k < |bs| ==> SameBlock(bs[k], copies[k])
  {
    copies := [];
    for i := 0 to |bs|
      invariant |copies| == i && fresh(copies)
      invariant forall k, j :: 0 <= k < j < i ==> copies[k] != copies[j]
      invariant forall k :: 0 <= k < i ==> SameBlock(bs[k], copies[k])
    {
      var b := new LogicalTokenBlock(size);
      b.tokenIds, b.numTokens := bs[i].tokenIds, bs[i].numTokens;
      copies := copies + [b];
    }
    SameFlat(copies, bs);
  }

  lemma {:induction false} SameFlat(a: seq<LogicalTokenBlock>, b: seq<LogicalTokenBlock>)
    requires |a| == |b|
    requires forall k :: 0 <= k < |a| ==> a[k].Valid() && b[k].Valid() && SameBlock(b[k], a[k])
    ensures Flat(a) == Flat(b)
  {
    if a != [] { SameFlat(a[..|a| - 1], b[..|b| - 1]); }
  }
}
