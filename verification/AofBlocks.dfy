/**
 The buffer that collects what is fed while a child rewrites the log (aof.c): a list of blocks of
 10 MB each, of which only the last one may have room left.
 */
module AofBlocks {
  import opened Bytes

  const BLOCK_SIZE: nat := 1024 * 1024 * 10

  class Block {
    var used: nat
    var free: nat

    const buf: array<u8>

    ghost predicate Valid()
      reads this
    {
      buf.Length == BLOCK_SIZE && used + free == BLOCK_SIZE
    }

    ghost function Contents(): bytes
      requires Valid()
      reads this, buf
    {
      buf[..used]
    }

    constructor ()
      ensures Valid() && used == 0 && fresh(buf)
    {
      buf := new u8[BLOCK_SIZE];
      used, free := 0, BLOCK_SIZE;
    }

    /** The memcpy of a piece into the free part. */
    method Add(s: bytes)
      requires Valid() && |s| <= free
      modifies this, buf
      ensures Valid() && Contents() == old(Contents()) + s
    {
      var k := 0;
      while k < |s|
        invariant k <= |s| && Valid() && used == old(used) && free == old(free)
        invariant buf[..used + k] == old(buf[..used]) + s[..k]
      {
        ghost var done := buf[..used + k];
        buf[used + k] := s[k];
        assert buf[..used + k + 1] == done + [s[k]];
        k := k + 1;
      }
      used, free := used + |s|, free - |s|;
    }
  }

  ghost predicate AllValid(bs: seq<Block>)
    reads bs
  {
    forall i :: 0 <= i < |bs| ==> bs[i].Valid()
  }

  /** What some blocks hold together. */
  ghost function Joined(bs: seq<Block>): bytes
    requires AllValid(bs)
    reads bs, set b | b in bs :: b.buf
  {
    if bs == [] then []
    else
      assert forall i :: 0 <= i < |bs| - 1 ==> bs[..|bs| - 1][i] == bs[i];
      Joined(bs[..|bs| - 1]) + bs[|bs| - 1].Contents()
  }

  ghost predicate Separate(bs: seq<Block>) {
    forall i, j :: 0 <= i < j < |bs| ==> bs[i] != bs[j] && bs[i].buf != bs[j].buf
  }

  ghost predicate FullButLast(bs: seq<Block>)
    reads bs
  {
    forall i :: 0 <= i < |bs| - 1 ==> bs[i].free == 0
  }

  lemma {:induction false} FullLength(bs: seq<Block>)
    requires AllValid(bs) && forall i :: 0 <= i < |bs| ==> bs[i].free == 0
    ensures |Joined(bs)| == |bs| * BLOCK_SIZE
    decreases |bs|
  {
    if bs != [] {
      assert bs[|bs| - 1].Valid();
      FullLength(bs[..|bs| - 1]);
    }
  }

  class RewriteBuffer {
    var blocks: seq<Block>

    ghost predicate Valid()
      reads this, blocks
    {
      AllValid(blocks) && Separate(blocks) && FullButLast(blocks)
    }

    ghost function Contents(): bytes
      requires Valid()
      reads this, blocks, set b | b in blocks :: b.buf
    {
      Joined(blocks)
    }

    /** aofRewriteBufferReset */
    constructor ()
      ensures Valid() && Contents() == []
    {
      blocks := [];
    }

    /** aofRewriteBufferSize: all blocks but the last count as full. */
    method Size() returns (size: nat)
      requires Valid()
      ensures size == |Contents()|
    {
      if blocks == [] {
        return 0;
      }
      var last := blocks[|blocks| - 1];
      ghost var init := blocks[..|blocks| - 1];
      assert forall i :: 0 <= i < |init| ==> init[i] == blocks[i];
      FullLength(init);
      size := (|blocks| - 1) * BLOCK_SIZE + last.used;
    }

    /** Puts a piece into the last block. */
    method Fill(piece: bytes)
      requires Valid() && blocks != [] && |piece| <= blocks[|blocks| - 1].free
      modifies blocks[|blocks| - 1], blocks[|blocks| - 1].buf
      ensures Valid() && Contents() == old(Contents()) + piece
      ensures blocks[|blocks| - 1].free == old(blocks[|blocks| - 1].free) - |piece|
    {
      var block := blocks[|blocks| - 1];
      ghost var init := blocks[..|blocks| - 1];
      assert forall i :: 0 <= i < |init| ==> init[i] == blocks[i] && init[i] != block && init[i].buf != block.buf;
      ghost var before, part := Joined(init), block.Contents();
      block.Add(piece);
      assert Joined(init) == before;
      assert before + (part + piece) == (before + part) + piece;
    }

    static lemma EmptyJoined(bs: seq<Block>, block: Block)
      requires AllValid(bs) && block.Valid() && block.used == 0
      ensures AllValid(bs + [block]) && Joined(bs + [block]) == Joined(bs)
    {
      assert (bs + [block])[..|bs|] == bs;
      assert block.Contents() == [];
    }

    static lemma StillSeparate(bs: seq<Block>, block: Block)
      requires Separate(bs) && forall b :: b in bs ==> b != block && b.buf != block.buf
      ensures Separate(bs + [block])
    {
      var all := bs + [block];
      forall i, j | 0 <= i < j < |all| ensures all[i] != all[j] && all[i].buf != all[j].buf {
        assert all[i] in bs;
      }
    }

    static lemma StillFull(bs: seq<Block>, block: Block)
      requires FullButLast(bs) && (bs != [] ==> bs[|bs| - 1].free == 0)
      ensures FullButLast(bs + [block])
    {}

    /** A new block at the end of the list. */
    method Grow()
      requires Valid() && (blocks != [] ==> blocks[|blocks| - 1].free == 0)
      modifies this`blocks
      ensures Valid() && Contents() == old(Contents())
      ensures |blocks| == |old(blocks)| + 1 && blocks[..|blocks| - 1] == old(blocks)
      ensures fresh(blocks[|blocks| - 1]) && fresh(blocks[|blocks| - 1].buf) && blocks[|blocks| - 1].free == BLOCK_SIZE
    {
      hide AllValid, Separate, FullButLast, Joined;
      ghost var was := blocks;
      var block := new Block();
      EmptyJoined(was, block);
      StillSeparate(was, block);
      StillFull(was, block);
      blocks := blocks + [block];
      assert blocks[..|blocks| - 1] == was;
    }

    /** As much as fits into the last block. */
    method FillLast(s: bytes) returns (rest: bytes)
      requires Valid() && blocks != [] && blocks[|blocks| - 1].free > 0 && s != []
      modifies blocks[|blocks| - 1], blocks[|blocks| - 1].buf
      ensures Valid() && Contents() + rest == old(Contents()) + s && |rest| < |s|
      ensures rest != [] ==> blocks[|blocks| - 1].free == 0
    {
      hide Valid, Contents;
      var free := blocks[|blocks| - 1].free;
      var thislen := if free < |s| then free else |s|;
      Fill(s[..thislen]);
      rest := s[thislen..];
    }

    /** aofRewriteBufferAppend */
    method Append(data: bytes)
      requires Valid()
      modifies this`blocks, blocks, set b | b in blocks :: b.buf
      ensures Valid() && Contents() == old(Contents()) + data
      ensures old(blocks) <= blocks && forall i :: |old(blocks)| <= i < |blocks| ==>
                fresh(blocks[i]) && fresh(blocks[i].buf)
    {
      hide Valid, Contents, Joined, AllValid, Separate, FullButLast;
      ghost var was := blocks;
      var s := data;
      while s != []
        invariant Valid() && Contents() + s == old(Contents()) + data
        invariant was <= blocks && forall i :: |was| <= i < |blocks| ==> fresh(blocks[i]) && fresh(blocks[i].buf)
        decreases |s|, if blocks == [] || blocks[|blocks| - 1].free == 0 then 1 else 0
      {
        if blocks != [] && blocks[|blocks| - 1].free > 0 {
          ghost var k := |blocks| - 1;
          assert k < |was| ==> blocks[k] == was[k] && was[k] in was;
          s := FillLast(s);
        }
        if s != [] {
          Grow();
        }
      }
      assert Contents() + [] == Contents();
    }

    /** aofRewriteBufferWrite, when every write succeeds: what reaches the file. */
    method Write() returns (written: bytes)
      requires Valid()
      ensures written == Contents()
    {
      written := [];
      assert Joined(blocks[..0]) == [];
      var i := 0;
      while i < |blocks|
        invariant i <= |blocks| && AllValid(blocks[..i]) && written == Joined(blocks[..i])
      {
        var block := blocks[i];
        assert blocks[..i + 1][..i] == blocks[..i];
        assert forall j :: 0 <= j < i + 1 ==> blocks[..i + 1][j] == blocks[j];
        if block.used > 0 {
          written := written + block.buf[..block.used];
        }
        i := i + 1;
      }
      assert blocks[..i] == blocks;
    }
  }
}
