/** The sums a generator sends: generateAndSendSums in internal/receiver/generator.go. */
module Generator {
  import opened Bytes
  import opened Checksum
  import opened FileMap
  import opened SumHeads
  import opened Wire

  /** The wire form of one block's sums. */
  function PutSum(md4: Hash, seed: int32, b: seq<byte>): seq<byte> {
    PutInt32(I32(Weak(b))) + Strong(md4, seed, b)
  }

  function PutSums(md4: Hash, seed: int32, blocks: seq<seq<byte>>): seq<byte> {
    if blocks == [] then [] else PutSum(md4, seed, blocks[0]) + PutSums(md4, seed, blocks[1..])
  }

  lemma {:induction false} PutSumsSnoc(md4: Hash, seed: int32, blocks: seq<seq<byte>>, b: seq<byte>)
    ensures PutSums(md4, seed, blocks + [b]) == PutSums(md4, seed, blocks) + PutSum(md4, seed, b)
  {
    hide PutSum;
    if blocks == [] {
      assert PutSums(md4, seed, [b]) == PutSum(md4, seed, b) + [];
    } else {
      PutSumsSnoc(md4, seed, blocks[1..], b);
      assert (blocks + [b])[1..] == blocks[1..] + [b];
    }
  }

  /** Writes the header and one weak and strong sum per block, cutting the file by a remaining counter. */
  method GenerateAndSendSums(c: Conn, md4: Hash, seed: int32, file: File, root: nat)
    requires FloatRoot(|file.data|, root) && root <= MAX_BLOCK_LEN
    requires file.pos == 0
    modifies c`out, file
    ensures Describes(SumSizesSqroot(|file.data|, root), |file.data|)
    ensures var sh := SumSizesSqroot(|file.data|, root);
            c.out == old(c.out) + PutHead(sh) + PutSums(md4, seed, Blocks(sh, file.data))
  {
    var fileLen := |file.data|;
    SumSizesDescribe(fileLen, root);
    var sh := SumSizesSqroot(fileLen, root);
    WriteTo(sh, c);
    SendBlocks(c, md4, seed, file, sh);
  }

  method SendBlocks(c: Conn, md4: Hash, seed: int32, file: File, sh: SumHead)
    requires Describes(sh, |file.data|) && file.pos == 0
    modifies c`out, file
    ensures c.out == old(c.out) + PutSums(md4, seed, Blocks(sh, file.data))
  {
    hide PutSum, BlockOf, Describes, BlockStart, BlockLen;
    ghost var blocks := Blocks(sh, file.data);
    var remaining := |file.data|;
    var i := 0;
    NoBlocks(sh, remaining);
    while i < sh.count
      invariant 0 <= i <= sh.count
      invariant remaining == if i == sh.count then 0 else |file.data| - BlockStart(sh, i)
      invariant file.pos == |file.data| - remaining
      invariant c.out == old(c.out) + PutSums(md4, seed, blocks[..i])
    {
      var n1 := Cut(sh, file, i, remaining);
      var read := file.ReadFull(n1);
      var b := read.value;
      assert b == blocks[i];
      PutSumsSnoc(md4, seed, blocks[..i], b);
      assert blocks[..i + 1] == blocks[..i] + [b];
      SendSum(c, md4, seed, b);
      remaining := remaining - n1;
      i := i + 1;
    }
    assert blocks[..i] == blocks;
  }

  lemma NoBlocks(sh: SumHead, len: nat)
    requires Describes(sh, len)
    ensures 0 <= sh.count && (sh.count == 0 ==> len == 0)
    ensures BlockStart(sh, 0) == 0
  {
  }

  method Cut(sh: SumHead, file: File, i: nat, remaining: int) returns (n1: nat)
    requires Describes(sh, |file.data|) && i < sh.count
    requires remaining == |file.data| - BlockStart(sh, i)
    ensures n1 == BlockLen(sh, i) > 0
    ensures 0 <= BlockStart(sh, i) <= BlockStart(sh, i) + n1 <= |file.data|
    ensures file.data[BlockStart(sh, i)..BlockStart(sh, i) + n1] == BlockOf(sh, file.data, i)
    ensures remaining - n1 == if i + 1 == sh.count then 0 else |file.data| - BlockStart(sh, i + 1)
  {
    BlocksAreAdjacent(sh, |file.data|, i);
    n1 := Min(sh.blockLength, remaining);
  }

  method SendSum(c: Conn, md4: Hash, seed: int32, b: seq<byte>)
    modifies c`out
    ensures c.out == old(c.out) + PutSum(md4, seed, b)
  {
    var sum1 := Checksum1(b);
    var sum2 := Strong(md4, seed, b);
    c.WriteInt32(I32(sum1));
    c.Write(sum2);
  }
}
