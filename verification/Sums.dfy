/** Reading block sums and building the tag index: internal/sender/sender.go. */
module Sums {
  import opened Bytes
  import opened Checksum
  import opened SumHeads
  import opened Wire
  import opened Generator

  // ----- requests -----

  const EMPTY_HEAD := SumHead(0, 0, 0, 0)

  /** What a request says about the local file: its sums, or nothing when there is none. */
  ghost predicate RequestOf(md4: Hash, seed: int32, basis: Option<seq<byte>>, head: SumHead, sums: seq<SumBuf>) {
    || (head == EMPTY_HEAD && sums == [])
    || (basis.Some? && SumsOf(md4, seed, head, sums, basis.value))
  }

  /** The sums of a file under a header that describes it. */
  lemma SumsExist(md4: Hash, seed: int32, basis: seq<byte>, head: SumHead) returns (sums: seq<SumBuf>)
    requires Describes(head, |basis|)
    ensures SumsOf(md4, seed, head, sums, basis)
  {
    hide BlockOf, Weak, Strong;
    sums := seq(head.count, j requires 0 <= j < head.count => SumOf(md4, seed, head, j, BlockOf(head, basis, j)));
  }

  // ----- reading sums -----

  type SumList = Result<(seq<SumBuf>, seq<byte>)>

  function Pad16(s: seq<byte>): Digest
    requires |s| <= 16
  {
    s + seq(16 - |s|, _ => 0)
  }

  /** One block's sums; a strong sum longer than the 16-byte array panics. */
  function ParseSum(s: seq<byte>, sh: SumHead, i: nat, offset: int): Result<(SumBuf, seq<byte>)>
    requires Acceptable(sh) && i < sh.count
  {
    var (short, s1) :- ParseInt32(s);
    if sh.checksumLength > 16 then Err(Panic) else
    var (strong, s2) :- ParseBytes(s1, sh.checksumLength);
    Ok((SumBuf(i, offset, BlockLen(sh, i), U32(short), Pad16(strong)), s2))
  }

  /** The sums of blocks i.. off the front of a stream. */
  function ParseSums(s: seq<byte>, sh: SumHead, i: nat, offset: int): SumList
    requires Acceptable(sh) && i <= sh.count
    decreases sh.count - i
  {
    if i == sh.count then Ok(([], s)) else
    var (sb, rest) :- ParseSum(s, sh, i, offset);
    Append([sb], ParseSums(rest, sh, i + 1, offset + sb.len))
  }

  method ReceiveSum(c: Conn, head: SumHead, i: nat, offset: int) returns (r: Result<SumBuf>)
    requires Acceptable(head) && i < head.count
    modifies c`inp
    ensures match ParseSum(old(c.inp), head, i, offset)
            case Ok(p) => r == Ok(p.0) && c.inp == p.1
            case Err(e) => r == Err(e)
  {
    var short :- c.ReadInt32();
    var len := if i == head.count - 1 && head.remainderLength != 0 then head.remainderLength else head.blockLength;
    if head.checksumLength > 16 {
      return Err(Panic);
    }
    var strong :- c.ReadFull(head.checksumLength);
    r := Ok(SumBuf(i, offset, len, U32(short), Pad16(strong)));
  }

  method ReceiveSums(c: Conn) returns (r: Result<(SumHead, seq<SumBuf>)>)
    modifies c`inp
    ensures match ParseHead(old(c.inp))
            case Err(e) => r == Err(e)
            case Ok(h) =>
              Acceptable(h.0) &&
              match ParseSums(h.1, h.0, 0, 0)
              case Err(e) => r == Err(e)
              case Ok(p) => r == Ok((h.0, p.0)) && c.inp == p.1
  {
    hide ParseSum, ParseHead;
    var head :- ReadFrom(c);
    ghost var whole := ParseSums(c.inp, head, 0, 0);
    var offset := 0;
    var sums: seq<SumBuf> := [];
    var i := 0;
    AppendNothing(whole);
    while i < head.count
      invariant 0 <= i <= head.count
      invariant Append(sums, ParseSums(c.inp, head, i, offset)) == whole
    {
      var sb :- ReceiveSum(c, head, i, offset);
      AppendAppend(sums, [sb], ParseSums(c.inp, head, i + 1, offset + sb.len));
      offset := offset + sb.len;
      sums := sums + [sb];
      i := i + 1;
    }
    assert sums + [] == sums;
    r := Ok((head, sums));
  }

  /** The sums have the header's geometry. */
  ghost predicate Geometry(sh: SumHead, sums: seq<SumBuf>, i: nat) {
    && |sums| == sh.count - i
    && forall j | 0 <= j < |sums| ::
         sums[j].index == i + j && sums[j].offset == BlockStart(sh, i + j) && sums[j].len == BlockLen(sh, i + j)
  }

  lemma GeometryCons(sh: SumHead, sb: SumBuf, tail: seq<SumBuf>, i: nat)
    requires i < sh.count && sb.index == i && sb.offset == BlockStart(sh, i) && sb.len == BlockLen(sh, i)
    requires Geometry(sh, tail, i + 1)
    ensures Geometry(sh, [sb] + tail, i)
  {
    var sums := [sb] + tail;
    forall j | 0 <= j < |sums|
      ensures sums[j].index == i + j && sums[j].offset == BlockStart(sh, i + j) && sums[j].len == BlockLen(sh, i + j)
    {
      if j > 0 {
        assert sums[j] == tail[j - 1] && i + 1 + (j - 1) == i + j;
      }
    }
  }

  /** What was parsed has the header's geometry, whatever the peer sent. */
  lemma {:induction false} ParsedGeometry(s: seq<byte>, sh: SumHead, i: nat, offset: int)
    requires Acceptable(sh) && i <= sh.count
    requires i < sh.count ==> offset == BlockStart(sh, i)
    ensures ParseSums(s, sh, i, offset).Ok? ==> Geometry(sh, ParseSums(s, sh, i, offset).value.0, i)
    decreases sh.count - i
  {
    if i == sh.count || ParseSums(s, sh, i, offset).Err? {
    } else {
      var p := ParseSum(s, sh, i, offset).value;
      ParsedGeometry(p.1, sh, i + 1, offset + p.0.len);
      GeometryCons(sh, p.0, ParseSums(p.1, sh, i + 1, offset + p.0.len).value.0, i);
    }
  }

  /**
   * An acceptable header may announce strong sums of up to 32 bytes. Reading panics exactly when it announces
   * more than the 16 bytes of the array and the first weak sum arrives.
   */
  lemma LongSumsPanicExactly(s: seq<byte>, sh: SumHead)
    requires Acceptable(sh)
    ensures ParseSums(s, sh, 0, 0) == Err(Panic) <==> sh.count > 0 && sh.checksumLength > 16 && |s| >= 4
  {
    SumsPanicFrom(s, sh, 0, 0);
  }

  lemma {:induction false} SumsPanicFrom(s: seq<byte>, sh: SumHead, i: nat, offset: int)
    requires Acceptable(sh) && i <= sh.count
    ensures ParseSums(s, sh, i, offset) == Err(Panic) <==> i < sh.count && sh.checksumLength > 16 && |s| >= 4
    decreases sh.count - i
  {
    if i == sh.count || ParseSum(s, sh, i, offset).Err? {
    } else {
      var p := ParseSum(s, sh, i, offset).value;
      SumsPanicFrom(p.1, sh, i + 1, offset + p.0.len);
    }
  }

  lemma ParsePutSum(md4: Hash, seed: int32, sh: SumHead, i: nat, b: seq<byte>, rest: seq<byte>)
    requires Acceptable(sh) && sh.checksumLength == 16 && i < sh.count
    ensures ParseSum(PutSum(md4, seed, b) + rest, sh, i, BlockStart(sh, i)) == Ok((SumOf(md4, seed, sh, i, b), rest))
  {
    var strong := Strong(md4, seed, b);
    ConcatAssoc(PutInt32(I32(Weak(b))), strong, rest);
    ParsePutInt32(I32(Weak(b)), strong + rest);
    ParsePutBytes(strong, rest);
    assert Pad16(strong) == strong;
  }

  /** The sums on the wire, as the values a sender will hold. */
  function PutSumBufs(sums: seq<SumBuf>): seq<byte> {
    if sums == [] then [] else PutInt32(I32(sums[0].sum1)) + sums[0].sum2 + PutSumBufs(sums[1..])
  }

  lemma {:induction false} PutSumsAsBufs(md4: Hash, seed: int32, sh: SumHead, sums: seq<SumBuf>, blocks: seq<seq<byte>>, i: nat)
    requires SumsOfBlocks(md4, seed, sh, sums, blocks, i)
    ensures PutSumBufs(sums) == PutSums(md4, seed, blocks)
    decreases |sums|
  {
    hide PutInt32, Weak, Strong, I32;
    if sums == [] {
    } else {
      forall j | 0 <= j < |sums| - 1
        ensures sums[1..][j] == SumOf(md4, seed, sh, i + 1 + j, blocks[1..][j])
      {
        assert sums[1..][j] == sums[j + 1] && blocks[1..][j] == blocks[j + 1];
      }
      PutSumsAsBufs(md4, seed, sh, sums[1..], blocks[1..], i + 1);
    }
  }

  ghost predicate SumsOfBlocks(md4: Hash, seed: int32, sh: SumHead, sums: seq<SumBuf>, blocks: seq<seq<byte>>, i: nat) {
    && |sums| == |blocks| == sh.count - i
    && forall j | 0 <= j < |sums| :: sums[j] == SumOf(md4, seed, sh, i + j, blocks[j])
  }

  lemma SumsOfBlocksCons(md4: Hash, seed: int32, sh: SumHead, tail: seq<SumBuf>, blocks: seq<seq<byte>>, i: nat)
    requires i < sh.count && |blocks| == sh.count - i
    requires SumsOfBlocks(md4, seed, sh, tail, blocks[1..], i + 1)
    ensures SumsOfBlocks(md4, seed, sh, [SumOf(md4, seed, sh, i, blocks[0])] + tail, blocks, i)
  {
    var sums := [SumOf(md4, seed, sh, i, blocks[0])] + tail;
    forall j | 0 <= j < |sums|
      ensures sums[j] == SumOf(md4, seed, sh, i + j, blocks[j])
    {
      if j > 0 {
        assert sums[j] == tail[j - 1] && blocks[1..][j - 1] == blocks[j] && i + 1 + (j - 1) == i + j;
      }
    }
  }

  lemma {:induction false} ParsePutSums(md4: Hash, seed: int32, sh: SumHead, blocks: seq<seq<byte>>,
                                        i: nat, offset: int, rest: seq<byte>)
    requires Acceptable(sh) && sh.checksumLength == 16 && i <= sh.count && |blocks| == sh.count - i
    requires i < sh.count ==> offset == BlockStart(sh, i)
    ensures var p := ParseSums(PutSums(md4, seed, blocks) + rest, sh, i, offset);
            p.Ok? && p.value.1 == rest && SumsOfBlocks(md4, seed, sh, p.value.0, blocks, i)
    decreases |blocks|
  {
    hide ParseSum, PutSum, Weak;
    if i == sh.count {
      assert PutSums(md4, seed, blocks) + rest == rest;
    } else {
      var tail := PutSums(md4, seed, blocks[1..]) + rest;
      ConcatAssoc(PutSum(md4, seed, blocks[0]), PutSums(md4, seed, blocks[1..]), rest);
      ParsePutSum(md4, seed, sh, i, blocks[0], tail);
      ParsePutSums(md4, seed, sh, blocks[1..], i + 1, offset + BlockLen(sh, i), rest);
      SumsOfBlocksCons(md4, seed, sh, ParseSums(tail, sh, i + 1, offset + BlockLen(sh, i)).value.0, blocks, i);
    }
  }

  /** The sender recovers exactly the sums of the generator's basis: same offsets, lengths and checksums. */
  lemma SumsRoundTrip(md4: Hash, seed: int32, sh: SumHead, basis: seq<byte>, rest: seq<byte>)
    requires Describes(sh, |basis|)
    ensures var p := ParseSums(PutSums(md4, seed, Blocks(sh, basis)) + rest, sh, 0, 0);
            p.Ok? && p.value.1 == rest && SumsOf(md4, seed, sh, p.value.0, basis)
  {
    ParsePutSums(md4, seed, sh, Blocks(sh, basis), 0, 0, rest);
  }
}
