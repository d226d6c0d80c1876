/** Block sums: types.go and internal/rsynccommon/rsynccommon.go. */
module SumHeads {
  import opened Bytes
  import opened Wire
  import opened Checksum

  const BLOCK_SIZE := 700
  const MAX_BLOCK_LEN := 0x2000_0000

  datatype SumHead = SumHead(count: int32, blockLength: int32, checksumLength: int32, remainderLength: int32)

  /** `sum2` is the fixed 16-byte array, filled up to the checksum length. */
  datatype SumBuf = SumBuf(index: int32, offset: int, len: int, sum1: uint32, sum2: Digest)

  /** What ReadFrom accepts. */
  predicate Acceptable(sh: SumHead) {
    && 0 <= sh.count
    && 0 <= sh.blockLength <= MAX_BLOCK_LEN
    && 0 <= sh.checksumLength <= 32
    && 0 <= sh.remainderLength <= sh.blockLength
  }

  function PutHead(sh: SumHead): seq<byte> {
    PutInt32(sh.count) + PutHead3(sh)
  }

  function PutHead3(sh: SumHead): seq<byte> {
    PutInt32(sh.blockLength) + PutHead2(sh)
  }

  function PutHead2(sh: SumHead): seq<byte> {
    PutInt32(sh.checksumLength) + PutInt32(sh.remainderLength)
  }

  function ParseHead(s: seq<byte>): Result<(SumHead, seq<byte>)> {
    var (count, s1) :- ParseInt32(s);
    if count < 0 then Err(BadHeader) else
    var (blockLength, s2) :- ParseInt32(s1);
    if blockLength < 0 || blockLength > MAX_BLOCK_LEN then Err(BadHeader) else
    var (checksumLength, s3) :- ParseInt32(s2);
    if checksumLength < 0 || checksumLength > 32 then Err(BadHeader) else
    var (remainderLength, s4) :- ParseInt32(s3);
    if remainderLength < 0 || remainderLength > blockLength then Err(BadHeader) else
    Ok((SumHead(count, blockLength, checksumLength, remainderLength), s4))
  }

  /** A written header reads back exactly when it is acceptable, and is refused otherwise. */
  lemma HeadRoundTrip(sh: SumHead, rest: seq<byte>)
    ensures ParseHead(PutHead(sh) + rest) == if Acceptable(sh) then Ok((sh, rest)) else Err(BadHeader)
    ensures Acceptable(sh) <==> 0 <= sh.count && 0 <= sh.blockLength <= 0x2000_0000
                                && 0 <= sh.checksumLength <= 32 && 0 <= sh.remainderLength <= sh.blockLength
  {
    ConcatAssoc(PutInt32(sh.count), PutHead3(sh), rest);
    ConcatAssoc(PutInt32(sh.blockLength), PutHead2(sh), rest);
    ConcatAssoc(PutInt32(sh.checksumLength), PutInt32(sh.remainderLength), rest);
    ParsePutInt32(sh.count, PutHead3(sh) + rest);
    ParsePutInt32(sh.blockLength, PutHead2(sh) + rest);
    ParsePutInt32(sh.checksumLength, PutInt32(sh.remainderLength) + rest);
    ParsePutInt32(sh.remainderLength, rest);
  }

  method WriteTo(sh: SumHead, c: Conn)
    modifies c`out
    ensures c.out == old(c.out) + PutHead(sh)
  {
    var buf := PutInt32(sh.count);
    buf := buf + PutInt32(sh.blockLength);
    buf := buf + PutInt32(sh.checksumLength);
    buf := buf + PutInt32(sh.remainderLength);
    assert buf == PutHead(sh);
    c.Write(buf);
  }

  method ReadFrom(c: Conn) returns (r: Result<SumHead>)
    modifies c`inp
    ensures match ParseHead(old(c.inp))
            case Ok(p) => r == Ok(p.0) && c.inp == p.1
            case Err(e) => r == Err(e)
    ensures r.Ok? ==> Acceptable(r.value)
  {
    var count :- c.ReadInt32();
    if count < 0 {
      return Err(BadHeader);
    }
    var blockLength :- c.ReadInt32();
    if blockLength < 0 || blockLength > MAX_BLOCK_LEN {
      return Err(BadHeader);
    }
    var checksumLength :- c.ReadInt32();
    if checksumLength < 0 || checksumLength > 32 {
      return Err(BadHeader);
    }
    var remainderLength :- c.ReadInt32();
    if remainderLength < 0 || remainderLength > blockLength {
      return Err(BadHeader);
    }
    r := Ok(SumHead(count, blockLength, checksumLength, remainderLength));
  }

  // ----- block geometry -----

  /** Where block i starts, accumulated block by block as receiveSums does. */
  function BlockStart(sh: SumHead, i: nat): int {
    if i == 0 then 0 else BlockStart(sh, i - 1) + sh.blockLength
  }

  /** The receiver multiplies instead; both give the same offset. */
  lemma {:induction false} StartIsProduct(sh: SumHead, i: nat)
    ensures BlockStart(sh, i) == i * sh.blockLength
  {
    if i == 0 {
    } else {
      StartIsProduct(sh, i - 1);
    }
  }

  lemma {:induction false} StartsGrow(sh: SumHead, i: nat, j: nat)
    requires i < j && sh.blockLength >= 0
    ensures BlockStart(sh, i) + sh.blockLength <= BlockStart(sh, j)
  {
    if i + 1 == j {
    } else {
      StartsGrow(sh, i, j - 1);
    }
  }

  function BlockLen(sh: SumHead, i: int): int {
    if i == sh.count - 1 && sh.remainderLength != 0 then sh.remainderLength else sh.blockLength
  }

  /** The header describes a file of this length: the blocks tile it exactly. */
  ghost predicate Describes(sh: SumHead, len: nat) {
    && Acceptable(sh)
    && sh.blockLength >= 1
    && sh.checksumLength == 16
    && (sh.count == 0 <==> len == 0)
    && (sh.count > 0 ==> BlockStart(sh, sh.count - 1) + BlockLen(sh, sh.count - 1) == len)
  }

  /**
   * `int32(math.Sqrt(float64(len)))`: the exact root, or off by one where the double rounds. The
   * square of MAX_BLOCK_LEN is a power of four, where doubles are exact.
   */
  ghost predicate FloatRoot(len: nat, root: nat) {
    && (root > 0 ==> (root - 1) * (root - 1) <= len)
    && len < (root + 2) * (root + 2)
    && (len == MAX_BLOCK_LEN * MAX_BLOCK_LEN ==> root == MAX_BLOCK_LEN)
    && root < 0x8000_0000
  }

  function SumSizesSqroot(len: nat, root: nat): SumHead
    requires root < 0x8000_0000
  {
    var blockLength := Max(root, BLOCK_SIZE);
    SumHead(I32((len + (blockLength - 1)) / blockLength), blockLength, 16, I32(len % blockLength))
  }

  lemma DivBound(a: int, b: int, q: int)
    requires b > 0 && a < q * b
    ensures a / b < q
  {
    var d := a / b;
    assert d >= q ==> d * b >= q * b;
  }

  lemma CeilDiv(len: nat, b: int)
    requires b > 0
    ensures (len + (b - 1)) / b == if len % b == 0 then len / b else len / b + 1
    ensures len == (len / b) * b + len % b
  {
    var q, r := len / b, len % b;
    assert len + (b - 1) == q * b + (r + b - 1);
    DivUnique(len + (b - 1), b, if r == 0 then q else q + 1);
  }

  lemma DivUnique(a: int, b: int, q: int)
    requires b > 0 && q * b <= a < q * b + b
    ensures a / b == q
  {
    assert (q + 1) * b == q * b + b;
    DivBound(a, b, q + 1);
    var d := a / b;
    assert d < q ==> (d + 1) * b <= q * b;
  }

  /** The block count stays far below 2^31. */
  lemma CountFits(len: nat, root: nat)
    requires FloatRoot(len, root) && root <= MAX_BLOCK_LEN
    ensures (len + (Max(root, BLOCK_SIZE) - 1)) / Max(root, BLOCK_SIZE) < 0x4000_0000
  {
    var b := Max(root, BLOCK_SIZE);
    assert len < (b + 2) * (b + 2) by {
      assert (root + 2) * (root + 2) <= (b + 2) * (b + 2);
    }
    assert len + (b - 1) < (b + 6) * b by {
      assert (b + 2) * (b + 2) == b * b + 4 * b + 4;
      assert (b + 6) * b == b * b + 6 * b;
    }
    DivBound(len + (b - 1), b, b + 6);
  }

  lemma TileFacts(len: nat, b: int, q: int, r: int)
    requires b > 0 && len == q * b + r && 0 <= r < b
    ensures q >= 0 && (q - 1) * b + b == q * b
    ensures len == 0 <==> q == 0 && r == 0
  {
    assert q < 0 ==> q * b <= -b;
    assert q > 0 ==> q * b >= b;
  }

  /** Up to a root of 2^29 (basis lengths to 2^58) the header's blocks tile the basis exactly. */
  lemma SumSizesDescribe(len: nat, root: nat)
    requires FloatRoot(len, root) && root <= MAX_BLOCK_LEN
    ensures Describes(SumSizesSqroot(len, root), len)
    ensures var sh := SumSizesSqroot(len, root);
            sh.blockLength == (if root <= 700 then 700 else root) && sh.checksumLength == 16
  {
    CountFits(len, root);
    var sh := SumSizesSqroot(len, root);
    var b: int := sh.blockLength;
    CeilDiv(len, b);
    var q := len / b;
    TileFacts(len, b, q, len % b);
    if sh.count > 0 {
      StartIsProduct(sh, sh.count - 1);
    }
  }

  /** The exact root and its neighbours are such roots: the model leaves the double that much room. */
  lemma RoundingIsLeftOpen(len: nat, exact: nat, root: nat)
    requires exact * exact <= len < (exact + 1) * (exact + 1)
    requires exact - 1 <= root <= exact + 1 && root < 0x8000_0000
    requires len == MAX_BLOCK_LEN * MAX_BLOCK_LEN ==> root == MAX_BLOCK_LEN
    ensures FloatRoot(len, root)
  {
    if root == exact + 1 {
      assert (root - 1) * (root - 1) == exact * exact;
      assert (exact + 1) * (exact + 1) <= (root + 2) * (root + 2);
    } else if root == exact {
      assert root > 0 ==> (root - 1) * (root - 1) <= root * root;
      assert (exact + 1) * (exact + 1) <= (root + 2) * (root + 2);
    } else {
      assert root + 2 == exact + 1;
      assert root > 0 ==> (root - 1) * (root - 1) <= exact * exact;
    }
  }

  /** Up to 2^58 bytes the root is small enough, however the double rounds. */
  lemma RootWithinLimit(len: nat, root: nat)
    requires FloatRoot(len, root) && len <= 0x400_0000_0000_0000
    ensures root <= MAX_BLOCK_LEN
  {
    var d := root - 1;
    assert d >= MAX_BLOCK_LEN ==> d * d >= MAX_BLOCK_LEN * MAX_BLOCK_LEN;
  }

  /** The peer accepts the header exactly up to that root: beyond it the block length is refused. */
  lemma SumSizesAcceptedExactly(len: nat, root: nat)
    requires FloatRoot(len, root)
    ensures Acceptable(SumSizesSqroot(len, root)) <==> root <= MAX_BLOCK_LEN
  {
    if root <= MAX_BLOCK_LEN {
      SumSizesDescribe(len, root);
    }
  }

  /** Block i ends where block i+1 starts, so the blocks follow each other without gap or overlap. */
  lemma BlocksAreAdjacent(sh: SumHead, len: nat, i: nat)
    requires Describes(sh, len) && i < sh.count
    ensures 0 <= BlockStart(sh, i) < BlockStart(sh, i) + BlockLen(sh, i) <= len
    ensures i + 1 < sh.count ==> BlockStart(sh, i) + BlockLen(sh, i) == BlockStart(sh, i + 1)
    ensures BlockLen(sh, i) == Min(sh.blockLength, len - BlockStart(sh, i))
  {
    if i + 1 < sh.count {
      StartsGrow(sh, i, sh.count - 1);
    }
    StartIsNat(sh, i);
  }

  lemma {:induction false} StartIsNat(sh: SumHead, i: nat)
    requires sh.blockLength >= 0
    ensures BlockStart(sh, i) >= 0
  {
    if i == 0 {
    } else {
      StartIsNat(sh, i - 1);
    }
  }

  /** Block i of the basis. */
  ghost function BlockOf(sh: SumHead, basis: seq<byte>, i: nat): (b: seq<byte>)
    requires Describes(sh, |basis|) && i < sh.count
    ensures |b| == BlockLen(sh, i)
  {
    BlocksAreAdjacent(sh, |basis|, i);
    basis[BlockStart(sh, i)..BlockStart(sh, i) + BlockLen(sh, i)]
  }

  ghost function Blocks(sh: SumHead, basis: seq<byte>): seq<seq<byte>>
    requires Describes(sh, |basis|)
  {
    seq(sh.count, i requires 0 <= i < sh.count => BlockOf(sh, basis, i))
  }

  /** What a sender holds about block i, given the block. */
  function SumOf(md4: Hash, seed: int32, sh: SumHead, i: nat, b: seq<byte>): SumBuf
    requires i < sh.count
  {
    SumBuf(i, BlockStart(sh, i), BlockLen(sh, i), Weak(b), Strong(md4, seed, b))
  }

  /** The sums are those of the basis cut into the header's blocks. */
  ghost predicate SumsOf(md4: Hash, seed: int32, sh: SumHead, sums: seq<SumBuf>, basis: seq<byte>) {
    && Describes(sh, |basis|)
    && |sums| == sh.count
    && forall i | 0 <= i < |sums| :: sums[i] == SumOf(md4, seed, sh, i, BlockOf(sh, basis, i))
  }
}
