/** The rolling (weak) checksum of internal/rsyncchecksum and the strong checksum's shape. */
module Checksum {
  import opened Bytes

  /** A 16-byte MD4 digest. The hash itself is a parameter of the model. */
  type Digest = s: seq<byte> | |s| == 16 witness seq(16, _ => 0)
  type Hash = seq<byte> -> Digest

  /** Reads a byte as C's signed char: the value of eight bits in two's complement. */
  function Signed(b: byte): (r: int)
    ensures -128 <= r < 128 && (b - r) % 256 == 0
  {
    if b < 128 then b else b - 256
  }

  /** `uint32(int32(val<<24) >> 24)`; the arithmetic shift is a floor division. */
  function SignExtend(b: byte): (r: uint32)
    ensures r == U32(Signed(b))
  {
    var shifted := I32(U32(b * 0x100_0000));
    U32(shifted / 0x100_0000)
  }

  function Tag2(s1: uint16, s2: uint16): uint16 {
    (s1 + s2) % 0x1_0000
  }

  function Tag(sum: uint32): uint16 {
    Tag2(sum % 0x1_0000, sum / 0x1_0000)
  }

  /** Plain sum of the signed bytes, read byte by byte. */
  function Sum1(s: seq<byte>): int {
    if s == [] then 0 else Sum1(s[..|s| - 1]) + Signed(s[|s| - 1])
  }

  /** Sum of the running plain sums: byte i of n counts n - i times. */
  function Sum2(s: seq<byte>): int {
    if s == [] then 0 else Sum2(s[..|s| - 1]) + Sum1(s)
  }

  /** The weak checksum of a block: both sums mod 2^16, packed in 32 bits. */
  function Weak(s: seq<byte>): uint32 {
    Sum1(s) % 0x1_0000 + 0x1_0000 * (Sum2(s) % 0x1_0000)
  }

  /** Strong block checksum: the block followed by the seed. */
  function Strong(md4: Hash, seed: int32, block: seq<byte>): Digest {
    md4(block + PutInt32(seed))
  }

  /** The digest of a whole file: the seed followed by the content. */
  function FileDigest(md4: Hash, seed: int32, content: seq<byte>): Digest {
    md4(PutInt32(seed) + content)
  }

  lemma SumsSnoc(s: seq<byte>, b: byte)
    ensures Sum1(s + [b]) == Sum1(s) + Signed(b)
    ensures Sum2(s + [b]) == Sum2(s) + Sum1(s) + Signed(b)
  {
    assert (s + [b])[..|s|] == s;
  }

  /** Dropping the oldest byte: it left the plain sum once, the weighted sum |s| times. */
  lemma {:induction false} SumsDropFirst(s: seq<byte>)
    requires s != []
    ensures Sum1(s[1..]) == Sum1(s) - Signed(s[0])
    ensures Sum2(s[1..]) == Sum2(s) - |s| * Signed(s[0])
  {
    if |s| == 1 {
      assert s[..0] == [] && s[1..] == [];
      assert Sum1(s) == Sum1(s[..0]) + Signed(s[0]);
      assert Sum2(s) == Sum2(s[..0]) + Sum1(s);
    } else {
      var front := s[..|s| - 1];
      SumsDropFirst(front);
      assert s[1..][..|s| - 2] == front[1..];
    }
  }

  /** The closed form of the thesis: byte i of n carries weight n - i. */
  function Weighted(s: seq<byte>): int {
    if s == [] then 0 else |s| * Signed(s[0]) + Weighted(s[1..])
  }

  lemma {:induction false} Sum2IsWeighted(s: seq<byte>)
    ensures Sum2(s) == Weighted(s)
  {
    if s == [] {
    } else {
      SumsDropFirst(s);
      Sum2IsWeighted(s[1..]);
    }
  }

  /** The plain sum, byte by byte from the front. */
  function SumOfBytes(s: seq<byte>): int {
    if s == [] then 0 else Signed(s[0]) + SumOfBytes(s[1..])
  }

  lemma {:induction false} Sum1IsSumOfBytes(s: seq<byte>)
    ensures Sum1(s) == SumOfBytes(s)
  {
    if s == [] {
    } else {
      SumsDropFirst(s);
      Sum1IsSumOfBytes(s[1..]);
    }
  }

  /** What travels as the weak sum: the plain sum in the low half, the weighted one in the high half, both mod 2^16. */
  lemma WeakIsPacked(s: seq<byte>)
    ensures Weak(s) % 0x1_0000 == SumOfBytes(s) % 0x1_0000
    ensures Weak(s) / 0x1_0000 == Weighted(s) % 0x1_0000
    ensures Tag(Weak(s)) == (SumOfBytes(s) + Weighted(s)) % 0x1_0000
  {
    hide Sum1, Sum2;
    Sum1IsSumOfBytes(s);
    Sum2IsWeighted(s);
    hide SumOfBytes, Weighted;
    TagOfPacked(Sum1(s), Sum2(s));
  }

  lemma TagOfPacked(s1: int, s2: int)
    ensures var lo, hi := s1 % 0x1_0000, s2 % 0x1_0000;
            var sum := lo + 0x1_0000 * hi;
            sum % 0x1_0000 == lo && sum / 0x1_0000 == hi && Tag(sum) == (s1 + s2) % 0x1_0000
  {
    var lo, hi := s1 % 0x1_0000, s2 % 0x1_0000;
    assert (lo + 0x1_0000 * hi) / 0x1_0000 == hi;
    U16Sum(s1, s2);
  }

  lemma U16Sum(a: int, b: int)
    ensures (a % 0x1_0000 + b % 0x1_0000) % 0x1_0000 == (a + b) % 0x1_0000
  {
  }

  lemma U32Shift(x: int, k: int)
    ensures U32(x + 0x1_0000_0000 * k) == U32(x)
  {
  }

  /** Wrapping only at the end gives the same uint32. */
  lemma UnrolledWraps(s1: int, s2: int, a: int, b: int, c: int, d: int)
    ensures U32(U32(s2) + 4 * (U32(s1) + U32(a)) + 3 * U32(b) + 2 * U32(c) + U32(d))
         == U32(s2 + 4 * (s1 + a) + 3 * b + 2 * c + d)
    ensures U32(U32(s1) + U32(a) + U32(b) + U32(c) + U32(d)) == U32(s1 + a + b + c + d)
    ensures U32(U32(s1) + U32(a)) == U32(s1 + a)
  {
    var W := 0x1_0000_0000;
    var q1, q2, qa, qb, qc, qd := s1 / W, s2 / W, a / W, b / W, c / W, d / W;
    U32Shift(s2 + 4 * (s1 + a) + 3 * b + 2 * c + d, -q2 - 4 * q1 - 4 * qa - 3 * qb - 2 * qc - qd);
    U32Shift(s1 + a + b + c + d, -q1 - qa - qb - qc - qd);
    U32Shift(s1 + a, -q1 - qa);
  }

  lemma FourBytes(s: seq<byte>, i: nat)
    requires i + 4 <= |s|
    ensures Sum1(s[..i + 4]) == Sum1(s[..i]) + Signed(s[i]) + Signed(s[i + 1]) + Signed(s[i + 2]) + Signed(s[i + 3])
    ensures Sum2(s[..i + 4]) == Sum2(s[..i]) + 4 * (Sum1(s[..i]) + Signed(s[i]))
                                + 3 * Signed(s[i + 1]) + 2 * Signed(s[i + 2]) + Signed(s[i + 3])
  {
    assert s[..i + 1] == s[..i] + [s[i]];
    assert s[..i + 2] == s[..i + 1] + [s[i + 1]];
    assert s[..i + 3] == s[..i + 2] + [s[i + 2]];
    assert s[..i + 4] == s[..i + 3] + [s[i + 3]];
    SumsSnoc(s[..i], s[i]);
    SumsSnoc(s[..i + 1], s[i + 1]);
    SumsSnoc(s[..i + 2], s[i + 2]);
    SumsSnoc(s[..i + 3], s[i + 3]);
  }

  /** The state (s1, s2) of the loop after i bytes. */
  ghost predicate SumsUpTo(buf: seq<byte>, i: nat, s1: uint32, s2: uint32)
    requires i <= |buf|
  {
    s1 == U32(Sum1(buf[..i])) && s2 == U32(Sum2(buf[..i]))
  }

  /** One unrolled step over four bytes equals four single steps. */
  lemma UnrolledStep(buf: seq<byte>, i: nat, s1: uint32, s2: uint32)
    requires i + 4 <= |buf| && SumsUpTo(buf, i, s1, s2)
    ensures SumsUpTo(buf, i + 4,
                     U32(s1 + SignExtend(buf[i]) + SignExtend(buf[i + 1]) + SignExtend(buf[i + 2]) + SignExtend(buf[i + 3])),
                     U32(s2 + 4 * (s1 + SignExtend(buf[i])) + 3 * SignExtend(buf[i + 1])
                         + 2 * SignExtend(buf[i + 2]) + SignExtend(buf[i + 3])))
  {
    hide U32, SignExtend, Signed, Sum1, Sum2;
    FourBytes(buf, i);
    UnrolledWraps(Sum1(buf[..i]), Sum2(buf[..i]),
                  Signed(buf[i]), Signed(buf[i + 1]), Signed(buf[i + 2]), Signed(buf[i + 3]));
  }

  lemma SingleStep(buf: seq<byte>, i: nat, s1: uint32, s2: uint32)
    requires i < |buf| && SumsUpTo(buf, i, s1, s2)
    ensures var n1 := U32(s1 + SignExtend(buf[i])); SumsUpTo(buf, i + 1, n1, U32(s2 + n1))
  {
    hide U32, SignExtend, Signed, Sum1, Sum2;
    assert buf[..i + 1] == buf[..i] + [buf[i]];
    SumsSnoc(buf[..i], buf[i]);
    UnrolledWraps(Sum1(buf[..i]), 0, Signed(buf[i]), 0, 0, 0);
    UnrolledWraps(Sum2(buf[..i]), 0, Sum1(buf[..i + 1]), 0, 0, 0);
  }

  /** `s2 << 16` keeps the low half. */
  lemma ShiftUp(x: uint32)
    ensures U32(x * 0x1_0000) == 0x1_0000 * (x % 0x1_0000)
  {
    assert x * 0x1_0000 == 0x1_0000_0000 * (x / 0x1_0000) + 0x1_0000 * (x % 0x1_0000);
  }

  /** The final packing `(s1 & 0xffff) + (s2 << 16)` in uint32. */
  lemma PackSums(buf: seq<byte>, s1: uint32, s2: uint32)
    requires SumsUpTo(buf, |buf|, s1, s2)
    ensures U32(s1 % 0x1_0000 + U32(s2 * 0x1_0000)) == Weak(buf)
  {
    hide Sum1, Sum2;
    assert buf[..|buf|] == buf;
    PackWords(Sum1(buf), Sum2(buf));
  }

  lemma PackWords(a: int, b: int)
    ensures U32(U32(a) % 0x1_0000 + U32(U32(b) * 0x1_0000)) == a % 0x1_0000 + 0x1_0000 * (b % 0x1_0000)
  {
    ShiftUp(U32(b));
    LowHalf(a);
    LowHalf(b);
  }

  lemma LowHalf(x: int)
    ensures U32(x) % 0x1_0000 == x % 0x1_0000
  {
  }

  method Checksum1(buf: seq<byte>) returns (sum: uint32)
    ensures sum == Weak(buf)
  {
    var s1: uint32, s2: uint32 := 0, 0;
    var i := 0;
    if |buf| > 4 {
      while i < |buf| - 4
        invariant 0 <= i <= |buf| && SumsUpTo(buf, i, s1, s2)
      {
        UnrolledStep(buf, i, s1, s2);
        s2 := U32(s2 + 4 * (s1 + SignExtend(buf[i])) + 3 * SignExtend(buf[i + 1])
                  + 2 * SignExtend(buf[i + 2]) + SignExtend(buf[i + 3]));
        s1 := U32(s1 + SignExtend(buf[i]) + SignExtend(buf[i + 1]) + SignExtend(buf[i + 2]) + SignExtend(buf[i + 3]));
        i := i + 4;
      }
    }
    while i < |buf|
      invariant 0 <= i <= |buf| && SumsUpTo(buf, i, s1, s2)
    {
      SingleStep(buf, i, s1, s2);
      s1 := U32(s1 + SignExtend(buf[i]));
      s2 := U32(s2 + s1);
      i := i + 1;
    }
    PackSums(buf, s1, s2);
    sum := U32(s1 % 0x1_0000 + U32(s2 * 0x1_0000));
  }
}
