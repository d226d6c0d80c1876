/** Machine integers, results and the little-endian encoding used on the wire. */
module Bytes {

  type byte = b: int | 0 <= b < 256
  type uint16 = x: int | 0 <= x < 0x1_0000
  type uint32 = x: int | 0 <= x < 0x1_0000_0000
  type int32 = x: int | -0x8000_0000 <= x < 0x8000_0000
  type int64 = x: int | -0x8000_0000_0000_0000 <= x < 0x8000_0000_0000_0000

  /** The errors the modelled code returns. `Panic` stands for a Go run-time panic. */
  datatype Error =
    | Eof
    | BadHeader
    | BadLength
    | BadTag
    | BadReadSize
    | FileChanged
    | NoBasis
    | Corruption
    | CloseFailed
    | RenameFailed
    | OpenFailed
    | Overflow
    | BadSeek
    | ListingFailed
    | Panic

  datatype Result<+T> = Ok(value: T) | Err(error: Error) {
    predicate IsFailure() {
      Err?
    }

    function PropagateFailure<U>(): Result<U>
      requires Err?
    {
      Err(error)
    }

    function Extract(): T
      requires Ok?
    {
      value
    }
  }

  datatype Option<+T> = None | Some(value: T)

  /** Puts what was already read in front of the result of reading on. */
  function Append<T>(acc: seq<T>, tail: Result<(seq<T>, seq<byte>)>): Result<(seq<T>, seq<byte>)> {
    match tail
    case Ok(p) => Ok((acc + p.0, p.1))
    case Err(e) => Err(e)
  }

  lemma AppendAppend<T>(acc: seq<T>, more: seq<T>, tail: Result<(seq<T>, seq<byte>)>)
    ensures Append(acc, Append(more, tail)) == Append(acc + more, tail)
  {
    if tail.Ok? {
      ConcatAssoc(acc, more, tail.value.0);
    }
  }

  lemma AppendNothing<T>(tail: Result<(seq<T>, seq<byte>)>)
    ensures Append([], tail) == tail
  {
    if tail.Ok? {
      assert [] + tail.value.0 == tail.value.0;
    }
  }

  function Min(a: int, b: int): int {
    if a <= b then a else b
  }

  function Max(a: int, b: int): int {
    if a >= b then a else b
  }

  /** Conversion to uint32: wraps modulo 2^32. */
  function U32(x: int): uint32 {
    x % 0x1_0000_0000
  }

  /** Conversion to int32: the two's complement reading of the low 32 bits. */
  function I32(x: int): (r: int32)
    ensures -0x8000_0000 <= x < 0x8000_0000 ==> r == x
    ensures U32(r) == U32(x)
  {
    if U32(x) < 0x8000_0000 then U32(x) else U32(x) - 0x1_0000_0000
  }

  lemma SliceOfSlice<T>(s: seq<T>, a: nat, b: nat, c: nat, d: nat)
    requires a <= b <= |s| && c <= d <= b - a
    ensures s[a..b][c..d] == s[a + c..a + d]
  {
    var x, y := s[a..b][c..d], s[a + c..a + d];
    assert |x| == |y|;
    forall i | 0 <= i < |x|
      ensures x[i] == y[i]
    {
      assert x[i] == s[a..b][c + i] == s[a + c + i];
    }
  }

  lemma DropSlice<T>(s: seq<T>, a: nat, b: nat, c: nat)
    requires a + c <= b <= |s|
    ensures s[a..b][c..] == s[a + c..b]
  {
  }

  lemma ConcatAssoc<T>(a: seq<T>, b: seq<T>, c: seq<T>)
    ensures (a + b) + c == a + (b + c)
  {
  }

  lemma SliceJoin<T>(s: seq<T>, a: nat, b: nat, c: nat)
    requires a <= b <= c <= |s|
    ensures s[a..b] + s[b..c] == s[a..c]
  {
  }

  /** n bytes, least significant first. */
  function PutLE(n: nat, v: int): (s: seq<byte>)
    ensures |s| == n
  {
    if n == 0 then [] else [v % 256] + PutLE(n - 1, v / 256)
  }

  function GetLE(s: seq<byte>): nat {
    if s == [] then 0 else s[0] + 256 * GetLE(s[1..])
  }

  function Pow256(n: nat): nat {
    if n == 0 then 1 else 256 * Pow256(n - 1)
  }

  lemma {:induction false} PutGetLE(n: nat, v: nat)
    requires v < Pow256(n)
    ensures GetLE(PutLE(n, v)) == v
  {
    if n == 0 {
    } else {
      PutGetLE(n - 1, v / 256);
      assert PutLE(n, v)[1..] == PutLE(n - 1, v / 256);
    }
  }

  lemma {:induction false} GetLEBound(s: seq<byte>)
    ensures GetLE(s) < Pow256(|s|)
  {
    if s == [] {
    } else {
      GetLEBound(s[1..]);
    }
  }

  const INT32_SIZE := 4

  function PutInt32(v: int32): (s: seq<byte>)
    ensures |s| == 4
  {
    PutLE(INT32_SIZE, U32(v))
  }

  function GetInt32(s: seq<byte>): int32
    requires |s| == 4
  {
    GetLEBound(s);
    assert Pow256(4) == 0x1_0000_0000;
    I32(GetLE(s))
  }

  /** The wire is little endian. */
  lemma LittleEndian(v: int32)
    ensures var u := U32(v);
            PutInt32(v) == [u % 256, u / 256 % 256, u / 65536 % 256, u / 16777216]
  {
    hide PutLE, U32;
    LowBytes(0, U32(v));
    TopByte(U32(v));
    NoBytes(U32(v) / 0x1_0000_0000);
  }

  lemma TopByte(u: uint32)
    ensures u / 16777216 % 256 == u / 16777216
  {
  }

  lemma ByteByByte(u: nat)
    ensures u / 256 / 256 == u / 65536 && u / 65536 / 256 == u / 16777216 && u / 16777216 / 256 == u / 0x1_0000_0000
  {
  }

  lemma LowBytes(n: nat, u: nat)
    ensures PutLE(n + 4, u)
         == [u % 256, u / 256 % 256, u / 65536 % 256, u / 16777216 % 256] + PutLE(n, u / 0x1_0000_0000)
  {
    ByteByByte(u);
    var d, c, b := PutLE(n, u / 0x1_0000_0000), PutLE(n + 1, u / 16777216), PutLE(n + 2, u / 65536);
    assert c == [u / 16777216 % 256] + d;
    assert b == [u / 65536 % 256] + c;
    assert PutLE(n + 3, u / 256) == [u / 256 % 256] + b;
  }

  lemma Int32RoundTrip(v: int32)
    ensures GetInt32(PutInt32(v)) == v
  {
    assert Pow256(4) == 0x1_0000_0000;
    PutGetLE(INT32_SIZE, U32(v));
  }

  /** Reads one int32 off the front of a stream. */
  function ParseInt32(s: seq<byte>): (r: Result<(int32, seq<byte>)>)
    ensures r.Ok? ==> |r.value.1| == |s| - 4
  {
    if |s| < 4 then Err(Eof) else Ok((GetInt32(s[..4]), s[4..]))
  }

  lemma ParsePutInt32(v: int32, rest: seq<byte>)
    ensures ParseInt32(PutInt32(v) + rest) == Ok((v, rest))
  {
    var s := PutInt32(v) + rest;
    assert s[..4] == PutInt32(v) && s[4..] == rest;
    Int32RoundTrip(v);
  }

  /** Reads n bytes off the front of a stream, as io.ReadFull does. */
  function ParseBytes(s: seq<byte>, n: nat): (r: Result<(seq<byte>, seq<byte>)>)
    ensures r.Ok? ==> |r.value.0| == n && r.value.0 + r.value.1 == s
  {
    if |s| < n then Err(Eof) else Ok((s[..n], s[n..]))
  }

  lemma ParsePutBytes(d: seq<byte>, rest: seq<byte>)
    ensures ParseBytes(d + rest, |d|) == Ok((d, rest))
  {
    assert (d + rest)[..|d|] == d && (d + rest)[|d|..] == rest;
  }

  /** An int64 that fits 31 bits travels as an int32, any other as -1 and 8 bytes. */
  function PutInt64(v: int64): seq<byte> {
    if 0 <= v <= 0x7FFF_FFFF then PutInt32(v)
    else PutInt32(-1) + PutLE(8, v % 0x1_0000_0000_0000_0000)
  }

  function I64(d: seq<byte>): int64
    requires |d| == 8
  {
    GetLEBound(d);
    assert Pow256(8) == 0x1_0000_0000_0000_0000;
    var u := GetLE(d);
    if u < 0x8000_0000_0000_0000 then u else u - 0x1_0000_0000_0000_0000
  }

  function ParseInt64(s: seq<byte>): (r: Result<(int64, seq<byte>)>)
    ensures r.Ok? ==> |r.value.1| < |s|
  {
    var (v, rest) :- ParseInt32(s);
    if v != -1 then Ok((v, rest))
    else
      var (d, tail) :- ParseBytes(rest, 8);
      Ok((I64(d), tail))
  }

  /** Four bytes for 31 bits; any other value is the mark -1, its low and then its high half. */
  lemma Int64Forms(v: int64)
    ensures 0 <= v <= 0x7FFF_FFFF ==> PutInt64(v) == PutInt32(v)
    ensures !(0 <= v <= 0x7FFF_FFFF) ==>
              PutInt64(v) == [255, 255, 255, 255] + (PutInt32(I32(v)) + PutInt32(I32(v / 0x1_0000_0000)))
  {
    hide PutLE, I32;
    if !(0 <= v <= 0x7FFF_FFFF) {
      LittleEndian(-1);
      Halves(v % 0x1_0000_0000_0000_0000);
      LowHalf(v);
    }
  }

  lemma LowHalf(v: int64)
    ensures var u := v % 0x1_0000_0000_0000_0000;
            U32(u) == U32(v) && U32(u / 0x1_0000_0000) == U32(v / 0x1_0000_0000)
  {
  }

  lemma Halves(u: nat)
    requires u < 0x1_0000_0000_0000_0000
    ensures PutLE(8, u) == PutLE(4, U32(u)) + PutLE(4, U32(u / 0x1_0000_0000))
  {
    hide PutLE;
    LowBytes(4, u);
    LowBytes(0, U32(u));
    BytesOfLowHalf(u);
    NoBytes(U32(u) / 0x1_0000_0000);
  }

  lemma NoBytes(v: int)
    ensures PutLE(0, v) == []
  {
  }

  lemma BytesOfLowHalf(u: nat)
    ensures var w := U32(u);
            w % 256 == u % 256 && w / 256 % 256 == u / 256 % 256
            && w / 65536 % 256 == u / 65536 % 256 && w / 16777216 % 256 == u / 16777216 % 256
  {
    var w, h := U32(u), u / 0x1_0000_0000;
    assert u == w + 0x1_0000_0000 * h;
    QuotientShifts(w, h);
    ModOfSum(w, 0x100_0000 * h);
    ModOfSum(w / 256, 65536 * h);
    ModOfSum(w / 65536, 256 * h);
    ModOfSum(w / 16777216, h);
  }

  lemma QuotientShifts(w: nat, h: nat)
    ensures var u := w + 0x1_0000_0000 * h;
            u / 256 == w / 256 + 0x100_0000 * h && u / 65536 == w / 65536 + 0x1_0000 * h
            && u / 16777216 == w / 16777216 + 256 * h
  {
  }

  lemma ModOfSum(a: nat, k: nat)
    ensures (a + 256 * k) % 256 == a % 256
  {
  }

  /** A short form with any other negative number is taken as it is. */
  lemma ShortNegative(v: int32, rest: seq<byte>)
    requires v != -1
    ensures ParseInt64(PutInt32(v) + rest) == Ok((v, rest))
  {
    ParsePutInt32(v, rest);
  }

  lemma Wide64RoundTrip(v: int64)
    ensures I64(PutLE(8, v % 0x1_0000_0000_0000_0000)) == v
  {
    assert Pow256(8) == 0x1_0000_0000_0000_0000;
    PutGetLE(8, v % 0x1_0000_0000_0000_0000);
  }

  lemma ParsePutInt64(v: int64, rest: seq<byte>)
    ensures ParseInt64(PutInt64(v) + rest) == Ok((v, rest))
  {
    if 0 <= v <= 0x7FFF_FFFF {
      ParsePutInt32(v, rest);
    } else {
      var d := PutLE(8, v % 0x1_0000_0000_0000_0000);
      assert PutInt64(v) + rest == PutInt32(-1) + (d + rest);
      ParsePutInt32(-1, d + rest);
      ParsePutBytes(d, rest);
      Wide64RoundTrip(v);
    }
  }
}
