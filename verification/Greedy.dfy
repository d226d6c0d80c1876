/** What a signature search must find, stated without rolling sums, tags or windows. */
module Greedy {
  import opened Bytes
  import opened Checksum
  import opened SumHeads
  import opened Sums
  import opened Tokens

  /** The sums a sender received, with the hash and seed both sides share. */
  datatype Signature = Signature(md4: Hash, seed: int32, head: SumHead, sums: seq<SumBuf>) {

    /** Some sums, as they come out of parsing. */
    ghost predicate Parsed() {
      && Acceptable(head)
      && head.checksumLength <= 16
      && 1 <= |sums| == head.count
      && Geometry(head, sums, 0)
    }

    ghost predicate Valid() {
      Parsed() && head.blockLength >= 1
    }

    function LastLen(): int
      requires |sums| > 0
    {
      sums[|sums| - 1].len
    }

    /** Where the window at an offset ends: a block further or at the end of the file. */
    function WindowLen(size: nat, offset: nat): int {
      Min(head.blockLength, size - offset)
    }

    function Window(src: seq<byte>, offset: nat): seq<byte>
      requires offset <= |src| && head.blockLength >= 0
    {
      src[offset..offset + WindowLen(|src|, offset)]
    }

    /** A linear scan accepts block i for these bytes: same length, weak sum and strong sum prefix. */
    predicate Accepts(i: nat, window: seq<byte>)
      requires 0 <= head.checksumLength <= 16
    {
      && i < |sums|
      && sums[i].len == |window|
      && sums[i].sum1 == Weak(window)
      && sums[i].sum2[..head.checksumLength] == Strong(md4, seed, window)[..head.checksumLength]
    }

    ghost predicate NoneAccepts(window: seq<byte>)
      requires 0 <= head.checksumLength <= 16
    {
      forall i: nat | i < |sums| :: !Accepts(i, window)
    }

    /** No block is accepted at any offset in [lo, hi). */
    ghost predicate NoMatchIn(src: seq<byte>, lo: nat, hi: nat)
      requires Valid() && hi <= |src|
    {
      forall q | lo <= q < hi :: NoneAccepts(Window(src, q))
    }

    /**
     * The tokens tile src[lo..hi] in order: literals are the source's own bytes, taken only where
     * no block is accepted, and each block reference is accepted for the whole window it stands for.
     */
    ghost predicate Tiles(src: seq<byte>, toks: seq<Token>, lo: nat, hi: nat)
      requires Valid() && hi <= |src|
      decreases |toks|
    {
      if toks == [] then lo == hi else
      match toks[0]
      case Literal(data) =>
        && 0 < |data| <= CHUNK_SIZE
        && lo + |data| <= hi
        && data == src[lo..lo + |data|]
        && NoMatchIn(src, lo, lo + |data|)
        && Tiles(src, toks[1..], lo + |data|, hi)
      case Block(i) =>
        && i < |sums|
        && lo <= |src|
        && Accepts(i, Window(src, lo))
        && lo + sums[i].len <= hi
        && Tiles(src, toks[1..], lo + sums[i].len, hi)
    }

    lemma BlockLens(i: nat)
      requires Valid() && i < |sums|
      ensures 1 <= LastLen() <= head.blockLength
      ensures sums[i].len == head.blockLength || sums[i].len == LastLen()
    {
      assert sums[i].len == BlockLen(head, 0 + i);
      assert LastLen() == BlockLen(head, 0 + (|sums| - 1));
    }

    /** Stopping one block short of the end of the file loses nothing: no block is that short. */
    lemma NoMatchNearEnd(src: seq<byte>, q: nat)
      requires Valid() && q < |src| && q >= |src| + 1 - LastLen()
      ensures NoneAccepts(Window(src, q))
    {
      forall i: nat | i < |sums|
        ensures !Accepts(i, Window(src, q))
      {
        BlockLens(i);
      }
    }

    lemma {:induction false} TilesConcat(src: seq<byte>, a: seq<Token>, b: seq<Token>, lo: nat, mid: nat, hi: nat)
      requires Valid() && mid <= hi <= |src|
      requires Tiles(src, a, lo, mid) && Tiles(src, b, mid, hi)
      ensures Tiles(src, a + b, lo, hi)
      decreases |a|
    {
      hide Valid, NoMatchIn, Window, Weak, Strong;
      if a == [] {
        assert a + b == b;
      } else {
        assert (a + b)[1..] == a[1..] + b;
        var next := lo + match a[0] case Literal(data) => |data| case Block(i) => sums[i].len;
        TilesConcat(src, a[1..], b, next, mid, hi);
      }
    }

    lemma {:induction false} LiteralsTile(src: seq<byte>, lo: nat, hi: nat)
      requires Valid() && lo <= hi <= |src| && NoMatchIn(src, lo, hi)
      ensures Tiles(src, Literals(src[lo..hi]), lo, hi)
      decreases hi - lo
    {
      hide Valid, Accepts, NoneAccepts, Window;
      if lo == hi {
      } else {
        var data := src[lo..hi];
        var n := Min(CHUNK_SIZE, |data|);
        assert data[..n] == src[lo..lo + n] && data[n..] == src[lo + n..hi];
        LiteralsTile(src, lo + n, hi);
        var toks := Literals(data);
        assert toks[0] == Literal(data[..n]) && toks[1..] == Literals(data[n..]);
      }
    }

    lemma {:induction false} TilesAreSendable(src: seq<byte>, toks: seq<Token>, lo: nat, hi: nat)
      requires Valid() && hi <= |src| && Tiles(src, toks, lo, hi)
      ensures AllSendable(toks)
      decreases |toks|
    {
      hide NoMatchIn, Window, Weak, Strong;
      if toks == [] {
      } else {
        var next := lo + match toks[0] case Literal(data) => |data| case Block(i) => sums[i].len;
        TilesAreSendable(src, toks[1..], next, hi);
      }
    }

    /** A greedy tiling always exists. */
    lemma {:induction false} TilingExists(src: seq<byte>, lo: nat) returns (toks: seq<Token>)
      requires Valid() && lo <= |src|
      ensures AllSendable(toks) && Tiles(src, toks, lo, |src|)
      decreases |src| - lo
    {
      hide Weak, Strong, Geometry;
      toks := [];
      if lo == |src| {
      } else {
        if NoneAccepts(Window(src, lo)) {
          var tail := TilingExists(src, lo + 1);
          toks := [Literal([src[lo]])] + tail;
          assert toks[1..] == tail;
        } else {
          var i: nat :| i < |sums| && Accepts(i, Window(src, lo));
          BlockLens(i);
          CountFitsIndex(i);
          var tail := TilingExists(src, lo + sums[i].len);
          toks := [Token.Block(i)] + tail;
          assert toks[1..] == tail;
        }
      }
    }

    lemma CountFitsIndex(i: nat)
      requires Valid() && i < |sums|
      ensures Sendable(Token.Block(i))
    {
    }
  }
}
