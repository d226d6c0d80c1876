/** The token stream between sender and receiver: literal runs and block references. */
module Tokens {
  import opened Bytes

  const CHUNK_SIZE := 32 * 1024

  datatype Token = Literal(data: seq<byte>) | Block(index: nat)

  /** What an int32 token can carry. */
  predicate Sendable(t: Token) {
    match t
    case Literal(data) => 0 < |data| < 0x8000_0000
    case Block(index) => index < 0x8000_0000
  }

  function PutToken(t: Token): seq<byte>
    requires Sendable(t)
  {
    match t
    case Literal(data) => PutInt32(|data|) + data
    case Block(index) => PutInt32(-(index + 1))
  }

  ghost predicate AllSendable(toks: seq<Token>) {
    forall t | t in toks :: Sendable(t)
  }

  ghost function PutTokens(toks: seq<Token>): seq<byte>
    requires AllSendable(toks)
  {
    if toks == [] then [] else PutToken(toks[0]) + PutTokens(toks[1..])
  }

  lemma {:induction false} PutTokensConcat(a: seq<Token>, b: seq<Token>)
    requires AllSendable(a) && AllSendable(b)
    ensures AllSendable(a + b) && PutTokens(a + b) == PutTokens(a) + PutTokens(b)
  {
    hide PutToken;
    if a == [] {
      assert a + b == b;
    } else {
      PutTokensConcat(a[1..], b);
      assert (a + b)[1..] == a[1..] + b;
    }
  }

  /** A run of unmatched bytes cut into chunks, as simple_send_token does. */
  ghost function Literals(data: seq<byte>): (toks: seq<Token>)
    ensures AllSendable(toks)
  {
    if data == [] then [] else
      var n := Min(CHUNK_SIZE, |data|);
      [Literal(data[..n])] + Literals(data[n..])
  }

  lemma {:induction false} LiteralsSnoc(a: seq<byte>, b: seq<byte>)
    requires |a| % CHUNK_SIZE == 0 && 0 < |b| <= CHUNK_SIZE
    ensures Literals(a + b) == Literals(a) + [Literal(b)]
  {
    if a == [] {
      assert a + b == b;
      assert b[..|b|] == b && b[|b|..] == [];
      assert Literals(b) == [Literal(b)] + Literals(b[|b|..]);
    } else {
      LiteralsSnoc(a[CHUNK_SIZE..], b);
      assert (a + b)[..CHUNK_SIZE] == a[..CHUNK_SIZE];
      assert (a + b)[CHUNK_SIZE..] == a[CHUNK_SIZE..] + b;
    }
  }

  /** The chunks are 32 KiB each, but for a shorter last one, and in order they are the run. */
  lemma {:induction false} LiteralsAreChunks(data: seq<byte>, k: nat)
    ensures |Literals(data)| == (|data| + 32767) / 32768
    ensures k < |Literals(data)| ==>
              32768 * k < |data| && Literals(data)[k] == Literal(data[32768 * k..Min(32768 * (k + 1), |data|)])
    decreases |data|
  {
    hide Literals;
    FirstChunk(data);
    if data == [] || |data| <= CHUNK_SIZE {
    } else {
      var tail := data[CHUNK_SIZE..];
      LiteralsAreChunks(tail, if k == 0 then 0 else k - 1);
      if 0 < k < |Literals(data)| {
        SliceOfSlice(data, CHUNK_SIZE, |data|, 32768 * (k - 1), Min(32768 * k, |tail|));
      }
    }
  }

  lemma FirstChunk(data: seq<byte>)
    ensures data == [] ==> Literals(data) == []
    ensures 0 < |data| <= CHUNK_SIZE ==> Literals(data) == [Literal(data[0..|data|])]
    ensures |data| > CHUNK_SIZE ==> Literals(data) == [Literal(data[0..CHUNK_SIZE])] + Literals(data[CHUNK_SIZE..])
  {
    assert Literals([]) == [];
    assert |data| > 0 ==> data[..Min(CHUNK_SIZE, |data|)] == data[0..Min(CHUNK_SIZE, |data|)];
    assert data[|data|..] == [];
  }
}
