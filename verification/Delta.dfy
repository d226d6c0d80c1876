/** End to end: what the receiver makes of what the sender emits. */
module Delta {
  import opened Bytes
  import opened Checksum
  import opened Greedy
  import opened Receiver
  import opened Sender
  import opened SumHeads
  import opened Tokens

  /** The content a token list stands for, given the local file. */
  function Replay(sh: SumHead, basis: Option<seq<byte>>, toks: seq<Token>): Result<seq<byte>>
    requires Acceptable(sh)
  {
    if toks == [] then Ok([]) else
    var data :- TokenData(sh, basis, toks[0]);
    var tail :- Replay(sh, basis, toks[1..]);
    Ok(data + tail)
  }

  lemma ParsePutToken(t: Token, rest: seq<byte>)
    requires Sendable(t)
    ensures ParseToken(PutToken(t) + rest) == Ok((Some(t), rest))
  {
    hide PutInt32, GetInt32, ParseInt32;
    match t {
      case Literal(data) =>
        ConcatAssoc(PutInt32(|data|), data, rest);
        ParsePutInt32(|data|, data + rest);
        ParsePutBytes(data, rest);
      case Block(index) =>
        ParsePutInt32(-(index + 1), rest);
    }
  }

  lemma ParseEnd(rest: seq<byte>)
    ensures ParseToken(PutInt32(0) + rest) == Ok((None, rest))
  {
    hide PutInt32, GetInt32, ParseInt32;
    ParsePutInt32(0, rest);
  }

  /** The byte stream of a token list replays to the list's content. */
  lemma {:induction false} StreamReplays(toks: seq<Token>, sh: SumHead, basis: Option<seq<byte>>, rest: seq<byte>)
    requires Acceptable(sh) && AllSendable(toks)
    ensures ReplayStream(PutTokens(toks) + (PutInt32(0) + rest), sh, basis) ==
            match Replay(sh, basis, toks)
            case Ok(content) => Ok((content, rest))
            case Err(e) => Err(e)
  {
    hide PutInt32, PutToken, ParseToken, TokenData;
    if toks == [] {
      assert PutTokens(toks) + (PutInt32(0) + rest) == PutInt32(0) + rest;
      ParseEnd(rest);
    } else {
      var tail := PutTokens(toks[1..]) + (PutInt32(0) + rest);
      ConcatAssoc(PutToken(toks[0]), PutTokens(toks[1..]), PutInt32(0) + rest);
      ParsePutToken(toks[0], tail);
      StreamReplays(toks[1..], sh, basis, rest);
    }
  }

  /** Reading back a file message, past its index. */
  lemma MessageReceived(head: SumHead, toks: seq<Token>, digest: Digest, rest: seq<byte>,
                        md4: Hash, seed: int32, basis: Option<seq<byte>>)
    requires Acceptable(head) && AllSendable(toks)
    ensures ReceiveFile(PutHead(head) + (PutTokens(toks) + (PutInt32(0) + (digest + rest))), md4, seed, basis) ==
            match Replay(head, basis, toks)
            case Err(e) => Err(e)
            case Ok(content) => if FileDigest(md4, seed, content) == digest then Ok((content, rest)) else Err(Corruption)
  {
    hide PutInt32, PutHead, ParseHead, PutTokens, ReplayStream, Replay, FileDigest;
    HeadRoundTrip(head, PutTokens(toks) + (PutInt32(0) + (digest + rest)));
    StreamReplays(toks, head, basis, digest + rest);
    ParsePutBytes(digest, rest);
  }

  /**
   * The hash of a block and the seed, cut to the checksum length, tells apart every source window and basis block
   * that agree in length and weak sum. This is the only assumption on the hash.
   */
  ghost predicate NoCollision(sig: Signature, src: seq<byte>, basis: seq<byte>)
    requires sig.Valid() && Describes(sig.head, |basis|)
  {
    forall q: nat, i: nat | q < |src| && i < sig.head.count ::
      var w, b, n := sig.Window(src, q), BlockOf(sig.head, basis, i), sig.head.checksumLength;
      |w| == |b| && Weak(w) == Weak(b) && sig.md4(w + PutInt32(sig.seed))[..n] == sig.md4(b + PutInt32(sig.seed))[..n]
      ==> w == b
  }

  /** The receiver's range for a block reference is the block whose sums the sender compared. */
  lemma BlockDataIsBlock(sh: SumHead, basis: seq<byte>, i: nat)
    requires Describes(sh, |basis|) && i < sh.count
    ensures BlockData(sh, Some(basis), i) == Ok(BlockOf(sh, basis, i))
  {
    BlocksAreAdjacent(sh, |basis|, i);
    StartIsProduct(sh, i);
  }

  /** Tokens that tile the source replay, and to content of the same length. */
  lemma {:induction false} TilesReplay(sig: Signature, src: seq<byte>, basis: seq<byte>, toks: seq<Token>, lo: nat, hi: nat)
    requires sig.Valid() && SumsOf(sig.md4, sig.seed, sig.head, sig.sums, basis)
    requires lo <= hi <= |src| && sig.Tiles(src, toks, lo, hi)
    ensures var r := Replay(sig.head, Some(basis), toks);
            r.Ok? && |r.value| == hi - lo && (NoCollision(sig, src, basis) ==> r.value == src[lo..hi])
    decreases |toks|
  {
    hide SumsOf, TokenData, Signature.NoMatchIn, Signature.Accepts, Signature.Window, Signature.Valid, NoCollision;
    if toks == [] {
    } else {
      var n := TokenReplay(sig, src, basis, toks[0], lo);
      TilesReplay(sig, src, basis, toks[1..], lo + n, hi);
      SliceJoin(src, lo, lo + n, hi);
    }
  }

  lemma TokenReplay(sig: Signature, src: seq<byte>, basis: seq<byte>, t: Token, lo: nat) returns (n: nat)
    requires sig.Valid() && SumsOf(sig.md4, sig.seed, sig.head, sig.sums, basis) && lo <= |src|
    requires t.Literal? ==> lo + |t.data| <= |src| && t.data == src[lo..lo + |t.data|]
    requires t.Block? ==> sig.Accepts(t.index, sig.Window(src, lo))
    ensures n == if t.Literal? then |t.data| else sig.sums[t.index].len
    ensures lo + n <= |src|
    ensures var r := TokenData(sig.head, Some(basis), t);
            r.Ok? && |r.value| == n && (NoCollision(sig, src, basis) ==> r.value == src[lo..lo + n])
  {
    hide Weak, PutInt32, BlockData, BlockStart;
    match t {
      case Literal(data) =>
        n := |data|;
      case Block(i) =>
        n := sig.sums[i].len;
        sig.BlockLens(i);
        BlockDataIsBlock(sig.head, basis, i);
        var b := BlockOf(sig.head, basis, i);
        assert sig.sums[i] == SumOf(sig.md4, sig.seed, sig.head, i, b);
        assert |b| == n && |sig.Window(src, lo)| == n && lo < |src|;
        assert sig.Window(src, lo) == src[lo..lo + n];
    }
  }

  lemma {:induction false} PlainReplays(toks: seq<Token>, content: seq<byte>, sh: SumHead, basis: Option<seq<byte>>)
    requires Acceptable(sh) && Plain(toks, content)
    ensures Replay(sh, basis, toks) == Ok(content)
  {
    if toks == [] {
    } else {
      PlainReplays(toks[1..], content[|toks[0].data|..], sh, basis);
      assert content[..|toks[0].data|] + content[|toks[0].data|..] == content;
    }
  }

  /**
   * The delta transfer rebuilds the source: whatever greedy tiling the sender chose, the receiver, holding
   * the basis the sums were taken from, ends with exactly the source.
   */
  lemma DeltaRebuildsSource(sig: Signature, src: seq<byte>, basis: seq<byte>, toks: seq<Token>, rest: seq<byte>)
    requires sig.Valid() && SumsOf(sig.md4, sig.seed, sig.head, sig.sums, basis)
    requires AllSendable(toks) && sig.Tiles(src, toks, 0, |src|)
    requires NoCollision(sig, src, basis)
    ensures var digest := FileDigest(sig.md4, sig.seed, src);
            ReceiveFile(PutHead(sig.head) + (PutTokens(toks) + (PutInt32(0) + (digest + rest))),
                        sig.md4, sig.seed, Some(basis)) == Ok((src, rest))
  {
    hide NoCollision, SumsOf, Signature.Tiles, ReceiveFile, PutTokens, PutHead, PutInt32, Replay;
    TilesReplay(sig, src, basis, toks, 0, |src|);
    assert src[0..|src|] == src;
    MessageReceived(sig.head, toks, FileDigest(sig.md4, sig.seed, src), rest, sig.md4, sig.seed, Some(basis));
  }

  /**
   * With no assumption on the hash: whatever is accepted has the source's digest and length,
   * and a failure is always reported as corruption.
   */
  lemma DeltaNeverSilentlyWrong(sig: Signature, src: seq<byte>, basis: seq<byte>, toks: seq<Token>, rest: seq<byte>)
    requires sig.Valid() && SumsOf(sig.md4, sig.seed, sig.head, sig.sums, basis)
    requires AllSendable(toks) && sig.Tiles(src, toks, 0, |src|)
    ensures var digest := FileDigest(sig.md4, sig.seed, src);
            var r := ReceiveFile(PutHead(sig.head) + (PutTokens(toks) + (PutInt32(0) + (digest + rest))),
                                 sig.md4, sig.seed, Some(basis));
            match r
            case Err(e) => e == Corruption
            case Ok(p) => FileDigest(sig.md4, sig.seed, p.0) == digest && |p.0| == |src| && p.1 == rest
  {
    hide NoCollision, SumsOf, Signature.Tiles, ReceiveFile, PutTokens, PutHead, PutInt32, Replay;
    TilesReplay(sig, src, basis, toks, 0, |src|);
    MessageReceived(sig.head, toks, FileDigest(sig.md4, sig.seed, src), rest, sig.md4, sig.seed, Some(basis));
  }

  /** A file sent whole arrives whole, whatever the local file is. */
  lemma WholeFileArrives(sh: SumHead, toks: seq<Token>, src: seq<byte>, md4: Hash, seed: int32,
                         basis: Option<seq<byte>>, rest: seq<byte>)
    requires Acceptable(sh) && AllSendable(toks) && Plain(toks, src)
    ensures var digest := FileDigest(md4, seed, src);
            ReceiveFile(PutHead(sh) + (PutTokens(toks) + (PutInt32(0) + (digest + rest))), md4, seed, basis) == Ok((src, rest))
  {
    hide ReceiveFile, PutTokens, PutHead, PutInt32, Replay;
    PlainReplays(toks, src, sh, basis);
    MessageReceived(sh, toks, FileDigest(md4, seed, src), rest, md4, seed, basis);
  }
}
