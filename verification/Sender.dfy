/** Serving one request: the branches of SendFiles and sendFile in internal/sender/sender.go. */
module Sender {
  import opened Bytes
  import opened Checksum
  import opened FileMap
  import opened Greedy
  import opened Match
  import opened SumHeads
  import opened Sums
  import opened TagIndex
  import opened Tokens
  import opened Wire

  const BUFFER_SIZE := 128 * 1024

  /** Only literals, and together they are the content. */
  ghost predicate Plain(toks: seq<Token>, content: seq<byte>) {
    if toks == [] then content == [] else
    && toks[0].Literal?
    && 0 < |toks[0].data| <= |content|
    && toks[0].data == content[..|toks[0].data|]
    && Plain(toks[1..], content[|toks[0].data|..])
  }

  lemma {:induction false} PlainSnoc(toks: seq<Token>, content: seq<byte>, chunk: seq<byte>)
    requires Plain(toks, content) && chunk != []
    ensures Plain(toks + [Literal(chunk)], content + chunk)
  {
    if toks == [] {
      assert content + chunk == chunk && chunk[..|chunk|] == chunk && chunk[|chunk|..] == [];
      assert [Literal(chunk)][1..] == [];
    } else {
      var n := |toks[0].data|;
      PlainSnoc(toks[1..], content[n..], chunk);
      assert (toks + [Literal(chunk)])[1..] == toks[1..] + [Literal(chunk)];
      assert (content + chunk)[n..] == content[n..] + chunk;
      assert (content + chunk)[..n] == content[..n];
    }
  }

  /** A plain token list always exists. */
  lemma {:induction false} PlainExists(content: seq<byte>) returns (toks: seq<Token>)
    ensures AllSendable(toks) && Plain(toks, content)
  {
    toks := [];
    if content == [] {
    } else {
      var tail := PlainExists(content[1..]);
      toks := [Literal([content[0]])] + tail;
      assert toks[1..] == tail;
    }
  }

  /** The bytes of a served file: index, header, tokens, end marker, digest. */
  ghost function FileMessage(fileIndex: int32, head: SumHead, toks: seq<Token>, digest: Digest): seq<byte>
    requires AllSendable(toks)
  {
    PutInt32(fileIndex) + PutHead(head) + PutTokens(toks) + PutInt32(0) + digest
  }

  lemma SnocLiteral(toks: seq<Token>, chunk: seq<byte>)
    requires AllSendable(toks) && Sendable(Literal(chunk))
    ensures AllSendable(toks + [Literal(chunk)])
    ensures PutTokens(toks + [Literal(chunk)]) == PutTokens(toks) + (PutInt32(|chunk|) + chunk)
  {
    hide PutInt32;
    PutTokensConcat(toks, [Literal(chunk)]);
    assert PutTokens([Literal(chunk)]) == PutToken(Literal(chunk)) + [];
  }

  /** The fast path without sums: the whole file in chunks of whatever size the reads return. */
  method SendFile(c: Conn, md4: Hash, seed: int32, fileIndex: int32, src: seq<byte>, root: nat)
    returns (ghost toks: seq<Token>)
    requires FloatRoot(|src|, root)
    modifies c`out
    ensures AllSendable(toks) && Plain(toks, src) && InBuffers(toks)
    ensures c.out == old(c.out) + FileMessage(fileIndex, SumSizesSqroot(|src|, root), toks, FileDigest(md4, seed, src))
  {
    hide PutInt32, PutHead, SumSizesSqroot, PutTokens, Plain;
    var f := new File(src);
    c.WriteInt32(fileIndex);
    WriteTo(SumSizesSqroot(|src|, root), c);
    toks := SendChunks(c, f);
    c.WriteInt32(0);
    c.Write(md4(PutInt32(seed) + src));
  }

  /** No literal is larger than the read buffer of 128 KiB. */
  ghost predicate InBuffers(toks: seq<Token>) {
    forall t | t in toks :: t.Literal? && |t.data| <= 131072
  }

  method SendChunks(c: Conn, f: File) returns (ghost toks: seq<Token>)
    requires f.pos == 0
    modifies c`out, f
    ensures AllSendable(toks) && Plain(toks, f.data) && InBuffers(toks)
    ensures c.out == old(c.out) + PutTokens(toks)
  {
    hide PutInt32, PutTokens, Plain;
    ghost var src := f.data;
    toks := [];
    NoTokens();
    assert src[..0] == [];
    var buf := new byte[BUFFER_SIZE];
    while true
      invariant f.pos <= |src| && fresh(buf) && buf.Length == BUFFER_SIZE
      invariant AllSendable(toks) && Plain(toks, src[..f.pos]) && InBuffers(toks)
      invariant c.out == old(c.out) + PutTokens(toks)
      decreases |src| - f.pos
    {
      ghost var p := f.pos;
      var chunk, eof := NextChunk(f, buf);
      if eof {
        break;
      }
      ChunkSent(src, p, f.pos, toks, chunk);
      ConcatAssoc(old(c.out), PutTokens(toks), PutInt32(|chunk|));
      ConcatAssoc(old(c.out), PutTokens(toks) + PutInt32(|chunk|), chunk);
      ConcatAssoc(PutTokens(toks), PutInt32(|chunk|), chunk);
      c.WriteInt32(|chunk|);
      c.Write(chunk);
      toks := toks + [Literal(chunk)];
    }
    assert src[..f.pos] == src;
  }

  /** One read of the loop. */
  method NextChunk(f: File, buf: array<byte>) returns (chunk: seq<byte>, eof: bool)
    requires buf.Length > 0
    modifies f, buf
    ensures eof <==> old(f.pos) >= |f.data|
    ensures eof ==> f.pos == old(f.pos)
    ensures !eof ==> old(f.pos) < f.pos <= |f.data| && chunk == f.data[old(f.pos)..f.pos] && |chunk| <= buf.Length
  {
    var n;
    n, eof := f.Read(buf, 0, buf.Length);
    chunk := buf[..n];
    if !eof {
      assert forall j | 0 <= j < n :: chunk[j] == f.data[old(f.pos) + j];
    }
  }

  lemma ChunkSent(src: seq<byte>, p: nat, q: nat, toks: seq<Token>, chunk: seq<byte>)
    requires p < q <= |src| && chunk == src[p..q] && |chunk| <= BUFFER_SIZE
    requires AllSendable(toks) && Plain(toks, src[..p])
    ensures AllSendable(toks + [Literal(chunk)]) && Plain(toks + [Literal(chunk)], src[..q])
    ensures PutTokens(toks + [Literal(chunk)]) == PutTokens(toks) + (PutInt32(|chunk|) + chunk)
  {
    hide PutInt32, PutTokens, Plain;
    assert src[..p] + chunk == src[..q];
    SnocLiteral(toks, chunk);
    PlainSnoc(toks, src[..p], chunk);
  }

  lemma NoTokens()
    ensures PutTokens([]) == [] && Plain([], [])
  {
  }

  /** One iteration of SendFiles for a file that opens: sums in, file message out. */
  method Serve(c: Conn, md4: Hash, seed: int32, fileIndex: int32, src: seq<byte>, root: nat)
    returns (r: Result<()>, ghost head: SumHead, ghost sums: seq<SumBuf>, ghost toks: seq<Token>)
    requires FloatRoot(|src|, root)
    modifies c
    ensures match ParseHead(old(c.inp))
            case Err(e) => r == Err(e)
            case Ok(h) =>
              Acceptable(h.0) && head == h.0 &&
              match ParseSums(h.1, h.0, 0, 0)
              case Err(e) => r == Err(e)
              case Ok(p) =>
                && sums == p.0
                && (r.Ok? <==> h.0.count == 0 || (|src| > 0 && h.0.blockLength > 0))
                && (r.Err? ==>
                      h.0.checksumLength <= 16
                      && r.error == if h.0.blockLength > 0 || Signature(md4, seed, h.0, p.0).NoneAccepts([]) then Panic else BadSeek)
                && (r.Ok? ==> c.inp == p.1 && AllSendable(toks))
                && (r.Ok? && h.0.count == 0 ==>
                      Plain(toks, src)
                      && c.out == old(c.out) + FileMessage(fileIndex, SumSizesSqroot(|src|, root), toks, FileDigest(md4, seed, src)))
                && (r.Ok? && h.0.count > 0 ==>
                      var sig := Signature(md4, seed, h.0, p.0);
                      sig.Valid() && sig.Tiles(src, toks, 0, |src|)
                      && c.out == old(c.out) + FileMessage(fileIndex, h.0, toks, FileDigest(md4, seed, src)))
  {
    hide ParseHead, PutHead, PutInt32, PutTokens, SumSizesSqroot, FileDigest, Plain, Index, FloatRoot;
    hide Signature.Tiles, Signature.NoneAccepts, Signature.Parsed, Signature.Valid, ParseSums, Acceptable;
    toks := [];
    head, sums := SumHead(0, 0, 0, 0), [];
    ghost var s := c.inp;
    var received := ReceiveSums(c);
    if received.Err? {
      head := if ParseHead(s).Ok? then ParseHead(s).value.0 else head;
      return Err(received.error), head, sums, toks;
    }
    var sh, list := received.value.0, received.value.1;
    head, sums := sh, list;
    ParsedSignature(md4, seed, ParseHead(s).value.1, sh);
    if |list| == 0 {
      toks := SendFile(c, md4, seed, fileIndex, src, root);
      return Ok(()), head, sums, toks;
    }
    var targets, tagTable := BuildIndex(list);
    var st := new Transfer(c, Signature(md4, seed, sh, list));
    r, toks := st.HashSearch(targets, tagTable, fileIndex, src);
  }

  /** Sums that parse are as many as announced, make a signature, and leave a checksum length the 16-byte arrays can hold. */
  lemma ParsedSignature(md4: Hash, seed: int32, s: seq<byte>, sh: SumHead)
    requires Acceptable(sh) && ParseSums(s, sh, 0, 0).Ok?
    ensures var sums := ParseSums(s, sh, 0, 0).value.0;
            && |sums| == sh.count <= 0x7FFF_FFFF
            && (sh.count > 0 ==> 0 <= sh.checksumLength <= 16 && Signature(md4, seed, sh, sums).Parsed())
  {
    ParsedGeometry(s, sh, 0, 0);
    LongSumsPanicExactly(s, sh);
    if sh.count > 0 {
      assert ParseSum(s, sh, 0, 0).Ok?;
    }
  }
}
