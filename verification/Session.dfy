/** One file through generator, sender and receiver, on the bytes of the two connections. */
module Session {
  import opened Bytes
  import opened Checksum
  import opened Delta
  import opened FileMap
  import opened Generator
  import opened Greedy
  import opened Multiplex
  import opened Receiver
  import opened Sender
  import opened Staging
  import opened SumHeads
  import opened Sums
  import opened Tokens
  import opened Wire

  function RequestBytes(fileIndex: int32, head: SumHead, sums: seq<SumBuf>): seq<byte> {
    PutInt32(fileIndex) + (PutHead(head) + PutSumBufs(sums))
  }

  /** The request of recv_generator: the sums of the local file, or an empty header for a missing one. */
  method Request(c: Conn, md4: Hash, seed: int32, fileIndex: int32, basis: Option<seq<byte>>, root: nat)
    returns (ghost head: SumHead, ghost sums: seq<SumBuf>)
    requires basis.Some? ==> FloatRoot(|basis.value|, root) && root <= MAX_BLOCK_LEN
    modifies c`out
    ensures RequestOf(md4, seed, basis, head, sums)
    ensures if basis == None then head == EMPTY_HEAD
            else head == SumSizesSqroot(|basis.value|, root) && SumsOf(md4, seed, head, sums, basis.value)
    ensures c.out == old(c.out) + RequestBytes(fileIndex, head, sums)
  {
    hide PutHead, PutSums, PutInt32, SumsOf, Describes, FloatRoot, SumSizesSqroot;
    c.WriteInt32(fileIndex);
    match basis {
      case None =>
        head, sums := EMPTY_HEAD, [];
        WriteTo(EMPTY_HEAD, c);
        assert PutSumBufs([]) == [];
        assert PutHead(EMPTY_HEAD) + [] == PutHead(EMPTY_HEAD);
      case Some(data) =>
        SumSizesDescribe(|data|, root);
        head := SumSizesSqroot(|data|, root);
        sums := SumsExist(md4, seed, data, head);
        SumsAsBytes(md4, seed, head, sums, data);
        var f := new File(data);
        GenerateAndSendSums(c, md4, seed, f, root);
    }
    ConcatAssoc(old(c.out), PutInt32(fileIndex), PutHead(head));
    ConcatAssoc(old(c.out), PutInt32(fileIndex), PutHead(head) + PutSumBufs(sums));
    ConcatAssoc(old(c.out) + PutInt32(fileIndex), PutHead(head), PutSumBufs(sums));
  }

  /** A missing file is asked for by its index and a header of sixteen zero bytes. */
  lemma FullRequest(fileIndex: int32)
    ensures RequestBytes(fileIndex, EMPTY_HEAD, []) == PutInt32(fileIndex) + seq(16, _ => 0)
  {
    LittleEndian(0);
    assert PutHead(EMPTY_HEAD) == seq(16, _ => 0);
  }

  lemma SumsAsBytes(md4: Hash, seed: int32, head: SumHead, sums: seq<SumBuf>, basis: seq<byte>)
    requires Describes(head, |basis|) && SumsOf(md4, seed, head, sums, basis)
    ensures PutSumBufs(sums) == PutSums(md4, seed, Blocks(head, basis))
  {
    hide BlockOf, Weak, Strong, PutSumBufs, PutSums, PutSum;
    PutSumsAsBufs(md4, seed, head, sums, Blocks(head, basis), 0);
  }

  lemma SumsAreUnique(md4: Hash, seed: int32, head: SumHead, a: seq<SumBuf>, b: seq<SumBuf>, basis: seq<byte>)
    requires SumsOf(md4, seed, head, a, basis) && SumsOf(md4, seed, head, b, basis)
    ensures a == b
  {
    hide BlockOf, Weak, Strong;
    assert forall j | 0 <= j < |a| :: a[j] == b[j];
  }

  /** The sender parses from a request's bytes its index, header and sums, and leaves what follows on the connection. */
  lemma RequestParses(md4: Hash, seed: int32, fileIndex: int32, basis: Option<seq<byte>>, head: SumHead, sums: seq<SumBuf>,
                      rest: seq<byte>)
    requires RequestOf(md4, seed, basis, head, sums)
    ensures Acceptable(head)
    ensures var bytes := PutHead(head) + (PutSumBufs(sums) + rest);
            && ParseInt32(RequestBytes(fileIndex, head, sums) + rest) == Ok((fileIndex, bytes))
            && ParseHead(bytes) == Ok((head, PutSumBufs(sums) + rest))
            && ParseSums(PutSumBufs(sums) + rest, head, 0, 0) == Ok((sums, rest))
  {
    hide PutHead, ParseHead, PutSumBufs, PutInt32, ParseInt32, SumsOf, Describes;
    var body := PutSumBufs(sums);
    ConcatAssoc(PutInt32(fileIndex), PutHead(head) + body, rest);
    ConcatAssoc(PutHead(head), body, rest);
    ParsePutInt32(fileIndex, PutHead(head) + (body + rest));
    if basis.Some? && SumsOf(md4, seed, head, sums, basis.value) {
      SumsParse(md4, seed, head, sums, basis.value, rest);
    } else {
      assert body == [] && [] + rest == rest by {
        NoSums();
      }
    }
    HeadRoundTrip(head, body + rest);
  }

  lemma NoSums()
    ensures PutSumBufs([]) == []
  {
  }

  lemma SumsParse(md4: Hash, seed: int32, head: SumHead, sums: seq<SumBuf>, basis: seq<byte>, rest: seq<byte>)
    requires SumsOf(md4, seed, head, sums, basis)
    ensures Acceptable(head) && ParseSums(PutSumBufs(sums) + rest, head, 0, 0) == Ok((sums, rest))
  {
    hide BlockOf, Weak, Strong, PutSumBufs, PutSums, ParseSums;
    SumsAsBytes(md4, seed, head, sums, basis);
    SumsRoundTrip(md4, seed, head, basis, rest);
    var p := ParseSums(PutSumBufs(sums) + rest, head, 0, 0).value;
    SumsAreUnique(md4, seed, head, p.0, sums, basis);
  }

  ghost predicate NoCollisionWith(md4: Hash, seed: int32, head: SumHead, basis: Option<seq<byte>>, src: seq<byte>) {
    forall sums | basis.Some? && SumsOf(md4, seed, head, sums, basis.value) && Signature(md4, seed, head, sums).Valid() ::
      NoCollision(Signature(md4, seed, head, sums), src, basis.value)
  }

  /** There are no sums exactly when there is nothing to compare with. */
  lemma SumsOfEmpty(md4: Hash, seed: int32, head: SumHead, sums: seq<SumBuf>, basis: seq<byte>)
    requires SumsOf(md4, seed, head, sums, basis)
    ensures |sums| == head.count && head.blockLength >= 1
    ensures head.count == 0 <==> basis == []
  {
    assert head.count == 0 <==> |basis| == 0;
  }

  lemma RequestCount(md4: Hash, seed: int32, basis: Option<seq<byte>>, head: SumHead, sums: seq<SumBuf>)
    requires if basis == None then head == EMPTY_HEAD else SumsOf(md4, seed, head, sums, basis.value)
    ensures head.count > 0 ==> head.blockLength >= 1
    ensures head.count == 0 <==> basis == None || basis == Some([])
  {
    hide SumsOf;
    if basis.Some? {
      SumsOfEmpty(md4, seed, head, sums, basis.value);
    }
  }

  /** A file message as the receiver reads it: the index, then the rest. */
  lemma MessageIndex(fileIndex: int32, head: SumHead, toks: seq<Token>, digest: Digest, rest: seq<byte>)
    requires AllSendable(toks)
    ensures ParseInt32(FileMessage(fileIndex, head, toks, digest) + rest)
         == Ok((fileIndex, PutHead(head) + (PutTokens(toks) + (PutInt32(0) + (digest + rest)))))
  {
    hide PutInt32, ParseInt32, PutTokens, PutHead;
    MessageShape(fileIndex, head, toks, digest, rest);
    ParsePutInt32(fileIndex, PutHead(head) + (PutTokens(toks) + (PutInt32(0) + (digest + rest))));
  }

  lemma MessageShape(fileIndex: int32, head: SumHead, toks: seq<Token>, digest: Digest, rest: seq<byte>)
    requires AllSendable(toks)
    ensures FileMessage(fileIndex, head, toks, digest) + rest
         == PutInt32(fileIndex) + (PutHead(head) + (PutTokens(toks) + (PutInt32(0) + (digest + rest))))
  {
    hide PutInt32, PutTokens, PutHead;
    var a, b, t, z := PutInt32(fileIndex), PutHead(head), PutTokens(toks), PutInt32(0);
    ConcatAssoc(a + b + t + z, digest, rest);
    ConcatAssoc(a + b + t, z, digest + rest);
    ConcatAssoc(a + b, t, z + (digest + rest));
    ConcatAssoc(a, b, t + (z + (digest + rest)));
  }

  /** How a server's writes are cut into messages, and what is logged between them. */
  ghost predicate Cuts(cut: seq<byte> -> seq<Message>) {
    forall out :: WellSized(cut(out)) && DataOf(cut(out)) == out
  }

  /** One such way: data messages of 256 KiB each, but for the last. */
  function InMessages(out: seq<byte>): seq<Message> {
    if out == [] then [] else
    var n := Min(MAX_MESSAGE_SIZE, |out|);
    [Message(MSG_DATA, out[..n])] + InMessages(out[n..])
  }

  lemma SomeCut()
    ensures Cuts(InMessages)
  {
    forall out
      ensures WellSized(InMessages(out)) && DataOf(InMessages(out)) == out
    {
      MessagesAreCut(out);
    }
  }

  lemma {:induction false} MessagesAreCut(out: seq<byte>)
    ensures WellSized(InMessages(out)) && DataOf(InMessages(out)) == out
    decreases |out|
  {
    if out == [] {
    } else {
      var n := Min(MAX_MESSAGE_SIZE, |out|);
      MessagesAreCut(out[n..]);
      var rest := InMessages(out[n..]);
      assert InMessages(out)[1..] == rest;
      assert forall k | 0 < k < |rest| + 1 :: InMessages(out)[k] == rest[k - 1];
      assert out[..n] + out[n..] == out;
    }
  }

  method WriteMessages(messages: seq<Message>) returns (stream: seq<byte>)
    ensures stream == PutMsgs(messages)
  {
    hide PutMsg;
    var w := new MultiplexWriter();
    assert messages[0..] == messages;
    for k := 0 to |messages|
      invariant fresh(w) && w.out + PutMsgs(messages[k..]) == PutMsgs(messages)
    {
      assert messages[k..][1..] == messages[k + 1..];
      ConcatAssoc(w.out, PutMsg(messages[k]), PutMsgs(messages[k + 1..]));
      w.WriteMsg(messages[k].tag, messages[k].payload);
    }
    stream := w.out;
    assert messages[|messages|..] == [] && stream + [] == stream;
  }

  /** What the client's buffered reader makes of a stream, read to its end. */
  method ReadToEnd(stream: seq<byte>) returns (data: seq<byte>)
    ensures data == Delivered(stream)
  {
    hide Delivered;
    var mux := new MultiplexReader(stream);
    var reader := new BufferedReader(mux);
    data := [];
    assert [] + reader.Remaining() == reader.Remaining();
    while true
      invariant reader.Valid() && reader.mux == mux && fresh(mux) && fresh(reader)
      invariant data + reader.Remaining() == Delivered(stream)
      decreases |reader.Remaining()|, |mux.inp|
    {
      ghost var rem := reader.Remaining();
      var part := reader.Read(MAX_MESSAGE_SIZE);
      if part.Err? {
        assert data + [] == data;
        return;
      }
      ConcatAssoc(data, part.value, reader.Remaining());
      data := data + part.value;
    }
  }

  /** What travels from one party to the other; the server's side is multiplexed. */
  method Carried(out: seq<byte>, fromServer: bool, cut: seq<byte> -> seq<Message>) returns (c: Conn)
    requires Cuts(cut)
    ensures fresh(c) && c.inp == out && c.out == []
  {
    if fromServer {
      var stream := WriteMessages(cut(out));
      MessagesArrive(cut(out));
      var data := ReadToEnd(stream);
      c := new Conn(data);
    } else {
      c := new Conn(out);
    }
  }

  /** The reader delivers the data payloads of the writer's messages, and nothing of what was logged. */
  lemma MessagesArrive(messages: seq<Message>)
    requires WellSized(messages)
    ensures Delivered(PutMsgs(messages)) == DataOf(messages)
  {
    hide PutMsgs, Logged;
    assert PutMsgs(messages) + [] == PutMsgs(messages);
    MessagesDeliver(messages, []);
    assert Delivered([]) == [] && DataOf(messages) + [] == DataOf(messages);
  }

  /** The reply to a request about the receiver's own file brings exactly the source. */
  lemma ReplyArrives(md4: Hash, seed: int32, fileIndex: int32, basis: Option<seq<byte>>, src: seq<byte>,
                     head: SumHead, sums: seq<SumBuf>, root: nat, toks: seq<Token>)
    requires RequestOf(md4, seed, basis, head, sums)
    requires basis.Some? ==> NoCollisionWith(md4, seed, head, basis, src)
    requires FloatRoot(|src|, root) && root <= MAX_BLOCK_LEN && AllSendable(toks)
    requires var sig := Signature(md4, seed, head, sums);
             if head.count == 0 then Plain(toks, src) else sig.Valid() && sig.Tiles(src, toks, 0, |src|)
    ensures var sent := if head.count == 0 then SumSizesSqroot(|src|, root) else head;
            var index := ParseInt32(FileMessage(fileIndex, sent, toks, FileDigest(md4, seed, src)));
            index.Ok? && index.value.0 == fileIndex && ReceiveFile(index.value.1, md4, seed, basis) == Ok((src, []))
  {
    hide PutHead, PutInt32, PutTokens, SumSizesSqroot, NoCollisionWith, NoCollision, ReceiveFile, ParseInt32;
    hide SumsOf, FileDigest, Describes, FileMessage, Plain, Signature.Tiles, Signature.Valid, FloatRoot;
    var sig := Signature(md4, seed, head, sums);
    var sent := if head.count == 0 then SumSizesSqroot(|src|, root) else head;
    var message := FileMessage(fileIndex, sent, toks, FileDigest(md4, seed, src));
    MessageIndex(fileIndex, sent, toks, FileDigest(md4, seed, src), []);
    assert message + [] == message;
    if head.count == 0 {
      SumSizesDescribe(|src|, root);
      DescribesAcceptable(sent, |src|);
      WholeFileArrives(sent, toks, src, md4, seed, basis, []);
    } else {
      SigNoCollision(sig, basis, src);
      DeltaRebuildsSource(sig, src, basis.value, toks, []);
    }
  }

  /** The receiver's request and the sender's answer, on the bytes of the two connections. */
  method AskAndServe(basis: Option<seq<byte>>, src: seq<byte>, md4: Hash, seed: int32, basisRoot: nat, srcRoot: nat,
                     fileIndex: int32, serverSender: bool, cut: seq<byte> -> seq<Message>)
    returns (r: Result<Conn>)
    requires Cuts(cut)
    requires basis.Some? ==> FloatRoot(|basis.value|, basisRoot) && basisRoot <= MAX_BLOCK_LEN
    requires FloatRoot(|src|, srcRoot) && srcRoot <= MAX_BLOCK_LEN
    requires basis.Some? ==> NoCollisionWith(md4, seed, SumSizesSqroot(|basis.value|, basisRoot), basis, src)
    ensures r.Ok? <==> |src| > 0 || basis == None || basis == Some([])
    ensures r.Err? ==> r.error == Panic
    ensures r.Ok? ==>
              var index := ParseInt32(r.value.inp);
              fresh(r.value) && index.Ok? && index.value.0 == fileIndex
              && ReceiveFile(index.value.1, md4, seed, basis) == Ok((src, []))
  {
    hide PutHead, PutInt32, PutTokens, PutSumBufs, SumSizesSqroot, FloatRoot, NoCollisionWith, ParseHead, ReceiveFile;
    hide SumsOf, FileDigest, Describes, FileMessage, Plain, Signature.Tiles, Signature.Valid, RequestBytes, ParseInt32, ParseSums;
    hide Signature.NoneAccepts, RequestOf, Cuts;
    var up := new Conn([]);
    ghost var asked, wanted := Request(up, md4, seed, fileIndex, basis, basisRoot);
    RequestParses(md4, seed, fileIndex, basis, asked, wanted, []);
    assert [] + RequestBytes(fileIndex, asked, wanted) == RequestBytes(fileIndex, asked, wanted) + [];
    RequestCount(md4, seed, basis, asked, wanted);
    var down := Carried(up.out, !serverSender, cut);
    var requested := down.ReadInt32();
    ghost var out, sent := down.out, if asked.count == 0 then SumSizesSqroot(|src|, srcRoot) else asked;
    assert out == [];
    var served;
    ghost var head, sums, toks;
    served, head, sums, toks := Serve(down, md4, seed, requested.value, src, srcRoot);
    if served.Err? {
      return Err(served.error);
    }
    var message := down.out;
    assert message == FileMessage(fileIndex, sent, toks, FileDigest(md4, seed, src)) by {
      assert out + FileMessage(fileIndex, sent, toks, FileDigest(md4, seed, src))
          == FileMessage(fileIndex, sent, toks, FileDigest(md4, seed, src));
    }
    ReplyArrives(md4, seed, fileIndex, basis, src, head, sums, srcRoot, toks);
    var back := Carried(message, serverSender, cut);
    r := Ok(back);
  }

  /** One file, from request to replaced target. */
  method SyncFile(fs: FileSystem, name: string, tmpName: string, src: seq<byte>, md4: Hash, seed: int32,
                  basisRoot: nat, srcRoot: nat, fileIndex: int32, serverSender: bool, cut: seq<byte> -> seq<Message>,
                  io: Faults)
    returns (r: Result<()>)
    requires Cuts(cut)
    requires tmpName !in fs.files && tmpName != name
    requires name in fs.files ==> FloatRoot(|fs.files[name]|, basisRoot) && basisRoot <= MAX_BLOCK_LEN
    requires FloatRoot(|src|, srcRoot) && srcRoot <= MAX_BLOCK_LEN
    requires name in fs.files ==>
               NoCollisionWith(md4, seed, SumSizesSqroot(|fs.files[name]|, basisRoot), Some(fs.files[name]), src)
    modifies fs
    ensures var servable := |src| > 0 || name !in old(fs.files) || old(fs.files)[name] == [];
            && (r.Ok? <==> servable && io.createOk && io.closeOk && io.renameOk)
            && (!servable ==> r == Err(Panic))
            && fs.files == (if r.Ok? then old(fs.files)[name := src]
                            else if servable && io.createOk && io.closeOk then old(fs.files)[tmpName := src]
                            else old(fs.files))
  {
    hide SumSizesSqroot, FloatRoot, NoCollisionWith, ReceiveFile, ParseInt32, Cuts;
    var basis := if name in fs.files then Some(fs.files[name]) else None;
    var back :- AskAndServe(basis, src, md4, seed, basisRoot, srcRoot, fileIndex, serverSender, cut);
    var index := back.ReadInt32();
    r := ReceiveData(back, fs, name, tmpName, basis, md4, seed, io);
  }

  lemma DescribesAcceptable(sh: SumHead, len: nat)
    requires Describes(sh, len)
    ensures Acceptable(sh)
  {
  }

  lemma SigNoCollision(sig: Signature, basis: Option<seq<byte>>, src: seq<byte>)
    requires basis.Some? && sig.Valid() && SumsOf(sig.md4, sig.seed, sig.head, sig.sums, basis.value)
    requires NoCollisionWith(sig.md4, sig.seed, sig.head, basis, src)
    ensures NoCollision(sig, src, basis.value)
  {
    hide NoCollision, SumsOf;
    assert sig == Signature(sig.md4, sig.seed, sig.head, sig.sums);
  }
}
