/** The protocol's message steps are what the byte-level code does with one request and one reply. */
module ProtocolBytes {
  import opened Bytes
  import opened Checksum
  import opened Delta
  import opened Greedy
  import opened Protocol
  import opened ProtocolSafety
  import opened Receiver
  import opened Sender
  import opened Session
  import opened SumHeads
  import opened Sums
  import opened Tokens
  import opened Wire

  /** The bytes of a request. */
  ghost function AskBytes(m: Up): seq<byte>
    requires m.Ask? && m.i < 0x8000_0000
  {
    RequestBytes(m.i, m.head, m.sums)
  }

  /** The bytes of a reply. */
  ghost function FileBytes(m: Down): seq<byte>
    requires m.File? && m.i < 0x8000_0000 && AllSendable(m.toks)
  {
    FileMessage(m.i, m.head, m.toks, m.digest)
  }

  /** The bytes of a request are read back as that request, with whatever follows left on the connection. */
  lemma AskStepIsRequest(cfg: Config, basis: Option<seq<byte>>, m: Up, rest: seq<byte>)
    requires m.Ask? && m.i < 0x8000_0000 && RequestFor(cfg, basis, m.head, m.sums)
    ensures Acceptable(m.head)
    ensures var index := ParseInt32(AskBytes(m) + rest);
            && index.Ok? && index.value.0 == m.i
            && var head := ParseHead(index.value.1);
            head.Ok? && head.value.0 == m.head && ParseSums(head.value.1, m.head, 0, 0) == Ok((m.sums, rest))
  {
    hide RequestOf, RequestBytes, ParseInt32, ParseHead, ParseSums;
    RequestParses(cfg.md4, cfg.seed, m.i, basis, m.head, m.sums, rest);
  }

  /** The receiver's step on a file message is receive_data on its bytes, with whatever follows left on the connection. */
  lemma FileStepIsReceiveData(cfg: Config, basis: Option<seq<byte>>, m: Down, rest: seq<byte>)
    requires m.File? && m.i < 0x8000_0000 && Acceptable(m.head) && AllSendable(m.toks)
    ensures var index := ParseInt32(FileBytes(m) + rest);
            && index.Ok? && index.value.0 == m.i
            && var r := ReceiveFile(index.value.1, cfg.md4, cfg.seed, basis);
            match Outcome(cfg, basis, m)
            case Some(content) => r == Ok((content, rest))
            case None => r.Err?
  {
    hide ReceiveFile, PutHead, PutTokens, PutInt32, Replay, FileDigest, FileMessage, ParseInt32;
    MessageIndex(m.i, m.head, m.toks, m.digest, rest);
    MessageReceived(m.head, m.toks, m.digest, rest, cfg.md4, cfg.seed, basis);
  }

  /** What the generator writes for a file it does not skip is a request the protocol's step allows. */
  method AskStep(ghost cfg: Config, ghost s: State, c: Conn, md4: Hash, seed: int32, gi: nat, basis: Option<seq<byte>>,
                 root: nat)
    returns (ghost a: Action)
    requires WellFormed(cfg) && cfg.md4 == md4 && cfg.seed == seed
    requires |s.dest| == |cfg.sources| < 0x8000_0000 && s.gi == gi < |cfg.sources| && s.dest[gi] == basis
    requires !Skips(cfg, gi, basis)
    requires basis.Some? ==> FloatRoot(|basis.value|, root) && root <= MAX_BLOCK_LEN
    modifies c`out
    ensures a.GenAsk? && Enabled(cfg, s, a)
    ensures c.out == old(c.out) + AskBytes(Ask(gi, a.head, a.sums))
  {
    hide RequestOf, RequestBytes, FloatRoot, SumSizesSqroot, SumsOf, Skips;
    ghost var head, sums := Request(c, md4, seed, gi, basis, root);
    a := GenAsk(head, sums);
  }

  /**
   * What the sender does with the bytes of a request is the protocol's step: it answers with the bytes of a reply
   * the step allows and leaves the next request on the connection, or it panics where the step crashes.
   */
  method ServeStep(ghost cfg: Config, ghost s: State, c: Conn, md4: Hash, seed: int32, sources: seq<seq<byte>>, root: nat,
                   ghost rest: seq<byte>)
    returns (r: Result<()>, ghost a: Action)
    requires WellFormed(cfg) && cfg.md4 == md4 && cfg.seed == seed && cfg.sources == sources
    requires !s.sndFailed && |s.dest| == |cfg.sources| < 0x8000_0000 && s.sphase < 2
    requires s.up != [] && s.up[0].Ask? && GoodAsk(cfg, s.dest, s.up[0]) && c.inp == AskBytes(s.up[0]) + rest
    requires FloatRoot(|sources[s.up[0].i]|, root) && root <= MAX_BLOCK_LEN
    modifies c
    ensures Enabled(cfg, s, a)
    ensures if r.Ok? then a.SndServe? else a.SndCrash? && r.error == Panic
    ensures r.Ok? ==>
              var m := File(s.up[0].i, a.head, a.toks, FileDigest(md4, seed, sources[s.up[0].i]));
              && Apply(cfg, s, a).down == s.down + [m] && AllSendable(m.toks)
              && c.inp == rest && c.out == old(c.out) + FileBytes(m)
  {
    hide RequestOf, RequestBytes, ParseInt32, ParseHead, ParseSums, FloatRoot, FileMessage, FileDigest, SumSizesSqroot;
    hide Plain, Signature.Tiles, Signature.Valid, Signature.NoneAccepts;
    ghost var m := s.up[0];
    AskStepIsRequest(cfg, cfg.initial[m.i], m, rest);
    RequestLength(cfg, cfg.initial[m.i], m.head, m.sums);
    var index := c.ReadInt32();
    var src := sources[index.value];
    ghost var head, sums, toks;
    r, head, sums, toks := Serve(c, md4, seed, index.value, src, root);
    SumSizesDescribe(|src|, root);
    DescribesAcceptable(SumSizesSqroot(|src|, root), |src|);
    a := if r.Err? then SndCrash else SndServe(if m.sums == [] then SumSizesSqroot(|src|, root) else m.head, toks);
  }

  lemma RequestLength(cfg: Config, basis: Option<seq<byte>>, head: SumHead, sums: seq<SumBuf>)
    requires RequestFor(cfg, basis, head, sums)
    ensures |sums| == head.count && (sums != [] ==> head.blockLength >= 1)
  {
    hide SumsOf;
    if basis.Some? && SumsOf(cfg.md4, cfg.seed, head, sums, basis.value) {
      SumsOfEmpty(cfg.md4, cfg.seed, head, sums, basis.value);
    }
  }
}
