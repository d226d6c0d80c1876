/** Token replay and atomic replacement: internal/receiver/receiver.go and token.go. */
module Receiver {
  import opened Bytes
  import opened Checksum
  import opened Staging
  import opened SumHeads
  import opened Tokens
  import opened Wire

  type Parsed = Result<(seq<byte>, seq<byte>)>

  /** The bytes block `index` of the local file stands for; the index is not checked against the count. */
  function BlockData(sh: SumHead, basis: Option<seq<byte>>, index: nat): Result<seq<byte>>
    requires Acceptable(sh)
  {
    match basis
    case None => Err(NoBasis)
    case Some(data) =>
      var offset := index * sh.blockLength;
      var dataLen := if index == sh.count - 1 && sh.remainderLength != 0 then sh.remainderLength else sh.blockLength;
      if dataLen == 0 then Ok([])
      else if offset + dataLen > |data| then Err(Eof)
      else Ok(data[offset..offset + dataLen])
  }

  /**
   * A reference past the announced blocks is not refused: it stands for the bytes of the local file that a block
   * there would hold, or fails as a read past the end of the file.
   */
  lemma UnannouncedBlock(sh: SumHead, basis: seq<byte>, index: nat)
    requires Acceptable(sh) && index >= sh.count && sh.blockLength > 0
    ensures var end := (index + 1) * sh.blockLength;
            && (end <= |basis| ==> BlockData(sh, Some(basis), index) == Ok(basis[end - sh.blockLength..end]))
            && (end > |basis| ==> BlockData(sh, Some(basis), index) == Err(Eof))
    ensures BlockData(sh, None, index) == Err(NoBasis)
  {
    assert (index + 1) * sh.blockLength == index * sh.blockLength + sh.blockLength;
  }

  /** One token off the front of a stream: None ends the file. */
  function ParseToken(s: seq<byte>): (r: Result<(Option<Token>, seq<byte>)>)
    ensures r.Ok? ==> |r.value.1| < |s|
    ensures r.Ok? && r.value.0.Some? ==> Sendable(r.value.0.value)
  {
    var (token, rest) :- ParseInt32(s);
    if token == 0 then Ok((None, rest))
    else if token > 0 then
      var (data, rest) :- ParseBytes(rest, token);
      Ok((Some(Literal(data)), rest))
    else Ok((Some(Block(-(token + 1))), rest))
  }

  function TokenData(sh: SumHead, basis: Option<seq<byte>>, t: Token): Result<seq<byte>>
    requires Acceptable(sh)
  {
    match t
    case Literal(data) => Ok(data)
    case Block(index) => BlockData(sh, basis, index)
  }

  /** Replays the tokens at the front of a stream up to the end marker. */
  function ReplayStream(s: seq<byte>, sh: SumHead, basis: Option<seq<byte>>): Parsed
    requires Acceptable(sh)
    decreases |s|
  {
    var (t, rest) :- ParseToken(s);
    if t.None? then Ok(([], rest)) else
    var data :- TokenData(sh, basis, t.value);
    Append(data, ReplayStream(rest, sh, basis))
  }

  /** What a whole file message yields: its content, if the digest that follows is that of the content. */
  function ReceiveFile(s: seq<byte>, md4: Hash, seed: int32, basis: Option<seq<byte>>): (r: Parsed)
  {
    var (sh, s1) :- ParseHead(s);
    var (content, s2) :- ReplayStream(s1, sh, basis);
    var (remoteSum, rest) :- ParseBytes(s2, 16);
    if FileDigest(md4, seed, content) != remoteSum then Err(Corruption) else Ok((content, rest))
  }

  method RecvToken(c: Conn) returns (r: Result<(int32, seq<byte>)>)
    modifies c`inp
    ensures match ParseToken(old(c.inp))
            case Err(e) => r == Err(e)
            case Ok(p) =>
              && r.Ok? && c.inp == p.1
              && (p.0 == None <==> r.value.0 == 0)
              && (r.value.0 > 0 ==> p.0 == Some(Literal(r.value.1)))
              && (r.value.0 < 0 ==> p.0 == Some(Block(-(r.value.0 + 1))))
  {
    hide GetInt32;
    var token :- c.ReadInt32();
    if token <= 0 {
      return Ok((token, []));
    }
    var data :- c.ReadFull(token);
    r := Ok((token, data));
  }

  lemma ReplayStep(s: seq<byte>, sh: SumHead, basis: Option<seq<byte>>, content: seq<byte>)
    requires Acceptable(sh)
    requires ParseToken(s).Ok? && ParseToken(s).value.0.Some?
    ensures var p := ParseToken(s).value;
            Append(content, ReplayStream(s, sh, basis)) ==
            match TokenData(sh, basis, p.0.value)
            case Err(e) => Err(e)
            case Ok(data) => Append(content + data, ReplayStream(p.1, sh, basis))
  {
    hide ParseToken, TokenData;
    var p := ParseToken(s).value;
    var data := TokenData(sh, basis, p.0.value);
    if data.Ok? {
      AppendAppend(content, data.value, ReplayStream(p.1, sh, basis));
    }
  }

  /** The token loop: stages and hashes every piece. */
  method ReplayTokens(c: Conn, out: PendingFile, sh: SumHead, localFile: Option<seq<byte>>, first: seq<byte>,
                      ghost before: map<string, seq<byte>>)
    returns (r: Result<seq<byte>>, ghost content: seq<byte>)
    requires Acceptable(sh) && out.Staged(before, [])
    modifies c`inp, out.fs
    ensures out.Staged(before, content)
    ensures match ReplayStream(old(c.inp), sh, localFile)
            case Err(e) => r == Err(e)
            case Ok(p) => r == Ok(first + p.0) && content == p.0 && c.inp == p.1
  {
    hide ParseToken, BlockData;
    var hashed := first;
    content := [];
    ghost var whole := ReplayStream(c.inp, sh, localFile);
    AppendNothing(whole);
    while true
      invariant out.Staged(before, content)
      invariant hashed == first + content
      invariant Append(content, ReplayStream(c.inp, sh, localFile)) == whole
      decreases |c.inp|
    {
      ghost var s := c.inp;
      var received :- RecvToken(c);
      var token, data := received.0, received.1;
      if token == 0 {
        assert content + [] == content;
        break;
      }
      ReplayStep(s, sh, localFile, content);
      if token < 0 {
        data :- ReadBlock(sh, localFile, -(token + 1));
      }
      out.Write(data, before, content);
      hashed := hashed + data;
      content := content + data;
    }
    r := Ok(hashed);
  }

  /** `localFile.ReadAt` for a block reference. */
  method ReadBlock(sh: SumHead, localFile: Option<seq<byte>>, index: nat) returns (r: Result<seq<byte>>)
    requires Acceptable(sh)
    ensures r == BlockData(sh, localFile, index)
  {
    if localFile == None {
      return Err(NoBasis);
    }
    var offset2: nat := index * sh.blockLength;
    var dataLen := sh.blockLength;
    if index == sh.count - 1 && sh.remainderLength != 0 {
      dataLen := sh.remainderLength;
    }
    if dataLen == 0 {
      return Ok([]);
    }
    var end := offset2 + dataLen;
    if end > |localFile.value| {
      return Err(Eof);
    }
    r := Ok(localFile.value[offset2..end]);
  }

  /**
   * receive_data: for any byte stream, the target is replaced only by content whose digest was
   * received; every earlier failure leaves the whole file system as it was.
   */
  method ReceiveData(c: Conn, fs: FileSystem, name: string, tmpName: string, localFile: Option<seq<byte>>,
                     md4: Hash, seed: int32, io: Faults)
    returns (r: Result<()>)
    requires tmpName !in fs.files && tmpName != name
    modifies c`inp, fs
    ensures match ReceiveFile(old(c.inp), md4, seed, localFile)
            case Err(e) => r.Err? && fs.files == old(fs.files)
            case Ok(p) =>
              if !io.createOk || !io.closeOk then r.Err? && fs.files == old(fs.files)
              else if !io.renameOk then r == Err(RenameFailed) && fs.files == old(fs.files)[tmpName := p.0]
              else r.Ok? && fs.files == old(fs.files)[name := p.0] && c.inp == p.1
  {
    hide ParseHead, ReplayStream, FileDigest;
    var sh :- ReadFrom(c);
    if !io.createOk {
      return Err(OpenFailed);
    }
    ghost var before := fs.files;
    var out := new PendingFile(fs, name, tmpName);
    ghost var content;
    r, content := ReceiveStaged(c, out, sh, localFile, md4, seed, io, before);
    out.Cleanup(before);
  }

  /** The part of receive_data that runs under the deferred Cleanup. */
  method ReceiveStaged(c: Conn, out: PendingFile, sh: SumHead, localFile: Option<seq<byte>>, md4: Hash, seed: int32,
                       io: Faults, ghost before: map<string, seq<byte>>)
    returns (r: Result<()>, ghost content: seq<byte>)
    requires Acceptable(sh) && out.Staged(before, [])
    modifies c`inp, out, out.fs
    ensures match ReplayStream(old(c.inp), sh, localFile)
            case Err(e) => r == Err(e) && out.Staged(before, content)
            case Ok(p) =>
              if |p.1| < 16 || FileDigest(md4, seed, p.0) != p.1[..16] then r.Err? && out.Staged(before, content)
              else if !io.closeOk then r.Err? && out.open && out.fs.files == before
              else if !io.renameOk then r == Err(RenameFailed) && !out.open && out.fs.files == before[out.tmpName := p.0]
              else r.Ok? && !out.open && out.fs.files == before[out.target := p.0] && c.inp == p.1[16..]
    ensures out.tmpName !in before
  {
    hide PutInt32, ReplayStream;
    content := [];
    var replayed;
    replayed, content := ReplayTokens(c, out, sh, localFile, PutInt32(seed), before);
    if replayed.Err? {
      return Err(replayed.error), content;
    }
    var localSum := md4(replayed.value);
    var remoteSum := c.ReadFull(16);
    if remoteSum.Err? {
      return Err(remoteSum.error), content;
    }
    if localSum != remoteSum.value {
      return Err(Corruption), content;
    }
    r := out.CloseAtomicallyReplace(io, before, content);
  }
}
