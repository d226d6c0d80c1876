/** The plain connection of internal/rsyncwire: a stream to read and a stream to write. */
module Wire {
  import opened Bytes

  class Conn {
    var inp: seq<byte>
    var out: seq<byte>

    constructor (inp: seq<byte>)
      ensures this.inp == inp && out == []
    {
      this.inp := inp;
      out := [];
    }

    method WriteInt32(v: int32)
      modifies this`out
      ensures out == old(out) + PutInt32(v)
    {
      out := out + PutInt32(v);
    }

    method Write(data: seq<byte>)
      modifies this`out
      ensures out == old(out) + data
    {
      out := out + data;
    }

    method ReadInt32() returns (r: Result<int32>)
      modifies this`inp
      ensures match ParseInt32(old(inp))
              case Ok(p) => r == Ok(p.0) && inp == p.1
              case Err(e) => r == Err(e)
    {
      if |inp| < 4 {
        inp := [];
        return Err(Eof);
      }
      r := Ok(GetInt32(inp[..4]));
      inp := inp[4..];
    }

    method ReadFull(n: nat) returns (r: Result<seq<byte>>)
      modifies this`inp
      ensures match ParseBytes(old(inp), n)
              case Ok(p) => r == Ok(p.0) && inp == p.1
              case Err(e) => r == Err(e)
    {
      if |inp| < n {
        inp := [];
        return Err(Eof);
      }
      r := Ok(inp[..n]);
      inp := inp[n..];
    }
  }
}
