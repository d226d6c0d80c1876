/** Message framing and the buffered demultiplexer: internal/rsyncwire/wire.go under bufio and io.ReadFull. */
module Multiplex {
  import opened Bytes

  const MSG_DATA := 0
  const MSG_ERROR_XFER := 1
  const MSG_INFO := 2
  const MSG_ERROR := 3
  const MSG_WARNING := 4
  const MSG_ERROR_SOCKET := 5
  const MSG_LOG := 6
  const MPLEX_BASE := 7
  const MAX_MESSAGE_SIZE := 256 * 1024

  datatype Message = Message(tag: byte, payload: seq<byte>)

  function OrByte(a: byte, b: byte): byte {
    ((a as bv8) | (b as bv8)) as int
  }

  lemma OrZero(a: byte)
    ensures OrByte(a, 0) == a
  {
    assert (a as bv8) | 0 == a as bv8;
  }

  /** `uint32(mplexBase+tag)<<24 | uint32(len(p))`, little endian: a length from 2^24 on spills into the tag. */
  function Header(tag: byte, len: nat): seq<byte> {
    [len % 256, len / 256 % 256, len / 65536 % 256, OrByte((MPLEX_BASE + tag) % 256, len / 0x100_0000 % 256)]
  }

  function PutMsg(m: Message): seq<byte> {
    Header(m.tag, |m.payload|) + m.payload
  }

  /** One message off the front of a stream; a length above the maximum is refused. */
  function ParseMsg(s: seq<byte>): (r: Result<(Message, seq<byte>)>)
    ensures r.Ok? ==> |r.value.1| < |s| && |r.value.0.payload| <= MAX_MESSAGE_SIZE
  {
    if |s| < 4 then Err(Eof) else
    var tag := (s[3] - MPLEX_BASE) % 256;
    var length: int := s[0] as int + 256 * (s[1] as int) + 65536 * (s[2] as int);
    if length > MAX_MESSAGE_SIZE then Err(BadLength) else
    var (payload, rest) :- ParseBytes(s[4..], length);
    Ok((Message(tag, payload), rest))
  }

  lemma HeaderLength(len: nat)
    requires len < 0x100_0000
    ensures len % 256 + 256 * (len / 256 % 256) + 65536 * (len / 65536 % 256) == len
    ensures len / 0x100_0000 == 0
  {
  }

  /** A message reads back exactly when its payload is within the maximum: longer ones are refused or misread. */
  lemma MsgRoundTrip(m: Message, rest: seq<byte>)
    ensures ParseMsg(PutMsg(m) + rest) == Ok((m, rest)) <==> |m.payload| <= MAX_MESSAGE_SIZE
  {
    hide OrByte;
    if |m.payload| <= MAX_MESSAGE_SIZE {
      var s := PutMsg(m) + rest;
      HeaderLength(|m.payload|);
      OrZero((MPLEX_BASE + m.tag) % 256);
      assert s[3] == (MPLEX_BASE + m.tag) % 256;
      assert s[4..] == m.payload + rest;
      ParsePutBytes(m.payload, rest);
    }
  }

  /** Messages that are logged and skipped. */
  predicate Logged(tag: byte) {
    tag == MSG_ERROR_XFER || tag == MSG_ERROR || tag == MSG_WARNING || tag == MSG_LOG || tag == MSG_INFO
  }

  /** The data a stream delivers before it ends or fails. */
  function Delivered(s: seq<byte>): seq<byte>
    decreases |s|
  {
    match ParseMsg(s)
    case Err(_) => []
    case Ok(p) =>
      if Logged(p.0.tag) then Delivered(p.1)
      else if p.0.tag == MSG_DATA then p.0.payload + Delivered(p.1)
      else []
  }

  function PutMsgs(ms: seq<Message>): seq<byte> {
    if ms == [] then [] else PutMsg(ms[0]) + PutMsgs(ms[1..])
  }

  function DataOf(ms: seq<Message>): seq<byte> {
    if ms == [] then [] else (if ms[0].tag == MSG_DATA then ms[0].payload else []) + DataOf(ms[1..])
  }

  /** What the peer may send in a running session: up to 256 KiB of data, errors, information, warnings or log lines. */
  predicate WellSized(ms: seq<Message>) {
    forall k | 0 <= k < |ms| :: |ms[k].payload| <= 262144 && ms[k].tag in {0, 1, 2, 3, 4, 6}
  }

  /**
   * A message on the wire, byte by byte, with whatever follows: data is delivered, what is logged is passed over,
   * and a socket error or an unknown tag ends the stream.
   */
  lemma MessageByNumber(t: byte, p: seq<byte>, rest: seq<byte>)
    requires |p| <= 262144
    ensures Delivered([|p| % 256, |p| / 256 % 256, |p| / 65536, (7 + t) % 256] + (p + rest)) ==
            if t == 0 then p + Delivered(rest)
            else if t in {1, 2, 3, 4, 6} then Delivered(rest)
            else []
  {
    hide Header, ParseMsg;
    HeaderByNumber(t, |p|);
    ConcatAssoc(Header(t, |p|), p, rest);
    MsgRoundTrip(Message(t, p), rest);
  }

  lemma HeaderByNumber(t: byte, len: nat)
    requires len <= 262144
    ensures Header(t, len) == [len % 256, len / 256 % 256, len / 65536, (7 + t) % 256]
  {
    hide OrByte;
    OrZero((MPLEX_BASE + t) % 256);
  }

  /**
   * The length has 24 bits: the rest of a longer one falls into the tag. A data message of 2^24 bytes or more, up to
   * 2^27, is read as one of its length mod 2^24, and the reader goes on inside the payload.
   */
  lemma LongDataIsCut(p: seq<byte>, rest: seq<byte>)
    requires 0x100_0000 <= |p| < 0x800_0000
    ensures var n := |p| % 0x100_0000;
            ParseMsg(PutMsg(Message(MSG_DATA, p)) + rest)
            == if n > MAX_MESSAGE_SIZE then Err(BadLength) else Ok((Message(MSG_DATA, p[..n]), p[n..] + rest))
  {
    hide Header, ParseMsg;
    var n := |p| % 0x100_0000;
    LongLength(|p|);
    LongHeader(|p|);
    ConcatAssoc(Header(MSG_DATA, |p|), p, rest);
    if n <= MAX_MESSAGE_SIZE {
      ConcatAssoc(p[..n], p[n..], rest);
      assert p[..n] + p[n..] == p;
      ParsePutBytes(p[..n], p[n..] + rest);
    }
    HeaderRead(|p| % 256, |p| / 256 % 256, |p| / 65536 % 256, MPLEX_BASE, p + rest);
  }

  lemma LongHeader(len: nat)
    requires len < 0x800_0000
    ensures Header(MSG_DATA, len) == [len % 256, len / 256 % 256, len / 65536 % 256, MPLEX_BASE]
  {
    hide OrByte;
    OrSeven(len / 0x100_0000);
  }

  /** What four header bytes announce of the bytes that follow. */
  lemma HeaderRead(b0: byte, b1: byte, b2: byte, b3: byte, tail: seq<byte>)
    ensures var length: int := b0 as int + 256 * (b1 as int) + 65536 * (b2 as int);
            ParseMsg([b0, b1, b2, b3] + tail) ==
            if length > MAX_MESSAGE_SIZE then Err(BadLength)
            else
              match ParseBytes(tail, length)
              case Ok(d) => Ok((Message((b3 - MPLEX_BASE) % 256, d.0), d.1))
              case Err(e) => Err(e)
  {
    assert ([b0, b1, b2, b3] + tail)[4..] == tail;
  }

  lemma LongLength(len: nat)
    ensures len % 256 + 256 * (len / 256 % 256) + 65536 * (len / 65536 % 256) == len % 0x100_0000
  {
    SecondByte(len);
    ThirdByte(len);
  }

  lemma SecondByte(len: nat)
    ensures len % 65536 == len % 256 + 256 * (len / 256 % 256)
  {
    var q := len / 256;
    assert len == 256 * q + len % 256;
    assert len == 65536 * (q / 256) + (256 * (q % 256) + len % 256);
  }

  lemma ThirdByte(len: nat)
    ensures len % 0x100_0000 == len % 65536 + 65536 * (len / 65536 % 256)
  {
    var q := len / 65536;
    assert len == 65536 * q + len % 65536;
    assert len == 0x100_0000 * (q / 256) + (65536 * (q % 256) + len % 65536);
  }

  /** Three bits that are all set already swallow any three bits. */
  lemma OrSeven(x: byte)
    requires x < 8
    ensures OrByte(MPLEX_BASE, x) == MPLEX_BASE
  {
    assert (7 as bv8) | (x as bv8) == 7 as bv8;
  }

  /** Any sequence of well-sized non-fatal messages delivers the concatenation of its data payloads. */
  lemma {:induction false} MessagesDeliver(ms: seq<Message>, rest: seq<byte>)
    requires WellSized(ms)
    ensures Delivered(PutMsgs(ms) + rest) == DataOf(ms) + Delivered(rest)
  {
    hide PutMsg, ParseMsg, Delivered;
    if ms == [] {
      assert PutMsgs(ms) + rest == rest;
      assert [] + Delivered(rest) == Delivered(rest);
    } else {
      ConcatAssoc(PutMsg(ms[0]), PutMsgs(ms[1..]), rest);
      MessageDelivers(ms[0], PutMsgs(ms[1..]) + rest);
      MessagesDeliver(ms[1..], rest);
      ConcatAssoc(if ms[0].tag == MSG_DATA then ms[0].payload else [], DataOf(ms[1..]), Delivered(rest));
    }
  }

  lemma MessageDelivers(m: Message, tail: seq<byte>)
    requires |m.payload| <= MAX_MESSAGE_SIZE && (m.tag == MSG_DATA || Logged(m.tag))
    ensures Delivered(PutMsg(m) + tail) == (if m.tag == MSG_DATA then m.payload else []) + Delivered(tail)
  {
    hide PutMsg, ParseMsg;
    MsgRoundTrip(m, tail);
    assert [] + Delivered(tail) == Delivered(tail);
  }

  class MultiplexWriter {
    var out: seq<byte>

    constructor ()
      ensures out == []
    {
      out := [];
    }

    method WriteMsg(tag: byte, p: seq<byte>)
      modifies this
      ensures out == old(out) + PutMsg(Message(tag, p))
    {
      var header := Header(tag, |p|);
      out := out + header;
      out := out + p;
      ConcatAssoc(old(out), header, p);
    }

    method Write(p: seq<byte>)
      modifies this
      ensures out == old(out) + PutMsg(Message(MSG_DATA, p))
    {
      WriteMsg(MSG_DATA, p);
    }
  }

  /** Reads whole messages; a Read with too small a buffer panics. */
  class MultiplexReader {
    var inp: seq<byte>

    constructor (inp: seq<byte>)
      ensures this.inp == inp
    {
      this.inp := inp;
    }

    method ReadMsg() returns (r: Result<Message>)
      modifies this
      ensures match ParseMsg(old(inp))
              case Ok(p) => r == Ok(p.0) && inp == p.1
              case Err(e) => r == Err(e) && inp == []
    {
      if |inp| < 4 {
        inp := [];
        return Err(Eof);
      }
      var tag := (inp[3] - MPLEX_BASE) % 256;
      var length: int := inp[0] as int + 256 * (inp[1] as int) + 65536 * (inp[2] as int);
      if length > MAX_MESSAGE_SIZE {
        inp := [];
        return Err(BadLength);
      }
      var rest := inp[4..];
      if |rest| < length {
        inp := [];
        return Err(Eof);
      }
      inp := rest[length..];
      r := Ok(Message(tag, rest[..length]));
    }

    /**
     * Read into a buffer of n bytes: one message's payload, or nothing for a logged message.
     * It panics exactly when the next message is data that does not fit the buffer, and fails at a socket error or an
     * unknown tag.
     */
    method Read(n: nat) returns (r: Result<seq<byte>>)
      modifies this
      ensures match ParseMsg(old(inp))
              case Err(e) => r == Err(e)
              case Ok(p) =>
                && inp == p.1
                && r == if p.0.tag in {1, 2, 3, 4, 6} then Ok([])
                        else if p.0.tag != 0 then Err(BadTag)
                        else if |p.0.payload| > n then Err(Panic)
                        else Ok(p.0.payload)
      ensures r.Ok? ==> |inp| < |old(inp)| && |r.value| <= n && r.value + Delivered(inp) == Delivered(old(inp))
      ensures r == Err(Panic) <==> var m := ParseMsg(old(inp));
                                   m.Ok? && m.value.0.tag == MSG_DATA && |m.value.0.payload| > n
      ensures r.Err? && r.error != Panic ==> Delivered(old(inp)) == []
      ensures |inp| <= |old(inp)|
    {
      var m :- ReadMsg();
      if Logged(m.tag) {
        assert [] + Delivered(inp) == Delivered(inp);
        return Ok([]);
      }
      if m.tag == MSG_ERROR_SOCKET {
        return Err(BadTag);
      }
      if m.tag != MSG_DATA {
        return Err(BadTag);
      }
      if n < |m.payload| {
        return Err(Panic);
      }
      r := Ok(m.payload);
    }
  }

  /** bufio.Reader with a 256 KiB buffer over the demultiplexer, and io.ReadFull over that. */
  class BufferedReader {
    const mux: MultiplexReader
    const size: nat
    var buf: seq<byte>
    var failed: Option<Error>

    /** What is still to be delivered. */
    function Remaining(): seq<byte>
      reads this, mux
    {
      buf + (if failed.Some? then [] else Delivered(mux.inp))
    }

    ghost predicate Valid()
      reads this
    {
      size >= MAX_MESSAGE_SIZE && failed != Some(Panic)
    }

    constructor (mux: MultiplexReader)
      ensures Valid() && this.mux == mux && Remaining() == Delivered(mux.inp)
    {
      this.mux := mux;
      size := MAX_MESSAGE_SIZE;
      buf := [];
      failed := None;
      new;
      assert [] + Delivered(mux.inp) == Delivered(mux.inp);
    }

    /** Reads at most n bytes; a large read with an empty buffer bypasses the buffer. */
    method Read(n: nat) returns (r: Result<seq<byte>>)
      requires Valid() && n > 0
      modifies this, mux
      ensures Valid()
      ensures r.Ok? ==> |r.value| <= n && r.value + Remaining() == old(Remaining())
      ensures r.Ok? && r.value == [] ==> |mux.inp| < |old(mux.inp)|
      ensures |mux.inp| <= |old(mux.inp)|
      ensures r.Err? ==> r.error != Panic && old(Remaining()) == []
    {
      ghost var before := Delivered(mux.inp);
      if buf == [] {
        if failed.Some? {
          return Err(failed.value);
        }
        assert [] + before == before;
        if n >= size {
          r := mux.Read(n);
          if r.Err? {
            failed := Some(r.error);
          } else {
            assert Remaining() == [] + Delivered(mux.inp) == Delivered(mux.inp);
          }
          return;
        }
        var filled := mux.Read(size);
        if filled.Err? {
          failed := Some(filled.error);
          return Err(filled.error);
        }
        buf := filled.value;
        assert Remaining() == before;
        if buf == [] {
          return Ok([]);
        }
      }
      var k := Min(n, |buf|);
      ghost var whole, later := buf, if failed.Some? then [] else Delivered(mux.inp);
      r := Ok(buf[..k]);
      buf := buf[k..];
      ConcatAssoc(whole[..k], whole[k..], later);
      assert whole[..k] + whole[k..] == whole;
    }

    /**
     * io.ReadFull: succeeds exactly when enough data is still to come, and then returns precisely the
     * next k bytes, however the messages were cut. The buffer-space panic is never reached.
     */
    method ReadFull(k: nat) returns (r: Result<seq<byte>>)
      requires Valid()
      modifies this, mux
      ensures Valid()
      ensures r.Ok? <==> |old(Remaining())| >= k
      ensures r.Ok? ==> |r.value| == k && r.value + Remaining() == old(Remaining())
      ensures r.Err? ==> r.error != Panic
    {
      var got: seq<byte> := [];
      assert [] + Remaining() == Remaining();
      while |got| < k
        invariant Valid() && |got| <= k
        invariant got + Remaining() == old(Remaining())
        decreases k - |got|, |mux.inp|
      {
        ghost var rem := Remaining();
        var part :- Read(k - |got|);
        ConcatAssoc(got, part, Remaining());
        got := got + part;
      }
      r := Ok(got);
    }
  }
}
