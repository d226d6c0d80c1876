/** The sender's signature search: internal/sender/match.go and internal/sender/token.go. */
module Match {
  import opened Bytes
  import opened Checksum
  import opened FileMap
  import opened Greedy
  import opened Rolling
  import opened SumHeads
  import opened Sums
  import opened TagIndex
  import opened Tokens
  import opened Wire

  /** The running whole-file hash: it remembers what was written. */
  class HashState {
    var written: seq<byte>

    constructor (first: seq<byte>)
      ensures written == first
    {
      written := first;
    }

    method Write(data: seq<byte>)
      modifies this
      ensures written == old(written) + data
    {
      written := written + data;
    }
  }

  /** The bytes that end a send_token call: a block reference, the end marker, or nothing for a flush. */
  function EndToken(token: int32): seq<byte>
    requires token > -0x8000_0000
  {
    if token != -2 then PutInt32(-(token + 1)) else []
  }

  const READ_SIZE := 256 * 1024

  // ----- how much the search asks the map for -----

  /** The window, the byte behind it, and everything since the last match. */
  function Asked(b: int, size: nat, offset: nat, last: int): int {
    Min(b + 1, size - offset) + Max(offset - last, 0)
  }

  /** Whether too much has piled up since the last match; near the end it no longer matters. */
  predicate PilesUp(b: int, chunk: nat, end: int, offset: nat, last: int) {
    Max(offset - last, 0) >= b + chunk && end - offset > chunk
  }

  /** Where the last match counts as after an offset without one: what piles up is flushed to one block back. */
  function Flushed(b: int, chunk: nat, end: int, offset: nat, last: int): int {
    if PilesUp(b, chunk, end, offset, last) then offset - b else last
  }

  /** Between matches the distance to the last one stays below a block and two chunks. */
  predicate KeptClose(b: int, chunk: nat, end: int, offset: nat, last: int) {
    offset - last <= b + chunk + Max(0, chunk - (end - offset))
  }

  /** The flush rule keeps that, from one offset to the next. */
  lemma FlushKeepsClose(b: int, chunk: nat, end: int, offset: nat, last: int)
    requires b >= 0 && chunk >= 1 && KeptClose(b, chunk, end, offset, last)
    ensures KeptClose(b, chunk, end, offset + 1, Flushed(b, chunk, end, offset, last))
  {
  }

  lemma AskedIs(b: int, size: nat, offset: nat, backup: nat)
    requires b >= 0 && offset <= size
    ensures var k := Min(b, size - offset);
            Asked(b, size, offset, offset - backup) == k + (if offset + k < size then 1 else 0) + backup
  {
  }

  lemma CloseAtMatch(b: int, chunk: nat, end: int, offset: nat, last: int)
    requires b >= 0 && last >= offset
    ensures KeptClose(b, chunk, end, offset, last)
  {
  }

  /** No request is wider than two blocks and two chunks less one byte... */
  lemma AskedAtMost(b: int, chunk: nat, size: nat, lastLen: int, offset: nat, last: int)
    requires 1 <= lastLen <= b && chunk >= 2
    requires KeptClose(b, chunk, size + 1 - lastLen, offset, last)
    requires offset < size + 1 - lastLen || last >= offset
    ensures Asked(b, size, offset, last) <= 2 * b + 2 * chunk - 1
  {
  }

  /** ...and one is that wide: when no match is found from `last` on and a full last block ends the file. */
  lemma WidestIsAsked(b: int, chunk: nat, last: nat)
    requires b >= 1 && chunk >= 1
    ensures var size := last + 2 * b + 2 * chunk - 1;
            var end := size + 1 - b;
            && (forall q | last <= q < end :: Flushed(b, chunk, end, q, last) == last)
            && last < end && Asked(b, size, end - 1, last) == 2 * b + 2 * chunk - 1
  {
  }

  lemma RemainderOf(a: int, b: int, q: int)
    requires b > 0 && q * b <= a < q * b + b
    ensures a % b == a - q * b
  {
    DivUnique(a, b, q);
  }

  /** The window the search maps a file with. */
  function SearchWindow(b: int): (w: nat)
    requires b >= 0
    ensures w >= Max(3 * b, READ_SIZE)
  {
    DefaultWindow(Max(3 * b, READ_SIZE), b)
  }

  /** How much one rounding of the read size to whole blocks and to the alignment brings. */
  lemma WindowAtLeast(b: int)
    requires 1 <= b <= MAX_BLOCK_LEN
    ensures 87211 <= b <= 87381 ==> SearchWindow(b) >= 4 * b
    ensures b >= 87382 ==> SearchWindow(b) >= Max(3 * b, 263168)
    ensures b >= 87723 ==> SearchWindow(b) >= 264192
    ensures b == 87722 ==> SearchWindow(b) == 263168
    ensures b == 1 ==> SearchWindow(b) == 262144
  {
    if b >= 87382 {
      RemainderOf(3 * b, b, 3);
      AlignedLengthIsLeastMultiple(3 * b);
    } else if b >= 87211 {
      RemainderOf(READ_SIZE, b, 3);
    }
  }

  /** For every block length, every request the search can make is read inside the file. */
  ghost predicate ChunkFits(chunk: nat) {
    forall b: int, size: nat, offset: nat, l: int
      | 1 <= b <= MAX_BLOCK_LEN && 0 < l <= 2 * b + 2 * chunk - 1 && offset + l <= size ::
      ReadsInside(SearchWindow(b), size, offset, l)
  }

  /** The chunk size the window can bear is exactly 43351; 32 KiB is below, 64 KiB is not. */
  lemma ChunkSizeLimit(chunk: nat)
    ensures ChunkFits(chunk) <==> chunk <= 43351
  {
    hide DefaultWindow, SearchWindow, ReadsInside;
    if chunk <= 43351 {
      forall b: int, size: nat, offset: nat, l: int
        | 1 <= b <= MAX_BLOCK_LEN && 0 < l <= 2 * b + 2 * chunk - 1 && offset + l <= size
        ensures ReadsInside(SearchWindow(b), size, offset, l)
      {
        WindowAtLeast(b);
        NarrowIsInside(SearchWindow(b), size, offset, l);
      }
    } else {
      var size, offset, l := WideIsOutside(chunk);
      assert !ReadsInside(SearchWindow(87722), size, offset, l);
    }
  }

  lemma NarrowIsInside(w: nat, size: nat, offset: nat, l: int)
    requires 0 < l && offset + l <= size && l + ALIGN_BOUNDARY - 1 <= w
    ensures ReadsInside(w, size, offset, l)
  {
  }

  /** At a block length of 87722 the widest request at a badly aligned offset reads past the end of the file. */
  lemma WideIsOutside(chunk: nat) returns (size: nat, offset: nat, l: int)
    requires chunk > 43351
    ensures 0 < l <= 2 * 87722 + 2 * chunk - 1 && offset + l <= size
    ensures !ReadsInside(SearchWindow(87722), size, offset, l)
  {
    hide DefaultWindow, SearchWindow;
    WindowAtLeast(87722);
    l := 2 * 87722 + 2 * chunk - 1;
    offset := if (l + 1023) % ALIGN_BOUNDARY != 0 then 1023 else 1022;
    size := offset + l;
  }

  class Transfer {
    const c: Conn
    const sig: Signature
    var lastMatch: int

    constructor (c: Conn, sig: Signature)
      ensures this.c == c && this.sig == sig && lastMatch == 0
    {
      this.c := c;
      this.sig := sig;
      lastMatch := 0;
    }

    /** The map made for this signature: its window holds three blocks and 256 KiB. */
    ghost predicate Mapped(ms: MapStruct)
      reads ms, ms.f, ms.window
    {
      ms.Valid() && sig.head.blockLength >= 0 && ms.defWindowSize == SearchWindow(sig.head.blockLength)
    }

    /** One chunk of the file through the map: always within the window. */
    method Chunk(ms: MapStruct, offset: nat, n: nat) returns (chunk: seq<byte>)
      requires Mapped(ms) && 0 < n <= CHUNK_SIZE && offset + n <= |ms.f.data|
      modifies ms, ms.f, ms.window
      ensures Mapped(ms) && (ms.window == old(ms.window) || fresh(ms.window))
      ensures chunk == ms.f.data[offset..offset + n]
    {
      ms.InWindowServedExactly(offset, n);
      var r := ms.Ptr(offset, n);
      chunk := r.value;
    }

    method SimpleSendToken(ms: MapStruct, token: int32, offset: nat, n: nat)
      requires Mapped(ms) && offset + n <= |ms.f.data|
      requires token > -0x8000_0000
      modifies c`out, ms, ms.f, ms.window
      ensures Mapped(ms) && (ms.window == old(ms.window) || fresh(ms.window))
      ensures c.out == old(c.out) + PutTokens(Literals(ms.f.data[offset..offset + n])) + EndToken(token)
    {
      hide PutInt32, PutTokens, Literals, Mapped;
      ghost var src := ms.f.data;
      var l := 0;
      NoLiterals(src, offset);
      while l < n
        invariant 0 <= l <= n && (l < n ==> l % CHUNK_SIZE == 0)
        invariant Mapped(ms) && (ms.window == old(ms.window) || fresh(ms.window))
        invariant c.out == old(c.out) + PutTokens(Literals(src[offset..offset + l]))
      {
        var n1 := Min(CHUNK_SIZE, n - l);
        var chunk := Chunk(ms, offset + l, n1);
        ChunkStep(src, offset, l, n1);
        c.WriteInt32(n1);
        c.Write(chunk);
        l := l + n1;
      }
      if token != -2 {
        c.WriteInt32(-(token + 1));
      }
    }

    static lemma NoLiterals(src: seq<byte>, offset: nat)
      requires offset <= |src|
      ensures PutTokens(Literals(src[offset..offset])) == []
    {
    }

    static lemma ChunkStep(src: seq<byte>, offset: nat, l: nat, n1: nat)
      requires l % CHUNK_SIZE == 0 && 0 < n1 <= CHUNK_SIZE && offset + l + n1 <= |src|
      ensures PutTokens(Literals(src[offset..offset + l + n1]))
           == PutTokens(Literals(src[offset..offset + l])) + (PutInt32(n1) + src[offset + l..offset + l + n1])
    {
      hide PutInt32;
      var before, chunk := src[offset..offset + l], src[offset + l..offset + l + n1];
      SliceJoin(src, offset, offset + l, offset + l + n1);
      LiteralsSnoc(before, chunk);
      PutTokensConcat(Literals(before), [Literal(chunk)]);
      assert PutTokens([Literal(chunk)]) == PutToken(Literal(chunk)) + [];
    }

    /** Hashes n bytes from lastMatch on, chunk by chunk. */
    method HashRun(h: HashState, ms: MapStruct, n: nat)
      requires Mapped(ms) && 0 <= lastMatch && lastMatch + n <= |ms.f.data|
      modifies h, ms, ms.f, ms.window
      ensures Mapped(ms) && (ms.window == old(ms.window) || fresh(ms.window))
      ensures h.written == old(h.written) + ms.f.data[lastMatch..lastMatch + n]
    {
      hide Mapped;
      ghost var src, run := ms.f.data, ms.f.data[lastMatch..lastMatch + n];
      var j := 0;
      while j < n
        invariant 0 <= j
        invariant Mapped(ms) && (ms.window == old(ms.window) || fresh(ms.window))
        invariant h.written == old(h.written) + run[..Min(j, n)]
      {
        var n1 := Min(CHUNK_SIZE, n - j);
        var chunk := Chunk(ms, lastMatch + j, n1);
        RunGrows(src, lastMatch, n, j, n1);
        ConcatAssoc(old(h.written), run[..j], chunk);
        h.Write(chunk);
        j := j + CHUNK_SIZE;
      }
      assert run[..n] == run;
    }

    static lemma RunGrows(src: seq<byte>, from: nat, n: nat, j: nat, n1: nat)
      requires from + n <= |src| && j + n1 <= n
      ensures var run := src[from..from + n]; run[..j] + src[from + j..from + j + n1] == run[..j + n1]
    {
      SliceOfSlice(src, from, from + n, 0, j);
      SliceOfSlice(src, from, from + n, 0, j + n1);
      SliceJoin(src, from, from + j, from + j + n1);
    }

    /** Sends what lies between lastMatch and offset, then the token, and hashes all of it. */
    method Matched(h: HashState, ms: MapStruct, offset: nat, i: int32)
      requires Mapped(ms) && -2 <= i && 0 <= lastMatch <= offset
      requires i >= 0 ==> i < |sig.sums| && sig.sums[i].len >= 0
      requires offset + (if i >= 0 then sig.sums[i].len else 0) <= |ms.f.data|
      modifies this, c`out, h, ms, ms.f, ms.window
      ensures Mapped(ms) && (ms.window == old(ms.window) || fresh(ms.window))
      ensures lastMatch == offset + (if i >= 0 then sig.sums[i].len else 0) <= |ms.f.data|
      ensures c.out == old(c.out) + PutTokens(Literals(ms.f.data[old(lastMatch)..offset])) + EndToken(i)
      ensures h.written == old(h.written) + ms.f.data[old(lastMatch)..lastMatch]
    {
      hide PutTokens, Literals, EndToken, Mapped;
      var n := offset - lastMatch;
      var transmitAccumulated := i < 0;
      SimpleSendToken(ms, i, lastMatch, n);
      if !transmitAccumulated {
        n := n + sig.sums[i].len;
      }
      HashRun(h, ms, n);
      if !transmitAccumulated {
        lastMatch := offset + sig.sums[i].len;
      } else {
        lastMatch := offset;
      }
    }

    /** Reads the window at an offset and its checksum. */
    method ReadChunk(ms: MapStruct, offset: nat) returns (k: nat, s1: uint16, s2: uint16)
      requires sig.Parsed() && Mapped(ms) && offset <= |ms.f.data|
      modifies ms, ms.f, ms.window
      ensures Mapped(ms) && (ms.window == old(ms.window) || fresh(ms.window))
      ensures var w := sig.Window(ms.f.data, offset); k == |w| && SumsOfWindow(w, s1, s2)
    {
      hide Sum1, Sum2;
      k := sig.head.blockLength;
      var remaining := ms.fileSize - offset;
      if remaining < k {
        k := remaining;
      }
      if k > 0 {
        ms.InWindowServedExactly(offset, k);
      }
      var chunk := ms.Ptr(offset, k);
      assert chunk.value == sig.Window(ms.f.data, offset);
      var sum := Checksum1(chunk.value);
      s1 := sum % 0x1_0000;
      s2 := sum / 0x1_0000;
    }

    /**
     * Compares block i with the window w. The window's strong sum is computed only when length and weak sum agree,
     * and not again when it is known.
     */
    method TestBlock(ms: MapStruct, offset: nat, sum: uint32, i: nat, known: Option<Digest>, ghost w: seq<byte>)
      returns (accepted: bool, sum2: Option<Digest>)
      requires sig.Parsed() && Mapped(ms) && offset <= |ms.f.data| && i < |sig.sums|
      requires w == sig.Window(ms.f.data, offset) && sum == Weak(w)
      requires known.Some? ==> known.value == Strong(sig.md4, sig.seed, w)
      modifies ms, ms.f, ms.window
      ensures Mapped(ms) && (ms.window == old(ms.window) || fresh(ms.window))
      ensures accepted <==> sig.Accepts(i, w)
      ensures sum2.Some? <==> known.Some? || (sum == sig.sums[i].sum1 && |w| == sig.sums[i].len)
      ensures known.Some? ==> sum2 == known
      ensures sum2.Some? ==> sum2.value == Strong(sig.md4, sig.seed, w)
    {
      hide Weak, Strong;
      sum2 := known;
      if sum != sig.sums[i].sum1 {
        return false, sum2;
      }
      var l := sig.head.blockLength;
      if ms.fileSize - offset < l {
        l := ms.fileSize - offset;
      }
      if l != sig.sums[i].len {
        return false, sum2;
      }
      if sum2.None? {
        if l > 0 {
          ms.InWindowServedExactly(offset, l);
        }
        var buf := ms.Ptr(offset, l);
        assert buf.value == w;
        sum2 := Some(Strong(sig.md4, sig.seed, buf.value));
      }
      accepted := sum2.value[..sig.head.checksumLength] == sig.sums[i].sum2[..sig.head.checksumLength];
    }

    /** The indexed scan at one offset; it accepts a block exactly when a linear scan over all sums does. */
    method FindMatch(targets: seq<Target>, tagTable: map<uint16, nat>, ms: MapStruct, offset: nat,
                     s1: uint16, s2: uint16, ghost w: seq<byte>)
      returns (found: Option<int32>)
      requires sig.Parsed() && Index(sig.sums, targets, tagTable)
      requires Mapped(ms) && offset <= |ms.f.data|
      requires w == sig.Window(ms.f.data, offset) && SumsOfWindow(w, s1, s2)
      modifies ms, ms.f, ms.window
      ensures Mapped(ms) && (ms.window == old(ms.window) || fresh(ms.window))
      ensures found == None ==> sig.NoneAccepts(w)
      ensures found.Some? ==> 0 <= found.value && sig.Accepts(found.value, w)
    {
      hide Sum1, Sum2, Strong, Mapped, Signature.Accepts, Signature.NoneAccepts, Signature.Window, Index, Geometry;
      hide SumsOfWindow, Weak, Tag, Tag2;
      var tag := Tag2(s1, s2);
      PackedIsWeak(w, s1, s2);
      var sum: uint32 := s1 + s2 * 0x1_0000;
      var sum2 := None;
      var j := 0;
      IndexRange(targets, tagTable);
      if tag in tagTable {
        j := tagTable[tag];
        while j < |targets| && targets[j].tag == tag
          invariant tagTable[tag] <= j <= |targets|
          invariant Mapped(ms) && (ms.window == old(ms.window) || fresh(ms.window))
          invariant sum2.Some? ==> sum2.value == Strong(sig.md4, sig.seed, w)
          invariant forall x | tagTable[tag] <= x < j :: !sig.Accepts(targets[x].index, w)
        {
          var i := targets[j].index;
          var accepted;
          accepted, sum2 := TestBlock(ms, offset, sum, i, sum2, w);
          if accepted {
            return Some(i);
          }
          j := j + 1;
        }
      }
      ScanIsComplete(targets, tagTable, w, j);
      found := None;
    }

    lemma IndexRange(targets: seq<Target>, tagTable: map<uint16, nat>)
      requires sig.Parsed() && Index(sig.sums, targets, tagTable)
      ensures forall j | 0 <= j < |targets| :: 0 <= targets[j].index < |sig.sums|
      ensures forall t | t in tagTable :: tagTable[t] < |targets|
    {
    }

    static lemma PackedIsWeak(w: seq<byte>, s1: uint16, s2: uint16)
      requires SumsOfWindow(w, s1, s2)
      ensures 0 <= s1 + s2 * 0x1_0000 == Weak(w) && Tag2(s1, s2) == Tag(Weak(w))
    {
      hide Sum1, Sum2;
      Unpack(s1, s2);
    }

    static lemma Unpack(lo: uint16, hi: uint16)
      ensures (lo + hi * 0x1_0000) % 0x1_0000 == lo && (lo + hi * 0x1_0000) / 0x1_0000 == hi
    {
    }

    lemma ScanIsComplete(targets: seq<Target>, tagTable: map<uint16, nat>, w: seq<byte>, stop: nat)
      requires sig.Parsed() && Index(sig.sums, targets, tagTable)
      requires var tag := Tag(Weak(w));
               tag in tagTable ==>
                 && tagTable[tag] <= stop <= |targets|
                 && (stop == |targets| || targets[stop].tag != tag)
                 && forall x | tagTable[tag] <= x < stop :: !sig.Accepts(targets[x].index, w)
      ensures sig.NoneAccepts(w)
    {
      hide Weak, Strong, Tag, Geometry;
      var tag := Tag(Weak(w));
      forall i: nat | i < |sig.sums|
        ensures !sig.Accepts(i, w)
      {
        var x := TargetFor(sig.sums, targets, i);
        assert x < |targets| && targets[x].tag == Tag(sig.sums[i].sum1);
      }
    }

    static lemma TargetFor(sums: seq<SumBuf>, targets: seq<Target>, i: nat) returns (x: nat)
      requires |sums| <= 0x7FFF_FFFF && TargetsOf(sums, targets) && i < |sums|
      ensures x < |targets| && targets[x].index == i && targets[x].tag == Tag(sums[i].sum1)
    {
      hide Tag;
      assert TargetOf(sums, i) in targets;
      x :| 0 <= x < |targets| && targets[x] == TargetOf(sums, i);
    }

    /** Reads the bytes that leave and enter the window and rolls the sums on. */
    method RollAt(ms: MapStruct, offset: nat, backup: nat, k: nat, s1: uint16, s2: uint16, ghost w: seq<byte>)
      returns (r: Result<(nat, uint16, uint16)>)
      requires sig.Valid() && Mapped(ms) && offset <= |ms.f.data|
      requires backup <= offset
      requires Asked(sig.head.blockLength, |ms.f.data|, offset, offset - backup)
            <= 2 * sig.head.blockLength + 2 * CHUNK_SIZE - 1
      requires |ms.f.data| == 0 ==> backup == 0
      requires w == sig.Window(ms.f.data, offset) && k == |w| && SumsOfWindow(w, s1, s2)
      requires |ms.f.data| > 0 ==> offset < |ms.f.data|
      modifies ms, ms.f, ms.window
      ensures Mapped(ms) && (ms.window == old(ms.window) || fresh(ms.window))
      ensures r.Ok? <==> |ms.f.data| > 0
      ensures r.Err? ==> r.error == Panic
      ensures r.Ok? ==> var w' := sig.Window(ms.f.data, offset + 1);
                        r.value.0 == |w'| && SumsOfWindow(w', r.value.1, r.value.2)
    {
      hide Sum1, Sum2, SumsOfWindow, Slide, Mapped, Asked, Signature.Valid, Signature.Window;
      ghost var src := ms.f.data;
      MappedSize(ms);
      BlockLengthRange();
      WindowStarts(src, offset);
      AskedIs(sig.head.blockLength, |src|, offset, backup);
      var more := offset + k < ms.fileSize;
      var mmore := if more then 1 else 0;
      var got := Fetch(ms, offset - backup, k + mmore + backup);
      var update := got[backup..];
      DropSlice(src, offset - backup, offset + k + mmore, backup);
      if |update| == 0 {
        return Err(Panic);
      }
      var newest := if more then Some(update[k]) else None;
      WindowSlides(src, offset, newest);
      var k', s1', s2' := Roll(w, k, s1, s2, update[0], newest);
      r := Ok((k', s1', s2'));
    }

    lemma WindowStarts(src: seq<byte>, offset: nat)
      requires sig.Valid() && offset <= |src|
      ensures |sig.Window(src, offset)| == Min(sig.head.blockLength, |src| - offset)
      ensures offset < |src| ==> sig.Window(src, offset) != [] && sig.Window(src, offset)[0] == src[offset]
    {
    }

    /** What the map gives for a request of the search. */
    method Fetch(ms: MapStruct, offset: nat, l: nat) returns (data: seq<byte>)
      requires sig.Valid() && Mapped(ms) && offset + l <= |ms.f.data|
      requires l <= 2 * sig.head.blockLength + 2 * CHUNK_SIZE - 1
      modifies ms, ms.f, ms.window
      ensures Mapped(ms) && (ms.window == old(ms.window) || fresh(ms.window))
      ensures data == ms.f.data[offset..offset + l]
    {
      hide SearchWindow, Geometry;
      RequestFits(ms, offset, l);
      var got := ms.Ptr(offset, l);
      data := got.value;
    }

    /** No request of the search outgrows the window, whatever the block length. */
    lemma RequestFits(ms: MapStruct, offset: nat, l: nat)
      requires sig.Valid() && Mapped(ms) && offset + l <= |ms.f.data|
      requires l <= 2 * sig.head.blockLength + 2 * CHUNK_SIZE - 1
      ensures l > 0 ==> ms.Served(offset, l)
    {
      if l > 0 {
        ms.InWindowServedExactly(offset, l);
      }
    }

    lemma WindowSlides(src: seq<byte>, offset: nat, newest: Option<byte>)
      requires sig.Valid() && offset < |src|
      requires var k := Min(sig.head.blockLength, |src| - offset);
               newest == if offset + k < |src| then Some(src[offset + k]) else None
      ensures sig.Window(src, offset) != []
      ensures Slide(sig.Window(src, offset), newest) == sig.Window(src, offset + 1)
    {
    }

    /** Everything before lastMatch is on the wire as tokens, and hashed. */
    ghost predicate Sent(h: HashState, head: seq<byte>, src: seq<byte>, toks: seq<Token>)
      reads this, c, h
      requires sig.Valid()
    {
      && 0 <= lastMatch <= |src|
      && AllSendable(toks)
      && c.out == head + PutTokens(toks)
      && sig.Tiles(src, toks, 0, lastMatch)
      && h.written == PutInt32(sig.seed) + src[..lastMatch]
    }

    /** Flushes the literals up to offset, and a block reference when i >= 0. */
    method Emit(h: HashState, ms: MapStruct, offset: nat, i: int32, ghost head: seq<byte>, ghost toks: seq<Token>)
      returns (ghost sent: seq<Token>)
      requires sig.Valid() && Mapped(ms) && (i >= 0 || i == -2) && lastMatch <= offset <= |ms.f.data|
      requires Sent(h, head, ms.f.data, toks) && sig.NoMatchIn(ms.f.data, lastMatch, offset)
      requires i >= 0 ==> sig.Accepts(i, sig.Window(ms.f.data, offset))
      modifies this, c`out, h, ms, ms.f, ms.window
      ensures Mapped(ms) && (ms.window == old(ms.window) || fresh(ms.window))
      ensures Sent(h, head, ms.f.data, sent)
      ensures lastMatch == offset + (if i >= 0 then sig.sums[i].len else 0)
    {
      hide Mapped, PutTokens, Literals, EndToken, PutInt32;
      hide Signature.Tiles, Signature.NoMatchIn, Signature.Accepts, Signature.Window;
      ghost var src, from := ms.f.data, lastMatch;
      if i >= 0 {
        AcceptedFits(src, offset, i);
      }
      sent := SentTokens(src, toks, from, offset, i);
      Matched(h, ms, offset, i);
      SliceJoin(src, 0, from, lastMatch);
      ConcatAssoc(PutInt32(sig.seed), src[..from], src[from..lastMatch]);
      assert src[0..from] == src[..from] && src[0..lastMatch] == src[..lastMatch];
    }

    /** The token list after a flush or a match still tiles the source. */
    lemma SentTokens(src: seq<byte>, toks: seq<Token>, from: nat, offset: nat, i: int32) returns (sent: seq<Token>)
      requires sig.Valid() && (i >= 0 || i == -2) && from <= offset <= |src|
      requires AllSendable(toks) && sig.Tiles(src, toks, 0, from) && sig.NoMatchIn(src, from, offset)
      requires i >= 0 ==> sig.Accepts(i, sig.Window(src, offset))
      ensures AllSendable(sent)
      ensures PutTokens(sent) == PutTokens(toks) + PutTokens(Literals(src[from..offset])) + EndToken(i)
      ensures var next := offset + (if i >= 0 then sig.sums[i].len else 0);
              next <= |src| && sig.Tiles(src, sent, 0, next)
    {
      hide PutInt32, PutTokens, Literals, EndToken;
      hide Signature.NoMatchIn, Signature.Valid, Signature.Tiles, Signature.Accepts, Signature.Window;
      sig.LiteralsTile(src, from, offset);
      var lits := Literals(src[from..offset]);
      sig.TilesConcat(src, toks, lits, 0, from, offset);
      PutTokensConcat(toks, lits);
      sent := toks + lits;
      if i >= 0 {
        AcceptedFits(src, offset, i);
        BlockTile(src, offset, i);
        sig.TilesConcat(src, sent, [Block(i)], 0, offset, offset + sig.sums[i].len);
        PutTokensConcat(sent, [Block(i)]);
        sent := sent + [Block(i)];
      } else {
        NoEndToken(PutTokens(sent));
      }
    }

    static lemma NoEndToken(s: seq<byte>)
      ensures s + EndToken(-2) == s
    {
    }

    /** One accepted block tiles its own window. */
    lemma BlockTile(src: seq<byte>, offset: nat, i: int32)
      requires sig.Valid() && offset <= |src| && i >= 0 && sig.Accepts(i, sig.Window(src, offset))
      ensures offset + sig.sums[i].len <= |src|
      ensures sig.Tiles(src, [Block(i)], offset, offset + sig.sums[i].len)
      ensures AllSendable([Block(i)]) && PutTokens([Block(i)]) == EndToken(i)
    {
      hide PutInt32, Weak, Strong;
      var block := [Block(i)];
      var next := offset + sig.sums[i].len;
      assert block[0] == Block(i) && block[1..] == [];
      assert sig.Tiles(src, block[1..], next, next);
      assert PutTokens(block) == PutToken(Block(i)) + [];
    }

    lemma MappedSize(ms: MapStruct)
      requires Mapped(ms)
      ensures ms.fileSize == |ms.f.data|
    {
    }

    lemma BlockLengthRange()
      requires sig.Valid() || sig.Parsed()
      ensures sig.Parsed() && 0 <= sig.head.blockLength <= MAX_BLOCK_LEN
      ensures sig.Valid() <==> sig.head.blockLength > 0
      ensures |sig.sums| > 0
    {
    }

    lemma AcceptedFits(src: seq<byte>, offset: nat, i: nat)
      requires sig.Valid() && offset <= |src| && sig.Accepts(i, sig.Window(src, offset))
      ensures i < |sig.sums| && 1 <= sig.sums[i].len && offset + sig.sums[i].len <= |src|
    {
      hide Weak, Strong;
      sig.BlockLens(i);
    }

    lemma SearchedOneMore(src: seq<byte>, lo: int, offset: nat)
      requires sig.Valid() && 0 <= lo <= offset < |src|
      requires sig.NoMatchIn(src, lo, offset) && sig.NoneAccepts(sig.Window(src, offset))
      ensures sig.NoMatchIn(src, lo, offset + 1)
    {
      hide Signature.NoneAccepts, Signature.Window;
    }

    lemma Begin(h: HashState, head: seq<byte>, src: seq<byte>)
      requires sig.Valid() && lastMatch == 0 && c.out == head && h.written == PutInt32(sig.seed)
      ensures Sent(h, head, src, [])
    {
      assert src[..0] == [];
    }

    /** Once the search stops, no block is accepted anywhere in the rest of the file. */
    lemma NothingLeft(src: seq<byte>, offset: nat)
      requires sig.Valid() && 0 <= lastMatch && offset <= |src| && sig.NoMatchIn(src, lastMatch, offset)
      requires offset >= |src| + 1 - sig.LastLen()
      ensures sig.NoMatchIn(src, lastMatch, |src|)
    {
      hide Signature.NoneAccepts, Signature.Window;
      forall q | lastMatch <= q < |src|
        ensures sig.NoneAccepts(sig.Window(src, q))
      {
        if q >= offset {
          sig.NoMatchNearEnd(src, q);
        }
      }
    }

    /** The final `matched(…, -1)` and the whole-file digest. */
    method Finish(h: HashState, ms: MapStruct, ghost head: seq<byte>, ghost toks: seq<Token>)
      returns (ghost sent: seq<Token>)
      requires sig.Valid() && Mapped(ms) && Sent(h, head, ms.f.data, toks)
      requires sig.NoMatchIn(ms.f.data, lastMatch, |ms.f.data|)
      modifies this, c`out, h, ms, ms.f, ms.window
      ensures AllSendable(sent) && sig.Tiles(ms.f.data, sent, 0, |ms.f.data|)
      ensures c.out == head + PutTokens(sent) + PutInt32(0) + FileDigest(sig.md4, sig.seed, ms.f.data)
    {
      hide Mapped, PutTokens, PutInt32, Signature.Tiles, Signature.NoMatchIn, Literals;
      ghost var src, from := ms.f.data, lastMatch;
      MappedSize(ms);
      sent := SentTokens(src, toks, from, |src|, -2);
      NoEndToken(PutTokens(toks) + PutTokens(Literals(src[from..])));
      assert src[from..|src|] == src[from..];
      Matched(h, ms, ms.fileSize, -1);
      assert h.written == PutInt32(sig.seed) + src by {
        ConcatAssoc(PutInt32(sig.seed), src[..from], src[from..]);
        assert src[..from] + src[from..] == src;
      }
      var sum := sig.md4(h.written);
      c.Write(sum);
    }

    /** Emits a match and re-reads the window one byte before its end, as hash_search continues from there. */
    method TakeMatch(h: HashState, ms: MapStruct, offset: nat, i: int32, ghost head: seq<byte>, ghost toks: seq<Token>)
      returns (next: nat, k: nat, s1: uint16, s2: uint16, ghost sent: seq<Token>)
      requires sig.Valid() && Mapped(ms) && i >= 0 && lastMatch <= offset <= |ms.f.data|
      requires Sent(h, head, ms.f.data, toks) && sig.NoMatchIn(ms.f.data, lastMatch, offset)
      requires sig.Accepts(i, sig.Window(ms.f.data, offset))
      modifies this, c`out, h, ms, ms.f, ms.window
      ensures Mapped(ms) && (ms.window == old(ms.window) || fresh(ms.window))
      ensures Sent(h, head, ms.f.data, sent)
      ensures offset <= next && lastMatch == next + 1 <= |ms.f.data|
      ensures var w := sig.Window(ms.f.data, next); k == |w| && SumsOfWindow(w, s1, s2)
      ensures sig.NoMatchIn(ms.f.data, lastMatch, next) && sig.NoMatchIn(ms.f.data, lastMatch, lastMatch)
      ensures sig.NoMatchIn(ms.f.data, lastMatch, next + 1)
    {
      hide Mapped, Sent, SumsOfWindow, Signature.Accepts, Signature.NoMatchIn, Signature.Window, Signature.Valid;
      AcceptedFits(ms.f.data, offset, i);
      BlockLengthRange();
      sent := Emit(h, ms, offset, i, head, toks);
      next := offset + sig.sums[i].len - 1;
      k, s1, s2 := ReadChunk(ms, next);
      NothingSearched(ms.f.data, lastMatch);
    }

    /** Emits the literals up to one block before the offset, so that the backup cannot outgrow the window. */
    method Flush(h: HashState, ms: MapStruct, offset: nat, ghost head: seq<byte>, ghost toks: seq<Token>)
      returns (ghost sent: seq<Token>)
      requires sig.Valid() && Mapped(ms) && offset < |ms.f.data|
      requires 0 <= lastMatch && offset - lastMatch >= sig.head.blockLength + CHUNK_SIZE
      requires Sent(h, head, ms.f.data, toks) && sig.NoMatchIn(ms.f.data, lastMatch, offset + 1)
      modifies this, c`out, h, ms, ms.f, ms.window
      ensures Mapped(ms) && (ms.window == old(ms.window) || fresh(ms.window))
      ensures Sent(h, head, ms.f.data, sent)
      ensures lastMatch == offset - sig.head.blockLength && sig.NoMatchIn(ms.f.data, lastMatch, offset + 1)
    {
      hide Mapped, Sent, Signature.NoneAccepts, Signature.Window;
      sent := Emit(h, ms, offset - sig.head.blockLength, -2, head, toks);
    }

    /** `mapFile` for this signature. */
    method MapFile(f: File, readSize: int32) returns (ms: MapStruct)
      requires sig.Parsed() && f.pos == 0
      requires readSize == Max(3 * sig.head.blockLength, READ_SIZE)
      ensures fresh(ms) && fresh(ms.window) && ms.f == f && Mapped(ms)
    {
      ms := new MapStruct(f, readSize, sig.head.blockLength);
    }

    /** `fi.Size() + 1 - head.Sums[len(head.Sums)-1].Len`. */
    method LastOffset(size: nat) returns (end: int)
      requires sig.Valid()
      ensures end == size + 1 - sig.LastLen() <= size
      ensures 1 <= size + 1 - end <= sig.head.blockLength
    {
      sig.BlockLens(0);
      end := size + 1 - sig.sums[|sig.sums| - 1].len;
    }

    /** The rest of the loop body: roll the sums on by one byte, and flush when too much has piled up. */
    method Advance(h: HashState, ms: MapStruct, offset: nat, end: int, k: nat, s1: uint16, s2: uint16,
                   ghost head: seq<byte>, ghost toks: seq<Token>)
      returns (r: Result<()>, k': nat, s1': uint16, s2': uint16, ghost sent: seq<Token>)
      requires sig.Valid() && Mapped(ms) && Sent(h, head, ms.f.data, toks)
      requires 0 <= lastMatch <= offset + 1 <= |ms.f.data| || (|ms.f.data| == 0 && lastMatch == offset == 0)
      requires var w := sig.Window(ms.f.data, offset); k == |w| && SumsOfWindow(w, s1, s2)
      requires |ms.f.data| > 0 ==> sig.NoMatchIn(ms.f.data, lastMatch, offset + 1)
      requires offset == 0 || lastMatch > offset || offset < end
      requires KeptClose(sig.head.blockLength, CHUNK_SIZE, end, offset, lastMatch)
      requires 1 <= |ms.f.data| + 1 - end <= sig.head.blockLength
      modifies this, c`out, h, ms, ms.f, ms.window
      ensures Mapped(ms) && (ms.window == old(ms.window) || fresh(ms.window))
      ensures r.Ok? <==> |ms.f.data| > 0
      ensures r.Err? ==> r.error == Panic
      ensures r.Ok? ==>
                && Sent(h, head, ms.f.data, sent)
                && 0 <= lastMatch <= offset + 1 && sig.NoMatchIn(ms.f.data, lastMatch, offset + 1)
                && lastMatch == Flushed(sig.head.blockLength, CHUNK_SIZE, end, offset, old(lastMatch))
                && KeptClose(sig.head.blockLength, CHUNK_SIZE, end, offset + 1, lastMatch)
                && var w := sig.Window(ms.f.data, offset + 1); k' == |w| && SumsOfWindow(w, s1', s2')
    {
      hide Mapped, Sent, SumsOfWindow, Signature.NoMatchIn, Signature.Window, Signature.Valid;
      BlockLengthRange();
      sent := toks;
      k', s1', s2' := k, s1, s2;
      var backup := Max(offset - lastMatch, 0);
      if offset == 0 || lastMatch > offset || offset < end {
        AskedAtMost(sig.head.blockLength, CHUNK_SIZE, |ms.f.data|, |ms.f.data| + 1 - end, offset, Min(lastMatch, offset));
      }
      FlushKeepsClose(sig.head.blockLength, CHUNK_SIZE, end, offset, lastMatch);
      var rolled := RollAt(ms, offset, backup, k, s1, s2, sig.Window(ms.f.data, offset));
      if rolled.Err? {
        return Err(rolled.error), k', s1', s2', sent;
      }
      k', s1', s2' := rolled.value.0, rolled.value.1, rolled.value.2;
      if backup >= sig.head.blockLength + CHUNK_SIZE && end - offset > CHUNK_SIZE {
        sent := Flush(h, ms, offset, head, toks);
      }
      r := Ok(());
    }

    lemma NothingSearched(src: seq<byte>, at: nat)
      requires sig.Valid() && at <= |src|
      ensures sig.NoMatchIn(src, at, at) && (at > 0 ==> sig.NoMatchIn(src, at, at - 1))
    {
    }

    static lemma RollNothing(oldest: byte)
      ensures U32(U32(0 - SignExtend(oldest)) + SignExtend(oldest)) == 0
    {
      hide SignExtend;
    }

    /**
     * The search when the block length is 0, so that every window is empty. A block that is accepted for nothing
     * sends it to offset -1, where the map fails; otherwise it rolls on to the end of the file and past it.
     */
    method SearchEmptyWindows(h: HashState, ms: MapStruct, targets: seq<Target>, tagTable: map<uint16, nat>)
      returns (r: Result<()>)
      requires sig.Parsed() && sig.head.blockLength == 0 && Index(sig.sums, targets, tagTable)
      requires Mapped(ms) && lastMatch == 0
      modifies this, c`out, h, ms, ms.f, ms.window
      ensures r == Err(if sig.NoneAccepts([]) then Panic else BadSeek)
    {
      hide Index, SumsOfWindow, Geometry, SearchWindow, Mapped, SignExtend;
      hide Signature.Accepts, Signature.Window, Signature.NoneAccepts;
      MappedSize(ms);
      NoWindow(ms.f.data, 0);
      var offset := 0;
      var end := ms.fileSize + 1;
      var k, s1, s2 := ReadChunk(ms, offset);
      while true
        invariant Mapped(ms) && (ms.window == old(ms.window) || fresh(ms.window))
        invariant 0 <= lastMatch <= offset <= ms.fileSize
        invariant k == 0 && SumsOfWindow([], s1, s2)
        invariant KeptClose(0, CHUNK_SIZE, end, offset, lastMatch)
        invariant offset > 0 ==> sig.NoneAccepts([])
        decreases ms.fileSize - offset
      {
        NoWindow(ms.f.data, offset);
        var found := FindMatch(targets, tagTable, ms, offset, s1, s2, []);
        if found.Some? {
          EmptyBlock(found.value);
          Matched(h, ms, offset, found.value);
          r := PastTheStart(ms, offset + sig.sums[found.value].len - 1);
          return;
        }
        r, s1, s2 := RollEmpty(ms, offset, Max(offset - lastMatch, 0), s1, s2);
        if r.Err? {
          return;
        }
        FlushKeepsClose(0, CHUNK_SIZE, end, offset, lastMatch);
        if PilesUp(0, CHUNK_SIZE, end, offset, lastMatch) {
          Matched(h, ms, offset, -2);
        }
        offset := offset + 1;
      }
    }

    /** A request before the start of the file fails. */
    method PastTheStart(ms: MapStruct, offset: int) returns (r: Result<()>)
      requires Mapped(ms) && offset < 0
      modifies ms, ms.f, ms.window
      ensures r == Err(BadSeek)
    {
      var update := ms.Ptr(offset, 1);
      r := Err(update.error);
    }

    /** One step with an empty window: the byte that leaves it is the one that enters. */
    method RollEmpty(ms: MapStruct, offset: nat, backup: nat, s1: uint16, s2: uint16)
      returns (r: Result<()>, s1': uint16, s2': uint16)
      requires sig.Parsed() && sig.head.blockLength == 0 && Mapped(ms)
      requires backup <= offset <= |ms.f.data| && backup < 2 * CHUNK_SIZE && SumsOfWindow([], s1, s2)
      modifies ms, ms.f, ms.window
      ensures Mapped(ms) && (ms.window == old(ms.window) || fresh(ms.window))
      ensures r == if offset < |ms.f.data| then Ok(()) else Err(Panic)
      ensures SumsOfWindow([], s1', s2')
    {
      hide SignExtend, Geometry, SumsOfWindow, SearchWindow;
      SumsOfNothing(s1, s2);
      s1', s2' := s1, s2;
      var mmore := if offset < ms.fileSize then 1 else 0;
      if mmore + backup > 0 {
        ms.InWindowServedExactly(offset - backup, mmore + backup);
      }
      var got := ms.Ptr(offset - backup, mmore + backup);
      var update := got.value[backup..];
      if |update| == 0 {
        return Err(Panic), s1, s2;
      }
      RollNothing(update[0]);
      var t1: uint32 := U32(s1 - SignExtend(update[0]));
      t1 := U32(t1 + SignExtend(update[0]));
      var t2: uint32 := U32(U32(s2 - 0 * SignExtend(update[0])) + t1);
      r, s1', s2' := Ok(()), t1 % 0x1_0000, t2 % 0x1_0000;
      SumsOfNothing(s1', s2');
    }

    lemma NoWindow(src: seq<byte>, offset: nat)
      requires sig.head.blockLength == 0 && offset <= |src|
      ensures sig.Window(src, offset) == []
    {
    }

    static lemma SumsOfNothing(s1: int, s2: int)
      ensures SumsOfWindow([], s1, s2) <==> s1 == 0 && s2 == 0
    {
    }

    lemma EmptyBlock(i: nat)
      requires sig.Parsed() && sig.head.blockLength == 0 && sig.Accepts(i, [])
      ensures i < |sig.sums| && sig.sums[i].len == 0 && !sig.NoneAccepts([])
    {
    }

    /** The loop of hash_search: everything up to lastMatch is sent, and no match is missed on the way to the end. */
    method SearchLoop(h: HashState, ms: MapStruct, targets: seq<Target>, tagTable: map<uint16, nat>, end: int,
                      ghost head: seq<byte>)
      returns (r: Result<()>, ghost toks: seq<Token>)
      requires sig.Valid() && Index(sig.sums, targets, tagTable) && lastMatch == 0
      requires Mapped(ms) && Sent(h, head, ms.f.data, [])
      requires end == |ms.f.data| + 1 - sig.LastLen() && 1 <= |ms.f.data| + 1 - end <= sig.head.blockLength
      modifies this, c`out, h, ms, ms.f, ms.window
      ensures Mapped(ms) && (ms.window == old(ms.window) || fresh(ms.window))
      ensures r == if |ms.f.data| > 0 then Ok(()) else Err(Panic)
      ensures r.Ok? ==> Sent(h, head, ms.f.data, toks) && 0 <= lastMatch && sig.NoMatchIn(ms.f.data, lastMatch, |ms.f.data|)
    {
      hide SumsOfWindow, Mapped, Sent, Index, KeptClose, Flushed;
      hide Signature.Window, Signature.NoMatchIn, Signature.Accepts, Signature.NoneAccepts, Signature.LastLen, Signature.Valid;
      BlockLengthRange();
      MappedSize(ms);
      ghost var src := ms.f.data;
      var B := sig.head.blockLength;
      toks := [];
      var offset := 0;
      var k, s1, s2 := ReadChunk(ms, offset);
      NothingSearched(src, 0);
      CloseAtMatch(B, CHUNK_SIZE, end, 0, 0);
      while true
        invariant Mapped(ms) && Sent(h, head, src, toks) && (ms.window == old(ms.window) || fresh(ms.window))
        invariant lastMatch <= offset <= |src|
        invariant offset == 0 || offset < end
        invariant offset < |src| || |src| == 0
        invariant var w := sig.Window(src, offset); k == |w| && SumsOfWindow(w, s1, s2)
        invariant 0 <= lastMatch && sig.NoMatchIn(src, lastMatch, offset)
        invariant KeptClose(B, CHUNK_SIZE, end, offset, lastMatch)
        decreases |src| - offset
      {
        var found := FindMatch(targets, tagTable, ms, offset, s1, s2, sig.Window(src, offset));
        if found.Some? {
          offset, k, s1, s2, toks := TakeMatch(h, ms, offset, found.value, head, toks);
          CloseAtMatch(B, CHUNK_SIZE, end, offset, lastMatch);
          if offset >= end {
            NothingLeft(src, lastMatch);
            break;
          }
        } else if |src| > 0 {
          SearchedOneMore(src, lastMatch, offset);
        }
        r, k, s1, s2, toks := Advance(h, ms, offset, end, k, s1, s2, head, toks);
        if r.Err? {
          return;
        }
        offset := offset + 1;
        if offset >= end {
          NothingLeft(src, offset);
          break;
        }
      }
      r := Ok(());
    }

    /** hash_search: the fast search over a whole file. */
    method HashSearch(targets: seq<Target>, tagTable: map<uint16, nat>, fileIndex: int32, src: seq<byte>)
      returns (r: Result<()>, ghost toks: seq<Token>)
      requires sig.Parsed() && Index(sig.sums, targets, tagTable) && lastMatch == 0
      modifies this, c`out
      ensures r.Ok? <==> |src| > 0 && sig.head.blockLength > 0
      ensures r.Err? ==> r.error == if sig.head.blockLength > 0 || sig.NoneAccepts([]) then Panic else BadSeek
      ensures r.Ok? ==>
                && sig.Valid() && AllSendable(toks) && sig.Tiles(src, toks, 0, |src|)
                && c.out == old(c.out) + PutInt32(fileIndex) + PutHead(sig.head) + PutTokens(toks) + PutInt32(0)
                            + FileDigest(sig.md4, sig.seed, src)
    {
      hide PutInt32, PutHead, PutTokens, Mapped, Sent, Index;
      hide Signature.Tiles, Signature.NoMatchIn, Signature.NoneAccepts, Signature.LastLen, Signature.Valid, Signature.Parsed;
      BlockLengthRange();
      var f := new File(src);
      var readSize: int32 := Max(3 * sig.head.blockLength, READ_SIZE);
      var ms := MapFile(f, readSize);
      c.WriteInt32(fileIndex);
      WriteTo(sig.head, c);
      var h := new HashState(PutInt32(sig.seed));
      ghost var head := c.out;
      toks := [];
      if sig.head.blockLength == 0 {
        r := SearchEmptyWindows(h, ms, targets, tagTable);
        return;
      }
      Begin(h, head, src);
      var end := LastOffset(|src|);
      r, toks := SearchLoop(h, ms, targets, tagTable, end, head);
      if r.Err? {
        return;
      }
      toks := Finish(h, ms, head, toks);
    }
  }
}
