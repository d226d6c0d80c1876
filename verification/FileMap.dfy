/** The sliding-window file map of internal/sender/fileio.go. */
module FileMap {
  import opened Bytes

  /** An open file whose content does not change; reads may be short. */
  class File {
    const data: seq<byte>
    var pos: nat

    constructor (data: seq<byte>)
      ensures this.data == data && pos == 0
    {
      this.data := data;
      pos := 0;
    }

    method Seek(p: nat)
      modifies this
      ensures pos == p
    {
      pos := p;
    }

    /** Reads between 1 and hi - lo bytes at the cursor, as many as it likes, or fails at the end of the file. */
    method Read(buf: array<byte>, lo: nat, hi: nat) returns (n: nat, eof: bool)
      requires lo < hi <= buf.Length
      modifies this, buf
      ensures eof <==> old(pos) >= |data|
      ensures eof ==> n == 0 && pos == old(pos)
      ensures !eof ==> 1 <= n <= hi - lo && pos == old(pos) + n <= |data|
      ensures !eof ==> forall j | lo <= j < lo + n :: buf[j] == data[old(pos) + j - lo]
      ensures forall j | 0 <= j < buf.Length && !(lo <= j < lo + n) :: buf[j] == old(buf[j])
    {
      if pos >= |data| {
        return 0, true;
      }
      n :| 1 <= n <= hi - lo && n <= |data| - pos;
      eof := false;
      forall j | lo <= j < lo + n {
        buf[j] := data[pos + j - lo];
      }
      pos := pos + n;
    }

    /** io.ReadFull: repeats short reads until n bytes are there. */
    method ReadFull(n: nat) returns (r: Result<seq<byte>>)
      modifies this
      ensures r.Ok? <==> old(pos) + n <= |data| || n == 0
      ensures r.Ok? ==> pos == old(pos) + n
      ensures r.Ok? && n > 0 ==> r.value == data[old(pos)..pos]
      ensures r.Ok? && n == 0 ==> r.value == []
      ensures r.Err? ==> r.error == Eof
    {
      var buf := new byte[n];
      var got := 0;
      while got < n
        invariant 0 <= got <= n && pos == old(pos) + got
        invariant got > 0 ==> pos <= |data|
        invariant forall j | 0 <= j < got :: buf[j] == data[old(pos) + j]
      {
        var k, eof := Read(buf, got, n);
        if eof {
          return Err(Eof);
        }
        got := got + k;
      }
      r := Ok(buf[..]);
    }
  }

  const ALIGN_BOUNDARY := 1024

  /** `((l - 1) | 1023) + 1` for l >= 1. */
  function AlignedLength(l: int): int {
    (l - 1) - (l - 1) % ALIGN_BOUNDARY + (ALIGN_BOUNDARY - 1) + 1
  }

  /** `off & 1023`. */
  function AlignedOvershoot(off: int): int {
    off % ALIGN_BOUNDARY
  }

  lemma AlignedLengthIsLeastMultiple(l: int)
    requires l >= 1
    ensures l <= AlignedLength(l) < l + ALIGN_BOUNDARY
    ensures AlignedLength(l) % ALIGN_BOUNDARY == 0
  {
  }

  /** The default window for a read size and block size. */
  function DefaultWindow(readSize: int, blkSize: int): int {
    AlignedLength(if blkSize > 0 && readSize % blkSize != 0 then readSize + blkSize - readSize % blkSize else readSize)
  }

  /** The window is the read size rounded up to whole blocks, and that to the alignment. */
  lemma WindowIsRounded(readSize: int, blkSize: int, blocks: int)
    requires readSize > 0 && blkSize > 0 && (blocks - 1) * blkSize < readSize <= blocks * blkSize
    ensures var w := DefaultWindow(readSize, blkSize);
            blocks * blkSize <= w < blocks * blkSize + 1024 && w % 1024 == 0
  {
    var q, r := readSize / blkSize, readSize % blkSize;
    assert readSize == q * blkSize + r;
    var whole := if r != 0 then readSize + blkSize - r else readSize;
    assert whole == (if r != 0 then q + 1 else q) * blkSize;
    OneMultiple(readSize, blkSize, blocks, if r != 0 then q + 1 else q);
    AlignedLengthIsLeastMultiple(whole);
  }

  lemma OneMultiple(x: int, b: int, m: int, n: int)
    requires b > 0 && (m - 1) * b < x <= m * b && (n - 1) * b < x <= n * b
    ensures m == n
  {
    assert m < n ==> m * b <= (n - 1) * b;
    assert n < m ==> n * b <= (m - 1) * b;
  }

  /** Where the window for an offset starts. */
  function WindowStart(offset: int): int {
    offset - AlignedOvershoot(offset)
  }

  /** The size of the window a request that is not cached asks for. */
  function WindowSize(defWindowSize: nat, fileSize: nat, offset: int, l: int): int {
    var start := WindowStart(offset);
    var size := if start + defWindowSize > fileSize then fileSize - start else defWindowSize;
    if size < l + AlignedOvershoot(offset) then AlignedLength(l + AlignedOvershoot(offset)) else size
  }

  /** The window lies in the file, so that reading it meets no end of file. */
  predicate ReadsInside(defWindowSize: nat, fileSize: nat, offset: int, l: int) {
    WindowStart(offset) + WindowSize(defWindowSize, fileSize, offset, l) <= fileSize
  }

  lemma RequestGrowsWindow(defWindowSize: nat, fileSize: nat, offset: int, l: int)
    requires l > 0
    ensures WindowSize(defWindowSize, fileSize, offset, l) >= l + AlignedOvershoot(offset) > 0
  {
    AlignedLengthIsLeastMultiple(l + AlignedOvershoot(offset));
  }

  class MapStruct {
    const f: File
    const fileSize: nat
    const defWindowSize: nat
    var pOffset: nat
    var pFdOffset: nat
    var pSize: nat
    var pLen: nat
    var window: array<byte>

    /** The window holds file[pOffset..pOffset+pLen], and pFdOffset is the file's cursor. */
    ghost predicate Valid()
      reads this, f, window
    {
      && fileSize == |f.data|
      && defWindowSize > 0
      && pFdOffset == f.pos
      && window.Length == pSize
      && pLen <= pSize
      && pOffset + pLen <= fileSize
      && window[..pLen] == f.data[pOffset..pOffset + pLen]
    }

    constructor (f: File, readSize: int, blkSize: int)
      requires f.pos == 0
      requires readSize > 0
      ensures Valid() && fresh(window)
      ensures this.f == f && fileSize == |f.data|
      ensures defWindowSize == DefaultWindow(readSize, blkSize) && pLen == 0
    {
      this.f := f;
      fileSize := |f.data|;
      defWindowSize := DefaultWindow(readSize, blkSize);
      pOffset, pFdOffset, pSize, pLen := 0, 0, 0, 0;
      window := new byte[0];
    }

    predicate Cached(offset: nat, l: int)
      reads this
    {
      offset >= pOffset && offset + l <= pOffset + pLen
    }

    /** Whether the request can be served from the unchanged file. */
    predicate Served(offset: nat, l: int)
      reads this
    {
      Cached(offset, l) || ReadsInside(defWindowSize, fileSize, offset, l)
    }

    /** A request that fits the default window is served exactly when it lies inside the file. */
    lemma InWindowServedExactly(offset: nat, l: int)
      requires Valid() && 0 < l && l + AlignedOvershoot(offset) <= defWindowSize
      ensures Served(offset, l) <==> offset + l <= fileSize
    {
      RequestGrowsWindow(defWindowSize, fileSize, offset, l);
    }

    /** Returns file[offset..offset+l] through the window, moving the window when needed. */
    method Ptr(offset: int, l: int32) returns (r: Result<seq<byte>>)
      requires Valid()
      modifies this, window, f
      ensures l < 0 ==> r == Err(BadLength)
      ensures l == 0 ==> r == Ok([])
      ensures l > 0 && offset < 0 ==> r == Err(BadSeek)
      ensures l > 0 && offset >= 0 ==> (r.Ok? <==> old(Served(offset, l)))
      ensures l > 0 && r.Ok? ==> offset + l <= fileSize && r.value == f.data[offset..offset + l]
      ensures r.Err? && l > 0 && offset >= 0 ==> r.error == FileChanged
      ensures r.Ok? || l <= 0 ==> Valid()
      ensures window == old(window) || fresh(window)
    {
      if l == 0 {
        return Ok([]);
      }
      if l < 0 {
        return Err(BadLength);
      }
      if offset < 0 {
        // No window holds it, and the seek to its start, which is negative too, fails.
        return Err(BadSeek);
      }
      if Cached(offset, l) {
        var data := Slice(offset - pOffset, l);
        return Ok(data);
      }
      var alignFudge := AlignedOvershoot(offset);
      RequestGrowsWindow(defWindowSize, fileSize, offset, l);
      var loaded := Load(WindowStart(offset), WindowSize(defWindowSize, fileSize, offset, l));
      if loaded.Err? {
        return Err(loaded.error);
      }
      var data := Slice(alignFudge, l);
      r := Ok(data);
    }

    method Slice(off: nat, l: nat) returns (s: seq<byte>)
      requires Valid() && off + l <= pLen
      ensures s == f.data[pOffset + off..pOffset + off + l]
    {
      s := window[off..off + l];
      SliceOfSlice(f.data, pOffset, pOffset + pLen, off, off + l);
      assert s == window[..pLen][off..off + l];
    }

    /** Brings file[windowStart..windowStart+windowSize] into the window, reusing what overlaps. */
    method Load(windowStart: nat, windowSize: nat) returns (r: Result<()>)
      requires Valid() && windowSize > 0
      requires pOffset <= windowStart ==> windowStart + windowSize > pOffset + pLen
      modifies this, window, f
      ensures r.Ok? <==> windowStart + windowSize <= fileSize
      ensures r.Ok? ==> Valid() && pOffset == windowStart && pLen == windowSize
      ensures r.Err? ==> r.error == FileChanged
      ensures window == old(window) || fresh(window)
    {
      Grow(windowSize);
      var readStart, readSize, readOffset := windowStart, windowSize, 0;
      if pOffset <= windowStart < pOffset + pLen && windowStart + windowSize >= pOffset + pLen {
        readStart := pOffset + pLen;
        readOffset := readStart - windowStart;
        readSize := windowSize - readOffset;
        KeepTail(pLen - readOffset, readOffset);
      }
      if readSize <= 0 {
        return Err(BadReadSize);
      }
      if pFdOffset != readStart {
        f.Seek(readStart);
        pFdOffset := readStart;
      }
      pOffset := windowStart;
      pLen := windowSize;
      var ok := Fill(readOffset, readSize);
      r := if ok then Ok(()) else Err(FileChanged);
    }

    /** Reallocates the window when the request is larger than any before. */
    method Grow(size: nat)
      requires Valid()
      modifies this
      ensures Valid() && window.Length >= size
      ensures pOffset == old(pOffset) && pLen == old(pLen) && pFdOffset == old(pFdOffset)
      ensures window == old(window) || fresh(window)
    {
      if size > pSize {
        var win := new byte[size];
        forall i | 0 <= i < pSize {
          win[i] := window[i];
        }
        assert forall i | 0 <= i < pLen :: win[i] == window[i];
        assert win[..pLen] == window[..pLen] == f.data[pOffset..pOffset + pLen];
        window := win;
        pSize := size;
      }
    }

    /** Moves the still useful end of the window to its front. */
    method KeepTail(off: nat, n: nat)
      requires Valid() && off + n == pLen
      modifies window
      ensures forall j | 0 <= j < n :: window[j] == f.data[pOffset + off + j]
    {
      ghost var kept := window[..pLen];
      forall i | 0 <= i < n {
        window[i] := window[off + i];
      }
      forall j | 0 <= j < n
        ensures window[j] == f.data[pOffset + off + j]
      {
        assert window[j] == kept[off + j];
      }
    }

    /** The first n bytes of the window hold the file's bytes from pOffset on. */
    ghost predicate Filled(n: nat)
      reads this, f, window
      requires n <= window.Length
    {
      n > 0 ==> pOffset + n <= |f.data| && forall j | 0 <= j < n :: window[j] == f.data[pOffset + j]
    }

    /** Reads until the window is full; fails exactly when the window reaches past the end of the file. */
    method Fill(readOffset: nat, readSize: nat) returns (ok: bool)
      requires fileSize == |f.data| && window.Length == pSize
      requires readSize > 0 && readOffset + readSize == pLen <= pSize
      requires pFdOffset == f.pos == pOffset + readOffset
      requires Filled(readOffset)
      requires defWindowSize > 0
      modifies this`pFdOffset, window, f
      ensures ok <==> pOffset + pLen <= fileSize
      ensures ok ==> Valid()
    {
      var ro, rs := readOffset, readSize;
      while rs > 0
        invariant 0 <= rs <= readSize && ro + rs == pLen && readOffset <= ro
        invariant pFdOffset == f.pos == pOffset + ro
        invariant Filled(ro)
      {
        var n, eof := f.Read(window, ro, ro + rs);
        if eof {
          return false;
        }
        pFdOffset := pFdOffset + n;
        ro, rs := ro + n, rs - n;
      }
      ok := true;
    }
  }
}
