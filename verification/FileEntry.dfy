/** One file-list entry on the wire: walkFn in internal/sender/flist.go, receiveFileEntry in internal/receiver/flist.go. */
module FileEntry {
  import opened Bytes
  import opened Checksum
  import opened Names

  const PATH_MAX := 4096
  const DIR_SIZE := 4096
  const S_IFDIR: int32 := 0x4000
  const S_IFCHR: int32 := 0x2000
  const S_IFBLK: int32 := 0x6000
  const S_IFREG: int32 := 0x8000
  const S_IFIFO: int32 := 0x1000
  const S_IFLNK: int32 := 0xA000
  const S_IFSOCK: int32 := 0xC000

  datatype Options = Options(uid: bool, gid: bool, devices: bool, specials: bool, links: bool, checksum: bool)

  datatype Kind = Directory | Regular | Symlink | CharDevice | BlockDevice | Fifo | Socket

  type Perm = p: int | 0 <= p < 512

  /** What the sender's walk knows of a file; `digest` is the MD4 of its content. */
  datatype Item = Item(name: Name, topDir: bool, kind: Kind, perm: Perm, size: int64, mtime: int,
                       uid: int32, gid: int32, rdev: int32, target: seq<byte>, digest: Digest)

  /** The receiver's File; the time in seconds, as `time.Unix` takes it. */
  datatype Entry = Entry(name: Name, length: int64, mtime: int64, mode: int32, uid: int32, gid: int32,
                         link: seq<byte>, rdev: int32, checksum: Digest)

  const NO_DIGEST: Digest := [0, 0, 0, 0, 0, 0, 0, 0, 0, 0, 0, 0, 0, 0, 0, 0]
  /** Go's zero time, the first of January of year 1. */
  const ZERO_TIME: int64 := -62135596800

  /** `new(File)`: what the first entry is decoded against. */
  const NO_ENTRY := Entry([], 0, ZERO_TIME, 0, 0, 0, [], 0, NO_DIGEST)

  function TypeBits(k: Kind): int32 {
    match k
    case Directory => S_IFDIR
    case Regular => S_IFREG
    case Symlink => S_IFLNK
    case CharDevice => S_IFCHR
    case BlockDevice => S_IFBLK
    case Fifo => S_IFIFO
    case Socket => S_IFSOCK
  }

  function Mode(item: Item): int32 {
    item.perm + TypeBits(item.kind)
  }

  /** `mode & S_IFMT`. */
  function TypeOf(mode: int32): int32 {
    mode / 4096 % 16 * 4096
  }

  predicate IsDev(k: Kind) {
    k == CharDevice || k == BlockDevice
  }

  predicate IsSpecial(k: Kind) {
    k == Fifo || k == Socket
  }

  /** When the sender writes the device number. */
  predicate RdevSent(o: Options, k: Kind) {
    (o.devices && IsDev(k)) || (o.specials && IsSpecial(k))
  }

  /** When the receiver reads it: the condition is a different one. */
  predicate RdevRead(o: Options, mode: int32) {
    var t := TypeOf(mode);
    o.devices && (t == S_IFCHR || t == S_IFBLK || t == S_IFIFO || t == S_IFSOCK)
  }

  // ----- encoding -----

  function Optional(cond: bool, s: seq<byte>): seq<byte> {
    if cond then s else []
  }

  /** Name, size, time and mode. */
  function PutFixed(item: Item): seq<byte> {
    PutInt32(I32(|item.name|)) + (item.name + (PutInt64(if item.kind == Directory then DIR_SIZE else item.size)
      + (PutInt32(I32(item.mtime)) + PutInt32(Mode(item)))))
  }

  function PutOwner(o: Options, item: Item): seq<byte> {
    Optional(o.uid, PutInt32(item.uid)) + Optional(o.gid, PutInt32(item.gid))
  }

  function PutLink(target: seq<byte>): seq<byte> {
    PutInt32(I32(|target|)) + target
  }

  function PutTail(o: Options, item: Item): seq<byte> {
    Optional(RdevSent(o, item.kind), PutInt32(item.rdev))
    + (Optional(o.links && item.kind == Symlink, PutLink(item.target))
       + Optional(o.checksum, if item.kind == Regular then item.digest else NO_DIGEST))
  }

  function Flags(item: Item): byte {
    if item.topDir then 0x41 else 0x40
  }

  function PutItem(o: Options, item: Item): seq<byte> {
    [Flags(item)] + (PutFixed(item) + (PutOwner(o, item) + PutTail(o, item)))
  }

  // ----- decoding -----

  predicate Bit(flags: byte, weight: nat)
    requires weight > 0
  {
    flags / weight % 2 == 1
  }

  const SAME_MODE := 2
  const SAME_RDEV := 4
  const SAME_UID := 8
  const SAME_GID := 16
  const SAME_NAME := 32
  const LONG_NAME := 64
  const SAME_TIME := 128

  function ParseByte(s: seq<byte>): Result<(byte, seq<byte>)> {
    if s == [] then Err(Eof) else Ok((s[0], s[1..]))
  }

  /** An int32 that a flag replaces by the last entry's value, and an option may leave out. */
  function ParseField(s: seq<byte>, present: bool, same: bool, last: int32): (r: Result<(int32, seq<byte>)>)
    ensures r.Ok? ==> |r.value.1| <= |s|
  {
    if !present then Ok((0, s)) else if same then Ok((last, s)) else ParseInt32(s)
  }

  function ParseTime(s: seq<byte>, same: bool, last: int64): (r: Result<(int64, seq<byte>)>)
    ensures r.Ok? ==> |r.value.1| <= |s|
  {
    if same then Ok((last, s)) else
    var (modTime, rest) :- ParseInt32(s);
    Ok((modTime, rest))
  }

  /** The bytes of a name: l1 bytes of the last name, zero-padded if it is shorter, and l2 from the stream. */
  function Inherited(last: Name, l1: nat): seq<byte> {
    if l1 <= |last| then last[..l1] else last + seq(l1 - |last|, _ => 0)
  }

  function ParseName(s: seq<byte>, flags: byte, last: Name): (r: Result<(Name, seq<byte>)>)
    ensures r.Ok? ==> |r.value.1| <= |s|
  {
    var (l1, s1) :- if Bit(flags, SAME_NAME) then ParseByte(s) else Ok((0, s));
    var (l2, s2) :- if Bit(flags, LONG_NAME) then ParseInt32(s1) else ParseByte(s1);
    if l2 >= PATH_MAX - l1 then Err(Overflow)
    else if l2 < 0 then Err(Panic)
    else
      var (b, s3) :- ParseBytes(s2, l2);
      Ok((Inherited(last, l1) + b, s3))
  }

  function ParseSized(s: seq<byte>, present: bool): (r: Result<(seq<byte>, seq<byte>)>)
    ensures r.Ok? ==> |r.value.1| <= |s|
  {
    if !present then Ok(([], s)) else
    var (length, s1) :- ParseInt32(s);
    if length < 0 then Err(Panic) else ParseBytes(s1, length)
  }

  function ParseDigest(s: seq<byte>, present: bool): (r: Result<(Digest, seq<byte>)>)
    ensures r.Ok? ==> |r.value.1| <= |s|
  {
    if !present then Ok((NO_DIGEST, s)) else ParseBytes(s, 16)
  }

  /** Name, size, time and mode. */
  function ParseFixed(s: seq<byte>, flags: byte, last: Entry): (r: Result<((Name, int64, int64, int32), seq<byte>)>)
    ensures r.Ok? ==> |r.value.1| < |s|
  {
    var (name, s1) :- ParseName(s, flags, last.name);
    var (length, s2) :- ParseInt64(s1);
    var (mtime, s3) :- ParseTime(s2, Bit(flags, SAME_TIME), last.mtime);
    var (mode, s4) :- ParseField(s3, true, Bit(flags, SAME_MODE), last.mode);
    Ok(((name, length, mtime, mode), s4))
  }

  function ParseOwner(s: seq<byte>, o: Options, flags: byte, last: Entry): (r: Result<((int32, int32), seq<byte>)>)
    ensures r.Ok? ==> |r.value.1| <= |s|
  {
    var (uid, s1) :- ParseField(s, o.uid, Bit(flags, SAME_UID), last.uid);
    var (gid, s2) :- ParseField(s1, o.gid, Bit(flags, SAME_GID), last.gid);
    Ok(((uid, gid), s2))
  }

  function ParseTail(s: seq<byte>, o: Options, flags: byte, last: Entry, mode: int32)
    : (r: Result<((int32, seq<byte>, Digest), seq<byte>)>)
    ensures r.Ok? ==> |r.value.1| <= |s|
  {
    var (rdev, s1) :- ParseField(s, RdevRead(o, mode), Bit(flags, SAME_RDEV), last.rdev);
    var (link, s2) :- ParseSized(s1, o.links && TypeOf(mode) == S_IFLNK);
    var (checksum, s3) :- ParseDigest(s2, o.checksum);
    Ok(((rdev, link, checksum), s3))
  }

  /** One entry after its flag byte; `clean` is filepath.Clean. */
  function ParseEntry(s: seq<byte>, o: Options, clean: Name -> Name, flags: byte, last: Entry): (r: Result<(Entry, seq<byte>)>)
    ensures r.Ok? ==> |r.value.1| < |s|
  {
    var (fixed, s1) :- ParseFixed(s, flags, last);
    var (owner, s2) :- ParseOwner(s1, o, flags, last);
    var (tail, s3) :- ParseTail(s2, o, flags, last, fixed.3);
    Ok((Entry(clean(fixed.0), fixed.1, fixed.2, fixed.3, owner.0, owner.1, tail.1, tail.0, tail.2), s3))
  }

  // ----- round trip -----

  /** What the receiver should know of an item; the time is cut to 32 bits. */
  function EntryOf(o: Options, item: Item): Entry {
    Entry(item.name, if item.kind == Directory then DIR_SIZE else item.size, I32(item.mtime), Mode(item),
          if o.uid then item.uid else 0, if o.gid then item.gid else 0,
          if o.links && item.kind == Symlink then item.target else [],
          if RdevSent(o, item.kind) then item.rdev else 0,
          if o.checksum && item.kind == Regular then item.digest else NO_DIGEST)
  }

  ghost predicate Listable(clean: Name -> Name, item: Item) {
    && clean(item.name) == item.name
    && |item.name| < PATH_MAX
    && |item.target| < 0x8000_0000
  }

  lemma TypeOfMode(item: Item)
    ensures TypeOf(Mode(item)) == TypeBits(item.kind)
    ensures forall o: Options :: RdevRead(o, Mode(item)) <==> o.devices && (IsDev(item.kind) || IsSpecial(item.kind))
  {
  }

  lemma FlagBits(item: Item)
    ensures Bit(Flags(item), LONG_NAME)
    ensures !Bit(Flags(item), SAME_NAME) && !Bit(Flags(item), SAME_TIME) && !Bit(Flags(item), SAME_MODE)
    ensures !Bit(Flags(item), SAME_UID) && !Bit(Flags(item), SAME_GID) && !Bit(Flags(item), SAME_RDEV)
  {
  }

  lemma ParsePutField(v: int32, present: bool, last: int32, rest: seq<byte>)
    ensures ParseField(Optional(present, PutInt32(v)) + rest, present, false, last) == Ok((if present then v else 0, rest))
  {
    hide PutInt32, ParseInt32;
    if present {
      ParsePutInt32(v, rest);
    } else {
      assert [] + rest == rest;
    }
  }

  lemma ParsePutName(item: Item, last: Name, rest: seq<byte>)
    requires |item.name| < PATH_MAX
    ensures ParseName(PutInt32(I32(|item.name|)) + (item.name + rest), Flags(item), last) == Ok((item.name, rest))
  {
    hide PutInt32, ParseInt32, Bit;
    FlagBits(item);
    ParsePutInt32(I32(|item.name|), item.name + rest);
    ParsePutBytes(item.name, rest);
    assert Inherited(last, 0) + item.name == item.name;
  }

  /** A name of PATH_MAX bytes or more is refused. */
  lemma LongNamesAreRefused(o: Options, clean: Name -> Name, item: Item, last: Entry, rest: seq<byte>)
    requires 4096 <= |item.name| < 0x8000_0000
    ensures ParseEntry(PutFixed(item) + rest, o, clean, Flags(item), last) == Err(Overflow)
  {
    hide PutInt32, ParseInt32, PutInt64, Bit;
    FlagBits(item);
    var tail := item.name + (PutInt64(if item.kind == Directory then DIR_SIZE else item.size)
      + (PutInt32(I32(item.mtime)) + PutInt32(Mode(item))));
    ConcatAssoc(PutInt32(I32(|item.name|)), tail, rest);
    ParsePutInt32(I32(|item.name|), tail + rest);
  }

  /** A negative length of a name or of a link is not caught before memory is asked for. */
  lemma NegativeLengthsPanic(v: int32, flags: byte, last: Name, rest: seq<byte>)
    requires v < 0
    ensures Bit(flags, LONG_NAME) && !Bit(flags, SAME_NAME) ==> ParseName(PutInt32(v) + rest, flags, last) == Err(Panic)
    ensures ParseSized(PutInt32(v) + rest, true) == Err(Panic)
  {
    hide PutInt32, ParseInt32, Bit;
    ParsePutInt32(v, rest);
  }

  lemma ParsePutFixed(item: Item, last: Entry, rest: seq<byte>)
    requires |item.name| < PATH_MAX
    ensures ParseFixed(PutFixed(item) + rest, Flags(item), last)
         == Ok(((item.name, if item.kind == Directory then DIR_SIZE else item.size, I32(item.mtime), Mode(item)), rest))
  {
    hide PutInt32, ParseInt32, PutInt64, ParseInt64, ParseName, Bit, Mode;
    FlagBits(item);
    var size: int64 := if item.kind == Directory then DIR_SIZE else item.size;
    var m, t, z := PutInt32(Mode(item)), PutInt32(I32(item.mtime)), PutInt64(size);
    var n := PutInt32(I32(|item.name|));
    ConcatAssoc(n, item.name + (z + (t + m)), rest);
    ConcatAssoc(item.name, z + (t + m), rest);
    ConcatAssoc(z, t + m, rest);
    ConcatAssoc(t, m, rest);
    ParsePutName(item, last.name, z + (t + (m + rest)));
    ParsePutInt64(size, t + (m + rest));
    ParsePutInt32(I32(item.mtime), m + rest);
    ParsePutInt32(Mode(item), rest);
  }

  lemma ParsePutOwner(o: Options, item: Item, last: Entry, rest: seq<byte>)
    ensures ParseOwner(PutOwner(o, item) + rest, o, Flags(item), last)
         == Ok(((if o.uid then item.uid else 0, if o.gid then item.gid else 0), rest))
  {
    hide PutInt32, ParseField, Bit, Optional;
    FlagBits(item);
    var u, g := Optional(o.uid, PutInt32(item.uid)), Optional(o.gid, PutInt32(item.gid));
    ConcatAssoc(u, g, rest);
    ParsePutField(item.uid, o.uid, last.uid, g + rest);
    ParsePutField(item.gid, o.gid, last.gid, rest);
  }

  lemma ParsePutLink(target: seq<byte>, present: bool, rest: seq<byte>)
    requires |target| < 0x8000_0000
    ensures ParseSized(Optional(present, PutLink(target)) + rest, present) == Ok((if present then target else [], rest))
  {
    hide PutInt32, ParseInt32;
    if present {
      ConcatAssoc(PutInt32(I32(|target|)), target, rest);
      ParsePutInt32(I32(|target|), target + rest);
      ParsePutBytes(target, rest);
    } else {
      assert [] + rest == rest;
    }
  }

  lemma ParsePutDigest(d: Digest, present: bool, rest: seq<byte>)
    ensures ParseDigest(Optional(present, d) + rest, present) == Ok((if present then d else NO_DIGEST, rest))
  {
    if present {
      ParsePutBytes(d, rest);
    } else {
      assert [] + rest == rest;
    }
  }

  lemma ParsePutTail(o: Options, item: Item, last: Entry, rest: seq<byte>)
    requires |item.target| < 0x8000_0000
    requires RdevSent(o, item.kind) == RdevRead(o, Mode(item))
    ensures ParseTail(PutTail(o, item) + rest, o, Flags(item), last, Mode(item))
         == Ok(((if RdevSent(o, item.kind) then item.rdev else 0,
                 if o.links && item.kind == Symlink then item.target else [],
                 if o.checksum && item.kind == Regular then item.digest else NO_DIGEST), rest))
  {
    hide PutInt32, ParseField, ParseSized, ParseDigest, Bit, Optional, PutLink, RdevSent, RdevRead, Mode;
    FlagBits(item);
    TypeOfMode(item);
    var digest: Digest := if item.kind == Regular then item.digest else NO_DIGEST;
    var r, l := Optional(RdevSent(o, item.kind), PutInt32(item.rdev)), Optional(o.links && item.kind == Symlink, PutLink(item.target));
    var d := Optional(o.checksum, digest);
    ConcatAssoc(r, l + d, rest);
    ConcatAssoc(l, d, rest);
    ParsePutField(item.rdev, RdevSent(o, item.kind), last.rdev, l + (d + rest));
    ParsePutLink(item.target, o.links && item.kind == Symlink, d + rest);
    ParsePutDigest(digest, o.checksum, rest);
  }

  /** The receiver decodes the entry the sender encoded, whatever entry came before, when both agree on the device number. */
  lemma EntryRoundTrip(o: Options, clean: Name -> Name, item: Item, last: Entry, rest: seq<byte>)
    requires Listable(clean, item)
    requires RdevSent(o, item.kind) == RdevRead(o, Mode(item))
    ensures ParseByte(PutItem(o, item) + rest).Ok? && ParseByte(PutItem(o, item) + rest).value.0 == Flags(item)
    ensures ParseEntry(ParseByte(PutItem(o, item) + rest).value.1, o, clean, Flags(item), last) == Ok((EntryOf(o, item), rest))
  {
    hide PutFixed, PutOwner, PutTail, ParseFixed, ParseOwner, ParseTail, Flags, Mode, RdevSent, RdevRead;
    EntryParts(o, item, rest);
    ParsePutFixed(item, last, PutOwner(o, item) + (PutTail(o, item) + rest));
    ParsePutOwner(o, item, last, PutTail(o, item) + rest);
    ParsePutTail(o, item, last, rest);
  }

  lemma EntryParts(o: Options, item: Item, rest: seq<byte>)
    ensures ParseByte(PutItem(o, item) + rest)
         == Ok((Flags(item), PutFixed(item) + (PutOwner(o, item) + (PutTail(o, item) + rest))))
  {
    hide PutFixed, PutOwner, PutTail, Flags;
    var f, w, t := PutFixed(item), PutOwner(o, item), PutTail(o, item);
    ConcatAssoc([Flags(item)], f + (w + t), rest);
    ConcatAssoc(f, w + t, rest);
    ConcatAssoc(w, t, rest);
    var s := [Flags(item)] + (f + (w + (t + rest)));
    assert s[0] == Flags(item) && s[1..] == f + (w + (t + rest));
  }

  /**
   * Both sides agree on the device number of a file unless it is a pipe or a socket and -D's two halves are set
   * differently; so they agree for every kind of file exactly when the halves are set alike.
   */
  lemma RdevAgreesExactly(o: Options)
    ensures forall item: Item ::
              RdevSent(o, item.kind) == RdevRead(o, Mode(item))
              <==> ((item.kind == Fifo || item.kind == Socket) ==> o.devices == o.specials)
    ensures (forall item: Item :: RdevSent(o, item.kind) == RdevRead(o, Mode(item))) <==> o.devices == o.specials
  {
    forall item: Item
      ensures RdevSent(o, item.kind) == RdevRead(o, Mode(item))
         <==> ((item.kind == Fifo || item.kind == Socket) ==> o.devices == o.specials)
    {
      TypeOfMode(item);
    }
    var fifo := Item([], false, Fifo, 0, 0, 0, 0, 0, 0, [], NO_DIGEST);
    assert o.devices != o.specials ==> RdevSent(o, fifo.kind) != RdevRead(o, Mode(fifo));
  }

  /** Where they disagree the streams come apart: the entry does not decode to itself followed by the rest. */
  lemma RdevMismatchBreaks(o: Options, clean: Name -> Name, item: Item, last: Entry, rest: seq<byte>)
    requires Listable(clean, item)
    requires RdevSent(o, item.kind) != RdevRead(o, Mode(item))
    ensures ParseEntry(ParseByte(PutItem(o, item) + rest).value.1, o, clean, Flags(item), last) != Ok((EntryOf(o, item), rest))
  {
    hide PutFixed, PutOwner, ParseFixed, ParseOwner, Flags, Mode, PutInt32, ParseInt32, RdevRead, RdevSent, Bit;
    EntryParts(o, item, rest);
    ParsePutFixed(item, last, PutOwner(o, item) + (PutTail(o, item) + rest));
    ParsePutOwner(o, item, last, PutTail(o, item) + rest);
    FlagBits(item);
    TypeOfMode(item);
    MismatchedKind(o, item);
    var s := PutTail(o, item) + rest;
    var parsed := ParseTail(s, o, Flags(item), last, Mode(item));
    if parsed.Ok? {
      TailConsumes(s, o, Flags(item), last, Mode(item));
    }
  }

  lemma MismatchedKind(o: Options, item: Item)
    requires RdevSent(o, item.kind) != RdevRead(o, Mode(item))
    ensures IsDev(item.kind) || IsSpecial(item.kind)
    ensures TypeOf(Mode(item)) != S_IFLNK
  {
    TypeOfMode(item);
  }

  /** Without a link, the tail takes four bytes for a device number and sixteen for a digest. */
  lemma TailConsumes(s: seq<byte>, o: Options, flags: byte, last: Entry, mode: int32)
    requires ParseTail(s, o, flags, last, mode).Ok? && TypeOf(mode) != S_IFLNK && !Bit(flags, SAME_RDEV)
    ensures |ParseTail(s, o, flags, last, mode).value.1|
         == |s| - (if RdevRead(o, mode) then 4 else 0) - (if o.checksum then 16 else 0)
  {
    hide RdevRead, Bit;
  }
}
