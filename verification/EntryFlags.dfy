/**
 * Entries as any peer may write them: with the flags that take a field, or the start of the name, from the entry
 * before. The flags have the numbers of consts.go.
 */
module EntryFlags {
  import opened Bytes
  import opened Checksum
  import opened FileEntry
  import opened FileList
  import opened Names
  import opened SumHeads

  /** Which flags a peer sets; `shared` is how much of the last name it does not repeat. */
  datatype Choice = Choice(top: bool, mode: bool, rdev: bool, uid: bool, gid: bool, name: bool, long: bool, time: bool,
                           shared: byte)

  function One(b: bool): (r: nat)
    ensures r < 2
  {
    if b then 1 else 0
  }

  function FlagByte(c: Choice): byte {
    One(c.top) + 2 * One(c.mode) + 4 * One(c.rdev) + 8 * One(c.uid) + 16 * One(c.gid) + 32 * One(c.name)
    + 64 * One(c.long) + 128 * One(c.time)
  }

  /** Character and block devices, named pipes and sockets have a device number on the wire. */
  predicate HasNumber(mode: int32) {
    mode / 4096 % 16 in {2, 6, 1, 12}
  }

  predicate IsLink(mode: int32) {
    mode / 4096 % 16 == 10
  }

  /** A flag is only set where the entry agrees with the last one. */
  ghost predicate Honest(c: Choice, e: Entry, last: Entry) {
    && (c.mode ==> e.mode == last.mode) && (c.rdev ==> e.rdev == last.rdev)
    && (c.uid ==> e.uid == last.uid) && (c.gid ==> e.gid == last.gid) && (c.time ==> e.mtime == last.mtime)
    && (if c.name then c.shared <= |e.name| && c.shared <= |last.name| && e.name[..c.shared] == last.name[..c.shared]
        else c.shared == 0)
  }

  /** The entry fits the options and the wire. */
  ghost predicate Writable(o: Options, c: Choice, e: Entry) {
    && |e.name| < 4096 && c.shared <= |e.name| && (c.long || |e.name| - c.shared <= 255)
    && (c.time || -0x8000_0000 <= e.mtime < 0x8000_0000)
    && (o.uid || e.uid == 0) && (o.gid || e.gid == 0)
    && ((o.devices && HasNumber(e.mode)) || e.rdev == 0)
    && (if o.links && IsLink(e.mode) then |e.link| < 0x8000_0000 else e.link == [])
    && (o.checksum || e.checksum == NO_DIGEST)
  }

  function PutShort(long: bool, n: nat): seq<byte>
    requires n < (if long then 0x8000_0000 else 256)
  {
    if long then PutInt32(n) else [n]
  }

  ghost function PutNameOf(c: Choice, name: Name): seq<byte>
    requires |name| < 4096 && c.shared <= |name| && (c.long || |name| - c.shared <= 255)
  {
    Optional(c.name, [c.shared]) + (PutShort(c.long, |name| - c.shared) + name[c.shared..])
  }

  /** What follows the status byte. */
  ghost function PutEntry(o: Options, c: Choice, e: Entry): seq<byte>
    requires Writable(o, c, e)
  {
    PutNameOf(c, e.name)
    + (PutInt64(e.length)
    + (Optional(!c.time, PutInt32(I32(e.mtime)))
    + (Optional(!c.mode, PutInt32(e.mode))
    + (Optional(o.uid && !c.uid, PutInt32(e.uid))
    + (Optional(o.gid && !c.gid, PutInt32(e.gid))
    + (Optional(o.devices && HasNumber(e.mode) && !c.rdev, PutInt32(e.rdev))
    + (Optional(o.links && IsLink(e.mode), PutInt32(I32(|e.link|)) + e.link)
    + Optional(o.checksum, e.checksum))))))))
  }

  lemma FlagMeanings(c: Choice)
    ensures Bit(FlagByte(c), SAME_MODE) == c.mode && Bit(FlagByte(c), SAME_RDEV) == c.rdev
    ensures Bit(FlagByte(c), SAME_UID) == c.uid && Bit(FlagByte(c), SAME_GID) == c.gid
    ensures Bit(FlagByte(c), SAME_NAME) == c.name && Bit(FlagByte(c), LONG_NAME) == c.long
    ensures Bit(FlagByte(c), SAME_TIME) == c.time
  {
    hide Bit;
    BitsAre(FlagByte(c), One(c.top), c.mode, c.rdev, c.uid, c.gid, c.name, c.long, c.time);
  }

  lemma BitsAre(flags: byte, low: nat, b1: bool, b2: bool, b3: bool, b4: bool, b5: bool, b6: bool, b7: bool)
    requires low < 2
    requires flags == low + 2 * One(b1) + 4 * One(b2) + 8 * One(b3) + 16 * One(b4) + 32 * One(b5) + 64 * One(b6) + 128 * One(b7)
    ensures Bit(flags, 2) == b1 && Bit(flags, 4) == b2 && Bit(flags, 8) == b3 && Bit(flags, 16) == b4
    ensures Bit(flags, 32) == b5 && Bit(flags, 64) == b6 && Bit(flags, 128) == b7
  {
    hide Bit, One;
    var a6 := One(b6) + 2 * One(b7);
    var a5 := One(b5) + 2 * a6;
    var a4 := One(b4) + 2 * a5;
    var a3 := One(b3) + 2 * a4;
    var a2 := One(b2) + 2 * a3;
    var l2 := BitOver(flags, low, 2, b1, a2);
    var l3 := BitOver(flags, l2, 4, b2, a3);
    var l4 := BitOver(flags, l3, 8, b3, a4);
    var l5 := BitOver(flags, l4, 16, b4, a5);
    var l6 := BitOver(flags, l5, 32, b5, a6);
    var l7 := BitOver(flags, l6, 64, b6, One(b7));
    var l8 := BitOver(flags, l7, 128, b7, 0);
  }

  /** The flag of a weight, the flags below it and the flags above it. */
  lemma BitOver(flags: byte, low: nat, weight: nat, on: bool, above: nat) returns (next: nat)
    requires low < weight && flags == low + weight * (One(on) + 2 * above)
    ensures Bit(flags, weight) == on
    ensures next < 2 * weight && flags == next + 2 * weight * above
  {
    DivUnique(flags, weight, One(on) + 2 * above);
    next := low + weight * One(on);
    assert weight * (One(on) + 2 * above) == weight * One(on) + 2 * weight * above;
  }

  lemma KindsOfMode(o: Options, mode: int32)
    ensures RdevRead(o, mode) <==> o.devices && HasNumber(mode)
    ensures TypeOf(mode) == S_IFLNK <==> IsLink(mode)
  {
  }

  // ----- names -----

  /**
   * A name is what it shares with the last one, position by position, then what travelled; where the last name is
   * too short, it holds zero bytes.
   */
  lemma NameIsShared(flags: byte, last: Name, shared: byte, tail: Name, rest: seq<byte>) returns (name: Name)
    requires Bit(flags, SAME_NAME) || shared == 0
    requires |tail| < 4096 - shared && (Bit(flags, LONG_NAME) || |tail| <= 255)
    ensures var s := Optional(Bit(flags, SAME_NAME), [shared]) + (PutShort(Bit(flags, LONG_NAME), |tail|) + (tail + rest));
            ParseName(s, flags, last) == Ok((name, rest))
    ensures |name| == shared + |tail|
    ensures forall k | 0 <= k < shared + |tail| ::
              name[k] == if k >= shared then tail[k - shared] else if k < |last| then last[k] else 0
  {
    hide Bit, PutInt32, ParseInt32;
    var n, s2 := PutShort(Bit(flags, LONG_NAME), |tail|), tail + rest;
    if Bit(flags, SAME_NAME) {
      assert ([shared] + (n + s2))[1..] == n + s2;
    } else {
      assert [] + (n + s2) == n + s2;
    }
    if Bit(flags, LONG_NAME) {
      ParsePutInt32(|tail|, s2);
    } else {
      assert ([|tail|] + s2)[1..] == s2;
    }
    ParsePutBytes(tail, rest);
    name := Inherited(last, shared) + tail;
  }

  lemma NameReads(c: Choice, name: Name, last: Name, rest: seq<byte>)
    requires |name| < 4096 && c.shared <= |name| && (c.long || |name| - c.shared <= 255)
    requires if c.name then c.shared <= |last| && name[..c.shared] == last[..c.shared] else c.shared == 0
    ensures ParseName(PutNameOf(c, name) + rest, FlagByte(c), last) == Ok((name, rest))
  {
    hide Bit, PutShort, PutNameOf, ParseName, FlagByte, Optional;
    FlagMeanings(c);
    NamePieces(c, name, rest);
    var r := NameIsShared(FlagByte(c), last, c.shared, name[c.shared..], rest);
    SharedName(name, last, c.shared, name[c.shared..], r);
  }

  lemma NamePieces(c: Choice, name: Name, rest: seq<byte>)
    requires |name| < 4096 && c.shared <= |name| && (c.long || |name| - c.shared <= 255)
    ensures var tail := name[c.shared..];
            PutNameOf(c, name) + rest == Optional(c.name, [c.shared]) + (PutShort(c.long, |tail|) + (tail + rest))
  {
    hide PutShort, Optional;
    var tail := name[c.shared..];
    ConcatAssoc(Optional(c.name, [c.shared]), PutShort(c.long, |tail|) + tail, rest);
    ConcatAssoc(PutShort(c.long, |tail|), tail, rest);
  }

  /** What is put together from the last name's start and the rest of a name that shares it is that name. */
  lemma SharedName(name: Name, last: Name, shared: nat, tail: Name, r: Name)
    requires shared <= |name| && shared <= |last| && name[..shared] == last[..shared] && tail == name[shared..]
    requires |r| == shared + |tail|
    requires forall k | 0 <= k < shared + |tail| ::
               r[k] == if k >= shared then tail[k - shared] else if k < |last| then last[k] else 0
    ensures r == name
  {
    forall k | 0 <= k < |name|
      ensures r[k] == name[k]
    {
      if k < shared {
        assert name[..shared][k] == last[..shared][k];
      }
    }
  }

  // ----- fields -----

  lemma FieldReads(v: int32, present: bool, same: bool, last: int32, rest: seq<byte>)
    requires (present || v == 0) && (same ==> v == last)
    ensures ParseField(Optional(present && !same, PutInt32(v)) + rest, present, same, last) == Ok((v, rest))
  {
    hide PutInt32, ParseInt32;
    ParsePutInt32(v, rest);
    assert [] + rest == rest;
  }

  lemma TimeReads(v: int64, same: bool, last: int64, rest: seq<byte>)
    requires if same then v == last else -0x8000_0000 <= v < 0x8000_0000
    ensures ParseTime(Optional(!same, PutInt32(I32(v))) + rest, same, last) == Ok((v, rest))
  {
    hide PutInt32, ParseInt32;
    ParsePutInt32(I32(v), rest);
    assert [] + rest == rest;
  }

  lemma FixedReads(o: Options, c: Choice, e: Entry, last: Entry, rest: seq<byte>)
    requires Honest(c, e, last) && Writable(o, c, e)
    ensures ParseFixed(PutNameOf(c, e.name) + (PutInt64(e.length) + (Optional(!c.time, PutInt32(I32(e.mtime)))
                         + (Optional(!c.mode, PutInt32(e.mode)) + rest))), FlagByte(c), last)
         == Ok(((e.name, e.length, e.mtime, e.mode), rest))
  {
    hide PutInt32, PutInt64, ParseInt64, ParseName, ParseTime, ParseField, PutNameOf, Bit, FlagByte, Optional;
    FlagMeanings(c);
    var m := Optional(!c.mode, PutInt32(e.mode)) + rest;
    var t := Optional(!c.time, PutInt32(I32(e.mtime))) + m;
    NameReads(c, e.name, last.name, PutInt64(e.length) + t);
    ParsePutInt64(e.length, t);
    TimeReads(e.mtime, c.time, last.mtime, m);
    FieldReads(e.mode, true, c.mode, last.mode, rest);
  }

  lemma OwnerReads(o: Options, c: Choice, e: Entry, last: Entry, rest: seq<byte>)
    requires Honest(c, e, last) && Writable(o, c, e)
    ensures ParseOwner(Optional(o.uid && !c.uid, PutInt32(e.uid)) + (Optional(o.gid && !c.gid, PutInt32(e.gid)) + rest),
                       o, FlagByte(c), last) == Ok(((e.uid, e.gid), rest))
  {
    hide PutInt32, ParseField, Bit, FlagByte, Optional;
    FlagMeanings(c);
    FieldReads(e.uid, o.uid, c.uid, last.uid, Optional(o.gid && !c.gid, PutInt32(e.gid)) + rest);
    FieldReads(e.gid, o.gid, c.gid, last.gid, rest);
  }

  lemma TailReads(o: Options, c: Choice, e: Entry, last: Entry, rest: seq<byte>)
    requires Honest(c, e, last) && Writable(o, c, e)
    ensures ParseTail(Optional(o.devices && HasNumber(e.mode) && !c.rdev, PutInt32(e.rdev))
                      + (Optional(o.links && IsLink(e.mode), PutInt32(I32(|e.link|)) + e.link)
                         + (Optional(o.checksum, e.checksum) + rest)), o, FlagByte(c), last, e.mode)
         == Ok(((e.rdev, e.link, e.checksum), rest))
  {
    hide PutInt32, ParseField, ParseSized, ParseDigest, Bit, FlagByte, Optional, HasNumber, IsLink, RdevRead, TypeOf;
    FlagMeanings(c);
    KindsOfMode(o, e.mode);
    var d := Optional(o.checksum, e.checksum) + rest;
    var l := Optional(o.links && IsLink(e.mode), PutInt32(I32(|e.link|)) + e.link) + d;
    FieldReads(e.rdev, o.devices && HasNumber(e.mode), c.rdev, last.rdev, l);
    ParsePutLink(e.link, o.links && IsLink(e.mode), d);
    ParsePutDigest(e.checksum, o.checksum, rest);
  }

  /**
   * Whatever flags an honest peer sets, and whatever it shares with the last entry, the receiver reads exactly the
   * entry and stops where it ends.
   */
  lemma FlaggedEntryReads(o: Options, clean: Name -> Name, c: Choice, e: Entry, last: Entry, rest: seq<byte>)
    requires Honest(c, e, last) && Writable(o, c, e) && clean(e.name) == e.name
    ensures ParseEntry(PutEntry(o, c, e) + rest, o, clean, FlagByte(c), last) == Ok((e, rest))
  {
    hide ParseFixed, ParseOwner, ParseTail, PutNameOf, PutInt64, PutInt32, Optional, FlagByte, HasNumber, IsLink;
    hide PutEntry, Honest, Writable;
    EntryPieces(o, c, e, rest);
    var tail := RestOfTail(o, c, e, rest);
    var owner := RestOfOwner(o, c, e, tail);
    FixedReads(o, c, e, last, owner);
    OwnerReads(o, c, e, last, tail);
    TailReads(o, c, e, last, rest);
  }

  ghost function RestOfTail(o: Options, c: Choice, e: Entry, rest: seq<byte>): seq<byte>
    requires Writable(o, c, e)
  {
    Optional(o.devices && HasNumber(e.mode) && !c.rdev, PutInt32(e.rdev))
    + (Optional(o.links && IsLink(e.mode), PutInt32(I32(|e.link|)) + e.link) + (Optional(o.checksum, e.checksum) + rest))
  }

  ghost function RestOfOwner(o: Options, c: Choice, e: Entry, rest: seq<byte>): seq<byte>
    requires Writable(o, c, e)
  {
    Optional(o.uid && !c.uid, PutInt32(e.uid)) + (Optional(o.gid && !c.gid, PutInt32(e.gid)) + rest)
  }

  lemma EntryPieces(o: Options, c: Choice, e: Entry, rest: seq<byte>)
    requires Writable(o, c, e)
    ensures PutEntry(o, c, e) + rest ==
            PutNameOf(c, e.name) + (PutInt64(e.length) + (Optional(!c.time, PutInt32(I32(e.mtime)))
              + (Optional(!c.mode, PutInt32(e.mode)) + RestOfOwner(o, c, e, RestOfTail(o, c, e, rest)))))
  {
    hide PutNameOf, PutInt64, PutInt32, Optional, HasNumber, IsLink;
    NinePieces(PutNameOf(c, e.name), PutInt64(e.length), Optional(!c.time, PutInt32(I32(e.mtime))),
               Optional(!c.mode, PutInt32(e.mode)), Optional(o.uid && !c.uid, PutInt32(e.uid)),
               Optional(o.gid && !c.gid, PutInt32(e.gid)),
               Optional(o.devices && HasNumber(e.mode) && !c.rdev, PutInt32(e.rdev)),
               Optional(o.links && IsLink(e.mode), PutInt32(I32(|e.link|)) + e.link),
               Optional(o.checksum, e.checksum), rest);
  }

  lemma NinePieces(n: seq<byte>, z: seq<byte>, t: seq<byte>, m: seq<byte>, u: seq<byte>, g: seq<byte>, r: seq<byte>,
                   l: seq<byte>, d: seq<byte>, rest: seq<byte>)
    ensures n + (z + (t + (m + (u + (g + (r + (l + d))))))) + rest == n + (z + (t + (m + (u + (g + (r + (l + (d + rest))))))))
  {
    ConcatAssoc(n, z + (t + (m + (u + (g + (r + (l + d)))))), rest);
    ConcatAssoc(z, t + (m + (u + (g + (r + (l + d))))), rest);
    ConcatAssoc(t, m + (u + (g + (r + (l + d)))), rest);
    ConcatAssoc(m, u + (g + (r + (l + d))), rest);
    ConcatAssoc(u, g + (r + (l + d)), rest);
    ConcatAssoc(g, r + (l + d), rest);
    ConcatAssoc(r, l + d, rest);
    ConcatAssoc(l, d, rest);
  }

  /** The first entry has nothing before it: what it takes from there is zero, and Go's zero time for the time. */
  lemma FirstEntryReads(o: Options, clean: Name -> Name, c: Choice, e: Entry, rest: seq<byte>)
    requires c.shared == 0 && Writable(o, c, e) && clean(e.name) == e.name
    requires (c.mode ==> e.mode == 0) && (c.rdev ==> e.rdev == 0) && (c.uid ==> e.uid == 0) && (c.gid ==> e.gid == 0)
    requires c.time ==> e.mtime == -62135596800
    ensures ParseEntry(PutEntry(o, c, e) + rest, o, clean, FlagByte(c), NO_ENTRY) == Ok((e, rest))
  {
    hide PutEntry, ParseEntry, FlagByte, Writable;
    FlaggedEntryReads(o, clean, c, e, NO_ENTRY, rest);
  }

  // ----- whole lists -----

  /** Every entry is honest about the one before it, and sets some flag: a zero byte would end the list. */
  ghost predicate WritableList(o: Options, clean: Name -> Name, choices: seq<Choice>, entries: seq<Entry>, last: Entry) {
    && |choices| == |entries|
    && (entries != [] ==>
          && FlagByte(choices[0]) != 0 && clean(entries[0].name) == entries[0].name
          && Honest(choices[0], entries[0], last) && Writable(o, choices[0], entries[0])
          && WritableList(o, clean, choices[1..], entries[1..], entries[0]))
  }

  ghost function PutEntries(o: Options, clean: Name -> Name, choices: seq<Choice>, entries: seq<Entry>, last: Entry): seq<byte>
    requires WritableList(o, clean, choices, entries, last)
  {
    if entries == [] then [0] else
    [FlagByte(choices[0])] + (PutEntry(o, choices[0], entries[0]) + PutEntries(o, clean, choices[1..], entries[1..], entries[0]))
  }

  /** The receiver reads any such list: every entry, in order, each with what it shares with the one before. */
  lemma {:induction false} FlaggedListReads(o: Options, clean: Name -> Name, choices: seq<Choice>, entries: seq<Entry>,
                                            last: Entry, rest: seq<byte>)
    requires WritableList(o, clean, choices, entries, last)
    ensures ParseEntries(PutEntries(o, clean, choices, entries, last) + rest, o, clean, last) == Ok((entries, rest))
    decreases |entries|
  {
    hide PutEntry, ParseEntry, FlagByte, Honest, Writable;
    if entries == [] {
      EndOfItems(rest);
    } else {
      var flags := FlagByte(choices[0]);
      var entry, tail := PutEntry(o, choices[0], entries[0]), PutEntries(o, clean, choices[1..], entries[1..], entries[0]);
      ConcatAssoc([flags], entry + tail, rest);
      ConcatAssoc(entry, tail, rest);
      assert ([flags] + (entry + (tail + rest)))[1..] == entry + (tail + rest);
      FlaggedEntryReads(o, clean, choices[0], entries[0], last, tail + rest);
      FlaggedListReads(o, clean, choices[1..], entries[1..], entries[0], rest);
      assert [entries[0]] + entries[1..] == entries;
    }
  }

  // ----- what this sender writes -----

  /** Only long names, and no field taken from the last entry. */
  function OwnChoice(item: Item): Choice {
    Choice(item.topDir, false, false, false, false, false, true, false, 0)
  }

  /** The sender's bytes for an item are one such entry, for every file of which the two sides agree on the device number. */
  lemma ItemIsFlaggedEntry(o: Options, clean: Name -> Name, item: Item, last: Entry)
    requires Listable(clean, item) && RdevSent(o, item.kind) == RdevRead(o, Mode(item))
    ensures Honest(OwnChoice(item), EntryOf(o, item), last) && Writable(o, OwnChoice(item), EntryOf(o, item))
    ensures PutItem(o, item) == [FlagByte(OwnChoice(item))] + PutEntry(o, OwnChoice(item), EntryOf(o, item))
  {
    hide PutInt32, PutInt64, Mode, TypeOf, HasNumber, IsLink, RdevRead, RdevSent, FlagByte;
    OwnFlags(item);
    OwnTail(o, item);
    var e := EntryOf(o, item);
    OwnName(item);
    FixedPieces(PutInt32(|item.name|), item.name, PutInt64(e.length), PutInt32(e.mtime), PutInt32(e.mode),
                PutOwner(o, item) + PutTail(o, item));
    var u, g := Optional(o.uid, PutInt32(item.uid)), Optional(o.gid, PutInt32(item.gid));
    ConcatAssoc(u, g, PutTail(o, item));
  }

  lemma OwnFlags(item: Item)
    ensures FlagByte(OwnChoice(item)) == Flags(item)
  {
  }

  lemma OwnName(item: Item)
    requires |item.name| < 4096
    ensures PutNameOf(OwnChoice(item), item.name) == PutInt32(|item.name|) + item.name
  {
    hide PutInt32;
    assert item.name[0..] == item.name;
    assert [] + (PutInt32(|item.name|) + item.name) == PutInt32(|item.name|) + item.name;
  }

  lemma OwnTail(o: Options, item: Item)
    requires |item.target| < 0x8000_0000 && RdevSent(o, item.kind) == RdevRead(o, Mode(item))
    ensures RdevSent(o, item.kind) == (o.devices && HasNumber(Mode(item)))
    ensures IsLink(Mode(item)) == (item.kind == Symlink)
  {
    hide Mode;
    TypeOfMode(item);
    KindsOfMode(o, Mode(item));
  }

  lemma FixedPieces(n: seq<byte>, name: seq<byte>, z: seq<byte>, t: seq<byte>, m: seq<byte>, rest: seq<byte>)
    ensures n + (name + (z + (t + m))) + rest == (n + name) + (z + (t + (m + rest)))
  {
    ConcatAssoc(n, name + (z + (t + m)), rest);
    ConcatAssoc(name, z + (t + m), rest);
    ConcatAssoc(z, t + m, rest);
    ConcatAssoc(t, m, rest);
    ConcatAssoc(n, name, z + (t + (m + rest)));
  }

  // ----- what an entry says of its file -----

  /** The numbers of stat's mode word, by kind of file. */
  function KindBits(k: Kind): nat {
    match k
    case Fifo => 1
    case CharDevice => 2
    case Directory => 4
    case BlockDevice => 6
    case Regular => 8
    case Symlink => 10
    case Socket => 12
  }

  /** The receiver's entry tells kind, permissions, length, time and, where they are preserved, all the rest. */
  lemma EntryTellsItem(o: Options, item: Item)
    ensures var e := EntryOf(o, item);
            && e.name == item.name
            && e.mode % 512 == item.perm && e.mode / 4096 == KindBits(item.kind)
            && e.length == (if item.kind == Directory then 4096 else item.size)
            && (-0x8000_0000 <= item.mtime < 0x8000_0000 ==> e.mtime == item.mtime)
            && (e.mtime - item.mtime) % 0x1_0000_0000 == 0
            && (o.uid ==> e.uid == item.uid) && (o.gid ==> e.gid == item.gid)
            && (o.links && item.kind == Symlink ==> e.link == item.target)
            && (o.checksum && item.kind == Regular ==> e.checksum == item.digest)
            && (o.devices && o.specials && KindBits(item.kind) in {1, 2, 6, 12} ==> e.rdev == item.rdev)
  {
  }
}
