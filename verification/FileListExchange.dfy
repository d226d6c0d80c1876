/** The file-list exchange as both sides run it. */
module FileListExchange {
  import opened Bytes
  import opened Checksum
  import opened FileEntry
  import opened FileList
  import opened Names
  import Sorting
  import opened Wire

  // ----- sender -----

  lemma {:induction false} PutItemsSplit(o: Options, items: seq<Item>, k: nat)
    requires k < |items|
    ensures PutItems(o, items[k..]) == PutItem(o, items[k]) + PutItems(o, items[k + 1..])
  {
    hide PutItem;
    assert items[k..][1..] == items[k + 1..];
  }

  lemma PutIdsSplit(ids: seq<IdName>, k: nat)
    requires k < |ids|
    ensures PutIds(ids[k..]) == PutIdName(ids[k]) + PutIds(ids[k + 1..])
  {
    hide PutIdName;
    assert ids[k..][1..] == ids[k + 1..];
  }

  method SendIds(c: Conn, ids: seq<IdName>)
    modifies c`out
    ensures c.out == old(c.out) + PutIds(ids)
  {
    hide PutIdName, PutInt32, PutIds;
    ghost var before := c.out;
    assert ids[0..] == ids;
    for k := 0 to |ids|
      invariant c.out + PutIds(ids[k..]) == before + PutIds(ids)
    {
      PutIdsSplit(ids, k);
      ConcatAssoc(c.out, PutIdName(ids[k]), PutIds(ids[k + 1..]));
      var line := PutIdName(ids[k]);
      c.Write(line);
    }
    NoIds(ids[|ids|..]);
    c.WriteInt32(0);
  }

  lemma NoIds(ids: seq<IdName>)
    requires ids == []
    ensures PutIds(ids) == PutInt32(0)
  {
  }

  lemma NoItems(o: Options, items: seq<Item>)
    requires items == []
    ensures PutItems(o, items) == [0]
  {
  }

  method SendFileList(c: Conn, o: Options, items: seq<Item>, users: seq<IdName>, groups: seq<IdName>, ioErrors: int32)
    modifies c`out
    ensures c.out == old(c.out) + PutList(o, items, users, groups, ioErrors)
  {
    hide PutItem, PutItems, PutIds, PutInt32;
    ghost var before := c.out;
    assert items[0..] == items;
    for k := 0 to |items|
      invariant c.out + PutItems(o, items[k..]) == before + PutItems(o, items)
    {
      PutItemsSplit(o, items, k);
      ConcatAssoc(c.out, PutItem(o, items[k]), PutItems(o, items[k + 1..]));
      var fec := PutItem(o, items[k]);
      c.Write(fec);
    }
    NoItems(o, items[|items|..]);
    c.Write([0]);
    if o.uid {
      SendIds(c, users);
    }
    if o.gid {
      SendIds(c, groups);
    }
    c.WriteInt32(ioErrors);
    ListParts(before, PutItems(o, items), Optional(o.uid, PutIds(users)), Optional(o.gid, PutIds(groups)), PutInt32(ioErrors));
  }

  lemma ListParts(s: seq<byte>, a: seq<byte>, u: seq<byte>, g: seq<byte>, e: seq<byte>)
    ensures s + a + u + g + e == s + (a + (u + (g + e)))
  {
    ConcatAssoc(s + a + u, g, e);
    ConcatAssoc(s + a, u, g + e);
    ConcatAssoc(s, a, u + (g + e));
  }

  // ----- receiver -----

  method RecvByte(c: Conn) returns (r: Result<byte>)
    modifies c`inp
    ensures match ParseByte(old(c.inp))
            case Ok(p) => r == Ok(p.0) && c.inp == p.1
            case Err(e) => r == Err(e)
  {
    var b := c.ReadFull(1);
    r := if b.Ok? then Ok(b.value[0]) else Err(b.error);
  }

  method RecvIdMapping(c: Conn, localId: (int32, Name) -> int32) returns (r: Result<Ids>)
    modifies c`inp
    ensures match ParseIds(old(c.inp), localId, map[])
            case Ok(p) => r == Ok(p.0) && c.inp == p.1
            case Err(e) => r == Err(e)
  {
    hide GetInt32;
    var idMapping: Ids := map[];
    while true
      invariant ParseIds(c.inp, localId, idMapping) == ParseIds(old(c.inp), localId, map[])
      decreases |c.inp|
    {
      var id :- c.ReadInt32();
      if id == 0 {
        break;
      }
      var length :- RecvByte(c);
      var name :- c.ReadFull(length);
      idMapping := idMapping[id := Mapping(name, localId(id, name))];
    }
    r := Ok(idMapping);
  }

  method RecvField(c: Conn, present: bool, same: bool, last: int32) returns (r: Result<int32>)
    modifies c`inp
    ensures match ParseField(old(c.inp), present, same, last)
            case Ok(p) => r == Ok(p.0) && c.inp == p.1
            case Err(e) => r == Err(e)
  {
    if !present {
      return Ok(0);
    }
    if same {
      return Ok(last);
    }
    r := c.ReadInt32();
  }

  method RecvTime(c: Conn, same: bool, last: int64) returns (r: Result<int64>)
    modifies c`inp
    ensures match ParseTime(old(c.inp), same, last)
            case Ok(p) => r == Ok(p.0) && c.inp == p.1
            case Err(e) => r == Err(e)
  {
    hide GetInt32;
    if same {
      return Ok(last);
    }
    var modTime :- c.ReadInt32();
    r := Ok(modTime);
  }

  method RecvName(c: Conn, flags: byte, last: Name) returns (r: Result<Name>)
    modifies c`inp
    ensures match ParseName(old(c.inp), flags, last)
            case Ok(p) => r == Ok(p.0) && c.inp == p.1
            case Err(e) => r == Err(e)
  {
    hide GetInt32;
    var l1: byte := 0;
    if Bit(flags, SAME_NAME) {
      l1 :- RecvByte(c);
    }
    var l2: int;
    if Bit(flags, LONG_NAME) {
      l2 :- c.ReadInt32();
    } else {
      l2 :- RecvByte(c);
    }
    if l2 >= PATH_MAX - l1 {
      return Err(Overflow);
    }
    if l2 < 0 {
      return Err(Panic);
    }
    var b :- c.ReadFull(l2);
    r := Ok(Inherited(last, l1) + b);
  }

  method RecvInt64(c: Conn) returns (r: Result<int64>)
    modifies c`inp
    ensures match ParseInt64(old(c.inp))
            case Ok(p) => r == Ok(p.0) && c.inp == p.1
            case Err(e) => r == Err(e)
  {
    hide GetInt32;
    var data :- c.ReadInt32();
    if data != -1 {
      return Ok(data);
    }
    var wide :- c.ReadFull(8);
    r := Ok(I64(wide));
  }

  method RecvSized(c: Conn, present: bool) returns (r: Result<seq<byte>>)
    modifies c`inp
    ensures match ParseSized(old(c.inp), present)
            case Ok(p) => r == Ok(p.0) && c.inp == p.1
            case Err(e) => r == Err(e)
  {
    hide GetInt32;
    if !present {
      return Ok([]);
    }
    var length :- c.ReadInt32();
    if length < 0 {
      return Err(Panic);
    }
    r := c.ReadFull(length);
  }

  method RecvFixed(c: Conn, flags: byte, last: Entry) returns (r: Result<(Name, int64, int64, int32)>)
    modifies c`inp
    ensures match ParseFixed(old(c.inp), flags, last)
            case Ok(p) => r == Ok(p.0) && c.inp == p.1
            case Err(e) => r == Err(e)
  {
    hide ParseName, ParseInt64, ParseField, ParseTime, Bit;
    var name :- RecvName(c, flags, last.name);
    var length :- RecvInt64(c);
    var mtime :- RecvTime(c, Bit(flags, SAME_TIME), last.mtime);
    var mode :- RecvField(c, true, Bit(flags, SAME_MODE), last.mode);
    r := Ok((name, length, mtime, mode));
  }

  method RecvOwner(c: Conn, o: Options, flags: byte, last: Entry) returns (r: Result<(int32, int32)>)
    modifies c`inp
    ensures match ParseOwner(old(c.inp), o, flags, last)
            case Ok(p) => r == Ok(p.0) && c.inp == p.1
            case Err(e) => r == Err(e)
  {
    hide ParseField, Bit;
    var uid :- RecvField(c, o.uid, Bit(flags, SAME_UID), last.uid);
    var gid :- RecvField(c, o.gid, Bit(flags, SAME_GID), last.gid);
    r := Ok((uid, gid));
  }

  method RecvTail(c: Conn, o: Options, flags: byte, last: Entry, mode: int32)
    returns (r: Result<(int32, seq<byte>, Digest)>)
    modifies c`inp
    ensures match ParseTail(old(c.inp), o, flags, last, mode)
            case Ok(p) => r == Ok(p.0) && c.inp == p.1
            case Err(e) => r == Err(e)
  {
    hide ParseField, ParseSized, Bit, RdevRead, TypeOf;
    var rdev :- RecvField(c, RdevRead(o, mode), Bit(flags, SAME_RDEV), last.rdev);
    var link :- RecvSized(c, o.links && TypeOf(mode) == S_IFLNK);
    var checksum: Digest := NO_DIGEST;
    if o.checksum {
      checksum :- c.ReadFull(16);
    }
    r := Ok((rdev, link, checksum));
  }

  method ReceiveFileEntry(c: Conn, o: Options, clean: Name -> Name, flags: byte, last: Entry) returns (r: Result<Entry>)
    modifies c`inp
    ensures match ParseEntry(old(c.inp), o, clean, flags, last)
            case Ok(p) => r == Ok(p.0) && c.inp == p.1
            case Err(e) => r == Err(e)
  {
    hide ParseFixed, ParseOwner, ParseTail;
    var fixed :- RecvFixed(c, flags, last);
    var owner :- RecvOwner(c, o, flags, last);
    var tail :- RecvTail(c, o, flags, last, fixed.3);
    r := Ok(Entry(clean(fixed.0), fixed.1, fixed.2, fixed.3, owner.0, owner.1, tail.1, tail.0, tail.2));
  }

  method ReceiveEntries(c: Conn, o: Options, clean: Name -> Name) returns (r: Result<seq<Entry>>)
    modifies c`inp
    ensures match ParseEntries(old(c.inp), o, clean, NO_ENTRY)
            case Ok(p) => r == Ok(p.0) && c.inp == p.1
            case Err(e) => r == Err(e)
  {
    hide ParseEntry;
    var last := NO_ENTRY;
    var fileList: seq<Entry> := [];
    ghost var whole := ParseEntries(c.inp, o, clean, NO_ENTRY);
    AppendNothing(whole);
    while true
      invariant Append(fileList, ParseEntries(c.inp, o, clean, last)) == whole
      decreases |c.inp|
    {
      var b :- RecvByte(c);
      if b == 0 {
        assert fileList + [] == fileList;
        break;
      }
      var f :- ReceiveFileEntry(c, o, clean, b, last);
      AppendAppend(fileList, [f], ParseEntries(c.inp, o, clean, f));
      last := f;
      fileList := fileList + [f];
    }
    r := Ok(fileList);
  }

  method SortEntries(entries: seq<Entry>) returns (sorted: seq<Entry>)
    ensures Sorting.Sorted(EntryLess, sorted) && multiset(sorted) == multiset(entries)
  {
    hide Less;
    var a := new Entry[|entries|](i requires 0 <= i < |entries| => entries[i]);
    assert a[..] == entries;
    EntryLessIsStrictWeak();
    Sorting.SortSlice(a, EntryLess);
    sorted := a[..];
  }

  method SortItems(items: seq<Item>) returns (sorted: seq<Item>)
    ensures Sorting.Sorted(ItemLess, sorted) && multiset(sorted) == multiset(items)
  {
    hide Less;
    var a := new Item[|items|](i requires 0 <= i < |items| => items[i]);
    assert a[..] == items;
    ItemLessIsStrictWeak();
    Sorting.SortSlice(a, ItemLess);
    sorted := a[..];
  }

  method ReceiveFileList(c: Conn, o: Options, clean: Name -> Name, localUid: (int32, Name) -> int32,
                         localGid: (int32, Name) -> int32) returns (r: Result<Received>)
    modifies c`inp
    ensures match ParseList(old(c.inp), o, clean, localUid, localGid)
            case Err(e) => r == Err(e)
            case Ok(p) =>
              && r.Ok? && c.inp == p.1
              && r.value == p.0.(entries := r.value.entries)
              && Sorting.Sorted(EntryLess, r.value.entries)
              && multiset(r.value.entries) == multiset(p.0.entries)
  {
    hide ParseEntries, ParseIds, GetInt32, Less;
    var fileList :- ReceiveEntries(c, o, clean);
    var sorted := SortEntries(fileList);
    var users: Ids, groups: Ids := map[], map[];
    if o.uid {
      users :- RecvIdMapping(c, localUid);
    }
    if o.gid {
      groups :- RecvIdMapping(c, localGid);
    }
    var ioErrors :- c.ReadInt32();
    r := Ok(Received(sorted, users, groups, ioErrors));
  }

  // ----- both sides -----

  /** After the exchange index i means the same file on both sides, with everything the receiver needs of it. */
  method ExchangeFileList(o: Options, clean: Name -> Name, items: seq<Item>, users: seq<IdName>, groups: seq<IdName>,
                          ioErrors: int32, localUid: (int32, Name) -> int32, localGid: (int32, Name) -> int32)
    returns (senderFiles: seq<Item>, r: Result<Received>)
    requires AllListable(o, clean, items) && DistinctNames(items)
    requires IdsListable(users) && IdsListable(groups)
    ensures r.Ok? && |r.value.entries| == |senderFiles| == |items|
    ensures multiset(senderFiles) == multiset(items)
    ensures forall i | 0 <= i < |items| ::
              Listable(clean, senderFiles[i]) && r.value.entries[i] == EntryOf(o, senderFiles[i])
    ensures r.value.ioErrors == ioErrors
    ensures o.uid ==> r.value.users == MapOf(users, localUid, map[])
    ensures o.gid ==> r.value.groups == MapOf(groups, localGid, map[])
  {
    hide PutList, ParseList, EntryOf, Less, RdevSent, RdevRead, Mode;
    var up := new Conn([]);
    SendFileList(up, o, items, users, groups, ioErrors);
    assert [] + PutList(o, items, users, groups, ioErrors) == PutList(o, items, users, groups, ioErrors) + [];
    ListRoundTrip(o, clean, items, users, groups, ioErrors, localUid, localGid, []);
    senderFiles := SortItems(items);
    var down := new Conn(up.out);
    r := ReceiveFileList(down, o, clean, localUid, localGid);
    IndicesAgree(o, items, senderFiles, r.value.entries);
    forall i | 0 <= i < |senderFiles|
      ensures Listable(clean, senderFiles[i])
    {
      var k := IndexIn(items, senderFiles, i);
    }
  }
}
