/** The whole file list: SendFileList, ReceiveFileList, RecvIdList and the sort on both sides. */
module FileList {
  import opened Bytes
  import opened FileEntry
  import opened Names
  import Sorting

  // ----- id lists -----

  datatype IdName = IdName(id: int32, name: Name)
  datatype Mapping = Mapping(name: Name, localId: int32)

  function PutIdName(p: IdName): seq<byte> {
    PutInt32(p.id) + ([|p.name| % 256] + p.name)
  }

  /** The pairs in the order the map iteration happened to give, then a zero id. */
  function PutIds(ids: seq<IdName>): seq<byte> {
    if ids == [] then PutInt32(0) else PutIdName(ids[0]) + PutIds(ids[1..])
  }

  type Ids = map<int32, Mapping>

  /** One id entry off a stream. */
  function ParseIdName(s: seq<byte>): (r: Result<(IdName, seq<byte>)>)
    ensures r.Ok? ==> |r.value.1| < |s|
  {
    var (id, s1) :- ParseInt32(s);
    var (length, s2) :- ParseByte(s1);
    var (name, s3) :- ParseBytes(s2, length);
    Ok((IdName(id, name), s3))
  }

  function ParseIds(s: seq<byte>, localId: (int32, Name) -> int32, acc: Ids): Result<(Ids, seq<byte>)>
    decreases |s|
  {
    var (id, s1) :- ParseInt32(s);
    if id == 0 then Ok((acc, s1)) else
    var (p, rest) :- ParseIdName(s);
    ParseIds(rest, localId, acc[id := Mapping(p.name, localId(id, p.name))])
  }

  function MapOf(ids: seq<IdName>, localId: (int32, Name) -> int32, acc: Ids): Ids {
    if ids == [] then acc
    else MapOf(ids[1..], localId, acc[ids[0].id := Mapping(ids[0].name, localId(ids[0].id, ids[0].name))])
  }

  ghost predicate IdsListable(ids: seq<IdName>) {
    forall k | 0 <= k < |ids| :: ids[k].id != 0 && |ids[k].name| <= 255
  }

  /**
   * The length byte cuts the length of a name: the receiver takes the first |name| % 256 bytes for the name and
   * reads on inside it.
   */
  lemma IdNameReadsBack(p: IdName, rest: seq<byte>)
    ensures var n := |p.name| % 256;
            ParseIdName(PutIdName(p) + rest) == Ok((IdName(p.id, p.name[..n]), p.name[n..] + rest))
    ensures ParseIdName(PutIdName(p) + rest) == Ok((p, rest)) <==> |p.name| <= 255
  {
    hide PutInt32, ParseInt32;
    var n := |p.name| % 256;
    ConcatAssoc(PutInt32(p.id), [n] + p.name, rest);
    ParsePutInt32(p.id, [n] + p.name + rest);
    var s := [n] + p.name + rest;
    assert s[0] == n && s[1..] == p.name + rest;
    ConcatAssoc(p.name[..n], p.name[n..], rest);
    assert p.name[..n] + p.name[n..] == p.name;
    ParsePutBytes(p.name[..n], p.name[n..] + rest);
    if |p.name| <= 255 {
      assert p.name[n..] + rest == rest;
    }
  }

  /** So a long name's tail is read as id entries, in front of those that follow. */
  lemma LongNameReadsOn(p: IdName, ids: seq<IdName>, localId: (int32, Name) -> int32, acc: Ids, rest: seq<byte>)
    requires p.id != 0
    ensures var name := p.name[..|p.name| % 256];
            ParseIds(PutIds([p] + ids) + rest, localId, acc)
            == ParseIds(p.name[|p.name| % 256..] + (PutIds(ids) + rest), localId, acc[p.id := Mapping(name, localId(p.id, name))])
  {
    hide PutInt32, ParseInt32, PutIdName, ParseByte, ParseBytes;
    assert ([p] + ids)[1..] == ids;
    ConcatAssoc(PutIdName(p), PutIds(ids), rest);
    IdNameReadsBack(p, PutIds(ids) + rest);
  }

  lemma {:induction false} IdsRoundTrip(ids: seq<IdName>, localId: (int32, Name) -> int32, acc: Ids, rest: seq<byte>)
    requires IdsListable(ids)
    ensures ParseIds(PutIds(ids) + rest, localId, acc) == Ok((MapOf(ids, localId, acc), rest))
  {
    hide PutInt32, ParseInt32, PutIdName, ParseByte, ParseBytes;
    if ids == [] {
      ParsePutInt32(0, rest);
    } else {
      var tail := PutIds(ids[1..]) + rest;
      ConcatAssoc(PutIdName(ids[0]), PutIds(ids[1..]), rest);
      IdNameReadsBack(ids[0], tail);
      IdsRoundTrip(ids[1..], localId, acc[ids[0].id := Mapping(ids[0].name, localId(ids[0].id, ids[0].name))], rest);
    }
  }

  ghost predicate ListsId(ids: seq<IdName>, id: int32) {
    exists k :: 0 <= k < |ids| && ids[k].id == id
  }

  lemma ListsIdCons(ids: seq<IdName>, id: int32)
    requires ids != []
    ensures ListsId(ids, id) <==> ids[0].id == id || ListsId(ids[1..], id)
  {
    if ListsId(ids, id) {
      var k :| 0 <= k < |ids| && ids[k].id == id;
      assert k > 0 ==> ids[1..][k - 1].id == id;
    }
    if ListsId(ids[1..], id) {
      var k :| 0 <= k < |ids| - 1 && ids[1..][k].id == id;
      assert ids[k + 1].id == id;
    }
  }

  /** The decoded map holds exactly the listed ids, each with its own name. */
  lemma {:induction false} MapOfIds(ids: seq<IdName>, localId: (int32, Name) -> int32, acc: Ids)
    requires forall j, k | 0 <= j < k < |ids| :: ids[j].id != ids[k].id
    ensures forall id :: id in MapOf(ids, localId, acc) <==> id in acc || ListsId(ids, id)
    ensures forall id | id in acc && !ListsId(ids, id) :: MapOf(ids, localId, acc)[id] == acc[id]
    ensures forall k | 0 <= k < |ids| ::
              ids[k].id in MapOf(ids, localId, acc)
              && MapOf(ids, localId, acc)[ids[k].id] == Mapping(ids[k].name, localId(ids[k].id, ids[k].name))
  {
    if ids == [] {
    } else {
      var next := acc[ids[0].id := Mapping(ids[0].name, localId(ids[0].id, ids[0].name))];
      var m := MapOf(ids, localId, acc);
      MapOfIds(ids[1..], localId, next);
      forall id
        ensures ListsId(ids, id) <==> ids[0].id == id || ListsId(ids[1..], id)
      {
        ListsIdCons(ids, id);
      }
      assert !ListsId(ids[1..], ids[0].id);
      forall k | 0 <= k < |ids|
        ensures ids[k].id in m && m[ids[k].id] == Mapping(ids[k].name, localId(ids[k].id, ids[k].name))
      {
        assert ListsId(ids, ids[k].id);
        assert k > 0 ==> ids[k] == ids[1..][k - 1];
      }
    }
  }

  /** Whatever the bytes, no name the receiver reads has more than 255 bytes. */
  lemma {:induction false} ParsedNamesAreShort(s: seq<byte>, localId: (int32, Name) -> int32, acc: Ids)
    requires forall id | id in acc :: |acc[id].name| <= 255
    ensures var r := ParseIds(s, localId, acc);
            r.Ok? ==> forall id | id in r.value.0 :: |r.value.0[id].name| <= 255
    decreases |s|
  {
    hide GetInt32;
    var id := ParseInt32(s);
    if id.Err? || id.value.0 == 0 || ParseIdName(s).Err? {
      // Nothing more is added.
    } else {
      var (p, rest) := ParseIdName(s).value;
      var next := acc[p.id := Mapping(p.name, localId(p.id, p.name))];
      assert p.id == id.value.0 && |p.name| <= 255;
      ParsedNamesAreShort(rest, localId, next);
      assert ParseIds(s, localId, acc) == ParseIds(rest, localId, next);
    }
  }

  /** An id list is read back as the map of its pairs exactly when every name has at most 255 bytes. */
  lemma IdsReadBackExactly(ids: seq<IdName>, localId: (int32, Name) -> int32, rest: seq<byte>)
    requires forall k | 0 <= k < |ids| :: ids[k].id != 0
    requires forall j, k | 0 <= j < k < |ids| :: ids[j].id != ids[k].id
    ensures ParseIds(PutIds(ids) + rest, localId, map[]) == Ok((MapOf(ids, localId, map[]), rest))
       <==> forall k | 0 <= k < |ids| :: |ids[k].name| <= 255
  {
    hide ParseIds, PutIds, MapOf;
    if forall k | 0 <= k < |ids| :: |ids[k].name| <= 255 {
      IdsRoundTrip(ids, localId, map[], rest);
    } else {
      var k :| 0 <= k < |ids| && |ids[k].name| > 255;
      MapOfIds(ids, localId, map[]);
      ParsedNamesAreShort(PutIds(ids) + rest, localId, map[]);
      assert |MapOf(ids, localId, map[])[ids[k].id].name| > 255;
    }
  }

  // ----- entries -----

  function PutItems(o: Options, items: seq<Item>): seq<byte> {
    if items == [] then [0] else PutItem(o, items[0]) + PutItems(o, items[1..])
  }

  type Entries = Result<(seq<Entry>, seq<byte>)>

  /** Entries up to the zero byte, each decoded against the one before it. */
  function ParseEntries(s: seq<byte>, o: Options, clean: Name -> Name, last: Entry): Entries
    decreases |s|
  {
    var (flags, s1) :- ParseByte(s);
    if flags == 0 then Ok(([], s1)) else
    var (e, s2) :- ParseEntry(s1, o, clean, flags, last);
    Append([e], ParseEntries(s2, o, clean, e))
  }

  ghost predicate AllListable(o: Options, clean: Name -> Name, items: seq<Item>) {
    forall k | 0 <= k < |items| ::
      Listable(clean, items[k]) && RdevSent(o, items[k].kind) == RdevRead(o, Mode(items[k]))
  }

  function EntriesOf(o: Options, items: seq<Item>): (es: seq<Entry>)
    ensures |es| == |items| && forall k | 0 <= k < |items| :: es[k] == EntryOf(o, items[k])
  {
    seq(|items|, k requires 0 <= k < |items| => EntryOf(o, items[k]))
  }

  lemma {:induction false} ItemsRoundTrip(o: Options, clean: Name -> Name, items: seq<Item>, last: Entry, rest: seq<byte>)
    requires AllListable(o, clean, items)
    ensures ParseEntries(PutItems(o, items) + rest, o, clean, last) == Ok((EntriesOf(o, items), rest))
    decreases |items|
  {
    hide PutItem, ParseEntry, ParseByte, EntryOf, RdevSent, RdevRead, Mode, Flags;
    if items == [] {
      EndOfItems(rest);
    } else {
      var tail := PutItems(o, items[1..]) + rest;
      ConcatAssoc(PutItem(o, items[0]), PutItems(o, items[1..]), rest);
      assert Listable(clean, items[0]);
      EntryRoundTrip(o, clean, items[0], last, tail);
      FlagsNotZero(items[0]);
      ItemsRoundTrip(o, clean, items[1..], EntryOf(o, items[0]), rest);
      assert EntriesOf(o, items) == [EntryOf(o, items[0])] + EntriesOf(o, items[1..]);
    }
  }

  lemma FlagsNotZero(item: Item)
    ensures Flags(item) != 0
  {
  }

  lemma EndOfItems(rest: seq<byte>)
    ensures ParseByte([0] + rest) == Ok((0, rest))
  {
    assert ([0] + rest)[1..] == rest;
  }

  // ----- the whole list -----

  datatype Received = Received(entries: seq<Entry>, users: Ids, groups: Ids, ioErrors: int32)

  function PutList(o: Options, items: seq<Item>, users: seq<IdName>, groups: seq<IdName>, ioErrors: int32): seq<byte> {
    PutItems(o, items) + (Optional(o.uid, PutIds(users)) + (Optional(o.gid, PutIds(groups)) + PutInt32(ioErrors)))
  }

  function ParseOptionalIds(s: seq<byte>, present: bool, localId: (int32, Name) -> int32): Result<(Ids, seq<byte>)> {
    if present then ParseIds(s, localId, map[]) else Ok((map[], s))
  }

  /** The list as it arrives, before sorting. */
  function ParseList(s: seq<byte>, o: Options, clean: Name -> Name, localUid: (int32, Name) -> int32,
                     localGid: (int32, Name) -> int32): Result<(Received, seq<byte>)>
  {
    var (entries, s1) :- ParseEntries(s, o, clean, NO_ENTRY);
    var (users, s2) :- ParseOptionalIds(s1, o.uid, localUid);
    var (groups, s3) :- ParseOptionalIds(s2, o.gid, localGid);
    var (ioErrors, s4) :- ParseInt32(s3);
    Ok((Received(entries, users, groups, ioErrors), s4))
  }

  lemma OptionalIdsRoundTrip(ids: seq<IdName>, present: bool, localId: (int32, Name) -> int32, rest: seq<byte>)
    requires IdsListable(ids)
    ensures ParseOptionalIds(Optional(present, PutIds(ids)) + rest, present, localId)
         == Ok((if present then MapOf(ids, localId, map[]) else map[], rest))
  {
    hide PutIds, ParseIds;
    if present {
      IdsRoundTrip(ids, localId, map[], rest);
    } else {
      assert [] + rest == rest;
    }
  }

  /** The receiver decodes every entry in order, both id lists and the error flag. */
  lemma ListRoundTrip(o: Options, clean: Name -> Name, items: seq<Item>, users: seq<IdName>, groups: seq<IdName>,
                      ioErrors: int32, localUid: (int32, Name) -> int32, localGid: (int32, Name) -> int32, rest: seq<byte>)
    requires AllListable(o, clean, items) && IdsListable(users) && IdsListable(groups)
    ensures ParseList(PutList(o, items, users, groups, ioErrors) + rest, o, clean, localUid, localGid)
         == Ok((Received(EntriesOf(o, items), if o.uid then MapOf(users, localUid, map[]) else map[],
                         if o.gid then MapOf(groups, localGid, map[]) else map[], ioErrors), rest))
  {
    hide PutItems, PutIds, PutInt32, ParseInt32, ParseEntries, ParseOptionalIds, Optional;
    var u, g, e := Optional(o.uid, PutIds(users)), Optional(o.gid, PutIds(groups)), PutInt32(ioErrors);
    ConcatAssoc(PutItems(o, items), u + (g + e), rest);
    ConcatAssoc(u, g + e, rest);
    ConcatAssoc(g, e, rest);
    ItemsRoundTrip(o, clean, items, NO_ENTRY, u + (g + (e + rest)));
    OptionalIdsRoundTrip(users, o.uid, localUid, g + (e + rest));
    OptionalIdsRoundTrip(groups, o.gid, localGid, e + rest);
    ParsePutInt32(ioErrors, rest);
  }

  // ----- sorting -----

  predicate ItemLess(a: Item, b: Item) {
    Less(a.name, b.name)
  }

  predicate EntryLess(a: Entry, b: Entry) {
    Less(a.name, b.name)
  }

  lemma ItemLessIsStrictWeak()
    ensures Sorting.StrictWeak(ItemLess)
  {
    hide Less;
    forall a: Item, b: Item | ItemLess(a, b)
      ensures !ItemLess(b, a)
    {
      LessAsymmetric(a.name, b.name);
    }
    forall a: Item, b: Item, c: Item | !ItemLess(b, a) && !ItemLess(c, b)
      ensures !ItemLess(c, a)
    {
      NotLessTransitive(a.name, b.name, c.name);
    }
  }

  lemma EntryLessIsStrictWeak()
    ensures Sorting.StrictWeak(EntryLess)
  {
    hide Less;
    forall a: Entry, b: Entry | EntryLess(a, b)
      ensures !EntryLess(b, a)
    {
      LessAsymmetric(a.name, b.name);
    }
    forall a: Entry, b: Entry, c: Entry | !EntryLess(b, a) && !EntryLess(c, b)
      ensures !EntryLess(c, a)
    {
      NotLessTransitive(a.name, b.name, c.name);
    }
  }

  ghost predicate DistinctNames(items: seq<Item>) {
    forall i, j | 0 <= i < j < |items| :: items[i].name != items[j].name
  }

  ghost function ItemNames(items: seq<Item>): seq<Name> {
    seq(|items|, k requires 0 <= k < |items| => items[k].name)
  }

  ghost function EntryNames(entries: seq<Entry>): seq<Name> {
    seq(|entries|, k requires 0 <= k < |entries| => entries[k].name)
  }

  /**
   * Both sides sort on their own, with an unstable sort; when the names are distinct, index i nonetheless
   * names the same file on both sides.
   */
  lemma IndicesAgree(o: Options, items: seq<Item>, senderFiles: seq<Item>, receiverFiles: seq<Entry>)
    requires DistinctNames(items)
    requires Sorting.Sorted(ItemLess, senderFiles) && multiset(senderFiles) == multiset(items)
    requires Sorting.Sorted(EntryLess, receiverFiles) && multiset(receiverFiles) == multiset(EntriesOf(o, items))
    ensures |senderFiles| == |receiverFiles| == |items|
    ensures forall i | 0 <= i < |items| ::
              receiverFiles[i] == EntryOf(o, senderFiles[i])
  {
    hide EntryOf, Less;
    SameLength(items, senderFiles);
    SameLength(EntriesOf(o, items), receiverFiles);
    SortedItems(items, senderFiles);
    SortedEntries(o, items, receiverFiles);
    SortedNamesAreUnique(ItemNames(senderFiles), EntryNames(receiverFiles));
    forall i | 0 <= i < |items|
      ensures receiverFiles[i] == EntryOf(o, senderFiles[i])
    {
      assert senderFiles[i] in multiset(items);
      var j :| 0 <= j < |items| && items[j] == senderFiles[i];
      assert receiverFiles[i] in multiset(EntriesOf(o, items));
      var k :| 0 <= k < |items| && EntriesOf(o, items)[k] == receiverFiles[i];
      EntryName(o, items[k]);
      assert ItemNames(senderFiles)[i] == EntryNames(receiverFiles)[i];
      assert items[j].name == items[k].name;
    }
  }

  lemma SameLength<T>(a: seq<T>, b: seq<T>)
    requires multiset(a) == multiset(b)
    ensures |a| == |b|
  {
    assert |a| == |multiset(a)| == |multiset(b)| == |b|;
  }

  lemma {:induction false} DistinctCounts<T>(a: seq<T>, x: T)
    requires forall i, j | 0 <= i < j < |a| :: a[i] != a[j]
    ensures multiset(a)[x] <= 1
  {
    if a == [] {
    } else {
      var front := a[..|a| - 1];
      DistinctCounts(front, x);
      assert a == front + [a[|a| - 1]];
      if a[|a| - 1] == x {
        assert x !in front;
        assert multiset(front)[x] == 0;
      }
    }
  }

  /** A permutation of distinct elements has distinct elements. */
  lemma DistinctStays<T>(a: seq<T>, b: seq<T>)
    requires forall i, j | 0 <= i < j < |a| :: a[i] != a[j]
    requires multiset(a) == multiset(b)
    ensures forall i, j | 0 <= i < j < |b| :: b[i] != b[j]
  {
    forall i, j | 0 <= i < j < |b|
      ensures b[i] != b[j]
    {
      DistinctCounts(a, b[i]);
      assert b == b[..j] + b[j..];
      assert multiset(b) == multiset(b[..j]) + multiset(b[j..]);
      assert b[..j][i] == b[i] && b[j..][0] == b[j];
      assert b[i] in multiset(b[..j]);
      assert b[j] in multiset(b[j..]);
    }
  }

  lemma SortedItems(items: seq<Item>, sorted: seq<Item>)
    requires DistinctNames(items)
    requires Sorting.Sorted(ItemLess, sorted) && multiset(sorted) == multiset(items)
    ensures StrictlySorted(ItemNames(sorted))
    ensures forall n: Name :: n in ItemNames(sorted) <==> n in ItemNames(items)
  {
    hide Less;
    DistinctStays(items, sorted);
    forall i, j | 0 <= i < j < |sorted|
      ensures Less(ItemNames(sorted)[i], ItemNames(sorted)[j])
    {
      assert !ItemLess(sorted[j], sorted[i]);
      var k := IndexIn(items, sorted, i);
      var l := IndexIn(items, sorted, j);
      if !Less(sorted[i].name, sorted[j].name) {
        LessTotal(sorted[i].name, sorted[j].name);
      }
    }
    forall n: Name
      ensures n in ItemNames(sorted) <==> n in ItemNames(items)
    {
      if n in ItemNames(sorted) {
        var i :| 0 <= i < |sorted| && ItemNames(sorted)[i] == n;
        var k := IndexIn(items, sorted, i);
        assert ItemNames(items)[k] == n;
      }
      if n in ItemNames(items) {
        var i :| 0 <= i < |items| && ItemNames(items)[i] == n;
        var k := IndexIn(sorted, items, i);
        assert ItemNames(sorted)[k] == n;
      }
    }
  }

  lemma IndexIn<T>(a: seq<T>, b: seq<T>, i: nat) returns (k: nat)
    requires multiset(a) == multiset(b) && i < |b|
    ensures k < |a| && a[k] == b[i]
  {
    assert b[i] in multiset(b);
    assert b[i] in a;
    k :| 0 <= k < |a| && a[k] == b[i];
  }

  lemma SortedEntries(o: Options, items: seq<Item>, sorted: seq<Entry>)
    requires DistinctNames(items)
    requires Sorting.Sorted(EntryLess, sorted) && multiset(sorted) == multiset(EntriesOf(o, items))
    ensures StrictlySorted(EntryNames(sorted))
    ensures forall n: Name :: n in EntryNames(sorted) <==> n in ItemNames(items)
  {
    hide Less, EntryOf;
    var entries := EntriesOf(o, items);
    forall k | 0 <= k < |items|
      ensures entries[k].name == items[k].name
    {
      EntryName(o, items[k]);
    }
    DistinctStays(entries, sorted);
    forall i, j | 0 <= i < j < |sorted|
      ensures Less(EntryNames(sorted)[i], EntryNames(sorted)[j])
    {
      assert !EntryLess(sorted[j], sorted[i]);
      var k := IndexIn(entries, sorted, i);
      var l := IndexIn(entries, sorted, j);
      if !Less(sorted[i].name, sorted[j].name) {
        LessTotal(sorted[i].name, sorted[j].name);
      }
    }
    forall n: Name
      ensures n in EntryNames(sorted) <==> n in ItemNames(items)
    {
      if n in EntryNames(sorted) {
        var i :| 0 <= i < |sorted| && EntryNames(sorted)[i] == n;
        var k := IndexIn(entries, sorted, i);
        assert ItemNames(items)[k] == n;
      }
      if n in ItemNames(items) {
        var i :| 0 <= i < |items| && ItemNames(items)[i] == n;
        var k := IndexIn(sorted, entries, i);
        assert EntryNames(sorted)[k] == n;
      }
    }
  }

  lemma EntryName(o: Options, item: Item)
    ensures EntryOf(o, item).name == item.name
  {
  }
}
