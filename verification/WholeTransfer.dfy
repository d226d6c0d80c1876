/** From the lists of files on both sides to the files at the end of a run. */
module WholeTransfer {
  import opened Bytes
  import opened Checksum
  import opened FileEntry
  import opened FileList
  import opened FileListExchange
  import opened Names
  import opened Protocol
  import opened ProtocolRuns

  /** The sender's regular files, as its walk lists them under --checksum. */
  ghost predicate Walked(items: seq<Item>, contents: map<Name, seq<byte>>, md4: Hash) {
    forall k | 0 <= k < |items| ::
      && items[k].kind == Regular && items[k].name in contents
      && items[k].size == |contents[items[k].name]| && items[k].digest == md4(contents[items[k].name])
  }

  function Lookup(files: map<Name, seq<byte>>, name: Name): Option<seq<byte>> {
    if name in files then Some(files[name]) else None
  }

  /**
   * The run of the protocol that a list starts: the sender serves the files of its own sorted list, the receiver
   * looks for its files by the names of the list it received.
   */
  ghost function ConfigOf(md4: Hash, seed: int32, senderFiles: seq<Item>, contents: map<Name, seq<byte>>,
                          entries: seq<Entry>, dest: map<Name, seq<byte>>, serverSender: bool): Config
    requires Walked(senderFiles, contents, md4)
  {
    Config(md4, seed,
           seq(|senderFiles|, i requires 0 <= i < |senderFiles| => contents[senderFiles[i].name]),
           seq(|entries|, i requires 0 <= i < |entries| => Lookup(dest, entries[i].name)),
           serverSender, !serverSender)
  }

  /** skip_file as the receiver decides it, by what the list says of the file. */
  ghost predicate SkipsEntry(md4: Hash, e: Entry, d: Option<seq<byte>>) {
    d.Some? && |d.value| == e.length && md4(d.value) == e.checksum
  }

  lemma WalkedSorted(items: seq<Item>, sorted: seq<Item>, contents: map<Name, seq<byte>>, md4: Hash)
    requires multiset(sorted) == multiset(items) && Walked(items, contents, md4)
    ensures Walked(sorted, contents, md4)
  {
    forall i | 0 <= i < |sorted|
      ensures
        && sorted[i].kind == Regular && sorted[i].name in contents
        && sorted[i].size == |contents[sorted[i].name]| && sorted[i].digest == md4(contents[sorted[i].name])
    {
      var k := IndexIn(items, sorted, i);
    }
  }

  /** A file is in the way of a run when the sender's is empty and the receiver's is not. */
  ghost predicate NoneInTheWay(items: seq<Item>, contents: map<Name, seq<byte>>, dest: map<Name, seq<byte>>) {
    forall k | 0 <= k < |items| && items[k].name in contents ::
      contents[items[k].name] != [] || Lookup(dest, items[k].name) == None || Lookup(dest, items[k].name) == Some([])
  }

  /**
   * The lists are exchanged and sorted; then every run of the protocol that can go no further has brought every
   * listed file that did not vanish, under its own name, whatever the receiver had there.
   */
  method StartTransfer(md4: Hash, seed: int32, o: Options, clean: Name -> Name, items: seq<Item>,
                       ghost contents: map<Name, seq<byte>>, ghost dest: map<Name, seq<byte>>,
                       users: seq<IdName>, groups: seq<IdName>, ioErrors: int32,
                       localUid: (int32, Name) -> int32, localGid: (int32, Name) -> int32, serverSender: bool)
    returns (senderFiles: seq<Item>, r: Result<Received>, ghost cfg: Config)
    requires AllListable(o, clean, items) && DistinctNames(items) && o.checksum && Walked(items, contents, md4)
    requires IdsListable(users) && IdsListable(groups)
    ensures r.Ok? && WellFormed(cfg) && |cfg.sources| == |r.value.entries| == |items|
    ensures Walked(senderFiles, contents, md4)
            && cfg == ConfigOf(md4, seed, senderFiles, contents, r.value.entries, dest, serverSender)
    ensures forall i, d | 0 <= i < |cfg.sources| :: Skips(cfg, i, d) <==> SkipsEntry(md4, r.value.entries[i], d)
    ensures AllServable(cfg) <==> NoneInTheWay(items, contents, dest)
    ensures forall states, actions | CollisionFree(cfg) && NoneInTheWay(items, contents, dest)
                                     && RunToTheEnd(cfg, states, actions) ::
              Arrived(items, contents, dest, r.value.entries, states[|actions|])
  {
    hide EntryOf, Less, RdevSent, RdevRead, Mode;
    senderFiles, r := ExchangeFileList(o, clean, items, users, groups, ioErrors, localUid, localGid);
    WalkedSorted(items, senderFiles, contents, md4);
    cfg := ConfigOf(md4, seed, senderFiles, contents, r.value.entries, dest, serverSender);
    ListMeansConfig(md4, o, items, senderFiles, contents, r.value.entries, dest, cfg);
    forall states, actions | CollisionFree(cfg) && NoneInTheWay(items, contents, dest) && RunToTheEnd(cfg, states, actions)
      ensures Arrived(items, contents, dest, r.value.entries, states[|actions|])
    {
      RunBringsFiles(items, senderFiles, contents, r.value.entries, dest, cfg, states, actions);
    }
  }

  ghost predicate RunToTheEnd(cfg: Config, states: seq<State>, actions: seq<Action>)
    requires WellFormed(cfg)
  {
    Run(cfg, states, actions) && !CanMove(cfg, states[|actions|])
  }

  /** The run is finished, and every item's file is the sender's, or as it was if it vanished. */
  ghost predicate Arrived(items: seq<Item>, contents: map<Name, seq<byte>>, dest: map<Name, seq<byte>>,
                          entries: seq<Entry>, s: State)
  {
    && Finished(s) && s.up == [] && s.down == [] && |s.dest| == |entries|
    && forall k | 0 <= k < |items| && items[k].name in contents ::
         exists i :: 0 <= i < |entries| && entries[i].name == items[k].name
                     && s.dest[i] == if i in s.vanished then Lookup(dest, items[k].name) else Some(contents[items[k].name])
  }

  /** The list tells the receiver what it needs for its decisions. */
  lemma ListMeansConfig(md4: Hash, o: Options, items: seq<Item>, senderFiles: seq<Item>, contents: map<Name, seq<byte>>,
                        entries: seq<Entry>, dest: map<Name, seq<byte>>, cfg: Config)
    requires multiset(senderFiles) == multiset(items) && |senderFiles| == |items| == |entries| && o.checksum
    requires Walked(senderFiles, contents, md4) && Walked(items, contents, md4)
    requires forall i | 0 <= i < |entries| :: entries[i] == EntryOf(o, senderFiles[i])
    requires cfg == ConfigOf(md4, cfg.seed, senderFiles, contents, entries, dest, cfg.serverSender)
    ensures forall i | 0 <= i < |entries| :: entries[i].name == senderFiles[i].name
    ensures forall i, d | 0 <= i < |cfg.sources| :: Skips(cfg, i, d) <==> SkipsEntry(md4, entries[i], d)
    ensures AllServable(cfg) <==> NoneInTheWay(items, contents, dest)
  {
    hide Mode, RdevSent;
    forall i | 0 <= i < |items|
      ensures entries[i].name == senderFiles[i].name
    {
      assert entries[i] == EntryOf(o, senderFiles[i]);
    }
    if NoneInTheWay(items, contents, dest) {
      forall i | 0 <= i < |cfg.sources|
        ensures Servable(cfg, i)
      {
        var k := IndexIn(items, senderFiles, i);
      }
    }
    if AllServable(cfg) {
      forall k | 0 <= k < |items|
        ensures contents[items[k].name] != [] || Lookup(dest, items[k].name) == None || Lookup(dest, items[k].name) == Some([])
      {
        var i := IndexIn(senderFiles, items, k);
        assert Servable(cfg, i);
      }
    }
  }

  lemma RunBringsFiles(items: seq<Item>, senderFiles: seq<Item>, contents: map<Name, seq<byte>>, entries: seq<Entry>,
                       dest: map<Name, seq<byte>>, cfg: Config, states: seq<State>, actions: seq<Action>)
    requires multiset(senderFiles) == multiset(items) && |senderFiles| == |items| == |entries|
    requires Walked(senderFiles, contents, cfg.md4)
    requires forall i | 0 <= i < |entries| :: entries[i].name == senderFiles[i].name
    requires cfg == ConfigOf(cfg.md4, cfg.seed, senderFiles, contents, entries, dest, cfg.serverSender)
    requires Trusted(cfg) && RunToTheEnd(cfg, states, actions)
    ensures Arrived(items, contents, dest, entries, states[|actions|])
  {
    hide CanMove, Trusted, Enabled, Apply;
    CompletedRun(cfg, states, actions);
    var s := states[|actions|];
    forall k | 0 <= k < |items| && items[k].name in contents
      ensures exists i :: 0 <= i < |entries| && entries[i].name == items[k].name
                && s.dest[i] == if i in s.vanished then Lookup(dest, items[k].name) else Some(contents[items[k].name])
    {
      var i := IndexIn(senderFiles, items, k);
      assert entries[i].name == items[k].name && cfg.sources[i] == contents[items[k].name];
    }
  }
}
