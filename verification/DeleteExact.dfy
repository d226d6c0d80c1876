/** When the delete pass is complete, and when it is safe: exactly, for all trees. */
module DeleteExact {
  import opened Delete
  import opened FileEntry
  import opened Names

  /** The name of a directory entry. */
  predicate Component(c: Name) {
    c != [] && c != TOP && SLASH !in c
  }

  /** Entries have proper names, and no two in a directory have the same. */
  ghost predicate CleanTree(node: Node)
    decreases node
  {
    node.Dir? ==>
      && (forall k | 0 <= k < |node.entries| :: Component(node.entries[k].0) && CleanTree(node.entries[k].1))
      && (forall j, k | 0 <= j < k < |node.entries| :: node.entries[j].0 != node.entries[k].0)
  }

  /** The path of the node, or of something below it. */
  ghost predicate InTree(node: Node, path: Name, p: Name)
    decreases node
  {
    || p == path
    || (node.Dir? && exists k :: 0 <= k < |node.entries| && InTree(node.entries[k].1, PathOf(path, node, k), p))
  }

  /** The path of a directory's k-th entry. */
  function PathOf(path: Name, node: Node, k: nat): Name
    requires node.Dir? && k < |node.entries|
  {
    Join(path, node.entries[k].0)
  }

  ghost predicate HasUnlisted(list: seq<Entry>, path: Name, node: Node) {
    exists p :: InTree(node, path, p) && !Listed(list, p)
  }

  /** The k-th entry is an unlisted non-directory, whose removal ends the walk of its directory. */
  ghost predicate Stops(list: seq<Entry>, path: Name, node: Node, k: nat)
    requires node.Dir? && k < |node.entries|
  {
    node.entries[k].1.Leaf? && !Listed(list, PathOf(path, node, k))
  }

  /** Some listed directory has an unlisted non-directory before an entry with something unlisted. */
  ghost predicate Hides(list: seq<Entry>, path: Name, node: Node)
    decreases node
  {
    && node.Dir? && Listed(list, path)
    && exists k :: 0 <= k < |node.entries| &&
         (HiddenAt(list, path, node, k) || Hides(list, PathOf(path, node, k), node.entries[k].1))
  }

  ghost predicate HiddenAt(list: seq<Entry>, path: Name, node: Node, k: nat)
    requires node.Dir? && k < |node.entries|
  {
    HasUnlisted(list, PathOf(path, node, k), node.entries[k].1) && exists j :: 0 <= j < k && Stops(list, path, node, j)
  }

  ghost predicate Covered(p: Name, roots: seq<Name>) {
    exists r :: r in roots && Under(p, r)
  }

  lemma {:induction false} CoveredIsUnderSome(p: Name, roots: seq<Name>)
    ensures Covered(p, roots) <==> UnderSome(p, roots)
  {
    hide Under;
    if Covered(p, roots) {
      var r :| r in roots && Under(p, r);
      var k :| 0 <= k < |roots| && roots[k] == r;
      assert Under(p, roots[k]);
    }
  }

  // ----- paths -----

  /** Everything in a node's tree is under its path. The top directory "." is the exception: its paths are relative. */
  lemma {:induction false} InTreeIsUnder(node: Node, path: Name, p: Name)
    requires path != TOP && InTree(node, path, p)
    ensures Under(p, path)
    decreases node
  {
    if p == path {
    } else {
      var k :| 0 <= k < |node.entries| && InTree(node.entries[k].1, PathOf(path, node, k), p);
      var q := PathOf(path, node, k);
      assert q[|path|] == SLASH;
      InTreeIsUnder(node.entries[k].1, q, p);
      UnderTwice(p, q, path);
    }
  }

  lemma {:induction false} UnderTwice(p: Name, q: Name, r: Name)
    requires Under(p, q) && Under(q, r)
    ensures Under(p, r)
  {
    if p != q && q != r {
      assert p[..|r|] == p[..|q|][..|r|] == r;
      assert p[|r|] == p[..|q|][|r|];
    }
  }

  lemma {:induction false} SlashNotBefore(n: Name, s: nat, i: nat)
    requires s <= |n| && SLASH !in n[..s] && i < |n| && n[i] == SLASH
    ensures s <= i
  {
    assert forall j | 0 <= j < s :: n[..s][j] == n[j];
  }

  /** A path lies under at most one entry of a directory. */
  lemma {:induction false} SiblingsApart(path: Name, a: Name, b: Name, p: Name)
    requires Component(a) && Component(b) && Under(p, Join(path, a)) && Under(p, Join(path, b))
    ensures a == b
  {
    if |a| <= |b| {
      PrefixSibling(path, a, b, p);
    } else {
      PrefixSibling(path, b, a, p);
    }
  }

  lemma {:induction false} PrefixSibling(path: Name, a: Name, b: Name, p: Name)
    requires Component(a) && Component(b) && |a| <= |b| && Under(p, Join(path, a)) && Under(p, Join(path, b))
    ensures a == b
  {
    hide Under, Join;
    var dir := if path == TOP then [] else path + [SLASH];
    JoinIsConcat(path, a);
    JoinIsConcat(path, b);
    UnderStarts(p, dir, a);
    UnderStarts(p, dir, b);
    var tail := p[|dir|..];
    if |tail| > |a| {
      SlashNotBefore(tail, |b|, |a|);
    }
  }

  lemma {:induction false} JoinIsConcat(path: Name, a: Name)
    ensures Join(path, a) == (if path == TOP then [] else path + [SLASH]) + a
  {
  }

  /** A path under dir/a spells it out and then ends or goes on with a slash. */
  lemma {:induction false} UnderStarts(p: Name, dir: Name, a: Name)
    requires Under(p, dir + a)
    ensures |p| >= |dir| + |a| && p[|dir|..][..|a|] == a
    ensures |p| > |dir| + |a| ==> p[|dir|..][|a|] == SLASH
  {
    var q := dir + a;
    assert p[..|q|] == q;
    assert p[|dir|..][..|a|] == p[..|q|][|dir|..];
  }

  // ----- what the walk asks for, entry by entry -----

  lemma {:induction false} RootsAreInTree(list: seq<Entry>, path: Name, node: Node, r: Name)
    requires r in Removed(list, path, node, false).0
    ensures InTree(node, path, r)
    decreases node, 1
  {
    hide Listed;
    if !Listed(list, path) {
    } else {
      var k := RootComesFrom(list, path, node, 0, r);
      RootsAreInTree(list, PathOf(path, node, k), node.entries[k].1, r);
    }
  }

  /** A removal in a directory is one of an entry that no unlisted non-directory precedes. */
  lemma {:induction false} RootComesFrom(list: seq<Entry>, path: Name, node: Node, i: nat, r: Name) returns (k: nat)
    requires node.Dir? && i <= |node.entries| && r in RemovedIn(list, path, node, node.entries[i..], false).0
    ensures i <= k < |node.entries| && r in Removed(list, PathOf(path, node, k), node.entries[k].1, false).0
    ensures forall j | i <= j < k :: !Stops(list, path, node, j)
    decreases |node.entries| - i
  {
    hide Listed;
    RemovedInStep(list, path, node, i, false);
    if r in Removed(list, PathOf(path, node, i), node.entries[i].1, false).0 {
      k := i;
    } else {
      assert Removed(list, PathOf(path, node, i), node.entries[i].1, false).1 == Next;
      k := RootComesFrom(list, path, node, i + 1, r);
    }
  }

  /** An entry that nothing hides is walked, if the walk does not fail before. */
  lemma {:induction false} EntryIsWalked(list: seq<Entry>, path: Name, node: Node, i: nat, k: nat)
    requires node.Dir? && i <= k < |node.entries| && forall j | i <= j < k :: !Stops(list, path, node, j)
    requires !RemovedIn(list, path, node, node.entries[i..], false).1.Failed?
    ensures var here := Removed(list, PathOf(path, node, k), node.entries[k].1, false);
            !here.1.Failed? && forall r | r in here.0 :: r in RemovedIn(list, path, node, node.entries[i..], false).0
    decreases k - i
  {
    hide Listed;
    RemovedInStep(list, path, node, i, false);
    if i == k {
    } else {
      var after := Removed(list, PathOf(path, node, i), node.entries[i].1, false).1;
      NoSkip(list, path, node, i);
      assert after == Next;
      EntryIsWalked(list, path, node, i + 1, k);
    }
  }

  lemma {:induction false} NoSkip(list: seq<Entry>, path: Name, node: Node, i: nat)
    requires node.Dir? && i < |node.entries|
    ensures Removed(list, PathOf(path, node, i), node.entries[i].1, false).1 == SkipRest <==> Stops(list, path, node, i)
  {
    SkipOnlyAfterLeaf(list, PathOf(path, node, i), node.entries[i].1);
  }

  lemma {:induction false} SkipOnlyAfterLeaf(list: seq<Entry>, path: Name, node: Node)
    ensures Removed(list, path, node, false).1 == SkipRest <==> node.Leaf? && !Listed(list, path)
  {
    hide Listed;
    if node.Dir? {
      NeverSkipsOut(list, path, node, 0);
      assert node.entries[0..] == node.entries;
    }
  }

  lemma {:induction false} NeverSkipsOut(list: seq<Entry>, path: Name, node: Node, i: nat)
    requires node.Dir? && i <= |node.entries|
    ensures RemovedIn(list, path, node, node.entries[i..], false).1 != SkipRest
    decreases |node.entries| - i
  {
    hide Listed;
    RemovedInStep(list, path, node, i, false);
    if i == |node.entries| {
    } else {
      NeverSkipsOut(list, path, node, i + 1);
    }
  }

  // ----- completeness -----

  lemma {:induction false} NothingHiddenIsCovered(list: seq<Entry>, path: Name, node: Node, p: Name)
    requires !Hides(list, path, node) && !Removed(list, path, node, false).1.Failed?
    requires Listed(list, path) || path != TOP
    requires CleanTree(node) && InTree(node, path, p) && !Listed(list, p)
    ensures Covered(p, Removed(list, path, node, false).0)
    decreases node
  {
    hide Listed, Under;
    if !Listed(list, path) {
      InTreeIsUnder(node, path, p);
      assert path in [path];
    } else {
      var k :| 0 <= k < |node.entries| && InTree(node.entries[k].1, PathOf(path, node, k), p);
      assert !HiddenAt(list, path, node, k) && HasUnlisted(list, PathOf(path, node, k), node.entries[k].1);
      assert node.entries[0..] == node.entries;
      assert Component(node.entries[k].0);
      EntryIsWalked(list, path, node, 0, k);
      PathIsNotTop(path, node.entries[k].0);
      NothingHiddenIsCovered(list, PathOf(path, node, k), node.entries[k].1, p);
    }
  }

  lemma {:induction false} PathIsNotTop(path: Name, name: Name)
    requires Component(name)
    ensures Join(path, name) != TOP
  {
    if path != TOP {
      assert Join(path, name)[|path|] == SLASH;
    }
  }

  lemma {:induction false} HiddenIsNotCovered(list: seq<Entry>, path: Name, node: Node) returns (p: Name)
    requires Hides(list, path, node) && CleanTree(node)
    ensures InTree(node, path, p) && !Listed(list, p) && !Covered(p, Removed(list, path, node, false).0)
    decreases node
  {
    hide Listed, Under, Component;
    var k :| 0 <= k < |node.entries| &&
             (HiddenAt(list, path, node, k) || Hides(list, PathOf(path, node, k), node.entries[k].1));
    var q, child := PathOf(path, node, k), node.entries[k].1;
    if HiddenAt(list, path, node, k) {
      p :| InTree(child, q, p) && !Listed(list, p);
    } else {
      p := HiddenIsNotCovered(list, q, child);
    }
    assert node.entries[0..] == node.entries;
    forall r | r in Removed(list, path, node, false).0
      ensures !Under(p, r)
    {
      var m := RootComesFrom(list, path, node, 0, r);
      if m == k {
        assert !HiddenAt(list, path, node, k);
      } else {
        RootIsElsewhere(list, path, node, k, m, p, r);
      }
    }
  }

  /** What one entry's removals take away is not in another entry's tree. */
  lemma {:induction false} RootIsElsewhere(list: seq<Entry>, path: Name, node: Node, k: nat, m: nat, p: Name, r: Name)
    requires node.Dir? && CleanTree(node) && k < |node.entries| && m < |node.entries| && k != m
    requires InTree(node.entries[k].1, PathOf(path, node, k), p)
    requires r in Removed(list, PathOf(path, node, m), node.entries[m].1, false).0
    ensures !Under(p, r)
  {
    hide Listed, Under, Component, Removed;
    var a, b := node.entries[k].0, node.entries[m].0;
    assert Component(a) && Component(b) && a != b;
    PathIsNotTop(path, a);
    PathIsNotTop(path, b);
    RootsAreInTree(list, PathOf(path, node, m), node.entries[m].1, r);
    InTreeIsUnder(node.entries[k].1, PathOf(path, node, k), p);
    InTreeIsUnder(node.entries[m].1, PathOf(path, node, m), r);
    if Under(p, r) {
      UnderTwice(p, r, PathOf(path, node, m));
      SiblingsApart(path, a, b, p);
    }
  }

  /** With the top directory listed, a pass that does not fail asks for what one walk asks for. */
  lemma {:induction false} PassIsOneWalk(list: seq<Entry>, n: nat, root: Node)
    requires n <= |list| && PassRemovals(list, n, root, false).1 == Next
    requires exists k :: 0 <= k < n && list[k].name == TOP
    ensures !Removed(list, TOP, root, false).1.Failed?
    ensures forall r :: r in PassRemovals(list, n, root, false).0 <==> r in Removed(list, TOP, root, false).0
  {
    hide Removed;
    if exists k :: 0 <= k < n - 1 && list[k].name == TOP {
      PassIsOneWalk(list, n - 1, root);
    } else {
      NoWalk(list, n - 1, root);
    }
  }

  lemma {:induction false} NoWalk(list: seq<Entry>, n: nat, root: Node)
    requires n <= |list| && forall k | 0 <= k < n :: list[k].name != TOP
    ensures PassRemovals(list, n, root, false) == ([], Next)
  {
    hide Removed;
    if n == 0 {
    } else {
      NoWalk(list, n - 1, root);
    }
  }

  /** Every unlisted path of the tree lies under some removal of the pass. */
  ghost predicate Complete(list: seq<Entry>, tree: Node) {
    forall p | InTree(tree, TOP, p) && !Listed(list, p) :: UnderSome(p, PassRemovals(list, |list|, tree, false).0)
  }

  /**
   * A pass that does not fail takes away everything unlisted exactly when no listed directory has an unlisted
   * non-directory before an entry with something unlisted in it.
   */
  lemma {:induction false} CompleteExactly(list: seq<Entry>, tree: Node)
    requires Listed(list, TOP) && CleanTree(tree) && PassRemovals(list, |list|, tree, false).1 == Next
    ensures Complete(list, tree) <==> !Hides(list, TOP, tree)
  {
    hide Under, Removed, Hides, InTree, CleanTree, PassRemovals, UnderSome;
    var pass, walk := PassRemovals(list, |list|, tree, false).0, Removed(list, TOP, tree, false).0;
    PassIsOneWalk(list, |list|, tree);
    forall p
      ensures UnderSome(p, pass) <==> Covered(p, walk)
    {
      CoveredIsUnderSome(p, pass);
    }
    if Hides(list, TOP, tree) {
      var p := HiddenIsNotCovered(list, TOP, tree);
    } else {
      forall p | InTree(tree, TOP, p) && !Listed(list, p)
        ensures UnderSome(p, pass)
      {
        NothingHiddenIsCovered(list, TOP, tree, p);
      }
    }
  }

  /**
   * What is left when every removal succeeds: for a list closed under ancestors, exactly the listed paths of the
   * tree, if and only if nothing is hidden.
   */
  lemma {:induction false} LeavesListedExactly(list: seq<Entry>, tree: Node, was: set<Name>, now: set<Name>)
    requires Listed(list, TOP) && CleanTree(tree) && PassRemovals(list, |list|, tree, false).1 == Next
    requires AncestorClosed(list) && forall p :: p in was <==> InTree(tree, TOP, p)
    requires Shrunk(was, now, PassRemovals(list, |list|, tree, false).0, true)
    ensures (forall p :: p in now <==> InTree(tree, TOP, p) && Listed(list, p)) <==> !Hides(list, TOP, tree)
  {
    hide Listed, Under, Removed, Hides, InTree, CleanTree, PassRemovals, UnderSome, AncestorClosed, NoneListed;
    var roots := PassRemovals(list, |list|, tree, false).0;
    CompleteExactly(list, tree);
    PassRemovesUnlisted(list, |list|, tree, false);
    forall p | Listed(list, p)
      ensures !UnderSome(p, roots)
    {
      ListedStays(list, roots, p);
    }
    assert forall p :: p in now <==> p in was && !UnderSome(p, roots);
  }

  // ----- safety -----

  /** Where the first component of a name ends. */
  function FirstSlash(n: Name): (s: nat)
    ensures s <= |n| && SLASH !in n[..s]
    ensures s < |n| ==> n[s] == SLASH
  {
    if n == [] || n[0] == SLASH then 0
    else
      var s := 1 + FirstSlash(n[1..]);
      assert n[..s] == [n[0]] + n[1..][..s - 1];
      s
  }

  /** A relative path of proper components. */
  predicate CleanName(n: Name)
    decreases |n|
  {
    var s := FirstSlash(n);
    Component(n[..s]) && (s < |n| ==> CleanName(n[s + 1..]))
  }

  /** A directory in which the path n is all there is. */
  function Chain(n: Name): Node
    decreases |n|
  {
    var s := FirstSlash(n);
    Dir([(n[..s], if s < |n| then Chain(n[s + 1..]) else Leaf)])
  }

  lemma {:induction false} ChainIsClean(n: Name)
    requires CleanName(n)
    ensures CleanTree(Chain(n))
    decreases |n|
  {
    var s := FirstSlash(n);
    if s < |n| {
      ChainIsClean(n[s + 1..]);
    }
    assert |Chain(n).entries| == 1;
  }

  /** A path in two steps. */
  lemma {:induction false} JoinTwice(dir: Name, n: Name, s: nat, i: nat)
    requires s < i <= |n| && n[s] == SLASH && Component(n[..s])
    ensures n[s + 1..][..i - s - 1] == n[s + 1..i]
    ensures Join(Join(dir, n[..s]), n[s + 1..i]) == Join(dir, n[..i])
  {
    PathIsNotTop(dir, n[..s]);
    assert n[..i] == n[..s] + [SLASH] + n[s + 1..i];
    assert dir + [SLASH] + n[..i] == dir + [SLASH] + n[..s] + [SLASH] + n[s + 1..i];
  }

  lemma {:induction false} JoinWhole(dir: Name, n: Name, s: nat)
    requires s < |n| && n[s] == SLASH && Component(n[..s])
    ensures Join(Join(dir, n[..s]), n[s + 1..]) == Join(dir, n)
  {
    JoinTwice(dir, n, s, |n|);
    assert n[..|n|] == n && n[s + 1..|n|] == n[s + 1..];
  }

  lemma {:induction false} ChainHolds(dir: Name, n: Name)
    requires CleanName(n)
    ensures InTree(Chain(n), dir, Join(dir, n))
    decreases |n|
  {
    hide Join;
    var s := FirstSlash(n);
    var node := Chain(n);
    var q := PathOf(dir, node, 0);
    if s < |n| {
      ChainHolds(q, n[s + 1..]);
      JoinWhole(dir, n, s);
    } else {
      assert n[..s] == n;
    }
    assert InTree(node.entries[0].1, q, Join(dir, n));
  }

  /** A directory with one entry, when the walk is not stopped in it. */
  lemma {:induction false} OneEntry(list: seq<Entry>, dir: Name, node: Node)
    requires node.Dir? && |node.entries| == 1 && Listed(list, dir)
    requires Removed(list, PathOf(dir, node, 0), node.entries[0].1, false).1 == Next
    ensures Removed(list, dir, node, false) == Removed(list, PathOf(dir, node, 0), node.entries[0].1, false)
  {
    hide Listed, Join;
    var here := Removed(list, PathOf(dir, node, 0), node.entries[0].1, false);
    assert node.entries[0..] == node.entries;
    RemovedInStep(list, dir, node, 0, false);
    RemovedInStep(list, dir, node, 1, false);
    assert here.0 + [] == here.0;
  }

  /** Walking down the chain removes the first unlisted directory on the way, and the path with it. */
  lemma {:induction false} ChainIsLost(list: seq<Entry>, dir: Name, n: Name, i: nat)
    requires CleanName(n) && Listed(list, dir)
    requires i < |n| && n[i] == SLASH && !Listed(list, Join(dir, n[..i]))
    ensures Covered(Join(dir, n), Removed(list, dir, Chain(n), false).0)
    ensures Removed(list, dir, Chain(n), false).1 == Next
    decreases |n|
  {
    hide Listed, Join, Under, Component, Removed, RemovedIn;
    var s := FirstSlash(n);
    SlashNotBefore(n, s, i);
    var node := Chain(n);
    var q, tail := PathOf(dir, node, 0), n[s + 1..];
    JoinWhole(dir, n, s);
    if Listed(list, q) {
      JoinTwice(dir, n, s, i);
      ChainIsLost(list, q, tail, i - s - 1);
    } else {
      PathIsNotTop(dir, n[..s]);
      JoinIsBelow(q, tail);
      UnlistedGoes(list, q, node.entries[0].1);
      assert q in [q];
    }
    OneEntry(list, dir, node);
  }

  lemma {:induction false} UnlistedGoes(list: seq<Entry>, path: Name, node: Node)
    requires !Listed(list, path) && !node.Leaf?
    ensures Removed(list, path, node, false) == ([path], Next)
  {
  }

  lemma {:induction false} JoinIsBelow(q: Name, tail: Name)
    requires q != TOP
    ensures Under(Join(q, tail), q)
  {
    var p := Join(q, tail);
    assert p[..|q|] == q && p[|q|] == SLASH;
  }

  /** No pass over any tree takes away a listed path that is in the tree. */
  ghost predicate Safe(list: seq<Entry>) {
    forall tree, p | CleanTree(tree) && InTree(tree, TOP, p) && Listed(list, p) ::
      !UnderSome(p, PassRemovals(list, |list|, tree, false).0)
  }

  ghost predicate CleanList(list: seq<Entry>) {
    forall k | 0 <= k < |list| :: list[k].name == TOP || CleanName(list[k].name)
  }

  /** Closure under ancestors is exactly what the delete pass needs to spare every listed path. */
  lemma {:induction false} SafeExactly(list: seq<Entry>)
    requires Listed(list, TOP) && CleanList(list)
    ensures Safe(list) <==> AncestorClosed(list)
  {
    hide Listed, Under, Removed, InTree, CleanTree, PassRemovals, UnderSome, NoneListed, CleanName;
    if AncestorClosed(list) {
      forall tree, p | CleanTree(tree) && InTree(tree, TOP, p) && Listed(list, p)
        ensures !UnderSome(p, PassRemovals(list, |list|, tree, false).0)
      {
        PassRemovesUnlisted(list, |list|, tree, false);
        ListedStays(list, PassRemovals(list, |list|, tree, false).0, p);
      }
    } else {
      var n: Name, i: nat :| Listed(list, n) && i < |n| && n[i] == SLASH && !Listed(list, n[..i]);
      ListedIsClean(list, n);
      var tree := Chain(n);
      ChainIsClean(n);
      ChainHolds(TOP, n);
      ChainIsLost(list, TOP, n, i);
      PassWalksOnce(list, tree);
      CoveredIsUnderSome(n, PassRemovals(list, |list|, tree, false).0);
    }
  }

  lemma {:induction false} ListedIsClean(list: seq<Entry>, n: Name)
    requires CleanList(list) && Listed(list, n) && SLASH in n
    ensures CleanName(n)
  {
    hide CleanName;
  }

  lemma {:induction false} PassSucceeds(list: seq<Entry>, n: nat, tree: Node)
    requires n <= |list| && Removed(list, TOP, tree, false).1 == Next
    ensures PassRemovals(list, n, tree, false).1 == Next
  {
    hide Removed;
    if n == 0 {
    } else {
      PassSucceeds(list, n - 1, tree);
    }
  }

  lemma {:induction false} PassWalksOnce(list: seq<Entry>, tree: Node)
    requires Listed(list, TOP) && Removed(list, TOP, tree, false).1 == Next
    ensures forall r :: r in PassRemovals(list, |list|, tree, false).0 <==> r in Removed(list, TOP, tree, false).0
  {
    hide Removed, PassRemovals;
    PassSucceeds(list, |list|, tree);
    PassIsOneWalk(list, |list|, tree);
  }

  // ----- the smallest failures -----

  function Named(name: Name): Entry {
    NO_ENTRY.(name := name)
  }

  /** "a/b" is listed, "a" is not: removing "a" takes "a/b" away. */
  lemma {:induction false} OpenListLosesListed()
    ensures var list := [Named(TOP), Named([97, 47, 98])];
            var tree := Dir([([97], Dir([([98], Leaf)]))]);
            && Listed(list, [97, 47, 98]) && Removed(list, TOP, tree, false).0 == [[97]] && Under([97, 47, 98], [97])
  {
    var list := [Named(TOP), Named([97, 47, 98])];
    var tree := Dir([([97], Dir([([98], Leaf)]))]);
    assert list[0].name == TOP && list[1].name == [97, 47, 98];
    OneEntry(list, TOP, tree);
    assert Below([97, 47, 98], [97]);
  }

  /** Removing the unlisted file "a" skips its unlisted sibling "b". */
  lemma {:induction false} SiblingOfDeletedFileSurvives()
    ensures var list := [Named(TOP)];
            var tree := Dir([([97], Leaf), ([98], Leaf)]);
            Removed(list, TOP, tree, false).0 == [[97]] && !Listed(list, [98])
  {
    var list := [Named(TOP)];
    var tree := Dir([([97], Leaf), ([98], Leaf)]);
    assert list[0].name == TOP;
    assert tree.entries[0..] == tree.entries;
    RemovedInStep(list, TOP, tree, 0, false);
  }
}
