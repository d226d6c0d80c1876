/** The delete pass: deleteFiles in internal/receiver/do.go and findInFileList in internal/receiver/flist.go. */
module Delete {
  import opened Bytes
  import opened FileEntry
  import opened FileList
  import opened Names
  import Sorting

  const SLASH: byte := 47
  const TOP: Name := [46]

  /**
   * The destination as fs.WalkDir sees it: directories list their entries in order, or cannot be listed, for one
   * because they are gone.
   */
  datatype Node = Leaf | Dir(entries: seq<(Name, Node)>) | Unreadable(gone: bool)

  /** How the walk goes on after a node: to the next one, past the remaining siblings, or not at all. */
  datatype After = Next | SkipRest | Failed(gone: bool)

  function Join(dir: Name, name: Name): Name {
    if dir == TOP then name else dir + [SLASH] + name
  }

  predicate Below(p: Name, dir: Name) {
    |p| > |dir| && p[..|dir|] == dir && p[|dir|] == SLASH
  }

  predicate Under(p: Name, root: Name) {
    p == root || Below(p, root)
  }

  ghost predicate Listed(list: seq<Entry>, name: Name) {
    exists k :: 0 <= k < |list| && list[k].name == name
  }

  /** Every directory above a listed path is listed too. */
  ghost predicate AncestorClosed(list: seq<Entry>) {
    forall n: Name, i: nat | Listed(list, n) && i < |n| && n[i] == SLASH :: Listed(list, n[..i])
  }

  /** sort.Search over the sorted list: exact membership. */
  method FindInFileList(list: seq<Entry>, name: Name) returns (found: bool)
    requires Sorting.Sorted(EntryLess, list)
    ensures found <==> Listed(list, name)
  {
    hide Less;
    var i, j := 0, |list|;
    while i < j
      invariant 0 <= i <= j <= |list|
      invariant forall k | 0 <= k < i :: Less(list[k].name, name)
      invariant forall k | j <= k < |list| :: !Less(list[k].name, name)
    {
      var h := (i + j) / 2;
      SortedAround(list, name, h);
      if Less(list[h].name, name) {
        i := h + 1;
      } else {
        j := h;
      }
    }
    found := i < |list| && list[i].name == name;
    if Listed(list, name) && !found {
      var k :| 0 <= k < |list| && list[k].name == name;
      FirstNotLess(list, name, i, k);
    }
  }

  lemma {:induction false} SortedAround(list: seq<Entry>, name: Name, h: nat)
    requires Sorting.Sorted(EntryLess, list) && h < |list|
    ensures Less(list[h].name, name) ==> forall k | 0 <= k <= h :: Less(list[k].name, name)
    ensures !Less(list[h].name, name) ==> forall k | h <= k < |list| :: !Less(list[k].name, name)
  {
    hide Less;
    forall k | 0 <= k < h && Less(list[h].name, name)
      ensures Less(list[k].name, name)
    {
      assert !EntryLess(list[h], list[k]);
      if !Less(list[k].name, name) {
        NotLessTransitive(name, list[k].name, list[h].name);
      }
    }
    forall k | h < k < |list| && !Less(list[h].name, name)
      ensures !Less(list[k].name, name)
    {
      assert !EntryLess(list[k], list[h]);
      NotLessTransitive(name, list[h].name, list[k].name);
    }
  }

  lemma {:induction false} FirstNotLess(list: seq<Entry>, name: Name, i: nat, k: nat)
    requires Sorting.Sorted(EntryLess, list) && k < |list| && list[k].name == name
    requires i <= |list| && forall m | 0 <= m < i :: Less(list[m].name, name)
    requires forall m | i <= m < |list| :: !Less(list[m].name, name)
    ensures i < |list| && list[i].name == name
  {
    hide Less;
    if k < i {
      LessAsymmetric(list[k].name, name);
    } else if i < k {
      assert !EntryLess(list[k], list[i]);
      LessTotal(list[i].name, name);
    }
  }

  // ----- the walk -----

  /**
   * The removals a walk of this node asks for, in order. Walking stops at a removed node, a removed
   * non-directory makes the walk skip its later siblings, and a directory that cannot be listed ends it.
   */
  ghost function Removed(list: seq<Entry>, path: Name, node: Node, dryRun: bool): (seq<Name>, After)
    decreases node, 1
  {
    if !Listed(list, path) && !dryRun then ([path], if node.Leaf? then SkipRest else Next)
    else match node
      case Leaf => ([], Next)
      case Unreadable(gone) => ([], Failed(gone))
      case Dir(entries) => RemovedIn(list, path, node, entries, dryRun)
  }

  ghost function RemovedIn(list: seq<Entry>, path: Name, parent: Node, entries: seq<(Name, Node)>, dryRun: bool)
    : (seq<Name>, After)
    requires parent.Dir? && forall e | e in entries :: e in parent.entries
    decreases parent, 0, |entries|
  {
    if entries == [] then ([], Next)
    else
      assert entries[0] in parent.entries;
      var (here, after) := Removed(list, Join(path, entries[0].0), entries[0].1, dryRun);
      match after
      case SkipRest => (here, Next)
      case Failed(gone) => (here, Failed(gone))
      case Next =>
        var rest := RemovedIn(list, path, parent, entries[1..], dryRun);
        (here + rest.0, rest.1)
  }

  /** The removals of the whole pass: one walk for each of the first n entries that is the top directory. */
  ghost function PassRemovals(list: seq<Entry>, n: nat, root: Node, dryRun: bool): (seq<Name>, After)
    requires n <= |list|
  {
    if n == 0 then ([], Next)
    else
      var before := PassRemovals(list, n - 1, root, dryRun);
      if before.1 != Next || list[n - 1].name != TOP then before
      else
        var (roots, after) := Removed(list, TOP, root, dryRun);
        (before.0 + roots, if after == SkipRest then Next else after)
  }

  ghost predicate UnderSome(p: Name, roots: seq<Name>) {
    exists k :: 0 <= k < |roots| && Under(p, roots[k])
  }

  /** Paths only disappear, and only under the given roots; all of those, when every removal succeeds. */
  ghost predicate Shrunk(was: set<Name>, now: set<Name>, roots: seq<Name>, all: bool) {
    && now <= was
    && (forall p | p in was && p !in now :: UnderSome(p, roots))
    && (all ==> forall p | p in now :: !UnderSome(p, roots))
  }

  lemma {:induction false} ShrunkTwice(a: set<Name>, b: set<Name>, c: set<Name>, first: seq<Name>, second: seq<Name>,
                                      firstAll: bool, secondAll: bool)
    requires Shrunk(a, b, first, firstAll) && Shrunk(b, c, second, secondAll)
    ensures Shrunk(a, c, first + second, firstAll && secondAll)
  {
    hide UnderSome;
    forall p
      ensures UnderSome(p, first + second) <==> UnderSome(p, first) || UnderSome(p, second)
    {
      UnderEither(p, first, second);
    }
  }

  lemma {:induction false} UnderEither(p: Name, first: seq<Name>, second: seq<Name>)
    ensures UnderSome(p, first + second) <==> UnderSome(p, first) || UnderSome(p, second)
  {
    hide Under;
    var roots := first + second;
    if UnderSome(p, first) {
      var k :| 0 <= k < |first| && Under(p, first[k]);
      assert roots[k] == first[k];
    }
    if UnderSome(p, second) {
      var k :| 0 <= k < |second| && Under(p, second[k]);
      assert roots[|first| + k] == second[k];
    }
  }

  lemma {:induction false} ShrunkByNothing(was: set<Name>, now: set<Name>, all: bool)
    ensures Shrunk(was, now, [], all) <==> was == now
  {
    assert Shrunk(was, now, [], all) ==> forall p | p in was :: p in now;
  }

  lemma {:induction false} RemovedInStep(list: seq<Entry>, path: Name, parent: Node, k: nat, dryRun: bool)
    requires parent.Dir? && k <= |parent.entries|
    ensures RemovedIn(list, path, parent, parent.entries[k..], dryRun) ==
            if k == |parent.entries| then ([], Next)
            else
              var (here, after) := Removed(list, Join(path, parent.entries[k].0), parent.entries[k].1, dryRun);
              match after
              case SkipRest => (here, Next)
              case Failed(gone) => (here, Failed(gone))
              case Next =>
                var rest := RemovedIn(list, path, parent, parent.entries[k + 1..], dryRun);
                (here + rest.0, rest.1)
  {
    assert k < |parent.entries| ==> parent.entries[k..][1..] == parent.entries[k + 1..];
  }

  lemma {:induction false} ListedSurvive(list: seq<Entry>, root: Node, dryRun: bool, n: nat, was: set<Name>, now: set<Name>,
                                        all: bool)
    requires n <= |list|
    requires AncestorClosed(list) && Shrunk(was, now, PassRemovals(list, n, root, dryRun).0, all)
    ensures forall p | p in was && Listed(list, p) :: p in now
  {
    hide AncestorClosed, Listed, NoneListed, UnderSome, PassRemovals;
    var roots := PassRemovals(list, n, root, dryRun).0;
    PassRemovesUnlisted(list, n, root, dryRun);
    forall p | p in was && Listed(list, p)
      ensures p in now
    {
      ListedStays(list, roots, p);
    }
  }

  class Destination {
    var paths: set<Name>
    ghost var removals: seq<Name>  // the roots RemoveAll was asked to remove
    ghost var failed: bool         // whether some RemoveAll left something of its subtree

    constructor (paths: set<Name>)
      ensures this.paths == paths && removals == [] && !failed
    {
      this.paths := paths;
      removals := [];
      failed := false;
    }

    /** os.Root.RemoveAll: removes the subtree, or fails after removing part of it. */
    method RemoveAll(root: Name)
      modifies this
      ensures removals == old(removals) + [root] && Shrunk(old(paths), paths, [root], !failed)
      ensures failed <==> old(failed) || exists p :: p in paths && Under(p, root)
    {
      hide Under;
      var whole := set p | p in paths && Under(p, root);
      var gone :| gone <= whole;
      paths := paths - gone;
      removals := removals + [root];
      failed := failed || exists p :: p in paths && Under(p, root);
      assert [root][0] == root;
    }

    /** Asks for exactly the removals of the walk, in its order. */
    method WalkNode(list: seq<Entry>, path: Name, node: Node, dryRun: bool) returns (after: After)
      requires Sorting.Sorted(EntryLess, list)
      modifies this
      ensures var (roots, next) := Removed(list, path, node, dryRun);
              after == next && removals == old(removals) + roots && Shrunk(old(paths), paths, roots, !failed)
      ensures old(failed) ==> failed
      decreases node, 1
    {
      hide Listed, UnderSome, Shrunk, RemovedIn, Sorting.Sorted;
      ShrunkByNothing(paths, paths, !failed);
      var found := FindInFileList(list, path);
      if !found && !dryRun {
        RemoveAll(path);
        // SkipDir on a directory is absorbed here; on anything else it ends the parent's loop.
        return if node.Leaf? then SkipRest else Next;
      }
      match node {
        case Leaf => after := Next;
        case Unreadable(gone) => after := Failed(gone);
        case Dir(_) => after := WalkEntries(list, path, node, dryRun);
      }
    }

    method WalkEntries(list: seq<Entry>, path: Name, parent: Node, dryRun: bool) returns (after: After)
      requires Sorting.Sorted(EntryLess, list) && parent.Dir?
      modifies this
      ensures var (roots, next) := RemovedIn(list, path, parent, parent.entries, dryRun);
              after == next && removals == old(removals) + roots && Shrunk(old(paths), paths, roots, !failed)
      ensures old(failed) ==> failed
      decreases parent, 0
    {
      hide Listed, UnderSome, Shrunk, Removed, RemovedIn, Sorting.Sorted;
      ghost var roots: seq<Name> := [];
      ghost var whole := RemovedIn(list, path, parent, parent.entries, dryRun);
      var k := 0;
      assert parent.entries[0..] == parent.entries;
      assert [] + whole.0 == whole.0;
      ShrunkByNothing(paths, paths, !failed);
      while k < |parent.entries|
        invariant 0 <= k <= |parent.entries|
        invariant removals == old(removals) + roots && Shrunk(old(paths), paths, roots, !failed)
        invariant old(failed) ==> failed
        invariant var rest := RemovedIn(list, path, parent, parent.entries[k..], dryRun);
                  roots + rest.0 == whole.0 && rest.1 == whole.1
      {
        var e := parent.entries[k];
        ghost var asked, was, before := roots, paths, failed;
        assert e in parent.entries;
        after := WalkNode(list, Join(path, e.0), e.1, dryRun);
        ghost var here := Removed(list, Join(path, e.0), e.1, dryRun).0;
        roots := asked + here;
        ShrunkTwice(old(paths), was, paths, asked, here, !before, !failed);
        ConcatAssoc(old(removals), asked, here);
        RemovedInStep(list, path, parent, k, dryRun);
        match after {
          case SkipRest => return Next;
          case Failed(gone) => return Failed(gone);
          case Next =>
            ConcatAssoc(asked, here, RemovedIn(list, path, parent, parent.entries[k + 1..], dryRun).0);
        }
        k := k + 1;
      }
      RemovedInStep(list, path, parent, k, dryRun);
      assert roots + [] == roots;
      after := Next;
    }

    /** delete_files: one walk per "." entry, none at all after an I/O error. */
    method DeleteFiles(list: seq<Entry>, ioErrors: int32, root: Option<Node>, dryRun: bool) returns (r: Result<()>)
      requires Sorting.Sorted(EntryLess, list)
      modifies this
      ensures var (roots, after) := if ioErrors > 0 || root == None then ([], Next)
                                    else PassRemovals(list, |list|, root.value, dryRun);
              && r == (if after == Failed(false) then Err(ListingFailed) else Ok(()))
              && removals == old(removals) + roots && Shrunk(old(paths), paths, roots, !failed)
      ensures ioErrors > 0 || dryRun || root == None ==> paths == old(paths)
      ensures AncestorClosed(list) ==> forall p | p in old(paths) && Listed(list, p) :: p in paths
    {
      hide AncestorClosed, Listed, UnderSome, Shrunk, Removed, Sorting.Sorted;
      ghost var roots: seq<Name> := [];
      ghost var before := paths;
      ShrunkByNothing(paths, paths, !failed);
      r := Ok(());
      if ioErrors > 0 || root == None {
        // Without a destination the walk reports that it does not exist, and the pass ends.
        return;
      }
      for k := 0 to |list|
        invariant removals == old(removals) + roots && Shrunk(before, paths, roots, !failed)
        invariant old(failed) ==> failed
        invariant PassRemovals(list, k, root.value, dryRun) == (roots, Next)
      {
        if list[k].name == TOP {
          ghost var asked, was, failedBefore := roots, paths, failed;
          var after := WalkNode(list, TOP, root.value, dryRun);
          ghost var here := Removed(list, TOP, root.value, dryRun).0;
          roots := asked + here;
          ShrunkTwice(before, was, paths, asked, here, !failedBefore, !failed);
          ConcatAssoc(old(removals), asked, here);
          if after.Failed? {
            PassEnds(list, k + 1, root.value, dryRun);
            WhatStays(list, root.value, dryRun, before, paths, !failed);
            return if after.gone then Ok(()) else Err(ListingFailed);
          }
        }
      }
      WhatStays(list, root.value, dryRun, before, paths, !failed);
    }
  }

  lemma {:induction false} WhatStays(list: seq<Entry>, root: Node, dryRun: bool, was: set<Name>, now: set<Name>, all: bool)
    requires Shrunk(was, now, PassRemovals(list, |list|, root, dryRun).0, all)
    ensures dryRun ==> now == was
    ensures AncestorClosed(list) ==> forall p | p in was && Listed(list, p) :: p in now
  {
    hide AncestorClosed, Listed, Shrunk, PassRemovals;
    if dryRun {
      DryPassRemovesNothing(list, |list|, root);
      ShrunkByNothing(was, now, all);
    }
    if AncestorClosed(list) {
      ListedSurvive(list, root, dryRun, |list|, was, now, all);
    }
  }

  /** A failed walk ends the pass. */
  lemma {:induction false} PassEnds(list: seq<Entry>, n: nat, root: Node, dryRun: bool)
    requires n <= |list| && PassRemovals(list, n, root, dryRun).1 != Next
    ensures PassRemovals(list, |list|, root, dryRun) == PassRemovals(list, n, root, dryRun)
    decreases |list| - n
  {
    if n == |list| {
    } else {
      PassEnds(list, n + 1, root, dryRun);
    }
  }

  lemma {:induction false} DryPassRemovesNothing(list: seq<Entry>, n: nat, root: Node)
    requires n <= |list|
    ensures PassRemovals(list, n, root, true).0 == []
  {
    if n == 0 {
    } else {
      DryPassRemovesNothing(list, n - 1, root);
      DryRunRemovesNothing(list, TOP, root);
    }
  }

  lemma {:induction false} DryRunRemovesNothing(list: seq<Entry>, path: Name, node: Node)
    ensures Removed(list, path, node, true).0 == []
    decreases node, 1
  {
    if node.Dir? {
      DryRunRemovesNothingIn(list, path, node, node.entries);
    }
  }

  lemma {:induction false} DryRunRemovesNothingIn(list: seq<Entry>, path: Name, parent: Node, entries: seq<(Name, Node)>)
    requires parent.Dir? && forall e | e in entries :: e in parent.entries
    ensures RemovedIn(list, path, parent, entries, true).0 == []
    decreases parent, 0, |entries|
  {
    hide Listed;
    if entries == [] {
    } else {
      assert entries[0] in parent.entries;
      DryRunRemovesNothing(list, Join(path, entries[0].0), entries[0].1);
      DryRunRemovesNothingIn(list, path, parent, entries[1..]);
    }
  }

  ghost predicate NoneListed(list: seq<Entry>, roots: seq<Name>) {
    forall k | 0 <= k < |roots| :: !Listed(list, roots[k])
  }

  lemma {:induction false} NoneListedConcat(list: seq<Entry>, a: seq<Name>, b: seq<Name>)
    requires NoneListed(list, a) && NoneListed(list, b)
    ensures NoneListed(list, a + b)
  {
    hide Listed;
    assert forall k | |a| <= k < |a + b| :: (a + b)[k] == b[k - |a|];
  }

  lemma {:induction false} PassRemovesUnlisted(list: seq<Entry>, n: nat, root: Node, dryRun: bool)
    requires n <= |list|
    ensures NoneListed(list, PassRemovals(list, n, root, dryRun).0)
  {
    hide Listed, Removed;
    if n == 0 {
    } else {
      PassRemovesUnlisted(list, n - 1, root, dryRun);
      RemovedAreUnlisted(list, TOP, root, dryRun);
      NoneListedConcat(list, PassRemovals(list, n - 1, root, dryRun).0, Removed(list, TOP, root, dryRun).0);
    }
  }

  /** Only unlisted paths are removed. */
  lemma {:induction false} RemovedAreUnlisted(list: seq<Entry>, path: Name, node: Node, dryRun: bool)
    ensures NoneListed(list, Removed(list, path, node, dryRun).0)
    decreases node, 1
  {
    if (Listed(list, path) || dryRun) && node.Dir? {
      RemovedInAreUnlisted(list, path, node, node.entries, dryRun);
    }
  }

  lemma {:induction false} RemovedInAreUnlisted(list: seq<Entry>, path: Name, parent: Node, entries: seq<(Name, Node)>,
                                                dryRun: bool)
    requires parent.Dir? && forall e | e in entries :: e in parent.entries
    ensures NoneListed(list, RemovedIn(list, path, parent, entries, dryRun).0)
    decreases parent, 0, |entries|
  {
    hide Listed, Removed;
    if entries == [] {
    } else {
      assert entries[0] in parent.entries;
      var here := Removed(list, Join(path, entries[0].0), entries[0].1, dryRun).0;
      RemovedAreUnlisted(list, Join(path, entries[0].0), entries[0].1, dryRun);
      RemovedInAreUnlisted(list, path, parent, entries[1..], dryRun);
      NoneListedConcat(list, here, RemovedIn(list, path, parent, entries[1..], dryRun).0);
    }
  }

  /** No listed path lies under an unlisted one when the list is closed under ancestors. */
  lemma {:induction false} ListedStays(list: seq<Entry>, roots: seq<Name>, p: Name)
    requires AncestorClosed(list) && Listed(list, p) && NoneListed(list, roots)
    ensures !UnderSome(p, roots)
  {
    hide Listed;
    forall k | 0 <= k < |roots|
      ensures !Under(p, roots[k])
    {
      var r := roots[k];
      assert |p| > |r| && p[|r|] == SLASH ==> Listed(list, p[..|r|]);
    }
  }
}
