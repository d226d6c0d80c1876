/** The 16-bit tag index over the received sums: build_hash_table in internal/sender/sender.go. */
module TagIndex {
  import opened Bytes
  import opened Checksum
  import opened SumHeads
  import Sorting

  datatype Target = Target(index: int32, tag: uint16)

  function TargetOf(sums: seq<SumBuf>, i: nat): Target
    requires i < |sums| <= 0x7FFF_FFFF
  {
    Target(i, Tag(sums[i].sum1))
  }

  /** Every sum has exactly its own target, sorted by tag; the order among equal tags is open. */
  ghost predicate TargetsOf(sums: seq<SumBuf>, targets: seq<Target>)
    requires |sums| <= 0x7FFF_FFFF
  {
    && |targets| == |sums|
    && (forall j | 0 <= j < |targets| ::
          0 <= targets[j].index < |sums| && targets[j] == TargetOf(sums, targets[j].index))
    && (forall i | 0 <= i < |sums| :: TargetOf(sums, i) in targets)
    && (forall i, j | 0 <= i < j < |targets| :: targets[i].tag <= targets[j].tag)
  }

  /** The table gives the first target from position `from` on with a tag. */
  ghost predicate FirstOfTag(targets: seq<Target>, table: map<uint16, nat>, from: nat) {
    && (forall j | from <= j < |targets| :: targets[j].tag in table)
    && (forall t | t in table ::
          from <= table[t] < |targets| && targets[table[t]].tag == t
          && forall j | from <= j < table[t] :: targets[j].tag != t)
  }

  ghost predicate Index(sums: seq<SumBuf>, targets: seq<Target>, table: map<uint16, nat>) {
    |sums| <= 0x7FFF_FFFF && TargetsOf(sums, targets) && FirstOfTag(targets, table, 0)
  }

  predicate TagLess(x: Target, y: Target) {
    x.tag < y.tag
  }

  method BuildIndex(sums: seq<SumBuf>) returns (targets: seq<Target>, tagTable: map<uint16, nat>)
    requires |sums| <= 0x7FFF_FFFF
    ensures Index(sums, targets, tagTable)
  {
    hide Tag, FirstOfTag, TargetsOf;
    var a := new Target[|sums|];
    for idx := 0 to |sums|
      invariant forall i | 0 <= i < idx :: a[i] == TargetOf(sums, i)
    {
      a[idx] := Target(idx, Tag(sums[idx].sum1));
    }
    ghost var unsorted := a[..];
    Sorting.SortSlice(a, TagLess);
    targets := a[..];
    SortedTargets(sums, unsorted, targets);
    tagTable := BuildTable(targets);
  }

  method BuildTable(targets: seq<Target>) returns (tagTable: map<uint16, nat>)
    ensures FirstOfTag(targets, tagTable, 0)
  {
    tagTable := map[];
    var idx := |targets|;
    while idx > 0
      invariant 0 <= idx <= |targets|
      invariant FirstOfTag(targets, tagTable, idx)
    {
      idx := idx - 1;
      tagTable := tagTable[targets[idx].tag := idx];
    }
  }

  lemma SortedTargets(sums: seq<SumBuf>, unsorted: seq<Target>, targets: seq<Target>)
    requires |unsorted| == |sums| <= 0x7FFF_FFFF
    requires forall i | 0 <= i < |sums| :: unsorted[i] == TargetOf(sums, i)
    requires multiset(targets) == multiset(unsorted) && Sorting.Sorted(TagLess, targets)
    ensures TargetsOf(sums, targets)
  {
    assert |targets| == |multiset(targets)| == |multiset(unsorted)| == |unsorted|;
    forall j | 0 <= j < |targets|
      ensures 0 <= targets[j].index < |sums| && targets[j] == TargetOf(sums, targets[j].index)
    {
      assert targets[j] in multiset(targets);
      assert targets[j] in unsorted;
    }
    forall i | 0 <= i < |sums|
      ensures TargetOf(sums, i) in targets
    {
      assert unsorted[i] in multiset(unsorted);
      assert TargetOf(sums, i) in multiset(targets);
    }
    forall i, j | 0 <= i < j < |targets|
      ensures targets[i].tag <= targets[j].tag
    {
      assert !TagLess(targets[j], targets[i]);
    }
  }
}
