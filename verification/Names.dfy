/** The bytewise order of names that both sides sort their file lists by. */
module Names {
  import opened Bytes

  type Name = seq<byte>

  /** Go's string comparison. */
  predicate Less(a: Name, b: Name) {
    if b == [] then false
    else if a == [] then true
    else a[0] < b[0] || (a[0] == b[0] && Less(a[1..], b[1..]))
  }

  /** Bytewise order: the first byte that differs decides, and a proper prefix comes first. */
  lemma {:induction false} LessIsBytewise(common: Name, a: Name, b: Name)
    ensures a != [] && b != [] && a[0] < b[0] ==> Less(common + a, common + b) && !Less(common + b, common + a)
    ensures b != [] ==> Less(common, common + b) && !Less(common + b, common)
    ensures !Less(common, common)
  {
    if common == [] {
      assert common + a == a && common + b == b;
    } else {
      LessIsBytewise(common[1..], a, b);
      assert (common + a)[1..] == common[1..] + a && (common + b)[1..] == common[1..] + b;
    }
  }

  lemma {:induction false} LessAsymmetric(a: Name, b: Name)
    requires Less(a, b)
    ensures !Less(b, a) && a != b
  {
    if a == [] || a[0] != b[0] {
    } else {
      LessAsymmetric(a[1..], b[1..]);
    }
  }

  lemma {:induction false} LessTotal(a: Name, b: Name)
    requires !Less(a, b) && !Less(b, a)
    ensures a == b
  {
    if a == [] || b == [] {
    } else {
      LessTotal(a[1..], b[1..]);
      assert a == [a[0]] + a[1..] && b == [b[0]] + b[1..];
    }
  }

  lemma {:induction false} LessTransitive(a: Name, b: Name, c: Name)
    requires Less(a, b) && Less(b, c)
    ensures Less(a, c)
  {
    if a == [] || a[0] != b[0] || b[0] != c[0] {
    } else {
      LessTransitive(a[1..], b[1..], c[1..]);
    }
  }

  lemma NotLessTransitive(a: Name, b: Name, c: Name)
    requires !Less(b, a) && !Less(c, b)
    ensures !Less(c, a)
  {
    if Less(c, a) {
      if Less(a, b) {
        LessTransitive(c, a, b);
      } else {
        LessTotal(a, b);
      }
    }
  }

  ghost predicate StrictlySorted(names: seq<Name>) {
    forall i, j | 0 <= i < j < |names| :: Less(names[i], names[j])
  }

  /** There is only one way to sort distinct names. */
  lemma {:induction false} SortedNamesAreUnique(a: seq<Name>, b: seq<Name>)
    requires StrictlySorted(a) && StrictlySorted(b)
    requires forall n: Name :: n in a <==> n in b
    ensures a == b
  {
    assert b != [] ==> b[0] in b;
    if a == [] {
    } else {
      assert a[0] in a;
      assert b != [];
      FirstIsLeast(a, b[0]);
      FirstIsLeast(b, a[0]);
      if a[0] != b[0] {
        LessAsymmetric(a[0], b[0]);
      }
      RestMembers(a, b);
      SortedNamesAreUnique(a[1..], b[1..]);
      assert a == [a[0]] + a[1..] && b == [b[0]] + b[1..];
    }
  }

  lemma FirstIsLeast(a: seq<Name>, n: Name)
    requires StrictlySorted(a) && n in a
    ensures n == a[0] || Less(a[0], n)
  {
  }

  lemma RestMembers(a: seq<Name>, b: seq<Name>)
    requires StrictlySorted(a) && StrictlySorted(b) && a != [] && b != [] && a[0] == b[0]
    requires forall n: Name :: n in a <==> n in b
    ensures forall n: Name :: n in a[1..] <==> n in b[1..]
  {
    forall n: Name
      ensures n in a[1..] <==> n in b[1..]
    {
      RestMember(a, n);
      RestMember(b, n);
    }
  }

  lemma RestMember(a: seq<Name>, n: Name)
    requires StrictlySorted(a) && a != []
    ensures n in a[1..] <==> n in a && n != a[0]
  {
    if n in a[1..] {
      var k :| 0 <= k < |a| - 1 && a[1..][k] == n;
      assert a[k + 1] == n;
      LessAsymmetric(a[0], a[k + 1]);
    }
    if n in a && n != a[0] {
      var k :| 0 <= k < |a| && a[k] == n;
      assert a[1..][k - 1] == n;
    }
  }
}
