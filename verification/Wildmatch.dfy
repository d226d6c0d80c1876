/** The wildcard matcher and the filter rules of internal/sender/exclude.go. Strings stand for byte strings. */
module Wildmatch {
  import opened Bytes

  // ----- character classes, as coded -----

  datatype Range = Range(lo: char, hi: char) {
    predicate Contains(c: char) {
      lo <= c <= hi
    }
  }

  /** A class item at i is a range only when '-' and then something other than ']' follow. */
  predicate IsRange(p: string, i: nat) {
    i + 2 < |p| && p[i + 1] == '-' && p[i + 2] != ']'
  }

  /** A ']' in first position belongs to the class; an unterminated class runs to the end of the pattern. */
  predicate ClassStops(p: string, i: nat, first: bool) {
    i >= |p| || (p[i] == ']' && !first)
  }

  function ClassItems(p: string, i: nat, first: bool): seq<Range>
    decreases |p| - i
  {
    if ClassStops(p, i, first) then []
    else if IsRange(p, i) then [Range(p[i], p[i + 2])] + ClassItems(p, i + 3, false)
    else [Range(p[i], p[i])] + ClassItems(p, i + 1, false)
  }

  function ClassEnd(p: string, i: nat, first: bool): (end: nat)
    ensures i <= end && end <= Max(i, |p|)
    decreases |p| - i
  {
    if ClassStops(p, i, first) then i
    else if IsRange(p, i) then ClassEnd(p, i + 3, false)
    else ClassEnd(p, i + 1, false)
  }

  predicate Negated(p: string) {
    |p| > 1 && (p[1] == '!' || p[1] == '^')
  }

  /** Where the items of the class at the front of p start. */
  function ClassStart(p: string): nat {
    if Negated(p) then 2 else 1
  }

  ghost predicate SomeContains(items: seq<Range>, c: char) {
    exists k | 0 <= k < |items| :: items[k].Contains(c)
  }

  ghost predicate ClassAccepts(p: string, c: char) {
    SomeContains(ClassItems(p, ClassStart(p), true), c) != Negated(p)
  }

  /** What follows the class at the front of p. */
  function AfterClass(p: string): (rest: string)
    requires p != []
    ensures |rest| < |p|
  {
    var end := ClassEnd(p, ClassStart(p), true);
    if end + 1 <= |p| then p[end + 1..] else []
  }

  // ----- the declarative matcher -----

  function Stars(p: string): (n: nat)
    ensures n <= |p|
  {
    if p != [] && p[0] == '*' then 1 + Stars(p[1..]) else 0
  }

  /** What a run of n stars may stand for: one star stops at slashes, two or more do not. */
  predicate StarCovers(n: nat, s: string) {
    n >= 2 || '/' !in s
  }

  ghost predicate Matches(p: string, t: string)
    decreases |p|
  {
    if p == [] then t == []
    else if p[0] == '*' then
      exists j | 0 <= j <= |t| :: StarCovers(Stars(p), t[..j]) && Matches(p[Stars(p)..], t[j..])
    else if t == [] then false
    else if p[0] == '?' then t[0] != '/' && Matches(p[1..], t[1..])
    else if p[0] == '[' then ClassAccepts(p, t[0]) && Matches(AfterClass(p), t[1..])
    else t[0] == p[0] && Matches(p[1..], t[1..])
  }

  // ----- the coded matcher -----

  method ContainsSlash(b: string) returns (r: bool)
    ensures r <==> '/' in b
  {
    for i := 0 to |b|
      invariant '/' !in b[..i]
    {
      if b[i] == '/' {
        return true;
      }
    }
    r := false;
  }

  lemma {:induction false} StarsAre(p: string, n: nat)
    requires n <= |p| && forall k | 0 <= k < n :: p[k] == '*'
    requires n < |p| ==> p[n] != '*'
    ensures Stars(p) == n
  {
    if n == 0 {
    } else {
      StarsAre(p[1..], n - 1);
    }
  }

  /** Walks the run of stars at pi and returns the position of its last star. */
  method SkipStars(p: string, pi: nat) returns (last: nat)
    requires pi < |p| && p[pi] == '*'
    ensures pi <= last < |p| && last + 1 - pi == Stars(p[pi..])
  {
    last := pi;
    while last + 1 < |p| && p[last + 1] == '*'
      invariant pi <= last < |p| && forall k | pi <= k <= last :: p[k] == '*'
    {
      last := last + 1;
    }
    StarsAre(p[pi..], last + 1 - pi);
  }

  /** Scans the class at pi; returns its end and whether it accepts c. */
  method ScanClass(p: string, pi: nat, c: char) returns (end: nat, accepted: bool)
    requires pi < |p| && p[pi] == '['
    ensures pi < end && Min(end + 1, |p|) == |p| - |AfterClass(p[pi..])|
    ensures accepted <==> ClassAccepts(p[pi..], c)
  {
    hide IsRange, SomeContains, ClassItems, ClassEnd;
    ghost var q := p[pi..];
    end := pi + 1;
    var negate := end < |p| && (p[end] == '!' || p[end] == '^');
    if negate {
      end := end + 1;
    }
    assert negate == Negated(q) && end - pi == ClassStart(q);
    var matched, first := false, true;
    ghost var items := ClassItems(q, ClassStart(q), true);
    ghost var done: seq<Range> := [];
    NoneContains(c);
    while end < |p| && (p[end] != ']' || first)
      invariant pi < end
      invariant done + ClassItems(q, end - pi, first) == items
      invariant ClassEnd(q, end - pi, first) == ClassEnd(q, ClassStart(q), true)
      invariant matched <==> SomeContains(done, c)
      decreases |p| - end
    {
      SameItem(p, pi, end);
      var item, width := Range(p[end], p[end]), 1;
      if end + 2 < |p| && p[end + 1] == '-' && p[end + 2] != ']' {
        item, width := Range(p[end], p[end + 2]), 3;
      }
      ClassStep(q, end - pi, first, done, item, width);
      SnocContains(done, item, c);
      if item.lo <= c <= item.hi {
        matched := true;
      }
      done := done + [item];
      end := end + width;
      first := false;
    }
    assert ClassStops(q, end - pi, first) by {
      assert end < |p| ==> q[end - pi] == p[end];
    }
    ClassOver(q, end - pi, first);
    assert done == done + [] == items;
    accepted := matched != negate;
  }

  lemma ClassOver(q: string, i: nat, first: bool)
    requires ClassStops(q, i, first)
    ensures ClassItems(q, i, first) == [] && ClassEnd(q, i, first) == i
  {
  }

  lemma SameItem(p: string, pi: nat, end: nat)
    requires pi < end < |p|
    ensures p[pi..][end - pi] == p[end]
    ensures IsRange(p[pi..], end - pi) <==> end + 2 < |p| && p[end + 1] == '-' && p[end + 2] != ']'
    ensures end + 2 < |p| ==> p[pi..][end - pi + 2] == p[end + 2]
  {
  }

  lemma NoneContains(c: char)
    ensures !SomeContains([], c)
  {
  }

  lemma SnocContains(items: seq<Range>, item: Range, c: char)
    ensures SomeContains(items + [item], c) <==> SomeContains(items, c) || item.Contains(c)
  {
    var all := items + [item];
    if SomeContains(items, c) {
      var k :| 0 <= k < |items| && items[k].Contains(c);
      assert all[k].Contains(c);
    }
    assert item.Contains(c) ==> all[|items|].Contains(c);
  }

  lemma ClassStep(q: string, i: nat, first: bool, done: seq<Range>, item: Range, width: nat)
    requires !ClassStops(q, i, first)
    requires if IsRange(q, i) then item == Range(q[i], q[i + 2]) && width == 3 else item == Range(q[i], q[i]) && width == 1
    ensures (done + [item]) + ClassItems(q, i + width, false) == done + ClassItems(q, i, first)
    ensures ClassEnd(q, i + width, false) == ClassEnd(q, i, first)
  {
    ConcatAssoc(done, [item], ClassItems(q, i + width, false));
  }

  /** What the pattern at pi, if it is no star, asks of the text at ti. */
  lemma MatchStep(p: string, t: string, pi: nat, ti: nat)
    requires pi < |p| && ti <= |t| && p[pi] != '*'
    ensures ti == |t| ==> !Matches(p[pi..], t[ti..])
    ensures ti < |t| ==>
              (Matches(p[pi..], t[ti..]) <==>
                 if p[pi] == '?' then t[ti] != '/' && Matches(p[pi + 1..], t[ti + 1..])
                 else if p[pi] == '[' then ClassAccepts(p[pi..], t[ti]) && Matches(AfterClass(p[pi..]), t[ti + 1..])
                 else t[ti] == p[pi] && Matches(p[pi + 1..], t[ti + 1..]))
  {
    hide ClassAccepts, AfterClass, StarCovers, Stars;
    assert p[pi..][1..] == p[pi + 1..];
    assert ti < |t| ==> t[ti..][1..] == t[ti + 1..];
  }

  /** What follows a class is a suffix of the pattern. */
  lemma ClassLeaves(p: string, pi: nat, next: nat)
    requires pi < |p| && next <= |p| && next == |p| - |AfterClass(p[pi..])|
    ensures AfterClass(p[pi..]) == p[next..]
  {
    hide ClassEnd;
    var q := p[pi..];
    var end := ClassEnd(q, ClassStart(q), true);
    if end + 1 <= |q| {
      assert q[end + 1..] == p[pi + end + 1..];
    }
  }

  lemma MatchEnd(t: string, ti: nat)
    requires ti <= |t|
    ensures Matches([], t[ti..]) <==> ti == |t|
  {
  }

  /** dowild: returns exactly the declarative match, for every pattern and text. */
  method DoWild(p: string, t: string) returns (r: bool)
    ensures r <==> Matches(p, t)
    decreases |p|
  {
    hide Matches, ClassAccepts, AfterClass;
    var ti, pi := 0, 0;
    assert p[0..] == p && t[0..] == t;
    while pi < |p|
      invariant ti <= |t|
      invariant Matches(p, t) <==> Matches(p[Min(pi, |p|)..], t[ti..])
      decreases |p| - pi
    {
      var pc := p[pi];
      if pc != '*' {
        MatchStep(p, t, pi, ti);
      }
      if ti >= |t| && pc != '*' {
        return false;
      }
      if pc == '*' {
        r := MatchStar(p, t, pi, ti);
        return;
      } else if pc == '?' {
        if t[ti] == '/' {
          return false;
        }
        ti := ti + 1;
      } else if pc == '[' {
        var end, accepted := ScanClass(p, pi, t[ti]);
        ClassLeaves(p, pi, Min(end + 1, |p|));
        if !accepted {
          return false;
        }
        pi := end;
        ti := ti + 1;
      } else {
        if t[ti] != pc {
          return false;
        }
        ti := ti + 1;
      }
      pi := pi + 1;
    }
    MatchEnd(t, ti);
    r := ti == |t|;
  }

  /** The stars may stand for the first j characters, and the rest of the pattern matches what follows. */
  ghost predicate SplitsAt(n: nat, rest: string, w: string, j: nat)
    requires j <= |w|
  {
    StarCovers(n, w[..j]) && Matches(rest, w[j..])
  }

  lemma StarSplits(p: string, w: string)
    requires p != [] && p[0] == '*'
    ensures Matches(p, w) <==> exists j: nat :: j <= |w| && SplitsAt(Stars(p), p[Stars(p)..], w, j)
  {
    assert Matches(p, w) ==>
        exists j: nat :: j <= |w| && StarCovers(Stars(p), w[..j]) && Matches(p[Stars(p)..], w[j..]) && SplitsAt(Stars(p), p[Stars(p)..], w, j);
  }

  /** One star stops at a slash, two do not. */
  lemma CoversNext(n: nat, w: string, k: nat)
    requires k < |w| && StarCovers(n, w[..k])
    ensures n >= 2 || w[k] != '/' ==> StarCovers(n, w[..k + 1])
    ensures n < 2 && w[k] == '/' ==> forall j | k < j <= |w| :: !StarCovers(n, w[..j])
  {
    assert w[..k + 1] == w[..k] + [w[k]];
    forall j | n < 2 && w[k] == '/' && k < j <= |w|
      ensures !StarCovers(n, w[..j])
    {
      assert w[..j][k] == '/';
    }
  }

  /** Stars at the end of the pattern stand for all that is left. */
  lemma LastStars(n: nat, w: string)
    ensures (exists j: nat :: j <= |w| && SplitsAt(n, [], w, j)) <==> n >= 2 || '/' !in w
  {
    assert w[..|w|] == w && w[|w|..] == [];
    if n >= 2 || '/' !in w {
      assert SplitsAt(n, [], w, |w|);
    }
  }

  /** The star case: tries every split, recursing on the rest of the pattern. */
  method MatchStar(p: string, t: string, start: nat, from: nat) returns (r: bool)
    requires start < |p| && p[start] == '*' && from <= |t|
    ensures r <==> Matches(p[start..], t[from..])
    decreases |p|, 0
  {
    hide Matches, Stars, StarCovers;
    var pi := SkipStars(p, start);
    var doubleStar := start + 1 < |p| && p[start + 1] == '*';
    ghost var n, w := Stars(p[start..]), t[from..];
    ghost var rest := p[pi + 1..];
    assert p[start..][n..] == rest;
    StarsTwo(p[start..]);
    StarSplits(p[start..], w);
    var ti := from;
    if pi == |p| - 1 {
      var slash := ContainsSlash(t[ti..]);
      LastStars(n, w);
      return doubleStar || !slash;
    }
    CoversNothing(n, w);
    while ti <= |t|
      invariant from <= ti <= |t| + 1
      invariant forall j: nat | j < ti - from :: !SplitsAt(n, rest, w, j)
      invariant ti <= |t| ==> StarCovers(n, w[..ti - from])
    {
      assert t[ti..] == w[ti - from..];
      var found := DoWild(p[pi + 1..], t[ti..]);
      if found {
        assert SplitsAt(n, rest, w, ti - from);
        return true;
      }
      assert !SplitsAt(n, rest, w, ti - from);
      if ti < |t| {
        CoversNext(n, w, ti - from);
        if t[ti] == '/' && !doubleStar {
          return false;
        }
      }
      ti := ti + 1;
    }
    r := false;
  }

  lemma CoversNothing(n: nat, w: string)
    ensures StarCovers(n, w[..0])
  {
  }

  lemma StarsTwo(p: string)
    requires p != [] && p[0] == '*'
    ensures Stars(p) >= 2 <==> |p| > 1 && p[1] == '*'
  {
  }

  // ----- what patterns mean -----

  /** A star alone matches what holds no slash, two or more match everything. */
  lemma StarsAlone(t: string)
    ensures Matches("*", t) <==> '/' !in t
    ensures Matches("**", t)
  {
    StarSplits("*", t);
    StarSplits("**", t);
    assert "*"[1..] == [] && "**"[1..] == "*" && "**"[2..] == [];
    assert Stars("*") == 1 && Stars("**") == 2;
    LastStars(1, t);
    LastStars(2, t);
  }

  /** The items of a class do not depend on what the class opens with. */
  lemma {:induction false} ItemsShift(p: string, q: string, i: nat, j: nat, first: bool)
    requires i <= |p| && j <= |q| && p[i..] == q[j..]
    ensures ClassItems(p, i, first) == ClassItems(q, j, first)
    ensures ClassEnd(p, i, first) - i == ClassEnd(q, j, first) - j
    decreases |p| - i
  {
    assert |p| - i == |q| - j;
    assert forall k | 0 <= k < |p| - i :: p[i + k] == p[i..][k] == q[j..][k] == q[j + k];
    if ClassStops(p, i, first) {
    } else {
      var width := if IsRange(p, i) then 3 else 1;
      assert p[i + width..] == p[i..][width..] == q[j..][width..] == q[j + width..];
      ItemsShift(p, q, i + width, j + width, false);
    }
  }

  /** '!' and '^' after the bracket turn a class into its complement, and leave what follows it alone. */
  lemma NegationIsComplement(s: string, mark: char, c: char)
    requires mark == '!' || mark == '^'
    requires s != "" ==> s[0] != '!' && s[0] != '^'
    ensures ClassAccepts("[" + [mark] + s, c) <==> !ClassAccepts("[" + s, c)
    ensures AfterClass("[" + [mark] + s) == AfterClass("[" + s)
  {
    hide ClassItems, ClassEnd, SomeContains, AfterClass;
    var p, q := "[" + [mark] + s, "[" + s;
    assert p[2..] == s && q[1..] == s;
    assert s != "" ==> q[1] == s[0];
    ItemsShift(p, q, 2, 1, true);
    RestShifts(p, q);
  }

  /** What follows a class, from where its items end. */
  lemma RestShifts(p: string, q: string)
    requires p != "" && q != "" && ClassStart(p) == 2 <= |p| && ClassStart(q) == 1 && p[2..] == q[1..]
    requires ClassEnd(p, 2, true) - 2 == ClassEnd(q, 1, true) - 1
    ensures AfterClass(p) == AfterClass(q)
  {
    hide ClassEnd, ClassStart;
    var end := ClassEnd(q, 1, true);
    assert |p| == |q| + 1;
    if end + 1 <= |q| {
      assert p[end + 2..] == p[2..][end..];
      assert q[end + 1..] == q[1..][end..];
    }
  }

  /** A class of one range holds the characters from its first to its last; a range cannot end with ']'. */
  lemma RangeClass(lo: char, hi: char, rest: string, c: char)
    requires lo != '!' && lo != '^' && hi != ']'
    ensures var p := "[" + [lo, '-', hi, ']'] + rest;
            (ClassAccepts(p, c) <==> lo <= c <= hi) && AfterClass(p) == rest
  {
    var p := "[" + [lo, '-', hi, ']'] + rest;
    assert p[1] == lo && p[2] == '-' && p[3] == hi && p[4] == ']';
    assert ClassItems(p, 4, false) == [];
    assert ClassItems(p, 1, true) == [Range(lo, hi)];
    assert ClassEnd(p, 1, true) == 4;
    assert p[5..] == rest;
    OneContains(Range(lo, hi), c);
  }

  /** A class of one character holds that character, even if it is ']'. */
  lemma SingleClass(x: char, rest: string, c: char)
    requires x != '!' && x != '^'
    ensures var p := "[" + [x, ']'] + rest;
            (ClassAccepts(p, c) <==> c == x) && AfterClass(p) == rest
  {
    var p := "[" + [x, ']'] + rest;
    assert p[1] == x && p[2] == ']';
    assert ClassItems(p, 2, false) == [];
    assert ClassItems(p, 1, true) == [Range(x, x)];
    assert ClassEnd(p, 1, true) == 2;
    assert p[3..] == rest;
    OneContains(Range(x, x), c);
  }

  lemma OneContains(item: Range, c: char)
    ensures SomeContains([item], c) <==> item.Contains(c)
  {
    NoneContains(c);
    SnocContains([], item, c);
    assert [] + [item] == [item];
  }

  // ----- slashes -----

  function Slashes(s: string): nat {
    if s == [] then 0 else (if s[0] == '/' then 1 else 0) + Slashes(s[1..])
  }

  ghost predicate Plain(p: string) {
    && (forall k | 0 <= k < |p| :: p[k] != '[')
    && (forall k | 0 <= k < |p| - 1 :: !(p[k] == '*' && p[k + 1] == '*'))
  }

  lemma {:induction false} SlashesConcat(a: string, b: string)
    ensures Slashes(a + b) == Slashes(a) + Slashes(b)
  {
    if a == [] {
      assert a + b == b;
    } else {
      SlashesConcat(a[1..], b);
      assert (a + b)[1..] == a[1..] + b;
    }
  }

  lemma {:induction false} NoSlashes(s: string)
    requires '/' !in s
    ensures Slashes(s) == 0
  {
    if s == [] {
    } else {
      NoSlashes(s[1..]);
    }
  }

  /** Without "**" and classes, a match has as many slashes as the pattern: it cannot cross directory levels. */
  lemma {:induction false} MatchKeepsDepth(p: string, t: string)
    requires Plain(p) && Matches(p, t)
    ensures Slashes(p) == Slashes(t)
    decreases |p|
  {
    if p == [] {
    } else {
      assert Plain(p[1..]);
      if p[0] == '*' {
        StarsTwo(p);
        assert Stars(p) == 1;
        var j :| 0 <= j <= |t| && StarCovers(1, t[..j]) && Matches(p[1..], t[j..]);
        MatchKeepsDepth(p[1..], t[j..]);
        SlashesConcat(t[..j], t[j..]);
        NoSlashes(t[..j]);
        assert t[..j] + t[j..] == t;
      } else {
        MatchKeepsDepth(p[1..], t[1..]);
      }
    }
  }
}
