/** Filter rules and their first-match list: internal/sender/exclude.go. */
module Exclude {
  import opened Wildmatch

  datatype FilterRule = FilterRule(accepting: bool, clearList: bool, directory: bool, wild: bool, pattern: string)

  predicate HasPrefix(s: string, prefix: string) {
    |s| >= |prefix| && s[..|prefix|] == prefix
  }

  function ParseFilter(line: string): FilterRule {
    if HasPrefix(line, "- ") then FilterRule(false, false, false, false, line[2..])
    else if HasPrefix(line, "+ ") then FilterRule(true, false, false, false, line[2..])
    else FilterRule(false, HasPrefix(line, "!"), false, false, line)
  }

  /** What add_rule stores: one trailing slash becomes a flag, wildcards set another. */
  function Prepared(fr: FilterRule): FilterRule {
    var dir := fr.pattern != [] && fr.pattern[|fr.pattern| - 1] == '/';
    var pattern := if dir then fr.pattern[..|fr.pattern| - 1] else fr.pattern;
    FilterRule(fr.accepting, fr.clearList, fr.directory || dir,
               fr.wild || '*' in pattern || '[' in pattern || '?' in pattern, pattern)
  }

  /** The rules a list of lines stands for. */
  function RulesOf(lines: seq<string>): (rules: seq<FilterRule>)
    ensures |rules| == |lines| && forall k | 0 <= k < |lines| :: rules[k] == Prepared(ParseFilter(lines[k]))
  {
    seq(|lines|, k requires 0 <= k < |lines| => Prepared(ParseFilter(lines[k])))
  }

  function TrimSlashes(s: string): (r: string)
    ensures r != [] ==> r[|r| - 1] != '/'
  {
    if s != [] && s[|s| - 1] == '/' then TrimSlashes(s[..|s| - 1]) else s
  }

  function AfterLastSlash(s: string): (r: string)
    ensures '/' !in r
  {
    if s == [] then []
    else if s[|s| - 1] == '/' then []
    else AfterLastSlash(s[..|s| - 1]) + [s[|s| - 1]]
  }

  /** filepath.Base. */
  function Base(name: string): string {
    if name == [] then "."
    else
      var trimmed := TrimSlashes(name);
      if trimmed == [] then "/" else AfterLastSlash(trimmed)
  }

  /** n slashes. */
  function SlashRun(n: nat): string {
    seq(n, _ => '/')
  }

  /** The base of a path is its last element, whatever directory it is in and however many slashes follow. */
  lemma {:induction false} BaseIsLastElement(dir: string, e: string, n: nat)
    requires e != "" && '/' !in e && (dir == "" || dir[|dir| - 1] == '/')
    ensures Base(dir + e + SlashRun(n)) == e
  {
    TrimmedOfSlashes(dir + e, n);
    assert (dir + e)[|dir + e| - 1] == e[|e| - 1];
    ElementIsKept(dir, e);
  }

  /** Of slashes alone the base is one slash, and of nothing it is a dot. */
  lemma BaseOfSlashes(n: nat)
    ensures Base(SlashRun(n)) == if n == 0 then "." else "/"
  {
    TrimmedOfSlashes("", n);
    assert "" + SlashRun(n) == SlashRun(n);
  }

  lemma {:induction false} TrimmedOfSlashes(s: string, n: nat)
    requires s == "" || s[|s| - 1] != '/'
    ensures TrimSlashes(s + SlashRun(n)) == s
  {
    if n == 0 {
      assert s + SlashRun(0) == s;
    } else {
      TrimmedOfSlashes(s, n - 1);
      assert (s + SlashRun(n))[..|s| + n - 1] == s + SlashRun(n - 1);
    }
  }

  lemma {:induction false} ElementIsKept(dir: string, e: string)
    requires '/' !in e && (dir == "" || dir[|dir| - 1] == '/')
    ensures AfterLastSlash(dir + e) == e
  {
    if e == "" {
      assert dir + e == dir;
    } else {
      var front := e[..|e| - 1];
      ElementIsKept(dir, front);
      assert (dir + e)[..|dir| + |e| - 1] == dir + front;
      assert front + [e[|e| - 1]] == e;
    }
  }

  /** A pattern without a slash looks at the last path element only. */
  function Subject(fr: FilterRule, name: string): string {
    if '/' in fr.pattern then name else Base(name)
  }

  ghost predicate RuleMatches(fr: FilterRule, name: string) {
    if fr.wild then Matches(fr.pattern, Subject(fr, name)) else fr.pattern == Subject(fr, name)
  }

  /** The first rule that matches decides; no match means not excluded. */
  ghost predicate Excluded(rules: seq<FilterRule>, name: string) {
    exists k ::
      && 0 <= k < |rules|
      && RuleMatches(rules[k], name)
      && !rules[k].accepting
      && forall j | 0 <= j < k :: !RuleMatches(rules[j], name)
  }

  method MatchesRule(fr: FilterRule, name: string) returns (r: bool)
    ensures r <==> RuleMatches(fr, name)
  {
    var subject := name;
    if '/' !in fr.pattern {
      subject := Base(name);
    }
    if fr.wild {
      r := DoWild(fr.pattern, subject);
    } else {
      r := fr.pattern == subject;
    }
  }

  class FilterRuleList {
    var filters: seq<FilterRule>

    constructor ()
      ensures filters == []
    {
      filters := [];
    }

    method AddRule(fr: FilterRule)
      modifies this
      ensures filters == old(filters) + [Prepared(fr)]
    {
      var rule := fr;
      if rule.pattern != [] && rule.pattern[|rule.pattern| - 1] == '/' {
        rule := rule.(directory := true, pattern := rule.pattern[..|rule.pattern| - 1]);
      }
      if '*' in rule.pattern || '[' in rule.pattern || '?' in rule.pattern {
        rule := rule.(wild := true);
      }
      filters := filters + [rule];
    }

    method MatchesName(name: string) returns (excluded: bool)
      ensures excluded <==> Excluded(filters, name)
    {
      for k := 0 to |filters|
        invariant forall j | 0 <= j < k :: !RuleMatches(filters[j], name)
      {
        var m := MatchesRule(filters[k], name);
        if m {
          return !filters[k].accepting;
        }
      }
      excluded := false;
    }
  }

  method ParseFilterRules(lines: seq<string>) returns (l: FilterRuleList)
    ensures fresh(l) && l.filters == RulesOf(lines)
  {
    l := new FilterRuleList();
    for k := 0 to |lines|
      invariant fresh(l) && l.filters == RulesOf(lines[..k])
    {
      l.AddRule(ParseFilter(lines[k]));
      assert lines[..k + 1] == lines[..k] + [lines[k]];
    }
    assert lines[..|lines|] == lines;
  }

  // ----- what the flags mean -----

  predicate NoWildcards(p: string) {
    '*' !in p && '[' !in p && '?' !in p
  }

  /** Without wildcards the matcher is equality. */
  lemma {:induction false} LiteralMatches(p: string, t: string)
    requires NoWildcards(p)
    ensures Matches(p, t) <==> p == t
    decreases |p|
  {
    if p == [] || t == [] {
    } else {
      LiteralMatches(p[1..], t[1..]);
      assert p == [p[0]] + p[1..] && t == [t[0]] + t[1..];
    }
  }

  /** The wild flag add_rule sets is only a shortcut: a rule always matches as its pattern would as a wildcard. */
  lemma WildFlagIsShortcut(fr: FilterRule, name: string)
    requires !fr.wild
    ensures var rule := Prepared(fr);
            RuleMatches(rule, name) <==> Matches(rule.pattern, Subject(rule, name))
  {
    var rule := Prepared(fr);
    if !rule.wild {
      LiteralMatches(rule.pattern, Subject(rule, name));
    }
  }

  /** The directory flag add_rule sets is never read: "name/" reaches plain files as "name" does. */
  lemma TrailingSlashIsIgnored(fr: FilterRule, name: string)
    requires fr.pattern != [] ==> fr.pattern[|fr.pattern| - 1] != '/'
    ensures Prepared(fr.(pattern := fr.pattern + "/")) == Prepared(fr).(directory := true)
    ensures RuleMatches(Prepared(fr.(pattern := fr.pattern + "/")), name) <==> RuleMatches(Prepared(fr), name)
  {
    assert (fr.pattern + "/")[..|fr.pattern|] == fr.pattern;
  }

  /** The first line whose pattern matches the name does not start with "+ ". */
  ghost predicate LinesExclude(lines: seq<string>, name: string) {
    exists k :: 0 <= k < |lines| && LineMatches(lines[k], name) && !HasPrefix(lines[k], "+ ")
                && forall j | 0 <= j < k :: !LineMatches(lines[j], name)
  }

  /**
   * Filter lines, from text to verdict: a name is excluded exactly when the first line whose pattern
   * matches it (as a wildcard, on the path or on its last element) does not start with "+ ".
   */
  lemma LinesDecide(lines: seq<string>, name: string)
    ensures Excluded(RulesOf(lines), name) <==> LinesExclude(lines, name)
  {
    hide RuleMatches, LineMatches, Prepared;
    var rules := RulesOf(lines);
    forall k | 0 <= k < |lines|
      ensures RuleMatches(rules[k], name) <==> LineMatches(lines[k], name)
      ensures rules[k].accepting <==> HasPrefix(lines[k], "+ ")
    {
      LineMatchesAsRule(lines[k], name);
    }
  }

  /** What the sender's walk asks of a name, from the text of the filter lines. */
  method CheckFilter(lines: seq<string>, name: string) returns (excluded: bool)
    ensures excluded <==> LinesExclude(lines, name)
  {
    hide Excluded, LinesExclude;
    var l := ParseFilterRules(lines);
    excluded := l.MatchesName(name);
    LinesDecide(lines, name);
  }

  /** The text of a line without its prefix and without one trailing slash. */
  function PatternOf(line: string): string {
    OneSlashOff(if HasPrefix(line, "- ") || HasPrefix(line, "+ ") then line[2..] else line)
  }

  function OneSlashOff(p: string): string {
    if p != [] && p[|p| - 1] == '/' then p[..|p| - 1] else p
  }

  /** The pattern of a line, by its form: a prefix, the pattern, one slash that is dropped. */
  lemma LineForms(p: string, slash: string)
    requires slash == "" || slash == "/"
    requires slash == "" ==> p == "" || p[|p| - 1] != '/'
    ensures PatternOf("- " + (p + slash)) == p && PatternOf("+ " + (p + slash)) == p
    ensures !(|p + slash| >= 2 && (p + slash)[0] in {'-', '+'} && (p + slash)[1] == ' ') ==> PatternOf(p + slash) == p
  {
    hide OneSlashOff;
    SlashIsOff(p, slash);
    PrefixIs(p + slash);
    var q := p + slash;
    assert ("- " + q)[2..] == q && ("+ " + q)[2..] == q;
  }

  lemma SlashIsOff(p: string, slash: string)
    requires slash == "" || slash == "/"
    requires slash == "" ==> p == "" || p[|p| - 1] != '/'
    ensures OneSlashOff(p + slash) == p
  {
    if slash == "" {
      assert p + slash == p;
    } else {
      assert (p + slash)[..|p|] == p;
    }
  }

  /** A plain name excludes the path elements of that name, in any directory. */
  lemma PlainLineReaches(p: string, dir: string, e: string, n: nat)
    requires NoWildcards(p) && '/' !in p && p != "" && !(|p| >= 2 && p[0] in {'-', '+'} && p[1] == ' ')
    requires e != "" && '/' !in e && (dir == "" || dir[|dir| - 1] == '/')
    ensures LinesExclude([p], dir + e + SlashRun(n)) <==> e == p
    ensures !LinesExclude(["+ " + p], dir + e + SlashRun(n))
    ensures LinesExclude(["- " + p], dir + e + SlashRun(n)) <==> e == p
  {
    hide Base, Matches, HasPrefix;
    var name := dir + e + SlashRun(n);
    BaseIsLastElement(dir, e, n);
    LineForms(p, "");
    assert p + "" == p;
    LiteralMatches(p, e);
    PrefixIs(p);
    assert forall l: string :: [l][0] == l;
    assert LineMatches(p, name) <==> e == p;
    assert LineMatches("- " + p, name) <==> e == p;
  }

  lemma PrefixIs(p: string)
    ensures HasPrefix(p, "+ ") <==> |p| >= 2 && p[0] == '+' && p[1] == ' '
    ensures HasPrefix(p, "- ") <==> |p| >= 2 && p[0] == '-' && p[1] == ' '
    ensures HasPrefix("+ " + p, "+ ") && !HasPrefix("- " + p, "+ ") && HasPrefix("- " + p, "- ")
  {
    assert |p| >= 2 ==> p[..2] == [p[0], p[1]];
    assert ("- " + p)[..2] == "- " && ("- " + p)[0] == '-';
    assert ("+ " + p)[..2] == "+ ";
  }

  ghost predicate LineMatches(line: string, name: string) {
    Matches(PatternOf(line), if '/' in PatternOf(line) then name else Base(name))
  }

  lemma ParsedLine(line: string)
    ensures !ParseFilter(line).wild
    ensures Prepared(ParseFilter(line)).pattern == PatternOf(line)
    ensures Prepared(ParseFilter(line)).accepting <==> HasPrefix(line, "+ ")
  {
  }

  lemma LineMatchesAsRule(line: string, name: string)
    ensures RuleMatches(Prepared(ParseFilter(line)), name) <==> LineMatches(line, name)
    ensures Prepared(ParseFilter(line)).accepting <==> HasPrefix(line, "+ ")
  {
    hide ParseFilter, Prepared, PatternOf, HasPrefix, Matches, Base, RuleMatches;
    ParsedLine(line);
    WildFlagIsShortcut(ParseFilter(line), name);
  }

  /** Rules added later cannot change the fate of a name some rule already matches. */
  lemma EarlierRulesDecide(rules: seq<FilterRule>, more: seq<FilterRule>, name: string)
    requires exists k :: 0 <= k < |rules| && RuleMatches(rules[k], name)
    ensures Excluded(rules + more, name) <==> Excluded(rules, name)
  {
    hide RuleMatches;
    var all := rules + more;
    assert forall j | 0 <= j < |rules| :: all[j] == rules[j];
    if Excluded(rules, name) {
      var k :| 0 <= k < |rules| && RuleMatches(rules[k], name) && !rules[k].accepting
               && forall j | 0 <= j < k :: !RuleMatches(rules[j], name);
      assert RuleMatches(all[k], name);
    }
  }

  /** A line with a slash, without "**" and '[', only reaches paths of its own depth. */
  lemma LinesKeepDepth(line: string, name: string)
    requires '/' in PatternOf(line) && Plain(PatternOf(line))
    requires RuleMatches(Prepared(ParseFilter(line)), name)
    ensures Slashes(name) == Slashes(PatternOf(line))
  {
    LineMatchesAsRule(line, name);
    MatchKeepsDepth(PatternOf(line), name);
  }
}
