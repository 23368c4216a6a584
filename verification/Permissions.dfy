/** The policy decision point: may a subject run an object. */
module Permissions {
  import opened Text
  import opened Glob

  // ---- globbing of std::strings --------------------------------------------------------

  /** The C string a std::string is passed on as: it ends before the first NUL. */
  function CStr(s: string): (r: string)
    ensures r <= s && '\0' !in r
    ensures r == s || s[|r|] == '\0'
  {
    s[..IndexFrom(s, '\0', 0)]
  }

  /** Case-insensitive glob, through the iterative matcher. */
  predicate GlobMatch(pattern: string, text: string) {
    Scan(CStr(Lower(pattern)), CStr(Lower(text)), 0, 0, NoStar)
  }

  // ---- subjects and objects ----------------------------------------------------------------

  function MakeSubject(mod: string, principal: string): string {
    if principal == "" then mod else mod + ":" + principal
  }

  function MakeObject(mod: string, command: string): string {
    if mod == "" then command else mod + "." + command
  }

  predicate SubjectMatches(pattern: string, subject: string) {
    || pattern == subject
    || GlobMatch(pattern, subject)
    || (&& ':' !in pattern && '*' !in pattern
        && |subject| > |pattern| && subject[|pattern|] == ':'
        && Lower(subject[..|pattern|]) == Lower(pattern))
    || (&& pattern != "" && pattern[|pattern| - 1] == ':' && '*' !in pattern && ':' !in subject
        && Lower(pattern[..|pattern| - 1]) == Lower(subject))
  }

  /** Position of the last `c`, or None. */
  function LastIndex(s: string, c: char): (r: Option<nat>)
    ensures r.None? <==> c !in s
    ensures r.Some? ==> r.value < |s| && s[r.value] == c && c !in s[r.value + 1..]
  {
    if s == [] then None
    else if s[|s| - 1] == c then Some(|s| - 1)
    else
      assert s == s[..|s| - 1] + [s[|s| - 1]];
      var r := LastIndex(s[..|s| - 1], c);
      assert r.Some? ==> s[r.value + 1..] == s[..|s| - 1][r.value + 1..] + [s[|s| - 1]];
      r
  }

  lemma LastIndexUnique(s: string, c: char, i: nat)
    requires i < |s| && s[i] == c && c !in s[i + 1..]
    ensures LastIndex(s, c) == Some(i)
  {
    var last := LastIndex(s, c).value;
    assert forall k :: i < k < |s| ==> s[k] == s[i + 1..][k - i - 1];
    assert forall k :: last < k < |s| ==> s[k] == s[last + 1..][k - last - 1];
  }

  predicate ObjectMatches(pattern: string, target: string) {
    || GlobMatch(pattern, target)
    || (&& '.' !in pattern
        && LastIndex(target, '.').Some?
        && GlobMatch(pattern, target[LastIndex(target, '.').value + 1..]))
  }

  // ---- literal patterns, decided exactly -----------------------------------------------------

  ghost predicate Literal(p: string) {
    WildcardFree(p) && '\0' !in p
  }

  lemma CStrLower(s: string)
    ensures CStr(Lower(s)) == Lower(CStr(s))
  {
    var n := IndexFrom(s, '\0', 0);
    IndexFromUnique(Lower(s), '\0', 0, n);
  }

  lemma CStrWhole(s: string)
    requires '\0' !in s
    ensures CStr(s) == s
  {
  }

  lemma LowerConcat(a: string, b: string)
    ensures Lower(a + b) == Lower(a) + Lower(b)
  {
  }

  /** A literal prefix is compared character by character. */
  lemma {:induction false} ScanLiteral(p: string, q: string, t: string, i: nat)
    requires WildcardFree(p) && i <= |p| && i <= |t| && p[..i] == t[..i]
    ensures Scan(p + q, t, i, i, NoStar) ==
            if |p| <= |t| && p == t[..|p|] then Scan(p + q, t, |p|, |p|, NoStar)
            else false
    decreases |p| - i
  {
    var pq := p + q;
    if i == |p| {
      assert p[..i] == p;
    } else {
      assert pq[i] == p[i];
      if i == |t| {
        assert pq[i..][0] == p[i];
      } else if p[i] == t[i] {
        assert p[..i + 1] == p[..i] + [p[i]] && t[..i + 1] == t[..i] + [t[i]];
        ScanLiteral(p, q, t, i + 1);
      } else {
        assert |p| <= |t| ==> t[..|p|][i] == t[i];
      }
    }
  }

  /** A trailing star, once set as restart point, takes the rest of the text. */
  lemma {:induction false} TrailingStar(p: string, t: string, j: nat)
    requires p != [] && p[|p| - 1] == '*' && j <= |t|
    ensures Scan(p, t, |p|, j, StarAt(|p| - 1, j))
    decreases |t| - j
  {
    if j < |t| {
      TrailingStar(p, t, j + 1);
    } else {
      assert p[|p|..] == [];
    }
  }

  /** A literal pattern matches exactly the texts equal to it, ignoring case. */
  lemma {:induction false} GlobLiteral(p: string, t: string)
    requires Literal(p)
    ensures GlobMatch(p, t) <==> Lower(p) == Lower(CStr(t))
  {
    CStrLower(p);
    CStrLower(t);
    var lp, lt := Lower(p), Lower(CStr(t));
    assert lp + [] == lp && lp[..0] == lt[..0];
    ScanLiteral(lp, [], lt, 0);
    if |lp| == |lt| {
      assert lt[..|lp|] == lt && lp[|lp|..] == [];
    }
  }

  /** A star at the end fails only on a rest that itself starts with a star and goes on. */
  predicate StarTakes(rest: string) {
    |rest| <= 1 || rest[0] != '*'
  }

  /** A literal prefix followed by `*`: exactly when the text, up to its first
      NUL, has that prefix and the star takes what is left. */
  lemma {:induction false} GlobPrefixStar(p: string, t: string)
    requires Literal(p)
    ensures GlobMatch(p + "*", t) <==>
            && |p| <= |CStr(t)| && Lower(p) == Lower(CStr(t)[..|p|])
            && StarTakes(CStr(t)[|p|..])
  {
    CStrLower(p + "*");
    CStrLower(t);
    CStrWhole(p + "*");
    LowerConcat(p, "*");
    var lp, lt := Lower(p), Lower(CStr(t));
    assert Lower("*") == "*";
    assert lp[..0] == lt[..0];
    ScanLiteral(lp, "*", lt, 0);
    if |lp| <= |lt| {
      assert Lower(CStr(t)[..|p|]) == lt[..|p|];
      var n := |lp|;
      var pattern := lp + "*";
      if lp == lt[..n] {
        if n == |lt| {
          assert pattern[n..] == "*";
        } else {
          assert CStr(t)[n..][0] == CStr(t)[n];
          if lt[n] == '*' {
            assert pattern[n + 1..] == [];
          } else {
            TrailingStar(pattern, lt, n);
          }
        }
      }
    }
  }

  // ---- what the three forms of a subject pattern mean ------------------------------------------

  lemma {:induction false} CStrSubject(m: string, principal: string)
    requires '\0' !in m && principal != ""
    ensures CStr(MakeSubject(m, principal)) == m + ":" + CStr(principal)
  {
    var s := m + ":" + principal;
    var n := |m| + 1 + IndexFrom(principal, '\0', 0);
    IndexFromUnique(s, '\0', 0, n);
    assert s[..n] == m + ":" + CStr(principal);
  }

  ghost predicate ModuleName(m: string) {
    ':' !in m && '\0' !in m
  }

  lemma LowerKeeps(s: string, c: char)
    requires c == ':' || c == '*' || c == '.'
    ensures c in Lower(s) <==> c in s
  {
    if c in s {
      var i :| 0 <= i < |s| && s[i] == c;
      assert Lower(s)[i] == c;
    }
  }

  /** `P` grants every principal of module P, and no other module. */
  lemma {:induction false} BareModulePattern(p: string, m: string, principal: string)
    requires Literal(p) && ':' !in p && ModuleName(m)
    ensures SubjectMatches(p, MakeSubject(m, principal)) <==> Lower(p) == Lower(m)
  {
    var s := MakeSubject(m, principal);
    GlobLiteral(p, s);
    if principal == "" {
      CStrWhole(m);
    } else {
      CStrSubject(m, principal);
      assert CStr(s)[|m|] == ':';
      LowerKeeps(CStr(s), ':');
      LowerKeeps(p, ':');
      assert s[|m|] == ':' && s[..|m|] == m;
      if |p| > |m| && |s| > |p| {
        assert s[..|p|][|m|] == ':';
        LowerKeeps(s[..|p|], ':');
      }
    }
  }

  /** The part before the first colon is determined. */
  lemma ColonSplit(a: string, b: string, c: string, d: string)
    requires ':' !in a && ':' !in c
    ensures a + ":" + b == c + ":" + d <==> a == c && b == d
  {
    var x, y := a + ":" + b, c + ":" + d;
    IndexFromUnique(x, ':', 0, |a|);
    IndexFromUnique(y, ':', 0, |c|);
    assert x[..|a|] == a && x[|a| + 1..] == b;
    assert y[..|c|] == c && y[|c| + 1..] == d;
  }

  lemma LowerColon(a: string, b: string, c: string, d: string)
    requires ':' !in a && ':' !in c
    ensures Lower(a + ":" + b) == Lower(c + ":" + d) <==> Lower(a) == Lower(c) && Lower(b) == Lower(d)
  {
    LowerConcat(a + ":", b);
    LowerConcat(a, ":");
    LowerConcat(c + ":", d);
    LowerConcat(c, ":");
    assert Lower(":") == ":";
    LowerKeeps(a, ':');
    LowerKeeps(c, ':');
    ColonSplit(Lower(a), Lower(b), Lower(c), Lower(d));
  }

  /** `P:` grants the empty principal only - or, through the C string, one that starts with NUL. */
  lemma {:induction false} TrailingColonPattern(p: string, m: string, principal: string)
    requires Literal(p) && ':' !in p && ModuleName(m)
    ensures SubjectMatches(p + ":", MakeSubject(m, principal)) <==>
            Lower(p) == Lower(m) && (principal == "" || principal[0] == '\0')
  {
    hide Lower, Scan;
    var s := MakeSubject(m, principal);
    var pattern := p + ":";
    GlobLiteral(pattern, s);
    assert pattern[|pattern| - 1] == ':' && pattern[..|pattern| - 1] == p;
    assert pattern == p + ":" + "";
    if principal == "" {
      CStrWhole(m);
      LowerKeeps(m, ':');
      LowerKeeps(pattern, ':');
    } else {
      CStrSubject(m, principal);
      LowerColon(p, "", m, CStr(principal));
      ColonSplit(p, "", m, principal);
      assert s[|m|] == ':';
      assert |Lower("")| == 0 && |Lower(CStr(principal))| == |CStr(principal)|;
    }
  }

  /** `P:*` grants the non-empty principals - except those the star does not take. */
  lemma {:induction false} AnyPrincipalPattern(p: string, m: string, principal: string)
    requires Literal(p) && ':' !in p && ModuleName(m)
    ensures SubjectMatches(p + ":*", MakeSubject(m, principal)) <==>
            Lower(p) == Lower(m) && principal != "" && StarTakes(CStr(principal))
  {
    var s := MakeSubject(m, principal);
    var pattern := p + ":*";
    assert pattern == p + ":" + "*" && pattern[|pattern| - 1] == '*' && pattern[|p|] == ':';
    GlobPrefixStar(p + ":", s);
    LowerConcat(p, ":");
    if principal == "" {
      CStrWhole(m);
      assert Lower(p + ":")[|p|] == ':';
      if |p| + 1 <= |m| {
        LowerKeeps(m[..|p| + 1], ':');
        assert Lower(m[..|p| + 1])[|p|] == LowerChar(m[|p|]);
      }
    } else {
      CStrSubject(m, principal);
      var t := CStr(s);
      LowerKeeps(p, ':');
      LowerKeeps(m, ':');
      ColonSplit(p, "*", m, principal);
      PrefixColon(p, m, CStr(principal));
    }
  }

  lemma PrefixColon(p: string, m: string, rest: string)
    requires ':' !in p && ':' !in m
    ensures var t := m + ":" + rest;
      && (|p| + 1 <= |t| && Lower(p + ":") == Lower(t[..|p| + 1]) <==> Lower(p) == Lower(m))
      && (Lower(p) == Lower(m) ==> t[|p| + 1..] == rest)
  {
    var t := m + ":" + rest;
    if Lower(p) == Lower(m) {
      assert t[..|p| + 1] == m + ":" + "" && p + ":" == p + ":" + "";
      LowerColon(p, "", m, "");
    }
    if |p| + 1 <= |t| {
      assert t == t[..|p| + 1] + t[|p| + 1..];
      LowerConcat(t[..|p| + 1], t[|p| + 1..]);
      LowerConcat(p + ":", t[|p| + 1..]);
      LowerColon(p, t[|p| + 1..], m, rest);
    }
  }

  // ---- what object patterns mean ----------------------------------------------------------------

  /** A bare command names that command in every module. */
  lemma {:induction false} BareCommandPattern(p: string, m: string, command: string)
    requires Literal(p) && '.' !in p && '\0' !in m && '.' !in command && '\0' !in command
    ensures ObjectMatches(p, MakeObject(m, command)) <==> Lower(p) == Lower(command)
  {
    var target := MakeObject(m, command);
    CStrWhole(target);
    GlobLiteral(p, target);
    CStrWhole(command);
    if m == "" {
      assert LastIndex(target, '.').None?;
    } else {
      assert target[|m|] == '.';
      LowerKeeps(target, '.');
      LowerKeeps(p, '.');
      assert target[|m| + 1..] == command;
      LastIndexUnique(target, '.', |m|);
      GlobLiteral(p, command);
    }
  }

  // ---- the rule table ------------------------------------------------------------------------------

  datatype Rule = Rule(subject: string, objects: seq<string>)

  const BLANKS: set<char> := {' ', '\t'}

  lemma BlanksAre(c: char)
    ensures c in BLANKS <==> c == ' ' || c == '\t'
  {
  }

  ghost predicate Grants(rule: Rule, subject: string, target: string) {
    SubjectMatches(rule.subject, subject) &&
    exists j :: 0 <= j < |rule.objects| && ObjectMatches(rule.objects[j], target)
  }

  ghost predicate Granted(rules: seq<Rule>, subject: string, target: string) {
    exists i :: 0 <= i < |rules| && Grants(rules[i], subject, target)
  }

  // ---- what patterns mean, by the declarative glob --------------------------------------------------

  /** A text the matcher decides: no NUL to end it early, no star to mislead it. */
  ghost predicate Plain(t: string) {
    '\0' !in t && '*' !in t
  }

  lemma {:induction false} GlobMatchIff(p: string, t: string)
    requires '\0' !in p && Plain(t)
    ensures GlobMatch(p, t) <==> Matches(Lower(p), Lower(t))
  {
    hide Matches, Scan;
    CStrLower(p);
    CStrLower(t);
    CStrWhole(p);
    CStrWhole(t);
    LowerKeeps(t, '*');
    MatcherDecides(Lower(p), Lower(t));
  }

  /** `target` is a command of some module, and the pattern globs the command. */
  ghost predicate GlobsCommand(p: string, target: string, mod: string, command: string) {
    target == mod + "." + command && '.' !in command && Matches(Lower(p), Lower(command))
  }

  /** An object pattern means its glob; without a dot it also means the command of any module. */
  ghost predicate ObjectGlobs(p: string, target: string) {
    || Matches(Lower(p), Lower(target))
    || ('.' !in p && exists mod, command :: GlobsCommand(p, target, mod, command))
  }

  lemma {:induction false} ObjectMatchesIff(p: string, target: string)
    requires '\0' !in p && Plain(target)
    ensures ObjectMatches(p, target) <==> ObjectGlobs(p, target)
  {
    hide Matches, GlobMatch;
    GlobMatchIff(p, target);
    var dot := LastIndex(target, '.');
    if dot.Some? {
      var mod, command := target[..dot.value], target[dot.value + 1..];
      assert target == mod + "." + command && Plain(command);
      GlobMatchIff(p, command);
      assert Matches(Lower(p), Lower(command)) ==> GlobsCommand(p, target, mod, command);
    }
    forall mod, command | GlobsCommand(p, target, mod, command)
      ensures dot == Some(|mod|) && target[|mod| + 1..] == command
    {
      assert target[|mod|] == '.' && target[|mod| + 1..] == command;
      LastIndexUnique(target, '.', |mod|);
    }
  }

  /** `subject` is the module `q` with some principal. */
  ghost predicate WithPrincipal(subject: string, q: string, principal: string, p: string) {
    subject == q + ":" + principal && Lower(q) == Lower(p)
  }

  /** A subject pattern means its glob; a module name also means any principal of that module;
      and with a colon behind it, the module without a principal. */
  ghost predicate SubjectGlobs(p: string, subject: string) {
    || Matches(Lower(p), Lower(subject))
    || (':' !in p && '*' !in p && exists q, principal :: WithPrincipal(subject, q, principal, p))
    || (':' !in subject && '*' !in p && Lower(p) == Lower(subject + ":"))
  }

  lemma {:induction false} SubjectMatchesIff(p: string, subject: string)
    requires '\0' !in p && Plain(subject)
    ensures SubjectMatches(p, subject) <==> SubjectGlobs(p, subject)
  {
    hide Matches, GlobMatch, Scan;
    GlobMatchIff(p, subject);
    if p == subject { MatchesItself(Lower(p)); }
    PrincipalIff(p, subject);
    ColonIff(p, subject);
  }

  lemma MatchesItself(p: string)
    ensures Matches(p, p)
  {
    SamePrefix(p, [], []);
    assert p + [] == p;
  }

  lemma PrincipalIff(p: string, subject: string)
    ensures |subject| > |p| && subject[|p|] == ':' && Lower(subject[..|p|]) == Lower(p) <==>
            exists q, principal :: WithPrincipal(subject, q, principal, p)
  {
    if |subject| > |p| && subject[|p|] == ':' && Lower(subject[..|p|]) == Lower(p) {
      assert subject == subject[..|p|] + ":" + subject[|p| + 1..];
      assert WithPrincipal(subject, subject[..|p|], subject[|p| + 1..], p);
    }
    forall q, principal | WithPrincipal(subject, q, principal, p)
      ensures |subject| > |p| && subject[|p|] == ':' && subject[..|p|] == q
    {
      assert |Lower(q)| == |Lower(p)|;
    }
  }

  lemma ColonIff(p: string, subject: string)
    ensures p != "" && p[|p| - 1] == ':' && Lower(p[..|p| - 1]) == Lower(subject) <==> Lower(p) == Lower(subject + ":")
  {
    LowerConcat(subject, ":");
    if p != "" {
      var q, c := p[..|p| - 1], [p[|p| - 1]];
      assert p == q + c;
      LowerConcat(q, c);
      assert LowerChar(':') == ':' && (LowerChar(c[0]) == ':' <==> c[0] == ':');
      assert Lower(c) == [LowerChar(c[0])] && Lower(":") == ":";
      if Lower(p) == Lower(subject + ":") {
        assert |q| == |subject|;
        assert Lower(p)[..|q|] == Lower(q) && Lower(p)[|q|] == LowerChar(c[0]);
        assert Lower(subject + ":")[..|q|] == Lower(subject) && Lower(subject + ":")[|q|] == ':';
      }
    } else {
      assert |Lower(p)| != |Lower(subject + ":")|;
    }
  }

  /** Some rule has a subject pattern and an object pattern that mean the pair. */
  ghost predicate GrantedByGlob(rules: seq<Rule>, subject: string, target: string) {
    exists i :: 0 <= i < |rules| && RuleGlobs(rules[i], subject, target)
  }

  ghost predicate RuleGlobs(rule: Rule, subject: string, target: string) {
    SubjectGlobs(rule.subject, subject) &&
    exists j :: 0 <= j < |rule.objects| && ObjectGlobs(rule.objects[j], target)
  }

  ghost predicate NulFree(rules: seq<Rule>) {
    forall i :: 0 <= i < |rules| ==>
      '\0' !in rules[i].subject && forall j :: 0 <= j < |rules[i].objects| ==> '\0' !in rules[i].objects[j]
  }

  lemma RuleGrantsIff(rule: Rule, subject: string, target: string)
    requires Plain(subject) && Plain(target)
    requires '\0' !in rule.subject && forall j :: 0 <= j < |rule.objects| ==> '\0' !in rule.objects[j]
    ensures Grants(rule, subject, target) <==> RuleGlobs(rule, subject, target)
  {
    hide SubjectMatches, ObjectMatches, SubjectGlobs, ObjectGlobs;
    SubjectMatchesIff(rule.subject, subject);
    forall j | 0 <= j < |rule.objects|
      ensures ObjectMatches(rule.objects[j], target) <==> ObjectGlobs(rule.objects[j], target)
    {
      ObjectMatchesIff(rule.objects[j], target);
    }
  }

  lemma {:induction false} GrantedIff(rules: seq<Rule>, subject: string, target: string)
    requires NulFree(rules) && Plain(subject) && Plain(target)
    ensures Granted(rules, subject, target) <==> GrantedByGlob(rules, subject, target)
  {
    hide Grants, RuleGlobs;
    forall i | 0 <= i < |rules|
      ensures Grants(rules[i], subject, target) <==> RuleGlobs(rules[i], subject, target)
    {
      RuleGrantsIff(rules[i], subject, target);
    }
  }

  /** The rule a policy line adds, if it names any object. */
  function RuleOf(subjectPattern: string, csv: string): seq<Rule> {
    var objects := Entries(csv, BLANKS);
    if objects == [] then [] else [Rule(subjectPattern, objects)]
  }

  function RulesAfter(rules: seq<Rule>, lines: seq<(string, string)>): seq<Rule>
    decreases lines
  {
    if lines == [] then rules else RulesAfter(rules + RuleOf(lines[0].0, lines[0].1), lines[1..])
  }

  /** A policy line grants by itself: its subject pattern, and some entry of its object list. */
  ghost predicate LineGrants(line: (string, string), subject: string, target: string) {
    SubjectMatches(line.0, subject) && exists o :: o in Entries(line.1, BLANKS) && ObjectMatches(o, target)
  }

  /** A table made of policy lines grants exactly what one of its lines grants. */
  lemma {:induction false} LinesGrant(rules: seq<Rule>, lines: seq<(string, string)>, subject: string, target: string)
    ensures Granted(RulesAfter(rules, lines), subject, target) <==>
            Granted(rules, subject, target) || exists line :: line in lines && LineGrants(line, subject, target)
    decreases |lines|
  {
    hide SubjectMatches, ObjectMatches, Entries;
    if lines == [] {
    } else {
      var more := rules + RuleOf(lines[0].0, lines[0].1);
      LineAdds(rules, lines[0], subject, target);
      LinesGrant(more, lines[1..], subject, target);
      assert lines == [lines[0]] + lines[1..];
    }
  }

  lemma LineAdds(rules: seq<Rule>, line: (string, string), subject: string, target: string)
    ensures Granted(rules + RuleOf(line.0, line.1), subject, target) <==>
            Granted(rules, subject, target) || LineGrants(line, subject, target)
  {
    hide SubjectMatches, ObjectMatches, Entries;
    var objects := Entries(line.1, BLANKS);
    var more := rules + RuleOf(line.0, line.1);
    if i :| 0 <= i < |rules| && Grants(rules[i], subject, target) {
      assert Grants(more[i], subject, target);
    }
    if objects != [] {
      var rule := more[|rules|];
      assert rule == Rule(line.0, objects);
      assert Grants(rule, subject, target) <==> LineGrants(line, subject, target);
    }
    if i :| 0 <= i < |more| && Grants(more[i], subject, target) {
      assert i < |rules| ==> Grants(rules[i], subject, target);
    }
  }

  /** However many policy lines are added, what was granted stays granted. */
  lemma {:induction false} RulesNeverRevoke(
      rules: seq<Rule>, lines: seq<(string, string)>, subject: string, target: string)
    requires Granted(rules, subject, target)
    ensures Granted(RulesAfter(rules, lines), subject, target)
    decreases |lines|
  {
    if lines == [] {
    } else {
      var more := rules + RuleOf(lines[0].0, lines[0].1);
      var i :| 0 <= i < |rules| && Grants(rules[i], subject, target);
      assert more[i] == rules[i];
      RulesNeverRevoke(more, lines[1..], subject, target);
    }
  }

  method Trim(s: string) returns (r: string)
    ensures r == Trimmed(s, BLANKS)
    ensures IsTrimOf(r, s, BLANKS)
  {
    hide Trimmed, IsTrimOf;
    var a, b := 0, |s|;
    while a < b && (s[a] == ' ' || s[a] == '\t')
      invariant 0 <= a <= b == |s|
      invariant forall i :: 0 <= i < a ==> s[i] in BLANKS
    {
      a := a + 1;
    }
    while b > a && (s[b - 1] == ' ' || s[b - 1] == '\t')
      invariant a <= b <= |s|
      invariant forall i :: b <= i < |s| ==> s[i] in BLANKS
      invariant if a < |s| then s[a] !in BLANKS && a < b else b == |s|
    {
      b := b - 1;
    }
    TrimmedCuts(s, a, b, BLANKS);
    CutIsTrim(s, a, b, BLANKS);
    return s[a..b];
  }

  /** Split an object list at commas, trim the entries, drop the empty ones. */
  method ParseObjects(csv: string) returns (objects: seq<string>)
    ensures objects == Entries(csv, BLANKS)
  {
    hide Trimmed, IsTrimOf, Entries;
    objects := [];
    var token: string := "";
    assert token + csv[0..] == csv;
    for i := 0 to |csv|
      invariant ',' !in token
      invariant objects + Entries(token + csv[i..], BLANKS) == Entries(csv, BLANKS)
    {
      assert token + csv[i..] == token + [csv[i]] + csv[i + 1..];
      if csv[i] == ',' {
        EntriesHead(token, csv[i + 1..], BLANKS);
        assert [] + csv[i + 1..] == csv[i + 1..];
        var trimmed := Trim(token);
        if trimmed != "" {
          objects := objects + [trimmed];
        }
        token := "";
      } else {
        token := token + [csv[i]];
      }
    }
    assert token + csv[|csv|..] == token;
    EntriesHead(token, "", BLANKS);
    var trimmed := Trim(token);
    if trimmed != "" {
      objects := objects + [trimmed];
    }
  }

  class Policy {
    var enabled: bool
    var allowExec: bool
    var logDenials: bool
    var logAllows: bool
    var rules: seq<Rule>

    constructor ()
      ensures !enabled && allowExec && logDenials && !logAllows && rules == []
    {
      enabled, allowExec, logDenials, logAllows, rules := false, true, true, false, [];
    }

    /** Rules only ever accumulate; a line that names no object adds none. */
    method AddRule(subjectPattern: string, csv: string)
      modifies this`rules
      ensures rules == old(rules) + RuleOf(subjectPattern, csv)
    {
      var objects := ParseObjects(csv);
      if objects != [] {
        rules := rules + [Rule(subjectPattern, objects)];
      }
    }

    /** Take over another table whole. */
    method ReplaceWith(other: Policy)
      modifies this
      ensures enabled == old(other.enabled) && allowExec == old(other.allowExec)
      ensures logDenials == old(other.logDenials) && logAllows == old(other.logAllows)
      ensures rules == old(other.rules)
    {
      if other == this {
        return;
      }
      enabled, allowExec, logDenials, logAllows, rules :=
        other.enabled, other.allowExec, other.logDenials, other.logAllows, other.rules;
    }

    /** Disabled, everything is allowed; enabled, exactly what some rule grants. */
    method IsAllowed(subject: string, target: string) returns (r: bool)
      ensures r <==> !enabled || Granted(rules, subject, target)
      ensures NulFree(rules) && Plain(subject) && Plain(target) ==>
                (r <==> !enabled || GrantedByGlob(rules, subject, target))
    {
      hide GrantedByGlob, NulFree, Plain;
      if NulFree(rules) && Plain(subject) && Plain(target) {
        GrantedIff(rules, subject, target);
      }
      if !enabled {
        return true;
      }
      for i := 0 to |rules|
        invariant forall k :: 0 <= k < i ==> !Grants(rules[k], subject, target)
      {
        var rule := rules[i];
        if SubjectMatches(rule.subject, subject) {
          for j := 0 to |rule.objects|
            invariant forall k :: 0 <= k < j ==> !ObjectMatches(rule.objects[k], target)
          {
            if ObjectMatches(rule.objects[j], target) {
              assert Grants(rules[i], subject, target);
              return true;
            }
          }
        }
      }
      return false;
    }
  }
}
