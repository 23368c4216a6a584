/** What a caller may name in an argument: everything, what a list of globs allows
    (each glob compiled to a regular expression), or only names the operator defined. */
module AccessPolicy {
  import opened Text
  import opened Glob
  import Permissions

  // ---- the fragment of Perl regular expressions the compiler can emit -----------------

  datatype Regex =
    | Eps
    | Lit(c: char)
    | Any
    | Star(r: Regex)
    | Cat(left: Regex, right: Regex)

  /** `s` is in the language of `r`; with `icase` letters match in either case. */
  predicate InLang(r: Regex, s: string, icase: bool)
    decreases r, |s|
  {
    match r
    case Eps => s == []
    case Lit(c) => |s| == 1 && SameChar(c, s[0], icase)
    case Any => |s| == 1
    case Star(q) => s == [] || exists k :: 0 < k <= |s| && InLang(q, s[..k], icase) && InLang(r, s[k..], icase)
    case Cat(a, b) => exists k :: 0 <= k <= |s| && InLang(a, s[..k], icase) && InLang(b, s[k..], icase)
  }

  predicate SameChar(c: char, d: char, icase: bool) {
    if icase then LowerChar(c) == LowerChar(d) else c == d
  }

  /** The characters that mean something unescaped. */
  predicate Meta(c: char) {
    c in {'.', '\\', '+', '^', '$', '(', ')', '[', ']', '{', '}', '|', '*', '?'}
  }

  /** Read a concrete regular expression: escaped metacharacters and ordinary
      characters are literals, `.` is any character, a `*` repeats the atom
      before it. Anything else a Perl expression may hold is not read. */
  function Parse(re: string): Option<Regex>
    decreases |re|
  {
    if re == [] then Some(Eps)
    else
      var atom := ParseAtom(re);
      if atom.None? then None
      else
        var (r, n) := atom.value;
        var starred := n < |re| && re[n] == '*';
        var rest := Parse(if starred then re[n + 1..] else re[n..]);
        if rest.None? then None else Some(Cat(if starred then Star(r) else r, rest.value))
  }

  /** One atom and its length. */
  function ParseAtom(re: string): (a: Option<(Regex, nat)>)
    requires re != []
    ensures a.Some? ==> 0 < a.value.1 <= |re|
  {
    if re[0] == '.' then Some((Any, 1))
    else if re[0] == '\\' then (if |re| >= 2 && Meta(re[1]) then Some((Lit(re[1]), 2)) else None)
    else if Meta(re[0]) then None
    else Some((Lit(re[0]), 1))
  }

  // ---- compiling a glob --------------------------------------------------------------------

  function Compiled(c: char): string {
    if c == '*' then ".*"
    else if c == '?' then "."
    else if Meta(c) then ['\\', c]
    else [c]
  }

  function Compile(glob: string): string {
    if glob == [] then [] else Compiled(glob[0]) + Compile(glob[1..])
  }

  lemma {:induction false} CompileSnoc(glob: string, c: char)
    ensures Compile(glob + [c]) == Compile(glob) + Compiled(c)
    decreases |glob|
  {
    hide Compiled;
    if glob == [] {
      assert [] + [c] == [c] && [c][1..] == [];
      assert Compile([]) + Compiled(c) == Compiled(c) + Compile([]);
    } else {
      assert (glob + [c])[1..] == glob[1..] + [c];
      CompileSnoc(glob[1..], c);
      Regroup(Compiled(glob[0]), Compile(glob[1..]), Compiled(c));
    }
  }

  method GlobToRegex(glob: string) returns (re: string)
    ensures re == Compile(glob)
  {
    hide Compile;
    re := "";
    CompileEmpty();
    for i := 0 to |glob|
      invariant re == Compile(glob[..i])
    {
      var c := glob[i];
      CompileSnoc(glob[..i], c);
      assert glob[..i + 1] == glob[..i] + [c];
      if c == '*' {
        re := re + ".*";
      } else if c == '?' {
        re := re + ".";
      } else if Meta(c) {
        re := re + ['\\'];
        re := re + [c];
      } else {
        re := re + [c];
      }
    }
    assert glob[..|glob|] == glob;
  }

  lemma CompileEmpty()
    ensures Compile("") == ""
  {
  }

  /** The expression a glob means, built without going through text. */
  function Meaning(glob: string): Regex {
    if glob == [] then Eps
    else Cat(if glob[0] == '*' then Star(Any) else if glob[0] == '?' then Any else Lit(glob[0]), Meaning(glob[1..]))
  }

  /** The emitted text is well formed and reads back as exactly that expression. */
  lemma {:induction false} CompileParses(glob: string)
    ensures Parse(Compile(glob)) == Some(Meaning(glob))
    ensures glob != [] ==> Compile(glob)[0] != '*'
    decreases |glob|
  {
    if glob == [] {
    } else {
      CompileParses(glob[1..]);
      var head, rest := Compiled(glob[0]), Compile(glob[1..]);
      var re := head + rest;
      assert re[|head|..] == rest;
      if glob[0] == '*' {
        assert re[1] == '*' && re[2..] == rest;
      } else if Meta(glob[0]) && glob[0] != '?' {
        assert re[1] == glob[0] && re[2..] == rest;
      } else {
        assert re[1..] == rest;
      }
    }
  }

  // ---- the compiled expression means the glob -------------------------------------------------

  function Fold(s: string, icase: bool): (r: string)
    ensures |r| == |s|
  {
    if icase then Lower(s) else s
  }

  lemma {:induction false} StarAny(s: string, icase: bool)
    ensures InLang(Star(Any), s, icase)
    decreases |s|
  {
    if s == [] {
    } else {
      StarAny(s[1..], icase);
      assert InLang(Any, s[..1], icase);
    }
  }

  /** For every glob and string: the compiled expression matches the whole
      string exactly when the glob does. */
  lemma {:induction false} MeaningMatches(glob: string, s: string, icase: bool)
    ensures InLang(Meaning(glob), s, icase) <==> Matches(Fold(glob, icase), Fold(s, icase))
    decreases |glob|
  {
    if glob == [] {
    } else {
      var p, t := Fold(glob, icase), Fold(s, icase);
      assert p[1..] == Fold(glob[1..], icase);
      var m := Meaning(glob);
      assert m.right == Meaning(glob[1..]);
      forall k | 0 <= k <= |s|
        ensures InLang(m.right, s[k..], icase) <==> Matches(p[1..], t[k..])
      {
        MeaningMatches(glob[1..], s[k..], icase);
        assert Fold(s[k..], icase) == t[k..];
      }
      if glob[0] == '*' {
        forall k | 0 <= k <= |s|
          ensures InLang(m.left, s[..k], icase)
        {
          StarAny(s[..k], icase);
        }
      } else if s != [] {
        assert forall k :: 0 <= k <= |s| && InLang(m.left, s[..k], icase) ==> k == 1;
        assert s[..1][0] == s[0];
      }
    }
  }

  /** This engine and the iterative matcher agree on texts without `*`. */
  lemma {:induction false} EnginesAgree(glob: string, s: string)
    requires '\0' !in glob && '\0' !in s && '*' !in s
    ensures InLang(Meaning(glob), s, true) <==> Permissions.GlobMatch(glob, s)
  {
    MeaningMatches(glob, s, true);
    Permissions.CStrLower(glob);
    Permissions.CStrLower(s);
    Permissions.CStrWhole(glob);
    Permissions.CStrWhole(s);
    Permissions.LowerKeeps(s, '*');
    MatcherDecides(Lower(glob), Lower(s));
  }

  // ---- the policy ----------------------------------------------------------------------------------

  datatype Mode = Anything | Allowed | PredefinedOnly

  datatype Reason = ConfigurationError | ContainsNul | NotInAllowList | OnlyPredefined

  datatype Decision = Accept(value: string) | Refuse(reason: Reason)

  /** What a policy is configured to, as the operator wrote it. */
  datatype Config = Config(
    mode: Mode,
    broken: bool,
    entries: seq<string>,
    icase: bool,
    predefined: map<string, string>)

  const SPACES: set<char> := {' ', '\t', '\n', '\U{0B}', '\U{0C}', '\r'}

  /** The six characters the classic locale calls space: codes 9 to 13, and 32. */
  lemma SpacesAre(c: char)
    ensures c in SPACES <==> 9 <= c as int <= 13 || c as int == 32
  {
  }

  function ParseMode(value: string): Option<Mode> {
    var v := Lower(Trimmed(value, SPACES));
    if v in {"", "any", "all", "unrestricted"} then Some(Anything)
    else if v in {"allowed", "allow", "list"} then Some(Allowed)
    else if v in {"predefined", "defined", "named"} then Some(PredefinedOnly)
    else None
  }

  ghost predicate Listed(c: Config, token: string) {
    exists i :: 0 <= i < |c.entries| && Matches(Fold(c.entries[i], c.icase), Fold(token, c.icase))
  }

  /** The decision on one caller-supplied token. */
  ghost function Verdict(c: Config, token: string): Decision {
    if token in c.predefined then Accept(c.predefined[token])
    else if c.broken then Refuse(ConfigurationError)
    else if c.mode == Anything then Accept(token)
    else if c.mode == PredefinedOnly then Refuse(OnlyPredefined)
    else if '\0' in token then Refuse(ContainsNul)
    else if Listed(c, token) then Accept(token)
    else Refuse(NotInAllowList)
  }

  /** A mode that does not parse closes the gate to everything but predefined names. */
  function WithMode(c: Config, value: string): Config {
    var m := ParseMode(value);
    if m.None? then c.(mode := PredefinedOnly, broken := true) else c.(mode := m.value, broken := false)
  }

  /** The start of a reload takes the predefined names away and nothing else; a
      token that was refused is still refused, for whatever the names were. */
  lemma {:induction false} ResetNeverOpens(c: Config, token: string)
    ensures Verdict(c.(predefined := map[]), token).Accept? && token !in c.predefined ==> Verdict(c, token).Accept?
    ensures Verdict(c, token).Refuse? ==> Verdict(c.(predefined := map[]), token) == Verdict(c, token)
  {
    assert Listed(c.(predefined := map[]), token) == Listed(c, token);
  }

  lemma {:induction false} NonEmptyHas(parts: seq<string>, e: string)
    ensures e in NonEmpty(parts, SPACES) <==> e != "" && exists i :: 0 <= i < |parts| && e == Trimmed(parts[i], SPACES)
    decreases |parts|
  {
    hide Trimmed;
    if parts == [] {
    } else {
      NonEmptyHas(parts[1..], e);
      assert parts == [parts[0]] + parts[1..];
    }
  }

  /** The comma entry `part`, trimmed, is a glob for the token. */
  ghost predicate EntryGlobs(c: Config, part: string, token: string) {
    var glob := Trimmed(part, SPACES);
    glob != "" && Matches(Fold(glob, c.icase), Fold(token, c.icase))
  }

  /** In `allowed` mode a token that is not predefined passes if and only if it is free of
      NUL and some comma entry, trimmed and not empty, globs it. */
  lemma {:induction false} AllowedIff(c: Config, list: string, token: string)
    requires c.mode == Allowed && !c.broken && c.entries == Entries(list, SPACES) && token !in c.predefined
    ensures var parts := Split(list, ',');
            Verdict(c, token) == Accept(token) <==>
            '\0' !in token && exists part :: part in parts && EntryGlobs(c, part, token)
  {
    hide Matches, Fold, NonEmpty, Trimmed;
    var parts := Split(list, ',');
    if Listed(c, token) {
      var k :| 0 <= k < |c.entries| && Matches(Fold(c.entries[k], c.icase), Fold(token, c.icase));
      NonEmptyHas(parts, c.entries[k]);
      var i :| 0 <= i < |parts| && c.entries[k] == Trimmed(parts[i], SPACES);
      assert EntryGlobs(c, parts[i], token);
    }
    forall part | part in parts && EntryGlobs(c, part, token)
      ensures Listed(c, token)
    {
      var e := Trimmed(part, SPACES);
      NonEmptyHas(parts, e);
      var k :| 0 <= k < |c.entries| && c.entries[k] == e;
    }
  }

  lemma NonEmptyStep(parts: seq<string>, i: nat)
    requires i < |parts|
    ensures NonEmpty(parts[i..], SPACES) ==
            (if Trimmed(parts[i], SPACES) == "" then [] else [Trimmed(parts[i], SPACES)]) +
            NonEmpty(parts[i + 1..], SPACES)
  {
    hide Trimmed;
    assert parts[i..][1..] == parts[i + 1..];
  }

  method CompileList(value: string) returns (compiled: seq<Regex>, raw: seq<string>)
    ensures raw == Entries(value, SPACES) && |compiled| == |raw|
    ensures forall k :: 0 <= k < |compiled| ==> compiled[k] == Meaning(raw[k])
  {
    hide Trimmed, NonEmpty, Meaning, Parse, Split, Compile, Compiled;
    var parts := Split(value, ',');
    compiled, raw := [], [];
    assert parts[0..] == parts;
    for i := 0 to |parts|
      invariant |compiled| == |raw| && forall k :: 0 <= k < |compiled| ==> compiled[k] == Meaning(raw[k])
      invariant raw + NonEmpty(parts[i..], SPACES) == Entries(value, SPACES)
    {
      var entry := Trimmed(parts[i], SPACES);
      NonEmptyStep(parts, i);
      if entry != "" {
        var re := GlobToRegex(entry);
        var parsed := Parse(re);
        CompileParses(entry);
        if parsed.Some? {
          compiled := compiled + [parsed.value];
          raw := raw + [entry];
        }
      }
    }
    NonEmptyNone(parts);
  }

  lemma NonEmptyNone(parts: seq<string>)
    ensures NonEmpty(parts[|parts|..], SPACES) == []
  {
  }

  // ---- over every history of configuration ---------------------------------------------------------

  datatype Op =
    | SetMode(text: string)
    | SetAllowList(text: string)
    | AddPredefined(name: string, value: string)
    | Reset

  function Step(c: Config, op: Op): Config {
    match op
    case SetMode(text) => WithMode(c, text)
    case SetAllowList(text) => c.(entries := Entries(text, SPACES))
    case AddPredefined(name, value) => c.(predefined := c.predefined[name := value])
    case Reset => c.(predefined := map[])
  }

  function Run(c: Config, ops: seq<Op>): Config
    decreases ops
  {
    if ops == [] then c else Run(Step(c, ops[0]), ops[1..])
  }

  /** The last mode text, the last list text, and the names added since the last reset. */
  function LastMode(was: string, ops: seq<Op>): string
    decreases ops
  {
    if ops == [] then was else LastMode(if ops[0].SetMode? then ops[0].text else was, ops[1..])
  }

  function LastList(was: string, ops: seq<Op>): string
    decreases ops
  {
    if ops == [] then was else LastList(if ops[0].SetAllowList? then ops[0].text else was, ops[1..])
  }

  function NamesNow(was: map<string, string>, ops: seq<Op>): map<string, string>
    decreases ops
  {
    if ops == [] then was
    else
      var op := ops[0];
      NamesNow(if op.Reset? then map[] else if op.AddPredefined? then was[op.name := op.value] else was, ops[1..])
  }

  /** A setting spells one of the words, in any case and with blanks around it. */
  predicate Spells(text: string, words: set<string>) {
    Lower(Trimmed(text, SPACES)) in words
  }

  const OPEN_WORDS: set<string> := {"", "any", "all", "unrestricted"}
  const LIST_WORDS: set<string> := {"allowed", "allow", "list"}
  const NAME_WORDS: set<string> := {"predefined", "defined", "named"}

  /** What is configured, by the texts it was configured with. */
  ghost predicate ConfiguredBy(c: Config, mode: string, list: string, names: map<string, string>) {
    && c.entries == Entries(list, SPACES) && c.predefined == names
    && (Spells(mode, OPEN_WORDS) ==> c.mode == Anything && !c.broken)
    && (Spells(mode, LIST_WORDS) ==> c.mode == Allowed && !c.broken)
    && (Spells(mode, NAME_WORDS) ==> c.mode == PredefinedOnly && !c.broken)
    && (!Spells(mode, OPEN_WORDS + LIST_WORDS + NAME_WORDS) ==> c.broken)
  }

  lemma {:induction false} RunConfigured(
      c: Config, ops: seq<Op>, mode: string, list: string, names: map<string, string>)
    requires ConfiguredBy(c, mode, list, names)
    ensures ConfiguredBy(Run(c, ops), LastMode(mode, ops), LastList(list, ops), NamesNow(names, ops))
    ensures Run(c, ops).icase == c.icase
    decreases |ops|
  {
    hide Trimmed, Entries;
    if ops == [] {
    } else {
      var op := ops[0];
      RunConfigured(Step(c, op), ops[1..],
                    if op.SetMode? then op.text else mode, if op.SetAllowList? then op.text else list,
                    if op.Reset? then map[] else if op.AddPredefined? then names[op.name := op.value] else names);
    }
  }

  function Initial(icase: bool): Config {
    Config(Anything, false, [], icase, map[])
  }

  /** The gate after any history. A name added since the last reset is accepted with the last
      value given for it. Any other token: with a mode that spells `any`, accepted as itself; with
      one that spells `allowed`, accepted if and only if it has no NUL and some comma entry of the
      last list globs it; with `predefined`, or a text that spells nothing, refused. */
  lemma {:induction false} GateIs(icase: bool, ops: seq<Op>, token: string)
    ensures var c := Run(Initial(icase), ops);
            var mode, names, parts := LastMode("", ops), NamesNow(map[], ops), Split(LastList("", ops), ',');
            && c.icase == icase
            && (token in names ==> Verdict(c, token) == Accept(names[token]))
            && (token !in names && Spells(mode, OPEN_WORDS) ==> Verdict(c, token) == Accept(token))
            && (token !in names && Spells(mode, LIST_WORDS) ==>
                  Verdict(c, token) ==
                  if '\0' in token then Refuse(ContainsNul)
                  else if exists part :: part in parts && EntryGlobs(c, part, token) then Accept(token)
                  else Refuse(NotInAllowList))
            && (token !in names && Spells(mode, NAME_WORDS) ==> Verdict(c, token) == Refuse(OnlyPredefined))
            && (token !in names && !Spells(mode, OPEN_WORDS + LIST_WORDS + NAME_WORDS) ==>
                  Verdict(c, token) == Refuse(ConfigurationError))
  {
    hide Trimmed, Entries, EntryGlobs, Split, Listed, Run, LastMode, LastList, NamesNow;
    NothingListed();
    RunConfigured(Initial(icase), ops, "", "", map[]);
    var c := Run(Initial(icase), ops);
    if token !in NamesNow(map[], ops) && Spells(LastMode("", ops), LIST_WORDS) {
      AllowedIff(c, LastList("", ops), token);
    }
  }

  lemma NothingListed()
    ensures Entries("", SPACES) == [] && Spells("", OPEN_WORDS)
    ensures !Spells("", LIST_WORDS) && !Spells("", NAME_WORDS)
  {
    assert Split("", ',') == [""] && Trimmed("", SPACES) == "";
    assert NonEmpty([""][1..], SPACES) == [];
  }

  class Policy {
    const caseSensitive: bool
    var mode: Mode
    var broken: bool
    var patterns: seq<Regex>
    var rawPatterns: seq<string>
    var predefined: map<string, string>

    ghost predicate Valid()
      reads this
    {
      |patterns| == |rawPatterns| && forall i :: 0 <= i < |patterns| ==> patterns[i] == Meaning(rawPatterns[i])
    }

    ghost function View(): Config
      reads this
    {
      Config(mode, broken, rawPatterns, !caseSensitive, predefined)
    }

    constructor (caseSensitive: bool)
      ensures Valid() && View() == Config(Anything, false, [], !caseSensitive, map[])
    {
      this.caseSensitive := caseSensitive;
      mode, broken, patterns, rawPatterns, predefined := Anything, false, [], [], map[];
    }

    method SetMode(value: string)
      requires Valid()
      modifies this`mode, this`broken
      ensures Valid() && View() == WithMode(old(View()), value)
    {
      var m := ParseMode(value);
      if m.None? {
        mode, broken := PredefinedOnly, true;
      } else {
        mode, broken := m.value, false;
      }
    }

    /** The list becomes exactly the trimmed, non-empty comma entries: every one of them compiles. */
    method SetAllowList(value: string)
      requires Valid()
      modifies this`patterns, this`rawPatterns
      ensures Valid() && View() == old(View()).(entries := Entries(value, SPACES))
    {
      hide Entries, Meaning;
      patterns, rawPatterns := CompileList(value);
    }

    method AddPredefined(name: string, value: string)
      requires Valid()
      modifies this`predefined
      ensures Valid() && View() == old(View()).(predefined := old(predefined)[name := value])
    {
      predefined := predefined[name := value];
    }

    method Reset()
      requires Valid()
      modifies this`predefined
      ensures Valid() && View() == old(View()).(predefined := map[])
    {
      predefined := map[];
    }

    method MatchesAllowList(value: string) returns (r: bool)
      requires Valid()
      ensures r <==> Listed(View(), value)
    {
      for i := 0 to |patterns|
        invariant forall k :: 0 <= k < i ==> !Matches(Fold(rawPatterns[k], !caseSensitive), Fold(value, !caseSensitive))
      {
        MeaningMatches(rawPatterns[i], value, !caseSensitive);
        if InLang(patterns[i], value, !caseSensitive) {
          return true;
        }
      }
      return false;
    }

    /** Accept or refuse one token, by the globs as the operator wrote them. */
    method Resolve(token: string) returns (d: Decision)
      requires Valid()
      ensures d == Verdict(View(), token)
    {
      if token in predefined {
        return Accept(predefined[token]);
      }
      if broken {
        return Refuse(ConfigurationError);
      }
      match mode
      case Anything => return Accept(token);
      case Allowed =>
        if '\0' in token {
          return Refuse(ContainsNul);
        }
        var listed := MatchesAllowList(token);
        if listed {
          return Accept(token);
        }
        return Refuse(NotInAllowList);
      case PredefinedOnly => return Refuse(OnlyPredefined);
    }
  }
}
