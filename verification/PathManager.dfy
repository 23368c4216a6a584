/** Expanding `${token}` paths: tokens resolve to texts that may hold tokens again,
    so expansion recurses, with a depth guard against cycles. */
module PathManager {
  import opened Text

  const MAX_EXPAND_DEPTH: nat := 32

  datatype Entry = Literal(text: string) | Variable(name: string)

  datatype Result = Ok(value: string) | UnknownToken(name: string)

  /** The three layers of token values, and the `${...}` splitter as a given function. */
  datatype Paths = Paths(
    parser: string -> seq<Entry>,
    cli: map<string, string>, overrides: map<string, string>, defaults: map<string, string>)
  {
    function Parse(file: string): seq<Entry> {
      parser(file)
    }

    /** Command line over boot.ini over built-in default. */
    function Raw(key: string): Option<string> {
      if key in cli then Some(cli[key])
      else if key in overrides then Some(overrides[key])
      else if key in defaults then Some(defaults[key])
      else None
    }

    /** A text as a row of entries; the empty path and `none` stand for themselves. */
    function Entries(file: string): seq<Entry> {
      if file == "" || file == "none" then [Literal(file)] else Parse(file)
    }
  }

  lemma LayersOverride(p: Paths, key: string)
    ensures var layered := p.defaults + p.overrides + p.cli;
            p.Raw(key) == if key in layered then Some(layered[key]) else None
  {
  }

  // ---- what the code computes -------------------------------------------------------------------

  function Left(depth: nat): nat {
    if depth > MAX_EXPAND_DEPTH then 0 else MAX_EXPAND_DEPTH + 1 - depth
  }

  function Expand(p: Paths, file: string, depth: nat): Result
    decreases Left(depth), 1, 0
  {
    if depth > MAX_EXPAND_DEPTH then Ok("")
    else if file == "" || file == "none" then Ok(file)
    else ExpandEntries(p, p.Parse(file), depth)
  }

  /** Entry by entry; the first unknown token ends it. */
  function ExpandEntries(p: Paths, entries: seq<Entry>, depth: nat): Result
    requires depth <= MAX_EXPAND_DEPTH
    decreases Left(depth), 0, |entries|
  {
    if entries == [] then Ok("")
    else
      var first :=
        match entries[0]
        case Literal(text) => Ok(text)
        case Variable(name) =>
          var raw := p.Raw(name);
          if raw.None? then UnknownToken(name) else Expand(p, raw.value, depth + 1);
      if first.UnknownToken? then first else Prepend(first.value, ExpandEntries(p, entries[1..], depth))
  }

  function Prepend(text: string, r: Result): Result {
    if r.Ok? then Ok(text + r.value) else r
  }

  lemma ExpandByEntries(p: Paths, file: string, depth: nat)
    requires depth <= MAX_EXPAND_DEPTH
    ensures Expand(p, file, depth) == ExpandEntries(p, p.Entries(file), depth)
  {
    if file == "" || file == "none" {
      assert [Literal(file)][1..] == [];
      assert file + "" == file;
    }
  }

  function ExpandOne(p: Paths, entry: Entry, depth: nat): Result
    requires depth <= MAX_EXPAND_DEPTH
  {
    match entry
    case Literal(text) => Ok(text)
    case Variable(name) =>
      if p.Raw(name).None? then UnknownToken(name) else Expand(p, p.Raw(name).value, depth + 1)
  }

  lemma ExpandNext(p: Paths, entries: seq<Entry>, i: nat, depth: nat)
    requires depth <= MAX_EXPAND_DEPTH && i < |entries|
    ensures var first := ExpandOne(p, entries[i], depth);
            ExpandEntries(p, entries[i..], depth) ==
            if first.UnknownToken? then first else Prepend(first.value, ExpandEntries(p, entries[i + 1..], depth))
  {
    assert entries[i..][1..] == entries[i + 1..];
  }

  lemma ExpandNone(p: Paths, entries: seq<Entry>, depth: nat)
    requires depth <= MAX_EXPAND_DEPTH
    ensures ExpandEntries(p, entries[|entries|..], depth) == Ok("")
  {
  }

  /** Every map of overrides, cyclic ones included, comes to an end. */
  method ExpandPath(p: Paths, file: string, depth: nat) returns (r: Result)
    ensures r == Expand(p, file, depth)
    decreases Left(depth), 1
  {
    if depth > MAX_EXPAND_DEPTH { return Ok(""); }
    if file == "" { return Ok(file); }
    if file == "none" { return Ok(file); }
    r := ExpandAll(p, p.Parse(file), depth);
  }

  /** The accumulating loop. */
  method ExpandAll(p: Paths, expr: seq<Entry>, depth: nat) returns (r: Result)
    requires depth <= MAX_EXPAND_DEPTH
    ensures r == ExpandEntries(p, expr, depth)
    decreases Left(depth), 0
  {
    hide ExpandEntries, Expand;
    var ret := "";
    assert expr[0..] == expr;
    PrependNothing(ExpandEntries(p, expr, depth));
    for i := 0 to |expr|
      invariant ExpandEntries(p, expr, depth) == Prepend(ret, ExpandEntries(p, expr[i..], depth))
    {
      ExpandNext(p, expr, i, depth);
      match expr[i]
      case Literal(text) =>
        ret := ret + text;
      case Variable(name) =>
        var raw := p.Raw(name);
        if raw.None? { return UnknownToken(name); }
        var value := ExpandPath(p, raw.value, depth + 1);
        if value.UnknownToken? { return value; }
        ret := ret + value.value;
    }
    ExpandNone(p, expr, depth);
    return Ok(ret);
  }

  lemma PrependNothing(r: Result)
    ensures Prepend("", r) == r
  {
    if r.Ok? { assert "" + r.value == r.value; }
  }

  // ---- ideal substitution ---------------------------------------------------------------------------

  /** A text with every token replaced, all the way down, and the shape kept. */
  datatype Parts =
    | End
    | Plain(text: string, rest: Parts)
    | Token(name: string, inner: Parts, rest: Parts)

  /** `parts` is the full substitution of `entries`; no depth is involved. */
  ghost predicate Substitutes(p: Paths, entries: seq<Entry>, parts: Parts)
    decreases parts
  {
    match parts
    case End => entries == []
    case Plain(text, rest) =>
      entries != [] && entries[0] == Literal(text) && Substitutes(p, entries[1..], rest)
    case Token(name, inner, rest) =>
      && entries != [] && entries[0] == Variable(name) && p.Raw(name).Some?
      && Substitutes(p, p.Entries(p.Raw(name).value), inner)
      && Substitutes(p, entries[1..], rest)
  }

  function Flatten(parts: Parts): string {
    match parts
    case End => ""
    case Plain(text, rest) => text + Flatten(rest)
    case Token(_, inner, rest) => Flatten(inner) + Flatten(rest)
  }

  /** There is at most one full substitution. */
  lemma {:induction false} SubstitutionUnique(p: Paths, entries: seq<Entry>, a: Parts, b: Parts)
    requires Substitutes(p, entries, a) && Substitutes(p, entries, b)
    ensures a == b
    decreases a
  {
    match a
    case End =>
    case Plain(_, rest) => SubstitutionUnique(p, entries[1..], rest, b.rest);
    case Token(name, inner, rest) =>
      SubstitutionUnique(p, p.Entries(p.Raw(name).value), inner, b.inner);
      SubstitutionUnique(p, entries[1..], rest, b.rest);
  }

  /** The part of a substitution that lies within `n` further levels of tokens. */
  function Within(parts: Parts, n: nat): string {
    match parts
    case End => ""
    case Plain(text, rest) => text + Within(rest, n)
    case Token(_, inner, rest) => (if n == 0 then "" else Within(inner, n - 1)) + Within(rest, n)
  }

  /** How much text lies deeper than that. */
  function Lost(parts: Parts, n: nat): nat {
    match parts
    case End => 0
    case Plain(_, rest) => Lost(rest, n)
    case Token(_, inner, rest) => (if n == 0 then |Flatten(inner)| else Lost(inner, n - 1)) + Lost(rest, n)
  }

  /** Levels of tokens. */
  function Height(parts: Parts): nat {
    match parts
    case End => 0
    case Plain(_, rest) => Height(rest)
    case Token(_, inner, rest) => Max(1 + Height(inner), Height(rest))
  }

  lemma {:induction false} WithinOrLost(parts: Parts, n: nat)
    ensures |Flatten(parts)| == |Within(parts, n)| + Lost(parts, n)
    ensures Lost(parts, n) == 0 ==> Within(parts, n) == Flatten(parts)
    ensures Height(parts) <= n ==> Lost(parts, n) == 0
    decreases parts
  {
    match parts
    case End =>
    case Plain(_, rest) => WithinOrLost(rest, n);
    case Token(_, inner, rest) =>
      WithinOrLost(rest, n);
      if n > 0 { WithinOrLost(inner, n - 1); }
  }

  lemma ExpandsFirst(p: Paths, entries: seq<Entry>, depth: nat)
    requires depth <= MAX_EXPAND_DEPTH && entries != []
    ensures var first := ExpandOne(p, entries[0], depth);
            ExpandEntries(p, entries, depth) ==
            if first.UnknownToken? then first else Prepend(first.value, ExpandEntries(p, entries[1..], depth))
  {
    ExpandNext(p, entries, 0, depth);
    assert entries[0..] == entries;
  }

  /** The code produces the substitution as far down as the guard lets it. */
  lemma {:induction false} ExpandsWithin(p: Paths, entries: seq<Entry>, parts: Parts, depth: nat)
    requires depth <= MAX_EXPAND_DEPTH && Substitutes(p, entries, parts)
    ensures ExpandEntries(p, entries, depth) == Ok(Within(parts, MAX_EXPAND_DEPTH - depth))
    decreases parts
  {
    hide ExpandEntries;
    match parts
    case End =>
      ExpandNone(p, entries, depth);
    case Plain(_, rest) =>
      ExpandsFirst(p, entries, depth);
      ExpandsWithin(p, entries[1..], rest, depth);
    case Token(name, inner, rest) =>
      ExpandsFirst(p, entries, depth);
      ExpandsWithin(p, entries[1..], rest, depth);
      if depth < MAX_EXPAND_DEPTH {
        ExpandsWithin(p, p.Entries(p.Raw(name).value), inner, depth + 1);
        ExpandByEntries(p, p.Raw(name).value, depth + 1);
      }
  }

  /** Where full substitution exists the code returns it if and only if no text lies more
      than 32 levels of tokens down; in particular when there are no more than 32 levels. */
  lemma {:induction false} ExpandIsIdealIff(p: Paths, file: string, parts: Parts)
    requires Substitutes(p, p.Entries(file), parts)
    ensures Expand(p, file, 0).Ok?
    ensures Expand(p, file, 0) == Ok(Flatten(parts)) <==> Lost(parts, MAX_EXPAND_DEPTH) == 0
    ensures Height(parts) <= MAX_EXPAND_DEPTH ==> Expand(p, file, 0) == Ok(Flatten(parts))
  {
    ExpandByEntries(p, file, 0);
    ExpandsWithin(p, p.Entries(file), parts, 0);
    WithinOrLost(parts, MAX_EXPAND_DEPTH);
  }

  // ---- chains of tokens ------------------------------------------------------------------------------

  /** A chain of tokens, each occurring in the text of the one before. */
  ghost predicate Leads(p: Paths, entries: seq<Entry>, chain: seq<string>)
    decreases |chain|
  {
    && chain != [] && Variable(chain[0]) in entries
    && (|chain| > 1 ==> p.Raw(chain[0]).Some? && Leads(p, p.Entries(p.Raw(chain[0]).value), chain[1..]))
  }

  ghost predicate Missing(p: Paths, chain: seq<string>) {
    chain != [] && p.Raw(chain[|chain| - 1]).None?
  }

  lemma LeadsMore(p: Paths, entries: seq<Entry>, chain: seq<string>)
    requires entries != [] && Leads(p, entries[1..], chain)
    ensures Leads(p, entries, chain)
  {
  }

  lemma LeadsThrough(p: Paths, entries: seq<Entry>, name: string, chain: seq<string>)
    requires Variable(name) in entries && p.Raw(name).Some? && Leads(p, p.Entries(p.Raw(name).value), chain)
    ensures Leads(p, entries, [name] + chain)
    ensures Missing(p, chain) ==> Missing(p, [name] + chain)
  {
    assert ([name] + chain)[1..] == chain;
  }

  lemma {:induction false} FailureHasChain(p: Paths, entries: seq<Entry>, depth: nat) returns (chain: seq<string>)
    requires depth <= MAX_EXPAND_DEPTH && ExpandEntries(p, entries, depth).UnknownToken?
    ensures Leads(p, entries, chain) && Missing(p, chain) && |chain| <= MAX_EXPAND_DEPTH + 1 - depth
    ensures chain[|chain| - 1] == ExpandEntries(p, entries, depth).name
    decreases Left(depth), |entries|
  {
    match entries[0]
    case Literal(_) =>
      chain := FailureHasChain(p, entries[1..], depth);
      LeadsMore(p, entries, chain);
    case Variable(name) =>
      if p.Raw(name).None? {
        chain := [name];
      } else if Expand(p, p.Raw(name).value, depth + 1).UnknownToken? {
        ExpandByEntries(p, p.Raw(name).value, depth + 1);
        var rest := FailureHasChain(p, p.Entries(p.Raw(name).value), depth + 1);
        LeadsThrough(p, entries, name, rest);
        chain := [name] + rest;
      } else {
        chain := FailureHasChain(p, entries[1..], depth);
        LeadsMore(p, entries, chain);
      }
  }

  lemma {:induction false} ChainFails(p: Paths, entries: seq<Entry>, depth: nat, chain: seq<string>)
    requires depth <= MAX_EXPAND_DEPTH
    requires Leads(p, entries, chain) && Missing(p, chain) && |chain| <= MAX_EXPAND_DEPTH + 1 - depth
    ensures ExpandEntries(p, entries, depth).UnknownToken?
    decreases Left(depth), |entries|
  {
    if entries[0] == Variable(chain[0]) {
      if |chain| > 1 {
        var value := p.Raw(chain[0]).value;
        ChainFails(p, p.Entries(value), depth + 1, chain[1..]);
        ExpandByEntries(p, value, depth + 1);
      }
    } else {
      assert Variable(chain[0]) in entries[1..];
      ChainFails(p, entries[1..], depth, chain);
    }
  }

  /** For every map of overrides, expansion fails if and only if some chain of at most 33
      tokens from the text ends at an unknown one. */
  lemma {:induction false} FailsIff(p: Paths, file: string)
    ensures Expand(p, file, 0).UnknownToken? <==>
            exists chain :: Leads(p, p.Entries(file), chain) && Missing(p, chain) && |chain| <= MAX_EXPAND_DEPTH + 1
  {
    ExpandByEntries(p, file, 0);
    if Expand(p, file, 0).UnknownToken? {
      var chain := FailureHasChain(p, p.Entries(file), 0);
    }
    if exists chain :: Leads(p, p.Entries(file), chain) && Missing(p, chain) && |chain| <= MAX_EXPAND_DEPTH + 1 {
      var chain :| Leads(p, p.Entries(file), chain) && Missing(p, chain) && |chain| <= MAX_EXPAND_DEPTH + 1;
      ChainFails(p, p.Entries(file), 0, chain);
    }
  }

  /** Token dependency height: no chain is longer than `h`. */
  ghost predicate HeightAtMost(p: Paths, entries: seq<Entry>, h: nat) {
    forall chain :: Leads(p, entries, chain) ==> |chain| <= h
  }

  ghost predicate AllKnown(p: Paths, entries: seq<Entry>) {
    forall chain :: Leads(p, entries, chain) ==> !Missing(p, chain)
  }

  /** Bounded height and no unknown token are enough for full substitution to exist. */
  lemma {:induction false} SubstitutionExists(p: Paths, entries: seq<Entry>, h: nat) returns (parts: Parts)
    requires HeightAtMost(p, entries, h) && AllKnown(p, entries)
    ensures Substitutes(p, entries, parts) && Height(parts) <= h
    decreases h, |entries|
  {
    if entries == [] { return End; }
    forall chain | Leads(p, entries[1..], chain)
      ensures Leads(p, entries, chain)
    {
      LeadsMore(p, entries, chain);
    }
    var rest := SubstitutionExists(p, entries[1..], h);
    match entries[0]
    case Literal(text) => return Plain(text, rest);
    case Variable(name) =>
      assert Leads(p, entries, [name]);
      assert p.Raw(name).Some? && h > 0 by {
        assert !Missing(p, [name]);
      }
      var value := p.Entries(p.Raw(name).value);
      forall chain | Leads(p, value, chain)
        ensures |chain| <= h - 1 && !Missing(p, chain)
      {
        LeadsThrough(p, entries, name, chain);
      }
      var inner := SubstitutionExists(p, value, h - 1);
      return Token(name, inner, rest);
  }

  /** The law: over any layers, for a path whose tokens depend on each other at most 32 deep,
      expansion fails exactly when a reachable token is unknown, and otherwise returns the one
      full substitution. */
  lemma {:induction false} ExpansionLaw(p: Paths, file: string)
    requires HeightAtMost(p, p.Entries(file), MAX_EXPAND_DEPTH)
    ensures Expand(p, file, 0).UnknownToken? <==> !AllKnown(p, p.Entries(file))
    ensures AllKnown(p, p.Entries(file)) ==>
              exists parts :: Substitutes(p, p.Entries(file), parts) && Expand(p, file, 0) == Ok(Flatten(parts))
  {
    FailsIff(p, file);
    if AllKnown(p, p.Entries(file)) {
      var parts := SubstitutionExists(p, p.Entries(file), MAX_EXPAND_DEPTH);
      ExpandIsIdealIff(p, file, parts);
    }
  }

  /** A token that stands for itself expands to nothing, at whatever depth it is met. */
  lemma {:induction false} CycleExpandsToNothing(p: Paths, file: string, name: string, depth: nat)
    requires file != "" && file != "none" && p.Parse(file) == [Variable(name)] && p.Raw(name) == Some(file)
    ensures Expand(p, file, depth) == Ok("")
    decreases Left(depth)
  {
    if depth > MAX_EXPAND_DEPTH {
    } else {
      CycleExpandsToNothing(p, file, name, depth + 1);
      assert [Variable(name)][1..] == [];
      assert ExpandEntries(p, [], depth) == Ok("");
    }
  }

  // ---- what expansion costs --------------------------------------------------------------------------

  /** The number of calls an expansion makes, itself included. */
  function Calls(p: Paths, file: string, depth: nat): (n: nat)
    ensures n > 0
    decreases Left(depth), 1, 0
  {
    if depth > MAX_EXPAND_DEPTH || file == "" || file == "none" then 1
    else 1 + CallsBelow(p, p.Parse(file), depth)
  }

  function CallsBelow(p: Paths, entries: seq<Entry>, depth: nat): nat
    requires depth <= MAX_EXPAND_DEPTH
    decreases Left(depth), 0, |entries|
  {
    if entries == [] then 0
    else if entries[0].Literal? then CallsBelow(p, entries[1..], depth)
    else
      var raw := p.Raw(entries[0].name);
      if raw.None? then 0
      else
        var here := Calls(p, raw.value, depth + 1);
        if Expand(p, raw.value, depth + 1).UnknownToken? then here
        else here + CallsBelow(p, entries[1..], depth)
  }

  /** Nodes of a full tree with `width` branches at each of `levels` levels. */
  function FullTree(width: nat, levels: nat): nat {
    if levels == 0 then 1 else 1 + width * FullTree(width, levels - 1)
  }

  /** No text that can be met is split into more than `width` entries. */
  ghost predicate Narrow(p: Paths, file: string, width: nat) {
    |p.Parse(file)| <= width && forall key :: p.Raw(key).Some? ==> |p.Parse(p.Raw(key).value)| <= width
  }

  lemma Times(n: nat, m: nat, k: nat)
    requires n <= m
    ensures n * k <= m * k && (n + 1) * k == n * k + k
  {
  }

  /** The depth guard bounds the work by a full tree of 33 levels, and by no less. */
  lemma {:induction false} CallsBound(p: Paths, file: string, depth: nat, width: nat)
    requires Narrow(p, file, width)
    ensures Calls(p, file, depth) <= FullTree(width, Left(depth))
    decreases Left(depth), 1, 0
  {
    if depth > MAX_EXPAND_DEPTH || file == "" || file == "none" {
    } else {
      var below := FullTree(width, Left(depth) - 1);
      CallsBelowBound(p, p.Parse(file), depth, width, below);
      Times(|p.Parse(file)|, width, below);
    }
  }

  lemma {:induction false} CallsBelowBound(p: Paths, entries: seq<Entry>, depth: nat, width: nat, below: nat)
    requires depth <= MAX_EXPAND_DEPTH && below == FullTree(width, Left(depth + 1))
    requires forall key :: p.Raw(key).Some? ==> |p.Parse(p.Raw(key).value)| <= width
    ensures CallsBelow(p, entries, depth) <= |entries| * below
    decreases Left(depth), 0, |entries|
  {
    hide FullTree, Expand;
    if entries == [] {
    } else {
      CallsBelowBound(p, entries[1..], depth, width, below);
      Times(|entries| - 1, |entries| - 1, below);
      if entries[0].Variable? && p.Raw(entries[0].name).Some? {
        CallsBound(p, p.Raw(entries[0].name).value, depth + 1, width);
      }
    }
  }

  function Power(n: nat): nat {
    if n == 0 then 1 else 2 * Power(n - 1)
  }

  lemma {:induction false} TwoBranches(levels: nat)
    ensures FullTree(2, levels) == Power(levels + 1) - 1
    decreases levels
  {
    if levels == 0 {
    } else {
      TwoBranches(levels - 1);
    }
  }

  /** A token that stands for itself twice makes 2^34 - 1 calls, and expands to nothing. */
  lemma {:induction false} DoubledCycleCost(p: Paths, file: string, name: string)
    requires file != "" && file != "none" && p.Raw(name) == Some(file)
    requires p.Parse(file) == [Variable(name), Variable(name)]
    ensures Expand(p, file, 0) == Ok("") && Calls(p, file, 0) == Power(34) - 1
  {
    DoubledCycle(p, file, name, 0);
    TwoBranches(33);
  }

  lemma {:induction false} DoubledCycle(p: Paths, file: string, name: string, depth: nat)
    requires file != "" && file != "none" && p.Raw(name) == Some(file)
    requires p.Parse(file) == [Variable(name), Variable(name)]
    ensures Expand(p, file, depth) == Ok("") && Calls(p, file, depth) == FullTree(2, Left(depth))
    decreases Left(depth)
  {
    if depth > MAX_EXPAND_DEPTH {
    } else {
      DoubledCycle(p, file, name, depth + 1);
      var both, one := [Variable(name), Variable(name)], [Variable(name)];
      assert both[1..] == one && one[1..] == [];
      assert ExpandEntries(p, [], depth) == Ok("") && CallsBelow(p, [], depth) == 0;
      assert ExpandEntries(p, one, depth) == Ok("");
      assert CallsBelow(p, one, depth) == Calls(p, file, depth + 1);
      assert CallsBelow(p, both, depth) == 2 * Calls(p, file, depth + 1);
    }
  }

  /** The empty path and `none` stand for themselves at every depth that is expanded. */
  lemma StandForThemselves(p: Paths, depth: nat)
    requires depth <= 32
    ensures Expand(p, "", depth) == Ok("") && Expand(p, "none", depth) == Ok("none")
  {
  }
}
