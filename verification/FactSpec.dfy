/** The facts repository as its readers should see it: an eager state machine
    that takes the published snapshot when a round begins, keeps no caches, and
    recounts the document size whenever it needs it. `FactRepository` refines it. */
module FactSpec {
  import opened Text
  import opened FactTree

  /** The encodings the repository is built on, left abstract: the stored bytes
      of one set, the JSON of the document, and the digest of that JSON. */
  datatype Codec = Codec(encoder: Object -> string, renderer: Object -> string, digester: string -> string) {
    function Encode(o: Object): string { encoder(o) }
    function Render(document: Object): string { renderer(document) }
    function Digest(json: string): string { digester(json) }
  }

  datatype Snapshot = Snapshot(json: string, revision: nat, collected: string)

  datatype Doc = Doc(
    sets: map<string, Object>,
    owners: map<string, nat>,
    declared: map<nat, set<string>>,
    gathered: map<string, string>,
    collected: string,
    revision: nat,
    maxSize: nat,
    rounds: nat,
    start: Snapshot)

  datatype SetResult = Changed | Unchanged | Rejected

  datatype Op =
    | SetFacts(name: string, plugin: nat, value: Object)
    | Remove(name: string)
    | RemoveOwnedBy(plugin: nat)
    | RetainOnly(plugin: nat, produced: set<string>)
    | BeginRound
    | EndRound
    | MarkCollected(timestamp: string)
    | MarkGathered(name: string, timestamp: string)
    | SetMaxSize(maxSize: nat)

  const DEFAULT_MAX_SIZE: nat := 1048576
  const MIN_MAX_SIZE: nat := 2

  const EMPTY := Doc(map[], map[], map[], map[], "", 0, DEFAULT_MAX_SIZE, 0, Snapshot("", 0, ""))

  // ---- the document assembled from the sets, in key order ---------------------------

  ghost predicate IsLeast(k: string, s: set<string>) {
    k in s && forall x :: x in s && x != k ==> Less(k, x)
  }

  lemma {:induction false} LeastExists(s: set<string>)
    requires s != {}
    ensures exists k :: IsLeast(k, s)
    decreases s
  {
    var x :| x in s;
    if s == {x} {
      assert IsLeast(x, s);
    } else {
      LeastExists(s - {x});
      var k :| IsLeast(k, s - {x});
      LessTotal(k, x);
      if Less(k, x) {
        assert IsLeast(k, s);
      } else {
        forall y | y in s && y != x
          ensures Less(x, y)
        {
          if y != k {
            LessTransitive(x, k, y);
          }
        }
        assert IsLeast(x, s);
      }
    }
  }

  ghost function DocumentFields(sets: map<string, Object>): seq<Field>
    decreases |sets|
  {
    if sets == map[] then [] else
      LeastExists(sets.Keys);
      var k :| IsLeast(k, sets.Keys);
      assert (sets - {k}).Keys == sets.Keys - {k};
      [Field(k, Obj(sets[k]))] + DocumentFields(sets - {k})
  }

  ghost function Document(sets: map<string, Object>): Object {
    Object(DocumentFields(sets))
  }

  lemma {:induction false} DocumentFind(sets: map<string, Object>, key: string)
    ensures Find(Document(sets).fields, key) == if key in sets then Some(Obj(sets[key])) else None
    decreases |sets|
  {
    if sets == map[] {
    } else {
      LeastExists(sets.Keys);
      var fields := DocumentFields(sets);
      var k := fields[0].key;
      assert (sets - {k}).Keys == sets.Keys - {k};
      DocumentFind(sets - {k}, key);
      assert fields[1..] == DocumentFields(sets - {k});
    }
  }

  lemma {:induction false} DocumentSorted(sets: map<string, Object>)
    ensures StrictlySorted(Document(sets).fields)
    decreases |sets|
  {
    if sets == map[] {
    } else {
      LeastExists(sets.Keys);
      var fields := DocumentFields(sets);
      var k := fields[0].key;
      assert (sets - {k}).Keys == sets.Keys - {k};
      DocumentSorted(sets - {k});
      var rest := DocumentFields(sets - {k});
      assert fields == [fields[0]] + rest;
      forall j | 0 <= j < |rest|
        ensures Less(k, rest[j].key)
      {
        DocumentFind(sets - {k}, rest[j].key);
      }
    }
  }

  /** The assembled document keeps the rules when every set does, and is already canonical. */
  lemma {:induction false} DocumentShape(sets: map<string, Object>)
    requires forall k :: k in sets ==> ValidKey(k) && ShapeObject(sets[k])
    ensures ShapeObject(Document(sets))
  {
    DocumentSorted(sets);
    var fields := Document(sets).fields;
    SortedDistinct(fields);
    forall i | 0 <= i < |fields|
      ensures ValidKey(fields[i].key) && ShapeValue(fields[i].value)
    {
      DocumentFind(sets, fields[i].key);
      FindDistinct(fields, i);
    }
  }

  // ---- encoded sizes --------------------------------------------------------------------

  ghost function Total(sizes: map<string, nat>): nat
    decreases |sizes|
  {
    if sizes == map[] then 0 else
      var k :| k in sizes;
      assert (sizes - {k}).Keys == sizes.Keys - {k};
      sizes[k] + Total(sizes - {k})
  }

  lemma {:induction false} TotalRemove(sizes: map<string, nat>, k: string)
    requires k in sizes
    ensures Total(sizes) == sizes[k] + Total(sizes - {k})
    decreases |sizes|
  {
    var j :| j in sizes && Total(sizes) == sizes[j] + Total(sizes - {j});
    if j != k {
      assert (sizes - {j}).Keys == sizes.Keys - {j};
      assert (sizes - {k}).Keys == sizes.Keys - {k};
      TotalRemove(sizes - {j}, k);
      TotalRemove(sizes - {k}, j);
      assert sizes - {j} - {k} == sizes - {k} - {j};
    }
  }

  lemma {:induction false} TotalUpdate(sizes: map<string, nat>, k: string, n: nat)
    ensures Total(sizes[k := n]) == Total(sizes - {k}) + n
    ensures k in sizes ==> Total(sizes[k := n]) == Total(sizes) - sizes[k] + n
    ensures k !in sizes ==> Total(sizes[k := n]) == Total(sizes) + n
  {
    TotalRemove(sizes[k := n], k);
    assert sizes[k := n] - {k} == sizes - {k};
    if k in sizes {
      TotalRemove(sizes, k);
    } else {
      assert sizes - {k} == sizes;
    }
  }

  function Encoded(c: Codec, sets: map<string, Object>): (r: map<string, string>)
    ensures r.Keys == sets.Keys
  {
    map k | k in sets :: c.Encode(sets[k])
  }

  function Lengths(encoded: map<string, string>): map<string, nat> {
    map k | k in encoded :: |encoded[k]|
  }

  ghost function Size(c: Codec, sets: map<string, Object>): nat {
    Total(Lengths(Encoded(c, sets)))
  }

  /** Erasing one set takes its bytes, and only its bytes, off the count. */
  lemma {:induction false} EraseCounted(c: Codec, sets: map<string, Object>, name: string)
    requires name in sets
    ensures Encoded(c, sets - {name}) == Encoded(c, sets) - {name}
    ensures Size(c, sets) == |Encoded(c, sets)[name]| + Size(c, sets - {name})
  {
    var encoded := Encoded(c, sets);
    assert Encoded(c, sets - {name}) == encoded - {name};
    assert Lengths(encoded - {name}) == Lengths(encoded) - {name};
    TotalRemove(Lengths(encoded), name);
  }

  /** Storing one set replaces its old bytes by its new ones in the count. */
  lemma {:induction false} StoreCounted(c: Codec, sets: map<string, Object>, name: string, o: Object)
    ensures Encoded(c, sets[name := o]) == Encoded(c, sets)[name := c.Encode(o)]
    ensures name in sets ==> Encoded(c, sets)[name] == c.Encode(sets[name]) && |Encoded(c, sets)[name]| <= Size(c, sets)
    ensures Size(c, sets[name := o]) ==
            Size(c, sets) - (if name in sets then |Encoded(c, sets)[name]| else 0) + |c.Encode(o)|
  {
    var encoded := Encoded(c, sets);
    assert Encoded(c, sets[name := o]) == encoded[name := c.Encode(o)];
    assert Lengths(encoded[name := c.Encode(o)]) == Lengths(encoded)[name := |c.Encode(o)|];
    TotalUpdate(Lengths(encoded), name, |c.Encode(o)|);
    if name in sets {
      TotalRemove(Lengths(encoded), name);
    }
  }

  // ---- which sets a lowered budget drops -----------------------------------------------

  /** Before in the order std::max_element ranks by: larger, or as large and first in key order. */
  ghost predicate Outranks(k: string, x: string, sizes: map<string, nat>)
    requires k in sizes && x in sizes
  {
    sizes[x] < sizes[k] || (sizes[x] == sizes[k] && Less(k, x))
  }

  /** The first largest entry in key order, as std::max_element finds it. */
  ghost predicate IsLargest(k: string, sizes: map<string, nat>) {
    k in sizes && forall x :: x in sizes && x != k ==> Outranks(k, x, sizes)
  }

  lemma {:induction false} LargestAmong(names: set<string>, sizes: map<string, nat>) returns (k: string)
    requires {} < names <= sizes.Keys
    ensures k in names && forall x :: x in names && x != k ==> Outranks(k, x, sizes)
    decreases names
  {
    var x :| x in names;
    k := x;
    if names != {x} {
      k := LargestAmong(names - {x}, sizes);
      LessTotal(k, x);
      if Outranks(x, k, sizes) {
        forall y | y in names && y != x
          ensures Outranks(x, y, sizes)
        {
          assert y == k || y in names - {x};
          if y != k && sizes[y] == sizes[x] {
            assert Outranks(k, y, sizes);
            LessTransitive(x, k, y);
          }
        }
        k := x;
      }
    }
  }

  lemma {:induction false} LargestUnique(j: string, k: string, sizes: map<string, nat>)
    requires IsLargest(j, sizes) && IsLargest(k, sizes)
    ensures j == k
  {
    LessTotal(j, k);
  }

  ghost function Largest(sizes: map<string, nat>): (k: string)
    requires sizes != map[]
    ensures IsLargest(k, sizes)
  {
    assert exists k :: IsLargest(k, sizes) by {
      assert sizes.Keys != {};
      var k := LargestAmong(sizes.Keys, sizes);
      assert IsLargest(k, sizes);
    }
    var k :| IsLargest(k, sizes);
    k
  }

  /** The names dropped, in order, until the rest fits the budget. */
  ghost function Dropped(sizes: map<string, nat>, budget: nat): seq<string>
    decreases |sizes|
  {
    if Total(sizes) <= budget then [] else
      var k := Largest(sizes);
      assert (sizes - {k}).Keys == sizes.Keys - {k};
      [k] + Dropped(sizes - {k}, budget)
  }

  function Elements(names: seq<string>): set<string> {
    set i | 0 <= i < |names| :: names[i]
  }

  /** One step of the dropping loop, in terms of the names dropped so far. */
  lemma {:induction false} DroppedStep(sizes: map<string, nat>, budget: nat)
    requires Total(sizes) > budget
    ensures var k := Largest(sizes);
      var rest := Dropped(sizes - {k}, budget);
      && Dropped(sizes, budget) == [k] + rest
      && Elements(Dropped(sizes, budget)) == {k} + Elements(rest)
      && sizes - Elements(Dropped(sizes, budget)) == sizes - {k} - Elements(rest)
      && |sizes - {k}| < |sizes|
  {
    var k := Largest(sizes);
    assert (sizes - {k}).Keys == sizes.Keys - {k};
    ElementsCons(k, Dropped(sizes - {k}, budget));
  }

  /** What remains after dropping fits the budget. */
  lemma {:induction false} DroppedFits(sizes: map<string, nat>, budget: nat)
    ensures Elements(Dropped(sizes, budget)) <= sizes.Keys
    ensures Total(sizes - Elements(Dropped(sizes, budget))) <= budget
    decreases |sizes|
  {
    if Total(sizes) <= budget {
      assert Elements(Dropped(sizes, budget)) == {};
      assert sizes - {} == sizes;
    } else {
      DroppedStep(sizes, budget);
      DroppedFits(sizes - {Largest(sizes)}, budget);
    }
  }

  /** Every dropped set is at least as large as every kept one. */
  lemma {:induction false} DroppedLargestFirst(sizes: map<string, nat>, budget: nat, x: string, y: string)
    requires x in Elements(Dropped(sizes, budget)) && y in sizes && y !in Elements(Dropped(sizes, budget))
    ensures x in sizes && sizes[y] <= sizes[x]
    decreases |sizes|
  {
    if Total(sizes) > budget {
      DroppedStep(sizes, budget);
      var k := Largest(sizes);
      if x != k {
        DroppedLargestFirst(sizes - {k}, budget, x, y);
      }
    }
  }

  /** Dropping stops at the first fit: no proper prefix of the dropped names would have done. */
  lemma {:induction false} DroppedFirstFit(sizes: map<string, nat>, budget: nat, n: nat)
    requires n < |Dropped(sizes, budget)|
    ensures Total(sizes - Elements(Dropped(sizes, budget)[..n])) > budget
    decreases |sizes|
  {
    var dropped := Dropped(sizes, budget);
    if n == 0 {
      assert sizes - Elements(dropped[..0]) == sizes;
    } else {
      DroppedStep(sizes, budget);
      var k := Largest(sizes);
      var rest := Dropped(sizes - {k}, budget);
      DroppedFirstFit(sizes - {k}, budget, n - 1);
      assert dropped[..n] == [k] + rest[..n - 1];
      ElementsCons(k, rest[..n - 1]);
      assert sizes - Elements(dropped[..n]) == sizes - {k} - Elements(rest[..n - 1]);
    }
  }

  lemma {:induction false} ElementsCons(k: string, rest: seq<string>)
    ensures Elements([k] + rest) == {k} + Elements(rest)
  {
    var all := [k] + rest;
    assert forall i :: 0 <= i < |rest| ==> rest[i] == all[i + 1];
    assert all[0] == k;
    forall x
      ensures x in Elements(all) <==> x == k || x in Elements(rest)
    {
      if x in Elements(all) {
        var i :| 0 <= i < |all| && all[i] == x;
        assert i > 0 ==> rest[i - 1] == x;
      }
      if x in Elements(rest) {
        var i :| 0 <= i < |rest| && rest[i] == x;
        assert all[i + 1] == x;
      }
    }
  }

  // ---- the operations ---------------------------------------------------------------------

  ghost function Live(c: Codec, d: Doc): Snapshot {
    Snapshot(c.Render(Document(d.sets)), d.revision, d.collected)
  }

  /** What a reader is served: the last complete round. */
  ghost function Published(c: Codec, d: Doc): Snapshot {
    if d.rounds > 0 then d.start else Live(c, d)
  }

  predicate Mentions(ids: set<string>, name: string) {
    name in ids || exists id :: id in ids && |id| > |name| + 1 && id[..|name| + 1] == name + "."
  }

  ghost function SetOutcome(c: Codec, d: Doc, name: string, plugin: nat, value: Object): SetResult {
    if !ValidKey(name) || !WellFormed(value) then Rejected
    else if name in d.owners && d.owners[name] != plugin then Rejected
    else if name in d.sets && c.Encode(d.sets[name]) == c.Encode(CanonObject(value)) then Unchanged
    else if Size(c, d.sets[name := CanonObject(value)]) > d.maxSize then Rejected
    else Changed
  }

  /** Dropping any number of sets in one call counts as one change. */
  ghost function DropAll(d: Doc, names: set<string>): Doc {
    d.(sets := d.sets - names,
       owners := d.owners - names,
       gathered := d.gathered - names,
       revision := if d.sets.Keys !! names then d.revision else d.revision + 1)
  }

  ghost function OwnedBy(d: Doc, plugin: nat): set<string> {
    set k | k in d.owners && d.owners[k] == plugin
  }

  ghost function Stored(c: Codec, d: Doc, name: string, plugin: nat, value: Object): Doc {
    if SetOutcome(c, d, name, plugin, value).Changed?
    then d.(sets := d.sets[name := CanonObject(value)], owners := d.owners[name := plugin], revision := d.revision + 1)
    else d
  }

  ghost function Unloaded(d: Doc, plugin: nat): Doc {
    DropAll(d.(declared := d.declared - {plugin}), OwnedBy(d, plugin))
  }

  ghost function Retained(d: Doc, plugin: nat, produced: set<string>): Doc {
    DropAll(d.(declared := d.declared[plugin := produced]), set k | k in OwnedBy(d, plugin) && !Mentions(produced, k))
  }

  ghost function Shrunk(c: Codec, d: Doc, maxSize: nat): Doc {
    if maxSize < MIN_MAX_SIZE then d
    else DropAll(d.(maxSize := maxSize), Elements(Dropped(Lengths(Encoded(c, d.sets)), maxSize)))
  }

  ghost function RoundBegun(c: Codec, d: Doc): Doc {
    d.(rounds := d.rounds + 1, start := if d.rounds == 0 then Live(c, d) else d.start)
  }

  ghost function RoundEnded(d: Doc): Doc {
    if d.rounds == 0 then d else d.(rounds := d.rounds - 1)
  }

  ghost function Gathered(d: Doc, name: string, timestamp: string): Doc {
    if name !in d.sets then d
    else d.(gathered := if timestamp == "" then d.gathered - {name} else d.gathered[name := timestamp])
  }

  ghost function Step(c: Codec, d: Doc, op: Op): Doc {
    match op
    case SetFacts(name, plugin, value) => Stored(c, d, name, plugin, value)
    case Remove(name) => DropAll(d, {name})
    case RemoveOwnedBy(plugin) => Unloaded(d, plugin)
    case RetainOnly(plugin, produced) => Retained(d, plugin, produced)
    case BeginRound => RoundBegun(c, d)
    case EndRound => RoundEnded(d)
    case MarkCollected(timestamp) => d.(collected := timestamp)
    case MarkGathered(name, timestamp) => Gathered(d, name, timestamp)
    case SetMaxSize(maxSize) => Shrunk(c, d, maxSize)
  }

  ghost function Run(c: Codec, d: Doc, ops: seq<Op>): Doc
    decreases ops
  {
    if ops == [] then d else Run(c, Step(c, d, ops[0]), ops[1..])
  }

  // ---- what every run keeps -----------------------------------------------------------------

  /** Domains coincide, and every stored set keeps the rules and is in canonical order. */
  ghost predicate Consistent(d: Doc) {
    && d.owners.Keys == d.sets.Keys
    && d.gathered.Keys <= d.sets.Keys
    && forall k {:trigger Acceptable(k, d.sets[k])} :: k in d.sets ==> Acceptable(k, d.sets[k])
  }

  ghost predicate Acceptable(name: string, o: Object) {
    ValidKey(name) && WellFormed(o) && CanonObject(o) == o
  }

  ghost predicate WithinBudget(c: Codec, d: Doc) {
    MIN_MAX_SIZE <= d.maxSize && Size(c, d.sets) <= d.maxSize
  }

  ghost predicate Inv(c: Codec, d: Doc) {
    Consistent(d) && WithinBudget(c, d)
  }

  lemma {:induction false} TotalDrop(sizes: map<string, nat>, names: set<string>)
    ensures Total(sizes - names) <= Total(sizes)
    decreases |names|
  {
    if names == {} {
      assert sizes - names == sizes;
    } else {
      var n :| n in names;
      TotalDrop(sizes, names - {n});
      var bigger := sizes - (names - {n});
      assert sizes - names == bigger - {n};
      if n in bigger {
        TotalRemove(bigger, n);
      } else {
        assert bigger - {n} == bigger;
      }
    }
  }

  lemma {:induction false} LengthsDrop(c: Codec, sets: map<string, Object>, names: set<string>)
    ensures Lengths(Encoded(c, sets - names)) == Lengths(Encoded(c, sets)) - names
  {
  }

  /** Dropping sets keeps the invariant, as long as what remains fits. */
  lemma {:induction false} DropAllKeepsInv(c: Codec, d: Doc, names: set<string>)
    requires Consistent(d) && MIN_MAX_SIZE <= d.maxSize
    requires Size(c, d.sets) <= d.maxSize || Total(Lengths(Encoded(c, d.sets)) - names) <= d.maxSize
    ensures Inv(c, DropAll(d, names))
  {
    LengthsDrop(c, d.sets, names);
    TotalDrop(Lengths(Encoded(c, d.sets)), names);
  }

  lemma {:induction false} ShrunkKeepsInv(c: Codec, d: Doc, maxSize: nat)
    requires Inv(c, d)
    ensures Inv(c, Shrunk(c, d, maxSize))
  {
    if MIN_MAX_SIZE <= maxSize {
      var lengths := Lengths(Encoded(c, d.sets));
      DroppedFits(lengths, maxSize);
      DropAllKeepsInv(c, d.(maxSize := maxSize), Elements(Dropped(lengths, maxSize)));
    }
  }

  lemma {:induction false} CanonIdempotent(o: Object)
    requires ShapeObject(o)
    ensures CanonObject(CanonObject(o)) == CanonObject(o)
  {
    CanonKeepsShape(o);
    SameAsCanon(o);
    CanonIffSame(o, CanonObject(o));
  }

  lemma {:induction false} SameAsCanon(o: Object)
    requires ShapeObject(o)
    ensures SameObject(o, CanonObject(o))
    decreases o
  {
    forall i | 0 <= i < |o.fields|
      ensures Find(CanonObject(o).fields, o.fields[i].key) == Some(CanonValue(o.fields[i].value))
      ensures SameValue(o.fields[i].value, CanonValue(o.fields[i].value))
    {
      CanonFind(o, o.fields[i].key);
      FindDistinct(o.fields, i);
      SameAsCanonValue(o.fields[i].value);
    }
    var s := CanonObject(o).fields;
    forall j | 0 <= j < |s|
      ensures Find(o.fields, s[j].key).Some?
    {
      CanonFind(o, s[j].key);
    }
  }

  lemma {:induction false} SameAsCanonValue(v: Value)
    requires ShapeValue(v)
    ensures SameValue(v, CanonValue(v))
    decreases v
  {
    match v
    case Obj(o) => SameAsCanon(o);
    case Lst(vs) =>
      forall i | 0 <= i < |vs|
        ensures SameValue(vs[i], CanonValue(v).values[i])
      {
        if vs[i].Obj? {
          SameAsCanonValue(vs[i]);
        }
      }
    case _ =>
  }

  lemma {:induction false} SetFactsKeepsInv(c: Codec, d: Doc, name: string, plugin: nat, value: Object)
    requires Inv(c, d)
    ensures Inv(c, Stored(c, d, name, plugin, value))
  {
    if SetOutcome(c, d, name, plugin, value).Changed? {
      CanonKeepsRules(value);
      CanonIdempotent(value);
    }
  }

  lemma {:induction false} StepKeepsInv(c: Codec, d: Doc, op: Op)
    requires Inv(c, d)
    ensures Inv(c, Step(c, d, op))
  {
    match op
    case SetFacts(name, plugin, value) => SetFactsKeepsInv(c, d, name, plugin, value);
    case Remove(name) => DropAllKeepsInv(c, d, {name});
    case RemoveOwnedBy(plugin) => DropAllKeepsInv(c, d.(declared := d.declared - {plugin}), OwnedBy(d, plugin));
    case RetainOnly(plugin, produced) =>
      var declared := d.(declared := d.declared[plugin := produced]);
      DropAllKeepsInv(c, declared, set k | k in OwnedBy(d, plugin) && !Mentions(produced, k));
    case SetMaxSize(maxSize) => ShrunkKeepsInv(c, d, maxSize);
    case _ =>
  }

  /** Every reachable repository keeps the invariant. */
  lemma {:induction false} RunKeepsInv(c: Codec, d: Doc, ops: seq<Op>)
    requires Inv(c, d)
    ensures Inv(c, Run(c, d, ops))
    decreases |ops|
  {
    if ops == [] {
    } else {
      StepKeepsInv(c, d, ops[0]);
      RunKeepsInv(c, Step(c, d, ops[0]), ops[1..]);
    }
  }

  lemma {:induction false} EmptyInv(c: Codec)
    ensures Inv(c, EMPTY) && EMPTY.maxSize == 1048576
  {
    assert Lengths(Encoded(c, EMPTY.sets)) == map[];
  }

  // ---- the revision counts changes ---------------------------------------------------------

  ghost predicate Changes(c: Codec, d: Doc, op: Op) {
    Encoded(c, Step(c, d, op).sets) != Encoded(c, d.sets)
  }

  ghost function ChangeCount(c: Codec, d: Doc, ops: seq<Op>): nat
    decreases ops
  {
    if ops == [] then 0
    else (if Changes(c, d, ops[0]) then 1 else 0) + ChangeCount(c, Step(c, d, ops[0]), ops[1..])
  }

  lemma {:induction false} DropAllChanges(c: Codec, d: Doc, names: set<string>)
    ensures Encoded(c, DropAll(d, names).sets) != Encoded(c, d.sets) <==> DropAll(d, names).revision == d.revision + 1
  {
    var after := DropAll(d, names);
    if d.sets.Keys !! names {
      assert after.sets == d.sets;
    } else {
      var k :| k in d.sets.Keys && k in names;
      assert k in Encoded(c, d.sets) && k !in Encoded(c, after.sets);
    }
  }

  lemma {:induction false} StoredChanges(c: Codec, d: Doc, name: string, plugin: nat, value: Object)
    ensures Encoded(c, Stored(c, d, name, plugin, value).sets) != Encoded(c, d.sets) <==>
            SetOutcome(c, d, name, plugin, value).Changed?
  {
    if SetOutcome(c, d, name, plugin, value).Changed? {
      StoreCounted(c, d.sets, name, CanonObject(value));
      var before, now := Encoded(c, d.sets), Encoded(c, Stored(c, d, name, plugin, value).sets);
      assert name in now && now[name] == c.Encode(CanonObject(value));
      assert name in before ==> before[name] != now[name];
    }
  }

  lemma {:induction false} StepRevision(c: Codec, d: Doc, op: Op)
    ensures Step(c, d, op).revision == d.revision + if Changes(c, d, op) then 1 else 0
  {
    match op
    case SetFacts(name, plugin, value) => StoredChanges(c, d, name, plugin, value);
    case Remove(name) => DropAllChanges(c, d, {name});
    case RemoveOwnedBy(plugin) => DropAllChanges(c, d.(declared := d.declared - {plugin}), OwnedBy(d, plugin));
    case RetainOnly(plugin, produced) =>
      var declared := d.(declared := d.declared[plugin := produced]);
      DropAllChanges(c, declared, set k | k in OwnedBy(d, plugin) && !Mentions(produced, k));
    case SetMaxSize(maxSize) =>
      DropAllChanges(c, d.(maxSize := maxSize), Elements(Dropped(Lengths(Encoded(c, d.sets)), maxSize)));
    case _ =>
  }

  /** Over every run the revision is the number of operations that changed the stored document. */
  lemma {:induction false} RunRevision(c: Codec, d: Doc, ops: seq<Op>)
    ensures Run(c, d, ops).revision == d.revision + ChangeCount(c, d, ops)
    decreases |ops|
  {
    if ops == [] {
    } else {
      StepRevision(c, d, ops[0]);
      RunRevision(c, Step(c, d, ops[0]), ops[1..]);
    }
  }

  // ---- plugins do not disturb each other -----------------------------------------------------

  /** The plugin an operation acts for, when it acts for one. */
  function Actor(op: Op): Option<nat> {
    match op
    case SetFacts(_, plugin, _) => Some(plugin)
    case RemoveOwnedBy(plugin) => Some(plugin)
    case RetainOnly(plugin, _) => Some(plugin)
    case _ => None
  }

  /** Operations that must leave the sets of `owner` alone: everything done for
      another plugin, the rounds and the time stamps. */
  predicate Foreign(op: Op, owner: nat) {
    match op
    case Remove(_) => false
    case SetMaxSize(_) => false
    case _ => Actor(op) != Some(owner)
  }

  lemma {:induction false} StepLeavesOthers(c: Codec, d: Doc, op: Op, name: string)
    requires Inv(c, d) && name in d.owners && Foreign(op, d.owners[name])
    ensures var after := Step(c, d, op);
      && name in after.sets && after.sets[name] == d.sets[name]
      && name in after.owners && after.owners[name] == d.owners[name]
  {
    hide WithinBudget, Acceptable, Live, Shrunk, WellFormed, CanonObject, Size, ValidKey;
  }

  /** However long other plugins store, retain and unload, a set they do not own stays as it is. */
  lemma {:induction false} RunLeavesOthers(c: Codec, d: Doc, ops: seq<Op>, name: string)
    requires Inv(c, d) && name in d.owners
    requires forall i :: 0 <= i < |ops| ==> Foreign(ops[i], d.owners[name])
    ensures var after := Run(c, d, ops);
      && name in after.sets && after.sets[name] == d.sets[name]
      && name in after.owners && after.owners[name] == d.owners[name]
    decreases |ops|
  {
    if ops == [] {
    } else {
      StepLeavesOthers(c, d, ops[0], name);
      StepKeepsInv(c, d, ops[0]);
      RunLeavesOthers(c, Step(c, d, ops[0]), ops[1..], name);
    }
  }

  // ---- rounds ------------------------------------------------------------------------------------

  /** How many rounds are open after an operation, of `n` open before it. */
  function OpenAfter(n: nat, op: Op): nat {
    if op.BeginRound? then n + 1 else if op.EndRound? && n > 0 then n - 1 else n
  }

  function OpenRounds(n: nat, ops: seq<Op>): nat
    decreases ops
  {
    if ops == [] then n else OpenRounds(OpenAfter(n, ops[0]), ops[1..])
  }

  /** Of `n` open rounds, and those begun meanwhile, one is open all the time. */
  predicate StaysOpen(n: nat, ops: seq<Op>)
    decreases ops
  {
    n > 0 && (ops != [] ==> StaysOpen(OpenAfter(n, ops[0]), ops[1..]))
  }

  /** The store counts every begin, and every end that has a begin. */
  lemma {:induction false} RoundsCounted(c: Codec, d: Doc, ops: seq<Op>)
    ensures Run(c, d, ops).rounds == OpenRounds(d.rounds, ops)
    decreases |ops|
  {
    if ops == [] {
    } else {
      RoundsCounted(c, Step(c, d, ops[0]), ops[1..]);
    }
  }

  lemma {:induction false} OpenRoundKeepsStart(c: Codec, d: Doc, ops: seq<Op>)
    requires StaysOpen(d.rounds, ops)
    ensures Run(c, d, ops).rounds > 0 && Run(c, d, ops).start == d.start
    decreases |ops|
  {
    if ops == [] {
    } else {
      OpenRoundKeepsStart(c, Step(c, d, ops[0]), ops[1..]);
    }
  }

  /** From the outermost begin_round on, whatever runs and however rounds
      overlap, readers see the document as it stood when that round began; the
      end_round that closes the last round publishes the live document. */
  lemma {:induction false} RoundPublishesAtEnd(c: Codec, d: Doc, ops: seq<Op>)
    requires d.rounds == 0 && StaysOpen(1, ops)
    ensures var during := Run(c, Step(c, d, BeginRound), ops);
      && Published(c, during) == Live(c, d)
      && (OpenRounds(1, ops) == 1 ==> Published(c, Step(c, during, EndRound)) == Live(c, during))
  {
    OpenRoundKeepsStart(c, Step(c, d, BeginRound), ops);
    RoundsCounted(c, Step(c, d, BeginRound), ops);
  }

  function LastCollected(was: string, ops: seq<Op>): string
    decreases ops
  {
    if ops == [] then was
    else LastCollected(if ops[0].MarkCollected? then ops[0].timestamp else was, ops[1..])
  }

  lemma {:induction false} CollectedKept(c: Codec, d: Doc, ops: seq<Op>)
    ensures Run(c, d, ops).collected == LastCollected(d.collected, ops)
    decreases |ops|
  {
    if ops == [] {
    } else {
      CollectedKept(c, Step(c, d, ops[0]), ops[1..]);
    }
  }

  /** What readers are served when no round is open, after any history: the JSON of all stored
      sets, the number of operations that changed them, and the last collection time. */
  lemma {:induction false} ReadersSee(c: Codec, ops: seq<Op>)
    requires OpenRounds(0, ops) == 0
    ensures var d := Run(c, EMPTY, ops);
            Published(c, d) == Snapshot(c.Render(Document(d.sets)), ChangeCount(c, EMPTY, ops), LastCollected("", ops))
  {
    RoundsCounted(c, EMPTY, ops);
    RunRevision(c, EMPTY, ops);
    CollectedKept(c, EMPTY, ops);
  }

  // ---- what an operation leaves behind -------------------------------------------------------------

  /** A set that was stored belongs to the plugin that stored it: unloading that plugin drops it,
      every other plugin is turned away, and the plugin itself never is for not owning it. The
      document shows it, in canonical order, and everything else as before. */
  lemma {:induction false} StoredBelongs(c: Codec, d: Doc, name: string, plugin: nat, value: Object)
    requires Inv(c, d) && SetOutcome(c, d, name, plugin, value).Changed?
    ensures var after := Step(c, d, SetFacts(name, plugin, value));
      && name !in Step(c, after, RemoveOwnedBy(plugin)).sets
      && (forall q, w :: q != plugin ==> SetOutcome(c, after, name, q, w).Rejected?)
      && (forall w :: SetOutcome(c, after, name, plugin, w).Rejected? ==>
            !WellFormed(w) || Size(c, after.sets[name := CanonObject(w)]) > after.maxSize)
      && Find(Document(after.sets).fields, name) == Some(Obj(CanonObject(value)))
      && forall k :: k != name ==> Find(Document(after.sets).fields, k) == Find(Document(d.sets).fields, k)
  {
    hide Document, Find, CanonObject, WellFormed, Size;
    var after := Step(c, d, SetFacts(name, plugin, value));
    forall k
      ensures Find(Document(after.sets).fields, k) ==
              if k == name then Some(Obj(CanonObject(value))) else Find(Document(d.sets).fields, k)
    {
      DocumentFind(after.sets, k);
      DocumentFind(d.sets, k);
    }
  }

  /** A set is turned away if and only if it breaks the rules, belongs to another plugin, or is
      new content with which the document would not fit its budget. */
  lemma RefusedIff(c: Codec, d: Doc, name: string, plugin: nat, value: Object)
    requires Inv(c, d)
    ensures SetOutcome(c, d, name, plugin, value).Rejected? <==>
            || !ValidKey(name) || !WellFormed(value)
            || name in OwnedByOthers(d, plugin)
            || (Encoded(c, d.sets[name := CanonObject(value)]) != Encoded(c, d.sets) &&
                !WithinBudget(c, d.(sets := d.sets[name := CanonObject(value)])))
    ensures !SetOutcome(c, d, name, plugin, value).Changed? ==> Step(c, d, SetFacts(name, plugin, value)) == d
  {
    StoreCounted(c, d.sets, name, CanonObject(value));
    hide CanonObject, WellFormed, ValidKey, Size, Acceptable;
    var was, now := Encoded(c, d.sets), Encoded(c, d.sets[name := CanonObject(value)]);
    assert name in now && now[name] == c.Encode(CanonObject(value));
    if name in was && was[name] == now[name] {
      assert was == now;
    }
  }

  ghost function OwnedByOthers(d: Doc, plugin: nat): set<string> {
    set k | k in d.owners && d.owners[k] != plugin
  }

  /** The plugin and the value of the last set_facts for `name` that changed something. */
  ghost function LastSetter(c: Codec, d: Doc, ops: seq<Op>, name: string, last: Option<(nat, Object)>)
    : Option<(nat, Object)>
    decreases ops
  {
    if ops == [] then last
    else
      var op := ops[0];
      var hit := op.SetFacts? && op.name == name && SetOutcome(c, d, name, op.plugin, op.value).Changed?;
      LastSetter(c, Step(c, d, op), ops[1..], name, if hit then Some((op.plugin, op.value)) else last)
  }

  ghost predicate SetBy(d: Doc, name: string, last: Option<(nat, Object)>) {
    name in d.sets ==>
      last.Some? && name in d.owners && d.owners[name] == last.value.0 && d.sets[name] == CanonObject(last.value.1)
  }

  lemma StepSetBy(c: Codec, d: Doc, op: Op, name: string, last: Option<(nat, Object)>)
    requires Inv(c, d) && SetBy(d, name, last)
    ensures var hit := op.SetFacts? && op.name == name && SetOutcome(c, d, name, op.plugin, op.value).Changed?;
            SetBy(Step(c, d, op), name, if hit then Some((op.plugin, op.value)) else last)
  {
    hide WithinBudget, Acceptable, Live, WellFormed, CanonObject, Size, ValidKey, Dropped;
  }

  /** Over every history a stored set belongs to the plugin of the last set_facts of its name
      that changed it, and holds what that one gave, in canonical order. */
  lemma {:induction false} BelongsToLastSetter(
      c: Codec, d: Doc, ops: seq<Op>, name: string, last: Option<(nat, Object)>)
    requires Inv(c, d) && SetBy(d, name, last)
    ensures SetBy(Run(c, d, ops), name, LastSetter(c, d, ops, name, last))
    decreases |ops|
  {
    hide Inv, SetBy, Step, SetOutcome;
    if ops == [] {
    } else {
      StepSetBy(c, d, ops[0], name, last);
      StepKeepsInv(c, d, ops[0]);
      var op := ops[0];
      var hit := op.SetFacts? && op.name == name && SetOutcome(c, d, name, op.plugin, op.value).Changed?;
      BelongsToLastSetter(c, Step(c, d, op), ops[1..], name, if hit then Some((op.plugin, op.value)) else last);
    }
  }

  /** An id names a set, or something inside it. */
  ghost predicate SpeaksOf(id: string, name: string) {
    id == name || exists inside :: inside != "" && id == name + "." + inside
  }

  lemma MentionsIff(ids: set<string>, name: string)
    ensures Mentions(ids, name) <==> exists id :: id in ids && SpeaksOf(id, name)
  {
    forall id | id in ids && |id| > |name| + 1 && id[..|name| + 1] == name + "."
      ensures SpeaksOf(id, name)
    {
      assert id == name + "." + id[|name| + 1..];
    }
    forall id, inside | id in ids && inside != "" && id == name + "." + inside
      ensures |id| > |name| + 1 && id[..|name| + 1] == name + "."
    {
    }
  }

  /** Which sets an operation that drops sets leaves, each with its owner and content: remove, all
      but the one named; unloading a plugin, those of the others; retaining, those of the others
      and those some id speaks of. */
  lemma {:induction false} Survives(c: Codec, d: Doc, op: Op, name: string)
    requires Inv(c, d) && name in d.sets && (op.Remove? || op.RemoveOwnedBy? || op.RetainOnly?)
    ensures var after := Step(c, d, op);
      && (name in after.sets <==>
            match op
            case Remove(n) => name != n
            case RemoveOwnedBy(p) => d.owners[name] != p
            case RetainOnly(p, produced) => d.owners[name] != p || exists id :: id in produced && SpeaksOf(id, name)
            case _ => true)
      && (name in after.sets ==> after.sets[name] == d.sets[name] && after.owners[name] == d.owners[name])
      && forall k :: k in after.sets ==> k in d.sets
  {
    hide WithinBudget, Acceptable, Mentions, SpeaksOf;
    if op.RetainOnly? { MentionsIff(op.produced, name); }
  }

  /** Beside the sets: what a plugin declared stands until it declares anew or is unloaded; a
      stamp is set, or with an empty one taken away, for a stored set only; and a budget of at
      least two bytes is taken over. */
  lemma BesideTheSets(c: Codec, d: Doc, plugin: nat, ids: set<string>, name: string, stamp: string, budget: nat)
    ensures Step(c, d, RetainOnly(plugin, ids)).declared == d.declared[plugin := ids]
    ensures Step(c, d, RemoveOwnedBy(plugin)).declared == d.declared - {plugin}
    ensures forall k :: k != name ==>
              (k in Step(c, d, MarkGathered(name, stamp)).gathered <==> k in d.gathered) &&
              (k in d.gathered ==> Step(c, d, MarkGathered(name, stamp)).gathered[k] == d.gathered[k])
    ensures name in d.sets ==>
              var g := Step(c, d, MarkGathered(name, stamp)).gathered;
              (name in g <==> stamp != "") && (stamp != "" ==> g[name] == stamp)
    ensures name !in d.sets ==> Step(c, d, MarkGathered(name, stamp)) == d
    ensures Step(c, d, SetMaxSize(budget)).maxSize == if budget >= 2 then budget else d.maxSize
    ensures budget < 2 ==> Step(c, d, SetMaxSize(budget)) == d
  {
  }

  // ---- offering the same facts again ---------------------------------------------------------------

  /** A set offered again by its owner with its fields in another order is no change. */
  lemma {:induction false} ReorderedUnchanged(c: Codec, d: Doc, name: string, plugin: nat, first: Object, again: Object)
    requires Inv(c, d) && name in d.sets && d.owners[name] == plugin
    requires WellFormed(first) && WellFormed(again) && SameObject(first, again)
    requires d.sets[name] == CanonObject(first)
    ensures SetOutcome(c, d, name, plugin, again).Unchanged?
    ensures Step(c, d, SetFacts(name, plugin, again)) == d
  {
    CanonIffSame(first, again);
    assert Acceptable(name, d.sets[name]);
  }

  /** The assembled document is in canonical order at every level. */
  lemma {:induction false} DocumentCanonical(c: Codec, d: Doc)
    requires Inv(c, d)
    ensures ShapeObject(Document(d.sets))
    ensures CanonObject(Document(d.sets)) == Document(d.sets)
  {
    var doc := Document(d.sets);
    forall k | k in d.sets
      ensures ValidKey(k) && ShapeObject(d.sets[k]) && CanonObject(d.sets[k]) == d.sets[k]
    {
      assert Acceptable(k, d.sets[k]);
    }
    DocumentShape(d.sets);
    DocumentSorted(d.sets);
    CanonFind(doc, "");
    forall k
      ensures Find(CanonObject(doc).fields, k) == Find(doc.fields, k)
    {
      CanonFind(doc, k);
      DocumentFind(d.sets, k);
    }
    SortedUnique(CanonObject(doc).fields, doc.fields);
  }
}
