/** The facts repository as it runs: sizes counted incrementally, the digest
    cached until a change, and the state a round started from frozen lazily, at
    the round's first change. Each method is one critical section. */
module FactRepository {
  import opened Text
  import opened FactTree
  import opened FactSpec

  /** What a round froze: the collection time, and the document once a set changed. */
  datatype Frozen = Frozen(collected: string, json: Option<string>, revision: nat, hash: string)

  /** The fields collected so far: sorted, and exactly the sets already visited. */
  ghost predicate Assembled(fields: seq<Field>, sets: map<string, Object>, todo: set<string>) {
    && StrictlySorted(fields)
    && forall k :: Find(fields, k) == if k in sets && k !in todo then Some(Obj(sets[k])) else None
  }

  lemma AssembleOne(fields: seq<Field>, sets: map<string, Object>, todo: set<string>, key: string)
    requires Assembled(fields, sets, todo) && key in todo && key in sets
    ensures Assembled(Insert(Field(key, Obj(sets[key])), fields), sets, todo - {key})
  {
    hide StrictlySorted, Insert;
    forall i | 0 <= i < |fields|
      ensures fields[i].key != key
    {
      assert Find(fields, key).None?;
    }
    InsertFind(Field(key, Obj(sets[key])), fields);
  }

  lemma AssembleDone(fields: seq<Field>, sets: map<string, Object>)
    requires Assembled(fields, sets, {})
    ensures fields == Document(sets).fields
  {
    hide StrictlySorted, Find, Document;
    forall k
      ensures Find(fields, k) == Find(Document(sets).fields, k)
    {
      DocumentFind(sets, k);
    }
    DocumentSorted(sets);
    SortedUnique(fields, Document(sets).fields);
  }

  lemma AssembleNone(sets: map<string, Object>)
    ensures Assembled([], sets, sets.Keys)
  {
  }

  /** Assemble the document; the sets may be visited in any order. */
  method BuildDocument(sets: map<string, Object>) returns (doc: Object)
    ensures doc == Document(sets)
  {
    hide Assembled, Insert, Document;
    var fields: seq<Field> := [];
    var todo := sets.Keys;
    AssembleNone(sets);
    while todo != {}
      invariant todo <= sets.Keys && Assembled(fields, sets, todo)
      decreases todo
    {
      var k :| k in todo;
      AssembleOne(fields, sets, todo, k);
      fields := Insert(Field(k, Obj(sets[k])), fields);
      todo := todo - {k};
    }
    AssembleDone(fields, sets);
    doc := Object(fields);
  }

  lemma {:induction false} InsertFind(f: Field, fields: seq<Field>)
    requires StrictlySorted(fields)
    requires forall i :: 0 <= i < |fields| ==> fields[i].key != f.key
    ensures StrictlySorted(Insert(f, fields))
    ensures forall k :: Find(Insert(f, fields), k) == if k == f.key then Some(f.value) else Find(fields, k)
  {
    InsertSorted(f, fields);
    var after := Insert(f, fields);
    SortedDistinct(after);
    SortedDistinct(fields);
    forall k
      ensures Find(after, k) == if k == f.key then Some(f.value) else Find(fields, k)
    {
      if k == f.key {
        assert f in after;
        var i :| 0 <= i < |after| && after[i] == f;
        FindDistinct(after, i);
      } else if Find(fields, k).Some? {
        var g := Field(k, Find(fields, k).value);
        assert g in after;
        var i :| 0 <= i < |after| && after[i] == g;
        FindDistinct(after, i);
      } else {
        assert forall i :: 0 <= i < |after| ==> after[i] in after;
      }
    }
  }

  // ---- the state behind the lock -----------------------------------------------------------

  /** Everything the lock protects; a critical section replaces it in one step. */
  datatype State = State(
    sets: map<string, Object>,
    encoded: map<string, string>,
    size: nat,
    owners: map<string, nat>,
    declared: map<nat, set<string>>,
    gathered: map<string, string>,
    collected: string,
    hash: string,
    hashDirty: bool,
    revision: nat,
    rounds: nat,
    frozen: Option<Frozen>,
    maxSize: nat)

  const INITIAL := State(map[], map[], 0, map[], map[], map[], "", "", true, 0, 0, None, DEFAULT_MAX_SIZE)

  /** The encodings, and whether this build has a digest at all. */
  datatype Build = Build(codec: Codec, canHash: bool)

  ghost function Json(g: Build, s: State): string {
    g.codec.Render(Document(s.sets))
  }

  /** The encoded bytes beside each set and their running total. */
  ghost predicate Counted(g: Build, s: State) {
    s.encoded == Encoded(g.codec, s.sets) && s.size == Size(g.codec, s.sets)
  }

  /** A clean cache holds the digest of the live document. */
  ghost predicate HashOk(g: Build, s: State) {
    (!s.hashDirty ==> g.canHash && s.hash == g.codec.Digest(Json(g, s))) && (!g.canHash ==> s.hash == "")
  }

  /** The frozen parts, together with the live parts not yet frozen, make up
      what an eager repository would have kept when the outermost round began. */
  ghost predicate RoundOk(g: Build, s: State, start: Snapshot) {
    if s.rounds == 0 then s.frozen.None?
    else if s.frozen.None? then start == Snapshot(Json(g, s), s.revision, s.collected)
    else
      var f := s.frozen.value;
      && start.collected == f.collected
      && (f.json.None? ==> start.json == Json(g, s) && start.revision == s.revision && f.hash == "")
      && (f.json.Some? ==> start.json == f.json.value && start.revision == f.revision)
      && (f.json.Some? && f.hash != "" ==> g.canHash && f.hash == g.codec.Digest(f.json.value))
  }

  /** No later change to the sets can reach what a reader is served. */
  predicate Sealed(s: State) {
    s.rounds == 0 || (s.frozen.Some? && s.frozen.value.json.Some?)
  }

  ghost predicate DomainsAgree(s: State) {
    s.owners.Keys == s.sets.Keys && s.gathered.Keys <= s.sets.Keys
  }

  /** The eager repository `d` agrees with the fields it shares with `s`. */
  ghost predicate Shares(s: State, d: Doc) {
    && d.sets == s.sets && d.owners == s.owners && d.declared == s.declared && d.gathered == s.gathered
    && d.collected == s.collected && d.revision == s.revision && d.maxSize == s.maxSize && d.rounds == s.rounds
  }

  /** `s` refines the eager repository `d`. */
  ghost predicate Refines(g: Build, s: State, d: Doc) {
    Shares(s, d) && Inv(g.codec, d) && Counted(g, s) && HashOk(g, s) && RoundOk(g, s, d.start)
  }

  // ---- freezing, touching, erasing -----------------------------------------------------------

  /** Called before every change; keeps what readers are served out of its reach. */
  method FreezeLocked(g: Build, s: State, setsChange: bool, ghost start: Snapshot) returns (t: State)
    requires RoundOk(g, s, start) && (HashOk(g, s) || Sealed(s))
    ensures t == s.(frozen := t.frozen) && RoundOk(g, t, start)
    ensures t.rounds > 0 ==> t.frozen.Some?
    ensures setsChange ==> Sealed(t)
  {
    if s.rounds == 0 {
      return s;
    }
    var f := if s.frozen.None? then Frozen(s.collected, None, 0, "") else s.frozen.value;
    if !setsChange || f.json.Some? {
      return s.(frozen := Some(f));
    }
    var document := BuildDocument(s.sets);
    f := f.(json := Some(g.codec.Render(document)), revision := s.revision);
    if !s.hashDirty {
      f := f.(hash := s.hash);
    }
    return s.(frozen := Some(f));
  }

  function Touch(s: State): State {
    s.(hashDirty := true, revision := s.revision + 1)
  }

  /** From `s` to `t` exactly the named sets went, with everything kept beside them. */
  ghost predicate Erased(s: State, t: State, names: set<string>) {
    && t.sets == s.sets - names && t.owners == s.owners - names && t.gathered == s.gathered - names
    && t.declared == s.declared && t.collected == s.collected && t.hash == s.hash && t.hashDirty == s.hashDirty
    && t.revision == s.revision && t.rounds == s.rounds && t.maxSize == s.maxSize
  }

  lemma ErasedNone(s: State)
    ensures Erased(s, s, {})
  {
    assert s.sets - {} == s.sets && s.owners - {} == s.owners && s.gathered - {} == s.gathered;
  }

  lemma ErasedOneMore(s: State, t: State, u: State, names: set<string>, name: string)
    requires Erased(s, t, names) && Erased(t, u, {name})
    ensures Erased(s, u, names + {name})
  {
    MinusOne(s.sets, names, name);
    MinusOne(s.owners, names, name);
    MinusOne(s.gathered, names, name);
  }

  /** Drop one set; the caller touches once, however many sets it drops. */
  method EraseLocked(g: Build, s: State, name: string, ghost start: Snapshot) returns (t: State, erased: bool)
    requires Counted(g, s) && DomainsAgree(s) && RoundOk(g, s, start) && (HashOk(g, s) || Sealed(s))
    ensures erased <==> name in s.sets
    ensures Counted(g, t) && DomainsAgree(t) && RoundOk(g, t, start)
    ensures Erased(s, t, {name})
    ensures if erased then Sealed(t) else t == s
  {
    hide Size, Document, Encoded;
    if name !in s.encoded {
      assert s.sets - {name} == s.sets && s.gathered - {name} == s.gathered && s.owners - {name} == s.owners;
      return s.(owners := s.owners - {name}), false;
    }
    t := FreezeLocked(g, s, true, start);
    EraseCounted(g.codec, s.sets, name);
    t := t.(owners := t.owners - {name},
            size := t.size - |t.encoded[name]|,
            encoded := t.encoded - {name},
            sets := t.sets - {name},
            gathered := t.gathered - {name});
    return t, true;
  }

  lemma MinusOne<V>(m: map<string, V>, done: set<string>, name: string)
    ensures m - done - {name} == m - (done + {name})
  {
  }

  /** Drop a set of names, one at a time, as one change. */
  method EraseAll(g: Build, s: State, names: set<string>, ghost d: Doc) returns (t: State)
    requires Shares(s, d) && Counted(g, s) && DomainsAgree(s) && HashOk(g, s) && RoundOk(g, s, d.start)
    ensures Shares(t, DropAll(d, names)) && Counted(g, t) && HashOk(g, t) && RoundOk(g, t, d.start)
  {
    hide Size, Document, Encoded;
    t := s;
    var changed := false;
    var todo := names;
    ghost var done: set<string> := {};
    ErasedNone(s);
    while todo != {}
      invariant todo !! done && todo + done == names
      invariant Counted(g, t) && DomainsAgree(t) && RoundOk(g, t, d.start)
      invariant Erased(s, t, done)
      invariant changed <==> !(s.sets.Keys !! done)
      invariant if changed then Sealed(t) else t.sets == s.sets
      decreases todo
    {
      var name :| name in todo;
      var u, erased := EraseLocked(g, t, name, d.start);
      ErasedOneMore(s, t, u, done, name);
      t, changed := u, erased || changed;
      todo, done := todo - {name}, done + {name};
    }
    assert done == names;
    if changed {
      t := Touch(t);
    }
  }

  /** The first largest entry in key order, as std::max_element finds it. */
  method MaxElement(encoded: map<string, string>) returns (k: string)
    requires encoded != map[]
    ensures k == Largest(Lengths(encoded))
  {
    var sizes := Lengths(encoded);
    assert encoded.Keys != {};
    k :| k in encoded;
    var todo := encoded.Keys - {k};
    while todo != {}
      invariant todo <= encoded.Keys && k in encoded && k !in todo
      invariant forall x :: x in encoded && x !in todo && x != k ==> Outranks(k, x, sizes)
      decreases todo
    {
      var x :| x in todo;
      LessTotal(k, x);
      if |encoded[k]| < |encoded[x]| || (|encoded[k]| == |encoded[x]| && Less(x, k)) {
        forall y | y in encoded && y !in todo
          ensures Outranks(x, y, sizes)
        {
          if y != k && sizes[y] == sizes[x] {
            assert Outranks(k, y, sizes);
            LessTransitive(x, k, y);
          }
        }
        k := x;
      }
      todo := todo - {x};
    }
    assert IsLargest(k, sizes);
    LargestUnique(k, Largest(sizes), sizes);
  }

  /** Drop the largest sets until the rest fits the lowered budget. */
  method Shrink(g: Build, s: State, ghost start: Snapshot) returns (t: State, dropped: seq<string>)
    requires Counted(g, s) && DomainsAgree(s) && HashOk(g, s) && RoundOk(g, s, start)
    ensures dropped == Dropped(Lengths(Encoded(g.codec, s.sets)), s.maxSize)
    ensures Counted(g, t) && RoundOk(g, t, start)
    ensures Erased(s, t, Elements(dropped))
    ensures if dropped == [] then t == s else Sealed(t)
  {
    hide Counted, DomainsAgree, RoundOk, HashOk, Sealed, Dropped, Encoded, Elements, Erased;
    t, dropped := s, [];
    ElementsNil();
    ErasedNone(s);
    while t.size > t.maxSize && t.encoded != map[]
      invariant Counted(g, t) && DomainsAgree(t) && RoundOk(g, t, start) && t.maxSize == s.maxSize
      invariant Erased(s, t, Elements(dropped))
      invariant if dropped == [] then t == s else Sealed(t)
      invariant Dropped(Lengths(Encoded(g.codec, s.sets)), s.maxSize) ==
                dropped + Dropped(Lengths(Encoded(g.codec, t.sets)), s.maxSize)
      decreases |t.encoded|
    {
      var u, name := DropLargest(g, t, start);
      ErasedOneMore(s, t, u, Elements(dropped), name);
      ElementsSnoc(dropped, name);
      t, dropped := u, dropped + [name];
    }
    NoneDropped(g, t);
  }

  /** One round of the loop. */
  method DropLargest(g: Build, t: State, ghost start: Snapshot) returns (u: State, name: string)
    requires Counted(g, t) && DomainsAgree(t) && RoundOk(g, t, start) && (HashOk(g, t) || Sealed(t))
    requires t.size > t.maxSize && t.encoded != map[]
    ensures Counted(g, u) && DomainsAgree(u) && RoundOk(g, u, start) && Sealed(u)
    ensures Erased(t, u, {name}) && u.maxSize == t.maxSize && |u.encoded| < |t.encoded|
    ensures Dropped(Lengths(Encoded(g.codec, t.sets)), t.maxSize) ==
            [name] + Dropped(Lengths(Encoded(g.codec, u.sets)), t.maxSize)
  {
    hide Dropped, Encoded, RoundOk, HashOk, Sealed, DomainsAgree, Erased, Total;
    name := MaxElement(t.encoded);
    var erased;
    u, erased := EraseLocked(g, t, name, start);
    EncodedNone(g.codec, t.sets);
    DropOneMore(g.codec, t, u, name, t.maxSize);
  }

  lemma EncodedNone(c: Codec, sets: map<string, Object>)
    ensures sets == map[] ==> Encoded(c, sets) == map[]
  {
  }

  lemma NoneDropped(g: Build, t: State)
    requires Counted(g, t) && (t.size <= t.maxSize || t.encoded == map[])
    ensures Dropped(Lengths(Encoded(g.codec, t.sets)), t.maxSize) == []
  {
  }

  lemma {:induction false} DropOneMore(c: Codec, t: State, u: State, name: string, budget: nat)
    requires t.encoded == Encoded(c, t.sets) && Size(c, t.sets) > budget && t.sets != map[]
    requires name == Largest(Lengths(t.encoded)) && Erased(t, u, {name})
    ensures name in t.sets && u.maxSize == t.maxSize
    ensures Dropped(Lengths(Encoded(c, t.sets)), budget) == [name] + Dropped(Lengths(Encoded(c, u.sets)), budget)
    ensures |Encoded(c, u.sets)| < |t.encoded|
  {
    LengthsDrop(c, t.sets, {name});
    assert u.sets.Keys == t.sets.Keys - {name};
  }

  lemma ElementsNil()
    ensures Elements([]) == {}
  {
  }

  lemma {:induction false} ElementsSnoc(names: seq<string>, name: string)
    ensures Elements(names + [name]) == Elements(names) + {name}
  {
    var all := names + [name];
    assert forall i :: 0 <= i < |names| ==> names[i] == all[i];
    assert all[|names|] == name;
    forall x | x in Elements(all)
      ensures x in Elements(names) + {name}
    {
      var i :| 0 <= i < |all| && all[i] == x;
      assert i < |names| ==> names[i] == x;
    }
  }

  // ---- the digest -------------------------------------------------------------------------------

  /** The digest of `json`, from the cache when it is clean. `up` is whether
      the digest library answers this time; a failure is not cached. */
  method HashLocked(g: Build, s: State, json: string, up: bool) returns (t: State, h: string)
    requires HashOk(g, s) && json == Json(g, s)
    ensures HashOk(g, t) && t == s.(hash := t.hash, hashDirty := t.hashDirty)
    ensures HashAnswer(g, json, h, up)
  {
    if !g.canHash {
      return s, "";
    }
    if !s.hashDirty {
      return s, s.hash;
    }
    var digest := if up then g.codec.Digest(json) else "";
    if digest == "" {
      return s, digest;
    }
    return s.(hash := digest, hashDirty := false), digest;
  }

  /** What a hash answer means: the digest of the JSON, or nothing when this
      build or this call cannot compute one. */
  ghost predicate HashAnswer(g: Build, json: string, h: string, up: bool) {
    if !g.canHash then h == "" else if up then h == g.codec.Digest(json) else h == "" || h == g.codec.Digest(json)
  }

  method FrozenHashLocked(g: Build, s: State, up: bool, ghost d: Doc) returns (t: State, h: string)
    requires Refines(g, s, d) && s.frozen.Some?
    ensures Refines(g, t, d) && HashAnswer(g, d.start.json, h, up)
  {
    hide Inv, Size, Document, Encoded;
    t := s;
    var f := s.frozen.value;
    if f.json.None? {
      if g.canHash && s.hashDirty {
        var document := BuildDocument(s.sets);
        t, h := HashLocked(g, s, g.codec.Render(document), up);
      } else {
        h := s.hash;
      }
      return;
    }
    if f.hash == "" && g.canHash {
      f := f.(hash := if up then g.codec.Digest(f.json.value) else "");
      t := s.(frozen := Some(f));
    }
    h := f.hash;
  }

  // ---- the repository -----------------------------------------------------------------------------

  class Repository {
    const build: Build
    var state: State

    /** The eager repository this one refines. */
    ghost var doc: Doc

    ghost predicate Valid()
      reads this
    {
      Refines(build, state, doc)
    }

    constructor (build: Build)
      ensures Valid() && doc == EMPTY && this.build == build
    {
      this.build, state, doc := build, INITIAL, EMPTY;
      EmptyInv(build.codec);
      assert Encoded(build.codec, map[]) == map[];
      assert Lengths(map[]) == map[];
    }

    /** Whether an offered set is stored, and the encoded size of the document if it is. */
    method Judge(name: string, plugin: nat, value: Object, bytes: string) returns (result: SetResult, wouldBe: nat)
      requires Valid() && bytes == build.codec.Encode(CanonObject(value))
      ensures result == SetOutcome(build.codec, doc, name, plugin, value)
      ensures result.Changed? ==> wouldBe == Size(build.codec, state.sets[name := CanonObject(value)])
    {
      hide Size, Document, Encoded, ShapeObject, HeightObject, CanonObject, ValidKey, Acceptable;
      wouldBe := 0;
      var validName := IsValidKey(name);
      if !validName {
        return Rejected, 0;
      }
      var valid := ValidateObject(value, 1);
      if !valid {
        return Rejected, 0;
      }
      if name in state.owners && state.owners[name] != plugin {
        return Rejected, 0;
      }
      StoreCounted(build.codec, state.sets, name, CanonObject(value));
      if name in state.encoded && state.encoded[name] == bytes {
        return Unchanged, 0;
      }
      wouldBe := state.size - (if name in state.encoded then |state.encoded[name]| else 0) + |bytes|;
      if wouldBe > state.maxSize {
        return Rejected, 0;
      }
      return Changed, wouldBe;
    }

    method SetFacts(name: string, plugin: nat, value: Object) returns (result: SetResult)
      requires Valid()
      modifies this
      ensures Valid() && doc == Stored(build.codec, old(doc), name, plugin, value)
      ensures result == SetOutcome(build.codec, old(doc), name, plugin, value)
    {
      hide Size, Document, Encoded, CanonObject, SetOutcome, Inv;
      var candidate := CanonObject(value);
      var bytes := build.codec.Encode(candidate);
      var wouldBe;
      result, wouldBe := Judge(name, plugin, value, bytes);
      if result != Changed {
        return;
      }
      SetFactsKeepsInv(build.codec, doc, name, plugin, value);
      StoreCounted(build.codec, state.sets, name, candidate);
      var t := FreezeLocked(build, state, true, doc.start);
      t := t.(sets := t.sets[name := candidate],
              encoded := t.encoded[name := bytes],
              size := wouldBe,
              owners := t.owners[name := plugin]);
      state := Touch(t);
      doc := Stored(build.codec, doc, name, plugin, value);
    }

    method Remove(name: string) returns (result: SetResult)
      requires Valid()
      modifies this
      ensures Valid() && doc == DropAll(old(doc), {name})
      ensures result == if name in old(doc).sets then Changed else Unchanged
    {
      hide Size, Document, Encoded, Acceptable;
      DropAllKeepsInv(build.codec, doc, {name});
      var t, erased := EraseLocked(build, state, name, doc.start);
      doc := DropAll(doc, {name});
      if !erased {
        state := t;
        return Unchanged;
      }
      state := Touch(t);
      return Changed;
    }

    method RemoveOwnedBy(plugin: nat)
      requires Valid()
      modifies this
      ensures Valid() && doc == Unloaded(old(doc), plugin)
    {
      hide Size, Document, Encoded, Acceptable;
      var s := state.(declared := state.declared - {plugin});
      ghost var d := doc.(declared := s.declared);
      var owned := set k | k in s.owners && s.owners[k] == plugin;
      DropAllKeepsInv(build.codec, d, owned);
      state := EraseAll(build, s, owned, d);
      doc := DropAll(d, owned);
    }

    method RetainOnly(plugin: nat, produced: set<string>)
      requires Valid()
      modifies this
      ensures Valid() && doc == Retained(old(doc), plugin, produced)
    {
      hide Size, Document, Encoded, Acceptable;
      var s := state.(declared := state.declared[plugin := produced]);
      ghost var d := doc.(declared := s.declared);
      var owned := set k | k in s.owners && s.owners[k] == plugin && !Mentions(produced, k);
      assert owned == set k | k in OwnedBy(doc, plugin) && !Mentions(produced, k);
      DropAllKeepsInv(build.codec, d, owned);
      state := EraseAll(build, s, owned, d);
      doc := DropAll(d, owned);
    }

    method SetMaxSize(maxSize: nat) returns (dropped: seq<string>)
      requires Valid()
      modifies this
      ensures Valid() && doc == Shrunk(build.codec, old(doc), maxSize)
      ensures dropped == if maxSize < MIN_MAX_SIZE then []
                         else Dropped(Lengths(Encoded(build.codec, old(doc).sets)), maxSize)
    {
      hide Size, Document, Encoded, Acceptable, Total;
      dropped := [];
      if maxSize < MIN_MAX_SIZE {
        return;
      }
      ShrunkKeepsInv(build.codec, doc, maxSize);
      DroppedFits(Lengths(Encoded(build.codec, doc.sets)), maxSize);
      var t;
      t, dropped := Shrink(build, state.(maxSize := maxSize), doc.start);
      ElementsEmpty(dropped);
      state := if dropped != [] then Touch(t) else t;
      doc := Shrunk(build.codec, doc, maxSize);
    }

    // ---- rounds and time stamps -----------------------------------------------------------------

    method BeginRound()
      requires Valid()
      modifies this
      ensures Valid() && doc == RoundBegun(build.codec, old(doc))
    {
      hide Size, Document, Encoded, Acceptable;
      state := state.(rounds := state.rounds + 1);
      doc := RoundBegun(build.codec, doc);
    }

    method EndRound()
      requires Valid()
      modifies this
      ensures Valid() && doc == RoundEnded(old(doc))
    {
      hide Size, Document, Encoded, Acceptable;
      if state.rounds == 0 {
        return;
      }
      state := state.(rounds := state.rounds - 1, frozen := if state.rounds == 1 then None else state.frozen);
      doc := RoundEnded(doc);
    }

    method MarkCollected(timestamp: string)
      requires Valid()
      modifies this
      ensures Valid() && doc == old(doc).(collected := timestamp)
    {
      hide Size, Document, Encoded, Acceptable;
      if state.collected == timestamp {
        return;
      }
      var t := FreezeLocked(build, state, false, doc.start);
      state := t.(collected := timestamp);
      doc := doc.(collected := timestamp);
    }

    method MarkGathered(name: string, timestamp: string)
      requires Valid()
      modifies this
      ensures Valid() && doc == Gathered(old(doc), name, timestamp)
    {
      hide Size, Document, Encoded, Acceptable;
      if name !in state.sets {
        return;
      }
      doc := Gathered(doc, name, timestamp);
      if timestamp == "" {
        state := state.(gathered := state.gathered - {name});
      } else {
        state := state.(gathered := state.gathered[name := timestamp]);
      }
    }

    // ---- reading --------------------------------------------------------------------------------

    method GetHash(up: bool) returns (h: string)
      requires Valid()
      modifies this`state
      ensures Valid() && HashAnswer(build, Published(build.codec, doc).json, h, up)
    {
      hide Inv, Size, Document, Encoded;
      if state.frozen.Some? {
        state, h := FrozenHashLocked(build, state, up, doc);
        return;
      }
      if !build.canHash || !state.hashDirty {
        return state.hash;
      }
      var document := BuildDocument(state.sets);
      state, h := HashLocked(build, state, build.codec.Render(document), up);
    }

    /** The document, its revision and time, and its hash, read in one step:
        always the last complete round. */
    method GetSnapshot(up: bool) returns (snapshot: Snapshot, h: string)
      requires Valid()
      modifies this`state
      ensures Valid() && snapshot == Published(build.codec, doc) && HashAnswer(build, snapshot.json, h, up)
    {
      hide Inv, Size, Document, Encoded;
      var s := state;
      if s.frozen.Some? && s.frozen.value.json.Some? {
        var f := s.frozen.value;
        state, h := FrozenHashLocked(build, s, up, doc);
        snapshot := Snapshot(f.json.value, f.revision, f.collected);
        return;
      }
      var document := BuildDocument(s.sets);
      var collected := if s.frozen.Some? then s.frozen.value.collected else s.collected;
      snapshot := Snapshot(build.codec.Render(document), s.revision, collected);
      state, h := HashLocked(build, s, snapshot.json, up);
    }

    method GetAll() returns (document: Object)
      requires Valid()
      ensures document == Document(doc.sets)
      ensures ShapeObject(document) && CanonObject(document) == document
    {
      document := BuildDocument(state.sets);
      DocumentCanonical(build.codec, doc);
    }

    /** One subtree by dotted path: exactly the values that joined keys lead to
        in the document `GetAll` returns. */
    method Get(path: string) returns (r: Option<Value>)
      requires Valid()
      ensures forall v :: r == Some(v) <==> PathLeads(Obj(Document(doc.sets)), path, v)
    {
      DocumentCanonical(build.codec, doc);
      forall v
        ensures Lookup(Obj(Document(doc.sets)), Split(path, '.')) == Some(v) <==>
                PathLeads(Obj(Document(doc.sets)), path, v)
      {
        LookupIffPathLeads(Obj(Document(doc.sets)), path, v);
      }
      r := Walk(state.sets, path);
    }
  }

  /** The segments after the dot at `at`; none at the end of the path. */
  function After(path: string, at: nat): seq<string>
    requires at <= |path|
  {
    if at < |path| then Split(path[at + 1..], '.') else []
  }

  method Walk(sets: map<string, Object>, path: string) returns (r: Option<Value>)
    ensures r == Lookup(Obj(Document(sets)), Split(path, '.'))
  {
    hide Document, Find, Split, Lookup, After;
    var dot := IndexFrom(path, '.', 0);
    var head := path[..dot];
    DocumentFind(sets, head);
    assert path[0..] == path && path[0..dot] == head;
    SplitAt(path, 0, dot);
    LookupStep(Obj(Document(sets)), head, After(path, dot));
    if head == "" {
      return None;
    }
    if head !in sets {
      return None;
    }
    var current := Obj(sets[head]);
    var at := dot;
    while at < |path|
      invariant 0 <= at <= |path|
      invariant Lookup(Obj(Document(sets)), Split(path, '.')) == Lookup(current, After(path, at))
      decreases |path| - at
    {
      var begin := at + 1;
      var next := IndexFrom(path, '.', begin);
      var segment := path[begin..next];
      AfterIsRest(path, at);
      SplitAt(path, begin, next);
      LookupStep(current, segment, After(path, next));
      if segment == "" {
        return None;
      }
      if !current.Obj? {
        return None;
      }
      var child := Find(current.obj.fields, segment);
      if child.None? {
        return None;
      }
      current := child.value;
      at := next;
    }
    LookupEnd(current, path);
    return Some(current);
  }

  lemma AfterIsRest(path: string, at: nat)
    requires at < |path|
    ensures After(path, at) == Split(path[at + 1..], '.')
  {
  }

  lemma LookupEnd(v: Value, path: string)
    ensures Lookup(v, After(path, |path|)) == Some(v)
  {
  }

  lemma {:induction false} ElementsEmpty(names: seq<string>)
    ensures Elements(names) == {} <==> names == []
  {
    if names != [] {
      assert names[0] in Elements(names);
    }
  }

  lemma {:induction false} SplitAt(path: string, begin: nat, next: nat)
    requires begin <= |path| && next == IndexFrom(path, '.', begin)
    ensures Split(path[begin..], '.') ==
            [path[begin..next]] + After(path, next)
  {
    var rest := path[begin..];
    IndexFromUnique(rest, '.', 0, next - begin);
    assert rest[..next - begin] == path[begin..next];
    if next < |path| {
      assert rest[next - begin + 1..] == path[next + 1..];
    } else {
      assert rest == path[begin..next];
    }
  }
}
