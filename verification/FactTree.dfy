/** The facts document tree: values, the rules a fact set must satisfy, the
    canonical field order and dotted lookup. */
module FactTree {
  import opened Text

  // ---- the tree (PB::Facts::Value / Object / Field) -------------------------

  datatype Value =
    | NotSet
    | Str(text: string)
    | Int(n: int)
    | UInt(u: nat)
    | Double(d: real)
    | Bool(b: bool)
    | Obj(obj: Object)
    | Lst(values: seq<Value>)

  datatype Field = Field(key: string, value: Value)

  datatype Object = Object(fields: seq<Field>)

  const MAX_KEY_LENGTH: nat := 64
  const MAX_DEPTH: nat := 6
  const MAX_LIST_LENGTH: nat := 5000

  ghost predicate FirstAt(fields: seq<Field>, key: string, i: nat) {
    forall k :: 0 <= k < i && k < |fields| ==> fields[k].key != key
  }

  /** The first field carrying `key`. */
  function Find(fields: seq<Field>, key: string): (r: Option<Value>)
    ensures r.None? <==> forall i :: 0 <= i < |fields| ==> fields[i].key != key
    ensures r.Some? ==> exists i :: 0 <= i < |fields| && fields[i] == Field(key, r.value) && FirstAt(fields, key, i)
  {
    if fields == [] then None
    else if fields[0].key == key then Some(fields[0].value)
    else
      assert fields == [fields[0]] + fields[1..];
      Find(fields[1..], key)
  }

  ghost predicate DistinctKeys(fields: seq<Field>) {
    forall i, j :: 0 <= i < j < |fields| ==> fields[i].key != fields[j].key
  }

  lemma {:induction false} FindDistinct(fields: seq<Field>, i: nat)
    requires DistinctKeys(fields) && i < |fields|
    ensures Find(fields, fields[i].key) == Some(fields[i].value)
  {
    var r := Find(fields, fields[i].key);
    var j :| 0 <= j < |fields| && fields[j] == Field(fields[i].key, r.value);
  }

  // ---- the document rules ----------------------------------------------------

  predicate KeyChar(c: char) {
    'a' <= c <= 'z' || '0' <= c <= '9' || c == '_'
  }

  ghost predicate ValidKey(key: string) {
    && 0 < |key| <= MAX_KEY_LENGTH
    && 'a' <= key[0] <= 'z'
    && forall i :: 0 <= i < |key| ==> KeyChar(key[i])
  }

  /** A key is a letter a-z followed by up to 63 of the 37 characters allowed. */
  lemma ValidKeyIff(key: string)
    ensures ValidKey(key) <==>
            && 1 <= |key| <= 64 && key[0] in SMALLS
            && forall i :: 0 <= i < |key| ==> key[i] in SMALLS + "0123456789_"
  {
    forall i | 0 <= i < |key|
      ensures KeyChar(key[i]) <==> key[i] in SMALLS + "0123456789_"
      ensures 'a' <= key[i] <= 'z' <==> key[i] in SMALLS
    {
      KeyCharIs(key[i]);
    }
  }

  lemma KeyCharIs(c: char)
    ensures 'a' <= c <= 'z' <==> c in SMALLS
    ensures KeyChar(c) <==> c in SMALLS + "0123456789_"
  {
    SmallIs(c);
    DigitIs(c);
    assert c in SMALLS + "0123456789_" <==> c in SMALLS || c in "0123456789_";
  }

  lemma SmallIs(c: char)
    ensures 'a' <= c <= 'z' <==> c in SMALLS
  {
    assert 'a' <= c <= 'z' ==> SMALLS[c as int - 97] == c;
  }

  lemma DigitIs(c: char)
    ensures '0' <= c <= '9' || c == '_' <==> c in "0123456789_"
  {
    var digits := "0123456789_";
    assert '0' <= c <= '9' ==> digits[c as int - 48] == c;
    assert digits[10] == '_';
  }

  /** The id of a record: a non-empty string under the key "id". */
  function RecordId(o: Object): Option<string> {
    match Find(o.fields, "id")
    case Some(Str(text)) => if text == "" then None else Some(text)
    case _ => None
  }

  /** The rules that do not depend on nesting. */
  ghost predicate ShapeObject(o: Object) {
    && DistinctKeys(o.fields)
    && forall i :: 0 <= i < |o.fields| ==> ValidKey(o.fields[i].key) && ShapeValue(o.fields[i].value)
  }

  ghost predicate ShapeValue(v: Value) {
    match v
    case NotSet => false
    case Obj(o) => ShapeObject(o)
    case Lst(vs) => |vs| <= MAX_LIST_LENGTH && (AllStrings(vs) || Records(vs))
    case _ => true
  }

  ghost predicate AllStrings(vs: seq<Value>) {
    forall i :: 0 <= i < |vs| ==> vs[i].Str?
  }

  /** A list of records: objects with pairwise distinct ids. */
  ghost predicate Records(vs: seq<Value>) {
    && (forall i :: 0 <= i < |vs| ==> vs[i].Obj? && RecordId(vs[i].obj).Some? && ShapeValue(vs[i]))
    && (forall i, j :: 0 <= i < j < |vs| && vs[i].Obj? && vs[j].Obj? ==> RecordId(vs[i].obj) != RecordId(vs[j].obj))
  }

  /** Levels of nesting below and including an object; a list of records is a level of its own. */
  function HeightObject(o: Object): nat {
    1 + HeightFields(o.fields)
  }

  function HeightFields(fields: seq<Field>): nat {
    if fields == [] then 0 else Max(HeightValue(fields[0].value), HeightFields(fields[1..]))
  }

  function HeightValue(v: Value): nat {
    match v
    case Obj(o) => HeightObject(o)
    case Lst(vs) => if vs != [] && vs[0].Obj? then 1 + HeightRecords(vs) else 0
    case _ => 0
  }

  function HeightRecords(vs: seq<Value>): nat {
    if vs == [] then 0
    else Max(HeightValue(vs[0]), HeightRecords(vs[1..]))
  }

  /** The rules a fact set has to satisfy to be stored. */
  ghost predicate WellFormed(o: Object) {
    ShapeObject(o) && HeightObject(o) <= MAX_DEPTH
  }

  lemma RecordIdIff(o: Object, id: string)
    ensures RecordId(o) == Some(id) <==> id != "" && Find(o.fields, "id") == Some(Str(id))
  {
  }

  /** The rules by their numbers: lists of up to 5000 entries, six levels of nesting. */
  lemma RulesByNumber(o: Object, vs: seq<Value>)
    ensures AllStrings(vs) ==> (ShapeValue(Lst(vs)) <==> |vs| <= 5000)
    ensures ShapeValue(Lst(vs)) ==> AllStrings(vs) || Records(vs)
    ensures WellFormed(o) <==> ShapeObject(o) && HeightObject(o) <= 6
  {
  }

  lemma {:induction false} HeightFieldsBound(fields: seq<Field>, n: nat)
    ensures HeightFields(fields) <= n <==> forall i :: 0 <= i < |fields| ==> HeightValue(fields[i].value) <= n
  {
    if fields == [] {
    } else {
      HeightFieldsBound(fields[1..], n);
      assert fields == [fields[0]] + fields[1..];
    }
  }

  lemma {:induction false} HeightRecordsBound(vs: seq<Value>, n: nat)
    ensures HeightRecords(vs) <= n <==> forall i :: 0 <= i < |vs| ==> HeightValue(vs[i]) <= n
  {
    if vs == [] {
    } else {
      HeightRecordsBound(vs[1..], n);
      assert vs == [vs[0]] + vs[1..];
    }
  }

  // ---- the validators ----------------------------------------------------------

  method IsValidKey(key: string) returns (ok: bool)
    ensures ok <==> ValidKey(key)
  {
    if |key| == 0 || |key| > MAX_KEY_LENGTH {
      return false;
    }
    if key[0] < 'a' || key[0] > 'z' {
      return false;
    }
    for i := 0 to |key|
      invariant forall k :: 0 <= k < i ==> KeyChar(key[k])
    {
      if !KeyChar(key[i]) {
        return false;
      }
    }
    return true;
  }

  /** Room left for a value of the given height at nesting level `depth`. */
  predicate Fits(depth: nat, height: nat) {
    height == 0 || depth + height <= MAX_DEPTH + 1
  }

  /** Accepts exactly the objects that keep every rule and nest no deeper than allowed. */
  method ValidateObject(o: Object, depth: nat) returns (ok: bool)
    ensures ok <==> ShapeObject(o) && Fits(depth, HeightObject(o))
    decreases o
  {
    if depth > MAX_DEPTH {
      return false;
    }
    HeightFieldsBound(o.fields, MAX_DEPTH - depth);
    var keys: set<string> := {};
    for i := 0 to |o.fields|
      invariant forall key :: key in keys <==> exists k :: 0 <= k < i && o.fields[k].key == key
      invariant forall j, k :: 0 <= j < k < i ==> o.fields[j].key != o.fields[k].key
      invariant forall k :: 0 <= k < i ==>
        ValidKey(o.fields[k].key) && ShapeValue(o.fields[k].value) && Fits(depth + 1, HeightValue(o.fields[k].value))
    {
      var field := o.fields[i];
      var validKey := IsValidKey(field.key);
      if !validKey {
        return false;
      }
      if field.key in keys {
        return false;
      }
      keys := keys + {field.key};
      var validValue := Validate(field.value, depth + 1);
      if !validValue {
        return false;
      }
    }
    return true;
  }

  method Validate(v: Value, depth: nat) returns (ok: bool)
    ensures ok <==> ShapeValue(v) && Fits(depth, HeightValue(v))
    decreases v
  {
    match v
    case Obj(o) => ok := ValidateObject(o, depth);
    case Lst(vs) => ok := ValidateList(vs, depth);
    case NotSet => ok := false;
    case _ => ok := true;
  }

  /** What a list of records keeps of each of its elements. */
  ghost predicate GoodRecord(v: Value, depth: nat) {
    v.Obj? && RecordId(v.obj).Some? && ShapeValue(v) && Fits(depth, HeightValue(v))
  }

  /** `ids` are the ids of the first `n` elements, no two of them the same. */
  ghost predicate Seen(vs: seq<Value>, n: nat, ids: set<string>)
    requires n <= |vs|
  {
    && (forall k :: 0 <= k < n ==> vs[k].Obj? && RecordId(vs[k].obj).Some? && RecordId(vs[k].obj).value in ids)
    && (forall id :: id in ids ==> exists k :: 0 <= k < n && vs[k].Obj? && RecordId(vs[k].obj) == Some(id))
    && (forall j, k :: 0 <= j < k < n && vs[j].Obj? && vs[k].Obj? ==> RecordId(vs[j].obj) != RecordId(vs[k].obj))
  }

  lemma SeenNext(vs: seq<Value>, n: nat, ids: set<string>, id: string)
    requires n < |vs| && Seen(vs, n, ids) && vs[n].Obj? && RecordId(vs[n].obj) == Some(id) && id !in ids
    ensures Seen(vs, n + 1, ids + {id})
  {
    hide RecordId;
    forall other | other in ids + {id}
      ensures exists k :: 0 <= k < n + 1 && vs[k].Obj? && RecordId(vs[k].obj) == Some(other)
    {
      if other == id {
        assert vs[n].Obj?;
      } else {
        var k :| 0 <= k < n && vs[k].Obj? && RecordId(vs[k].obj) == Some(other);
        assert 0 <= k < n + 1;
      }
    }
  }

  lemma SeenTwice(vs: seq<Value>, n: nat, ids: set<string>, id: string)
    requires n < |vs| && Seen(vs, n, ids) && vs[n].Obj? && RecordId(vs[n].obj) == Some(id) && id in ids
    ensures !Records(vs)
  {
    hide RecordId, ShapeValue;
    var k :| 0 <= k < n && vs[k].Obj? && RecordId(vs[k].obj) == Some(id);
    assert RecordId(vs[k].obj) == RecordId(vs[n].obj);
  }

  /** A list that starts with an object passes exactly as a list of good, distinct records. */
  lemma RecordListIff(vs: seq<Value>, depth: nat)
    requires 0 < |vs| <= MAX_LIST_LENGTH && vs[0].Obj?
    ensures ShapeValue(Lst(vs)) && Fits(depth, HeightValue(Lst(vs))) <==>
            Records(vs) && forall k :: 0 <= k < |vs| ==> GoodRecord(vs[k], depth + 1)
  {
    hide RecordId, ShapeObject, HeightRecords;
    assert !AllStrings(vs);
    if depth <= MAX_DEPTH {
      HeightRecordsBound(vs, MAX_DEPTH - depth);
    }
    HeightObjects(vs);
  }

  lemma HeightObjects(vs: seq<Value>)
    ensures forall k :: 0 <= k < |vs| && vs[k].Obj? ==> HeightValue(vs[k]) > 0
    ensures vs != [] && vs[0].Obj? ==> HeightRecords(vs) > 0
  {
  }

  method ValidateList(vs: seq<Value>, depth: nat) returns (ok: bool)
    ensures ok <==> ShapeValue(Lst(vs)) && Fits(depth, HeightValue(Lst(vs)))
    decreases vs
  {
    if |vs| > MAX_LIST_LENGTH {
      return false;
    }
    if |vs| == 0 {
      return true;
    }
    if vs[0].Obj? {
      ok := ValidateRecords(vs, depth);
      return;
    }
    for i := 0 to |vs|
      invariant forall k :: 0 <= k < i ==> vs[k].Str?
    {
      if !vs[i].Str? {
        return false;
      }
    }
    return true;
  }

  method ValidateRecords(vs: seq<Value>, depth: nat) returns (ok: bool)
    requires 0 < |vs| <= MAX_LIST_LENGTH && vs[0].Obj?
    ensures ok <==> ShapeValue(Lst(vs)) && Fits(depth, HeightValue(Lst(vs)))
    decreases vs, 0
  {
    RecordListIff(vs, depth);
    hide Seen, RecordId, HeightObject, ShapeObject;
    var ids: set<string> := {};
    assert Seen(vs, 0, {}) by { NoneSeen(vs); }
    for i := 0 to |vs|
      invariant Seen(vs, i, ids)
      invariant forall k :: 0 <= k < i ==> GoodRecord(vs[k], depth + 1)
    {
      var item := vs[i];
      if !item.Obj? {
        return false;
      }
      var id := RecordId(item.obj);
      if id.None? {
        return false;
      }
      if id.value in ids {
        SeenTwice(vs, i, ids, id.value);
        return false;
      }
      SeenNext(vs, i, ids, id.value);
      ids := ids + {id.value};
      var valid := ValidateObject(item.obj, depth + 1);
      assert vs[i] == Obj(item.obj);
      assert valid <==> GoodRecord(vs[i], depth + 1);
      if !valid {
        return false;
      }
    }
    SeenAll(vs, ids);
    return true;
  }

  lemma NoneSeen(vs: seq<Value>)
    ensures Seen(vs, 0, {})
  {
  }

  lemma SeenAll(vs: seq<Value>, ids: set<string>)
    requires Seen(vs, |vs|, ids) && forall k :: 0 <= k < |vs| ==> vs[k].Obj? ==> ShapeValue(vs[k])
    ensures Records(vs)
  {
    hide RecordId, ShapeObject;
  }

  // ---- canonical field order (sort_fields) ---------------------------------------

  function Insert(f: Field, sorted: seq<Field>): seq<Field> {
    if sorted == [] || Less(f.key, sorted[0].key) then [f] + sorted
    else [sorted[0]] + Insert(f, sorted[1..])
  }

  function SortByKey(fields: seq<Field>): seq<Field> {
    if fields == [] then [] else Insert(fields[0], SortByKey(fields[1..]))
  }

  /** Every object of the tree sorted by key; lists keep their order. */
  function CanonObject(o: Object): Object
    decreases o, 1
  {
    Object(SortByKey(CanonFields(o)))
  }

  function CanonFields(o: Object): seq<Field>
    decreases o, 0
  {
    seq(|o.fields|, i requires 0 <= i < |o.fields| => Field(o.fields[i].key, CanonValue(o.fields[i].value)))
  }

  function CanonValue(v: Value): Value
    decreases v, 1
  {
    match v
    case Obj(o) => Obj(CanonObject(o))
    case Lst(vs) => Lst(seq(|vs|, i requires 0 <= i < |vs| => if vs[i].Obj? then CanonValue(vs[i]) else vs[i]))
    case _ => v
  }

  ghost predicate StrictlySorted(fields: seq<Field>) {
    forall i, j :: 0 <= i < j < |fields| ==> Less(fields[i].key, fields[j].key)
  }

  lemma {:induction false} InsertSorted(f: Field, sorted: seq<Field>)
    requires StrictlySorted(sorted)
    requires forall i :: 0 <= i < |sorted| ==> sorted[i].key != f.key
    ensures StrictlySorted(Insert(f, sorted))
    ensures forall g :: g in Insert(f, sorted) <==> g == f || g in sorted
  {
    if sorted == [] {
    } else {
      LessTotal(f.key, sorted[0].key);
      if Less(f.key, sorted[0].key) {
        forall j | 0 < j < |sorted|
          ensures Less(f.key, sorted[j].key)
        {
          LessTransitive(f.key, sorted[0].key, sorted[j].key);
        }
      } else {
        InsertSorted(f, sorted[1..]);
        var rest := Insert(f, sorted[1..]);
        forall j | 0 <= j < |rest|
          ensures Less(sorted[0].key, rest[j].key)
        {
          assert rest[j] in rest;
        }
      }
    }
  }

  /** Sorting fields with distinct keys keeps exactly those fields, in strict key order. */
  lemma {:induction false} SortByKeySorts(fields: seq<Field>)
    requires DistinctKeys(fields)
    ensures StrictlySorted(SortByKey(fields))
    ensures forall f :: f in SortByKey(fields) <==> f in fields
  {
    if fields == [] {
    } else {
      assert fields == [fields[0]] + fields[1..];
      SortByKeySorts(fields[1..]);
      var rest := SortByKey(fields[1..]);
      forall i | 0 <= i < |rest|
        ensures rest[i].key != fields[0].key
      {
        assert rest[i] in rest;
      }
      InsertSorted(fields[0], rest);
    }
  }

  /** A strictly sorted field list is determined by what its keys map to. */
  lemma {:induction false} SortedUnique(a: seq<Field>, b: seq<Field>)
    requires StrictlySorted(a) && StrictlySorted(b)
    requires forall k :: Find(a, k) == Find(b, k)
    ensures a == b
  {
    if a == [] || b == [] {
      assert a != [] ==> Find(a, a[0].key) == Find(b, a[0].key);
      assert b != [] ==> Find(a, b[0].key) == Find(b, b[0].key);
    } else {
      SortedDistinct(a);
      SortedDistinct(b);
      SameHead(a, b);
      forall k
        ensures Find(a[1..], k) == Find(b[1..], k)
      {
        FindTail(a, k);
        FindTail(b, k);
      }
      SortedUnique(a[1..], b[1..]);
      assert a == [a[0]] + a[1..] && b == [b[0]] + b[1..];
    }
  }

  lemma {:induction false} SortedDistinct(a: seq<Field>)
    requires StrictlySorted(a)
    ensures DistinctKeys(a)
  {
    forall i, j | 0 <= i < j < |a|
      ensures a[i].key != a[j].key
    {
      LessTotal(a[i].key, a[j].key);
    }
  }

  lemma {:induction false} SameHead(a: seq<Field>, b: seq<Field>)
    requires a != [] && b != [] && StrictlySorted(a) && StrictlySorted(b)
    requires forall k :: Find(a, k) == Find(b, k)
    ensures a[0] == b[0]
  {
    assert Find(b, a[0].key) == Some(a[0].value);
    var i :| 0 <= i < |b| && b[i] == a[0];
    assert Find(a, b[0].key) == Some(b[0].value);
    var j :| 0 <= j < |a| && a[j] == b[0];
    LessTotal(a[0].key, b[0].key);
  }

  lemma {:induction false} FindTail(a: seq<Field>, k: string)
    requires a != [] && DistinctKeys(a)
    ensures Find(a[1..], k) == if k == a[0].key then None else Find(a, k)
  {
  }

  // ---- the same facts, whatever the field order ---------------------------------

  /** The same keys, each with the same value; the order of fields does not matter. */
  ghost predicate SameObject(o: Object, p: Object)
    decreases o
  {
    && (forall i :: 0 <= i < |o.fields| ==>
          var r := Find(p.fields, o.fields[i].key);
          r.Some? && SameValue(o.fields[i].value, r.value))
    && (forall j :: 0 <= j < |p.fields| ==> Find(o.fields, p.fields[j].key).Some?)
  }

  ghost predicate SameValue(v: Value, w: Value)
    decreases v
  {
    match (v, w)
    case (Obj(o), Obj(p)) => SameObject(o, p)
    case (Lst(vs), Lst(ws)) => |vs| == |ws| && forall i :: 0 <= i < |vs| ==> SameValue(vs[i], ws[i])
    case _ => v == w
  }

  function CanonOption(r: Option<Value>): Option<Value> {
    if r.None? then None else Some(CanonValue(r.value))
  }

  lemma {:induction false} CanonFind(o: Object, k: string)
    requires DistinctKeys(o.fields)
    ensures StrictlySorted(CanonObject(o).fields)
    ensures Find(CanonObject(o).fields, k) == CanonOption(Find(o.fields, k))
  {
    hide SortByKey, CanonValue;
    var c := CanonFields(o);
    var s := CanonObject(o).fields;
    SortByKeySorts(c);
    match Find(o.fields, k)
    case None =>
      assert forall j :: 0 <= j < |s| ==> s[j] in c;
    case Some(v) =>
      var i :| 0 <= i < |o.fields| && o.fields[i] == Field(k, v);
      assert c[i] in s;
      var j :| 0 <= j < |s| && s[j] == c[i];
      SortedDistinct(s);
      FindDistinct(s, j);
  }

  ghost predicate SameLookups(o: Object, p: Object) {
    forall k :: CanonOption(Find(o.fields, k)) == CanonOption(Find(p.fields, k))
  }

  lemma {:induction false} CanonIffFind(o: Object, p: Object)
    requires DistinctKeys(o.fields) && DistinctKeys(p.fields)
    ensures CanonObject(o) == CanonObject(p) <==>
            SameLookups(o, p)
  {
    forall k
      ensures Find(CanonObject(o).fields, k) == CanonOption(Find(o.fields, k))
      ensures Find(CanonObject(p).fields, k) == CanonOption(Find(p.fields, k))
    {
      CanonFind(o, k);
      CanonFind(p, k);
    }
    CanonFind(o, "");
    CanonFind(p, "");
    if SameLookups(o, p) {
      SortedUnique(CanonObject(o).fields, CanonObject(p).fields);
    }
  }

  /** Field by field, one canonical value means the same value. */
  ghost predicate FieldsAgree(o: Object, p: Object) {
    forall i :: 0 <= i < |o.fields| && Find(p.fields, o.fields[i].key).Some? ==>
      (CanonValue(o.fields[i].value) == CanonValue(Find(p.fields, o.fields[i].key).value) <==>
       SameValue(o.fields[i].value, Find(p.fields, o.fields[i].key).value))
  }

  lemma SameLooksUp(o: Object, p: Object)
    requires SameObject(o, p) && FieldsAgree(o, p)
    ensures SameLookups(o, p)
  {
    hide CanonValue, SameValue;
    forall k
      ensures CanonOption(Find(o.fields, k)) == CanonOption(Find(p.fields, k))
    {
      if Find(o.fields, k).Some? {
        var i :| 0 <= i < |o.fields| && o.fields[i] == Field(k, Find(o.fields, k).value);
      }
    }
  }

  lemma LookupsMakeSame(o: Object, p: Object)
    requires DistinctKeys(o.fields) && SameLookups(o, p) && FieldsAgree(o, p)
    ensures SameObject(o, p)
  {
    hide CanonValue, SameValue;
    forall i | 0 <= i < |o.fields|
      ensures Find(p.fields, o.fields[i].key).Some?
      ensures SameValue(o.fields[i].value, Find(p.fields, o.fields[i].key).value)
    {
      FindDistinct(o.fields, i);
      assert CanonOption(Find(o.fields, o.fields[i].key)) == CanonOption(Find(p.fields, o.fields[i].key));
    }
    forall k
      ensures Find(o.fields, k).None? <==> Find(p.fields, k).None?
    {
      assert CanonOption(Find(o.fields, k)) == CanonOption(Find(p.fields, k));
    }
  }

  /** Two fact sets that keep the rules have one canonical form exactly when
      they differ only in the order of fields, at any depth. */
  lemma {:induction false} CanonIffSame(o: Object, p: Object)
    requires ShapeObject(o) && ShapeObject(p)
    ensures CanonObject(o) == CanonObject(p) <==> SameObject(o, p)
    decreases o
  {
    hide CanonObject, CanonValue, SameObject, SameValue, SameLookups;
    CanonIffFind(o, p);
    forall i | 0 <= i < |o.fields| && Find(p.fields, o.fields[i].key).Some?
      ensures CanonValue(o.fields[i].value) == CanonValue(Find(p.fields, o.fields[i].key).value) <==>
              SameValue(o.fields[i].value, Find(p.fields, o.fields[i].key).value)
    {
      CanonIffSameValue(o.fields[i].value, Find(p.fields, o.fields[i].key).value);
    }
    if SameObject(o, p) { SameLooksUp(o, p); }
    if SameLookups(o, p) { LookupsMakeSame(o, p); }
  }

  lemma {:induction false} CanonIffSameValue(v: Value, w: Value)
    requires ShapeValue(v) && ShapeValue(w)
    ensures CanonValue(v) == CanonValue(w) <==> SameValue(v, w)
    decreases v
  {
    match (v, w)
    case (Obj(o), Obj(p)) => CanonIffSame(o, p);
    case (Lst(vs), Lst(ws)) =>
      if |vs| == |ws| {
        forall i | 0 <= i < |vs|
          ensures CanonValue(v).values[i] == CanonValue(w).values[i] <==> SameValue(vs[i], ws[i])
        {
          if vs[i].Obj? && ws[i].Obj? {
            CanonIffSameValue(vs[i], ws[i]);
          }
        }
      }
    case _ =>
  }

  // ---- what canonicalising keeps ----------------------------------------------------

  /** A canonical field comes from a field of the original. */
  lemma {:induction false} CanonOrigin(o: Object, j: nat)
    requires DistinctKeys(o.fields) && j < |CanonObject(o).fields|
    ensures var f := CanonObject(o).fields[j];
            exists i :: 0 <= i < |o.fields| && f == Field(o.fields[i].key, CanonValue(o.fields[i].value))
  {
    SortByKeySorts(CanonFields(o));
    assert CanonObject(o).fields[j] in CanonFields(o);
  }

  lemma {:induction false} CanonRecordId(v: Value)
    requires v.Obj? && ShapeValue(v)
    ensures RecordId(CanonObject(v.obj)) == RecordId(v.obj)
  {
    CanonFind(v.obj, "id");
  }

  lemma {:induction false} CanonKeepsShape(o: Object)
    requires ShapeObject(o)
    ensures ShapeObject(CanonObject(o))
    decreases o
  {
    CanonFind(o, "");
    var s := CanonObject(o).fields;
    SortedDistinct(s);
    forall j | 0 <= j < |s|
      ensures ValidKey(s[j].key) && ShapeValue(s[j].value)
    {
      CanonOrigin(o, j);
      var i :| 0 <= i < |o.fields| && s[j] == Field(o.fields[i].key, CanonValue(o.fields[i].value));
      CanonKeepsShapeValue(o.fields[i].value);
    }
  }

  lemma {:induction false} CanonKeepsShapeValue(v: Value)
    requires ShapeValue(v)
    ensures ShapeValue(CanonValue(v))
    decreases v
  {
    match v
    case Obj(o) => CanonKeepsShape(o);
    case Lst(vs) =>
      if !AllStrings(vs) {
        forall i | 0 <= i < |vs|
          ensures CanonValue(vs[i]).Obj? && ShapeValue(CanonValue(vs[i]))
          ensures RecordId(CanonValue(vs[i]).obj) == RecordId(vs[i].obj)
        {
          CanonKeepsShapeValue(vs[i]);
          CanonRecordId(vs[i]);
        }
        assert Records(CanonValue(v).values);
      } else {
        assert AllStrings(CanonValue(v).values);
      }
    case _ =>
  }

  lemma {:induction false} CanonHeight(o: Object, n: nat)
    requires ShapeObject(o)
    ensures HeightObject(CanonObject(o)) <= n <==> HeightObject(o) <= n
    decreases o
  {
    if n > 0 {
      var s := CanonObject(o).fields;
      HeightFieldsBound(o.fields, n - 1);
      HeightFieldsBound(s, n - 1);
      forall i | 0 <= i < |o.fields|
        ensures HeightValue(CanonValue(o.fields[i].value)) <= n - 1 <==> HeightValue(o.fields[i].value) <= n - 1
      {
        CanonHeightValue(o.fields[i].value, n - 1);
      }
      if HeightObject(o) <= n {
        forall j | 0 <= j < |s|
          ensures HeightValue(s[j].value) <= n - 1
        {
          CanonOrigin(o, j);
        }
      }
      if HeightObject(CanonObject(o)) <= n {
        SortByKeySorts(CanonFields(o));
        forall i | 0 <= i < |o.fields|
          ensures HeightValue(o.fields[i].value) <= n - 1
        {
          assert CanonFields(o)[i] in s;
        }
      }
    }
  }

  lemma {:induction false} CanonHeightValue(v: Value, n: nat)
    requires ShapeValue(v)
    ensures HeightValue(CanonValue(v)) <= n <==> HeightValue(v) <= n
    decreases v
  {
    match v
    case Obj(o) => CanonHeight(o, n);
    case Lst(vs) =>
      if vs != [] && vs[0].Obj? && n > 0 {
        var ws := CanonValue(v).values;
        HeightRecordsBound(vs, n - 1);
        HeightRecordsBound(ws, n - 1);
        forall i | 0 <= i < |vs|
          ensures HeightValue(ws[i]) <= n - 1 <==> HeightValue(vs[i]) <= n - 1
        {
          CanonHeightValue(vs[i], n - 1);
        }
      }
    case _ =>
  }

  /** What is stored keeps the rules that were checked on what was offered. */
  lemma {:induction false} CanonKeepsRules(o: Object)
    requires WellFormed(o)
    ensures WellFormed(CanonObject(o))
  {
    CanonKeepsShape(o);
    CanonHeight(o, MAX_DEPTH);
  }

  // ---- dotted lookup ---------------------------------------------------------------------

  /** Walk through objects, one segment at a time. */
  function Lookup(v: Value, segments: seq<string>): Option<Value>
    decreases segments
  {
    if segments == [] then Some(v)
    else if segments[0] == "" || !v.Obj? then None
    else
      var child := Find(v.obj.fields, segments[0]);
      if child.None? then None else Lookup(child.value, segments[1..])
  }

  lemma LookupStep(v: Value, key: string, rest: seq<string>)
    ensures Lookup(v, [key] + rest) ==
            if key == "" || !v.Obj? || Find(v.obj.fields, key).None? then None
            else Lookup(Find(v.obj.fields, key).value, rest)
  {
    hide Find;
    assert ([key] + rest)[1..] == rest;
  }

  /** The keys lead from `v`, through objects, to `w`. */
  ghost predicate Leads(v: Value, keys: seq<string>, w: Value)
    decreases keys
  {
    if keys == [] then v == w
    else
      v.Obj? && var fields := v.obj.fields;
      exists i :: 0 <= i < |fields| && fields[i].key == keys[0] && Leads(fields[i].value, keys[1..], w)
  }

  lemma {:induction false} LookupIffLeads(v: Value, keys: seq<string>, w: Value)
    requires ShapeValue(v)
    ensures Lookup(v, keys) == Some(w) <==> Leads(v, keys, w)
    ensures Leads(v, keys, w) ==> SeparatorFree(keys, '.')
    decreases keys
  {
    if keys != [] && v.Obj? {
      var fields := v.obj.fields;
      forall i | 0 <= i < |fields| && fields[i].key == keys[0]
        ensures Find(fields, keys[0]) == Some(fields[i].value)
        ensures Lookup(fields[i].value, keys[1..]) == Some(w) <==> Leads(fields[i].value, keys[1..], w)
        ensures Leads(fields[i].value, keys[1..], w) ==> SeparatorFree(keys[1..], '.')
        ensures keys[0] != "" && '.' !in keys[0]
      {
        FindDistinct(fields, i);
        LookupIffLeads(fields[i].value, keys[1..], w);
      }
      assert keys == [keys[0]] + keys[1..];
    }
  }

  ghost predicate PathLeads(v: Value, path: string, w: Value) {
    exists keys: seq<string> :: |keys| > 0 && Join(keys, '.') == path && Leads(v, keys, w)
  }

  /** Looking up a dotted path is the inverse of joining keys: it finds `w`
      exactly when the path is the join of a non-empty key sequence leading to `w`. */
  lemma {:induction false} LookupIffPathLeads(v: Value, path: string, w: Value)
    requires ShapeValue(v)
    ensures Lookup(v, Split(path, '.')) == Some(w) <==> PathLeads(v, path, w)
  {
    if Lookup(v, Split(path, '.')) == Some(w) {
      JoinSplit(path, '.');
      LookupIffLeads(v, Split(path, '.'), w);
    }
    if PathLeads(v, path, w) {
      var keys: seq<string> :| |keys| > 0 && Join(keys, '.') == path && Leads(v, keys, w);
      LookupIffLeads(v, keys, w);
      SplitJoin(keys, '.');
    }
  }
}
