/**
 Canonical JSON (crates/cdr-core/src/canonical_json.rs): the value that is
 printed has its object keys sorted at every depth.
 */
module CanonicalJson {
  import opened Options
  import opened Json

  // ------------------------------------------------------------------ key order

  /** Lexicographic order of strings by code point, which is the byte order of their UTF-8 forms. */
  predicate Less(a: string, b: string) {
    b != [] && (a == [] || a[0] < b[0] || (a[0] == b[0] && Less(a[1..], b[1..])))
  }

  lemma {:induction false} LessIsStrict(a: string, b: string)
    ensures !(Less(a, b) && Less(b, a)) && (a == b ==> !Less(a, b))
    ensures a != b ==> Less(a, b) || Less(b, a)
  {
    if a != [] && b != [] {
      LessIsStrict(a[1..], b[1..]);
      assert a == [a[0]] + a[1..] && b == [b[0]] + b[1..];
    }
  }

  lemma {:induction false} LessIsTransitive(a: string, b: string, c: string)
    requires Less(a, b) && Less(b, c)
    ensures Less(a, c)
  {
    if a != [] && a[0] == b[0] == c[0] {
      LessIsTransitive(a[1..], b[1..], c[1..]);
    }
  }

  // ------------------------------------------------------------------ sorting

  /** Insertion into an ordered map: the key's place in the order, or its old value replaced. */
  function Insert(fields: seq<Field>, key: string, v: Json): seq<Field> {
    if fields == [] || Less(key, fields[0].key) then [Field(key, v)] + fields
    else if fields[0].key == key then [Field(key, v)] + fields[1..]
    else [fields[0]] + Insert(fields[1..], key, v)
  }

  /** `sort_value`. */
  function Sort(v: Json): Json
    decreases v, 1
  {
    match v
    case JArray(items) => JArray(SortItems(items))
    case JObject(fields) => JObject(SortFields(fields))
    case _ => v
  }

  function SortItems(items: seq<Json>): seq<Json>
    decreases items, 0
  {
    if items == [] then [] else [Sort(items[0])] + SortItems(items[1..])
  }

  function SortFields(fields: seq<Field>): seq<Field>
    decreases fields, 0
  {
    if fields == [] then []
    else
      var n := |fields| - 1;
      Insert(SortFields(fields[..n]), fields[n].key, Sort(fields[n].value))
  }

  function Without(fields: seq<Field>, key: string): seq<Field> {
    if fields == [] then []
    else (if fields[0].key == key then [] else [fields[0]]) + Without(fields[1..], key)
  }

  function WithoutAll(fields: seq<Field>, keys: seq<string>): seq<Field>
    decreases |keys|
  {
    if keys == [] then fields else WithoutAll(Without(fields, keys[0]), keys[1..])
  }

  function Exclude(v: Json, keys: seq<string>): Json {
    if v.JObject? then JObject(WithoutAll(v.fields, keys)) else v
  }

  /** `to_canonical_json`, up to the printing of the sorted value. */
  method ToCanonical(v: Json, exclude: seq<string>) returns (canonical: Json)
    ensures canonical == Sort(Exclude(v, exclude))
    ensures WellFormed(v) ==> KeysInOrder(canonical)
  {
    hide KeysInOrder, WellFormed, Sort;
    var json := v;
    if json.JObject? {
      var i := 0;
      while i < |exclude|
        invariant 0 <= i <= |exclude|
        invariant json.JObject? && WithoutAll(json.fields, exclude[i..]) == WithoutAll(v.fields, exclude)
      {
        assert exclude[i..][1..] == exclude[i + 1..];
        json := JObject(Without(json.fields, exclude[i]));
        i := i + 1;
      }
    }
    canonical := Sort(json);
    if WellFormed(v) {
      ExcludeKeepsWellFormed(v, exclude);
      SortPutsKeysInOrder(Exclude(v, exclude));
    }
  }

  // ------------------------------------------------------------------ equality up to key order

  predicate HasKey(fields: seq<Field>, key: string) {
    Lookup(fields, key).Some?
  }

  predicate DistinctKeys(fields: seq<Field>) {
    forall i, j | 0 <= i < j < |fields| :: fields[i].key != fields[j].key
  }

  /** Every object, at every depth, has distinct keys. */
  predicate WellFormed(v: Json) {
    match v
    case JArray(items) => forall i | 0 <= i < |items| :: WellFormed(items[i])
    case JObject(fields) => DistinctKeys(fields) && forall i | 0 <= i < |fields| :: WellFormed(fields[i].value)
    case _ => true
  }

  /** The same scalars and arrays, and objects with the same keys and equivalent values, in whatever order. */
  ghost predicate Equivalent(a: Json, b: Json)
    decreases a
  {
    match a
    case JArray(items) =>
      b.JArray? && |items| == |b.items| && forall i | 0 <= i < |items| :: Equivalent(items[i], b.items[i])
    case JObject(fields) =>
      && b.JObject?
      && (forall i | 0 <= i < |fields| ::
            HasKey(b.fields, fields[i].key) && Equivalent(fields[i].value, Lookup(b.fields, fields[i].key).value))
      && (forall j | 0 <= j < |b.fields| :: HasKey(fields, b.fields[j].key))
    case _ => a == b
  }

  // ------------------------------------------------------------------ sorted fields

  predicate Ascending(fields: seq<Field>) {
    forall i, j | 0 <= i < j < |fields| :: Less(fields[i].key, fields[j].key)
  }

  lemma {:induction false} LookupInsert(fields: seq<Field>, key: string, v: Json, k: string)
    requires Ascending(fields)
    ensures Lookup(Insert(fields, key, v), k) == if k == key then Some(v) else Lookup(fields, k)
  {
    if fields == [] {
    } else {
      LessIsStrict(key, fields[0].key);
      if !Less(key, fields[0].key) && fields[0].key != key {
        LookupInsert(fields[1..], key, v, k);
        assert Insert(fields, key, v)[1..] == Insert(fields[1..], key, v);
      }
    }
  }

  lemma {:induction false} InsertKeys(fields: seq<Field>, key: string, v: Json, low: string)
    requires forall i | 0 <= i < |fields| :: Less(low, fields[i].key)
    requires Less(low, key)
    ensures forall i | 0 <= i < |Insert(fields, key, v)| :: Less(low, Insert(fields, key, v)[i].key)
  {
    if fields != [] && !Less(key, fields[0].key) && fields[0].key != key {
      InsertKeys(fields[1..], key, v, low);
    }
  }

  lemma {:induction false} AscendingCons(head: Field, rest: seq<Field>)
    requires Ascending(rest) && forall i | 0 <= i < |rest| :: Less(head.key, rest[i].key)
    ensures Ascending([head] + rest)
  {
  }

  lemma {:induction false} InsertAscending(fields: seq<Field>, key: string, v: Json)
    requires Ascending(fields)
    ensures Ascending(Insert(fields, key, v))
  {
    if fields == [] {
    } else if Less(key, fields[0].key) {
      forall i | 0 <= i < |fields| ensures Less(key, fields[i].key) {
        if i > 0 { LessIsTransitive(key, fields[0].key, fields[i].key); }
      }
      AscendingCons(Field(key, v), fields);
    } else if fields[0].key == key {
      AscendingCons(Field(key, v), fields[1..]);
    } else {
      LessIsStrict(key, fields[0].key);
      InsertAscending(fields[1..], key, v);
      InsertKeys(fields[1..], key, v, fields[0].key);
      AscendingCons(fields[0], Insert(fields[1..], key, v));
    }
  }

  function SortOption(v: Option<Json>): Option<Json> {
    if v.Some? then Some(Sort(v.value)) else None
  }

  lemma {:induction false} LookupFound(fields: seq<Field>, i: nat)
    requires i < |fields| && DistinctKeys(fields)
    ensures Lookup(fields, fields[i].key) == Some(fields[i].value)
  {
    if i == 0 {
    } else {
      LookupFound(fields[1..], i - 1);
    }
  }

  lemma {:induction false} LookupLast(fields: seq<Field>, key: string)
    requires fields != [] && DistinctKeys(fields)
    ensures var n := |fields| - 1;
      Lookup(fields, key) == if fields[n].key == key then Some(fields[n].value) else Lookup(fields[..n], key)
  {
    var n := |fields| - 1;
    if n == 0 {
    } else {
      LookupLast(fields[1..], key);
      assert fields[1..][..n - 1] == fields[..n][1..];
    }
  }

  /** Sorted fields are ascending, with the same keys and the sorted values. */
  lemma {:induction false} SortFieldsMeaning(fields: seq<Field>, key: string)
    requires DistinctKeys(fields)
    ensures Ascending(SortFields(fields)) && Lookup(SortFields(fields), key) == SortOption(Lookup(fields, key))
    decreases |fields|
  {
    if fields == [] {
    } else {
      var n := |fields| - 1;
      SortFieldsMeaning(fields[..n], key);
      InsertAscending(SortFields(fields[..n]), fields[n].key, Sort(fields[n].value));
      LookupInsert(SortFields(fields[..n]), fields[n].key, Sort(fields[n].value), key);
      LookupLast(fields, key);
    }
  }

  lemma {:induction false} LookupBelow(fields: seq<Field>, key: string)
    requires forall i | 0 <= i < |fields| :: fields[i].key != key
    ensures Lookup(fields, key) == None
  {
    if fields == [] {
    } else {
      LookupBelow(fields[1..], key);
    }
  }

  lemma {:induction false} LookupIndex(fields: seq<Field>, key: string) returns (i: nat)
    requires HasKey(fields, key)
    ensures i < |fields| && fields[i].key == key && Lookup(fields, key) == Some(fields[i].value)
  {
    if fields[0].key == key {
      i := 0;
    } else {
      var k := LookupIndex(fields[1..], key);
      i := k + 1;
    }
  }

  ghost predicate SameLookups(f: seq<Field>, g: seq<Field>) {
    forall k: string :: Lookup(f, k) == Lookup(g, k)
  }

  lemma {:induction false} HeadsAgree(f: seq<Field>, g: seq<Field>)
    requires Ascending(f) && Ascending(g) && SameLookups(f, g) && f != [] && g != []
    ensures f[0] == g[0]
  {
    assert Lookup(f, f[0].key) == Lookup(g, f[0].key) && Lookup(f, g[0].key) == Lookup(g, g[0].key);
    var i := LookupIndex(g, f[0].key);
    var j := LookupIndex(f, g[0].key);
    assert i == 0 || Less(g[0].key, g[i].key);
    assert j == 0 || Less(f[0].key, f[j].key);
    LessIsStrict(f[0].key, g[0].key);
  }

  lemma {:induction false} TailLookup(f: seq<Field>, k: string)
    requires Ascending(f) && f != []
    ensures Lookup(f[1..], k) == if k == f[0].key then None else Lookup(f, k)
  {
    if k == f[0].key {
      forall i | 0 <= i < |f| - 1 ensures f[1..][i].key != k {
        LessIsStrict(f[0].key, f[i + 1].key);
      }
      LookupBelow(f[1..], k);
    }
  }

  /** Ascending fields are determined by what can be looked up in them. */
  lemma {:induction false} AscendingUnique(f: seq<Field>, g: seq<Field>)
    requires Ascending(f) && Ascending(g) && SameLookups(f, g)
    ensures f == g
    decreases |f|
  {
    var first := if f != [] then f[0].key else if g != [] then g[0].key else [];
    assert Lookup(f, first) == Lookup(g, first);
    if f == [] {
    } else {
      HeadsAgree(f, g);
      forall k: string ensures Lookup(f[1..], k) == Lookup(g[1..], k) {
        TailLookup(f, k);
        TailLookup(g, k);
        assert Lookup(f, k) == Lookup(g, k);
      }
      AscendingUnique(f[1..], g[1..]);
      assert f == [f[0]] + f[1..] && g == [g[0]] + g[1..];
    }
  }

  // ------------------------------------------------------------------ the canonical form

  ghost predicate SameSortedLookups(f: seq<Field>, g: seq<Field>) {
    forall k: string :: SortOption(Lookup(f, k)) == SortOption(Lookup(g, k))
  }

  /** Two objects have one sorted form exactly when each key leads to values with one sorted form. */
  lemma {:induction false} SortObjects(f: seq<Field>, g: seq<Field>)
    requires DistinctKeys(f) && DistinctKeys(g)
    ensures SortFields(f) == SortFields(g) <==> SameSortedLookups(f, g)
  {
    forall k: string
      ensures Lookup(SortFields(f), k) == SortOption(Lookup(f, k))
        && Lookup(SortFields(g), k) == SortOption(Lookup(g, k))
    {
      SortFieldsMeaning(f, k);
      SortFieldsMeaning(g, k);
    }
    SortFieldsMeaning(f, []);
    SortFieldsMeaning(g, []);
    if SameSortedLookups(f, g) {
      forall k: string ensures Lookup(SortFields(f), k) == Lookup(SortFields(g), k) {
        assert SortOption(Lookup(f, k)) == SortOption(Lookup(g, k));
      }
      AscendingUnique(SortFields(f), SortFields(g));
    }
    if SortFields(f) == SortFields(g) {
      forall k: string ensures SortOption(Lookup(f, k)) == SortOption(Lookup(g, k)) {
        assert Lookup(SortFields(f), k) == SortOption(Lookup(f, k));
      }
    }
  }

  lemma {:induction false} SortItemsAt(items: seq<Json>, i: nat)
    requires i < |items|
    ensures |SortItems(items)| == |items| && SortItems(items)[i] == Sort(items[i])
    decreases |items|
  {
    if i > 0 {
      SortItemsAt(items[1..], i - 1);
    } else if |items| > 1 {
      SortItemsAt(items[1..], 0);
    }
  }

  lemma {:induction false} SortArrays(a: seq<Json>, b: seq<Json>)
    ensures SortItems(a) == SortItems(b) <==> |a| == |b| && forall i | 0 <= i < |a| :: Sort(a[i]) == Sort(b[i])
  {
    forall i | 0 <= i < |a| ensures |SortItems(a)| == |a| && SortItems(a)[i] == Sort(a[i]) { SortItemsAt(a, i); }
    forall i | 0 <= i < |b| ensures |SortItems(b)| == |b| && SortItems(b)[i] == Sort(b[i]) { SortItemsAt(b, i); }
  }

  /** Equal sorted forms decide equality up to the order of object keys at every depth. */
  lemma {:induction false} SortDecidesEquivalence(a: Json, b: Json)
    requires WellFormed(a) && WellFormed(b)
    ensures Sort(a) == Sort(b) <==> Equivalent(a, b)
    decreases a
  {
    match a
    case JArray(items) =>
      if b.JArray? {
        SortArrays(items, b.items);
        if |items| == |b.items| {
          forall i | 0 <= i < |items| ensures Sort(items[i]) == Sort(b.items[i]) <==> Equivalent(items[i], b.items[i]) {
            SortDecidesEquivalence(items[i], b.items[i]);
          }
        }
      }
    case JObject(f) =>
      if b.JObject? {
        var g := b.fields;
        SortObjects(f, g);
        forall i | 0 <= i < |f|
          ensures HasKey(g, f[i].key) ==>
            var other := Lookup(g, f[i].key).value;
            Sort(f[i].value) == Sort(other) <==> Equivalent(f[i].value, other)
        {
          if HasKey(g, f[i].key) {
            var j := LookupIndex(g, f[i].key);
            SortDecidesEquivalence(f[i].value, g[j].value);
          }
        }
        ObjectsEquivalent(f, g);
      }
    case _ =>
  }

  ghost predicate FieldsAgree(f: seq<Field>, g: seq<Field>) {
    && (forall i | 0 <= i < |f| :: HasKey(g, f[i].key) && Sort(f[i].value) == Sort(Lookup(g, f[i].key).value))
    && (forall j | 0 <= j < |g| :: HasKey(f, g[j].key))
  }

  /** Equal sorted lookups for all keys, restated over the fields that are there. */
  lemma {:induction false} ObjectsEquivalent(f: seq<Field>, g: seq<Field>)
    requires DistinctKeys(f)
    ensures SameSortedLookups(f, g) <==> FieldsAgree(f, g)
  {
    if SameSortedLookups(f, g) {
      LookupsGiveFields(f, g);
    }
    if FieldsAgree(f, g) {
      forall k: string ensures SortOption(Lookup(f, k)) == SortOption(Lookup(g, k)) {
        if HasKey(f, k) {
          var i := LookupIndex(f, k);
        } else if HasKey(g, k) {
          var j := LookupIndex(g, k);
        }
      }
    }
  }

  lemma {:induction false} LookupsGiveFields(f: seq<Field>, g: seq<Field>)
    requires DistinctKeys(f) && SameSortedLookups(f, g)
    ensures FieldsAgree(f, g)
  {
    forall i | 0 <= i < |f| ensures HasKey(g, f[i].key) && Sort(f[i].value) == Sort(Lookup(g, f[i].key).value) {
      LookupFound(f, i);
      assert SortOption(Lookup(f, f[i].key)) == SortOption(Lookup(g, f[i].key));
    }
    forall j | 0 <= j < |g| ensures HasKey(f, g[j].key) {
      FieldHasKey(g, j);
      assert SortOption(Lookup(f, g[j].key)) == SortOption(Lookup(g, g[j].key));
    }
  }

  lemma {:induction false} FieldHasKey(fields: seq<Field>, i: nat)
    requires i < |fields|
    ensures HasKey(fields, fields[i].key)
  {
    if i == 0 {
    } else {
      FieldHasKey(fields[1..], i - 1);
    }
  }

  lemma {:induction false} AscendingDistinct(fields: seq<Field>)
    requires Ascending(fields)
    ensures DistinctKeys(fields)
  {
    forall i, j | 0 <= i < j < |fields| ensures fields[i].key != fields[j].key {
      LessIsStrict(fields[i].key, fields[j].key);
    }
  }

  /** Every field of the sorted object is an original field with its value sorted. */
  lemma {:induction false} SortedFieldOrigin(fields: seq<Field>, i: nat) returns (j: nat)
    requires DistinctKeys(fields) && i < |SortFields(fields)|
    ensures j < |fields| && SortFields(fields)[i] == Field(fields[j].key, Sort(fields[j].value))
  {
    var key := SortFields(fields)[i].key;
    SortFieldsMeaning(fields, key);
    AscendingDistinct(SortFields(fields));
    LookupFound(SortFields(fields), i);
    j := LookupIndex(fields, key);
  }

  lemma {:induction false} SortKeepsWellFormed(v: Json)
    requires WellFormed(v)
    ensures WellFormed(Sort(v))
    decreases v
  {
    match v
    case JArray(items) =>
      forall i | 0 <= i < |SortItems(items)| ensures WellFormed(SortItems(items)[i]) {
        SortArrays(items, items);
        SortedItemOrigin(items, i);
        SortKeepsWellFormed(items[i]);
      }
    case JObject(fields) =>
      SortFieldsMeaning(fields, []);
      AscendingDistinct(SortFields(fields));
      forall i | 0 <= i < |SortFields(fields)| ensures WellFormed(SortFields(fields)[i].value) {
        var j := SortedFieldOrigin(fields, i);
        SortKeepsWellFormed(fields[j].value);
      }
    case _ =>
  }

  lemma {:induction false} SortedItemOrigin(items: seq<Json>, i: nat)
    requires i < |SortItems(items)|
    ensures i < |items| && SortItems(items)[i] == Sort(items[i])
  {
    if items != [] {
      SortItemsAt(items, 0);
      SortItemsAt(items, i);
    }
  }

  /** Sorting twice is sorting once. */
  lemma {:induction false} SortIdempotent(v: Json)
    requires WellFormed(v)
    ensures Sort(Sort(v)) == Sort(v)
    decreases v
  {
    match v
    case JArray(items) =>
      if items != [] { SortItemsAt(items, 0); }
      forall i | 0 <= i < |items| ensures Sort(SortItems(items)[i]) == Sort(items[i]) {
        SortItemsAt(items, i);
        SortIdempotent(items[i]);
      }
      SortArrays(SortItems(items), items);
    case JObject(fields) =>
      var sorted := SortFields(fields);
      SortFieldsMeaning(fields, []);
      AscendingDistinct(sorted);
      forall k: string ensures SortOption(Lookup(sorted, k)) == SortOption(Lookup(fields, k)) {
        SortFieldsMeaning(fields, k);
        if HasKey(fields, k) {
          var j := LookupIndex(fields, k);
          SortIdempotent(fields[j].value);
        }
      }
      SortObjects(sorted, fields);
    case _ =>
  }

  /** The canonical form of a value is equivalent to it: only the order of keys changed. */
  lemma {:induction false} SortKeepsMeaning(v: Json)
    requires WellFormed(v)
    ensures Equivalent(v, Sort(v))
  {
    SortKeepsWellFormed(v);
    SortIdempotent(v);
    SortDecidesEquivalence(v, Sort(v));
  }

  // ------------------------------------------------------------------ exclusions

  lemma {:induction false} LookupWithout(fields: seq<Field>, key: string, k: string)
    ensures Lookup(Without(fields, key), k) == if k == key then None else Lookup(fields, k)
  {
    if fields == [] {
    } else {
      LookupWithout(fields[1..], key, k);
      assert fields[0].key != key ==> Without(fields, key)[1..] == Without(fields[1..], key);
      assert fields[0].key == key ==> Without(fields, key) == Without(fields[1..], key);
    }
  }

  /** Exclusions hide exactly the named keys of the top-level object and leave its other values untouched. */
  lemma {:induction false} LookupWithoutAll(fields: seq<Field>, keys: seq<string>, k: string)
    ensures Lookup(WithoutAll(fields, keys), k) == if k in keys then None else Lookup(fields, k)
    decreases |keys|
  {
    if keys == [] {
    } else {
      LookupWithoutAll(Without(fields, keys[0]), keys[1..], k);
      LookupWithout(fields, keys[0], k);
      assert k in keys <==> k == keys[0] || k in keys[1..];
    }
  }

  lemma {:induction false} WithoutOrigin(fields: seq<Field>, key: string, i: nat)
    requires i < |Without(fields, key)|
    ensures exists j :: 0 <= j < |fields| && Without(fields, key)[i] == fields[j]
  {
    var rest := Without(fields[1..], key);
    var at := if fields[0].key == key then i else i - 1;
    if fields[0].key == key || i > 0 {
      WithoutOrigin(fields[1..], key, at);
      var j :| 0 <= j < |fields[1..]| && rest[at] == fields[1..][j];
      assert Without(fields, key)[i] == fields[j + 1];
    } else {
      assert Without(fields, key)[0] == fields[0];
    }
  }

  lemma {:induction false} WithoutDistinct(fields: seq<Field>, key: string)
    requires DistinctKeys(fields)
    ensures DistinctKeys(Without(fields, key))
  {
    if fields == [] {
    } else {
      var rest := Without(fields[1..], key);
      WithoutDistinct(fields[1..], key);
      forall i | 0 <= i < |rest| ensures rest[i].key != fields[0].key {
        WithoutOrigin(fields[1..], key, i);
      }
    }
  }

  lemma {:induction false} WithoutAllDistinct(fields: seq<Field>, keys: seq<string>)
    requires DistinctKeys(fields)
    ensures DistinctKeys(WithoutAll(fields, keys))
    decreases |keys|
  {
    if keys == [] {
    } else {
      WithoutDistinct(fields, keys[0]);
      WithoutAllDistinct(Without(fields, keys[0]), keys[1..]);
    }
  }

  lemma {:induction false} WithoutKeepsWellFormed(fields: seq<Field>, key: string)
    requires WellFormed(JObject(fields))
    ensures WellFormed(JObject(Without(fields, key)))
  {
    WithoutDistinct(fields, key);
    forall i | 0 <= i < |Without(fields, key)| ensures WellFormed(Without(fields, key)[i].value) {
      WithoutOrigin(fields, key, i);
    }
  }

  lemma {:induction false} ExcludeKeepsWellFormed(v: Json, keys: seq<string>)
    requires WellFormed(v)
    ensures WellFormed(Exclude(v, keys))
    decreases |keys|
  {
    hide WellFormed;
    if keys == [] || !v.JObject? {
    } else {
      WithoutKeepsWellFormed(v.fields, keys[0]);
      ExcludeKeepsWellFormed(JObject(Without(v.fields, keys[0])), keys[1..]);
    }
  }

  /** Outside the excluded keys the objects have the same keys with equivalent values. */
  ghost predicate EquivalentOutside(f: seq<Field>, g: seq<Field>, keys: seq<string>) {
    forall k: string | k !in keys ::
      && HasKey(f, k) == HasKey(g, k)
      && (HasKey(f, k) && HasKey(g, k) ==> Equivalent(Lookup(f, k).value, Lookup(g, k).value))
  }

  lemma {:induction false} LookupSortedEquivalent(f: seq<Field>, g: seq<Field>, k: string)
    requires WellFormed(JObject(f)) && WellFormed(JObject(g))
    ensures SortOption(Lookup(f, k)) == SortOption(Lookup(g, k)) <==>
      && HasKey(f, k) == HasKey(g, k)
      && (HasKey(f, k) && HasKey(g, k) ==> Equivalent(Lookup(f, k).value, Lookup(g, k).value))
  {
    if HasKey(f, k) && HasKey(g, k) {
      var i := LookupIndex(f, k);
      var j := LookupIndex(g, k);
      SortDecidesEquivalence(f[i].value, g[j].value);
    }
  }

  /**
   Two objects have the same canonical form under exclusions exactly when they
   are equivalent outside the excluded top-level keys.
   */
  lemma {:induction false} CanonicalDecides(f: seq<Field>, g: seq<Field>, keys: seq<string>)
    requires WellFormed(JObject(f)) && WellFormed(JObject(g))
    ensures Sort(Exclude(JObject(f), keys)) == Sort(Exclude(JObject(g), keys)) <==> EquivalentOutside(f, g, keys)
  {
    var f', g' := WithoutAll(f, keys), WithoutAll(g, keys);
    WithoutAllDistinct(f, keys);
    WithoutAllDistinct(g, keys);
    SortObjects(f', g');
    forall k: string
      ensures SortOption(Lookup(f', k)) == SortOption(Lookup(g', k)) <==>
        k in keys || SortOption(Lookup(f, k)) == SortOption(Lookup(g, k))
    {
      LookupWithoutAll(f, keys, k);
      LookupWithoutAll(g, keys, k);
    }
    forall k: string ensures SortOption(Lookup(f, k)) == SortOption(Lookup(g, k)) <==>
      && HasKey(f, k) == HasKey(g, k)
      && (HasKey(f, k) && HasKey(g, k) ==> Equivalent(Lookup(f, k).value, Lookup(g, k).value))
    {
      LookupSortedEquivalent(f, g, k);
    }
    assert SameSortedLookups(f', g') <==> forall k: string | k !in keys ::
      SortOption(Lookup(f, k)) == SortOption(Lookup(g, k));
  }

  // ------------------------------------------------------------------ the order of the keys

  /** The two keys agree up to position `p`, where the first has the smaller character. */
  predicate SmallerAt(a: string, b: string, p: nat) {
    p < |a| && p < |b| && a[..p] == b[..p] && a[p] < b[p]
  }

  /** The first key is a proper prefix of the second, or has the smaller character where they first differ. */
  ghost predicate Before(a: string, b: string) {
    (|a| < |b| && a == b[..|a|]) || exists p: nat :: SmallerAt(a, b, p)
  }

  lemma {:induction false} BeforeStep(a: string, b: string)
    requires a != [] && b != []
    ensures Before(a, b) <==> a[0] < b[0] || (a[0] == b[0] && Before(a[1..], b[1..]))
  {
    if a[0] < b[0] {
      assert SmallerAt(a, b, 0);
    }
    if a[0] == b[0] && Before(a[1..], b[1..]) {
      BeforeBehind(a, b);
    }
    if Before(a, b) {
      BeforeAhead(a, b);
    }
  }

  lemma {:induction false} BeforeBehind(a: string, b: string)
    requires a != [] && b != [] && a[0] == b[0] && Before(a[1..], b[1..])
    ensures Before(a, b)
  {
    var x, y := a[1..], b[1..];
    assert a == [a[0]] + x && b == [a[0]] + y;
    if |x| < |y| && x == y[..|x|] {
      assert b[..|a|] == [a[0]] + y[..|x|];
    } else {
      var p: nat :| SmallerAt(x, y, p);
      assert a[..p + 1] == [a[0]] + x[..p] && b[..p + 1] == [a[0]] + y[..p];
      assert SmallerAt(a, b, p + 1);
    }
  }

  lemma {:induction false} BeforeAhead(a: string, b: string)
    requires a != [] && b != [] && Before(a, b)
    ensures a[0] < b[0] || (a[0] == b[0] && Before(a[1..], b[1..]))
  {
    var x, y := a[1..], b[1..];
    if |a| < |b| && a == b[..|a|] {
      assert a[0] == b[0] && y[..|x|] == b[..|a|][1..];
    } else {
      var p: nat :| SmallerAt(a, b, p);
      if p > 0 {
        assert a[0] == a[..p][0] == b[..p][0] == b[0];
        assert x[..p - 1] == a[..p][1..] && y[..p - 1] == b[..p][1..];
        assert SmallerAt(x, y, p - 1);
      }
    }
  }

  lemma {:induction false} LessIsBefore(a: string, b: string)
    ensures Less(a, b) <==> Before(a, b)
  {
    if a == [] || b == [] {
      assert b[..0] == [];
    } else {
      hide Before;
      BeforeStep(a, b);
      LessIsBefore(a[1..], b[1..]);
    }
  }

  /** In every object, at every depth, each key stands before the ones that follow it. */
  ghost predicate KeysInOrder(v: Json) {
    match v
    case JArray(items) => forall i | 0 <= i < |items| :: KeysInOrder(items[i])
    case JObject(fields) =>
      && (forall i, j | 0 <= i < j < |fields| :: Before(fields[i].key, fields[j].key))
      && (forall i | 0 <= i < |fields| :: KeysInOrder(fields[i].value))
    case _ => true
  }

  lemma {:induction false} AscendingIsInOrder(fields: seq<Field>)
    requires Ascending(fields)
    ensures forall i, j | 0 <= i < j < |fields| :: Before(fields[i].key, fields[j].key)
  {
    hide Before;
    forall i, j | 0 <= i < j < |fields| ensures Before(fields[i].key, fields[j].key) {
      LessIsBefore(fields[i].key, fields[j].key);
    }
  }

  /** The canonical form has its keys in the order of their characters, the shorter of two prefixes first. */
  lemma {:induction false} SortPutsKeysInOrder(v: Json)
    requires WellFormed(v)
    ensures KeysInOrder(Sort(v))
    decreases v
  {
    hide Before, Ascending;
    match v
    case JArray(items) =>
      forall i | 0 <= i < |SortItems(items)| ensures KeysInOrder(SortItems(items)[i]) {
        SortedItemOrigin(items, i);
        SortPutsKeysInOrder(items[i]);
      }
    case JObject(fields) =>
      SortFieldsMeaning(fields, []);
      AscendingIsInOrder(SortFields(fields));
      forall i | 0 <= i < |SortFields(fields)| ensures KeysInOrder(SortFields(fields)[i].value) {
        var j := SortedFieldOrigin(fields, i);
        SortPutsKeysInOrder(fields[j].value);
      }
    case _ =>
  }
}
