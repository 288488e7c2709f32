/**
 Canonical JSON: json.dumps with sorted keys and compact separators. Keys sort by code point,
 which is Python's string order and not the UTF-16 order of section 3.2.3 of RFC 8785.
 */
module Canonical {
  import opened Wrappers
  import opened JsonText
  import opened Json

  // ----- The order of keys -----

  predicate Before(a: string, b: string) {
    b != "" && (a == "" || a[0] < b[0] || (a[0] == b[0] && Before(a[1..], b[1..])))
  }

  /** The texts agree up to position `n`, where `a` ends or has the smaller code point. */
  ghost predicate Differ(a: string, b: string, n: nat) {
    n <= |a| && n < |b| && a[..n] == b[..n] && (n == |a| || a[n] < b[n])
  }

  /** The order is that of Python's strings: by the first difference, a prefix first. */
  lemma {:induction false} BeforeExactly(a: string, b: string)
    ensures Before(a, b) <==> exists n: nat :: Differ(a, b, n)
  {
    if Before(a, b) {
      if a == "" || a[0] < b[0] {
        assert Differ(a, b, 0);
      } else {
        BeforeExactly(a[1..], b[1..]);
        var n: nat :| Differ(a[1..], b[1..], n);
        assert a[..n + 1] == [a[0]] + a[1..][..n] && b[..n + 1] == [b[0]] + b[1..][..n];
        assert Differ(a, b, n + 1);
      }
    }
    if n: nat :| Differ(a, b, n) {
      if n > 0 {
        assert a[0] == a[..n][0] && b[0] == b[..n][0];
        assert a[1..][..n - 1] == a[..n][1..] && b[1..][..n - 1] == b[..n][1..];
        assert Differ(a[1..], b[1..], n - 1);
        BeforeExactly(a[1..], b[1..]);
      }
    }
  }

  lemma {:induction false} BeforeTransitive(a: string, b: string, c: string)
    requires Before(a, b) && Before(b, c)
    ensures Before(a, c)
  {
    if a != "" && a[0] == b[0] && b[0] == c[0] {
      BeforeTransitive(a[1..], b[1..], c[1..]);
    }
  }

  lemma {:induction false} BeforeIrreflexive(a: string)
    ensures !Before(a, a)
  {
    if a != "" { BeforeIrreflexive(a[1..]); }
  }

  lemma {:induction false} BeforeTotal(a: string, b: string)
    ensures a == b || Before(a, b) || Before(b, a)
  {
    if a != "" && b != "" && a[0] == b[0] {
      BeforeTotal(a[1..], b[1..]);
      if a[1..] == b[1..] {
        assert a == [a[0]] + a[1..] && b == [b[0]] + b[1..];
      }
    }
  }

  ghost predicate Ascending(fs: Fields) {
    forall i, j :: 0 <= i < j < |fs| ==> Before(fs[i].key, fs[j].key)
  }

  // ----- Sorting -----

  function Insert(f: Field, fs: Fields): Fields {
    if fs == [] || !Before(fs[0].key, f.key) then [f] + fs
    else [fs[0]] + Insert(f, fs[1..])
  }

  function SortFields(fs: Fields): Fields {
    if fs == [] then [] else Insert(fs[0], SortFields(fs[1..]))
  }

  /** The value json.dumps(sort_keys=True) prints: keys sorted at every depth. */
  function SortDeep(v: Json): Json
    decreases v, 1
  {
    match v
    case Arr(items) => Arr(SortItems(items))
    case Obj(fields) => Obj(SortFields(SortValues(fields)))
    case _ => v
  }

  function SortItems(items: seq<Json>): (r: seq<Json>)
    ensures |r| == |items| && forall i :: 0 <= i < |r| ==> r[i] == SortDeep(items[i])
    decreases items, 0
  {
    if items == [] then [] else [SortDeep(items[0])] + SortItems(items[1..])
  }

  function SortValues(fs: Fields): (r: Fields)
    ensures |r| == |fs|
    ensures forall i :: 0 <= i < |r| ==> r[i] == Field(fs[i].key, SortDeep(fs[i].value))
    decreases fs, 0
  {
    if fs == [] then [] else [Field(fs[0].key, SortDeep(fs[0].value))] + SortValues(fs[1..])
  }

  function Canonicalize(v: Json): string {
    Print(PythonDumps, SortDeep(v))
  }

  // ----- What sorting does to one object -----

  lemma {:induction false} InsertMembers(f: Field, fs: Fields, g: Field)
    ensures g in Insert(f, fs) <==> g == f || g in fs
  {
    if fs != [] && Before(fs[0].key, f.key) {
      InsertMembers(f, fs[1..], g);
      assert fs == [fs[0]] + fs[1..];
    }
  }

  lemma {:induction false} SortMembers(fs: Fields, g: Field)
    ensures g in SortFields(fs) <==> g in fs
  {
    if fs != [] {
      SortMembers(fs[1..], g);
      InsertMembers(fs[0], SortFields(fs[1..]), g);
      assert fs == [fs[0]] + fs[1..];
    }
  }

  lemma {:induction false} InsertAscending(f: Field, fs: Fields)
    requires Ascending(fs) && forall g :: g in fs ==> g.key != f.key
    ensures Ascending(Insert(f, fs))
  {
    if fs != [] {
      BeforeTotal(f.key, fs[0].key);
      assert fs[0] in fs;
      if Before(fs[0].key, f.key) {
        forall g | g in fs[1..] ensures g in fs && Before(fs[0].key, g.key) {
          var i :| 0 <= i < |fs[1..]| && fs[1..][i] == g;
          assert g == fs[i + 1];
        }
        InsertAscending(f, fs[1..]);
        var rest := Insert(f, fs[1..]);
        forall i | 0 <= i < |rest| ensures Before(fs[0].key, rest[i].key) {
          InsertMembers(f, fs[1..], rest[i]);
        }
      } else {
        forall j | 0 <= j < |fs| ensures Before(f.key, fs[j].key) {
          if j > 0 { BeforeTransitive(f.key, fs[0].key, fs[j].key); }
        }
      }
    }
  }

  lemma {:induction false} SortAscending(fs: Fields)
    requires DistinctKeys(fs)
    ensures Ascending(SortFields(fs))
  {
    if fs != [] {
      SortAscending(fs[1..]);
      forall g | g in SortFields(fs[1..]) ensures g.key != fs[0].key {
        SortMembers(fs[1..], g);
        var i :| 0 <= i < |fs[1..]| && fs[1..][i] == g;
        assert g == fs[i + 1];
      }
      InsertAscending(fs[0], SortFields(fs[1..]));
    }
  }

  lemma {:induction false} AscendingDistinct(fs: Fields)
    requires Ascending(fs)
    ensures DistinctKeys(fs)
  {
    forall i, j | 0 <= i < j < |fs| ensures fs[i].key != fs[j].key {
      BeforeIrreflexive(fs[i].key);
    }
  }

  /** A strictly sorted list is determined by its members. */
  lemma {:induction false} AscendingUnique(a: Fields, b: Fields)
    requires Ascending(a) && Ascending(b)
    requires forall f :: f in a <==> f in b
    ensures a == b
  {
    if a == [] {
      FirstIsMember(b);
    } else {
      assert a[0] in a && a[0] in b;
      assert b[0] in b && b[0] in a;
      FirstIsLeast(a, b[0]);
      FirstIsLeast(b, a[0]);
      if a[0] != b[0] {
        BeforeTransitive(a[0].key, b[0].key, a[0].key);
        BeforeIrreflexive(a[0].key);
      }
      assert a == [a[0]] + a[1..] && b == [b[0]] + b[1..];
      forall f ensures f in a[1..] <==> f in b[1..] {
        NotFirst(a, f);
        NotFirst(b, f);
      }
      AscendingUnique(a[1..], b[1..]);
    }
  }

  lemma {:induction false} FirstIsMember(b: Fields)
    ensures b == [] || b[0] in b
  {
  }

  lemma {:induction false} FirstIsLeast(a: Fields, f: Field)
    requires Ascending(a) && f in a
    ensures f == a[0] || Before(a[0].key, f.key)
  {
  }

  lemma {:induction false} NotFirst(a: Fields, f: Field)
    requires Ascending(a) && a != []
    ensures f in a[1..] <==> f in a && f != a[0]
  {
    AscendingDistinct(a);
    if f in a[1..] {
      var i :| 0 <= i < |a[1..]| && a[1..][i] == f;
      assert f == a[i + 1];
    }
    if f in a && f != a[0] {
      var i :| 0 <= i < |a| && a[i] == f;
      assert f == a[1..][i - 1];
    }
  }

  // ----- Equality up to key order -----

  /** Python's == on the JSON values: key order is irrelevant, everything else is exact. */
  ghost predicate Alike(v: Json, w: Json)
    decreases v
  {
    if v.Arr? && w.Arr? then
      && |v.items| == |w.items|
      && forall i :: 0 <= i < |v.items| ==> Alike(v.items[i], w.items[i])
    else if v.Obj? && w.Obj? then
      && (forall k :: HasKey(v.fields, k) <==> HasKey(w.fields, k))
      && (forall i, j :: 0 <= i < |v.fields| && 0 <= j < |w.fields| ==>
            (v.fields[i].key == w.fields[j].key ==> Alike(v.fields[i].value, w.fields[j].value)))
    else v == w
  }

  ghost predicate SortedKeys(v: Json) {
    match v
    case Arr(items) => forall i :: 0 <= i < |items| ==> SortedKeys(items[i])
    case Obj(fields) =>
      && Ascending(fields)
      && forall i :: 0 <= i < |fields| ==> SortedKeys(fields[i].value)
    case _ => true
  }

  /** SortDeep of an object: exactly the fields with sorted values, in strictly ascending order. */
  lemma {:induction false} SortedObject(fs: Fields)
    requires DistinctKeys(fs)
    ensures Ascending(SortFields(SortValues(fs)))
    ensures forall g :: g in SortFields(SortValues(fs)) <==>
              exists i :: 0 <= i < |fs| && g == Field(fs[i].key, SortDeep(fs[i].value))
  {
    SortAscending(SortValues(fs));
    forall g ensures g in SortFields(SortValues(fs)) <==>
                     exists i :: 0 <= i < |fs| && g == Field(fs[i].key, SortDeep(fs[i].value))
    {
      SortMembers(SortValues(fs), g);
    }
  }

  lemma {:induction false} SortDeepShape(v: Json)
    requires Plain(v)
    ensures Plain(SortDeep(v)) && SortedKeys(SortDeep(v))
    decreases v
  {
    match v
    case Arr(items) =>
      forall i | 0 <= i < |items| ensures Plain(SortDeep(items[i])) && SortedKeys(SortDeep(items[i])) {
        SortDeepShape(items[i]);
      }
    case Obj(fs) =>
      SortedObject(fs);
      var sorted := SortFields(SortValues(fs));
      AscendingDistinct(sorted);
      forall j | 0 <= j < |sorted| ensures Plain(sorted[j].value) && SortedKeys(sorted[j].value) {
        assert sorted[j] in sorted;
        var i :| 0 <= i < |fs| && sorted[j] == Field(fs[i].key, SortDeep(fs[i].value));
        SortDeepShape(fs[i].value);
      }
    case _ =>
  }

  lemma {:induction false} AlikeSorts(v: Json, w: Json)
    requires Plain(v) && Plain(w)
    ensures Alike(v, w) <==> SortDeep(v) == SortDeep(w)
    decreases v
  {
    if v.Arr? && w.Arr? {
      AlikeArrays(v.items, w.items);
    } else if v.Obj? && w.Obj? {
      forall i, j | 0 <= i < |v.fields| && 0 <= j < |w.fields|
        ensures Alike(v.fields[i].value, w.fields[j].value)
           <==> SortDeep(v.fields[i].value) == SortDeep(w.fields[j].value)
      {
        AlikeSorts(v.fields[i].value, w.fields[j].value);
      }
      SortedObjectsEqual(v.fields, w.fields);
    }
  }

  lemma {:induction false} AlikeArrays(a: seq<Json>, b: seq<Json>)
    requires forall i :: 0 <= i < |a| ==> Plain(a[i])
    requires forall i :: 0 <= i < |b| ==> Plain(b[i])
    ensures Alike(Arr(a), Arr(b)) <==> SortItems(a) == SortItems(b)
    decreases a
  {
    if |a| == |b| {
      forall i | 0 <= i < |a| ensures Alike(a[i], b[i]) <==> SortItems(a)[i] == SortItems(b)[i] {
        AlikeSorts(a[i], b[i]);
      }
    }
  }

  ghost predicate SameSortedFields(a: Fields, b: Fields) {
    && (forall k :: HasKey(a, k) <==> HasKey(b, k))
    && forall i, j :: 0 <= i < |a| && 0 <= j < |b| ==>
         (a[i].key == b[j].key ==> SortDeep(a[i].value) == SortDeep(b[j].value))
  }

  /** Two sorted objects agree exactly when keys agree and values under one key sort alike. */
  lemma {:induction false} SortedObjectsEqual(a: Fields, b: Fields)
    requires DistinctKeys(a) && DistinctKeys(b)
    ensures SortFields(SortValues(a)) == SortFields(SortValues(b)) <==> SameSortedFields(a, b)
  {
    if SortFields(SortValues(a)) == SortFields(SortValues(b)) {
      SortedEqualMeansSame(a, b);
    }
    if SameSortedFields(a, b) {
      SameMeansSortedEqual(a, b);
    }
  }

  lemma {:induction false} SortedEqualMeansSame(a: Fields, b: Fields)
    requires DistinctKeys(a) && DistinctKeys(b)
    requires SortFields(SortValues(a)) == SortFields(SortValues(b))
    ensures SameSortedFields(a, b)
  {
    forall i | 0 <= i < |a| ensures exists j :: 0 <= j < |b| && SameField(a[i], b[j]) {
      SortedContains(a, b, i);
    }
    forall j | 0 <= j < |b| ensures exists i :: 0 <= i < |a| && SameField(a[i], b[j]) {
      SortedContains(b, a, j);
      var i :| 0 <= i < |a| && SameField(b[j], a[i]);
      assert SameField(a[i], b[j]);
    }
    SameFieldsEachWay(a, b);
  }

  lemma {:induction false} SortedContains(a: Fields, b: Fields, i: nat)
    requires i < |a|
    requires SortFields(SortValues(a)) == SortFields(SortValues(b))
    ensures exists j :: 0 <= j < |b| && SameField(a[i], b[j])
  {
    var g := SortValues(a)[i];
    SortShares(SortValues(a), SortValues(b), g);
    var j :| 0 <= j < |b| && SortValues(b)[j] == g;
    assert SameField(a[i], b[j]);
  }

  lemma {:induction false} SortShares(p: Fields, q: Fields, g: Field)
    requires SortFields(p) == SortFields(q) && g in p
    ensures g in q
  {
    SortMembers(p, g);
    SortMembers(q, g);
  }

  lemma {:induction false} SameMeansSortedEqual(a: Fields, b: Fields)
    requires DistinctKeys(a) && DistinctKeys(b) && SameSortedFields(a, b)
    ensures SortFields(SortValues(a)) == SortFields(SortValues(b))
  {
    SortAscending(SortValues(a));
    SortAscending(SortValues(b));
    forall g ensures g in SortFields(SortValues(a)) <==> g in SortFields(SortValues(b)) {
      SortMembers(SortValues(a), g);
      SortMembers(SortValues(b), g);
      SameMembers(a, b, g);
    }
    AscendingUnique(SortFields(SortValues(a)), SortFields(SortValues(b)));
  }

  lemma {:induction false} SameMembers(a: Fields, b: Fields, g: Field)
    requires SameSortedFields(a, b)
    ensures g in SortValues(a) <==> g in SortValues(b)
  {
    if g in SortValues(a) {
      var i :| 0 <= i < |a| && SortValues(a)[i] == g;
      assert HasKey(b, a[i].key);
      var j :| 0 <= j < |b| && b[j].key == a[i].key;
      assert SortValues(b)[j] == g;
    }
    if g in SortValues(b) {
      var j :| 0 <= j < |b| && SortValues(b)[j] == g;
      assert HasKey(a, b[j].key);
      var i :| 0 <= i < |a| && a[i].key == b[j].key;
      assert SortValues(a)[i] == g;
    }
  }

  lemma {:induction false} SameFieldsEachWay(a: Fields, b: Fields)
    requires DistinctKeys(a) && DistinctKeys(b)
    requires forall i :: 0 <= i < |a| ==> exists j :: 0 <= j < |b| && SameField(a[i], b[j])
    requires forall j :: 0 <= j < |b| ==> exists i :: 0 <= i < |a| && SameField(a[i], b[j])
    ensures SameSortedFields(a, b)
  {
  }

  ghost predicate SameField(f: Field, g: Field) {
    f.key == g.key && SortDeep(f.value) == SortDeep(g.value)
  }

  // ----- The main results -----

  /** Canonical text reads back as the value with its keys sorted at every depth. */
  lemma {:induction false} CanonicalInverse(v: Json)
    requires Plain(v)
    ensures Loads(Canonicalize(v)) == Some(SortDeep(v))
    ensures SortedKeys(SortDeep(v)) && Alike(v, SortDeep(v))
  {
    SortDeepShape(v);
    LoadsPrint(PythonDumps, SortDeep(v));
    SortDeepIdempotent(v);
    AlikeSorts(v, SortDeep(v));
  }

  /** Two values print alike exactly when they are equal up to key order at every depth. */
  lemma {:induction false} CanonicalExactly(v: Json, w: Json)
    requires Plain(v) && Plain(w)
    ensures Canonicalize(v) == Canonicalize(w) <==> Alike(v, w)
  {
    CanonicalInverse(v);
    CanonicalInverse(w);
    AlikeSorts(v, w);
  }

  lemma {:induction false} SortDeepIdempotent(v: Json)
    requires Plain(v)
    ensures SortDeep(SortDeep(v)) == SortDeep(v)
  {
    SortDeepShape(v);
    SortDeepFixed(SortDeep(v));
  }

  lemma {:induction false} SortDeepFixed(v: Json)
    requires Plain(v) && SortedKeys(v)
    ensures SortDeep(v) == v
    decreases v
  {
    match v
    case Arr(items) =>
      forall i | 0 <= i < |items| ensures SortDeep(items[i]) == items[i] { SortDeepFixed(items[i]); }
      assert SortItems(items) == items;
    case Obj(fs) =>
      forall i | 0 <= i < |fs| ensures SortDeep(fs[i].value) == fs[i].value { SortDeepFixed(fs[i].value); }
      assert SortValues(fs) == fs;
      SortAscending(fs);
      forall g ensures g in SortFields(fs) <==> g in fs { SortMembers(fs, g); }
      AscendingUnique(SortFields(fs), fs);
    case _ =>
  }
}
