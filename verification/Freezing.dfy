/** Canonical hashable forms of JSON evidence (tools/oracle/parity.py:1103-1124).
    A number stands for its value, because Python's `==` identifies `True`, `1` and `1.0`. */
module Freezing {
  import opened Orders

  datatype Scalar = Null | Num(value: real) | Str(text: string)

  /** A JSON value; the entries of an object are in insertion order. */
  datatype Json = Leaf(scalar: Scalar) | List(items: seq<Json>) | Dict(entries: seq<Entry>)

  datatype Entry = Entry(key: string, value: Json)

  datatype Frozen = FrozenValue(scalar: Scalar) | FrozenList(items: seq<Frozen>) | FrozenDict(fields: seq<Field>)

  datatype Field = Field(key: string, value: Frozen)

  predicate DistinctKeys(entries: seq<Entry>) {
    forall i, j :: 0 <= i < j < |entries| ==> entries[i].key != entries[j].key
  }

  /** Every object has distinct keys, at every depth. */
  predicate WellFormed(v: Json) {
    match v
    case Leaf(_) => true
    case List(items) => forall i :: 0 <= i < |items| ==> WellFormed(items[i])
    case Dict(entries) =>
      && DistinctKeys(entries)
      && forall i :: 0 <= i < |entries| ==> WellFormed(entries[i].value)
  }

  /** Python's `==`: lists agree item by item, objects key by key in whatever order. */
  predicate JsonEq(v: Json, w: Json) {
    match v
    case Leaf(s) => w == Leaf(s)
    case List(items) =>
      && w.List? && |items| == |w.items|
      && forall i :: 0 <= i < |items| ==> JsonEq(items[i], w.items[i])
    case Dict(entries) =>
      && w.Dict? && |entries| == |w.entries|
      && forall i :: 0 <= i < |entries| ==>
           exists j :: 0 <= j < |w.entries| && w.entries[j].key == entries[i].key
                       && JsonEq(entries[i].value, w.entries[j].value)
  }

  function KeyOf(field: Field): string { field.key }

  function Freeze(v: Json): Frozen {
    match v
    case Leaf(s) => FrozenValue(s)
    case List(items) =>
      FrozenList(seq(|items|, i requires 0 <= i < |items| => Freeze(items[i])))
    case Dict(entries) =>
      FrozenDict(Sort(ByText(KeyOf), FreezeEntries(entries)))
  }

  function FreezeEntries(entries: seq<Entry>): seq<Field> {
    seq(|entries|, i requires 0 <= i < |entries| => Field(entries[i].key, Freeze(entries[i].value)))
  }

  function Thaw(f: Frozen): Json {
    match f
    case FrozenValue(s) => Leaf(s)
    case FrozenList(items) =>
      List(seq(|items|, i requires 0 <= i < |items| => Thaw(items[i])))
    case FrozenDict(fields) =>
      Dict(seq(|fields|, i requires 0 <= i < |fields| => Entry(fields[i].key, Thaw(fields[i].value))))
  }

  // ------------------------------------------------------- equality is frozen

  ghost predicate DistinctFields(fields: seq<Field>) {
    forall i, j :: 0 <= i < j < |fields| ==> fields[i].key != fields[j].key
  }

  lemma DistinctFieldsSeparate(fields: seq<Field>)
    requires DistinctFields(fields)
    ensures Separates(ByText(KeyOf), fields)
  {
    var leq := ByText(KeyOf);
    forall i, j | 0 <= i < |fields| && 0 <= j < |fields| && leq(fields[i], fields[j]) && leq(fields[j], fields[i])
      ensures fields[i] == fields[j]
    {
      TextLeqTotal(KeyOf(fields[i]), KeyOf(fields[j]));
      assert fields[i].key == fields[j].key;
    }
  }

  /** Two lists of fields with distinct keys sort alike exactly when each field of one is a field
      of the other and they are equally many. */
  lemma SortedFieldsAgree(a: seq<Field>, b: seq<Field>)
    requires DistinctFields(a) && DistinctFields(b)
    ensures Sort(ByText(KeyOf), a) == Sort(ByText(KeyOf), b)
            <==> |a| == |b| && forall i :: 0 <= i < |a| ==> a[i] in b
  {
    var leq := ByText(KeyOf);
    ByTextIsTotalPreorder(KeyOf);
    SortKeepsElements(leq, a);
    SortKeepsElements(leq, b);
    if Sort(leq, a) == Sort(leq, b) {
      SameElements(a, b);
    }
    if |a| == |b| && forall i :: 0 <= i < |a| ==> a[i] in b {
      DistinctFieldsInclude(a, b);
      DistinctFieldsSeparate(a);
      SortForgetsOrder(leq, a, b);
    }
  }

  lemma {:induction false} DistinctFieldsInclude(a: seq<Field>, b: seq<Field>)
    requires DistinctFields(a) && DistinctFields(b) && |a| == |b|
    requires forall i :: 0 <= i < |a| ==> a[i] in b
    ensures multiset(a) == multiset(b)
  {
    if a != [] {
      var k := IndexOfField(b, a[0]);
      WithoutFirst(a, b, k);
      DistinctFieldsInclude(a[1..], RemoveAt(b, k));
      RemoveAtElements(b, k);
      TailElements(a);
    }
  }

  lemma IndexOfField(b: seq<Field>, x: Field) returns (k: nat)
    requires x in b
    ensures k < |b| && b[k] == x
  {
    k :| 0 <= k < |b| && b[k] == x;
  }

  lemma WithoutFirst(a: seq<Field>, b: seq<Field>, k: nat)
    requires DistinctFields(a) && DistinctFields(b) && k < |b| && a != [] && b[k] == a[0]
    requires forall i :: 0 <= i < |a| ==> a[i] in b
    ensures DistinctFields(RemoveAt(b, k))
    ensures forall i :: 0 <= i < |a| - 1 ==> a[1..][i] in RemoveAt(b, k)
  {
    var rest := RemoveAt(b, k);
    forall i | 0 <= i < |a| - 1 ensures a[1..][i] in rest {
      var j := IndexOfField(b, a[i + 1]);
      assert rest[if j < k then j else j - 1] == a[i + 1];
    }
  }

  /** Freezing is canonical: values are equal exactly when their frozen forms are identical. */
  lemma {:induction false} FreezeIsCanonical(v: Json, w: Json)
    requires WellFormed(v) && WellFormed(w)
    ensures JsonEq(v, w) <==> Freeze(v) == Freeze(w)
    decreases v
  {
    if v.List? && w.List? && |v.items| == |w.items| {
      FreezeItemsCanonical(v, w);
    } else if v.Dict? && w.Dict? {
      FreezeDictCanonical(v, w);
    } else if v.List? && w.List? {
      assert |Freeze(v).items| == |v.items| && |Freeze(w).items| == |w.items|;
    }
  }

  lemma {:induction false} FreezeItemsCanonical(v: Json, w: Json)
    requires WellFormed(v) && WellFormed(w) && v.List? && w.List? && |v.items| == |w.items|
    ensures JsonEq(v, w) <==> Freeze(v) == Freeze(w)
    decreases v, 0
  {
    var a, b := Freeze(v).items, Freeze(w).items;
    forall i | 0 <= i < |v.items| ensures JsonEq(v.items[i], w.items[i]) <==> a[i] == b[i] {
      FreezeIsCanonical(v.items[i], w.items[i]);
    }
  }

  lemma {:induction false} FreezeDictCanonical(v: Json, w: Json)
    requires WellFormed(v) && WellFormed(w) && v.Dict? && w.Dict?
    ensures JsonEq(v, w) <==> Freeze(v) == Freeze(w)
    decreases v, 0
  {
    var es, fs := v.entries, w.entries;
    var a, b := FreezeEntries(es), FreezeEntries(fs);
    SortedFieldsAgree(a, b);
    forall i, j | 0 <= i < |es| && 0 <= j < |fs|
      ensures a[i] == b[j] <==> fs[j].key == es[i].key && JsonEq(es[i].value, fs[j].value)
    {
      FreezeIsCanonical(es[i].value, fs[j].value);
    }
  }

  // ------------------------------------------------------------- round trips

  /** The frozen forms: fields strictly sorted by key, at every depth. */
  ghost predicate Canonical(f: Frozen) {
    match f
    case FrozenValue(_) => true
    case FrozenList(items) => forall i :: 0 <= i < |items| ==> Canonical(items[i])
    case FrozenDict(fields) =>
      && Sorted(ByText(KeyOf), fields) && DistinctFields(fields)
      && forall i :: 0 <= i < |fields| ==> Canonical(fields[i].value)
  }

  lemma {:induction false} FreezeGivesCanonical(v: Json)
    requires WellFormed(v)
    ensures Canonical(Freeze(v))
  {
    match v
    case Leaf(_) =>
    case List(items) =>
      forall i | 0 <= i < |items| ensures Canonical(Freeze(items[i])) {
        FreezeGivesCanonical(items[i]);
      }
    case Dict(entries) =>
      var fields := FreezeEntries(entries);
      var leq := ByText(KeyOf);
      var sorted := Sort(leq, fields);
      ByTextIsTotalPreorder(KeyOf);
      SortSorts(leq, fields);
      SortKeepsElements(leq, fields);
      forall i | 0 <= i < |entries| ensures Canonical(fields[i].value) {
        FreezeGivesCanonical(entries[i].value);
      }
      SortSameElements(leq, fields);
      forall i | 0 <= i < |sorted| ensures Canonical(sorted[i].value) {
        assert sorted[i] in fields;
      }
      DistinctSurvives(fields, sorted);
  }

  /** Rearranging fields with distinct keys leaves the keys distinct. */
  lemma DistinctSurvives(a: seq<Field>, b: seq<Field>)
    requires DistinctFields(a) && multiset(a) == multiset(b)
    ensures DistinctFields(b)
  {
    var p := PermutationBetween(b, a);
    forall i, j | 0 <= i < j < |b| ensures b[i].key != b[j].key {
      assert p[i] != p[j];
      assert b[i] == a[p[i]] && b[j] == a[p[j]];
    }
  }

  /** Thawing a canonical form and freezing it again gives it back. */
  lemma {:induction false} FreezeThaw(f: Frozen)
    requires Canonical(f)
    ensures WellFormed(Thaw(f)) && Freeze(Thaw(f)) == f
  {
    match f
    case FrozenValue(_) =>
    case FrozenList(items) =>
      forall i | 0 <= i < |items|
        ensures WellFormed(Thaw(items[i])) && Freeze(Thaw(items[i])) == items[i]
      {
        FreezeThaw(items[i]);
      }
    case FrozenDict(fields) =>
      var entries := Thaw(f).entries;
      forall i | 0 <= i < |fields|
        ensures WellFormed(entries[i].value) && Freeze(entries[i].value) == fields[i].value
      {
        FreezeThaw(fields[i].value);
      }
      assert FreezeEntries(entries) == fields;
      ByTextIsTotalPreorder(KeyOf);
      SortOfSorted(ByText(KeyOf), fields);
  }

  /** Thawing a frozen value gives back an equal value. */
  lemma ThawFreeze(v: Json)
    requires WellFormed(v)
    ensures WellFormed(Thaw(Freeze(v))) && JsonEq(Thaw(Freeze(v)), v)
  {
    FreezeGivesCanonical(v);
    FreezeThaw(Freeze(v));
    FreezeIsCanonical(Thaw(Freeze(v)), v);
  }
}
