/** The canonical form of JSON documents that transactions are signed in. */
module SortJson {
  import opened Lexicographic
  import opened JsonOrder

  /** Numbers are given by the text JavaScript prints for them; the entries of an object come in enumeration
      order. */
  datatype Json =
    | Null
    | Bool(truth: bool)
    | Numeral(text: Str)
    | Text(units: Str)
    | Array(items: seq<Json>)
    | Object(entries: seq<Entry<Json>>)

  /** No object has the same key twice. */
  ghost predicate WellFormed(j: Json) {
    match j
    case Array(items) => forall i :: 0 <= i < |items| ==> WellFormed(items[i])
    case Object(entries) =>
      Distinct(entries) && forall i :: 0 <= i < |entries| ==> WellFormed(entries[i].value)
    case _ => true
  }

  ghost function Canonicalize(j: Json): Json
    requires WellFormed(j)
  {
    match j
    case Array(items) => Array(seq(|items|, i requires 0 <= i < |items| => Canonicalize(items[i])))
    case Object(entries) =>
      var sorted := seq(|entries|, i requires 0 <= i < |entries| =>
                          Entry(entries[i].key, Canonicalize(entries[i].value)));
      Object(SortObject(sorted))
    case _ => j
  }

  ghost function SortObject(entries: seq<Entry<Json>>): seq<Entry<Json>> {
    Fill(Sorted(Keys(entries)), entries)
  }

  /** The two documents are the same but for the order of keys in objects and for entries under hidden keys,
      at any depth. */
  ghost predicate Agree(a: Json, b: Json, hidden: set<Str>)
    decreases a
  {
    match (a, b)
    case (Array(s), Array(t)) => |s| == |t| && forall i :: 0 <= i < |s| ==> Agree(s[i], t[i], hidden)
    case (Object(s), Object(t)) =>
      && Keys(s) - hidden == Keys(t) - hidden
      && forall i, j :: 0 <= i < |s| && 0 <= j < |t| && s[i].key == t[j].key && s[i].key !in hidden ==>
           Agree(s[i].value, t[j].value, hidden)
    case _ => a == b
  }

  /** The two documents differ at most in the order of keys in objects. */
  ghost predicate Same(a: Json, b: Json) {
    Agree(a, b, {})
  }

  /** No object has the key "__proto__". */
  ghost predicate NoProto(j: Json) {
    match j
    case Array(items) => forall i :: 0 <= i < |items| ==> NoProto(items[i])
    case Object(entries) =>
      forall i :: 0 <= i < |entries| ==> entries[i].key != PROTO && NoProto(entries[i].value)
    case _ => true
  }

  // ----- what sorting one object does -----

  lemma SortObjectExact(entries: seq<Entry<Json>>)
    requires Distinct(entries)
    ensures Enumerated(SortObject(entries)) && Distinct(SortObject(entries))
    ensures forall x :: x in SortObject(entries) <==> x in entries && x.key != PROTO
  {
    FillElements(Sorted(Keys(entries)), entries);
    FillEnumerated(Sorted(Keys(entries)), entries);
    EnumeratedDistinct(SortObject(entries));
  }

  lemma SortObjectKeys(entries: seq<Entry<Json>>)
    requires Distinct(entries)
    ensures Keys(SortObject(entries)) == Keys(entries) - {PROTO}
  {
    SortObjectExact(entries);
    var sorted := SortObject(entries);
    assert forall i :: 0 <= i < |sorted| ==> sorted[i] in entries && sorted[i].key != PROTO;
    assert forall i :: 0 <= i < |entries| && entries[i].key != PROTO ==> entries[i] in sorted;
  }

  // ----- canonical form -----

  ghost function Values(entries: seq<Entry<Json>>): (r: seq<Entry<Json>>)
    requires WellFormed(Object(entries))
    ensures |r| == |entries| && Distinct(r) && Keys(r) == Keys(entries)
    ensures Canonicalize(Object(entries)) == Object(SortObject(r))
  {
    var r := seq(|entries|, i requires 0 <= i < |entries| => Entry(entries[i].key, Canonicalize(entries[i].value)));
    assert forall i :: 0 <= i < |entries| ==> r[i].key == entries[i].key;
    r
  }

  lemma {:induction false} AgreeHasSameForm(a: Json, b: Json)
    requires WellFormed(a) && WellFormed(b) && Agree(a, b, {PROTO})
    ensures Canonicalize(a) == Canonicalize(b)
    decreases a
  {
    if a.Array? {
      forall i | 0 <= i < |a.items| ensures Canonicalize(a.items[i]) == Canonicalize(b.items[i]) {
        AgreeHasSameForm(a.items[i], b.items[i]);
      }
    } else if a.Object? {
      var s, t := a.entries, b.entries;
      forall i, j | 0 <= i < |s| && 0 <= j < |t| && s[i].key == t[j].key != PROTO ensures Values(s)[i] == Values(t)[j] {
        AgreeHasSameForm(s[i].value, t[j].value);
      }
      SortObjectExact(Values(s));
      SortObjectExact(Values(t));
      SameEntries(s, t);
      SameEntries(t, s);
      EnumeratedUnique(SortObject(Values(s)), SortObject(Values(t)));
    }
  }

  lemma SameEntries(s: seq<Entry<Json>>, t: seq<Entry<Json>>)
    requires WellFormed(Object(s)) && WellFormed(Object(t)) && Keys(s) - {PROTO} == Keys(t) - {PROTO}
    requires forall i, j :: 0 <= i < |s| && 0 <= j < |t| && s[i].key == t[j].key != PROTO ==>
               Values(s)[i] == Values(t)[j]
    ensures forall x :: x in Values(s) && x.key != PROTO ==> x in Values(t)
  {
    forall i | 0 <= i < |s| && s[i].key != PROTO ensures Values(s)[i] in Values(t) {
      assert s[i].key in Keys(s) - {PROTO};
    }
  }

  lemma {:induction false} SameFormAgrees(a: Json, b: Json)
    requires WellFormed(a) && WellFormed(b) && Canonicalize(a) == Canonicalize(b)
    ensures Agree(a, b, {PROTO})
    decreases a
  {
    if a.Array? {
      forall i | 0 <= i < |a.items| ensures Agree(a.items[i], b.items[i], {PROTO}) {
        assert Canonicalize(a).items[i] == Canonicalize(b).items[i];
        SameFormAgrees(a.items[i], b.items[i]);
      }
    } else if a.Object? {
      var s, t := a.entries, b.entries;
      SortObjectExact(Values(s));
      SortObjectExact(Values(t));
      SortObjectKeys(Values(s));
      SortObjectKeys(Values(t));
      var sorted := SortObject(Values(s));
      forall i, j | 0 <= i < |s| && 0 <= j < |t| && s[i].key == t[j].key != PROTO
        ensures Agree(s[i].value, t[j].value, {PROTO})
      {
        assert Values(s)[i] in sorted && Values(t)[j] in sorted;
        assert Values(s)[i] == Values(t)[j];
        SameFormAgrees(s[i].value, t[j].value);
      }
    }
  }

  lemma {:induction false} AgreeIsSame(a: Json, b: Json)
    requires NoProto(a) && NoProto(b)
    ensures Agree(a, b, {PROTO}) <==> Same(a, b)
    decreases a
  {
    if a.Array? && b.Array? && |a.items| == |b.items| {
      forall i | 0 <= i < |a.items| ensures Agree(a.items[i], b.items[i], {PROTO}) <==> Same(a.items[i], b.items[i]) {
        AgreeIsSame(a.items[i], b.items[i]);
      }
    } else if a.Object? && b.Object? {
      var s, t := a.entries, b.entries;
      assert Keys(s) - {PROTO} == Keys(s) - {} && Keys(t) - {PROTO} == Keys(t) - {};
      forall i, j | 0 <= i < |s| && 0 <= j < |t|
        ensures Agree(s[i].value, t[j].value, {PROTO}) <==> Agree(s[i].value, t[j].value, {})
      {
        AgreeIsSame(s[i].value, t[j].value);
      }
    }
  }

  /** Two documents have one canonical form exactly when they differ only in key order and in what "__proto__"
      hides; without that key, exactly when they differ only in key order. */
  lemma CanonicalForm(a: Json, b: Json)
    requires WellFormed(a) && WellFormed(b)
    ensures Canonicalize(a) == Canonicalize(b) <==> Agree(a, b, {PROTO})
    ensures NoProto(a) && NoProto(b) ==> (Canonicalize(a) == Canonicalize(b) <==> Same(a, b))
  {
    if Agree(a, b, {PROTO}) {
      AgreeHasSameForm(a, b);
    } else if Canonicalize(a) == Canonicalize(b) {
      SameFormAgrees(a, b);
    }
    if NoProto(a) && NoProto(b) {
      AgreeIsSame(a, b);
    }
  }

  // ----- what canonicalizing changes -----

  ghost predicate Reordered(c: Json, j: Json) {
    WellFormed(c) && NoProto(c) && Agree(c, j, {PROTO})
  }

  /** Canonicalizing reorders keys and drops what "__proto__" hides; in particular arrays keep their order. */
  lemma {:induction false} OnlyReorders(j: Json)
    requires WellFormed(j)
    ensures Reordered(Canonicalize(j), j)
  {
    if j.Array? {
      forall i | 0 <= i < |j.items| ensures Reordered(Canonicalize(j).items[i], j.items[i]) {
        OnlyReorders(j.items[i]);
      }
    } else if j.Object? {
      forall i | 0 <= i < |j.entries| ensures Reordered(Values(j.entries)[i].value, j.entries[i].value) {
        OnlyReorders(j.entries[i].value);
      }
      ObjectStaysWellFormed(j.entries);
      ObjectReordered(j.entries);
    }
  }

  lemma ObjectStaysWellFormed(entries: seq<Entry<Json>>)
    requires WellFormed(Object(entries))
    requires forall i :: 0 <= i < |entries| ==> Reordered(Values(entries)[i].value, entries[i].value)
    ensures WellFormed(Object(SortObject(Values(entries)))) && NoProto(Object(SortObject(Values(entries))))
  {
    var values := Values(entries);
    var sorted := SortObject(values);
    SortObjectExact(values);
    forall i | 0 <= i < |sorted|
      ensures WellFormed(sorted[i].value) && sorted[i].key != PROTO && NoProto(sorted[i].value)
    {
      assert sorted[i] in sorted;
      var k :| 0 <= k < |values| && values[k] == sorted[i];
      assert Reordered(values[k].value, entries[k].value);
    }
  }

  lemma ObjectReordered(entries: seq<Entry<Json>>)
    requires WellFormed(Object(entries))
    requires forall i :: 0 <= i < |entries| ==> Reordered(Values(entries)[i].value, entries[i].value)
    ensures Agree(Object(SortObject(Values(entries))), Object(entries), {PROTO})
  {
    var values := Values(entries);
    var sorted := SortObject(values);
    SortObjectExact(values);
    SortObjectKeys(values);
    forall i, k | 0 <= i < |sorted| && 0 <= k < |entries| && sorted[i].key == entries[k].key
      ensures Agree(sorted[i].value, entries[k].value, {PROTO})
    {
      assert sorted[i] in sorted;
      assert values[k] == sorted[i];
      assert Reordered(values[k].value, entries[k].value);
    }
  }

  lemma Idempotent(j: Json)
    requires WellFormed(j)
    ensures WellFormed(Canonicalize(j)) && Canonicalize(Canonicalize(j)) == Canonicalize(j)
  {
    OnlyReorders(j);
    AgreeHasSameForm(Canonicalize(j), j);
  }

  lemma {:induction false} SameKeepsProto(a: Json, b: Json)
    requires NoProto(a) && Same(a, b)
    ensures NoProto(b)
    decreases a
  {
    if a.Array? {
      forall i | 0 <= i < |b.items| ensures NoProto(b.items[i]) {
        SameKeepsProto(a.items[i], b.items[i]);
      }
    } else if a.Object? {
      var s, t := a.entries, b.entries;
      forall j | 0 <= j < |t| ensures t[j].key != PROTO && NoProto(t[j].value) {
        assert t[j].key in Keys(t) - {};
        var i :| 0 <= i < |s| && s[i].key == t[j].key;
        SameKeepsProto(s[i].value, t[j].value);
      }
    }
  }

  /** The canonical form is the document up to key order exactly when no object has the key "__proto__". */
  lemma ReordersExactly(j: Json)
    requires WellFormed(j)
    ensures Same(Canonicalize(j), j) <==> NoProto(j)
  {
    OnlyReorders(j);
    if NoProto(j) {
      AgreeIsSame(Canonicalize(j), j);
    } else if Same(Canonicalize(j), j) {
      SameKeepsProto(Canonicalize(j), j);
    }
  }

  /** Every document with a key "__proto__" shares its canonical form with a different one without. */
  lemma ProtoCollides(j: Json)
    requires WellFormed(j) && !NoProto(j)
    ensures var other := Canonicalize(j);
            && WellFormed(other) && NoProto(other) && !Same(other, j)
            && Canonicalize(other) == Canonicalize(j)
  {
    OnlyReorders(j);
    Idempotent(j);
    ReordersExactly(j);
  }

  // ----- when the keys of the result come out sorted -----

  ghost function KeySeq(entries: seq<Entry<Json>>): (keys: seq<Str>)
    ensures forall k :: k in keys <==> k in Keys(entries)
  {
    var keys := seq(|entries|, i requires 0 <= i < |entries| => entries[i].key);
    assert forall i :: 0 <= i < |entries| ==> keys[i] in Keys(entries);
    assert forall i :: 0 <= i < |entries| ==> entries[i].key == keys[i];
    keys
  }

  /** Every key that is an array index sorts before the larger indices and before all names. */
  ghost predicate IndicesSort(keys: set<Str>) {
    forall a, b :: a in keys && b in keys && IsIndex(a) && Precedes(a, b) ==> Less(a, b)
  }

  ghost predicate KeysSorted(entries: seq<Entry<Json>>) {
    KeySeq(entries) == Sorted(Keys(entries))
  }

  lemma EnumeratedSorted(entries: seq<Entry<Json>>)
    requires Enumerated(entries)
    ensures KeysSorted(entries) <==> IndicesSort(Keys(entries))
  {
    var keys := KeySeq(entries);
    if IndicesSort(Keys(entries)) {
      forall i, j | 0 <= i < j < |keys| ensures Less(keys[i], keys[j]) {
        assert Precedes(entries[i].key, entries[j].key) && keys[i] in keys && keys[j] in keys;
      }
      AscendingUnique(keys, Sorted(Keys(entries)));
    }
    if KeysSorted(entries) {
      forall a, b | a in Keys(entries) && b in Keys(entries) && IsIndex(a) && Precedes(a, b) ensures Less(a, b) {
        var i :| 0 <= i < |entries| && entries[i].key == a;
        var j :| 0 <= j < |entries| && entries[j].key == b;
        PrecedesIrreflexive(a);
        if j < i {
          PrecedesTransitive(a, b, a);
        }
        assert Less(keys[i], keys[j]);
      }
    }
  }

  ghost predicate SortedThroughout(j: Json) {
    match j
    case Array(items) => forall i :: 0 <= i < |items| ==> SortedThroughout(items[i])
    case Object(entries) => KeysSorted(entries) && forall i :: 0 <= i < |entries| ==> SortedThroughout(entries[i].value)
    case _ => true
  }

  ghost predicate IndicesSortThroughout(j: Json) {
    match j
    case Array(items) => forall i :: 0 <= i < |items| ==> IndicesSortThroughout(items[i])
    case Object(entries) =>
      && IndicesSort(Keys(entries) - {PROTO})
      && forall i :: 0 <= i < |entries| && entries[i].key != PROTO ==> IndicesSortThroughout(entries[i].value)
    case _ => true
  }

  /** The canonical form has its keys sorted exactly where no key that is an array index sorts elsewhere. */
  lemma {:induction false} SortedExactly(j: Json)
    requires WellFormed(j)
    ensures SortedThroughout(Canonicalize(j)) <==> IndicesSortThroughout(j)
  {
    if j.Array? {
      forall i | 0 <= i < |j.items|
        ensures SortedThroughout(Canonicalize(j).items[i]) <==> IndicesSortThroughout(j.items[i])
      {
        SortedExactly(j.items[i]);
      }
    } else if j.Object? {
      forall i | 0 <= i < |j.entries|
        ensures SortedThroughout(Values(j.entries)[i].value) <==> IndicesSortThroughout(j.entries[i].value)
      {
        SortedExactly(j.entries[i].value);
      }
      ObjectSortedExactly(j.entries);
    }
  }

  ghost predicate ValuesSorted(entries: seq<Entry<Json>>) {
    forall x :: x in entries && x.key != PROTO ==> SortedThroughout(x.value)
  }

  lemma SortedByParts(entries: seq<Entry<Json>>)
    requires forall x :: x in entries ==> x.key != PROTO
    ensures SortedThroughout(Object(entries)) <==> KeysSorted(entries) && ValuesSorted(entries)
  {
    assert forall i :: 0 <= i < |entries| ==> entries[i] in entries;
  }

  lemma ValuesSortedExactly(entries: seq<Entry<Json>>)
    requires WellFormed(Object(entries))
    requires forall i :: 0 <= i < |entries| ==>
               (SortedThroughout(Values(entries)[i].value) <==> IndicesSortThroughout(entries[i].value))
    ensures ValuesSorted(Values(entries)) <==>
            forall i :: 0 <= i < |entries| && entries[i].key != PROTO ==> IndicesSortThroughout(entries[i].value)
  {
    var values := Values(entries);
    assert forall i :: 0 <= i < |entries| ==> values[i] in values && values[i].key == entries[i].key;
  }

  lemma ObjectSortedExactly(entries: seq<Entry<Json>>)
    requires WellFormed(Object(entries))
    requires forall i :: 0 <= i < |entries| ==>
               (SortedThroughout(Values(entries)[i].value) <==> IndicesSortThroughout(entries[i].value))
    ensures SortedThroughout(Object(SortObject(Values(entries)))) <==> IndicesSortThroughout(Object(entries))
  {
    var values := Values(entries);
    var sorted := SortObject(values);
    SortObjectExact(values);
    SortObjectKeys(values);
    EnumeratedSorted(sorted);
    SortedByParts(sorted);
    ValuesSortedExactly(entries);
    assert ValuesSorted(sorted) <==> ValuesSorted(values);
  }

  lemma NineAndTen()
    ensures IsIndex([57]) && IsIndex([49, 48]) && Precedes([57], [49, 48]) && !Less([57], [49, 48])
  {
    assert [57][..0] == [] && [49, 48][..1] == [49] && [49][..0] == [];
    assert Number([57]) == 9 && Number([49]) == 1 && Number([49, 48]) == 10;
  }

  /** The keys "9" and "10" come out in the order of their values, not in sort order. */
  lemma IndexKeysUnsorted(x: Json, y: Json)
    requires WellFormed(x) && WellFormed(y)
    ensures var j := Object([Entry([57], x), Entry([49, 48], y)]);
            WellFormed(j) && !SortedThroughout(Canonicalize(j))
  {
    var entries := [Entry([57], x), Entry([49, 48], y)];
    assert forall i :: 0 <= i < |entries| ==> WellFormed(entries[i].value);
    NineAndTen();
    assert entries[0].key in Keys(entries) - {PROTO} && entries[1].key in Keys(entries) - {PROTO};
    SortedExactly(Object(entries));
  }
}
