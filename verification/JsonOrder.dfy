/** How JavaScript objects are filled by assignment and enumerated: array indices first, by value, then the
    other keys as they were added. */
module JsonOrder {
  import opened Lexicographic

  predicate IsDigits(s: Str) {
    forall i :: 0 <= i < |s| ==> 48 <= s[i] <= 57
  }

  /** The value of a string of decimal digits. */
  function Number(s: Str): int {
    if s == [] then 0 else 10 * Number(s[..|s| - 1]) + s[|s| - 1] - 48
  }

  /** Digits without a leading zero: the text JavaScript prints for a number. */
  predicate Canonical(s: Str) {
    s != [] && IsDigits(s) && (s[0] != 48 || |s| == 1)
  }

  const MAX_INDEX: nat := 0xffff_fffe

  /** A canonical array index, a number below 2^32 - 1. */
  predicate IsIndex(key: Str) {
    Canonical(key) && Number(key) <= MAX_INDEX
  }

  lemma {:induction false} CanonicalBounds(s: Str)
    requires Canonical(s)
    ensures Number(s) >= if s == [48] then 0 else if |s| == 1 then 1 else 10
  {
    var front := s[..|s| - 1];
    if |s| > 1 {
      CanonicalBounds(front);
    } else {
      assert front == [];
    }
  }

  /** Canonical digits are determined by their value. */
  lemma {:induction false} CanonicalUnique(s: Str, t: Str)
    requires Canonical(s) && Canonical(t) && Number(s) == Number(t)
    ensures s == t
  {
    CanonicalBounds(s);
    CanonicalBounds(t);
    var m, n := |s| - 1, |t| - 1;
    assert s == s[..m] + [s[m]] && t == t[..n] + [t[n]];
    assert (m == 0 ==> s[..m] == []) && (n == 0 ==> t[..n] == []);
    if m > 0 && n > 0 {
      CanonicalUnique(s[..m], t[..n]);
    }
  }

  /** How two keys of an object filled in ascending key order are enumerated. */
  predicate Precedes(a: Str, b: Str) {
    if IsIndex(a) && IsIndex(b) then Number(a) < Number(b)
    else if IsIndex(a) || IsIndex(b) then IsIndex(a)
    else Less(a, b)
  }

  lemma PrecedesTransitive(a: Str, b: Str, c: Str)
    requires Precedes(a, b) && Precedes(b, c)
    ensures Precedes(a, c)
  {
    if !IsIndex(a) && !IsIndex(b) && !IsIndex(c) {
      LessTransitive(a, b, c);
    }
  }

  lemma PrecedesIrreflexive(a: Str)
    ensures !Precedes(a, a)
  {
    LessIrreflexive(a);
  }

  lemma PrecedesTotal(a: Str, b: Str)
    ensures a == b || Precedes(a, b) || Precedes(b, a)
  {
    LessTotal(a, b);
    if IsIndex(a) && IsIndex(b) && Number(a) == Number(b) {
      CanonicalUnique(a, b);
    }
  }

  datatype Entry<V> = Entry(key: Str, value: V)

  ghost function Keys<V>(entries: seq<Entry<V>>): set<Str> {
    set i | 0 <= i < |entries| :: entries[i].key
  }

  ghost predicate Enumerated<V>(entries: seq<Entry<V>>) {
    forall i, j :: 0 <= i < j < |entries| ==> Precedes(entries[i].key, entries[j].key)
  }

  predicate Distinct<V>(entries: seq<Entry<V>>) {
    forall i, j :: 0 <= i < j < |entries| ==> entries[i].key != entries[j].key
  }

  lemma EnumeratedDistinct<V(!new)>(entries: seq<Entry<V>>)
    requires Enumerated(entries)
    ensures Distinct(entries)
  {
    forall i, j | 0 <= i < j < |entries| ensures entries[i].key != entries[j].key {
      PrecedesIrreflexive(entries[i].key);
    }
  }

  /** Where a new key goes: an index before the first key it precedes, a name at the end. */
  function Place<V>(entries: seq<Entry<V>>, key: Str): (n: nat)
    ensures n <= |entries|
    ensures n < |entries| ==> Precedes(key, entries[n].key)
    ensures IsIndex(key) ==> forall i :: 0 <= i < n ==> !Precedes(key, entries[i].key)
  {
    if !IsIndex(key) then |entries|
    else if entries == [] || Precedes(key, entries[0].key) then 0
    else 1 + Place(entries[1..], key)
  }

  /** "__proto__": assigning to this key changes an object's prototype and adds no entry. */
  const PROTO: Str := [95, 95, 112, 114, 111, 116, 111, 95, 95]

  /** Assigns to a new key of an object. */
  function Put<V>(entries: seq<Entry<V>>, e: Entry<V>): seq<Entry<V>> {
    var n := Place(entries, e.key);
    if e.key == PROTO then entries else entries[..n] + [e] + entries[n..]
  }

  lemma PutElements<V(!new)>(entries: seq<Entry<V>>, e: Entry<V>)
    ensures forall x :: x in Put(entries, e) <==> x in entries || (x == e && e.key != PROTO)
  {
    var n := Place(entries, e.key);
    assert entries == entries[..n] + entries[n..];
  }

  /** A new key lands in its place, provided a name comes after the names already there. */
  lemma PutEnumerated<V(!new)>(entries: seq<Entry<V>>, e: Entry<V>)
    requires Enumerated(entries)
    requires forall x :: x in entries ==> x.key != e.key && (IsIndex(e.key) || Precedes(x.key, e.key))
    ensures Enumerated(Put(entries, e))
  {
    var n := Place(entries, e.key);
    forall i | 0 <= i < |entries|
      ensures if i < n then Precedes(entries[i].key, e.key) else Precedes(e.key, entries[i].key)
    {
      var k := entries[i].key;
      assert entries[i] in entries;
      if i < n {
        PrecedesTotal(k, e.key);
      } else if i > n {
        PrecedesTransitive(e.key, entries[n].key, k);
      }
    }
    Inserted(entries, e, n);
  }

  lemma Inserted<V(!new)>(entries: seq<Entry<V>>, e: Entry<V>, n: nat)
    requires Enumerated(entries) && n <= |entries|
    requires forall i :: 0 <= i < |entries| ==>
               if i < n then Precedes(entries[i].key, e.key) else Precedes(e.key, entries[i].key)
    ensures Enumerated(entries[..n] + [e] + entries[n..])
  {
    var s := entries[..n] + [e] + entries[n..];
    forall i, j | 0 <= i < j < |s| ensures Precedes(s[i].key, s[j].key) {
      assert i < n ==> s[i] == entries[i];
      assert i > n ==> s[i] == entries[i - 1];
      assert j < n ==> s[j] == entries[j];
      assert j > n ==> s[j] == entries[j - 1];
    }
  }

  /** An enumeration is determined by its entries. */
  lemma {:induction false} EnumeratedUnique<V(!new)>(s: seq<Entry<V>>, t: seq<Entry<V>>)
    requires Enumerated(s) && Enumerated(t)
    requires forall x :: x in s <==> x in t
    ensures s == t
    decreases |s|
  {
    assert t != [] ==> t[0] in t;
    if s != [] {
      assert s[0] in t && t != [] && t[0] in s;
      FirstComesFirst(s, t[0]);
      FirstComesFirst(t, s[0]);
      if s[0] != t[0] {
        PrecedesTransitive(s[0].key, t[0].key, s[0].key);
        PrecedesIrreflexive(s[0].key);
      }
      RestElements(s);
      RestElements(t);
      EnumeratedUnique(s[1..], t[1..]);
      assert s == [s[0]] + s[1..] && t == [t[0]] + t[1..];
    }
  }

  lemma FirstComesFirst<V(!new)>(s: seq<Entry<V>>, x: Entry<V>)
    requires Enumerated(s) && x in s
    ensures x == s[0] || Precedes(s[0].key, x.key)
  {
  }

  lemma RestElements<V(!new)>(s: seq<Entry<V>>)
    requires Enumerated(s) && s != []
    ensures Enumerated(s[1..])
    ensures forall x :: x in s[1..] <==> x in s && x != s[0]
  {
    EnumeratedDistinct(s);
    assert s == [s[0]] + s[1..];
  }

  // ----- filling an object in ascending key order -----

  function ValueAt<V>(entries: seq<Entry<V>>, key: Str): (e: Entry<V>)
    requires key in Keys(entries)
    ensures e in entries && e.key == key
  {
    if entries[0].key == key then entries[0] else ValueAt(entries[1..], key)
  }

  /** Assigns the entries under `keys`, in that order, to an empty object. */
  ghost function Fill<V>(keys: seq<Str>, entries: seq<Entry<V>>): seq<Entry<V>>
    requires forall k :: k in keys ==> k in Keys(entries)
  {
    if keys == [] then []
    else
      assert keys[|keys| - 1] in keys;
      Put(Fill(keys[..|keys| - 1], entries), ValueAt(entries, keys[|keys| - 1]))
  }

  lemma {:induction false} FillElements<V(!new)>(keys: seq<Str>, entries: seq<Entry<V>>)
    requires Distinct(entries) && forall k :: k in keys ==> k in Keys(entries)
    ensures forall x :: x in Fill(keys, entries) <==> x in entries && x.key in keys && x.key != PROTO
  {
    if keys != [] {
      var front, last := keys[..|keys| - 1], keys[|keys| - 1];
      assert keys == front + [last];
      assert last in keys;
      FillElements(front, entries);
      var e := ValueAt(entries, last);
      PutElements(Fill(front, entries), e);
      assert forall x :: x in entries && x.key == last ==> x == e;
    }
  }

  lemma {:induction false} FillEnumerated<V(!new)>(keys: seq<Str>, entries: seq<Entry<V>>)
    requires Distinct(entries) && Ascending(keys) && forall k :: k in keys ==> k in Keys(entries)
    ensures Enumerated(Fill(keys, entries))
  {
    if keys != [] {
      var front, last := keys[..|keys| - 1], keys[|keys| - 1];
      assert last in keys;
      FillEnumerated(front, entries);
      FillElements(front, entries);
      forall x | x in Fill(front, entries)
        ensures x.key != last && (IsIndex(last) || Precedes(x.key, last))
      {
        assert x.key in front;
        LessIrreflexive(last);
      }
      PutEnumerated(Fill(front, entries), ValueAt(entries, last));
    }
  }
}
