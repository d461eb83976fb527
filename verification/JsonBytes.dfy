/** JSON documents as UTF-8 bytes, and what the bytes tell about the document. */
module JsonBytes {
  import opened Lexicographic
  import opened JsonOrder
  import opened SortJson
  import opened JsonText
  import opened Utf8Text

  // ----- scrubbing a document scrubs its text -----

  predicate Ascii(s: Str) {
    forall i :: 0 <= i < |s| ==> 0 <= s[i] < 0x80
  }

  lemma ScrubPlain(u: int, rest: Str)
    requires 0 <= u < 0x80
    ensures Scrub([u] + rest) == [u] + Scrub(rest)
  {
    var t := [u] + rest;
    assert Width(t) == 1 && !Lone(t) && t[..1] == [u] && t[1..] == rest;
  }

  lemma {:induction false} ScrubAscii(s: Str, rest: Str)
    requires Ascii(s)
    ensures Scrub(s + rest) == s + Scrub(rest)
    ensures IsUnits(rest) ==> IsUnits(s + rest)
  {
    if s == [] {
      assert s + rest == rest;
    } else {
      ScrubAscii(s[1..], rest);
      ScrubPlain(s[0], s[1..] + rest);
      assert s + rest == [s[0]] + (s[1..] + rest) && s == [s[0]] + s[1..];
    }
  }

  lemma QuoteSurrogate(u: int)
    requires High(u) || Low(u) || u == 0xfffd
    ensures Quote(u) == [u]
  {
  }

  lemma NextUnit(s: Str, rest: Str)
    ensures PrintString(s, rest) != [] && (Low(PrintString(s, rest)[0]) <==> s != [] && Low(s[0]))
  {
  }

  lemma {:induction false} ScrubString(s: Str, rest: Str)
    requires IsUnits(s) && IsUnits(rest)
    ensures Scrub(PrintString(s, rest)) == PrintString(Scrub(s), Scrub(rest))
    ensures IsUnits(PrintString(s, rest))
    decreases |s|
  {
    StringUnits(s, rest);
    if s == [] {
      ScrubAscii([34], rest);
    } else if Lone(s) {
      ScrubString(s[1..], rest);
      ScrubLone(s, rest);
    } else if Width(s) == 2 {
      ScrubString(s[2..], rest);
      ScrubPair(s, rest);
    } else {
      ScrubString(s[1..], rest);
      ScrubSingle(s, rest);
    }
  }

  lemma {:induction false} StringUnits(s: Str, rest: Str)
    requires IsUnits(s) && IsUnits(rest)
    ensures IsUnits(PrintString(s, rest))
  {
    if s != [] {
      StringUnits(s[1..], rest);
    }
  }

  lemma ScrubLone(s: Str, rest: Str)
    requires s != [] && Lone(s)
    requires Scrub(PrintString(s[1..], rest)) == PrintString(Scrub(s[1..]), Scrub(rest))
    ensures Scrub(PrintString(s, rest)) == PrintString(Scrub(s), Scrub(rest))
  {
    QuoteSurrogate(s[0]);
    QuoteSurrogate(0xfffd);
    NextUnit(s[1..], rest);
    var t := PrintString(s, rest);
    assert t == [s[0]] + PrintString(s[1..], rest);
    assert Lone(t) && t[1..] == PrintString(s[1..], rest);
    assert Scrub(s) == [0xfffd] + Scrub(s[1..]);
    assert Scrub(s)[1..] == Scrub(s[1..]);
  }

  lemma ScrubPair(s: Str, rest: Str)
    requires s != [] && Width(s) == 2
    requires Scrub(PrintString(s[2..], rest)) == PrintString(Scrub(s[2..]), Scrub(rest))
    ensures Scrub(PrintString(s, rest)) == PrintString(Scrub(s), Scrub(rest))
  {
    QuoteSurrogate(s[0]);
    QuoteSurrogate(s[1]);
    var t, u := PrintString(s, rest), Scrub(s);
    PrintTwo(s, rest);
    assert t[2..] == PrintString(s[2..], rest) && t[..2] == [s[0], s[1]] && Width(t) == 2;
    assert u == [s[0], s[1]] + Scrub(s[2..]) && u[2..] == Scrub(s[2..]);
    PrintTwo(u, Scrub(rest));
  }

  /** Two units that need no escape are printed as they are. */
  lemma PrintTwo(s: Str, rest: Str)
    requires |s| >= 2 && Quote(s[0]) == [s[0]] && Quote(s[1]) == [s[1]]
    ensures PrintString(s, rest) == [s[0], s[1]] + PrintString(s[2..], rest)
  {
    assert s[1..][0] == s[1] && s[1..][1..] == s[2..];
    assert PrintString(s, rest) == [s[0]] + ([s[1]] + PrintString(s[2..], rest));
  }

  lemma ScrubSingle(s: Str, rest: Str)
    requires s != [] && Width(s) == 1 && !Lone(s) && 0 <= s[0] < 0x1_0000
    requires Scrub(PrintString(s[1..], rest)) == PrintString(Scrub(s[1..]), Scrub(rest))
    ensures Scrub(PrintString(s, rest)) == PrintString(Scrub(s), Scrub(rest))
  {
    var q, next := Quote(s[0]), PrintString(s[1..], rest);
    assert Scrub(s) == [s[0]] + Scrub(s[1..]) && Scrub(s)[1..] == Scrub(s[1..]);
    if q == [s[0]] {
      var t := q + next;
      assert Width(t) == 1 && !Lone(t) && t[..1] == q && t[1..] == next;
    } else {
      QuoteAscii(s[0]);
      ScrubAscii(q, next);
    }
  }

  lemma QuoteAscii(u: int)
    requires 0 <= u < 0x1_0000 && Quote(u) != [u]
    ensures Ascii(Quote(u))
  {
  }

  /** The document with all its strings and keys scrubbed. */
  function Scrubbed(j: Json): Json {
    match j
    case Text(units) => Text(Scrub(units))
    case Array(items) => Array(ScrubbedItems(items))
    case Object(entries) => Object(ScrubbedEntries(entries))
    case _ => j
  }

  function ScrubbedItems(items: seq<Json>): seq<Json> {
    if items == [] then [] else [Scrubbed(items[0])] + ScrubbedItems(items[1..])
  }

  function ScrubbedEntry(e: Entry<Json>): Entry<Json> {
    Entry(Scrub(e.key), Scrubbed(e.value))
  }

  function ScrubbedEntries(entries: seq<Entry<Json>>): seq<Entry<Json>> {
    if entries == [] then [] else [ScrubbedEntry(entries[0])] + ScrubbedEntries(entries[1..])
  }

  ghost predicate PrintableItems(items: seq<Json>) {
    forall i :: 0 <= i < |items| ==> Printable(items[i])
  }

  ghost predicate PrintableEntries(entries: seq<Entry<Json>>) {
    forall i :: 0 <= i < |entries| ==> IsUnits(entries[i].key) && Printable(entries[i].value)
  }

  lemma {:induction false} ScrubPrint(j: Json, rest: Str)
    requires Printable(j) && IsUnits(rest)
    ensures Scrub(Print(j, rest)) == Print(Scrubbed(j), Scrub(rest)) && IsUnits(Print(j, rest))
    decreases j
  {
    match j
    case Null => ScrubAscii([110, 117, 108, 108], rest);
    case Bool(truth) => ScrubAscii(if truth then [116, 114, 117, 101] else [102, 97, 108, 115, 101], rest);
    case Numeral(text) => ScrubAscii(text, rest);
    case Text(units) =>
      ScrubString(units, rest);
      ScrubAscii([34], PrintString(units, rest));
    case Array(items) => ScrubArray(items, rest);
    case Object(entries) => ScrubObject(entries, rest);
  }

  lemma {:induction false} ScrubArray(items: seq<Json>, rest: Str)
    requires PrintableItems(items) && IsUnits(rest)
    ensures Scrub(Print(Array(items), rest)) == Print(Array(ScrubbedItems(items)), Scrub(rest))
    ensures IsUnits(Print(Array(items), rest))
    decreases items, 1
  {
    if items == [] {
      ScrubAscii([93], rest);
      ScrubAscii([91], [93] + rest);
    } else {
      ScrubItems(items[1..], rest);
      ScrubPrint(items[0], PrintItems(items[1..], rest));
      ScrubAscii([91], Print(items[0], PrintItems(items[1..], rest)));
      assert ScrubbedItems(items)[1..] == ScrubbedItems(items[1..]);
    }
  }

  lemma {:induction false} ScrubObject(entries: seq<Entry<Json>>, rest: Str)
    requires PrintableEntries(entries) && IsUnits(rest)
    ensures Scrub(Print(Object(entries), rest)) == Print(Object(ScrubbedEntries(entries)), Scrub(rest))
    ensures IsUnits(Print(Object(entries), rest))
    decreases entries, 1
  {
    if entries == [] {
      ScrubAscii([125], rest);
      ScrubAscii([123], [125] + rest);
    } else {
      ScrubEntries(entries[1..], rest);
      ScrubEntry(entries[0], PrintEntries(entries[1..], rest));
      ScrubAscii([123], PrintEntry(entries[0], PrintEntries(entries[1..], rest)));
      assert ScrubbedEntries(entries)[1..] == ScrubbedEntries(entries[1..]);
    }
  }

  lemma {:induction false} ScrubItems(items: seq<Json>, rest: Str)
    requires PrintableItems(items) && IsUnits(rest)
    ensures Scrub(PrintItems(items, rest)) == PrintItems(ScrubbedItems(items), Scrub(rest))
    ensures IsUnits(PrintItems(items, rest))
    decreases items
  {
    if items == [] {
      ScrubAscii([93], rest);
    } else {
      ScrubItems(items[1..], rest);
      ScrubPrint(items[0], PrintItems(items[1..], rest));
      ScrubAscii([44], Print(items[0], PrintItems(items[1..], rest)));
      assert ScrubbedItems(items)[1..] == ScrubbedItems(items[1..]);
    }
  }

  lemma {:induction false} ScrubEntry(e: Entry<Json>, rest: Str)
    requires IsUnits(e.key) && Printable(e.value) && IsUnits(rest)
    ensures Scrub(PrintEntry(e, rest)) == PrintEntry(ScrubbedEntry(e), Scrub(rest))
    ensures IsUnits(PrintEntry(e, rest))
    decreases e
  {
    ScrubPrint(e.value, rest);
    ScrubAscii([58], Print(e.value, rest));
    ScrubString(e.key, [58] + Print(e.value, rest));
    ScrubAscii([34], PrintString(e.key, [58] + Print(e.value, rest)));
  }

  lemma {:induction false} ScrubEntries(entries: seq<Entry<Json>>, rest: Str)
    requires PrintableEntries(entries) && IsUnits(rest)
    ensures Scrub(PrintEntries(entries, rest)) == PrintEntries(ScrubbedEntries(entries), Scrub(rest))
    ensures IsUnits(PrintEntries(entries, rest))
    decreases entries
  {
    if entries == [] {
      ScrubAscii([125], rest);
    } else {
      ScrubEntries(entries[1..], rest);
      ScrubEntry(entries[0], PrintEntries(entries[1..], rest));
      ScrubAscii([44], PrintEntry(entries[0], PrintEntries(entries[1..], rest)));
      assert ScrubbedEntries(entries)[1..] == ScrubbedEntries(entries[1..]);
    }
  }

  // ----- the bytes of a document -----

  /** No string and no key has a lone surrogate. */
  ghost predicate AllPaired(j: Json) {
    match j
    case Text(units) => Paired(units)
    case Array(items) => forall i :: 0 <= i < |items| ==> AllPaired(items[i])
    case Object(entries) => forall i :: 0 <= i < |entries| ==> Paired(entries[i].key) && AllPaired(entries[i].value)
    case _ => true
  }

  /** What scrubbing does to a document. */
  ghost predicate ScrubOk(j: Json, c: Json) {
    (Printable(j) ==> Printable(c) && Scrubbed(c) == c) && (c == j <==> AllPaired(j))
  }

  lemma ScrubTwice(s: Str)
    requires IsUnits(s)
    ensures IsUnits(Scrub(s)) && Scrub(Scrub(s)) == Scrub(s)
  {
    ScrubPairs(s);
    ScrubExactly(Scrub(s));
  }

  lemma {:induction false} ScrubbedExactly(j: Json)
    ensures ScrubOk(j, Scrubbed(j))
    decreases j
  {
    match j
    case Text(units) =>
      ScrubExactly(units);
      if IsUnits(units) {
        ScrubTwice(units);
      }
    case Array(items) => ItemsExactly(items);
    case Object(entries) => EntriesExactly(entries);
    case _ =>
  }

  lemma {:induction false} ItemsExactly(items: seq<Json>)
    ensures ScrubOk(Array(items), Array(ScrubbedItems(items)))
    decreases items
  {
    if items != [] {
      var first, rest := items[0], items[1..];
      ScrubbedExactly(first);
      ItemsExactly(rest);
      var c := ScrubbedItems(items);
      assert items == [first] + rest && c[0] == Scrubbed(first) && c[1..] == ScrubbedItems(rest);
      assert Printable(Array(items)) ==> Printable(first) && Printable(Array(rest));
      assert AllPaired(Array(items)) <==> AllPaired(first) && AllPaired(Array(rest));
    }
  }

  ghost predicate PrintableEntry(e: Entry<Json>) {
    IsUnits(e.key) && Printable(e.value)
  }

  lemma {:induction false} EntryExactly(e: Entry<Json>)
    ensures PrintableEntry(e) ==> PrintableEntry(ScrubbedEntry(e))
    ensures PrintableEntry(e) ==> ScrubbedEntry(ScrubbedEntry(e)) == ScrubbedEntry(e)
    ensures ScrubbedEntry(e) == e <==> Paired(e.key) && AllPaired(e.value)
    decreases e
  {
    ScrubbedExactly(e.value);
    ScrubExactly(e.key);
    if IsUnits(e.key) {
      ScrubTwice(e.key);
    }
  }

  lemma {:induction false} EntriesExactly(entries: seq<Entry<Json>>)
    ensures ScrubOk(Object(entries), Object(ScrubbedEntries(entries)))
    decreases entries
  {
    if entries != [] {
      var first, rest := entries[0], entries[1..];
      EntryExactly(first);
      EntriesExactly(rest);
      var c := ScrubbedEntries(entries);
      assert entries == [first] + rest && c == [ScrubbedEntry(first)] + ScrubbedEntries(rest);
      ConsEntry(first, rest);
      ConsEntry(ScrubbedEntry(first), ScrubbedEntries(rest));
    }
  }

  lemma ConsEntry(first: Entry<Json>, rest: seq<Entry<Json>>)
    ensures Printable(Object([first] + rest)) <==> PrintableEntry(first) && Printable(Object(rest))
    ensures AllPaired(Object([first] + rest)) <==>
            Paired(first.key) && AllPaired(first.value) && AllPaired(Object(rest))
    ensures ScrubbedEntries([first] + rest) == [ScrubbedEntry(first)] + ScrubbedEntries(rest)
  {
    var entries := [first] + rest;
    assert entries[0] == first && entries[1..] == rest;
    assert forall i :: 0 <= i < |rest| ==> entries[i + 1] == rest[i];
  }

  /** Two documents have the same bytes exactly when they differ at most in their lone surrogates. */
  lemma BytesExact(a: Json, b: Json)
    requires Printable(a) && Printable(b)
    ensures Utf8(Stringify(a)) == Utf8(Stringify(b)) <==> Scrubbed(a) == Scrubbed(b)
  {
    ScrubPrint(a, []);
    ScrubPrint(b, []);
    Utf8Exact(Stringify(a), Stringify(b));
    ScrubbedExactly(a);
    ScrubbedExactly(b);
    StringifyInjective(Scrubbed(a), Scrubbed(b));
  }

  /** Every document with a lone surrogate has the bytes of a different one without. */
  lemma LoneCollides(j: Json)
    requires Printable(j) && !AllPaired(j)
    ensures Printable(Scrubbed(j)) && AllPaired(Scrubbed(j)) && Scrubbed(j) != j
    ensures Utf8(Stringify(Scrubbed(j))) == Utf8(Stringify(j))
  {
    ScrubbedExactly(j);
    ScrubbedExactly(Scrubbed(j));
    BytesExact(j, Scrubbed(j));
  }

  // ----- canonical bytes -----

  lemma {:induction false} CanonicalStrings(j: Json)
    requires WellFormed(j)
    ensures Printable(j) ==> Printable(Canonicalize(j))
    ensures AllPaired(j) ==> AllPaired(Canonicalize(j))
  {
    if j.Array? {
      forall i | 0 <= i < |j.items|
        ensures Printable(j.items[i]) ==> Printable(Canonicalize(j).items[i])
        ensures AllPaired(j.items[i]) ==> AllPaired(Canonicalize(j).items[i])
      {
        CanonicalStrings(j.items[i]);
      }
    } else if j.Object? {
      var values := Values(j.entries);
      var sorted := SortObject(values);
      SortObjectExact(values);
      forall i | 0 <= i < |values|
        ensures Printable(j.entries[i].value) ==> Printable(values[i].value)
        ensures AllPaired(j.entries[i].value) ==> AllPaired(values[i].value)
        ensures values[i].key == j.entries[i].key
      {
        CanonicalStrings(j.entries[i].value);
      }
      assert forall i :: 0 <= i < |sorted| ==> sorted[i] in values;
    }
  }

  /** Documents that keep their meaning as bytes: no lone surrogate and no key "__proto__". */
  ghost predicate Signable(j: Json) {
    AllPaired(j) && NoProto(j)
  }

  /** The bytes of canonicalized documents: equal exactly when the canonical forms differ at most in lone
      surrogates; for signable documents, exactly when the documents differ at most in key order. */
  lemma CanonicalBytes(a: Json, b: Json)
    requires WellFormed(a) && WellFormed(b) && Printable(a) && Printable(b)
    ensures Utf8(Stringify(Canonicalize(a))) == Utf8(Stringify(Canonicalize(b))) <==>
            Scrubbed(Canonicalize(a)) == Scrubbed(Canonicalize(b))
    ensures Signable(a) && Signable(b) ==>
              (Utf8(Stringify(Canonicalize(a))) == Utf8(Stringify(Canonicalize(b))) <==> Same(a, b))
  {
    CanonicalStrings(a);
    CanonicalStrings(b);
    BytesExact(Canonicalize(a), Canonicalize(b));
    ScrubbedExactly(Canonicalize(a));
    ScrubbedExactly(Canonicalize(b));
    CanonicalForm(a, b);
  }

  // ----- lone surrogates in values -----

  /** Entries with all values, but no keys, scrubbed. */
  function ScrubbedValues(entries: seq<Entry<Json>>): (r: seq<Entry<Json>>)
    ensures |r| == |entries|
    ensures forall i :: 0 <= i < |entries| ==> r[i] == Entry(entries[i].key, Scrubbed(entries[i].value))
  {
    seq(|entries|, i requires 0 <= i < |entries| => Entry(entries[i].key, Scrubbed(entries[i].value)))
  }

  function ScrubbedValue(e: Entry<Json>): Entry<Json> {
    Entry(e.key, Scrubbed(e.value))
  }

  lemma ScrubbedElements(entries: seq<Entry<Json>>, y: Entry<Json>)
    ensures y in ScrubbedValues(entries) <==> exists x :: x in entries && ScrubbedValue(x) == y
  {
    if y in ScrubbedValues(entries) {
      var i :| 0 <= i < |entries| && ScrubbedValues(entries)[i] == y;
      assert entries[i] in entries && ScrubbedValue(entries[i]) == y;
    }
    if x :| x in entries && ScrubbedValue(x) == y {
      var i :| 0 <= i < |entries| && entries[i] == x;
      assert ScrubbedValues(entries)[i] == y;
    }
  }

  /** Scrubbing values and sorting an object commute. */
  lemma SortScrubbed(entries: seq<Entry<Json>>)
    requires Distinct(entries)
    ensures ScrubbedValues(SortObject(entries)) == SortObject(ScrubbedValues(entries))
  {
    var sorted, scrubbed := SortObject(entries), ScrubbedValues(entries);
    SortObjectExact(entries);
    SortObjectExact(scrubbed);
    forall y ensures y in ScrubbedValues(sorted) <==> y in SortObject(scrubbed) {
      ScrubbedElements(sorted, y);
      ScrubbedElements(entries, y);
    }
    EnumeratedUnique(ScrubbedValues(sorted), SortObject(scrubbed));
  }

  lemma {:induction false} ScrubbedTwice(entries: seq<Entry<Json>>)
    requires PrintableEntries(entries)
    ensures ScrubbedEntries(ScrubbedValues(entries)) == ScrubbedEntries(entries)
  {
    if entries != [] {
      ScrubbedTwice(entries[1..]);
      ScrubbedExactly(entries[0].value);
      assert ScrubbedValues(entries)[1..] == ScrubbedValues(entries[1..]);
    }
  }

  /** Objects whose entries differ only in lone surrogates inside values have the same bytes. */
  lemma SameScrubbedValues(s: seq<Entry<Json>>, t: seq<Entry<Json>>)
    requires Distinct(s) && Distinct(t) && PrintableEntries(s) && PrintableEntries(t)
    requires ScrubbedValues(s) == ScrubbedValues(t)
    ensures Scrubbed(Object(SortObject(s))) == Scrubbed(Object(SortObject(t)))
  {
    SortScrubbed(s);
    SortScrubbed(t);
    SortPrintable(s);
    SortPrintable(t);
    ScrubbedTwice(SortObject(s));
    ScrubbedTwice(SortObject(t));
  }

  lemma SortPrintable(entries: seq<Entry<Json>>)
    requires Distinct(entries) && PrintableEntries(entries)
    ensures PrintableEntries(SortObject(entries))
  {
    SortObjectExact(entries);
    assert forall i :: 0 <= i < |SortObject(entries)| ==> SortObject(entries)[i] in entries;
  }

  /** The document with its string values scrubbed and its keys as they are. */
  function ScrubValues(j: Json): Json {
    match j
    case Text(units) => Text(Scrub(units))
    case Array(items) => Array(seq(|items|, i requires 0 <= i < |items| => ScrubValues(items[i])))
    case Object(entries) =>
      Object(seq(|entries|, i requires 0 <= i < |entries| => Entry(entries[i].key, ScrubValues(entries[i].value))))
    case _ => j
  }

  ghost predicate ValuesPaired(j: Json) {
    match j
    case Text(units) => Paired(units)
    case Array(items) => forall i :: 0 <= i < |items| ==> ValuesPaired(items[i])
    case Object(entries) => forall i :: 0 <= i < |entries| ==> ValuesPaired(entries[i].value)
    case _ => true
  }

  /** Scrubbing values keeps a document well formed and leaves no lone surrogate in a value. */
  lemma {:induction false} ValuesScrubbed(j: Json)
    requires WellFormed(j) && Printable(j)
    ensures WellFormed(ScrubValues(j)) && Printable(ScrubValues(j)) && ValuesPaired(ScrubValues(j))
  {
    match j
    case Text(units) => ScrubPairs(units);
    case Array(items) =>
      forall i | 0 <= i < |items|
        ensures WellFormed(ScrubValues(items[i])) && Printable(ScrubValues(items[i])) && ValuesPaired(ScrubValues(items[i]))
      {
        ValuesScrubbed(items[i]);
      }
    case Object(entries) =>
      forall i | 0 <= i < |entries|
        ensures WellFormed(ScrubValues(entries[i].value)) && Printable(ScrubValues(entries[i].value))
        ensures ValuesPaired(ScrubValues(entries[i].value))
      {
        ValuesScrubbed(entries[i].value);
      }
    case _ =>
  }

  lemma {:induction false} SameScrubbedItems(s: seq<Json>, t: seq<Json>)
    requires |s| == |t| && forall i :: 0 <= i < |s| ==> Scrubbed(s[i]) == Scrubbed(t[i])
    ensures ScrubbedItems(s) == ScrubbedItems(t)
  {
    if s != [] {
      SameScrubbedItems(s[1..], t[1..]);
    }
  }

  /** Canonical forms do not tell scrubbed values from unscrubbed ones, once encoded. */
  lemma {:induction false} SameBytesWithoutLone(j: Json)
    requires WellFormed(j) && Printable(j)
    ensures WellFormed(ScrubValues(j))
    ensures Scrubbed(Canonicalize(ScrubValues(j))) == Scrubbed(Canonicalize(j))
  {
    ValuesScrubbed(j);
    match j
    case Text(units) => ScrubTwice(units);
    case Array(items) =>
      var c, d := Canonicalize(ScrubValues(j)).items, Canonicalize(j).items;
      forall i | 0 <= i < |items| ensures Scrubbed(c[i]) == Scrubbed(d[i]) {
        SameBytesWithoutLone(items[i]);
      }
      SameScrubbedItems(c, d);
    case Object(entries) =>
      forall i | 0 <= i < |entries| ensures CanonicalEntry(entries[i]) {
        SameBytesWithoutLone(entries[i].value);
        CanonicalStrings(entries[i].value);
        ValuesScrubbed(entries[i].value);
        CanonicalStrings(ScrubValues(entries[i].value));
      }
      SameObjectWithoutLone(entries);
    case _ =>
  }

  /** What is known of one entry and its scrubbed value. */
  ghost predicate CanonicalEntry(e: Entry<Json>) {
    var scrubbed := ScrubValues(e.value);
    && IsUnits(e.key) && WellFormed(e.value) && WellFormed(scrubbed)
    && Printable(Canonicalize(e.value)) && Printable(Canonicalize(scrubbed))
    && Scrubbed(Canonicalize(scrubbed)) == Scrubbed(Canonicalize(e.value))
  }

  lemma SameObjectWithoutLone(entries: seq<Entry<Json>>)
    requires WellFormed(Object(entries)) && WellFormed(ScrubValues(Object(entries)))
    requires forall i :: 0 <= i < |entries| ==> CanonicalEntry(entries[i])
    ensures Scrubbed(Canonicalize(ScrubValues(Object(entries)))) == Scrubbed(Canonicalize(Object(entries)))
  {
    var s, t := Values(ScrubValues(Object(entries)).entries), Values(entries);
    forall i | 0 <= i < |entries|
      ensures PrintableEntry(s[i]) && PrintableEntry(t[i]) && ScrubbedValues(s)[i] == ScrubbedValues(t)[i]
    {
      assert CanonicalEntry(entries[i]);
    }
    SameScrubbedValues(s, t);
  }

  lemma {:induction false} SameKeepsValues(a: Json, b: Json)
    requires ValuesPaired(a) && Same(a, b)
    ensures ValuesPaired(b)
    decreases a
  {
    if a.Array? {
      forall i | 0 <= i < |b.items| ensures ValuesPaired(b.items[i]) {
        SameKeepsValues(a.items[i], b.items[i]);
      }
    } else if a.Object? {
      var s, t := a.entries, b.entries;
      forall j | 0 <= j < |t| ensures ValuesPaired(t[j].value) {
        assert t[j].key in Keys(t) - {};
        var i :| 0 <= i < |s| && s[i].key == t[j].key;
        SameKeepsValues(s[i].value, t[j].value);
      }
    }
  }
}
