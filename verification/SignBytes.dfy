/** The bytes a transaction is signed over: the canonical JSON document, printed and encoded as UTF-8. */
module SignBytes {
  import opened Lexicographic
  import opened JsonOrder
  import opened SortJson
  import opened JsonText
  import opened Utf8Text
  import opened JsonBytes

  /** A number JavaScript holds exactly. */
  type SafeInteger = n: int | 0 <= n < 0x20_0000_0000_0000

  /** The digits of a number. */
  function Decimal(n: nat): (s: Str)
    ensures Canonical(s) && Number(s) == n
    ensures n > 0 ==> s[0] != 48
  {
    if n < 10 then
      assert [48 + n][..0] == [];
      [48 + n]
    else
      var front := Decimal(n / 10);
      assert (front + [48 + n % 10])[..|front|] == front;
      front + [48 + n % 10]
  }

  datatype SignDoc = SignDoc(
    msgs: seq<Json>, fee: Json, chainId: Str, memo: Str, accountNumber: SafeInteger, sequence: SafeInteger)

  ghost predicate Proper(d: SignDoc) {
    && (forall i :: 0 <= i < |d.msgs| ==> WellFormed(d.msgs[i]) && Printable(d.msgs[i]))
    && WellFormed(d.fee) && Printable(d.fee) && IsUnits(d.chainId) && IsUnits(d.memo)
  }

  function FieldName(i: nat): string {
    match i
    case 0 => "account_number"
    case 1 => "chain_id"
    case 2 => "fee"
    case 3 => "memo"
    case 4 => "msgs"
    case _ => "sequence"
  }

  function FieldValue(d: SignDoc, i: nat): Json {
    match i
    case 0 => Text(Decimal(d.accountNumber))
    case 1 => Text(d.chainId)
    case 2 => d.fee
    case 3 => Text(d.memo)
    case 4 => Array(d.msgs)
    case _ => Text(Decimal(d.sequence))
  }

  function Fields(d: SignDoc): seq<Entry<Json>> {
    seq(6, i requires 0 <= i < 6 => Entry(Spelled(FieldName(i)), FieldValue(d, i)))
  }

  /** A field name: plain text, and not "__proto__". */
  ghost predicate IsName(key: Str) {
    IsUnits(key) && Paired(key) && key != PROTO
  }

  lemma AsciiIsPaired(s: Str)
    requires Ascii(s)
    ensures IsUnits(s) && Paired(s)
  {
    ScrubAscii(s, []);
    assert s + [] == s;
    ScrubExactly(s);
  }

  lemma NameLetters(i: nat)
    requires i < 6
    ensures |FieldName(i)| != 9 && forall k :: 0 <= k < |FieldName(i)| ==> FieldName(i)[k] <= 'z'
  {
  }

  lemma NamesDiffer(i: nat, j: nat)
    requires i < j < 6
    ensures Spelled(FieldName(i)) != Spelled(FieldName(j))
  {
    var a, b := FieldName(i), FieldName(j);
    if |a| == |b| {
      var k := if i == 1 then 0 else 1;
      assert Spelled(a)[k] == a[k] as int && Spelled(b)[k] == b[k] as int;
    }
  }

  lemma FieldNames(d: SignDoc)
    ensures Distinct(Fields(d))
    ensures forall i :: 0 <= i < 6 ==> IsName(Fields(d)[i].key)
  {
    forall i, j | 0 <= i < j < 6 ensures Fields(d)[i].key != Fields(d)[j].key {
      NamesDiffer(i, j);
    }
    forall i | 0 <= i < 6 ensures IsName(Fields(d)[i].key) {
      var key := Spelled(FieldName(i));
      NameLetters(i);
      AsciiIsPaired(key);
      assert |PROTO| == 9 != |key|;
    }
  }

  lemma ProperFields(d: SignDoc)
    requires Proper(d)
    ensures WellFormed(Object(Fields(d))) && Printable(Object(Fields(d)))
  {
    FieldNames(d);
  }

  ghost function MakeSignBytes(d: SignDoc): Str
    requires Proper(d)
  {
    ProperFields(d);
    Utf8(Stringify(Canonicalize(Object(Fields(d)))))
  }

  /** Every string in the transaction is paired and no object in it has the key "__proto__". */
  ghost predicate Clean(d: SignDoc) {
    && (forall i :: 0 <= i < |d.msgs| ==> Signable(d.msgs[i]))
    && Signable(d.fee) && Paired(d.chainId) && Paired(d.memo)
  }

  lemma NumberPaired(n: nat)
    ensures Paired(Decimal(n))
  {
    AsciiIsPaired(Decimal(n));
  }

  lemma CleanValue(d: SignDoc, i: nat)
    requires Clean(d)
    ensures Signable(FieldValue(d, i))
  {
    match i
    case 0 => NumberPaired(d.accountNumber);
    case 1 =>
    case 2 =>
    case 3 =>
    case 4 =>
    case _ => NumberPaired(d.sequence);
  }

  lemma CleanFields(d: SignDoc)
    requires Clean(d)
    ensures Signable(Object(Fields(d)))
  {
    FieldNames(d);
    forall i | 0 <= i < 6 ensures Signable(Fields(d)[i].value) {
      CleanValue(d, i);
    }
    SignableFields(Fields(d));
  }

  lemma SignableFields(entries: seq<Entry<Json>>)
    requires forall i :: 0 <= i < |entries| ==> IsName(entries[i].key) && Signable(entries[i].value)
    ensures Signable(Object(entries))
  {
  }

  ghost predicate AgreeingMessages(s: seq<Json>, t: seq<Json>, hidden: set<Str>) {
    |s| == |t| && forall i :: 0 <= i < |s| ==> Agree(s[i], t[i], hidden)
  }

  /** The two transactions agree in everything but the order of keys and hidden entries inside the fee and
      the messages. */
  ghost predicate AgreeingDocs(c: SignDoc, d: SignDoc, hidden: set<Str>) {
    && AgreeingMessages(c.msgs, d.msgs, hidden)
    && Agree(c.fee, d.fee, hidden)
    && c.chainId == d.chainId
    && c.memo == d.memo
    && c.accountNumber == d.accountNumber
    && c.sequence == d.sequence
  }

  ghost predicate SameTransaction(c: SignDoc, d: SignDoc) {
    AgreeingDocs(c, d, {})
  }

  lemma AgreeingFields(c: SignDoc, d: SignDoc, hidden: set<Str>)
    requires hidden <= {PROTO}
    ensures Agree(Object(Fields(c)), Object(Fields(d)), hidden) <==>
            forall i :: 0 <= i < 6 ==> Agree(Fields(c)[i].value, Fields(d)[i].value, hidden)
  {
    FieldNames(c);
    FieldNames(d);
    var s, t := Fields(c), Fields(d);
    assert forall i :: 0 <= i < 6 ==> s[i].key == t[i].key;
    assert Keys(s) == Keys(t);
  }

  lemma AgreeingNumbers(m: nat, n: nat, hidden: set<Str>)
    ensures Agree(Text(Decimal(m)), Text(Decimal(n)), hidden) <==> m == n
  {
    assert Number(Decimal(m)) == m && Number(Decimal(n)) == n;
  }

  lemma AgreeingLeaves(a: Str, b: Str, s: seq<Json>, t: seq<Json>, hidden: set<Str>)
    ensures Agree(Text(a), Text(b), hidden) <==> a == b
    ensures Agree(Array(s), Array(t), hidden) <==> AgreeingMessages(s, t, hidden)
  {
  }

  lemma AgreeingSix(s: seq<Entry<Json>>, t: seq<Entry<Json>>, hidden: set<Str>)
    requires |s| == |t| == 6
    ensures (forall i :: 0 <= i < 6 ==> Agree(s[i].value, t[i].value, hidden)) <==>
            && Agree(s[0].value, t[0].value, hidden) && Agree(s[1].value, t[1].value, hidden)
            && Agree(s[2].value, t[2].value, hidden) && Agree(s[3].value, t[3].value, hidden)
            && Agree(s[4].value, t[4].value, hidden) && Agree(s[5].value, t[5].value, hidden)
  {
  }

  lemma AgreeingValues(c: SignDoc, d: SignDoc, hidden: set<Str>)
    ensures AgreeingDocs(c, d, hidden) <==>
            forall i :: 0 <= i < 6 ==> Agree(Fields(c)[i].value, Fields(d)[i].value, hidden)
  {
    AgreeingNumbers(c.accountNumber, d.accountNumber, hidden);
    AgreeingNumbers(c.sequence, d.sequence, hidden);
    AgreeingLeaves(c.chainId, d.chainId, c.msgs, d.msgs, hidden);
    AgreeingLeaves(c.memo, d.memo, c.msgs, d.msgs, hidden);
    AgreeingSix(Fields(c), Fields(d), hidden);
  }

  /** Sign bytes are equal exactly when the canonical documents differ at most in lone surrogates; for clean
      transactions, exactly when everything agrees but the order of keys inside the fee and the messages. */
  lemma SignBytesExact(c: SignDoc, d: SignDoc)
    requires Proper(c) && Proper(d)
    ensures WellFormed(Object(Fields(c))) && WellFormed(Object(Fields(d)))
    ensures MakeSignBytes(c) == MakeSignBytes(d) <==>
            Scrubbed(Canonicalize(Object(Fields(c)))) == Scrubbed(Canonicalize(Object(Fields(d))))
    ensures Clean(c) && Clean(d) ==> (MakeSignBytes(c) == MakeSignBytes(d) <==> SameTransaction(c, d))
  {
    ProperFields(c);
    ProperFields(d);
    CanonicalBytes(Object(Fields(c)), Object(Fields(d)));
    if Clean(c) && Clean(d) {
      CleanFields(c);
      CleanFields(d);
      AgreeingFields(c, d, {});
      AgreeingValues(c, d, {});
    }
  }

  /** Key order never matters, clean or not. */
  lemma KeyOrderDoesNotMatter(c: SignDoc, d: SignDoc)
    requires Proper(c) && Proper(d) && AgreeingDocs(c, d, {PROTO})
    ensures MakeSignBytes(c) == MakeSignBytes(d)
  {
    ProperFields(c);
    ProperFields(d);
    AgreeingFields(c, d, {PROTO});
    AgreeingValues(c, d, {PROTO});
    CanonicalForm(Object(Fields(c)), Object(Fields(d)));
  }

  // ----- where the condition fails -----

  ghost predicate ProtoFree(d: SignDoc) {
    NoProto(d.fee) && forall i :: 0 <= i < |d.msgs| ==> NoProto(d.msgs[i])
  }

  ghost function CanonicalParts(d: SignDoc): SignDoc
    requires Proper(d)
  {
    d.(fee := Canonicalize(d.fee), msgs := seq(|d.msgs|, i requires 0 <= i < |d.msgs| => Canonicalize(d.msgs[i])))
  }

  /** A transaction with a key "__proto__" anywhere is signed like a different one without it. */
  lemma ProtoIsNotSigned(d: SignDoc)
    requires Proper(d) && !ProtoFree(d)
    ensures var other := CanonicalParts(d);
            Proper(other) && ProtoFree(other) && !SameTransaction(other, d) && MakeSignBytes(other) == MakeSignBytes(d)
  {
    var other := CanonicalParts(d);
    PartReordered(d.fee);
    forall i | 0 <= i < |d.msgs| ensures PartOk(other.msgs[i], d.msgs[i]) {
      PartReordered(d.msgs[i]);
    }
    KeyOrderDoesNotMatter(other, d);
  }

  /** The canonical form of one part of a transaction. */
  ghost predicate PartOk(c: Json, j: Json) {
    && WellFormed(c) && NoProto(c) && Agree(c, j, {PROTO})
    && (Printable(j) ==> Printable(c))
    && (Same(c, j) <==> NoProto(j))
  }

  lemma PartReordered(j: Json)
    requires WellFormed(j)
    ensures PartOk(Canonicalize(j), j)
  {
    OnlyReorders(j);
    CanonicalStrings(j);
    ReordersExactly(j);
  }

  /** Every string value in the transaction has its surrogates in pairs; keys may be anything. */
  ghost predicate LonelessValues(d: SignDoc) {
    && (forall i :: 0 <= i < |d.msgs| ==> ValuesPaired(d.msgs[i]))
    && ValuesPaired(d.fee) && Paired(d.chainId) && Paired(d.memo)
  }

  /** The transaction with U+FFFD for every lone surrogate in a string value. */
  function WithoutLone(d: SignDoc): SignDoc {
    d.(msgs := seq(|d.msgs|, i requires 0 <= i < |d.msgs| => ScrubValues(d.msgs[i])), fee := ScrubValues(d.fee),
       chainId := Scrub(d.chainId), memo := Scrub(d.memo))
  }

  lemma WithoutLoneField(d: SignDoc, i: nat)
    ensures FieldValue(WithoutLone(d), i) == ScrubValues(FieldValue(d, i))
  {
    match i
    case 0 => NumberScrubbed(d.accountNumber);
    case 1 =>
    case 2 =>
    case 3 =>
    case 4 =>
    case _ => NumberScrubbed(d.sequence);
  }

  lemma NumberScrubbed(n: nat)
    ensures Scrub(Decimal(n)) == Decimal(n)
  {
    NumberPaired(n);
    ScrubExactly(Decimal(n));
  }

  lemma WithoutLoneFields(d: SignDoc)
    ensures Object(Fields(WithoutLone(d))) == ScrubValues(Object(Fields(d)))
  {
    forall i | 0 <= i < 6 ensures Fields(WithoutLone(d))[i] == Entry(Fields(d)[i].key, ScrubValues(Fields(d)[i].value)) {
      WithoutLoneField(d, i);
    }
  }

  lemma WithoutLoneProper(d: SignDoc)
    requires Proper(d)
    ensures Proper(WithoutLone(d)) && LonelessValues(WithoutLone(d))
  {
    ScrubPairs(d.memo);
    ScrubPairs(d.chainId);
    ValuesScrubbed(d.fee);
    forall i | 0 <= i < |d.msgs|
      ensures WellFormed(ScrubValues(d.msgs[i])) && Printable(ScrubValues(d.msgs[i])) && ValuesPaired(ScrubValues(d.msgs[i]))
    {
      ValuesScrubbed(d.msgs[i]);
    }
  }

  lemma SameKeepsPaired(c: SignDoc, d: SignDoc)
    requires LonelessValues(c) && SameTransaction(c, d)
    ensures LonelessValues(d)
  {
    SameKeepsValues(c.fee, d.fee);
    forall i | 0 <= i < |d.msgs| ensures ValuesPaired(d.msgs[i]) {
      SameKeepsValues(c.msgs[i], d.msgs[i]);
    }
  }

  /** Every transaction with a lone surrogate in a string value, however deep, is signed like the different one
      with U+FFFD in its place. */
  lemma LoneIsNotSigned(d: SignDoc)
    requires Proper(d) && !LonelessValues(d)
    ensures var other := WithoutLone(d);
            && Proper(other) && LonelessValues(other)
            && !SameTransaction(other, d) && MakeSignBytes(other) == MakeSignBytes(d)
  {
    var other := WithoutLone(d);
    WithoutLoneProper(d);
    ProperFields(d);
    ProperFields(other);
    WithoutLoneFields(d);
    SameBytesWithoutLone(Object(Fields(d)));
    SignBytesExact(other, d);
    if SameTransaction(other, d) {
      SameKeepsPaired(other, d);
    }
  }

  // ----- what is signed -----

  lemma NamesAscend(i: nat, j: nat)
    requires i < j < 6
    ensures Less(Spelled(FieldName(i)), Spelled(FieldName(j)))
  {
    var a, b := Spelled(FieldName(i)), Spelled(FieldName(j));
    var n := if i == 3 && j == 4 then 1 else 0;
    assert a[..n] == b[..n] && a[n] < b[n];
    LessExactly(a, b);
  }

  lemma NameIsNoIndex(i: nat)
    requires i < 6
    ensures !IsIndex(Spelled(FieldName(i)))
  {
    assert Spelled(FieldName(i))[0] > 57;
  }

  /** The fields are already in canonical order. */
  lemma FieldsInOrder(d: SignDoc)
    requires Proper(d)
    ensures WellFormed(Object(Fields(d)))
    ensures Canonicalize(Object(Fields(d))) == Object(Values(Fields(d)))
  {
    ProperFields(d);
    FieldNames(d);
    var values := Values(Fields(d));
    forall i | 0 <= i < 6 ensures values[i].key == Spelled(FieldName(i)) && values[i].key != PROTO {
      assert IsName(Fields(d)[i].key);
    }
    forall i, j | 0 <= i < j < 6 ensures Precedes(values[i].key, values[j].key) {
      NameIsNoIndex(i);
      NameIsNoIndex(j);
      NamesAscend(i, j);
    }
    SortObjectExact(values);
    EnumeratedUnique(SortObject(values), values);
  }

  lemma FieldCanonical(d: SignDoc, i: nat)
    requires Proper(d) && i < 6 && WellFormed(Object(Fields(d)))
    ensures WellFormed(FieldValue(d, i))
    ensures Values(Fields(d))[i] == Entry(Spelled(FieldName(i)), Canonicalize(FieldValue(d, i)))
  {
    assert Fields(d)[i].value == FieldValue(d, i);
  }

  /** The signed document: six fields, each under its own name with its own value. */
  lemma SignedDocument(d: SignDoc)
    requires Proper(d)
    ensures WellFormed(Object(Fields(d))) && WellFormed(Array(d.msgs))
    ensures var entries := Canonicalize(Object(Fields(d))).entries;
            && |entries| == 6 && (forall i :: 0 <= i < 6 ==> entries[i].key == Spelled(FieldName(i)))
            && entries[0] == Entry(Spelled("account_number"), Text(Decimal(d.accountNumber)))
            && entries[1] == Entry(Spelled("chain_id"), Text(d.chainId))
            && entries[2] == Entry(Spelled("fee"), Canonicalize(d.fee))
            && entries[3] == Entry(Spelled("memo"), Text(d.memo))
            && entries[4] == Entry(Spelled("msgs"), Canonicalize(Array(d.msgs)))
            && entries[5] == Entry(Spelled("sequence"), Text(Decimal(d.sequence)))
  {
    FieldsInOrder(d);
    FieldCanonical(d, 0);
    FieldCanonical(d, 1);
    FieldCanonical(d, 2);
    FieldCanonical(d, 3);
    FieldCanonical(d, 4);
    FieldCanonical(d, 5);
  }

  /** A field of an object, as text. */
  function Member(name: string, text: Str): Str {
    Spelled("\"") + Spelled(name) + Spelled("\":") + text
  }

  lemma MemberText(name: string, value: Json)
    requires forall i :: 0 <= i < |name| ==> '_' <= name[i] <= 'z'
    ensures RenderedEntry(Entry(Spelled(name), value)) == Member(name, Rendered(value))
  {
    PlainIsEscaped(Spelled(name));
    assert Spelled("\"") == [34] && Spelled("\":") == [34, 58];
  }

  lemma NameLettersPlain(i: nat)
    requires i < 6
    ensures forall k :: 0 <= k < |FieldName(i)| ==> '_' <= FieldName(i)[k] <= 'z'
  {
  }

  lemma PeelOne(done: Str, texts: seq<Str>)
    requires |texts| > 1
    ensures done + Join(texts) == done + texts[0] + [44] + Join(texts[1..])
  {
  }

  /** Six texts in braces, with commas between them. */
  lemma JoinSix(t: seq<Str>)
    requires |t| == 6
    ensures [123] + Join(t) + [125] ==
            [123] + t[0] + [44] + t[1] + [44] + t[2] + [44] + t[3] + [44] + t[4] + [44] + t[5] + [125]
  {
    var d1 := [123] + t[0] + [44];
    var d2 := d1 + t[1] + [44];
    var d3 := d2 + t[2] + [44];
    var d4 := d3 + t[3] + [44];
    PeelOne([123], t);
    PeelOne(d1, t[1..]);
    PeelOne(d2, t[2..]);
    PeelOne(d3, t[3..]);
    PeelOne(d4, t[4..]);
    assert t[1..][1..] == t[2..] && t[2..][1..] == t[3..] && t[3..][1..] == t[4..] && t[4..][1..] == [t[5]];
  }

  lemma FieldText(entries: seq<Entry<Json>>, i: nat)
    requires i < 6 == |entries| && entries[i].key == Spelled(FieldName(i))
    ensures RenderedEntries(entries)[i] == Member(FieldName(i), Rendered(entries[i].value))
  {
    NameLettersPlain(i);
    MemberText(FieldName(i), entries[i].value);
  }

  lemma Punctuation()
    ensures Spelled("{") == [123] && Spelled("}") == [125] && Spelled(",") == [44]
  {
  }

  /** An object under the six field names, as text. */
  lemma SixFields(entries: seq<Entry<Json>>)
    requires |entries| == 6 && forall i :: 0 <= i < 6 ==> entries[i].key == Spelled(FieldName(i))
    ensures Stringify(Object(entries)) ==
            Spelled("{") +
            Member("account_number", Rendered(entries[0].value)) + Spelled(",") +
            Member("chain_id", Rendered(entries[1].value)) + Spelled(",") +
            Member("fee", Rendered(entries[2].value)) + Spelled(",") +
            Member("memo", Rendered(entries[3].value)) + Spelled(",") +
            Member("msgs", Rendered(entries[4].value)) + Spelled(",") +
            Member("sequence", Rendered(entries[5].value)) +
            Spelled("}")
  {
    StringifyRenders(Object(entries));
    RenderedLists([], entries);
    JoinSix(RenderedEntries(entries));
    FieldText(entries, 0);
    FieldText(entries, 1);
    FieldText(entries, 2);
    FieldText(entries, 3);
    FieldText(entries, 4);
    FieldText(entries, 5);
    Punctuation();
  }

  lemma TextRenders(units: Str)
    ensures Rendered(Text(units)) == Quoted(units)
  {
  }

  lemma SignBytesAreUtf8(d: SignDoc, entries: seq<Entry<Json>>)
    requires Proper(d) && WellFormed(Object(Fields(d))) && Canonicalize(Object(Fields(d))) == Object(entries)
    ensures MakeSignBytes(d) == Utf8(Stringify(Object(entries)))
  {
  }

  /** The text that is signed, field by field. */
  lemma SignedText(d: SignDoc)
    requires Proper(d)
    ensures WellFormed(Array(d.msgs))
    ensures MakeSignBytes(d) == Utf8(
              Spelled("{") +
              Member("account_number", Quoted(Decimal(d.accountNumber))) + Spelled(",") +
              Member("chain_id", Quoted(d.chainId)) + Spelled(",") +
              Member("fee", Rendered(Canonicalize(d.fee))) + Spelled(",") +
              Member("memo", Quoted(d.memo)) + Spelled(",") +
              Member("msgs", Rendered(Canonicalize(Array(d.msgs)))) + Spelled(",") +
              Member("sequence", Quoted(Decimal(d.sequence))) +
              Spelled("}"))
  {
    SignedDocument(d);
    var entries := Canonicalize(Object(Fields(d))).entries;
    SignBytesAreUtf8(d, entries);
    SixFields(entries);
    TextRenders(Decimal(d.accountNumber));
    TextRenders(d.chainId);
    TextRenders(d.memo);
    TextRenders(Decimal(d.sequence));
  }

  /** Array indices are the decimal texts of the numbers up to 2^32 - 2. */
  lemma IndexExactly(key: Str)
    ensures IsIndex(key) <==> exists n: nat :: n <= 0xffff_fffe && key == Decimal(n)
  {
    if IsIndex(key) {
      CanonicalBounds(key);
      var n: nat := Number(key);
      CanonicalUnique(key, Decimal(n));
      assert n <= 0xffff_fffe && key == Decimal(n);
    }
  }

  lemma ProtoSpelled()
    ensures PROTO == Spelled("__proto__")
  {
  }
}
