/** JSON documents as text. Texts are UTF-16 code units, as in JavaScript; every unit is printed on its own, so
    a surrogate without its partner is printed as it is. */
module JsonText {
  import opened Lexicographic
  import opened JsonOrder
  import opened SortJson
  import opened Utf8Text

  // ----- printing, in front of the text that follows -----

  function HexDigit(n: int): int {
    if n < 10 then 48 + n else 87 + n
  }

  function Hex2(b: int): Str {
    [HexDigit(b / 16), HexDigit(b % 16)]
  }

  function Hex4(u: int): Str {
    Hex2(u / 256) + Hex2(u % 256)
  }

  /** The letter of a two-unit escape, or 0. */
  function ShortEscape(u: int): int {
    if u == 34 || u == 92 then u
    else if u == 8 then 98
    else if u == 9 then 116
    else if u == 10 then 110
    else if u == 12 then 102
    else if u == 13 then 114
    else 0
  }

  /** One unit of a string, quoted. */
  function Quote(u: int): (q: Str)
    ensures q != [] && q[0] != 34
  {
    if ShortEscape(u) != 0 then [92, ShortEscape(u)]
    else if u < 32 then [92, 117] + Hex4(u)
    else [u]
  }

  function PrintString(s: Str, rest: Str): Str {
    if s == [] then [34] + rest else Quote(s[0]) + PrintString(s[1..], rest)
  }

  function Print(j: Json, rest: Str): (text: Str)
    decreases j
  {
    match j
    case Null => [110, 117, 108, 108] + rest
    case Bool(truth) => (if truth then [116, 114, 117, 101] else [102, 97, 108, 115, 101]) + rest
    case Numeral(text) => text + rest
    case Text(units) => [34] + PrintString(units, rest)
    case Array(items) =>
      [91] + if items == [] then [93] + rest else Print(items[0], PrintItems(items[1..], rest))
    case Object(entries) =>
      [123] + if entries == [] then [125] + rest else PrintEntry(entries[0], PrintEntries(entries[1..], rest))
  }

  function PrintEntry(e: Entry<Json>, rest: Str): Str
    decreases e
  {
    [34] + PrintString(e.key, [58] + Print(e.value, rest))
  }

  function PrintItems(items: seq<Json>, rest: Str): Str
    decreases items
  {
    if items == [] then [93] + rest else [44] + Print(items[0], PrintItems(items[1..], rest))
  }

  function PrintEntries(entries: seq<Entry<Json>>, rest: Str): Str
    decreases entries
  {
    if entries == [] then [125] + rest else [44] + PrintEntry(entries[0], PrintEntries(entries[1..], rest))
  }

  function Stringify(j: Json): Str {
    Print(j, [])
  }

  // ----- the text determines the document -----

  /** Digits, sign, point and exponent. */
  predicate NumeralUnit(u: int) {
    48 <= u <= 57 || u in {43, 45, 46, 101}
  }

  predicate IsNumeral(s: Str) {
    s != [] && forall i :: 0 <= i < |s| ==> NumeralUnit(s[i])
  }

  /** Strings hold code units and numbers are numerals. */
  ghost predicate Printable(j: Json) {
    match j
    case Numeral(text) => IsNumeral(text)
    case Text(units) => IsUnits(units)
    case Array(items) => forall i :: 0 <= i < |items| ==> Printable(items[i])
    case Object(entries) =>
      forall i :: 0 <= i < |entries| ==> IsUnits(entries[i].key) && Printable(entries[i].value)
    case _ => true
  }

  /** What may follow a value. */
  predicate Delimited(rest: Str) {
    rest == [] || rest[0] in {44, 93, 125}
  }

  lemma Hex2Unique(b: int, c: int)
    requires 0 <= b < 256 && 0 <= c < 256 && Hex2(b) == Hex2(c)
    ensures b == c
  {
    assert Hex2(b)[0] == Hex2(c)[0] && Hex2(b)[1] == Hex2(c)[1];
    assert b == 16 * (b / 16) + b % 16 && c == 16 * (c / 16) + c % 16;
  }

  lemma Hex4Unique(u: int, v: int)
    requires 0 <= u < 0x1_0000 && 0 <= v < 0x1_0000 && Hex4(u) == Hex4(v)
    ensures u == v
  {
    ConcatSplit(Hex2(u / 256), Hex2(u % 256), Hex2(v / 256), Hex2(v % 256));
    Hex2Unique(u / 256, v / 256);
    Hex2Unique(u % 256, v % 256);
  }

  /** Quoted units are a prefix code. */
  lemma QuoteUnique(u: int, v: int, x: Str, y: Str)
    requires 0 <= u < 0x1_0000 && 0 <= v < 0x1_0000 && Quote(u) + x == Quote(v) + y
    ensures u == v && x == y
  {
    var p, q := Quote(u), Quote(v);
    assert (p + x)[0] == p[0] && (q + y)[0] == q[0];
    assert |p| > 1 ==> (p + x)[1] == p[1];
    assert |q| > 1 ==> (q + y)[1] == q[1];
    assert |p| == |q|;
    ConcatSplit(p, x, q, y);
    if |p| == 6 {
      assert p[2..] == Hex4(u) && q[2..] == Hex4(v);
      Hex4Unique(u, v);
    }
  }

  lemma StringStart(s: Str, x: Str)
    ensures PrintString(s, x) != [] && (PrintString(s, x)[0] == 34 <==> s == [])
    ensures s == [] ==> PrintString(s, x)[1..] == x
  {
  }

  lemma {:induction false} PrintStringUnique(s: Str, t: Str, x: Str, y: Str)
    requires IsUnits(s) && IsUnits(t) && PrintString(s, x) == PrintString(t, y)
    ensures s == t && x == y
  {
    StringStart(s, x);
    StringStart(t, y);
    if s != [] {
      QuoteUnique(s[0], t[0], PrintString(s[1..], x), PrintString(t[1..], y));
      PrintStringUnique(s[1..], t[1..], x, y);
      assert s == [s[0]] + s[1..] && t == [t[0]] + t[1..];
    }
  }

  /** How many units of a text could belong to a number. */
  function Leading(text: Str): nat {
    if text == [] || !NumeralUnit(text[0]) then 0 else 1 + Leading(text[1..])
  }

  lemma {:induction false} LeadingNumeral(s: Str, x: Str)
    requires (s == [] || IsNumeral(s)) && Delimited(x)
    ensures Leading(s + x) == |s|
  {
    if s == [] {
      assert s + x == x;
    } else {
      LeadingNumeral(s[1..], x);
      assert (s + x)[1..] == s[1..] + x;
    }
  }

  lemma NumeralUnique(s: Str, t: Str, x: Str, y: Str)
    requires IsNumeral(s) && IsNumeral(t) && Delimited(x) && Delimited(y) && s + x == t + y
    ensures s == t && x == y
  {
    LeadingNumeral(s, x);
    LeadingNumeral(t, y);
    ConcatSplit(s, x, t, y);
  }

  /** The first unit of a value tells its kind. */
  function Kind(j: Json): int {
    match j
    case Null => 110
    case Bool(truth) => if truth then 116 else 102
    case Numeral(_) => 48
    case Text(_) => 34
    case Array(_) => 91
    case Object(_) => 123
  }

  lemma FirstUnit(j: Json, rest: Str)
    requires Printable(j)
    ensures Print(j, rest) != []
    ensures var u := Print(j, rest)[0]; Kind(j) == if NumeralUnit(u) then 48 else u
    ensures !Delimited(Print(j, rest))
  {
    if j.Numeral? {
      assert Print(j, rest)[0] == j.text[0];
    }
  }

  /** Whatever follows them, two values with the same text are the same value. */
  lemma {:induction false} PrintUnique(a: Json, b: Json, x: Str, y: Str)
    requires Printable(a) && Printable(b) && Delimited(x) && Delimited(y)
    requires Print(a, x) == Print(b, y)
    ensures a == b && x == y
    decreases a
  {
    FirstUnit(a, x);
    FirstUnit(b, y);
    match a
    case Null => ConcatSplit([110, 117, 108, 108], x, [110, 117, 108, 108], y);
    case Bool(true) => ConcatSplit([116, 114, 117, 101], x, [116, 114, 117, 101], y);
    case Bool(false) => ConcatSplit([102, 97, 108, 115, 101], x, [102, 97, 108, 115, 101], y);
    case Numeral(text) => NumeralUnique(text, b.text, x, y);
    case Text(units) =>
      assert PrintString(units, x) == Print(a, x)[1..] && PrintString(b.units, y) == Print(b, y)[1..];
      PrintStringUnique(units, b.units, x, y);
    case Array(_) => ArrayUnique(a, b, x, y);
    case Object(_) => ObjectUnique(a, b, x, y);
  }

  lemma {:induction false} ArrayUnique(a: Json, b: Json, x: Str, y: Str)
    requires Printable(a) && Printable(b) && a.Array? && b.Array?
    requires Print(a, x) == Print(b, y)
    ensures a == b && x == y
    decreases a, 0
  {
    var s, t := a.items, b.items;
    var p, q := Print(a, x)[1..], Print(b, y)[1..];
    if s != [] {
      assert p == Print(s[0], PrintItems(s[1..], x));
      FirstUnit(s[0], PrintItems(s[1..], x));
    } else {
      assert p == [93] + x;
    }
    if t != [] {
      assert q == Print(t[0], PrintItems(t[1..], y));
      FirstUnit(t[0], PrintItems(t[1..], y));
    } else {
      assert q == [93] + y;
    }
    if s == [] {
      assert x == p[1..] && y == q[1..];
    } else {
      PrintUnique(s[0], t[0], PrintItems(s[1..], x), PrintItems(t[1..], y));
      ItemsUnique(s[1..], t[1..], x, y);
      assert s == [s[0]] + s[1..] && t == [t[0]] + t[1..];
    }
  }

  lemma {:induction false} ItemsUnique(s: seq<Json>, t: seq<Json>, x: Str, y: Str)
    requires forall i :: 0 <= i < |s| ==> Printable(s[i])
    requires forall i :: 0 <= i < |t| ==> Printable(t[i])
    requires PrintItems(s, x) == PrintItems(t, y)
    ensures s == t && x == y
    decreases s
  {
    var p, q := PrintItems(s, x), PrintItems(t, y);
    assert p[0] == if s == [] then 93 else 44;
    assert q[0] == if t == [] then 93 else 44;
    if s == [] {
      assert x == p[1..] && y == q[1..];
    } else {
      assert p[1..] == Print(s[0], PrintItems(s[1..], x)) && q[1..] == Print(t[0], PrintItems(t[1..], y));
      PrintUnique(s[0], t[0], PrintItems(s[1..], x), PrintItems(t[1..], y));
      ItemsUnique(s[1..], t[1..], x, y);
      assert s == [s[0]] + s[1..] && t == [t[0]] + t[1..];
    }
  }

  lemma {:induction false} ObjectUnique(a: Json, b: Json, x: Str, y: Str)
    requires Printable(a) && Printable(b) && a.Object? && b.Object?
    requires Print(a, x) == Print(b, y)
    ensures a == b && x == y
    decreases a, 0
  {
    var s, t := a.entries, b.entries;
    var p, q := Print(a, x)[1..], Print(b, y)[1..];
    assert s == [] ==> p == [125] + x;
    assert s != [] ==> p == PrintEntry(s[0], PrintEntries(s[1..], x)) && p[0] == 34;
    assert t == [] ==> q == [125] + y;
    assert t != [] ==> q == PrintEntry(t[0], PrintEntries(t[1..], y)) && q[0] == 34;
    if s == [] {
      assert x == p[1..] && y == q[1..];
    } else {
      EntryUnique(s[0], t[0], PrintEntries(s[1..], x), PrintEntries(t[1..], y));
      EntriesUnique(s[1..], t[1..], x, y);
      assert s == [s[0]] + s[1..] && t == [t[0]] + t[1..];
    }
  }

  lemma {:induction false} EntryUnique(a: Entry<Json>, b: Entry<Json>, x: Str, y: Str)
    requires IsUnits(a.key) && IsUnits(b.key) && Printable(a.value) && Printable(b.value)
    requires Delimited(x) && Delimited(y) && PrintEntry(a, x) == PrintEntry(b, y)
    ensures a == b && x == y
    decreases a
  {
    var p, q := [58] + Print(a.value, x), [58] + Print(b.value, y);
    assert PrintEntry(a, x)[1..] == PrintString(a.key, p) && PrintEntry(b, y)[1..] == PrintString(b.key, q);
    PrintStringUnique(a.key, b.key, p, q);
    assert Print(a.value, x) == p[1..] && Print(b.value, y) == q[1..];
    PrintUnique(a.value, b.value, x, y);
  }

  lemma {:induction false} EntriesUnique(s: seq<Entry<Json>>, t: seq<Entry<Json>>, x: Str, y: Str)
    requires forall i :: 0 <= i < |s| ==> IsUnits(s[i].key) && Printable(s[i].value)
    requires forall i :: 0 <= i < |t| ==> IsUnits(t[i].key) && Printable(t[i].value)
    requires PrintEntries(s, x) == PrintEntries(t, y)
    ensures s == t && x == y
    decreases s
  {
    var p, q := PrintEntries(s, x), PrintEntries(t, y);
    assert p[0] == if s == [] then 125 else 44;
    assert q[0] == if t == [] then 125 else 44;
    if s == [] {
      assert x == p[1..] && y == q[1..];
    } else {
      assert p[1..] == PrintEntry(s[0], PrintEntries(s[1..], x)) && q[1..] == PrintEntry(t[0], PrintEntries(t[1..], y));
      EntryUnique(s[0], t[0], PrintEntries(s[1..], x), PrintEntries(t[1..], y));
      EntriesUnique(s[1..], t[1..], x, y);
      assert s == [s[0]] + s[1..] && t == [t[0]] + t[1..];
    }
  }

  lemma StringifyInjective(a: Json, b: Json)
    requires Printable(a) && Printable(b)
    ensures Stringify(a) == Stringify(b) <==> a == b
  {
    if Stringify(a) == Stringify(b) {
      PrintUnique(a, b, [], []);
    }
  }

  // ----- the text, piece by piece -----

  /** The escapes of section 7 of RFC 8259, in their shortest forms; everything else is quoted as it is. */
  lemma QuoteExact(u: int)
    requires 0 <= u < 0x1_0000
    ensures 32 <= u && u != 34 && u != 92 ==> Quote(u) == [u]
    ensures u < 32 && u !in {8, 9, 10, 12, 13} ==>
              Quote(u) == [92, 117, 48, 48, 48 + u / 16, if u % 16 < 10 then 48 + u % 16 else 87 + u % 16]
  {
  }

  lemma QuoteShort()
    ensures Quote(34) == Spelled("\\\"") && Quote(92) == Spelled("\\\\")
    ensures Quote(8) == Spelled("\\b") && Quote(9) == Spelled("\\t") && Quote(10) == Spelled("\\n")
    ensures Quote(12) == Spelled("\\f") && Quote(13) == Spelled("\\r")
  {
  }

  function Escaped(s: Str): Str {
    if s == [] then [] else Quote(s[0]) + Escaped(s[1..])
  }

  function Quoted(s: Str): Str {
    [34] + Escaped(s) + [34]
  }

  /** Texts with commas between them. */
  function Join(texts: seq<Str>): Str {
    if texts == [] then [] else if |texts| == 1 then texts[0] else texts[0] + [44] + Join(texts[1..])
  }

  /** The text of a document, read off its structure. */
  function Rendered(j: Json): Str {
    match j
    case Null => Spelled("null")
    case Bool(truth) => if truth then Spelled("true") else Spelled("false")
    case Numeral(text) => text
    case Text(units) => Quoted(units)
    case Array(items) => [91] + Join(seq(|items|, i requires 0 <= i < |items| => Rendered(items[i]))) + [93]
    case Object(entries) =>
      [123] + Join(seq(|entries|, i requires 0 <= i < |entries| =>
                         Quoted(entries[i].key) + [58] + Rendered(entries[i].value))) + [125]
  }

  function RenderedItems(items: seq<Json>): (r: seq<Str>)
    ensures |r| == |items| && forall i :: 0 <= i < |items| ==> r[i] == Rendered(items[i])
  {
    seq(|items|, i requires 0 <= i < |items| => Rendered(items[i]))
  }

  function RenderedEntry(e: Entry<Json>): Str {
    Quoted(e.key) + [58] + Rendered(e.value)
  }

  function RenderedEntries(entries: seq<Entry<Json>>): (r: seq<Str>)
    ensures |r| == |entries| && forall i :: 0 <= i < |entries| ==> r[i] == RenderedEntry(entries[i])
  {
    seq(|entries|, i requires 0 <= i < |entries| => RenderedEntry(entries[i]))
  }

  lemma RenderedLists(items: seq<Json>, entries: seq<Entry<Json>>)
    ensures Rendered(Array(items)) == [91] + Join(RenderedItems(items)) + [93]
    ensures Rendered(Object(entries)) == [123] + Join(RenderedEntries(entries)) + [125]
  {
    assert seq(|items|, i requires 0 <= i < |items| => Rendered(items[i])) == RenderedItems(items);
    assert seq(|entries|, i requires 0 <= i < |entries| =>
                 Quoted(entries[i].key) + [58] + Rendered(entries[i].value)) == RenderedEntries(entries);
  }

  lemma {:induction false} PrintStringEscapes(s: Str, rest: Str)
    ensures PrintString(s, rest) == Escaped(s) + [34] + rest
  {
    if s != [] {
      PrintStringEscapes(s[1..], rest);
    }
  }

  /** Texts, each behind a comma. */
  function Trailing(texts: seq<Str>): Str {
    if texts == [] then [] else [44] + texts[0] + Trailing(texts[1..])
  }

  lemma {:induction false} JoinTrailing(texts: seq<Str>)
    requires texts != []
    ensures Join(texts) == texts[0] + Trailing(texts[1..])
  {
    if |texts| > 1 {
      JoinTrailing(texts[1..]);
    }
  }

  lemma Words()
    ensures Spelled("null") == [110, 117, 108, 108]
    ensures Spelled("true") == [116, 114, 117, 101] && Spelled("false") == [102, 97, 108, 115, 101]
  {
  }

  lemma WordsRender(j: Json, rest: Str)
    requires j.Null? || j.Bool?
    ensures Print(j, rest) == Rendered(j) + rest
  {
    Words();
  }

  lemma StringRenders(units: Str, rest: Str)
    ensures Print(Text(units), rest) == Rendered(Text(units)) + rest
  {
    PrintStringEscapes(units, rest);
  }

  /** Printing in front of a continuation is printing the rendered document and then the continuation. */
  lemma {:induction false} PrintRenders(j: Json, rest: Str)
    ensures Print(j, rest) == Rendered(j) + rest
    decreases j
  {
    match j
    case Null => WordsRender(j, rest);
    case Bool(_) => WordsRender(j, rest);
    case Numeral(_) =>
    case Text(units) => StringRenders(units, rest);
    case Array(items) => ArrayRenders(items, rest);
    case Object(entries) => ObjectRenders(entries, rest);
  }

  lemma {:induction false} ArrayRenders(items: seq<Json>, rest: Str)
    ensures Print(Array(items), rest) == Rendered(Array(items)) + rest
    decreases items, 1
  {
    RenderedLists(items, []);
    if items != [] {
      var texts := RenderedItems(items);
      ItemsRender(items[1..], rest);
      PrintRenders(items[0], PrintItems(items[1..], rest));
      JoinTrailing(texts);
      assert texts[1..] == RenderedItems(items[1..]);
      Bracketed(91, texts[0], Trailing(texts[1..]), 93, rest);
    }
  }

  lemma Bracketed(open: int, first: Str, more: Str, close: int, rest: Str)
    ensures [open] + (first + (more + [close] + rest)) == [open] + (first + more) + [close] + rest
  {
  }

  lemma {:induction false} ItemsRender(items: seq<Json>, rest: Str)
    ensures PrintItems(items, rest) == Trailing(RenderedItems(items)) + [93] + rest
    decreases items
  {
    if items != [] {
      ItemsRender(items[1..], rest);
      PrintRenders(items[0], PrintItems(items[1..], rest));
      assert RenderedItems(items)[1..] == RenderedItems(items[1..]);
    }
  }

  lemma {:induction false} EntryRenders(e: Entry<Json>, rest: Str)
    ensures PrintEntry(e, rest) == RenderedEntry(e) + rest
    decreases e
  {
    PrintRenders(e.value, rest);
    PrintStringEscapes(e.key, [58] + Print(e.value, rest));
  }

  lemma {:induction false} ObjectRenders(entries: seq<Entry<Json>>, rest: Str)
    ensures Print(Object(entries), rest) == Rendered(Object(entries)) + rest
    decreases entries, 1
  {
    RenderedLists([], entries);
    if entries != [] {
      var texts := RenderedEntries(entries);
      EntriesRender(entries[1..], rest);
      EntryRenders(entries[0], PrintEntries(entries[1..], rest));
      JoinTrailing(texts);
      assert texts[1..] == RenderedEntries(entries[1..]);
      Bracketed(123, texts[0], Trailing(texts[1..]), 125, rest);
    }
  }

  lemma {:induction false} EntriesRender(entries: seq<Entry<Json>>, rest: Str)
    ensures PrintEntries(entries, rest) == Trailing(RenderedEntries(entries)) + [125] + rest
    decreases entries
  {
    if entries != [] {
      EntriesRender(entries[1..], rest);
      EntryRenders(entries[0], PrintEntries(entries[1..], rest));
      assert RenderedEntries(entries)[1..] == RenderedEntries(entries[1..]);
    }
  }

  /** The printed text is the rendered one. */
  lemma StringifyRenders(j: Json)
    ensures Stringify(j) == Rendered(j)
  {
    PrintRenders(j, []);
    assert Rendered(j) + [] == Rendered(j);
  }

  /** Text without quotes, backslashes and control units needs no escapes. */
  lemma {:induction false} PlainIsEscaped(s: Str)
    requires forall i :: 0 <= i < |s| ==> 32 <= s[i] && s[i] != 34 && s[i] != 92
    ensures Escaped(s) == s
  {
    if s != [] {
      PlainIsEscaped(s[1..]);
      assert s == [s[0]] + s[1..];
    }
  }
}
