/** UTF-8 bytes of JavaScript strings, which are UTF-16 code units with or without proper surrogate pairs. */
module Utf8Text {
  import opened Lexicographic

  /** A text of UTF-16 code units. */
  predicate IsUnits(s: Str) {
    forall i :: 0 <= i < |s| ==> 0 <= s[i] < 0x1_0000
  }

  /** The units of a plain string. */
  function Spelled(name: string): Str {
    seq(|name|, i requires 0 <= i < |name| => name[i] as int)
  }

  // ----- characters -----

  predicate High(u: int) { 0xd800 <= u < 0xdc00 }

  predicate Low(u: int) { 0xdc00 <= u < 0xe000 }

  /** The number of units of the first character: a surrogate pair is one character. */
  function Width(s: Str): nat
    requires s != []
  {
    if High(s[0]) && |s| > 1 && Low(s[1]) then 2 else 1
  }

  /** The text starts with a surrogate that is not part of a pair. */
  predicate Lone(s: Str)
    requires s != []
  {
    Width(s) == 1 && (High(s[0]) || Low(s[0]))
  }

  /** Every surrogate is part of a pair. */
  ghost predicate Paired(s: Str)
    decreases |s|
  {
    s == [] || (!Lone(s) && Paired(s[Width(s)..]))
  }

  /** The text with every lone surrogate replaced by U+FFFD. */
  function Scrub(s: Str): Str
    decreases |s|
  {
    if s == [] then [] else (if Lone(s) then [0xfffd] else s[..Width(s)]) + Scrub(s[Width(s)..])
  }

  // ----- UTF-8 -----

  /** The code point of a surrogate pair. */
  function CodePoint(high: int, low: int): int {
    0x1_0000 + (high - 0xd800) * 0x400 + (low - 0xdc00)
  }

  /** The four bytes of a code point beyond 16 bits, six bits in each byte after the first. */
  function FourBytes(c: int): Str {
    [0xf0 + c / 64 / 64 / 64, 0x80 + c / 64 / 64 % 64, 0x80 + c / 64 % 64, 0x80 + c % 64]
  }

  /** The bytes of the first character; a lone surrogate is replaced by U+FFFD. */
  function EncodeFirst(s: Str): (b: Str)
    requires s != []
    ensures b != []
  {
    var u := s[0];
    if Width(s) == 2 then FourBytes(CodePoint(u, s[1]))
    else if Lone(s) then [0xef, 0xbf, 0xbd]
    else if u < 0x80 then [u]
    else if u < 0x800 then [0xc0 + u / 64, 0x80 + u % 64]
    else [0xe0 + u / 64 / 64, 0x80 + u / 64 % 64, 0x80 + u % 64]
  }

  function Utf8(s: Str): Str
    decreases |s|
  {
    if s == [] then [] else EncodeFirst(s) + Utf8(s[Width(s)..])
  }

  lemma SixBits(c: int, d: int)
    requires c / 64 == d / 64 && c % 64 == d % 64
    ensures c == d
  {
    assert c == 64 * (c / 64) + c % 64;
  }

  lemma FourBytesUnique(c: int, d: int)
    requires FourBytes(c) == FourBytes(d)
    ensures c == d
  {
    var p, q := FourBytes(c), FourBytes(d);
    assert p[0] == q[0] && p[1] == q[1] && p[2] == q[2] && p[3] == q[3];
    SixBits(c / 64 / 64, d / 64 / 64);
    SixBits(c / 64, d / 64);
    SixBits(c, d);
  }

  lemma PairUnique(s: Str, t: Str)
    requires |s| > 1 && |t| > 1 && Width(s) == 2 && Width(t) == 2 && EncodeFirst(s) == EncodeFirst(t)
    ensures s[0] == t[0] && s[1] == t[1]
  {
    FourBytesUnique(CodePoint(s[0], s[1]), CodePoint(t[0], t[1]));
  }

  lemma SingleUnique(s: Str, t: Str)
    requires s != [] && t != [] && IsUnits(s) && IsUnits(t) && Width(s) == 1 && Width(t) == 1 && !Lone(s) && !Lone(t)
    requires EncodeFirst(s) == EncodeFirst(t)
    ensures s[0] == t[0]
  {
    var p, q := EncodeFirst(s), EncodeFirst(t);
    assert p[0] == q[0];
    if |p| == 2 {
      assert p[1] == q[1];
      SixBits(s[0], t[0]);
    } else if |p| == 3 {
      assert p[1] == q[1] && p[2] == q[2];
      SixBits(s[0] / 64, t[0] / 64);
      SixBits(s[0], t[0]);
    }
  }

  /** The number of bytes of a character, as its first byte tells. */
  function Announced(b: int): nat {
    if b < 0x80 then 1 else if b < 0xe0 then 2 else if b < 0xf0 then 3 else 4
  }

  lemma FirstByteAnnounces(s: Str)
    requires s != [] && IsUnits(s) && !Lone(s)
    ensures |EncodeFirst(s)| == Announced(EncodeFirst(s)[0])
    ensures |EncodeFirst(s)| == 4 <==> Width(s) == 2
  {
  }

  /** Encoded characters are a prefix code. */
  lemma EncodeFirstUnique(s: Str, t: Str, x: Str, y: Str)
    requires s != [] && t != [] && IsUnits(s) && IsUnits(t) && !Lone(s) && !Lone(t)
    requires EncodeFirst(s) + x == EncodeFirst(t) + y
    ensures Width(s) == Width(t) && s[..Width(s)] == t[..Width(t)] && x == y
  {
    var p, q := EncodeFirst(s), EncodeFirst(t);
    FirstByteAnnounces(s);
    FirstByteAnnounces(t);
    assert p[0] == (p + x)[0] == (q + y)[0] == q[0];
    ConcatSplit(p, x, q, y);
    if |p| == 4 {
      PairUnique(s, t);
    } else {
      SingleUnique(s, t);
    }
  }

  lemma {:induction false} Utf8Injective(s: Str, t: Str)
    requires IsUnits(s) && IsUnits(t) && Paired(s) && Paired(t) && Utf8(s) == Utf8(t)
    ensures s == t
    decreases |s|
  {
    if s != [] && t != [] {
      EncodeFirstUnique(s, t, Utf8(s[Width(s)..]), Utf8(t[Width(t)..]));
      Utf8Injective(s[Width(s)..], t[Width(t)..]);
      assert s == s[..Width(s)] + s[Width(s)..] && t == t[..Width(t)] + t[Width(t)..];
    }
  }

  // ----- what the encoding loses -----

  /** The first character of a text does not depend on what follows, unless it is a lone surrogate. */
  lemma SameFirst(s: Str, t: Str)
    requires s != [] && !Lone(s) && Width(s) <= |t| && t[..Width(s)] == s[..Width(s)]
    ensures Width(t) == Width(s) && !Lone(t) && EncodeFirst(t) == EncodeFirst(s)
  {
    assert t[0] == t[..Width(s)][0] == s[0];
    assert Width(s) == 2 ==> t[1] == t[..2][1] == s[1];
  }

  lemma {:induction false} ScrubPairs(s: Str)
    requires IsUnits(s)
    ensures IsUnits(Scrub(s)) && Paired(Scrub(s)) && Utf8(Scrub(s)) == Utf8(s)
    decreases |s|
  {
    if s != [] {
      var n, t := Width(s), Scrub(s);
      ScrubPairs(s[n..]);
      if Lone(s) {
        assert t == [0xfffd] + Scrub(s[1..]) && t[1..] == Scrub(s[1..]);
      } else {
        assert t == s[..n] + Scrub(s[n..]) && t[..n] == s[..n] && t[n..] == Scrub(s[n..]);
        SameFirst(s, t);
      }
    }
  }

  lemma {:induction false} ScrubExactly(s: Str)
    ensures Scrub(s) == s <==> Paired(s)
    decreases |s|
  {
    if s != [] {
      var n, t := Width(s), Scrub(s);
      ScrubExactly(s[n..]);
      assert s == s[..n] + s[n..];
      if Lone(s) {
        assert t[0] == 0xfffd != s[0];
      } else {
        assert t[n..] == Scrub(s[n..]);
      }
    }
  }

  /** Two texts have the same bytes exactly when they differ at most in their lone surrogates. */
  lemma Utf8Exact(s: Str, t: Str)
    requires IsUnits(s) && IsUnits(t)
    ensures Utf8(s) == Utf8(t) <==> Scrub(s) == Scrub(t)
  {
    ScrubPairs(s);
    ScrubPairs(t);
    if Utf8(s) == Utf8(t) {
      Utf8Injective(Scrub(s), Scrub(t));
    }
  }

  /** The byte layout of section 3 of RFC 3629: one to four bytes, marked as such, that together hold the bits of
      the character, high bits first. */
  lemma Utf8Layout(s: Str)
    requires s != [] && IsUnits(s) && !Lone(s)
    ensures var b := EncodeFirst(s);
            var c := if Width(s) == 2 then 0x1_0000 + (s[0] - 0xd800) * 0x400 + (s[1] - 0xdc00) else s[0];
            && |b| == (if c < 0x80 then 1 else if c < 0x800 then 2 else if c < 0x1_0000 then 3 else 4)
            && (forall i :: 1 <= i < |b| ==> 0x80 <= b[i] < 0xc0)
            && (|b| == 1 ==> b[0] == c)
            && (|b| == 2 ==> 0xc2 <= b[0] < 0xe0 && c == (b[0] - 0xc0) * 64 + (b[1] - 0x80))
            && (|b| == 3 ==> 0xe0 <= b[0] < 0xf0 && c == ((b[0] - 0xe0) * 64 + (b[1] - 0x80)) * 64 + (b[2] - 0x80))
            && (|b| == 4 ==>
                  && 0xf0 <= b[0] < 0xf5
                  && c == (((b[0] - 0xf0) * 64 + (b[1] - 0x80)) * 64 + (b[2] - 0x80)) * 64 + (b[3] - 0x80))
  {
    var c := if Width(s) == 2 then CodePoint(s[0], s[1]) else s[0];
    SplitSix(c);
    SplitSix(c / 64);
    SplitSix(c / 64 / 64);
  }

  lemma SplitSix(c: nat)
    ensures c == 64 * (c / 64) + c % 64 && 0 <= c % 64 < 64
  {
  }
}
