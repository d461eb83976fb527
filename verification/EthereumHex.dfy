/** Ethereum addresses and transaction hashes as hexadecimal text (ASCII bytes), including the mixed-case
    checksum of EIP-55. The Keccak digest that drives the checksum is an input. */
module EthereumHex {
  import opened Outcomes
  import opened Bytes

  type Text = Bytes

  const ADDRESS_LENGTH: nat := 20
  const TX_HASH_LENGTH: nat := 32

  /** ASCII of "0x". */
  const PREFIX: Text := [48, 120]

  type Nibble = n: int | 0 <= n < 16

  function Digit(n: Nibble): Byte {
    if n < 10 then 48 + n else 87 + n
  }

  /** A hexadecimal digit in either case. */
  function FromDigit(c: Byte): Option<Nibble> {
    if 48 <= c <= 57 then Some(c - 48)
    else if 97 <= c <= 102 then Some(c - 87)
    else if 65 <= c <= 70 then Some(c - 55)
    else None
  }

  function Encode(b: Bytes): Text {
    if b == [] then [] else [Digit(b[0] / 16), Digit(b[0] % 16)] + Encode(b[1..])
  }

  /** Decodes pairs of digits up to the first one that is no digit; the error is dropped. */
  function Decode(s: Text): Bytes {
    if |s| < 2 || FromDigit(s[0]).None? || FromDigit(s[1]).None? then []
    else [FromDigit(s[0]).value * 16 + FromDigit(s[1]).value] + Decode(s[2..])
  }

  predicate HasPrefix(s: Text) {
    |s| >= 2 && s[0] == 48 && (s[1] == 120 || s[1] == 88)
  }

  function FromHex(s: Text): Bytes {
    var digits := if HasPrefix(s) then s[2..] else s;
    Decode(if |digits| % 2 == 1 then [48] + digits else digits)
  }

  /** The last bytes that fit a buffer, aligned to its right; what is left of them stays. */
  function Fit(buffer: Bytes, b: Bytes): (r: Bytes)
    ensures |r| == |buffer|
  {
    var n := |buffer|;
    if |b| > n then b[|b| - n..] else buffer[..n - |b|] + b
  }

  lemma FitAt(buffer: Bytes, b: Bytes, i: nat)
    requires i < |buffer|
    ensures Fit(buffer, b)[i] == if i + |b| < |buffer| then buffer[i] else b[i + |b| - |buffer|]
  {
  }

  /** Copies to the end of an array, byte by byte. */
  method CopyToEnd(a: array<Byte>, src: Bytes)
    requires |src| <= a.Length
    modifies a
    ensures forall k :: 0 <= k < a.Length ==>
              a[k] == if k < a.Length - |src| then old(a[k]) else src[k - (a.Length - |src|)]
  {
    var offset := a.Length - |src|;
    for n := offset to a.Length
      invariant forall k :: 0 <= k < a.Length ==> a[k] == if offset <= k < n then src[k - offset] else old(a[k])
    {
      a[n] := src[n - offset];
    }
  }

  method SetBytes(a: array<Byte>, b: Bytes)
    modifies a
    ensures a[..] == Fit(old(a[..]), b)
    ensures forall i :: 0 <= i < a.Length ==>
              a[i] == if i + |b| < a.Length then old(a[i]) else b[i + |b| - a.Length]
  {
    ghost var was := a[..];
    CopyToEnd(a, if |b| > a.Length then b[|b| - a.Length..] else b);
    forall i | 0 <= i < a.Length ensures a[i] == Fit(was, b)[i] {
      FitAt(was, b, i);
    }
  }

  /** Shared by addresses and transaction hashes: any other length is an error. */
  function Parse(s: Text, length: nat): Outcome<Bytes> {
    var b := FromHex(s);
    if |b| != length then Err(GenericErr("invalid length")) else Ok(Fit(seq(length, _ => 0), b))
  }

  method HexToBytes(s: Text, length: nat) returns (r: Outcome<Bytes>)
    ensures r == Parse(s, length)
    ensures if |FromHex(s)| == length then r == Ok(FromHex(s)) else r == Err(GenericErr("invalid length"))
  {
    var b := FromHex(s);
    if |b| != length {
      return Err(GenericErr("invalid length"));
    }
    var a := new Byte[length](_ => 0);
    assert a[..] == seq(length, _ => 0);
    SetBytes(a, b);
    return Ok(a[..]);
  }

  /** The digest nibble that decides the case of letter `i`. */
  function HashNibble(hash: Bytes, i: nat): Nibble
    requires i / 2 < |hash|
  {
    if i % 2 == 0 then hash[i / 2] / 16 else hash[i / 2] % 16
  }

  /** `mixed` is `lower` with exactly the letters above a digest nibble of 7 in upper case. */
  ghost predicate Checksummed(lower: Text, hash: Bytes, mixed: Text) {
    && |mixed| == |lower| <= 2 * |hash|
    && forall i :: 0 <= i < |lower| ==>
         mixed[i] == if lower[i] > 57 && HashNibble(hash, i) > 7 then lower[i] - 32 else lower[i]
  }

  /** `text` is address `a` in checksummed form. */
  ghost predicate Printed(a: Bytes, hash: Bytes, text: Text) {
    |text| >= 2 && text[..2] == PREFIX && Checksummed(Encode(a), hash, text[2..])
  }

  lemma {:induction false} EncodeShape(b: Bytes)
    ensures |Encode(b)| == 2 * |b|
    ensures forall i :: 0 <= i < |Encode(b)| ==> 48 <= Encode(b)[i] <= 57 || 97 <= Encode(b)[i] <= 102
  {
    if b != [] {
      EncodeShape(b[1..]);
    }
  }

  /** Prints an address, editing the lower-case text letter by letter. */
  method AddressToHex(a: Bytes, hash: Bytes) returns (text: Text)
    requires |a| == ADDRESS_LENGTH && |hash| == 32
    ensures Printed(a, hash, text)
    ensures |text| == 42 && |Encode(a)| == 40 && text[0] == '0' as int && text[1] == 'x' as int
    ensures forall i :: 0 <= i < 40 ==>
              var nibble := if i % 2 == 0 then hash[i / 2] / 16 else hash[i / 2] % 16;
              text[i + 2] ==
              if 'a' as int <= Encode(a)[i] <= 'f' as int && nibble >= 8 then Encode(a)[i] - 32 else Encode(a)[i]
  {
    var lower := Encode(a);
    EncodeShape(a);
    var result := new Byte[|lower|](i requires 0 <= i < |lower| => lower[i]);
    for i := 0 to result.Length
      invariant forall j :: i <= j < |lower| ==> result[j] == lower[j]
      invariant forall j :: 0 <= j < i ==>
                  result[j] == if lower[j] > 57 && HashNibble(hash, j) > 7 then lower[j] - 32 else lower[j]
    {
      var hashByte: Byte := hash[i / 2];
      if i % 2 == 0 {
        hashByte := hashByte / 16;
      } else {
        hashByte := hashByte % 16;
      }
      if result[i] > 57 && hashByte > 7 {
        result[i] := result[i] - 32;
      }
    }
    text := PREFIX + result[..];
    assert text[2..] == result[..];
    forall i | 0 <= i < 40
      ensures var nibble := if i % 2 == 0 then hash[i / 2] / 16 else hash[i / 2] % 16;
              text[i + 2] ==
              if 'a' as int <= lower[i] <= 'f' as int && nibble >= 8 then lower[i] - 32 else lower[i]
    {
      assert text[i + 2] == result[i];
    }
  }

  function TxHashToHex(h: Bytes): Text {
    PREFIX + Encode(h)
  }

  // ----- parsing inverts printing -----

  /** A letter is the printed one or its upper case. */
  predicate EitherCase(c: Byte, printed: Byte) {
    c == printed || (printed > 57 && c == printed - 32)
  }

  lemma DigitEitherCase(c: Byte, n: Nibble)
    requires EitherCase(c, Digit(n))
    ensures FromDigit(c) == Some(n)
  {
  }

  /** Digits decode to the bytes they print, in whatever case the letters are. */
  lemma {:induction false} DecodeAnyCase(b: Bytes, text: Text)
    requires |text| == |Encode(b)| && forall i :: 0 <= i < |text| ==> EitherCase(text[i], Encode(b)[i])
    ensures Decode(text) == b
  {
    EncodeShape(b);
    if b != [] {
      var lower := Encode(b);
      assert lower == [Digit(b[0] / 16), Digit(b[0] % 16)] + Encode(b[1..]);
      DigitEitherCase(text[0], b[0] / 16);
      DigitEitherCase(text[1], b[0] % 16);
      forall i | 0 <= i < |text| - 2 ensures EitherCase(text[2..][i], Encode(b[1..])[i]) {
        assert EitherCase(text[i + 2], lower[i + 2]);
      }
      DecodeAnyCase(b[1..], text[2..]);
      assert b == [b[0]] + b[1..];
    }
  }

  lemma PrefixStripped(text: Text)
    requires |text| % 2 == 0
    ensures FromHex(PREFIX + text) == Decode(text)
  {
    assert HasPrefix(PREFIX + text) && (PREFIX + text)[2..] == text;
  }

  lemma FitsExactly(b: Bytes)
    ensures Fit(seq(|b|, _ => 0), b) == b
  {
  }

  lemma ParsePrefixed(b: Bytes, text: Text)
    requires |text| == 2 * |b| && Decode(text) == b
    ensures Parse(PREFIX + text, |b|) == Ok(b)
  {
    PrefixStripped(text);
    FitsExactly(b);
  }

  /** Every address survives printing and parsing, whatever digest drives the checksum. */
  lemma AddressRoundTrip(a: Bytes, hash: Bytes, text: Text)
    requires |a| == ADDRESS_LENGTH && |hash| == 32
    requires Printed(a, hash, text)
    ensures Parse(text, ADDRESS_LENGTH) == Ok(a)
  {
    EncodeShape(a);
    DecodeAnyCase(a, text[2..]);
    ParsePrefixed(a, text[2..]);
    assert PREFIX + text[2..] == text;
  }

  lemma TxHashRoundTrip(h: Bytes)
    requires |h| == TX_HASH_LENGTH
    ensures Parse(TxHashToHex(h), TX_HASH_LENGTH) == Ok(h)
    ensures |TxHashToHex(h)| == 66 && TxHashToHex(h)[0] == '0' as int && TxHashToHex(h)[1] == 'x' as int
  {
    EncodeShape(h);
    DecodeAnyCase(h, Encode(h));
    ParsePrefixed(h, Encode(h));
  }

  // ----- printing inverts parsing, up to case -----

  predicate AllDigits(s: Text) {
    forall i :: 0 <= i < |s| ==> FromDigit(s[i]).Some?
  }

  function Lower(s: Text): Text {
    seq(|s|, i requires 0 <= i < |s| => if 65 <= s[i] <= 70 then s[i] + 32 else s[i])
  }

  lemma {:induction false} EncodeDecode(s: Text)
    requires AllDigits(s) && |s| % 2 == 0
    ensures Encode(Decode(s)) == Lower(s) && |Decode(s)| == |s| / 2
  {
    if s != [] {
      EncodeDecode(s[2..]);
      var b := Decode(s);
      assert b[1..] == Decode(s[2..]);
      assert Lower(s) == Lower(s[..2]) + Lower(s[2..]);
      assert Digit(b[0] / 16) == Lower(s)[0] && Digit(b[0] % 16) == Lower(s)[1];
    }
  }

  /** Two well-formed texts name the same bytes exactly when they differ only in case. */
  lemma SameBytesIffSameLetters(s: Text, t: Text)
    requires AllDigits(s) && AllDigits(t) && |s| % 2 == 0 && |t| % 2 == 0
    ensures Decode(s) == Decode(t) <==> Lower(s) == Lower(t)
  {
    EncodeDecode(s);
    EncodeDecode(t);
    if Lower(s) == Lower(t) {
      DecodeAnyCase(Decode(s), Lower(s));
      DecodeAnyCase(Decode(t), Lower(t));
    }
  }

  // ----- which digit means what -----

  /** The digits are those of the usual notation, in order. */
  lemma DigitExact(n: Nibble)
    ensures Digit(n) as int == "0123456789abcdef"[n] as int
  {
  }

  /** Two digits per byte, the high half first. */
  lemma {:induction false} EncodeAt(b: Bytes, i: nat)
    requires i < |b|
    ensures |Encode(b)| == 2 * |b|
    ensures Encode(b)[2 * i] == Digit(b[i] / 16) && Encode(b)[2 * i + 1] == Digit(b[i] % 16)
  {
    EncodeShape(b);
    if i > 0 {
      EncodeAt(b[1..], i - 1);
      assert Encode(b)[2..] == Encode(b[1..]);
      assert Encode(b)[2 * i] == Encode(b)[2..][2 * i - 2] && Encode(b)[2 * i + 1] == Encode(b)[2..][2 * i - 1];
    }
  }

  /** Digest nibbles 2k and 2k + 1 make up byte k, the high half first. */
  lemma HashNibbles(hash: Bytes, k: nat)
    requires k < |hash|
    ensures HashNibble(hash, 2 * k) * 16 + HashNibble(hash, 2 * k + 1) == hash[k]
  {
  }

  /** The byte that a pair of digits stands for. */
  function PairValue(high: Byte, low: Byte): int
    requires FromDigit(high).Some? && FromDigit(low).Some?
  {
    16 * FromDigit(high).value + FromDigit(low).value
  }

  /** Pair `i` of the text consists of digits that stand for `value`. */
  predicate PairAt(s: Text, i: nat, value: int) {
    && 2 * i + 1 < |s| && FromDigit(s[2 * i]).Some? && FromDigit(s[2 * i + 1]).Some?
    && value == PairValue(s[2 * i], s[2 * i + 1])
  }

  /** Decoding gives a byte for every pair of digits up to the first that is none, or to the end. */
  lemma {:induction false} DecodeExact(s: Text)
    ensures forall i :: 0 <= i < |Decode(s)| ==> PairAt(s, i, Decode(s)[i])
    ensures forall value :: !PairAt(s, |Decode(s)|, value)
  {
    if |s| >= 2 && FromDigit(s[0]).Some? && FromDigit(s[1]).Some? {
      var rest := s[2..];
      DecodeExact(rest);
      var b := Decode(s);
      assert b == [PairValue(s[0], s[1])] + Decode(rest);
      forall i | 0 < i < |b| ensures PairAt(s, i, b[i]) {
        PairAfter(s, i, b[i]);
        assert b[i] == Decode(rest)[i - 1];
      }
      forall value ensures !PairAt(s, |b|, value) {
        PairAfter(s, |b|, value);
      }
    }
  }

  lemma PairAfter(s: Text, i: nat, value: int)
    requires |s| >= 2 && i > 0
    ensures PairAt(s, i, value) <==> PairAt(s[2..], i - 1, value)
  {
    if 2 * i + 1 < |s| {
      assert s[2..][2 * (i - 1)] == s[2 * i] && s[2..][2 * (i - 1) + 1] == s[2 * i + 1];
    }
  }

  /** Both prefixes, or none, may stand in front of the digits. */
  lemma PrefixIsOptional(b: Bytes, text: Text)
    requires |text| == |Encode(b)| && forall i :: 0 <= i < |text| ==> EitherCase(text[i], Encode(b)[i])
    ensures FromHex([48, 120] + text) == b && FromHex([48, 88] + text) == b && FromHex(text) == b
  {
    EncodeShape(b);
    DecodeAnyCase(b, text);
    assert ([48, 120] + text)[2..] == text && ([48, 88] + text)[2..] == text;
    assert |text| >= 2 ==> EitherCase(text[1], Encode(b)[1]);
  }

  lemma OddDigits(text: Text)
    requires |text| % 2 == 1 && !HasPrefix(text)
    ensures FromHex(text) == Decode([48] + text) && FromHex([48, 120] + text) == Decode([48] + text)
  {
    assert ([48, 120] + text)[2..] == text;
  }

  /** A missing leading zero is put back. */
  lemma LeadingZeroIsOptional(b: Bytes)
    requires b != [] && b[0] < 16
    ensures FromHex(Encode(b)[1..]) == b && FromHex([48, 120] + Encode(b)[1..]) == b
  {
    var text := Encode(b);
    EncodeShape(b);
    DecodeAnyCase(b, text);
    assert text[0] == 48 && [48] + text[1..] == text;
    assert |text| > 2 ==> text[1..][1] == text[2];
    OddDigits(text[1..]);
  }
}
