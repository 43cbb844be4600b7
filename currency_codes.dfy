/**
 * Conversion between 160-bit currency values and their text form:
 * `to_string(Currency)`, the two `to_currency` overloads and the three
 * well-known currency constants of src/ripple/protocol/impl/UintTypes.cpp.
 *
 * The system currency code is the constant "XRP". Hex printing (`strHex`) and
 * hex parsing (`base_uint::SetHex`) are not part of this model: they are passed
 * in as functions, and the round-trip lemmas state what they assume of them.
 */
module CurrencyCodes {
  import opened Wrappers

  /** An unsigned 8-bit value. */
  newtype Byte = x: int | 0 <= x < 256

  /** A currency value: 20 bytes (160 bits), most significant byte first. */
  type Currency = s: seq<Byte> | |s| == 20 witness seq(20, i => 0 as Byte)

  /** `systemCurrencyCode()`. */
  const SystemCurrencyCode: string := "XRP"

  /** Offset of the three ISO code bytes inside a currency value. */
  const IsoOffset: nat := 12

  /** `CURRENCY_CODE_LENGTH`: length of an ISO-style code. */
  const CurrencyCodeLength: nat := 3

  /** Length of the hex form of a currency value (two digits per byte). */
  const HexCodeLength: nat := 40

  /** The characters `to_string` accepts in an ISO code. */
  const AllowedCharacters: string :=
    "abcdefghijklmnopqrstuvwxyz" + "ABCDEFGHIJKLMNOPQRSTUVWXYZ" + "0123456789" + "<>(){}[]|?!@#$%^&*"

  /** `n` copies of the byte `b`. */
  function Fill(n: nat, b: Byte): (s: seq<Byte>)
    ensures |s| == n && forall i :: 0 <= i < n ==> s[i] == b
  {
    seq(n, i => b)
  }

  /** `beast::zero` as a currency. */
  const Zero: Currency := Fill(20, 0)

  /** `xrpCurrency()`: the zero value stands for the system currency. */
  const XrpCurrency: Currency := Zero

  /** `noCurrency()`: the integer 1, stored big-endian. */
  const NoCurrency: Currency := Fill(19, 0) + [1]

  /** `badCurrency()`: the integer 0x5852500000000000, which puts "XRP" at the ISO bytes. */
  const BadCurrency: Currency := Fill(12, 0) + [0x58, 0x52, 0x50] + Fill(5, 0)

  /** `sIsoBits`: every bit set except those of the three ISO bytes. */
  const IsoBits: Currency := Fill(12, 0xFF) + [0, 0, 0] + Fill(5, 0xFF)

  /** Bitwise and of two naturals, one binary digit at a time. */
  function AndBits(a: nat, b: nat): (r: nat)
    ensures r <= a && r <= b
  {
    if a == 0 || b == 0 then 0
    else 2 * AndBits(a / 2, b / 2) + (if a % 2 == 1 && b % 2 == 1 then 1 else 0)
  }

  /** The natural whose `k` low binary digits are all one. */
  function AllOnes(k: nat): nat {
    if k == 0 then 0 else 2 * AllOnes(k - 1) + 1
  }

  /** Masking with `k` one-digits keeps any value that fits in `k` digits. */
  lemma {:induction false} AndAllOnes(a: nat, k: nat)
    requires a <= AllOnes(k)
    ensures AndBits(a, AllOnes(k)) == a
  {
    if a != 0 {
      AndAllOnes(a / 2, k - 1);
    }
  }

  /** A byte with every bit set is the mask of eight one-digits. */
  lemma ByteOnes()
    ensures AllOnes(8) == 0xFF
  {
    assert AllOnes(4) == 15;
  }

  /** Bitwise and of two currency values (`base_uint::operator&`), byte by byte. */
  function BitAnd(a: Currency, b: Currency): Currency {
    seq(20, i requires 0 <= i < 20 => AndBits(a[i] as nat, b[i] as nat) as Byte)
  }

  /** Every byte outside the ISO position is zero. */
  ghost predicate IsoShaped(c: Currency) {
    forall i :: 0 <= i < 20 && !(IsoOffset <= i < IsoOffset + 3) ==> c[i] == 0
  }

  function ByteToChar(b: Byte): char {
    (b as int) as char
  }

  /** The three bytes at the ISO offset, read as a string. */
  function IsoText(c: Currency): string {
    [ByteToChar(c[12]), ByteToChar(c[13]), ByteToChar(c[14])]
  }

  /** The punctuation part of `AllowedCharacters`. */
  const Punctuation: string := "<>(){}[]|?!@#$%^&*"

  /** Membership in `AllowedCharacters`, written as character ranges. */
  predicate Allowed(ch: char) {
    'a' <= ch <= 'z' || 'A' <= ch <= 'Z' || '0' <= ch <= '9' || ch in Punctuation
  }

  /** The ranges of `Allowed` are exactly the characters of the table. */
  lemma AllowedIsTable(ch: char)
    ensures Allowed(ch) <==> ch in AllowedCharacters
  {
    assert AllowedCharacters == LowerLetters + UpperLetters + Digits + Punctuation;
    LowerLettersRange(ch);
    UpperLettersRange(ch);
    DigitsRange(ch);
  }

  const LowerLetters := "abcdefghijklmnopqrstuvwxyz"
  const UpperLetters := "ABCDEFGHIJKLMNOPQRSTUVWXYZ"
  const Digits := "0123456789"

  lemma LowerLettersRange(ch: char)
    ensures 'a' <= ch <= 'z' <==> ch in LowerLetters
  {
  }

  lemma UpperLettersRange(ch: char)
    ensures 'A' <= ch <= 'Z' <==> ch in UpperLetters
  {
  }

  lemma DigitsRange(ch: char)
    ensures '0' <= ch <= '9' <==> ch in Digits
  {
  }

  /** `find_first_not_of(allowed_characters) == npos`. */
  predicate AllAllowed(s: string) {
    forall ch :: ch in s ==> Allowed(ch)
  }

  /** The condition under which `to_string` prints a value as its ISO code. */
  ghost predicate PrintsAsIso(c: Currency) {
    IsoShaped(c) && AllAllowed(IsoText(c)) && IsoText(c) != SystemCurrencyCode
  }

  /** `to_string(Currency)`: the system code, "1", the ISO code, or the hex form. */
  function ToString(c: Currency, strHex: Currency -> string): (r: string)
    ensures r == SystemCurrencyCode || r == "1" || r == strHex(c) || (PrintsAsIso(c) && r == IsoText(c))
  {
    if c == Zero then SystemCurrencyCode
    else if c == NoCurrency then "1"
    else if BitAnd(c, IsoBits) == Zero && IsoText(c) != SystemCurrencyCode && AllAllowed(IsoText(c)) then
      MaskedIsoBitsZero(c);
      IsoText(c)
    else strHex(c)
  }

  /**
   * A code is a byte string: each character stands for one byte. A
   * multi-byte UTF-8 character appears as its separate bytes.
   */
  predicate ByteString(code: string) {
    forall i :: 0 <= i < |code| ==> code[i] as int < 256
  }

  /** `static_cast<unsigned char>`: a character truncated to a byte. */
  function ToByte(ch: char): Byte {
    (ch as int % 256) as Byte
  }

  /** `::toupper` in the C locale: only 'a'..'z' change. */
  function UpperByte(b: Byte): Byte {
    if 0x61 <= b <= 0x7A then b - 0x20 else b
  }

  /** The value `to_currency` builds for a three-character code. */
  function IsoCurrency(code: string): (c: Currency)
    requires |code| == CurrencyCodeLength
    ensures IsoShaped(c)
    ensures forall k :: 0 <= k < 3 ==> c[IsoOffset + k] == UpperByte(ToByte(code[k]))
  {
    Fill(12, 0) + [UpperByte(ToByte(code[0])), UpperByte(ToByte(code[1])), UpperByte(ToByte(code[2]))] + Fill(5, 0)
  }

  /**
   * What `to_currency(Currency&, string)` stores, or None where it returns
   * false. `setHex` stands for `base_uint::SetHex` on a 40-character code.
   */
  function CurrencyFromCode(code: string, setHex: string -> Option<Currency>): (r: Option<Currency>)
    requires ByteString(code)
    ensures |code| == 0 || code == SystemCurrencyCode ==> r == Some(Zero)
    ensures |code| == CurrencyCodeLength && code != SystemCurrencyCode ==> r == Some(IsoCurrency(code))
    ensures |code| == HexCodeLength ==> r == setHex(code)
    ensures |code| != HexCodeLength ==> (r.Some? <==> |code| == 0 || |code| == CurrencyCodeLength)
    ensures r.Some? && |code| != HexCodeLength ==> IsoShaped(r.value)
  {
    if |code| == 0 || code == SystemCurrencyCode then Some(Zero)
    else if |code| == CurrencyCodeLength then Some(IsoCurrency(code))
    else if |code| == HexCodeLength then setHex(code)
    else None
  }

  /** `to_currency(string)`: the value overload, `noCurrency()` on failure. */
  function ToCurrencyValue(code: string, setHex: string -> Option<Currency>): (c: Currency)
    requires ByteString(code)
    ensures |code| != HexCodeLength ==> (c == NoCurrency <==> |code| != 0 && |code| != CurrencyCodeLength)
  {
    var r := CurrencyFromCode(code, setHex);
    if r.Some? then
      assert |code| != HexCodeLength ==> r.value[19] == 0 != NoCurrency[19];
      r.value
    else NoCurrency
  }

  /**
   * `to_currency(Currency&, string)`: upper-cases a three-character code
   * into a buffer and lays out the value by successive appends; returns
   * false (leaving `currency` as it was) for a code of any other length.
   */
  method ToCurrency(currency: Currency, code: string, setHex: string -> Option<Currency>)
    returns (ok: bool, result: Currency)
    requires ByteString(code)
    ensures ok <==> CurrencyFromCode(code, setHex).Some?
    ensures result == (if ok then CurrencyFromCode(code, setHex).value else currency)
  {
    if |code| == 0 || code == SystemCurrencyCode {
      return true, Zero;
    }
    if |code| == CurrencyCodeLength {
      var codeBlob := new Byte[CurrencyCodeLength];
      for i := 0 to CurrencyCodeLength
        invariant forall j :: 0 <= j < i ==> codeBlob[j] == UpperByte(ToByte(code[j]))
      {
        codeBlob[i] := UpperByte(ToByte(code[i]));
      }
      var s: seq<Byte> := [];
      s := s + seq(96 / 8, i => 0 as Byte);
      s := s + codeBlob[..];
      s := s + seq(16 / 8, i => 0 as Byte);
      s := s + seq(24 / 8, i => 0 as Byte);
      assert s == IsoCurrency(code);
      return true, s;
    }
    if |code| == HexCodeLength {
      var parsed := setHex(code);
      if parsed.Some? {
        return true, parsed.value;
      }
    }
    return false, currency;
  }

  // ---------------------------------------------------------------------
  // Properties

  /** `(currency & sIsoBits).isZero()` holds exactly for ISO-shaped values. */
  lemma MaskedIsoBitsZero(c: Currency)
    ensures BitAnd(c, IsoBits) == Zero <==> IsoShaped(c)
  {
    if IsoShaped(c) {
      forall i | 0 <= i < 20 ensures BitAnd(c, IsoBits)[i] == Zero[i] {
        if IsoOffset <= i < IsoOffset + 3 {
          assert IsoBits[i] == 0;
        } else {
          assert c[i] == 0;
        }
      }
    }
    if BitAnd(c, IsoBits) == Zero {
      forall i | 0 <= i < 20 && !(IsoOffset <= i < IsoOffset + 3) ensures c[i] == 0 {
        assert IsoBits[i] == 0xFF;
        ByteOnes();
        AndAllOnes(c[i] as nat, 8);
        assert BitAnd(c, IsoBits)[i] == 0;
      }
    }
  }

  /** Hex printing always yields 40 one-byte characters. */
  ghost predicate HexIsFortyChars(strHex: Currency -> string) {
    forall c :: |strHex(c)| == HexCodeLength && ByteString(strHex(c))
  }

  /** Hex parsing undoes hex printing. */
  ghost predicate HexRoundTrips(strHex: Currency -> string, setHex: string -> Option<Currency>) {
    forall c :: setHex(strHex(c)) == Some(c)
  }

  /**
   * Which of its four forms `to_string` produces: the system code exactly for
   * zero, "1" exactly for `noCurrency`, the three ISO characters exactly when
   * every other byte is zero and the characters are allowed and differ from
   * the system code, and the hex form otherwise.
   */
  lemma ToStringForms(c: Currency, strHex: Currency -> string)
    requires HexIsFortyChars(strHex)
    ensures ToString(c, strHex) == SystemCurrencyCode <==> c == XrpCurrency
    ensures ToString(c, strHex) == "1" <==> c == NoCurrency
    ensures (|ToString(c, strHex)| == CurrencyCodeLength && ToString(c, strHex) != SystemCurrencyCode)
              <==> PrintsAsIso(c)
    ensures PrintsAsIso(c) ==> ToString(c, strHex) == IsoText(c)
    ensures c != XrpCurrency && c != NoCurrency && !PrintsAsIso(c) ==> ToString(c, strHex) == strHex(c)
  {
    if c == XrpCurrency {
      assert c[19] != NoCurrency[19];
      assert !Allowed(IsoText(c)[0]);
    } else if c == NoCurrency {
      assert !Allowed(IsoText(c)[0]);
    } else if PrintsAsIso(c) {
      IsoPrintsAsIso(c, strHex);
    } else {
      MaskedIsoBitsZero(c);
      assert ToString(c, strHex) == strHex(c);
      assert |strHex(c)| == HexCodeLength;
    }
  }

  /** A value of the ISO shape with an allowed code other than the system code prints as that code. */
  lemma IsoPrintsAsIso(c: Currency, strHex: Currency -> string)
    requires PrintsAsIso(c)
    ensures c != XrpCurrency && c != NoCurrency
    ensures ToString(c, strHex) == IsoText(c)
  {
    MaskedIsoBitsZero(c);
    assert Allowed(IsoText(c)[0]);
    assert c[12] != 0;
    assert c != Zero;
    assert c[19] == 0;
    assert c != NoCurrency by { assert NoCurrency[19] == 1; }
  }

  /** `badCurrency()` carries the system code in its ISO bytes, so it prints as hex. */
  lemma BadCurrencyPrintsAsHex(strHex: Currency -> string)
    ensures ToString(BadCurrency, strHex) == strHex(BadCurrency)
  {
    assert BadCurrency[19] == 0 && NoCurrency[19] == 1;
    assert BadCurrency[12] == 0x58 && Zero[12] == 0;
    assert IsoText(BadCurrency) == SystemCurrencyCode;
  }

  /**
   * The system code is matched case-sensitively before upper-casing, so its
   * lower-case spelling yields `badCurrency()` rather than zero.
   */
  lemma LowerCaseSystemCodeIsBadCurrency(setHex: string -> Option<Currency>)
    ensures ToCurrencyValue("XRP", setHex) == XrpCurrency
    ensures ToCurrencyValue("xrp", setHex) == BadCurrency
  {
    var code := "xrp";
    assert code != SystemCurrencyCode by { assert code[0] != SystemCurrencyCode[0]; }
    var c := IsoCurrency(code);
    AsciiToByte('x');
    AsciiToByte('r');
    AsciiToByte('p');
    assert c[12] == 0x58 && c[13] == 0x52 && c[14] == 0x50;
    assert c == BadCurrency;
  }

  // Byte/character steps the round trips are made of.

  /** A character of the table is ASCII. */
  lemma AllowedIsAscii(ch: char)
    requires Allowed(ch)
    ensures ch as int < 128
  {
    assert ch in Punctuation ==> ch as int < 128;
  }

  /** Truncating an ASCII character to a byte keeps its code. */
  lemma AsciiToByte(ch: char)
    requires ch as int < 128
    ensures ToByte(ch) as int == ch as int
  {
  }

  /** Reading a byte as a character and truncating it back gives the byte. */
  lemma ByteCharByte(b: Byte)
    ensures ToByte(ByteToChar(b)) == b
  {
  }

  function UpperChar(ch: char): char {
    if 'a' <= ch <= 'z' then (ch as int - 32) as char else ch
  }

  /** The code as `to_currency` upper-cases it. */
  function UpperText(code: string): (u: string)
    ensures |u| == |code|
  {
    seq(|code|, i requires 0 <= i < |code| => UpperChar(code[i]))
  }

  predicate HasLowerCase(s: string) {
    exists k :: 0 <= k < |s| && 'a' <= s[k] <= 'z'
  }

  /** Upper-casing a byte agrees with upper-casing the character, for codes that print. */
  lemma UpperByteMatchesChar(ch: char)
    requires Allowed(UpperChar(ch))
    ensures UpperByte(ToByte(ch)) as int == UpperChar(ch) as int
  {
    AllowedIsAscii(UpperChar(ch));
    AsciiToByte(ch);
    var b := ToByte(ch);
    if !('a' <= ch <= 'z') {
      assert !(0x61 <= b <= 0x7A);
    }
  }

  /** Upper-casing changes a byte exactly when it reads as a lower-case letter. */
  lemma UpperByteFixes(b: Byte)
    ensures UpperByte(b) == b <==> !('a' <= ByteToChar(b) <= 'z')
  {
  }

  /**
   * Round trip from text: a three-character code whose upper-cased form uses
   * only allowed characters and is not the system code prints back as that
   * upper-cased form.
   */
  lemma RoundTripFromCode(code: string, strHex: Currency -> string, setHex: string -> Option<Currency>)
    requires |code| == CurrencyCodeLength && ByteString(code)
    requires AllAllowed(UpperText(code)) && UpperText(code) != SystemCurrencyCode
    ensures ToString(ToCurrencyValue(code, setHex), strHex) == UpperText(code)
  {
    var u := UpperText(code);
    var c := IsoCurrency(code);
    forall k | 0 <= k < 3 ensures ByteToChar(c[IsoOffset + k]) == u[k] {
      assert u[k] in u;
      UpperByteMatchesChar(code[k]);
    }
    assert IsoText(c) == u;
    assert ToCurrencyValue(code, setHex) == c;
    assert PrintsAsIso(c);
    IsoPrintsAsIso(c, strHex);
  }

  /** Reading back the ISO text of a value upper-cases its three ISO bytes and zeroes the rest. */
  lemma IsoReadBackBytes(x: Currency, setHex: string -> Option<Currency>)
    requires PrintsAsIso(x)
    ensures forall i :: 0 <= i < 20 && !(IsoOffset <= i < IsoOffset + 3) ==>
              ToCurrencyValue(IsoText(x), setHex)[i] == x[i]
    ensures forall i :: IsoOffset <= i < IsoOffset + 3 ==>
              ToCurrencyValue(IsoText(x), setHex)[i] == UpperByte(x[i])
  {
    var t := IsoText(x);
    assert ToCurrencyValue(t, setHex) == IsoCurrency(t);
    forall i | IsoOffset <= i < IsoOffset + 3 ensures IsoCurrency(t)[i] == UpperByte(x[i]) {
      ByteCharByte(x[i]);
    }
  }

  /** A lower-case letter in the ISO code is upper-cased on the way back. */
  lemma IsoReadBackLower(x: Currency, setHex: string -> Option<Currency>, k: nat)
    requires PrintsAsIso(x) && k < 3 && 'a' <= IsoText(x)[k] <= 'z'
    ensures ToCurrencyValue(IsoText(x), setHex) != x
  {
    IsoReadBackBytes(x, setHex);
    UpperByteFixes(x[IsoOffset + k]);
  }

  /** An ISO code without lower-case letters reads back as the value it came from. */
  lemma IsoReadBackUpper(x: Currency, setHex: string -> Option<Currency>)
    requires PrintsAsIso(x) && !HasLowerCase(IsoText(x))
    ensures ToCurrencyValue(IsoText(x), setHex) == x
  {
    var t := IsoText(x);
    var y := ToCurrencyValue(t, setHex);
    IsoReadBackBytes(x, setHex);
    forall i | IsoOffset <= i < IsoOffset + 3 ensures y[i] == x[i] {
      assert !('a' <= t[i - IsoOffset] <= 'z');
      UpperByteFixes(x[i]);
    }
    assert y == x;
  }

  /** Reading back an ISO code undoes printing it unless the code holds a lower-case letter. */
  lemma IsoReadBack(x: Currency, setHex: string -> Option<Currency>)
    requires PrintsAsIso(x)
    ensures (ToCurrencyValue(IsoText(x), setHex) == x) <==> !HasLowerCase(IsoText(x))
  {
    var t := IsoText(x);
    if HasLowerCase(t) {
      var k :| 0 <= k < 3 && 'a' <= t[k] <= 'z';
      IsoReadBackLower(x, setHex, k);
    } else {
      IsoReadBackUpper(x, setHex);
    }
  }

  /**
   * Round trip from value: reading back what `to_string` printed gives the
   * value again, except exactly when the value prints as an ISO code holding
   * a lower-case letter, which `to_currency` upper-cases.
   */
  lemma RoundTripFromValue(x: Currency, strHex: Currency -> string, setHex: string -> Option<Currency>)
    requires HexIsFortyChars(strHex) && HexRoundTrips(strHex, setHex)
    ensures (ToCurrencyValue(ToString(x, strHex), setHex) == x)
              <==> !(PrintsAsIso(x) && HasLowerCase(IsoText(x)))
  {
    ToStringForms(x, strHex);
    if x == XrpCurrency {
    } else if x == NoCurrency {
      assert ToString(x, strHex) == "1";
    } else if PrintsAsIso(x) {
      IsoReadBack(x, setHex);
    } else {
      var s := ToString(x, strHex);
      assert s == strHex(x) && |s| == HexCodeLength;
      assert setHex(s) == Some(x);
    }
  }
}
