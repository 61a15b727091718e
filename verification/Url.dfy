/** `Util::url_encode` and `Util::url_decode` on byte strings. */
module Url {
  import opened Text

  /** A byte of the source's `char` type, by its unsigned value. */
  predicate Bytes(s: string) {
    forall k :: 0 <= k < |s| ==> s[k] as int < 256
  }

  predicate Ascii(s: string) {
    forall k :: 0 <= k < |s| ==> 0 < s[k] as int < 128
  }

  predicate Unreserved(c: char) {
    'a' <= c <= 'z' || 'A' <= c <= 'Z' || '0' <= c <= '9' || c == '-' || c == '_' || c == '.' || c == '~'
  }

  function HexDigit(n: nat): char
    requires n < 16
  {
    "0123456789ABCDEF"[n]
  }

  /** printf's `%X` of a non-negative number. */
  function Hex(n: nat): string {
    if n < 16 then [HexDigit(n)] else Hex(n / 16) + [HexDigit(n % 16)]
  }

  /** What `%X` prints of a `char`: one that is negative is widened to 32 bits. */
  function HexOfChar(c: char): string {
    var n := c as int;
    if n < 128 then Hex(n) else Hex(0x1_0000_0000 - 256 + n)
  }

  /** A negative `char` counts as smaller than 16. */
  function EncodeChar(c: char): string {
    var n := c as int;
    if c == ' ' then "+"
    else if Unreserved(c) then [c]
    else (if n < 16 || n >= 128 then "%0" else "%") + HexOfChar(c)
  }

  function EncodedBody(s: string): string {
    if s == "" then "" else EncodeChar(s[0]) + EncodedBody(s[1..])
  }

  /** `url_encode` stops at the first NUL. */
  function Encoded(s: string): string {
    EncodedBody(CString(s))
  }

  function HexValue(c: char): (r: Option<nat>)
    ensures r.Some? ==> r.value < 16
  {
    if '0' <= c <= '9' then Some(c as int - '0' as int)
    else if 'A' <= c <= 'F' then Some(c as int - 'A' as int + 10)
    else if 'a' <= c <= 'f' then Some(c as int - 'a' as int + 10)
    else None
  }

  predicate Space(c: char) {
    c == ' ' || 9 <= c as int <= 13
  }

  /**
   `sscanf` with `%x` on the at most two characters behind a percent sign, as a byte: white
   space and a sign may stand in front of a digit, and reading ends at the first character
   that is no digit. None: nothing is read, and the number keeps its value.
   */
  function ScanHex(t: string): Option<char> {
    if t == "" then None
    else
      var second := if |t| > 1 then HexValue(t[1]) else None;
      match HexValue(t[0])
      case Some(a) =>
        if second.Some? then Some((16 * a + second.value) as char)
        else if a == 0 && |t| > 1 && (t[1] == 'x' || t[1] == 'X') then None
        else Some(a as char)
      case None =>
        if second.None? then None
        else if Space(t[0]) || t[0] == '+' then Some(second.value as char)
        else if t[0] == '-' then Some(((256 - second.value) % 256) as char)
        else None
  }

  /** Behind a percent sign and its at most two characters. */
  function Behind(s: string, i: nat): nat
    requires i < |s|
  {
    if i + 3 <= |s| then i + 3 else |s|
  }

  /**
   Decoding when the number holds `last`. None: the first percent sign that has no number
   behind it comes before any that has, where the source appends an uninitialised value.
   */
  function DecodedFrom(s: string, last: Option<char>): Option<string>
    decreases |s|
  {
    if s == "" then Some("")
    else if s[0] == '%' then
      var number := match ScanHex(s[1..Behind(s, 0)]) case Some(c) => Some(c) case None => last;
      if number.None? then None
      else
        match DecodedFrom(s[Behind(s, 0)..], number)
        case None => None
        case Some(rest) => Some([number.value] + rest)
    else
      match DecodedFrom(s[1..], last)
      case None => None
      case Some(rest) => Some([if s[0] == '+' then ' ' else s[0]] + rest)
  }

  function Decoded(s: string): Option<string> {
    DecodedFrom(s, None)
  }

  method UrlEncode(str: string) returns (newStr: string)
    requires Bytes(str)
    ensures newStr == Encoded(str)
  {
    hide EncodedBody;
    newStr := "";
    ghost var before;
    var chars := CString(str);
    assert chars[0..] == chars;
    for i := 0 to |chars|
      invariant newStr + EncodedBody(chars[i..]) == EncodedBody(chars)
    {
      EncodedStep(chars, i);
      Assoc(newStr, EncodeChar(chars[i]), EncodedBody(chars[i + 1..]));
      before := newStr;
      var c := chars[i];
      var ic := if c as int < 128 then c as int else c as int - 256;
      if c == ' ' {
        newStr := newStr + "+";
      } else if Unreserved(c) {
        newStr := newStr + [c];
      } else {
        var bufHex := HexOfChar(c);
        if ic < 16 {
          newStr := newStr + ("%0" + bufHex);
        } else {
          newStr := newStr + ("%" + bufHex);
        }
      }
      assert newStr == before + EncodeChar(c);
    }
    EncodedEnd(chars[|chars|..]);
  }

  lemma EncodedStep(s: string, i: nat)
    requires i < |s|
    ensures EncodedBody(s[i..]) == EncodeChar(s[i]) + EncodedBody(s[i + 1..])
  {
    assert s[i..][1..] == s[i + 1..];
  }

  lemma EncodedEnd(s: string)
    requires s == ""
    ensures EncodedBody(s) == ""
  {}

  method UrlDecode(str: string) returns (result: string)
    requires Decoded(str).Some?
    ensures Decoded(str) == Some(result)
  {
    hide DecodedFrom, ScanHex;
    result := "";
    var i := 0;
    var ii: Option<char> := None;
    assert str[0..] == str;
    ghost var rest := Decoded(str).value;
    while i < |str|
      invariant 0 <= i
      invariant i <= |str| ==> DecodedFrom(str[i..], ii) == Some(rest)
      invariant i > |str| ==> rest == ""
      invariant result + rest == Decoded(str).value
    {
      DecodedStep(str, i, ii);
      Assoc(result, rest[..1], rest[1..]);
      assert rest == rest[..1] + rest[1..];
      if str[i] != '%' {
        if str[i] == '+' {
          result := result + " ";
        } else {
          result := result + [str[i]];
        }
      } else {
        var read := ScanHex(str[i + 1..Behind(str, i)]);
        if read.Some? {
          ii := read;
        }
        result := result + [ii.value];
        if i + 3 > |str| {
          DecodedEnd(str[|str|..], ii);
        }
        i := i + 2;
      }
      i := i + 1;
      rest := rest[1..];
    }
    if i == |str| {
      DecodedEnd(str[i..], ii);
    }
    assert result + "" == result;
  }

  lemma DecodedEnd(s: string, last: Option<char>)
    requires s == ""
    ensures DecodedFrom(s, last) == Some("")
  {}

  /** One round of the loop takes one character, or a percent sign with what stands behind it. */
  lemma DecodedStep(s: string, i: nat, last: Option<char>)
    requires i < |s| && DecodedFrom(s[i..], last).Some?
    ensures s[i] == '%' ==>
      var read := ScanHex(s[i + 1..Behind(s, i)]);
      var number := if read.Some? then read else last;
      && number.Some? && DecodedFrom(s[Behind(s, i)..], number).Some?
      && DecodedFrom(s[i..], last).value == [number.value] + DecodedFrom(s[Behind(s, i)..], number).value
    ensures s[i] != '%' ==>
      && DecodedFrom(s[i + 1..], last).Some?
      && DecodedFrom(s[i..], last).value == [if s[i] == '+' then ' ' else s[i]] + DecodedFrom(s[i + 1..], last).value
  {
    hide ScanHex;
    assert s[i..][1..] == s[i + 1..];
    assert s[i..][Behind(s[i..], 0)..] == s[Behind(s, i)..];
    assert s[i..][1..Behind(s[i..], 0)] == s[i + 1..Behind(s, i)];
  }

  // ----- The round trip

  /** The number after an encoded ASCII character was decoded. */
  function NumberAfter(c: char, last: Option<char>): Option<char> {
    if c == ' ' || Unreserved(c) then last else Some(c)
  }

  /** A character that is neither a space nor unreserved is two digits behind a percent sign. */
  lemma TwoDigits(c: char)
    requires 0 < c as int < 128 && c != ' ' && !Unreserved(c)
    ensures var n := c as int; EncodeChar(c) == ['%', HexDigit(n / 16), HexDigit(n % 16)]
    ensures ScanHex(EncodeChar(c)[1..]) == Some(c)
  {
    var n := c as int;
    assert n / 16 < 16 && Hex(n) == if n < 16 then [HexDigit(n)] else [HexDigit(n / 16)] + [HexDigit(n % 16)];
    HexDigitValue(n / 16);
    HexDigitValue(n % 16);
  }

  lemma DecodeEncodeChar(c: char, rest: string, last: Option<char>)
    requires 0 < c as int < 128 && DecodedFrom(rest, NumberAfter(c, last)).Some?
    ensures DecodedFrom(EncodeChar(c) + rest, last) == Some([c] + DecodedFrom(rest, NumberAfter(c, last)).value)
  {
    var e := EncodeChar(c);
    assert (e + rest)[|e|..] == rest;
    if c != ' ' && !Unreserved(c) {
      TwoDigits(c);
      hide EncodeChar, ScanHex, HexDigit;
      assert (e + rest)[1..3] == e[1..];
    }
  }

  lemma HexDigitValue(n: nat)
    requires n < 16
    ensures HexValue(HexDigit(n)) == Some(n)
  {}

  /** The number after a whole ASCII text was decoded. */
  function NumberBehind(s: string, last: Option<char>): Option<char> {
    if s == "" then last else NumberBehind(s[1..], NumberAfter(s[0], last))
  }

  lemma {:induction false} DecodeEncodeAscii(s: string, rest: string, last: Option<char>)
    requires Ascii(s) && DecodedFrom(rest, NumberBehind(s, last)).Some?
    ensures DecodedFrom(EncodedBody(s) + rest, last) == Some(s + DecodedFrom(rest, NumberBehind(s, last)).value)
    decreases |s|
  {
    hide DecodedFrom, EncodeChar, NumberAfter;
    var value := DecodedFrom(rest, NumberBehind(s, last)).value;
    if s == "" {
      assert EncodedBody(s) + rest == rest;
      assert s + value == value;
    } else {
      DecodeEncodeAscii(s[1..], rest, NumberAfter(s[0], last));
      DecodeEncodeChar(s[0], EncodedBody(s[1..]) + rest, last);
      Assoc(EncodeChar(s[0]), EncodedBody(s[1..]), rest);
      Assoc([s[0]], s[1..], value);
      assert s == [s[0]] + s[1..];
    }
  }

  /** The first byte that is not ASCII: its code is printed with eight digits, of which the decoder reads one. */
  lemma DecodeEncodeHigh(c: char, rest: string, last: Option<char>)
    requires 128 <= c as int < 256
    ensures DecodedFrom(EncodeChar(c) + rest, last).Some? ==>
      |DecodedFrom(EncodeChar(c) + rest, last).value| > 0 && DecodedFrom(EncodeChar(c) + rest, last).value[0] as int == 15
  {
    var n := 0x1_0000_0000 - 256 + c as int;
    var h := Hex(n);
    HexHead(n, 7);
    var e := EncodeChar(c);
    assert e == ['%', '0'] + h;
    assert (e + rest)[1..3] == ['0', 'F'];
  }

  /** Eight digits, the first of which is F. */
  lemma HexHead(n: nat, k: nat)
    requires k <= 7 && 15 * Power16(k) <= n < 16 * Power16(k)
    ensures Hex(n) != "" && Hex(n)[0] == 'F'
    decreases k
  {
    if k > 0 {
      HexHead(n / 16, k - 1);
    }
  }

  function Power16(k: nat): nat {
    if k == 0 then 1 else 16 * Power16(k - 1)
  }

  /** The position of the first character that is NUL or not ASCII. */
  function AsciiPrefix(s: string): (n: nat)
    ensures n <= |s| && Ascii(s[..n])
    ensures n < |s| ==> s[n] == NUL || s[n] as int >= 128
  {
    if s == "" || s[0] == NUL || s[0] as int >= 128 then 0
    else
      var n := 1 + AsciiPrefix(s[1..]);
      assert s[..n] == [s[0]] + s[1..][..n - 1];
      n
  }

  lemma AsciiBack(s: string)
    requires Ascii(s)
    ensures Decoded(EncodedBody(s)) == Some(s)
  {
    DecodedEnd("", NumberBehind(s, None));
    DecodeEncodeAscii(s, "", None);
    assert EncodedBody(s) + "" == EncodedBody(s);
    assert s + "" == s;
  }

  /** Encoding and decoding returns a byte string exactly when it is ASCII without NUL. */
  lemma RoundTripExact(s: string)
    requires Bytes(s)
    ensures Decoded(Encoded(s)) == Some(s) <==> Ascii(s)
  {
    hide Decoded, EncodedBody;
    var n := AsciiPrefix(s);
    if n == |s| {
      assert s[..n] == s;
      CStringWhole(s);
      AsciiBack(s);
    } else if s[n] == NUL {
      CStringCut(s, n);
      AsciiBack(s[..n]);
    } else {
      BrokenAt(s, n);
    }
  }

  lemma CStringCut(s: string, n: nat)
    requires n < |s| && s[n] == NUL && Ascii(s[..n])
    ensures CString(s) == s[..n]
  {
    assert forall k :: 0 <= k < n ==> s[k] == s[..n][k];
    assert NUL in s[..n + 1];
    assert |CString(s)| == n;
  }

  lemma BrokenAt(s: string, n: nat)
    requires Bytes(s) && n < |s| && Ascii(s[..n]) && s[n] as int >= 128
    ensures Decoded(Encoded(s)) != Some(s)
  {
    hide DecodedFrom, EncodeChar;
    var t := CString(s);
    assert forall k :: 0 <= k < n ==> s[k] == s[..n][k];
    assert |t| > n;
    assert t[..n] == s[..n] && t[n] == s[n];
    assert t == t[..n] + t[n..];
    EncodedAppend(t[..n], t[n..]);
    var tail, last := EncodedBody(t[n..]), NumberBehind(t[..n], None);
    assert tail == EncodeChar(t[n]) + EncodedBody(t[n..][1..]);
    DecodeEncodeHigh(t[n], EncodedBody(t[n..][1..]), last);
    if DecodedFrom(tail, last).Some? {
      DecodeEncodeAscii(t[..n], tail, None);
      assert (t[..n] + DecodedFrom(tail, last).value)[n] as int == 15;
    } else {
      DecodeEncodeNone(t[..n], tail, None);
    }
  }

  lemma {:induction false} EncodedAppend(a: string, b: string)
    ensures EncodedBody(a + b) == EncodedBody(a) + EncodedBody(b)
    decreases |a|
  {
    hide EncodeChar;
    if a == "" {
      assert a + b == b;
      assert EncodedBody(a) + EncodedBody(b) == EncodedBody(b);
    } else {
      EncodedAppend(a[1..], b);
      assert (a + b)[1..] == a[1..] + b;
      Assoc(EncodeChar(a[0]), EncodedBody(a[1..]), EncodedBody(b));
    }
  }

  lemma {:induction false} DecodeEncodeNone(s: string, rest: string, last: Option<char>)
    requires Ascii(s) && DecodedFrom(rest, NumberBehind(s, last)).None?
    ensures DecodedFrom(EncodedBody(s) + rest, last).None?
    decreases |s|
  {
    hide DecodedFrom, EncodeChar, NumberAfter;
    if s == "" {
      assert EncodedBody(s) + rest == rest;
    } else {
      DecodeEncodeNone(s[1..], rest, NumberAfter(s[0], last));
      DecodeNoneChar(s[0], EncodedBody(s[1..]) + rest, last);
      Assoc(EncodeChar(s[0]), EncodedBody(s[1..]), rest);
    }
  }

  lemma DecodeNoneChar(c: char, rest: string, last: Option<char>)
    requires 0 < c as int < 128 && DecodedFrom(rest, NumberAfter(c, last)).None?
    ensures DecodedFrom(EncodeChar(c) + rest, last).None?
  {
    var e := EncodeChar(c);
    assert (e + rest)[|e|..] == rest;
    if c != ' ' && !Unreserved(c) {
      TwoDigits(c);
      hide EncodeChar, ScanHex, HexDigit;
      assert (e + rest)[1..3] == e[1..];
    }
  }

  /** One escape at the end of a text. */
  lemma LoneEscape(t: string, last: Option<char>)
    requires |t| <= 2
    ensures DecodedFrom("%" + t, last) ==
      match (if ScanHex(t).Some? then ScanHex(t) else last) case Some(c) => Some([c]) case None => None
  {
    hide ScanHex;
    var s := "%" + t;
    assert s[1..Behind(s, 0)] == t && s[Behind(s, 0)..] == "";
    var number := if ScanHex(t).Some? then ScanHex(t) else last;
    assert DecodedFrom("", number) == Some("");
    assert number.Some? ==> [number.value] + "" == [number.value];
  }

  /** One digit behind a percent sign is read, also at the end; without a number it repeats the last one, if there was any. */
  lemma ShortEscapes()
    ensures Decoded("%4") == Some([4 as char]) && Decoded("%4g") == Some([4 as char]) && Decoded("%zz") == None
    ensures Decoded("%41%zz") == Some("AA")
  {
    LoneEscape("4", None);
    LoneEscape("4g", None);
    LoneEscape("zz", None);
    LoneEscape("zz", Some('A'));
    assert "%" + "4" == "%4" && "%" + "4g" == "%4g" && "%" + "zz" == "%zz";
    var s := "%41%zz";
    assert s[1..3] == "41" && s[3..] == "%zz";
    assert ScanHex("41") == Some('A');
    assert DecodedFrom("%zz", Some('A')) == Some(['A']) && ['A'] + ['A'] == "AA";
  }

  /** A byte that is not ASCII does not come back. */
  lemma HighByteLost()
    ensures Decoded(Encoded([0xE9 as char])) != Some([0xE9 as char])
  {
    RoundTripExact([0xE9 as char]);
    assert !Ascii([0xE9 as char]) by {
      assert [0xE9 as char][0] as int == 0xE9;
    }
  }

  // ----- The alphabet

  /** No character of an encoded value has a role in a form body or in JSON. */
  predicate Harmless(s: string) {
    forall k :: 0 <= k < |s| ==> Unreserved(s[k]) || s[k] == '+' || s[k] == '%'
  }

  lemma HexHarmless(n: nat)
    ensures Harmless(Hex(n))
  {}

  lemma EncodedHarmless(s: string)
    ensures Harmless(EncodedBody(s))
  {
    if s != "" {
      EncodedHarmless(s[1..]);
      if s[0] as int < 128 {
        HexHarmless(s[0] as int);
      } else {
        HexHarmless(0x1_0000_0000 - 256 + s[0] as int);
      }
      assert Harmless(EncodeChar(s[0]));
    }
  }

  // ----- Any spelling

  const LOWER_DIGITS := "0123456789abcdef"
  const UPPER_DIGITS := "0123456789ABCDEF"

  /** A hexadecimal digit in either case. */
  function Digit(n: nat, upper: bool): char
    requires n < 16
  {
    if upper then UPPER_DIGITS[n] else LOWER_DIGITS[n]
  }

  /** How a byte may be spelled: as itself, a space as a plus, or by a percent sign and two digits, each in its own case. */
  datatype Way = Itself | Plus | Percent(upperHigh: bool, upperLow: bool)

  predicate Fits(c: char, way: Way) {
    match way
    case Itself => c != '%' && c != '+'
    case Plus => c == ' '
    case Percent(_, _) => c as int < 256
  }

  function SpellChar(c: char, way: Way): string
    requires Fits(c, way)
  {
    match way
    case Itself => [c]
    case Plus => "+"
    case Percent(high, low) => ['%', Digit(c as int / 16, high), Digit(c as int % 16, low)]
  }

  predicate FitAll(s: string, ways: seq<Way>) {
    |ways| == |s| && forall k :: 0 <= k < |s| ==> Fits(s[k], ways[k])
  }

  function Spell(s: string, ways: seq<Way>): string
    requires FitAll(s, ways)
  {
    if s == "" then "" else SpellChar(s[0], ways[0]) + Spell(s[1..], ways[1..])
  }

  lemma DigitValue(n: nat, upper: bool)
    requires n < 16
    ensures HexValue(Digit(n, upper)) == Some(n)
  {}

  lemma SpelledChar(c: char, way: Way, rest: string, last: Option<char>) returns (next: Option<char>)
    requires Fits(c, way)
    ensures DecodedFrom(SpellChar(c, way) + rest, last)
         == match DecodedFrom(rest, next) case None => None case Some(t) => Some([c] + t)
  {
    var e := SpellChar(c, way);
    assert (e + rest)[|e|..] == rest;
    next := last;
    if way.Percent? {
      next := Some(c);
      var n := c as int;
      DigitValue(n / 16, way.upperHigh);
      DigitValue(n % 16, way.upperLow);
      assert (e + rest)[1..3] == e[1..3];
      assert ScanHex(e[1..3]) == Some(c);
    }
  }

  lemma {:induction false} SpelledFrom(s: string, ways: seq<Way>, last: Option<char>)
    requires FitAll(s, ways)
    ensures DecodedFrom(Spell(s, ways), last) == Some(s)
    decreases |s|
  {
    if s != "" {
      hide SpellChar, DecodedFrom;
      var next := SpelledChar(s[0], ways[0], Spell(s[1..], ways[1..]), last);
      SpelledFrom(s[1..], ways[1..], next);
      assert s == [s[0]] + s[1..];
    }
  }

  /** Whichever characters are spelled by their digits, and in whichever case each digit stands, decoding gives the bytes. */
  lemma SpelledDecodes(s: string, ways: seq<Way>)
    requires FitAll(s, ways)
    ensures Decoded(Spell(s, ways)) == Some(s)
  {
    SpelledFrom(s, ways, None);
  }

  /** Behind a percent sign a single digit counts, also behind a blank or a sign, in either case. */
  lemma LoneDigit(n: nat, upper: bool, behind: char)
    requires n < 16 && HexValue(behind).None? && !(n == 0 && (behind == 'x' || behind == 'X'))
    ensures var d := Digit(n, upper);
      && Decoded(['%', d]) == Decoded(['%', d, behind]) == Some([n as char])
      && Decoded(['%', ' ', d]) == Decoded(['%', '\t', d]) == Decoded(['%', '+', d]) == Some([n as char])
      && Decoded(['%', '-', d]) == Some([((256 - n) % 256) as char])
  {
    var d := Digit(n, upper);
    DigitValue(n, upper);
    LoneNumber([d], n as char);
    LoneNumber([d, behind], n as char);
    LoneNumber([' ', d], n as char);
    LoneNumber(['\t', d], n as char);
    LoneNumber(['+', d], n as char);
    LoneNumber(['-', d], ((256 - n) % 256) as char);
    hide Decoded, Digit, HexValue;
    assert ['%'] + [d] == ['%', d] && ['%'] + [d, behind] == ['%', d, behind];
    assert ['%'] + [' ', d] == ['%', ' ', d] && ['%'] + ['\t', d] == ['%', '\t', d];
    assert ['%'] + ['+', d] == ['%', '+', d] && ['%'] + ['-', d] == ['%', '-', d];
  }

  lemma LoneNumber(t: string, c: char)
    requires 0 < |t| <= 2 && ScanHex(t) == Some(c)
    ensures Decoded(['%'] + t) == Some([c])
  {
    hide ScanHex;
    var s := ['%'] + t;
    assert s[1..Behind(s, 0)] == t && s[Behind(s, 0)..] == "";
    assert DecodedFrom("", Some(c)) == Some("");
    assert [c] + "" == [c];
  }

  /** The encoding of every byte but NUL, by the digits of its number. */
  lemma EncodedByDigits(c: char)
    requires 0 < c as int < 256
    ensures EncodeChar(c) ==
      if c == ' ' then "+"
      else if 'a' <= c <= 'z' || 'A' <= c <= 'Z' || '0' <= c <= '9' || c in "-_.~" then [c]
      else (if c as int < 128 then "%" else "%0FFFFFF") + [UPPER_DIGITS[c as int / 16], UPPER_DIGITS[c as int % 16]]
  {
    var n := c as int;
    if n >= 128 {
      HighDigits(n);
    } else if c != ' ' && !Unreserved(c) {
      TwoDigits(c);
    }
  }

  lemma HighDigits(n: nat)
    requires 128 <= n < 256
    ensures Hex(0x1_0000_0000 - 256 + n) == "FFFFFF" + [UPPER_DIGITS[n / 16], UPPER_DIGITS[n % 16]]
  {
    hide Hex, HexDigit;
    HighHex(n);
    HexOfFs();
    SixFs(n);
    FsBefore(UPPER_DIGITS[n / 16], UPPER_DIGITS[n % 16]);
  }

  lemma HighHex(n: nat)
    requires 128 <= n < 256
    ensures Hex(0x1_0000_0000 - 256 + n) == Hex(0xFFFFFF) + [HexDigit(n / 16)] + [HexDigit(n % 16)]
  {
    hide Hex, HexDigit;
    var top := 0xFFFFFF0 + n / 16;
    assert 0x1_0000_0000 - 256 + n == 16 * top + n % 16;
    HexStep(0xFFFFFF, n / 16);
    HexStep(top, n % 16);
  }

  lemma FsBefore(high: char, low: char)
    ensures ['F'] + ['F'] + ['F'] + ['F'] + ['F'] + ['F'] + [high] + [low] == "FFFFFF" + [high, low]
  {}

  lemma HexStep(n: nat, digit: nat)
    requires n > 0 && digit < 16
    ensures Hex(16 * n + digit) == Hex(n) + [HexDigit(digit)]
  {
    hide HexDigit;
    assert (16 * n + digit) / 16 == n && (16 * n + digit) % 16 == digit;
  }

  lemma HexOfFs()
    ensures Hex(0xFFFFFF) == [HexDigit(15)] + [HexDigit(15)] + [HexDigit(15)] + [HexDigit(15)] + [HexDigit(15)] + [HexDigit(15)]
  {
    hide HexDigit;
    assert Hex(0xF) == [HexDigit(15)];
    hide Hex;
    HexStep(0xF, 15);
    HexStep(0xFF, 15);
    HexStep(0xFFF, 15);
    HexStep(0xFFFF, 15);
    HexStep(0xFFFFF, 15);
  }

  lemma SixFs(n: nat)
    requires 128 <= n < 256
    ensures HexDigit(15) == 'F' && HexDigit(n / 16) == UPPER_DIGITS[n / 16] && HexDigit(n % 16) == UPPER_DIGITS[n % 16]
  {}
}
