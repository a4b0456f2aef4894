/**
 * Escape sequences: the printer that puts them in, and the reader that takes them out and unifies line ends.
 *
 * Strings are sequences of bytes, written as characters below 256.
 */
module Escapes {
  import Utf8

  /** What follows the backslash, for every character that `Recover` escapes. */
  const RECOVER_LIST: map<char, char> :=
    map['\U{8}' := 'b', '\U{C}' := 'f', '\n' := 'n', '\r' := 'r', '\t' := 't', '\U{B}' := 'v', '\\' := '\\',
        '"' := '"', '\'' := '\'', '\0' := '0']

  /** The same for JSON texts. */
  const JSON_LIST: map<char, char> :=
    map['\U{8}' := 'b', '\U{C}' := 'f', '\n' := 'n', '\r' := 'r', '\t' := 't', '\\' := '\\', '"' := '"']

  /** What the reader takes a character after a backslash for. */
  const ESCAPED: map<char, char> :=
    map['0' := '\0', '\\' := '\\', 'b' := '\U{8}', 'f' := '\U{C}', 'n' := '\n', 'r' := '\r', 't' := '\t',
        'v' := '\U{B}', '\'' := '\'', '"' := '"', '?' := '?']

  // ----- the printer -----

  function Escaped(s: string, list: map<char, char>): string {
    if s == "" then "" else (if s[0] in list then ['\\', list[s[0]]] else [s[0]]) + Escaped(s[1..], list)
  }

  method EscapeString(str: string, escapeList: map<char, char>) returns (newStr: string)
    ensures newStr == Escaped(str, escapeList)
  {
    newStr := "";
    for i := 0 to |str|
      invariant newStr + Escaped(str[i..], escapeList) == Escaped(str, escapeList)
    {
      assert str[i..][1..] == str[i + 1..];
      if str[i] in escapeList {
        newStr := newStr + ['\\'] + [escapeList[str[i]]];
      } else {
        newStr := newStr + [str[i]];
      }
    }
    assert str[|str|..] == "";
  }

  method Recover(str: string) returns (r: string)
    ensures r == Escaped(str, RECOVER_LIST) && Normalized(r, false) == str
  {
    PrintedStringsAreReadBack(str);
    r := EscapeString(str, RECOVER_LIST);
  }

  method EscapeToJsonString(str: string) returns (r: string)
    ensures r == Escaped(str, JSON_LIST) && Normalized(r, false) == str
  {
    PrintedStringsAreReadBack(str);
    r := EscapeString(str, JSON_LIST);
  }

  // ----- the reader -----

  const UINT32_RANGE: nat := 0x1_0000_0000

  function HexDigit(c: char): int {
    if '0' <= c <= '9' then c as int - '0' as int
    else if 'A' <= c <= 'F' then c as int - 'A' as int + 10
    else if 'a' <= c <= 'f' then c as int - 'a' as int + 10
    else -1
  }

  predicate AreHexDigits(s: string) {
    forall k :: 0 <= k < |s| ==> HexDigit(s[k]) >= 0
  }

  /** How many hexadecimal digits a string starts with. */
  function HexLength(s: string): (n: nat)
    ensures n <= |s| && AreHexDigits(s[..n]) && (n < |s| ==> HexDigit(s[n]) < 0)
  {
    if s == "" || HexDigit(s[0]) < 0 then 0 else 1 + HexLength(s[1..])
  }

  /** The value of hexadecimal digits after those of `value`, on 32-bit words. */
  function HexValue(digits: string, value: nat): (v: nat)
    requires AreHexDigits(digits)
    requires value < UINT32_RANGE
    ensures v < UINT32_RANGE
  {
    if digits == "" then value else HexValue(digits[1..], (value * 16 + HexDigit(digits[0])) % UINT32_RANGE)
  }

  function Chars(bytes: seq<Utf8.Byte>): string {
    if bytes == [] then "" else [bytes[0] as int as char] + Chars(bytes[1..])
  }

  function UnicodeText(digits: string): string
    requires AreHexDigits(digits)
  {
    Chars(Utf8.CodepointToUTF8(HexValue(digits, 0) as bv32))
  }

  predicate OpensUnicode(s: string) {
    |s| > 2 && s[1] == 'u' && s[2] == '{'
  }

  /** What the reader makes of a string, and how much of it the first step takes. */
  function Front(s: string, isRawString: bool): (r: (string, nat))
    requires s != ""
    ensures 0 < r.1 <= |s|
  {
    if s[0] == '\\' && |s| > 1 && !isRawString then
      if OpensUnicode(s) then
        var n := HexLength(s[3..]);
        // The character after the digits is taken for the closing brace, whatever it is.
        (UnicodeText(s[3..][..n]), if 3 + n < |s| then 4 + n else |s|)
      else if s[1] in ESCAPED then ([ESCAPED[s[1]]], 2)
      else ("", 1)
    else if s[0] == '\r' then ("\n", if |s| > 1 && s[1] == '\n' then 2 else 1)
    else ([s[0]], 1)
  }

  function Normalized(s: string, isRawString: bool): string
    decreases |s|
  {
    if s == "" then "" else Front(s, isRawString).0 + Normalized(s[Front(s, isRawString).1..], isRawString)
  }

  method GetUnicodeAndToUTF8(str: string, it: nat) returns (text: string, next: nat)
    requires it <= |str|
    ensures next == it + HexLength(str[it..]) <= |str|
    ensures text == UnicodeText(str[it..][..next - it])
  {
    hide HexDigit, HexValue, AreHexDigits, HexLength, Chars, Utf8.CodepointToUTF8;
    var unicodePoint: nat := 0;
    ghost var rest := str[it..];
    next := it;
    NoHexDigits();
    assert rest[..0] == "" && rest[0..] == rest;
    while next < |str| && HexDigit(str[next]) >= 0
      invariant it <= next <= |str| && unicodePoint < UINT32_RANGE
      invariant HexLength(rest) == next - it + HexLength(rest[next - it..])
      invariant AreHexDigits(rest[..next - it]) && HexValue(rest[..next - it], 0) == unicodePoint
    {
      OneMoreHexDigit(rest, next - it);
      unicodePoint := (unicodePoint * 16 + HexDigit(str[next])) % UINT32_RANGE;
      next := next + 1;
    }
    NoMoreHexDigits(rest, next - it);
    text := Chars(Utf8.CodepointToUTF8(unicodePoint as bv32));
  }

  lemma NoHexDigits()
    ensures AreHexDigits("") && HexValue("", 0) == 0
  {
  }

  lemma NoMoreHexDigits(rest: string, n: nat)
    requires n <= |rest| && (n == |rest| || HexDigit(rest[n]) < 0)
    ensures HexLength(rest[n..]) == 0
  {
  }

  lemma OneMoreHexDigit(rest: string, n: nat)
    requires n < |rest| && HexDigit(rest[n]) >= 0 && AreHexDigits(rest[..n])
    ensures HexLength(rest[n..]) == 1 + HexLength(rest[n + 1..])
    ensures AreHexDigits(rest[..n + 1])
    ensures HexValue(rest[..n + 1], 0) == (HexValue(rest[..n], 0) * 16 + HexDigit(rest[n])) % UINT32_RANGE
  {
    assert rest[n..][1..] == rest[n + 1..];
    assert rest[..n + 1] == rest[..n] + [rest[n]];
    HexValueGrows(rest[..n], rest[n], 0);
  }

  lemma {:induction false} HexValueGrows(digits: string, c: char, value: nat)
    requires AreHexDigits(digits) && HexDigit(c) >= 0 && value < UINT32_RANGE
    ensures AreHexDigits(digits + [c])
    ensures HexValue(digits + [c], value) == (HexValue(digits, value) * 16 + HexDigit(c)) % UINT32_RANGE
  {
    if digits == "" {
      assert (digits + [c])[1..] == "";
    } else {
      assert (digits + [c])[1..] == digits[1..] + [c];
      HexValueGrows(digits[1..], c, (value * 16 + HexDigit(digits[0])) % UINT32_RANGE);
    }
  }

  /** What is written and what the rest reads as make up the whole. */
  ghost predicate IsUpTo(str: string, isRawString: bool, it: nat, written: string) {
    it <= |str| && written + Normalized(str[it..], isRawString) == Normalized(str, isRawString)
  }

  lemma StartOf(str: string, isRawString: bool)
    ensures IsUpTo(str, isRawString, 0, "")
  {
    assert str[0..] == str;
  }

  lemma EndOf(str: string, isRawString: bool, written: string)
    requires IsUpTo(str, isRawString, |str|, written)
    ensures written == Normalized(str, isRawString)
  {
    assert str[|str|..] == "";
  }

  lemma TakeFront(str: string, isRawString: bool, it: nat, written: string)
    requires IsUpTo(str, isRawString, it, written) && it < |str|
    ensures var (text, n) := Front(str[it..], isRawString);
            IsUpTo(str, isRawString, it + n, written + text)
  {
    var (text, n) := Front(str[it..], isRawString);
    assert str[it..][n..] == str[it + n..];
    hide Front;
  }

  method Normalize(str: string, isRawString: bool) returns (str1: string)
    ensures str1 == Normalized(str, isRawString)
  {
    hide IsUpTo, Normalized, UnicodeText, HexLength;
    str1 := "";
    var it: nat := 0;
    StartOf(str, isRawString);
    while it < |str|
      invariant IsUpTo(str, isRawString, it, str1) && it <= |str|
    {
      ghost var start := it;
      TakeFront(str, isRawString, it, str1);
      if str[it] == '\\' && it + 1 != |str| && !isRawString {
        if it + 2 != |str| && str[it + 1] == 'u' && str[it + 2] == '{' {
          it := it + 3;
          assert str[start..][3..] == str[it..];
          var text, after := GetUnicodeAndToUTF8(str, it);
          it := after;
          str1 := str1 + text;
        } else if str[it + 1] in ESCAPED {
          it := it + 1;
          str1 := str1 + [ESCAPED[str[it]]];
        } else {
          assert str1 + "" == str1;
        }
        if it == |str| {
          break;
        }
      } else if str[it] == '\r' {
        if it + 1 != |str| && str[it + 1] == '\n' {
          it := it + 1;
          str1 := str1 + [str[it]];
        } else {
          str1 := str1 + "\n";
        }
      } else {
        str1 := str1 + [str[it]];
      }
      it := it + 1;
    }
    EndOf(str, isRawString, str1);
  }

  // ----- round trips -----

  /** The reader undoes every escape of the list, and the list covers what the reader would change. */
  predicate IsReadBack(list: map<char, char>) {
    && '\\' in list && '\r' in list
    && forall c :: c in list ==> list[c] != 'u' && list[c] in ESCAPED && ESCAPED[list[c]] == c
  }

  lemma BothListsAreReadBack()
    ensures IsReadBack(RECOVER_LIST) && IsReadBack(JSON_LIST)
  {
    hide IsReadBack;
    RecoverListIsReadBack();
    JsonListIsReadBack();
  }

  lemma RecoverListIsReadBack()
    ensures IsReadBack(RECOVER_LIST)
  {
  }

  lemma JsonListIsReadBack()
    ensures IsReadBack(JSON_LIST)
  {
  }

  /** Every string survives being printed with escapes and read again, whatever it holds. */
  lemma {:induction false} EscapeRoundTrip(s: string, list: map<char, char>)
    requires IsReadBack(list)
    ensures Normalized(Escaped(s, list), false) == s
  {
    if s != "" {
      var c, rest := s[0], Escaped(s[1..], list);
      EscapeRoundTrip(s[1..], list);
      if c in list {
        var e := ['\\', list[c]] + rest;
        assert Front(e, false) == ([c], 2) && e[2..] == rest;
      } else {
        var e := [c] + rest;
        assert Front(e, false) == ([c], 1) && e[1..] == rest;
      }
    }
  }

  /** So what `Recover` prints is read back as it was, and so is what is printed for JSON. */
  lemma PrintedStringsAreReadBack(s: string)
    ensures Normalized(Escaped(s, RECOVER_LIST), false) == s
    ensures Normalized(Escaped(s, JSON_LIST), false) == s
  {
    BothListsAreReadBack();
    EscapeRoundTrip(s, RECOVER_LIST);
    EscapeRoundTrip(s, JSON_LIST);
  }

  /** A raw string only has its line ends unified: no carriage return is left, and doing it again changes nothing. */
  lemma {:induction false} RawStringsAreUnified(s: string)
    ensures '\r' !in Normalized(s, true)
    ensures Normalized(Normalized(s, true), true) == Normalized(s, true)
  {
    if s != "" {
      var n := Front(s, true).1;
      RawStringsAreUnified(s[n..]);
      var t := Normalized(s, true);
      assert t[0] != '\r' && t[1..] == Normalized(s[n..], true);
    }
  }

  /** A backslash that starts no escape is dropped, so the printer does not undo the reader. */
  lemma UnknownEscapesLoseTheirBackslash(c: char, s: string)
    requires c !in ESCAPED && c != '\r' && !OpensUnicode(['\\', c] + s)
    ensures Normalized(['\\', c] + s, false) == [c] + Normalized(s, false)
  {
    var t := ['\\', c] + s;
    assert t[1..] == [c] + s && t[1..][1..] == s;
    assert '\\' in ESCAPED;
    assert Front(t, false) == ("", 1) && Front([c] + s, false) == ([c], 1);
  }

  // ----- what single escapes and line ends stand for -----

  /** Each escape of one character is read as the character of this code. */
  lemma EscapesAreRead(mark: char, code: nat, s: string)
    requires (mark, code) in {('0', 0), ('b', 8), ('t', 9), ('n', 10), ('v', 11), ('f', 12), ('r', 13), ('"', 34),
                              ('\'', 39), ('?', 63), ('\\', 92)}
    ensures Normalized(['\\', mark] + s, false) == [code as char] + Normalized(s, false)
  {
    var t := ['\\', mark] + s;
    assert Front(t, false) == ([code as char], 2) && t[2..] == s;
  }

  /** A carriage return is read as a line feed, and so is one with a line feed behind it, in raw strings too. */
  lemma LineEndsAreUnified(s: string, isRawString: bool)
    ensures Normalized("\r\n" + s, isRawString) == "\n" + Normalized(s, isRawString)
    ensures Normalized("\n" + s, isRawString) == "\n" + Normalized(s, isRawString)
    ensures !("\n" <= s) ==> Normalized("\r" + s, isRawString) == "\n" + Normalized(s, isRawString)
  {
    var both, feed, back := "\r\n" + s, "\n" + s, "\r" + s;
    assert Front(both, isRawString) == ("\n", 2) && both[2..] == s;
    assert Front(feed, isRawString) == ("\n", 1) && feed[1..] == s;
    assert back[1..] == s;
    if !("\n" <= s) {
      assert Front(back, isRawString) == ("\n", 1);
    }
  }

  /** The digits, by their places. */
  lemma HexDigitsAre(c: char)
    ensures var d := HexDigit(c);
            if d < 0 then c !in "0123456789abcdefABCDEF"
            else d < 16 && c in {"0123456789abcdef"[d], "0123456789ABCDEF"[d]}
  {
  }

  /** A code of two hexadecimal digits, if below 128, is read as the character of that code. */
  lemma CodeIsRead(high: char, low: char, code: nat)
    requires HexDigit(high) >= 0 && HexDigit(low) >= 0 && code == 16 * HexDigit(high) + HexDigit(low) < 128
    ensures Normalized("\\u{" + [high, low] + "}", false) == [code as char]
  {
    hide HexDigit, HexValue, HexLength, UnicodeText, AreHexDigits, Normalized;
    var digits := [high, low];
    var t := "\\u{" + digits + "}";
    TwoHexDigits(high, low);
    AllHexDigits(digits, "}");
    assert t[3..] == digits + "}" && t[3..][..|digits|] == digits;
    OneCharacter(digits, code);
    NormalizedWhole(t, [code as char]);
  }

  lemma TwoHexDigits(high: char, low: char)
    requires HexDigit(high) >= 0 && HexDigit(low) >= 0
    ensures AreHexDigits([high, low]) && HexValue([high, low], 0) == 16 * HexDigit(high) + HexDigit(low)
    ensures HexDigit('}') < 0
  {
    assert HexDigit(high) < 16 && HexDigit(low) < 16;
    assert HexValue("", 16 * HexDigit(high) + HexDigit(low)) == 16 * HexDigit(high) + HexDigit(low);
    hide HexDigit;
    assert [high, low][1..] == [low] && [low][1..] == "";
  }

  lemma NormalizedWhole(t: string, text: string)
    requires t != "" && Front(t, false) == (text, |t|)
    ensures Normalized(t, false) == text
  {
    assert t[|t|..] == "";
    hide Front;
  }

  lemma WordOfCode(code: nat)
    requires code < 128
    ensures (code as bv32) as int == code && code as bv32 < 128
  {
  }

  lemma OneCharacter(digits: string, code: nat)
    requires AreHexDigits(digits) && HexValue(digits, 0) == code < 128
    ensures UnicodeText(digits) == [code as char]
  {
    hide HexValue, AreHexDigits;
    WordOfCode(code);
    var u := Utf8.CodepointToUTF8(HexValue(digits, 0) as bv32);
    assert u == [code as bv32];
    assert u[1..] == [];
    assert Chars(u[1..]) == "";
    assert Chars(u) == [u[0] as int as char] + "";
  }

  lemma {:induction false} AllHexDigits(digits: string, rest: string)
    requires AreHexDigits(digits) && (rest != "" ==> HexDigit(rest[0]) < 0)
    ensures HexLength(digits + rest) == |digits|
  {
    hide HexDigit;
    if digits != "" {
      assert (digits + rest)[1..] == digits[1..] + rest;
      AllHexDigits(digits[1..], rest);
    } else {
      assert digits + rest == rest;
    }
  }

  /** A JSON text: no bare quote, backslash or line end, and behind a backslash one of the short escapes. */
  predicate IsJsonText(s: string) {
    s == "" ||
    if s[0] == '\\' then |s| >= 2 && s[1] in {'b', 'f', 'n', 'r', 't', '"', '\\'} && IsJsonText(s[2..])
    else s[0] as int !in {8, 9, 10, 12, 13, 34} && IsJsonText(s[1..])
  }

  lemma ListedForJson(c: char)
    ensures c in JSON_LIST <==> c as int in {8, 9, 10, 12, 13, 34, 92}
    ensures c in JSON_LIST ==> JSON_LIST[c] in {'b', 'f', 'n', 'r', 't', '"', '\\'}
  {
  }

  /** What is printed for JSON has no bare quote, backslash or line end. */
  lemma {:induction false} JsonTextsHaveNoBareQuotes(s: string)
    ensures IsJsonText(Escaped(s, JSON_LIST))
  {
    if s != "" {
      var c, rest := s[0], Escaped(s[1..], JSON_LIST);
      JsonTextsHaveNoBareQuotes(s[1..]);
      if c in JSON_LIST {
        var e := ['\\', JSON_LIST[c]] + rest;
        ListedForJson(c);
        assert Escaped(s, JSON_LIST) == e && e[2..] == rest;
        assert JSON_LIST[c] in {'b', 'f', 'n', 'r', 't', '"', '\\'};
        assert IsJsonText(e);
      } else {
        var e := [c] + rest;
        ListedForJson(c);
        assert Escaped(s, JSON_LIST) == e && e[1..] == rest;
        assert IsJsonText(e);
      }
    }
  }
}
