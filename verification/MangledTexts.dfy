/**
 * Mangled names as texts: the constants and numerals they are made of, and what is kept of a demangled name.
 */
module MangledTexts {
  import opened Arithmetic

  const MANGLE_GENERIC_PREFIX := 'I'
  const MANGLE_FUNCTION_PREFIX := 'H'
  const MANGLE_COUNT_PREFIX := 'K'
  const MANGLE_FILE_ID_PREFIX := 'U'
  const MANGLE_EXTEND_PREFIX := 'X'
  const MANGLE_LAMBDA_PREFIX := 'L'
  const MANGLE_UNDERSCORE_PREFIX := '_'
  const MANGLE_VOID_PREFIX := 'v'
  const MANGLE_END := '$'
  const END := 'E'
  const FILE_HASH_LEN := 13
  const MAX_ARGS_SIZE := 16
  const ARGS_DELIMITER := ", "
  const SIZE_RANGE: nat := 0x1_0000_0000_0000_0000
  const UINT32_MAX: nat := 0xFFFF_FFFF

  datatype TypeKind =
    | NAME | PRIMITIVE | CSTRING | CLASS | STRUCT | ENUM | RAW_ARRAY | TUPLE | CPOINTER | FUNCTION | COMMON_DECL
    | FUNCTION_DECL | FUNCTION_PARAMETER_TYPES | LAMBDA_FUNCTION | GENERIC_TYPES | GENERIC_CONSTRAINTS
    | WRAPPED_FUNCTION

  // ----- strings -----

  function SubStr(s: string, index: nat, len: nat): string
    requires index <= |s|
  {
    if index + len <= |s| then s[index..index + len] else s[index..]
  }

  /** The first place from `from` on where the pattern stands, or -1. */
  function Find(s: string, pattern: string, from: nat): (pos: int)
    ensures pos == -1 || (from <= pos && pos + |pattern| <= |s| && s[pos..pos + |pattern|] == pattern)
    decreases |s| - from
  {
    if from + |pattern| > |s| then -1
    else if s[from..from + |pattern|] == pattern then from
    else Find(s, pattern, from + 1)
  }

  lemma FindStep(s: string, c: char, i: nat)
    ensures i < |s| ==> Find(s, [c], i) == if s[i] == c then i else Find(s, [c], i + 1)
    ensures i >= |s| ==> Find(s, [c], i) == -1
  {
    if i < |s| {
      assert s[i..i + 1] == [s[i]];
    }
  }

  function EndsWith(s: string, suffix: string): bool {
    |suffix| <= |s| && s[|s| - |suffix|..] == suffix
  }

  /** A string as C code reads it: up to its first null character. */
  function CStr(s: string): (r: string)
    ensures r <= s && '\0' !in r && (r == s || s[|r|] == '\0')
  {
    if s == "" || s[0] == '\0' then "" else [s[0]] + CStr(s[1..])
  }

  function ReplaceChar(s: string, c: char, replacement: string): string {
    if s == "" then "" else (if s[0] == c then replacement else [s[0]]) + ReplaceChar(s[1..], c, replacement)
  }

  predicate IsDigit(c: char) {
    '0' <= c <= '9'
  }

  function Base62Digit(c: char): (d: int)
    ensures -1 <= d < 62
  {
    if '0' <= c <= '9' then c as int - '0' as int
    else if 'A' <= c <= 'Z' then c as int - 'A' as int + 10
    else if 'a' <= c <= 'z' then c as int - 'a' as int + 36
    else -1
  }

  predicate IsBase62(s: string) {
    forall k :: 0 <= k < |s| ==> Base62Digit(s[k]) >= 0
  }

  function PrimitiveName(c: char): string {
    match c
    case 'u' => "Unit" case 'n' => "Nothing" case 'b' => "Bool" case 'D' => "Float16" case 'f' => "Float32"
    case 'd' => "Float64" case 'c' => "Rune" case 'a' => "Int8" case 's' => "Int16" case 'i' => "Int32"
    case 'l' => "Int64" case 'h' => "UInt8" case 't' => "UInt16" case 'j' => "UInt32" case 'm' => "UInt64"
    case 'q' => "IntNative" case 'r' => "UIntNative" case _ => ""
  }

  /** The operator that a pair of lower-case letters names, or the empty string. */
  function OperatorName(pair: string): string
    requires |pair| == 2
  {
    if !('a' <= pair[0] <= 'z' && 'a' <= pair[1] <= 'z') then ""
    else
      match (pair[0] as int - 97) * 32 + pair[1] as int - 97
      case 279 => "[]" case 435 => "!" case 422 => "-" case 502 => "**" case 395 => "*" case 117 => "/"
      case 556 => "%" case 491 => "+" case 370 => "<<" case 562 => ">>" case 371 => "<" case 211 => ">"
      case 356 => "<=" case 196 => ">=" case 144 => "==" case 420 => "!=" case 13 => "&" case 142 => "^"
      case 465 => "|" case 75 => "()" case _ => ""
  }

  /** The primitive types, letter by letter. */
  lemma PrimitivesAre(c: char)
    ensures PrimitiveName(c) == "" <==> c !in "unbDfdcasilhtjmqr"
    ensures PrimitiveName(c) != "" ==>
      (c, PrimitiveName(c)) in {('u', "Unit"), ('n', "Nothing"), ('b', "Bool"), ('D', "Float16"), ('f', "Float32"),
        ('d', "Float64"), ('c', "Rune"), ('a', "Int8"), ('s', "Int16"), ('i', "Int32"), ('l', "Int64"), ('h', "UInt8"),
        ('t', "UInt16"), ('j', "UInt32"), ('m', "UInt64"), ('q', "IntNative"), ('r', "UIntNative")}
  {
  }

  /** The operators, code by code. */
  lemma OperatorsAre(pair: string)
    requires |pair| == 2
    ensures OperatorName(pair) != "" ==>
      (pair, OperatorName(pair)) in {("ix", "[]"), ("nt", "!"), ("ng", "-"), ("pw", "**"), ("ml", "*"), ("dv", "/"),
        ("rm", "%"), ("pl", "+"), ("ls", "<<"), ("rs", ">>"), ("lt", "<"), ("gt", ">"), ("le", "<="), ("ge", ">="),
        ("eq", "=="), ("ne", "!="), ("an", "&"), ("eo", "^"), ("or", "|"), ("cl", "()")}
    ensures OperatorName(pair) == "" ==>
      pair !in {"ix", "nt", "ng", "pw", "ml", "dv", "rm", "pl", "ls", "rs", "lt", "gt", "le", "ge", "eq", "ne", "an",
                "eo", "or", "cl"}
  {
    assert pair == [pair[0], pair[1]];
  }

  // ----- demangled names -----

  datatype DemangleInfo = DemangleInfo(demangled: string, kind: TypeKind, isValid: bool, pkgName: string, args: string,
                                       genericConstraints: string, genericTypes: string, functionParameterTypes: string,
                                       isPrivateDeclaration: bool)
  {
    predicate IsFunctionLike() {
      kind == FUNCTION_DECL || kind == LAMBDA_FUNCTION || kind == FUNCTION || kind == WRAPPED_FUNCTION
    }

    function GetIdentifier(): string {
      if |demangled| >= 2 && demangled[0] == '<' && EndsWith(demangled, ">") then demangled[1..|demangled| - 1]
      else demangled
    }

    function GetArgTypesName(argsNum: nat): string {
      if args == "" then (if IsFunctionLike() then "()" else "")
      else if IsFunctionLike() then "(" + args + ")"
      else if argsNum != 0 then "<" + args + ",$" + UIntToString(argsNum) + ">"
      else "<" + args + ">"
    }

    function GetFullName(scopeRes: string, argsNum: nat := 0): string {
      if kind == FUNCTION then GetArgTypesName(0) + " -> " + demangled
      else if kind == GENERIC_CONSTRAINTS then ", " + demangled + " <: " + ReplaceChar(args, ',', " &")
      else
        (if !IsFunctionLike() && kind != COMMON_DECL then
           (if pkgName != "" && GetIdentifier() != "" then pkgName + scopeRes + GetIdentifier()
            else pkgName + GetIdentifier())
         else GetIdentifier())
        + genericTypes + GetArgTypesName(argsNum) + genericConstraints
    }
  }

  function Info(demangled: string, kind: TypeKind, isValid: bool := true): DemangleInfo {
    DemangleInfo(demangled, kind, isValid, "", "", "", "", "", false)
  }

  function UIntToString(value: nat): string {
    if value < 10 then [('0' as int + value) as char] else UIntToString(value / 10) + UIntToString(value % 10)
  }

  /** The first `n` of the collected arguments with a delimiter between them. */
  function Join(args: seq<string>, n: nat, delimiter: string): string
    requires n <= |args|
  {
    if n == 0 then "" else if n == 1 then args[0] else Join(args, n - 1, delimiter) + delimiter + args[n - 1]
  }

  /** All of the collected arguments, each with a delimiter after it. */
  function Flush(args: seq<string>, delimiter: string): string {
    if args == [] then "" else args[0] + delimiter + Flush(args[1..], delimiter)
  }

  function Truncate(s: string, n: nat): string {
    if n <= |s| then s[..|s| - n] else s
  }

  /** `content` is what a scan from `i` to `j` has collected. */
  predicate IsSlice(s: string, i: nat, j: nat, content: string) {
    i <= j <= |s| && content == s[i..j]
  }

  lemma SliceStarts(s: string, i: nat)
    requires i <= |s|
    ensures IsSlice(s, i, i, "")
  {
  }

  lemma SliceGrows(s: string, i: nat, j: nat, content: string)
    requires IsSlice(s, i, j, content)
    ensures |content| == j - i
    ensures j < |s| ==> IsSlice(s, i, j + 1, content + [s[j]])
  {
  }

  // ----- numbers -----

  function DecimalValue(s: string): nat
    requires forall k :: 0 <= k < |s| ==> IsDigit(s[k])
  {
    if s == "" then 0
    else
      var d := s[|s| - 1];
      assert IsDigit(d);
      DecimalValue(s[..|s| - 1]) * 10 + (d as int - '0' as int)
  }

  /** The digits that a string starts with. */
  function Digits(s: string): (d: string)
    ensures d <= s && forall k :: 0 <= k < |d| ==> IsDigit(d[k])
    ensures d == s || !IsDigit(s[|d|])
  {
    if s == "" || !IsDigit(s[0]) then "" else [s[0]] + Digits(s[1..])
  }

  lemma {:induction false} DigitsAre(s: string, d: string)
    requires d <= s && (forall k :: 0 <= k < |d| ==> IsDigit(d[k])) && (d == s || !IsDigit(s[|d|]))
    ensures Digits(s) == d
  {
    var e := Digits(s);
    assert |e| >= |d|;
    assert |d| >= |e|;
  }

  function Base62Value(s: string): nat
    requires IsBase62(s)
  {
    if s == "" then 0 else Base62Value(s[..|s| - 1]) * 62 + Base62Digit(s[|s| - 1])
  }

  function Pow62(n: nat): nat {
    if n == 0 then 1 else 62 * Pow62(n - 1)
  }

  lemma Times62(d: nat, p: nat, v: nat)
    ensures (d * p + v) * 62 == d * (62 * p) + v * 62
  {
  }

  lemma {:induction false} Base62FromTheLeft(s: string)
    requires s != "" && IsBase62(s)
    ensures Base62Value(s) == Base62Digit(s[0]) * Pow62(|s| - 1) + Base62Value(s[1..])
  {
    if |s| > 1 {
      var t := s[..|s| - 1];
      Base62FromTheLeft(t);
      assert s[1..][..|s[1..]| - 1] == t[1..];
      Times62(Base62Digit(s[0]), Pow62(|t| - 1), Base62Value(t[1..]));
    } else {
      assert s[..0] == "" && s[1..] == "";
    }
  }

  /** What the characters before the underscore of a mangling number stand for, on 64-bit words. */
  function ManglingNumber(content: string): nat
    requires IsBase62(content)
  {
    if content == "" then 0 else (Base62Value(content) + 1) % SIZE_RANGE
  }

  lemma NoDigits()
    ensures IsBase62("") && ManglingNumber("") == 0
  {
  }

  lemma NumberIs(content: string, value: nat)
    requires content != "" && IsBase62(content) && value == Base62Value(content) % SIZE_RANGE
    ensures (value + 1) % SIZE_RANGE == ManglingNumber(content)
  {
    PlusOne(Base62Value(content));
  }

  function Base62Char(d: nat): (c: char)
    requires d < 62
    ensures Base62Digit(c) == d
  {
    if d < 10 then ('0' as int + d) as char
    else if d < 36 then ('A' as int + d - 10) as char
    else ('a' as int + d - 36) as char
  }

  /** The digits of base 62, by their places. */
  lemma Base62CharsAre(d: nat)
    requires d < 62
    ensures d < 10 ==> Base62Char(d) == "0123456789"[d]
    ensures 10 <= d < 36 ==> Base62Char(d) == "ABCDEFGHIJKLMNOPQRSTUVWXYZ"[d - 10]
    ensures 36 <= d ==> Base62Char(d) == "abcdefghijklmnopqrstuvwxyz"[d - 36]
  {
  }

  function Base62(n: nat): (s: string)
    ensures s != "" && '_' !in s && IsBase62(s)
  {
    if n < 62 then [Base62Char(n)] else Base62(n / 62) + [Base62Char(n % 62)]
  }

  lemma {:induction false} Base62RoundTrip(n: nat)
    ensures Base62Value(Base62(n)) == n
  {
    var s := Base62(n);
    if n < 62 {
      assert s[..0] == "";
    } else {
      Base62RoundTrip(n / 62);
      assert s[..|s| - 1] == Base62(n / 62);
    }
  }

  /** Every number that fits a word is written as some mangling number. */
  lemma MangledNumbersAreRead(n: nat)
    requires n < SIZE_RANGE
    ensures var content := if n == 0 then "" else Base62(n - 1);
            '_' !in content && IsBase62(content) && ManglingNumber(content) == n
  {
    if n > 0 {
      Base62RoundTrip(n - 1);
    }
  }

  /** The value of a base 62 number on 64-bit words, read from its least significant digit on. */
  method ReadBase62(content: string) returns (ok: bool, value: nat)
    ensures ok == IsBase62(content)
    ensures ok ==> value == Base62Value(content) % SIZE_RANGE
  {
    value := 0;
    var power: nat := 1;
    var index := |content|;
    assert content[|content|..] == "";
    while index > 0
      invariant 0 <= index <= |content|
      invariant IsBase62(content[index..])
      invariant value == Base62Value(content[index..]) % SIZE_RANGE
      invariant power == Pow62(|content| - index) % SIZE_RANGE
    {
      var d := Base62Digit(content[index - 1]);
      if d < 0 {
        return false, 0;
      }
      var rest := content[index - 1..];
      assert rest[1..] == content[index..];
      assert IsBase62(rest) by {
        assert forall k :: 0 < k < |rest| ==> rest[k] == content[index..][k - 1];
      }
      Base62FromTheLeft(rest);
      SumOfRemainders(value, d, power, Base62Value(content[index..]), Pow62(|content| - index));
      value := (value + d * power) % SIZE_RANGE;
      power := power * 62 % SIZE_RANGE;
      index := index - 1;
    }
    assert content[0..] == content;
    ok := true;
  }

  lemma SumOfRemainders(value: nat, d: nat, power: nat, v: nat, p: nat)
    requires value == v % SIZE_RANGE && power == p % SIZE_RANGE
    ensures (value + d * power) % SIZE_RANGE == (d * p + v) % SIZE_RANGE
    ensures power * 62 % SIZE_RANGE == 62 * p % SIZE_RANGE
  {
    var a, b := v / SIZE_RANGE, p / SIZE_RANGE;
    assert v == a * SIZE_RANGE + value && p == b * SIZE_RANGE + power;
    assert d * p + v == (d * b + a) * SIZE_RANGE + (value + d * power);
    AddingMultiples(value + d * power, d * b + a);
    AddingMultiples(power * 62, 62 * b);
    assert 62 * p == 62 * b * SIZE_RANGE + power * 62;
  }

  lemma PlusOne(v: nat)
    ensures (v % SIZE_RANGE + 1) % SIZE_RANGE == (v + 1) % SIZE_RANGE
  {
    AddingMultiples(v % SIZE_RANGE + 1, v / SIZE_RANGE);
  }

  lemma AddingMultiples(x: nat, k: nat)
    ensures (k * SIZE_RANGE + x) % SIZE_RANGE == x % SIZE_RANGE
  {
    RemainderUnique(k * SIZE_RANGE + x, SIZE_RANGE, k + x / SIZE_RANGE, x % SIZE_RANGE);
  }
}
