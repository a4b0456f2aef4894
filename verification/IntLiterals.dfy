/**
 * Integer literals: reading their text, checking it against the range of a type, narrowing, and a power on 64-bit words
 * that notices overflow.
 */
module IntLiterals {
  import opened Arithmetic
  import opened Wrappers

  const WORD: nat := 0x1_0000_0000_0000_0000
  const INT64_MAX: nat := 0x7FFF_FFFF_FFFF_FFFF
  const INT64_MIN: int := -0x8000_0000_0000_0000
  const UINT64_MAX: nat := WORD - 1

  // ----- powers on 64-bit words -----

  function Pow(b: nat, e: nat): nat {
    if e == 0 then 1 else b * Pow(b, e - 1)
  }

  lemma {:induction false} PowOfSquare(b: nat, e: nat)
    ensures Pow(b * b, e) == Pow(b, 2 * e)
  {
    if e > 0 {
      PowOfSquare(b, e - 1);
      assert Pow(b, 2 * e) == b * (b * Pow(b, 2 * e - 2));
    }
  }

  /** One step of squaring: the power of `b` is split at the last bit of the exponent. */
  lemma PowHalves(b: nat, e: nat)
    ensures Pow(b, e) == (if e % 2 == 1 then b else 1) * Pow(b * b, e / 2)
  {
    PowOfSquare(b, e / 2);
  }

  lemma {:induction false} PowPositive(b: nat, e: nat)
    requires b > 0
    ensures Pow(b, e) >= 1
  {
    if e > 0 {
      PowPositive(b, e - 1);
      Grows(1, 1, b, Pow(b, e - 1));
    }
  }

  lemma Grows(a: nat, b: nat, c: nat, d: nat)
    requires a <= c && b <= d
    ensures a * b <= c * d
  {
    assert c * d == a * b + a * (d - b) + (c - a) * d;
  }

  /** The overflow test by division is exact. */
  lemma DivisionTest(max: nat, b: nat, r: nat)
    requires b > 0
    ensures max / b < r <==> max < r * b
  {
    var q, m := max / b, max % b;
    assert max == q * b + m;
    if q < r {
      Grows(q + 1, b, r, b);
    } else {
      Grows(r, b, q, b);
    }
  }

  /** The words of a word-sized product. */
  function Times(a: nat, b: nat): nat {
    a * b % WORD
  }

  /**
   * `overflow` is an in-out parameter of the original. Although the squared base wraps around, overflow is reported
   * exactly when the power exceeds the bound, and otherwise the power is returned.
   */
  method QuickPow(inBase: nat, inExp: nat, maxVal: nat, overflowIn: bool) returns (res: nat, overflow: bool)
    requires inBase < WORD && inExp < WORD && 1 <= maxVal < WORD
    ensures overflowIn ==> overflow && res == 1
    ensures !overflowIn ==> (overflow <==> Pow(inBase, inExp) > maxVal)
    ensures !overflow ==> res == Pow(inBase, inExp)
  {
    hide Pow, Times;
    PowAtZero();
    overflow := overflowIn;
    res := 1;
    var base, exp, ov := inBase, inExp, false;
    ghost var square: nat := inBase;
    while exp != 0 && !overflow
      invariant !overflowIn ==> overflow ==> Pow(inBase, inExp) > maxVal
      invariant overflowIn ==> overflow && res == 1
      invariant !overflow ==> Pow(inBase, inExp) == res * Pow(square, exp)
      invariant !overflow ==> res <= maxVal && (res == 0 ==> square == 0)
      invariant !ov ==> base == square
      invariant ov ==> square > maxVal
      decreases exp
    {
      PowHalves(square, exp);
      ghost var rest := Pow(square * square, exp / 2);
      if square > 0 {
        PowPositive(square * square, exp / 2);
      }
      if exp % 2 != 0 {
        MultiplyStep(res, base, square, ov, rest, maxVal);
        if ov || (base != 0 && maxVal / base < res) {
          overflow := true;
        }
        res := Times(res, base);
      }
      SquareStep(base, square, ov, maxVal);
      if !ov && base != 0 && maxVal / base < base {
        ov := true;
      }
      base := Times(base, base);
      square := square * square;
      exp := exp / 2;
    }
  }

  lemma MultiplyStep(res: nat, base: nat, square: nat, ov: bool, rest: nat, maxVal: nat)
    requires 1 <= maxVal < WORD && res <= maxVal && (res == 0 ==> square == 0) && (square > 0 ==> rest >= 1)
    requires if ov then square > maxVal else base == square
    ensures if ov || (base != 0 && maxVal / base < res) then res * (square * rest) > maxVal
      else Times(res, base) == res * square <= maxVal && (res * square == 0 ==> square == 0)
           && res * (square * rest) == res * square * rest
  {
    if base != 0 {
      DivisionTest(maxVal, base, res);
    }
    if ov || (base != 0 && maxVal / base < res) {
      Exceeds(res, square, rest, maxVal);
    } else {
      SmallProduct(res, base, maxVal);
    }
  }

  lemma SquareStep(base: nat, square: nat, ov: bool, maxVal: nat)
    requires 1 <= maxVal < WORD
    requires if ov then square > maxVal else base == square
    ensures if ov || (base != 0 && maxVal / base < base) then square * square > maxVal
      else Times(base, base) == square * square
  {
    if base != 0 {
      DivisionTest(maxVal, base, base);
    }
    if ov {
      Grows(square, 1, square, square);
    } else if base == 0 || maxVal / base >= base {
      SmallProduct(base, base, maxVal);
    }
  }

  lemma PowAtZero()
    ensures forall b :: Pow(b, 0) == 1
  {
  }

  lemma Exceeds(res: nat, square: nat, rest: nat, maxVal: nat)
    requires rest >= 1 && (res * square > maxVal || (res >= 1 && square > maxVal))
    ensures res * (square * rest) > maxVal
  {
    if res >= 1 {
      Grows(1, square, res, square);
    }
    Grows(res * square, 1, res * square, rest);
    assert res * (square * rest) == res * square * rest;
  }

  lemma SmallProduct(a: nat, b: nat, max: nat)
    requires max < WORD && (b == 0 || a * b <= max)
    ensures Times(a, b) == a * b <= max
  {
    if b == 0 {
      assert a * b == 0;
    }
    RemainderUnique(a * b, WORD, 0, a * b);
  }

  // ----- types -----

  datatype TypeKind =
    | TYPE_INT8 | TYPE_INT16 | TYPE_INT32 | TYPE_INT64 | TYPE_INT_NATIVE | TYPE_IDEAL_INT
    | TYPE_UINT8 | TYPE_UINT16 | TYPE_UINT32 | TYPE_UINT64 | TYPE_UINT_NATIVE | TYPE_OTHER
  {
    predicate InTable() { !TYPE_OTHER? && !TYPE_INT_NATIVE? && !TYPE_UINT_NATIVE? }

    predicate IsUnsigned() { TYPE_UINT8? || TYPE_UINT16? || TYPE_UINT32? || TYPE_UINT64? }

    /** How many values a type of this width has. */
    function Range(): (n: nat)
      ensures n == 0x100 || n == 0x1_0000 || n == 0x1_0000_0000 || n == WORD
    {
      if TYPE_INT8? || TYPE_UINT8? then 0x100
      else if TYPE_INT16? || TYPE_UINT16? then 0x1_0000
      else if TYPE_INT32? || TYPE_UINT32? then 0x1_0000_0000
      else WORD
    }

    function MaxValue(): nat {
      if TYPE_IDEAL_INT? then UINT64_MAX else if IsUnsigned() then Range() - 1 else Range() / 2 - 1
    }

    function MinValue(): int {
      if IsUnsigned() then 0 else -(Range() / 2)
    }
  }

  datatype Ty = Ty(kind: TypeKind, bitness: nat)

  /** Native integers are as wide as the target's words. */
  function RealTypeKindOfNative(ty: Ty): TypeKind {
    if ty.kind == TYPE_INT_NATIVE then (if ty.bitness == 64 then TYPE_INT64 else TYPE_INT32)
    else if ty.kind == TYPE_UINT_NATIVE then (if ty.bitness == 64 then TYPE_UINT64 else TYPE_UINT32)
    else ty.kind
  }

  /** Whether a number is a value of a type; the ideal type has those of both 64-bit types. */
  predicate Fits(ty: Ty, v: int) {
    match ty.kind
    case TYPE_INT8 => -128 <= v <= 127
    case TYPE_INT16 => -32768 <= v <= 32767
    case TYPE_INT32 => -2147483648 <= v <= 2147483647
    case TYPE_INT64 => -9223372036854775808 <= v <= 9223372036854775807
    case TYPE_INT_NATIVE =>
      if ty.bitness == 64 then -9223372036854775808 <= v <= 9223372036854775807
      else -2147483648 <= v <= 2147483647
    case TYPE_IDEAL_INT => -9223372036854775808 <= v <= 18446744073709551615
    case TYPE_UINT8 => 0 <= v <= 255
    case TYPE_UINT16 => 0 <= v <= 65535
    case TYPE_UINT32 => 0 <= v <= 4294967295
    case TYPE_UINT64 => 0 <= v <= 18446744073709551615
    case TYPE_UINT_NATIVE =>
      if ty.bitness == 64 then 0 <= v <= 18446744073709551615 else 0 <= v <= 4294967295
    case TYPE_OTHER => true
  }

  lemma BoundsAre(ty: Ty, v: int)
    requires ty.kind != TYPE_OTHER
    ensures var k := RealTypeKindOfNative(ty);
            k.InTable() && (Fits(ty, v) <==> k.MinValue() <= v <= k.MaxValue())
  {
  }

  // ----- reading numbers -----

  function DigitOf(c: char): int {
    if '0' <= c <= '9' then c as int - '0' as int
    else if 'a' <= c <= 'f' then c as int - 'a' as int + 10
    else if 'A' <= c <= 'F' then c as int - 'A' as int + 10
    else -1
  }

  predicate IsDigitOf(c: char, base: nat) {
    0 <= DigitOf(c) < base
  }

  predicate AreDigits(s: string, base: nat) {
    forall k :: 0 <= k < |s| ==> IsDigitOf(s[k], base)
  }

  function Magnitude(s: string, base: nat): nat
    requires AreDigits(s, base)
  {
    if s == "" then 0
    else
      var d := s[|s| - 1];
      assert IsDigitOf(d, base);
      Magnitude(s[..|s| - 1], base) * base + DigitOf(d)
  }

  function LeadingDigits(s: string, base: nat): (d: string)
    ensures d <= s && AreDigits(d, base)
    ensures AreDigits(s, base) ==> d == s
  {
    if s == "" || !IsDigitOf(s[0], base) then "" else [s[0]] + LeadingDigits(s[1..], base)
  }

  predicate IsNegative(s: string) {
    s != "" && s[0] == '-'
  }

  function Unsigned(s: string): string {
    if IsNegative(s) then s[1..] else s
  }

  /** The C library reads a sign and as many digits as there are. A negated unsigned number wraps around. */
  function Stoull(s: string, base: nat): Option<nat> {
    var d := LeadingDigits(Unsigned(s), base);
    if d == "" || Magnitude(d, base) > UINT64_MAX then None
    else Some(if IsNegative(s) then (WORD - Magnitude(d, base)) % WORD else Magnitude(d, base))
  }

  function Stoll(s: string, base: nat): Option<int> {
    var d := LeadingDigits(Unsigned(s), base);
    if d == "" then None
    else
      var m: int := Magnitude(d, base);
      var v := if IsNegative(s) then -m else m;
      if INT64_MIN <= v <= INT64_MAX then Some(v) else None
  }

  // ----- literal texts -----

  function WithoutUnderscores(s: string): string {
    if s == "" then "" else (if s[0] == '_' then "" else [s[0]]) + WithoutUnderscores(s[1..])
  }

  function ToLower(c: char): char {
    if 'A' <= c <= 'Z' then (c as int + 32) as char else c
  }

  function BaseOf(mark: char): nat {
    match mark case 'b' => 2 case 'o' => 8 case 'x' => 16 case _ => 10
  }

  /** The base that a text announces, and its sign and digits. */
  function BaseAndPureStringValue(stringVal: string): (nat, string) {
    var s := Unsigned(stringVal);
    var base := if |s| > 2 && s[0] == '0' then BaseOf(ToLower(s[1])) else 10;
    var pure := WithoutUnderscores(s);
    // Underscores are dropped before the two characters of the prefix are.
    var digits := if base == 10 then pure else if |pure| >= 2 then pure[2..] else "";
    (base, (if IsNegative(stringVal) then "-" else "") + digits)
  }

  /** A literal without a suffix: an optional minus, an optional mark for the base, and digits with underscores. */
  datatype Literal = Literal(negative: bool, mark: Option<char>, body: string)
  {
    function Base(): nat {
      if mark.None? then 10 else BaseOf(ToLower(mark.value))
    }

    ghost predicate Valid() {
      && (mark.Some? ==> ToLower(mark.value) in {'b', 'o', 'x'})
      && (forall k :: 0 <= k < |body| ==> body[k] == '_' || IsDigitOf(body[k], Base()))
      && (exists k :: 0 <= k < |body| && body[k] != '_')
    }

    function Text(): string {
      (if negative then "-" else "") + (if mark.None? then "" else ['0', mark.value]) + body
    }

    function Value(): int
      requires Valid()
    {
      DigitsOfBody(this);
      var m: int := Magnitude(WithoutUnderscores(body), Base());
      if negative then -m else m
    }
  }

  lemma {:induction false} Stripped(s: string, base: nat)
    requires forall k :: 0 <= k < |s| ==> s[k] == '_' || IsDigitOf(s[k], base)
    ensures AreDigits(WithoutUnderscores(s), base)
    ensures (exists k :: 0 <= k < |s| && s[k] != '_') ==> WithoutUnderscores(s) != ""
  {
    if s != "" {
      Stripped(s[1..], base);
      if s[0] == '_' && (exists k :: 0 <= k < |s| && s[k] != '_') {
        var k :| 0 <= k < |s| && s[k] != '_';
        assert s[1..][k - 1] == s[k];
      }
    }
  }

  lemma DigitsOfBody(l: Literal)
    requires l.Valid()
    ensures AreDigits(WithoutUnderscores(l.body), l.Base()) && WithoutUnderscores(l.body) != ""
  {
    Stripped(l.body, l.Base());
  }

  /** The same without the sign. */
  lemma UnsignedComesApart(l: Literal, s: string)
    requires l.Valid() && s == (if l.mark.None? then "" else ['0', l.mark.value]) + l.body
    ensures s != "" && s[0] != '-' && s[0] != 'b' &&
      (if |s| > 2 && s[0] == '0' then BaseOf(ToLower(s[1])) else 10) == l.Base()
    ensures var pure := WithoutUnderscores(s);
            (if l.Base() == 10 then pure else if |pure| >= 2 then pure[2..] else "") == WithoutUnderscores(l.body)
  {
    hide WithoutUnderscores;
    if l.mark.Some? {
      StripsPrefix(l.mark.value, l.body);
    } else {
      assert s == l.body;
      assert |s| > 2 ==> s[1] == '_' || IsDigitOf(s[1], 10);
    }
  }

  /** The text of a literal comes apart into its base, sign and digits. */
  lemma TextComesApart(l: Literal)
    requires l.Valid()
    ensures IsNegative(l.Text()) == l.negative && l.Text() != "" && l.Text()[0] != 'b'
    ensures BaseAndPureStringValue(l.Text())
         == (l.Base(), (if l.negative then "-" else "") + WithoutUnderscores(l.body))
  {
    hide WithoutUnderscores, Literal.Valid, Literal.Base;
    var s := (if l.mark.None? then "" else ['0', l.mark.value]) + l.body;
    UnsignedComesApart(l, s);
    assert Unsigned(l.Text()) == s;
  }

  function DigitText(d: nat, upper: bool): char
    requires d < 16
  {
    if upper then "0123456789ABCDEF"[d] else "0123456789abcdef"[d]
  }

  /** A number written in a base, with letters of one case. */
  function Numeral(n: nat, base: nat, upper: bool): (s: string)
    requires 2 <= base <= 16
    ensures s != ""
  {
    if n < base then [DigitText(n, upper)] else Numeral(n / base, base, upper) + [DigitText(n % base, upper)]
  }

  lemma DigitIsRead(d: nat, upper: bool)
    requires d < 16
    ensures DigitOf(DigitText(d, upper)) == d
  {
  }

  lemma OneMoreDigit(s: string, c: char, base: nat, q: nat, d: nat)
    requires AreDigits(s, base) && Magnitude(s, base) == q && DigitOf(c) == d < base
    ensures AreDigits(s + [c], base) && Magnitude(s + [c], base) == q * base + d
  {
    hide DigitOf;
    assert (s + [c])[..|s + [c]| - 1] == s;
  }

  lemma QuotientAndRemainder(n: nat, base: nat)
    requires base > 0
    ensures n / base * base + n % base == n && n % base < base
  {
  }

  lemma NoDigitsYet(base: nat)
    ensures AreDigits("", base) && Magnitude("", base) == 0
  {
  }

  lemma {:induction false} NumeralIsRead(n: nat, base: nat, upper: bool)
    requires 2 <= base <= 16
    ensures AreDigits(Numeral(n, base, upper), base) && Magnitude(Numeral(n, base, upper), base) == n
  {
    hide Magnitude, DigitOf, AreDigits, DigitText;
    if n < base {
      NoDigitsYet(base);
      DigitIsRead(n, upper);
      OneMoreDigit("", DigitText(n, upper), base, 0, n);
      assert "" + [DigitText(n, upper)] == [DigitText(n, upper)];
    } else {
      QuotientAndRemainder(n, base);
      DigitIsRead(n % base, upper);
      NumeralIsRead(n / base, base, upper);
      OneMoreDigit(Numeral(n / base, base, upper), DigitText(n % base, upper), base, n / base, n % base);
    }
  }

  lemma {:induction false} NoUnderscores(s: string, base: nat)
    requires AreDigits(s, base)
    ensures WithoutUnderscores(s) == s
  {
    if s != "" {
      assert IsDigitOf(s[0], base);
      assert forall k :: 0 <= k < |s[1..]| ==> s[1..][k] == s[k + 1];
      NoUnderscores(s[1..], base);
    }
  }

  /** The mark of a base, in either case. */
  function BaseOfMark(mark: Option<char>): nat {
    if mark.None? then 10 else if mark.value in {'b', 'B'} then 2 else if mark.value in {'o', 'O'} then 8 else 16
  }

  /** A number that is written in the base of its mark, with letters of either case, is the value of the literal. */
  lemma NumbersAreWritten(negative: bool, mark: Option<char>, n: nat, upper: bool)
    requires mark.Some? ==> mark.value in {'b', 'B', 'o', 'O', 'x', 'X'}
    ensures var l := Literal(negative, mark, Numeral(n, BaseOfMark(mark), upper));
            l.Valid() && l.Value() == if negative then -(n as int) else n
  {
    hide Numeral, Magnitude, WithoutUnderscores;
    var base, l := BaseOfMark(mark), Literal(negative, mark, Numeral(n, BaseOfMark(mark), upper));
    NumeralIsRead(n, base, upper);
    NoUnderscores(l.body, base);
    assert l.Base() == base;
    assert IsDigitOf(l.body[0], base);
    assert l.Valid();
  }

  lemma StripsPrefix(mark: char, body: string)
    requires mark != '_'
    ensures WithoutUnderscores(['0', mark] + body) == ['0', mark] + WithoutUnderscores(body)
  {
    var s := ['0', mark] + body;
    assert s[1..][1..] == body;
  }

  // ----- byte literals -----

  const INT32_MAX := 0x7FFF_FFFF

  const BYTE_ESCAPES: map<char, char> :=
    map['t' := '\t', 'b' := '\U{8}', 'r' := '\r', 'n' := '\n', '\'' := '\'', '"' := '"', '\\' := '\\', 'f' := '\U{C}',
        'v' := '\U{B}', '0' := '\0']

  /** The first place of a character, or the length of the string. */
  function FirstIndex(s: string, c: char): (i: nat)
    ensures i <= |s| && c !in s[..i] && (i < |s| ==> s[i] == c)
  {
    if s == "" || s[0] == c then 0 else 1 + FirstIndex(s[1..], c)
  }

  /** The last place of a character, or the length of the string. */
  function LastIndex(s: string, c: char): (i: nat)
    ensures i <= |s| && (i < |s| ==> s[i] == c && c !in s[i + 1..]) && (i == |s| ==> c !in s)
  {
    if s == "" then 0
    else
      var i := LastIndex(s[1..], c);
      if i < |s| - 1 then i + 1 else if s[0] == c then 0 else |s|
  }

  function Stoi(s: string, base: nat): Option<int> {
    match Stoll(s, base)
    case Some(v) => if -INT32_MAX - 1 <= v <= INT32_MAX then Some(v) else None
    case None => None
  }

  /** The value of a byte literal such as b'x', b'\n' or b'\u{ff}', or -1. Characters are signed bytes. */
  function ByteLiteral(val: string): int {
    var startQuote, endQuote := FirstIndex(val, '\''), LastIndex(val, '\'');
    if startQuote == |val| || endQuote - startQuote < 2 then -1
    else
      var lit := val[startQuote + 1..endQuote];
      if |lit| == 1 then (if lit[0] as int < 128 then lit[0] as int else lit[0] as int - 256)
      else if |lit| == 2 && lit[0] == '\\' then (if lit[1] in BYTE_ESCAPES then BYTE_ESCAPES[lit[1]] as int else -1)
      else if |lit| > 2 && lit[1] == 'u' then
        var open, close := FirstIndex(val, '{'), FirstIndex(val, '}');
        if open == |val| || close == |val| || close == open + 1 then -1
        else
          // A brace that closes before one opens makes the length wrap around, and then the rest is taken.
          var value := Stoi(if open < close then val[open + 1..close] else val[open + 1..], 16);
          if value.Some? then value.value else -1
      else -1
  }

  /** A byte can be spelled as itself, as an escape, or by its code. */
  datatype ByteSpelling = Itself(c: char) | ByEscape(mark: char) | ByCode(digits: string)
  {
    ghost predicate Valid() {
      match this
      case Itself(c) => c as int < 128
      case ByEscape(mark) => mark in BYTE_ESCAPES
      case ByCode(digits) => digits != "" && AreDigits(digits, 16) && Magnitude(digits, 16) <= INT32_MAX
    }

    function Inner(): string {
      match this
      case Itself(c) => [c]
      case ByEscape(mark) => ['\\', mark]
      case ByCode(digits) => "\\u{" + digits + "}"
    }

    function Value(): nat
      requires Valid()
    {
      match this
      case Itself(c) => c as int
      case ByEscape(mark) => BYTE_ESCAPES[mark] as int
      case ByCode(digits) => Magnitude(digits, 16)
    }
  }

  lemma {:induction false} FirstIndexIs(s: string, c: char, i: nat)
    requires i < |s| && s[i] == c && forall k :: 0 <= k < i ==> s[k] != c
    ensures FirstIndex(s, c) == i
  {
    if i > 0 {
      FirstIndexIs(s[1..], c, i - 1);
    }
  }

  lemma {:induction false} LastIndexIs(s: string, c: char, i: nat)
    requires i < |s| && s[i] == c && forall k :: i < k < |s| ==> s[k] != c
    ensures LastIndex(s, c) == i
  {
    if i > 0 {
      LastIndexIs(s[1..], c, i - 1);
    } else {
      assert c !in s[1..];
    }
  }

  lemma QuotesOf(inner: string)
    requires inner != ""
    ensures var val := "b'" + inner + "'";
      FirstIndex(val, '\'') == 1 && LastIndex(val, '\'') == |val| - 1 && val[2..|val| - 1] == inner
  {
    var val := "b'" + inner + "'";
    FirstIndexIs(val, '\'', 1);
    LastIndexIs(val, '\'', |val| - 1);
  }

  lemma BracesOf(digits: string)
    requires AreDigits(digits, 16)
    ensures var val := "b'" + ("\\u{" + digits + "}") + "'";
      FirstIndex(val, '{') == 4 && FirstIndex(val, '}') == 5 + |digits| && val[5..5 + |digits|] == digits
  {
    var val := "b'" + ("\\u{" + digits + "}") + "'";
    assert val[5..5 + |digits|] == digits;
    assert forall k :: 5 <= k < 5 + |digits| ==> val[k] == digits[k - 5] && IsDigitOf(digits[k - 5], 16);
    FirstIndexIs(val, '{', 4);
    FirstIndexIs(val, '}', 5 + |digits|);
  }

  lemma CodeIsRead(digits: string)
    requires digits != "" && AreDigits(digits, 16) && Magnitude(digits, 16) <= INT32_MAX
    ensures Stoi(digits, 16) == Some(Magnitude(digits, 16))
  {
    hide Magnitude;
    assert !IsNegative(digits);
  }

  lemma SpellingIsRead(b: ByteSpelling)
    requires b.Valid()
    ensures ByteLiteral("b'" + b.Inner() + "'") == b.Value()
  {
    hide Magnitude, FirstIndex, LastIndex, Stoi;
    QuotesOf(b.Inner());
    if b.ByCode? {
      BracesOf(b.digits);
      CodeIsRead(b.digits);
    }
  }

  /** Every spelling of a byte is read as the byte, and is in range exactly when the byte is. */
  lemma ByteLiteralsAreRead(b: ByteSpelling, kind: TypeKind)
    requires b.Valid() && kind.InTable()
    ensures ByteLiteral("b'" + b.Inner() + "'") == b.Value()
    ensures b.ByEscape? ==>
      (b.mark, b.Value()) in {('0', 0), ('b', 8), ('t', 9), ('n', 10), ('v', 11), ('f', 12), ('r', 13), ('"', 34),
                              ('\'', 39), ('\\', 92)}
    ensures var r := ReadText("b'" + b.Inner() + "'", 1);
      r.uint64Val == b.Value() && (r.outOfRange || Overflows(r, kind) <==> b.Value() > kind.MaxValue())
  {
    hide ByteLiteral, Magnitude, ByteSpelling.Inner;
    SpellingIsRead(b);
  }

  // ----- literals -----

  /** What a literal remembers of its text. */
  datatype Reading = Reading(sign: int, int64Val: int, uint64Val: nat, outOfRange: bool)

  /** Reading a text; a literal that was negative before stays so. */
  function ReadText(stringVal: string, sign: int): Reading {
    if stringVal != "" && stringVal[0] == 'b' then
      var value := ByteLiteral(stringVal);
      if value == -1 then Reading(sign, 0, 0, true) else Reading(sign, value, value % WORD, false)
    else ReadNumber(stringVal, sign)
  }

  function ReadNumber(stringVal: string, sign: int): Reading {
    var (base, text) := BaseAndPureStringValue(stringVal);
    var ul, il := Stoull(text, base), Stoll(text, base);
    var s := if IsNegative(stringVal) then -1 else sign;
    Reading(s, if il.Some? then il.value else 0, if ul.Some? then ul.value else 0,
            if s == -1 then il.None? else ul.None?)
  }

  predicate Overflows(r: Reading, kind: TypeKind) {
    && kind.InTable()
    && if r.sign == 1 then r.uint64Val > kind.MaxValue() else r.int64Val < kind.MinValue()
  }

  lemma ReadDigits(l: Literal)
    requires l.Valid()
    ensures AreDigits(WithoutUnderscores(l.body), l.Base())
    ensures var m, text := Magnitude(WithoutUnderscores(l.body), l.Base()), BaseAndPureStringValue(l.Text()).1;
      && Stoull(text, l.Base()) == (if m > UINT64_MAX then None else Some(if l.negative then (WORD - m) % WORD else m))
      && Stoll(text, l.Base()) == (if INT64_MIN <= l.Value() <= INT64_MAX then Some(l.Value()) else None)
  {
    hide WithoutUnderscores, BaseAndPureStringValue, Magnitude;
    DigitsOfBody(l);
    TextComesApart(l);
    var digits, text := WithoutUnderscores(l.body), BaseAndPureStringValue(l.Text()).1;
    assert text == (if l.negative then "-" else "") + digits;
    assert IsDigitOf(digits[0], l.Base());
    assert Unsigned(text) == digits && IsNegative(text) == l.negative;
  }

  /**
   * For a literal that was not negative before, being out of range is exact for every type, and in range its value is
   * the one that the sign selects.
   */
  lemma RangeIsExact(l: Literal, kind: TypeKind)
    requires l.Valid() && kind.InTable()
    ensures var r := ReadText(l.Text(), 1);
      && (r.outOfRange || Overflows(r, kind) <==> !(kind.MinValue() <= l.Value() <= kind.MaxValue()))
      && (!r.outOfRange ==> l.Value() == if r.sign == 1 then r.uint64Val else r.int64Val)
  {
    hide WithoutUnderscores, BaseAndPureStringValue, Magnitude, Stoull, Stoll;
    TextComesApart(l);
    ReadDigits(l);
  }

  /**
   * The sign is never set back. A literal that was negative before and now reads a text without a minus is checked
   * against the lower bound, which it cannot miss: it is only out of range where it does not fit a signed word.
   */
  lemma ReusedLiteralKeepsItsSign(l: Literal, kind: TypeKind)
    requires l.Valid() && kind.InTable() && !l.negative
    ensures var r := ReadText(l.Text(), -1); r.outOfRange || Overflows(r, kind) <==> l.Value() > INT64_MAX
    ensures l.Value() <= INT64_MAX && l.Value() > kind.MaxValue() ==>
      var r := ReadText(l.Text(), -1); !(r.outOfRange || Overflows(r, kind))
  {
    hide WithoutUnderscores, BaseAndPureStringValue, Magnitude, Stoull, Stoll;
    TextComesApart(l);
    ReadDigits(l);
  }

  // ----- narrowing -----

  /** The value that is left when the words of a value are cut to the width of a type. */
  function CalcWrappingValue(value: int, kind: TypeKind): int {
    var n := kind.Range();
    if kind.IsUnsigned() || value % n < n / 2 then value % n else value % n - n
  }

  /** It is the one value of the type that is congruent to the given one. */
  lemma WrappingIsUnique(value: int, kind: TypeKind, other: int)
    requires kind.InTable() && kind != TYPE_IDEAL_INT
    requires kind.MinValue() <= other <= kind.MaxValue()
    ensures kind.MinValue() <= CalcWrappingValue(value, kind) <= kind.MaxValue()
    ensures (value - CalcWrappingValue(value, kind)) % kind.Range() == 0
    ensures (value - other) % kind.Range() == 0 ==> other == CalcWrappingValue(value, kind)
  {
    var n, w := kind.Range(), CalcWrappingValue(value, kind);
    MultipleOf(value - w, n, value / n + (if kind.IsUnsigned() || value % n < n / 2 then 0 else 1));
    if (value - other) % n == 0 {
      CongruentApart(value, w, other, n);
    }
  }

  lemma MultipleOf(x: int, n: nat, k: int)
    requires n > 0 && x == k * n
    ensures x % n == 0
  {
    var q, r := x / n, x % n;
    assert (k - q) * n == r;
    ScaledIsFar(k - q, n);
  }

  lemma CongruentApart(value: int, a: int, b: int, n: int)
    requires n > 0 && (value - a) % n == 0 && (value - b) % n == 0 && -n < a - b < n
    ensures a == b
  {
    var p, q := (value - a) / n, (value - b) / n;
    assert value - a == p * n && value - b == q * n;
    assert a - b == (q - p) * n;
    ScaledIsFar(q - p, n);
  }

  lemma ScaledIsFar(k: int, n: int)
    requires n > 0
    ensures k >= 1 ==> k * n >= n
    ensures k <= -1 ==> k * n <= -n
  {
    if k >= 1 {
      Grows(1, n, k, n);
    } else if k <= -1 {
      Grows(1, n, -k, n);
    }
  }

  class IntLiteral {
    var sign: int
    var int64Val: int
    var uint64Val: nat
    var sint64Val: int
    var suint64Val: nat
    var wint64Val: int
    var wuint64Val: nat
    var outOfRange: bool
    var outOfMax: bool
    var kind: TypeKind

    ghost predicate Words()
      reads this
    {
      && INT64_MIN <= int64Val <= INT64_MAX && uint64Val <= UINT64_MAX
      && INT64_MIN <= wint64Val <= INT64_MAX && wuint64Val <= UINT64_MAX
      && INT64_MIN <= sint64Val <= INT64_MAX && suint64Val <= UINT64_MAX
    }

    constructor ()
      ensures sign == 1 && int64Val == 0 && uint64Val == 0 && !outOfRange && kind == TYPE_IDEAL_INT && Words()
    {
      sign, int64Val, uint64Val, sint64Val, suint64Val, wint64Val, wuint64Val := 1, 0, 0, 0, 0, 0, 0;
      outOfRange, outOfMax, kind := false, false, TYPE_IDEAL_INT;
    }

    method InitIntLiteral(stringVal: string, kind: TypeKind)
      modifies this`sign, this`int64Val, this`uint64Val, this`outOfRange, this`kind
      ensures stringVal == "" ==> unchanged(this)
      ensures stringVal != "" ==>
        this.kind == kind && Reading(sign, int64Val, uint64Val, outOfRange) == ReadText(stringVal, old(sign))
    {
      if stringVal == "" {
        return;
      }
      this.kind := kind;
      if stringVal[0] == '-' {
        sign := -1;
      }
      var (base, stringValue) := BaseAndPureStringValue(stringVal);
      var outOfUintRange, outOfIntRange := false, false;
      if stringVal[0] == 'b' {
        int64Val := ByteLiteral(stringVal);
        if int64Val == -1 {
          int64Val := 0;
          outOfIntRange, outOfUintRange := true, true;
        }
        uint64Val := int64Val % WORD;
      } else {
        match Stoull(stringValue, base) {
          case Some(ul) => uint64Val := ul;
          case None =>
            uint64Val := 0;
            outOfUintRange := true;
        }
        match Stoll(stringValue, base) {
          case Some(il) => int64Val := il;
          case None =>
            int64Val := 0;
            outOfIntRange := true;
        }
      }
      outOfRange := if sign == -1 then outOfIntRange else outOfUintRange;
    }

    method SetOutOfRange(ty: Ty)
      modifies this`kind, this`outOfRange
      ensures kind == RealTypeKindOfNative(ty)
      ensures outOfRange
           == (old(outOfRange) || Overflows(Reading(sign, int64Val, uint64Val, old(outOfRange)), kind))
    {
      kind := RealTypeKindOfNative(ty);
      var overflow := CheckOverflow();
      outOfRange := outOfRange || overflow;
    }

    method CheckOverflow() returns (overflow: bool)
      ensures overflow == Overflows(Reading(sign, int64Val, uint64Val, outOfRange), kind)
    {
      if !kind.InTable() {
        return false;
      }
      if sign == 1 {
        return uint64Val > kind.MaxValue();
      } else {
        return int64Val < kind.MinValue();
      }
    }

    /** For an overflow that was reported: the value cut to the type, and the bound that was missed. */
    method CalcWrappingAndSaturatingVal()
      requires Words()
      modifies this`wint64Val, this`wuint64Val, this`sint64Val, this`suint64Val
      ensures !outOfRange || !kind.InTable() ==> unchanged(this)
      ensures outOfRange && kind.InTable() && kind.IsUnsigned() ==>
        wuint64Val == CalcWrappingValue(uint64Val, kind) && wint64Val == old(wint64Val)
        && suint64Val == if outOfMax then kind.MaxValue() else 0
      ensures outOfRange && kind.InTable() && !kind.IsUnsigned() ==>
        wint64Val == CalcWrappingValue(int64Val, kind) && wuint64Val == old(wuint64Val)
        && sint64Val == if !outOfMax then kind.MinValue() else if kind == TYPE_IDEAL_INT then -1 else kind.MaxValue()
      ensures Words()
    {
      if !outOfRange || !kind.InTable() {
        return;
      }
      if kind.IsUnsigned() {
        wuint64Val := uint64Val % kind.Range();
        suint64Val := if outOfMax then kind.MaxValue() else 0;
      } else {
        wint64Val := CalcWrappingValue(int64Val, kind);
        // The greatest ideal integer does not fit a signed word and becomes -1.
        sint64Val := if !outOfMax then kind.MinValue() else if kind == TYPE_IDEAL_INT then -1 else kind.MaxValue();
      }
    }
  }

  /** A fresh literal is out of the range of a type exactly when its value is. */
  method IsLiteralOutOfRange(l: Literal, kind: TypeKind, ty: Ty) returns (outOfRange: bool)
    requires l.Valid() && ty.kind != TYPE_OTHER
    ensures outOfRange <==> !Fits(ty, l.Value())
  {
    hide Fits, BaseAndPureStringValue, ReadText, RealTypeKindOfNative, Magnitude, WithoutUnderscores;
    BoundsAre(ty, l.Value());
    TextComesApart(l);
    RangeIsExact(l, RealTypeKindOfNative(ty));
    var lit := new IntLiteral();
    lit.InitIntLiteral(l.Text(), kind);
    lit.SetOutOfRange(ty);
    outOfRange := lit.outOfRange;
  }
}
