/** Query trees and their printed form, which the searcher uses as the key of its result cache. */
module Queries {
  import opened Symbols
  import opened Decimals

  datatype Operator = AND | OR | NOT

  datatype MatchKind = PRECISE | PREFIX | SUFFIX

  /** A query: an operator over two queries, a comparison with a position, or a keyed term. */
  datatype Query =
    | Op(op: Operator, left: Query, right: Query)
    | Pos(key: string, sign: string, pos: Position)
    | Term(key: string, sign: string, value: string, matchKind: MatchKind)

  function OpToStr(op: Operator): string {
    match op
    case AND => "&&"
    case NOT => "!"
    case OR => "||"
  }

  function PositionToString(pos: Position): string {
    "(" + Decimal(pos.fileID) + ", " + Decimal(pos.line) + ", " + Decimal(pos.column) + ")"
  }

  function Printed(q: Query): string {
    match q
    case Op(op, left, right) => "(" + Printed(left) + OpToStr(op) + Printed(right) + ")"
    case Pos(key, sign, pos) => key + sign + "(" + PositionToString(pos) + ")"
    case Term(key, sign, value, PREFIX) => key + sign + (value + "*")
    case Term(key, sign, value, SUFFIX) => key + sign + ("*" + value)
    case Term(key, sign, value, PRECISE) => key + sign + value
  }

  lemma Regroup2(a: string, b: string, c: string)
    ensures a + b + c == a + (b + c)
  {
  }

  lemma Regroup(a: string, b: string, c: string, d: string)
    ensures a + b + c + d == a + (b + (c + d))
  {
  }

  lemma Appended(x: string, l: string, o: string, r: string)
    ensures x + "(" + l + o + r + ")" == x + ("(" + l + o + r + ")")
  {
    Regroup2("(" + l + o, r, ")");
    Regroup("(", l, o, r + ")");
    Regroup2(x + "(" + l + o, r, ")");
    Regroup(x + "(", l, o, r + ")");
    Regroup2(x, "(", l + (o + (r + ")")));
  }

  lemma PosAppended(x: string, key: string, sign: string, p: string)
    ensures x + key + sign + "(" + p + ")" == x + (key + sign + ("(" + p + ")"))
  {
    Regroup2(x, key, sign);
    Regroup2(x + (key + sign), "(", p);
    Regroup2(x + (key + sign), "(" + p, ")");
    Regroup2(x, key + sign, "(" + p + ")");
  }

  /** Operators stand between their operands in brackets, and a star marks what may go on. */
  lemma PrintedAs(op: Operator, left: Query, right: Query, key: string, sign: string, value: string)
    ensures Printed(Op(op, left, right)) ==
            "(" + Printed(left) + (if op == AND then "&&" else if op == OR then "||" else "!") + Printed(right) + ")"
    ensures Printed(Term(key, sign, value, PRECISE)) == key + sign + value
    ensures Printed(Term(key, sign, value, PREFIX)) == key + sign + value + "*"
    ensures Printed(Term(key, sign, value, SUFFIX)) == key + sign + "*" + value
  {
    Regroup2(key + sign, value, "*");
    Regroup2(key + sign, "*", value);
  }

  /** A position is printed with its file, line and column in brackets of its own. */
  lemma PositionPrintedAs(key: string, sign: string, pos: Position)
    ensures Printed(Pos(key, sign, pos)) ==
            key + sign + "((" + (Decimal(pos.fileID) + ", " + Decimal(pos.line) + ", " + Decimal(pos.column)) + "))"
  {
    hide Decimal;
    var numbers := Decimal(pos.fileID) + ", " + Decimal(pos.line) + ", " + Decimal(pos.column);
    assert PositionToString(pos) == "(" + numbers + ")";
    assert key + sign + ("(" + ("(" + numbers + ")") + ")") == key + sign + "((" + numbers + "))";
  }

  /** Appends the printed query to a string. */
  method PrettyPrint(q: Query, result0: string) returns (result: string)
    ensures result == result0 + Printed(q)
  {
    result := result0;
    match q {
      case Op(op, left, right) =>
        result := result + "(";
        result := PrettyPrint(left, result);
        result := result + OpToStr(op);
        result := PrettyPrint(right, result);
        result := result + ")";
        Appended(result0, Printed(left), OpToStr(op), Printed(right));
      case Pos(key, sign, pos) =>
        result := result + key + sign + "(";
        result := result + PositionToString(pos);
        result := result + ")";
        PosAppended(result0, key, sign, PositionToString(pos));
      case Term(key, sign, value, matchKind) =>
        if matchKind == PREFIX {
          result := result + key + sign + (value + "*");
        } else if matchKind == SUFFIX {
          result := result + key + sign + ("*" + value);
        } else {
          result := result + key + sign + value;
        }
    }
  }

  // ----- well-formed queries -----

  /** The characters with a meaning of their own in the printed form. Identifiers and numbers have none of them. */
  predicate IsPlain(ch: char) {
    ch !in "()&|!<>=*"
  }

  predicate AllPlain(s: string) {
    forall i :: 0 <= i < |s| ==> IsPlain(s[i])
  }

  predicate IsSign(sign: string) {
    sign in ["=", "<", "<=", ">", ">="]
  }

  /** Keys and values are plain text, and a query for a prefix names a non-empty one. */
  predicate WellFormed(q: Query) {
    match q
    case Op(_, left, right) => WellFormed(left) && WellFormed(right)
    case Pos(key, sign, _) => AllPlain(key) && IsSign(sign)
    case Term(key, sign, value, matchKind) =>
      AllPlain(key) && IsSign(sign) && AllPlain(value) && (matchKind == PREFIX ==> value != "")
  }

  // ----- the printed form can be read back in one way only -----

  lemma LongerRunDiffers(inRun: char -> bool, a: string, x: string, b: string, y: string)
    requires |a| < |b| && (forall i :: 0 <= i < |b| ==> inRun(b[i]))
    requires x == "" || !inRun(x[0])
    ensures a + x != b + y
  {
    assert inRun(b[|a|]) && (b + y)[|a|] == b[|a|];
    if x != "" {
      assert (a + x)[|a|] == x[0];
    }
  }

  /** Two runs of characters of one class that stop at the same kind of border are equal. */
  lemma {:induction false} SameRun(inRun: char -> bool, a: string, x: string, b: string, y: string)
    requires forall i :: 0 <= i < |a| ==> inRun(a[i])
    requires forall i :: 0 <= i < |b| ==> inRun(b[i])
    requires (x == "" || !inRun(x[0])) && (y == "" || !inRun(y[0]))
    requires a + x == b + y
    ensures a == b && x == y
  {
    if |a| < |b| {
      LongerRunDiffers(inRun, a, x, b, y);
      assert false;
    }
    if |b| < |a| {
      LongerRunDiffers(inRun, b, y, a, x);
      assert false;
    }
    assert a == (a + x)[..|a|] == (b + y)[..|b|] == b;
    assert x == (a + x)[|a|..] == (b + y)[|b|..] == y;
  }

  lemma SameTail(a: string, x: string, y: string)
    requires a + x == a + y
    ensures x == y
  {
    assert x == (a + x)[|a|..] == (a + y)[|a|..] == y;
  }

  lemma {:induction false} DecimalInjective(m: nat, n: nat)
    requires Decimal(m) == Decimal(n)
    ensures m == n
  {
    var s := Decimal(m);
    if m >= 10 && n >= 10 {
      assert Decimal(m / 10) == s[..|s| - 1] == Decimal(n / 10);
      assert Digit(m % 10) == s[|s| - 1] == Digit(n % 10);
      DecimalInjective(m / 10, n / 10);
    } else {
      assert |s| == 1;
    }
  }

  predicate IsDigit(ch: char) {
    '0' <= ch <= '9'
  }

  lemma SameNumber(m: nat, x: string, n: nat, y: string)
    requires x != "" && y != "" && !IsDigit(x[0]) && !IsDigit(y[0])
    requires Decimal(m) + x == Decimal(n) + y
    ensures m == n && x == y
  {
    SameRun(IsDigit, Decimal(m), x, Decimal(n), y);
    DecimalInjective(m, n);
  }

  lemma SamePosition(p: Position, x: string, q: Position, y: string)
    requires PositionToString(p) + x == PositionToString(q) + y
    ensures p == q && x == y
  {
    hide Decimal;
    var pc, qc := Decimal(p.column) + (")" + x), Decimal(q.column) + (")" + y);
    var pl, ql := Decimal(p.line) + (", " + pc), Decimal(q.line) + (", " + qc);
    var pf, qf := Decimal(p.fileID) + (", " + pl), Decimal(q.fileID) + (", " + ql);
    assert PositionToString(p) + x == "(" + pf && PositionToString(q) + y == "(" + qf;
    SameTail("(", pf, qf);
    SameNumber(p.fileID, ", " + pl, q.fileID, ", " + ql);
    SameTail(", ", pl, ql);
    SameNumber(p.line, ", " + pc, q.line, ", " + qc);
    SameTail(", ", pc, qc);
    SameNumber(p.column, ")" + x, q.column, ")" + y);
    SameTail(")", x, y);
  }

  /** What may follow a query in a printed text: nothing, an operator, or a closing bracket. */
  predicate IsTail(t: string) {
    t == "" || t[0] in "&|!)"
  }

  lemma LongerSignDiffers(a: string, x: string, b: string, y: string)
    requires IsSign(a) && IsSign(b) && |a| < |b|
    requires x == "" || x[0] != '='
    ensures a + x != b + y
  {
    assert (b + y)[1] == b[1] == '=';
    if x != "" {
      assert (a + x)[1] == x[0];
    }
  }

  lemma SameSign(a: string, x: string, b: string, y: string)
    requires IsSign(a) && IsSign(b) && a + x == b + y
    requires (x == "" || x[0] != '=') && (y == "" || y[0] != '=')
    ensures a == b && x == y
  {
    assert (a + x)[0] == a[0] && (b + y)[0] == b[0];
    if |a| == |b| {
      assert a == (a + x)[..|a|] == (b + y)[..|b|] == b;
      SameTail(a, x, y);
    } else if |a| < |b| {
      LongerSignDiffers(a, x, b, y);
      assert false;
    } else {
      LongerSignDiffers(b, y, a, x);
      assert false;
    }
  }

  /** What a leaf prints after its key and sign. */
  function Body(q: Query): string
    requires !q.Op?
  {
    match q
    case Pos(_, _, pos) => "(" + PositionToString(pos) + ")"
    case Term(_, _, value, PREFIX) => value + "*"
    case Term(_, _, value, SUFFIX) => "*" + value
    case Term(_, _, value, PRECISE) => value
  }

  lemma BodyStart(q: Query, t: string)
    requires !q.Op? && WellFormed(q) && IsTail(t)
    ensures q.Pos? ==> (Body(q) + t)[0] == '('
    ensures q.Term? && q.matchKind == SUFFIX ==> (Body(q) + t)[0] == '*'
    ensures q.Term? && q.matchKind != SUFFIX ==> Body(q) + t == "" || (Body(q) + t)[0] !in "(*="
  {
    if q.Term? && q.matchKind != SUFFIX {
      if q.value != "" {
        assert (Body(q) + t)[0] == q.value[0];
      } else {
        assert Body(q) + t == t;
      }
    }
  }

  lemma SameText(q: Query, t: string, r: Query, u: string)
    requires q.Term? && r.Term? && WellFormed(q) && WellFormed(r) && IsTail(t) && IsTail(u)
    requires Body(q) + t == Body(r) + u && q.matchKind != SUFFIX && r.matchKind != SUFFIX
    ensures q.value == r.value && q.matchKind == r.matchKind && t == u
  {
    hide Printed;
    var x, y := if q.matchKind == PREFIX then "*" + t else t, if r.matchKind == PREFIX then "*" + u else u;
    Regroup2(q.value, "*", t);
    Regroup2(r.value, "*", u);
    assert Body(q) + t == q.value + x && Body(r) + u == r.value + y;
    SameRun(IsPlain, q.value, x, r.value, y);
    if q.matchKind == PREFIX {
      SameTail("*", t, u);
    }
  }

  lemma SameSuffix(q: Query, t: string, r: Query, u: string)
    requires q.Term? && r.Term? && WellFormed(q) && WellFormed(r) && IsTail(t) && IsTail(u)
    requires Body(q) + t == Body(r) + u && q.matchKind == SUFFIX && r.matchKind == SUFFIX
    ensures q.value == r.value && t == u
  {
    hide Printed;
    Regroup2("*", q.value, t);
    Regroup2("*", r.value, u);
    SameTail("*", q.value + t, r.value + u);
    SameRun(IsPlain, q.value, t, r.value, u);
  }

  lemma SamePosBody(q: Query, t: string, r: Query, u: string)
    requires q.Pos? && r.Pos? && Body(q) + t == Body(r) + u
    ensures q.pos == r.pos && t == u
  {
    hide PositionToString;
    var p, p' := PositionToString(q.pos), PositionToString(r.pos);
    Regroup("(", p, ")", t);
    Regroup("(", p', ")", u);
    SameTail("(", p + (")" + t), p' + (")" + u));
    SamePosition(q.pos, ")" + t, r.pos, ")" + u);
    SameTail(")", t, u);
  }

  lemma SameBody(q: Query, t: string, r: Query, u: string)
    requires !q.Op? && !r.Op? && WellFormed(q) && WellFormed(r) && IsTail(t) && IsTail(u)
    requires Body(q) + t == Body(r) + u && q.key == r.key && q.sign == r.sign
    ensures q == r && t == u
  {
    hide PositionToString;
    BodyStart(q, t);
    BodyStart(r, u);
    if q.Pos? {
      SamePosBody(q, t, r, u);
    } else if q.matchKind == SUFFIX {
      SameSuffix(q, t, r, u);
    } else {
      SameText(q, t, r, u);
    }
  }

  lemma LeafPrinted(q: Query, t: string)
    requires !q.Op?
    ensures Printed(q) + t == q.key + (q.sign + (Body(q) + t))
  {
  }

  /** Keys and signs of leaves are told apart by their characters. */
  lemma KeysAreRuns(q: Query, more: string)
    requires !q.Op? && WellFormed(q)
    ensures (forall i :: 0 <= i < |q.key| ==> IsPlain(q.key[i])) && IsSign(q.sign)
    ensures q.sign + more != "" && !IsPlain((q.sign + more)[0])
  {
    assert (q.sign + more)[0] == q.sign[0];
  }

  lemma NoEqualsSign(q: Query, t: string)
    requires !q.Op? && WellFormed(q) && IsTail(t)
    ensures Body(q) + t == "" || (Body(q) + t)[0] != '='
  {
    BodyStart(q, t);
  }

  lemma SameLeaf(q: Query, t: string, r: Query, u: string)
    requires !q.Op? && !r.Op? && WellFormed(q) && WellFormed(r) && IsTail(t) && IsTail(u)
    requires Printed(q) + t == Printed(r) + u
    ensures q == r && t == u
  {
    hide Printed, Body, WellFormed, IsPlain, IsSign, IsTail;
    LeafPrinted(q, t);
    LeafPrinted(r, u);
    KeysAreRuns(q, Body(q) + t);
    KeysAreRuns(r, Body(r) + u);
    SameRun(IsPlain, q.key, q.sign + (Body(q) + t), r.key, r.sign + (Body(r) + u));
    NoEqualsSign(q, t);
    NoEqualsSign(r, u);
    SameSign(q.sign, Body(q) + t, r.sign, Body(r) + u);
    SameBody(q, t, r, u);
  }

  lemma LeafStart(q: Query, t: string)
    requires !q.Op? && WellFormed(q)
    ensures (Printed(q) + t)[0] != '('
  {
    LeafPrinted(q, t);
    if q.key != "" {
      assert (Printed(q) + t)[0] == q.key[0];
    } else {
      assert (Printed(q) + t)[0] == q.sign[0];
    }
  }

  lemma OpPrinted(q: Query, t: string)
    requires q.Op?
    ensures Printed(q) + t == "(" + (Printed(q.left) + (OpToStr(q.op) + (Printed(q.right) + (")" + t))))
  {
    hide OpToStr;
    var l, o, r := Printed(q.left), OpToStr(q.op), Printed(q.right);
    assert Printed(q) == "(" + l + o + r + ")";
    hide Printed;
    Regroup2("(" + l + o + r, ")", t);
    Regroup("(", l, o, r + (")" + t));
    Regroup2("(" + l + o, r, ")" + t);
  }

  /** A text has at most one well-formed query at its start. */
  lemma {:induction false} SamePrinted(q: Query, t: string, r: Query, u: string)
    requires WellFormed(q) && WellFormed(r) && IsTail(t) && IsTail(u)
    requires Printed(q) + t == Printed(r) + u
    ensures q == r && t == u
    decreases q
  {
    if q.Op? && r.Op? {
      var qr, rr := Printed(q.right) + (")" + t), Printed(r.right) + (")" + u);
      var ql, rl := OpToStr(q.op) + qr, OpToStr(r.op) + rr;
      OpPrinted(q, t);
      OpPrinted(r, u);
      SameTail("(", Printed(q.left) + ql, Printed(r.left) + rl);
      SamePrinted(q.left, ql, r.left, rl);
      assert ql[0] == OpToStr(q.op)[0] && rl[0] == OpToStr(r.op)[0];
      SameTail(OpToStr(q.op), qr, rr);
      SamePrinted(q.right, ")" + t, r.right, ")" + u);
      SameTail(")", t, u);
    } else if q.Op? {
      OpPrinted(q, t);
      LeafStart(r, u);
    } else if r.Op? {
      OpPrinted(r, u);
      LeafStart(q, t);
    } else {
      SameLeaf(q, t, r, u);
    }
  }

  // ----- cache keys -----

  datatype Order = PosAsc | PosDesc

  function SortSuffix(order: Order): string {
    match order
    case PosAsc => "|sort:asc"
    case PosDesc => "|sort:desc"
  }

  function NormalizeQuery(q: Query, order: Order): string {
    Printed(q) + SortSuffix(order)
  }

  /** Well-formed queries share a cache key only with themselves. */
  lemma CacheKeysDoNotCollide(q: Query, order: Order, r: Query, order': Order)
    requires WellFormed(q) && WellFormed(r)
    ensures NormalizeQuery(q, order) == NormalizeQuery(r, order') <==> q == r && order == order'
  {
    if NormalizeQuery(q, order) == NormalizeQuery(r, order') {
      SamePrinted(q, SortSuffix(order), r, SortSuffix(order'));
      assert |SortSuffix(PosAsc)| != |SortSuffix(PosDesc)|;
    }
  }

  /** Keys and values are plain text; prefixes may be empty. */
  predicate PlainText(q: Query) {
    match q
    case Op(_, left, right) => PlainText(left) && PlainText(right)
    case Pos(key, sign, _) => AllPlain(key) && IsSign(sign)
    case Term(key, sign, value, _) => AllPlain(key) && IsSign(sign) && AllPlain(value)
  }

  /** The query with every term for an empty prefix turned into one for the empty suffix. */
  function EmptyPrefixesAsSuffixes(q: Query): Query {
    match q
    case Op(op, left, right) => Op(op, EmptyPrefixesAsSuffixes(left), EmptyPrefixesAsSuffixes(right))
    case Pos(_, _, _) => q
    case Term(key, sign, "", PREFIX) => Term(key, sign, "", SUFFIX)
    case Term(_, _, _, _) => q
  }

  lemma {:induction false} EmptyPrefixPrintsAsSuffix(q: Query)
    requires PlainText(q)
    ensures Printed(EmptyPrefixesAsSuffixes(q)) == Printed(q) && WellFormed(EmptyPrefixesAsSuffixes(q))
  {
    if q.Op? {
      EmptyPrefixPrintsAsSuffix(q.left);
      EmptyPrefixPrintsAsSuffix(q.right);
    } else if q.Term? && q.matchKind == PREFIX && q.value == "" {
      assert "" + "*" == "*" + "";
    }
  }

  /**
   * With empty prefixes allowed, two queries share a key if and only if they differ at most in calling those suffixes.
   */
  lemma KeysCollideIff(q: Query, order: Order, r: Query, order': Order)
    requires PlainText(q) && PlainText(r)
    ensures NormalizeQuery(q, order) == NormalizeQuery(r, order') <==>
            EmptyPrefixesAsSuffixes(q) == EmptyPrefixesAsSuffixes(r) && order == order'
  {
    hide Printed, EmptyPrefixesAsSuffixes;
    EmptyPrefixPrintsAsSuffix(q);
    EmptyPrefixPrintsAsSuffix(r);
    CacheKeysDoNotCollide(EmptyPrefixesAsSuffixes(q), order, EmptyPrefixesAsSuffixes(r), order');
  }

  /** A value with an operator in it can be read as two terms: such a value may stand on either side of an operator. */
  lemma OperatorInValueCollides(op: Operator, key: string, sign: string, a: string, b: string, c: string)
    requires IsSign(sign)
    ensures var term := (value: string) => Term(key, sign, value, PRECISE);
            var link := OpToStr(op) + (key + sign);
            var q, r := Op(op, term(a + (link + b)), term(c)), Op(op, term(a), term(b + (link + c)));
            q != r && Printed(q) == Printed(r)
  {
    hide OpToStr;
    var link := OpToStr(op) + (key + sign);
    assert |a + (link + b)| > |a|;
    SameLinks(key + sign, a, OpToStr(op), b, c);
    Bracketed(key + sign + (a + (link + b)), OpToStr(op), key + sign + c);
    Bracketed(key + sign + a, OpToStr(op), key + sign + (b + (link + c)));
  }

  lemma Bracketed(a: string, o: string, b: string)
    ensures "(" + a + o + b + ")" == "(" + (a + o + b) + ")"
  {
  }

  /** Two operators between three terms group either way. */
  lemma SameLinks(k: string, a: string, o: string, b: string, c: string)
    ensures k + (a + (o + k + b)) + o + (k + c) == k + a + o + (k + (b + (o + k + c)))
  {
    var t := o + (k + c);
    Regroup2(o, k, c);
    Regroup(k, a, o, k + (b + t));
    Regroup2(o, k, b);
    Regroup2(k + (a + (o + (k + b))), o, k + c);
    Regroup2(k, a + (o + (k + b)), t);
    Regroup2(a, o + (k + b), t);
    Regroup2(o, k + b, t);
    Regroup2(k, b, t);
  }
}
