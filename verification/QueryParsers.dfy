/** The parser of the query language, over tokens whose leaves are whole terms. */
module QueryParsers {
  import opened Queries

  /** A leaf stands for the tokens of one term; a bad leaf for tokens that start like a term and do not make one. */
  datatype Token = LPAREN | RPAREN | OPERATOR(op: Operator) | LEAF(q: Query) | BADLEAF | OTHER

  datatype MaybeQuery = NoQuery | Parsed(q: Query)

  // ----- the parser as a function of the tokens left and the bracket flag -----

  datatype Outcome = Failed | Done(q: Query, rest: seq<Token>, flag: bool)

  function ClauseOf(ts: seq<Token>, flag: bool): (r: Outcome)
    ensures r.Done? ==> |r.rest| < |ts|
    decreases |ts|, 2
  {
    var first := OperandOf(ts, flag);
    if first.Failed? || UnexpectedEnd(first.rest, first.flag) then Failed
    else RestOf(first.rest, first.flag, first.q)
  }

  function OperandOf(ts: seq<Token>, flag: bool): (r: Outcome)
    ensures r.Done? ==> |r.rest| < |ts|
    decreases |ts|, 1
  {
    if ts == [] then Failed
    else if ts[0] == LPAREN then ParenClauseOf(ts[1..])
    else if ts[0].LEAF? then Done(ts[0].q, ts[1..], flag)
    else Failed
  }

  /** A clause in brackets. Coming back from it the flag is down, also when a bracket around it is still open. */
  function ParenClauseOf(ts: seq<Token>): (r: Outcome)
    ensures r.Done? ==> |r.rest| < |ts|
    decreases |ts|, 3
  {
    var r := ClauseOf(ts, true);
    if r.Failed? || r.rest == [] || r.rest[0] != RPAREN then Failed else Done(r.q, r.rest[1..], false)
  }

  function RestOf(ts: seq<Token>, flag: bool, left: Query): (r: Outcome)
    ensures r.Done? ==> |r.rest| <= |ts|
    decreases |ts|, 0
  {
    if ts == [] || !ts[0].OPERATOR? then Done(left, ts, flag)
    else
      var right := OperandOf(ts[1..], flag);
      if right.Failed? then Failed else RestOf(right.rest, right.flag, Op(ts[0].op, left, right.q))
  }

  /** After the first operand only an operator, the end, or the closing bracket of the clause may follow. */
  predicate UnexpectedEnd(ts: seq<Token>, flag: bool) {
    ts != [] && !ts[0].OPERATOR? && !(ts[0] == RPAREN && flag)
  }

  // What the functions say of the first tokens.

  lemma ClauseStep(ts: seq<Token>, flag: bool)
    ensures var first := OperandOf(ts, flag);
      ClauseOf(ts, flag) ==
      if first.Failed? || UnexpectedEnd(first.rest, first.flag) then Failed
      else RestOf(first.rest, first.flag, first.q)
  {
    hide OperandOf, RestOf;
  }

  lemma RestStep(ts: seq<Token>, flag: bool, left: Query)
    ensures ts == [] || !ts[0].OPERATOR? ==> RestOf(ts, flag, left) == Done(left, ts, flag)
    ensures ts != [] && ts[0].OPERATOR? ==>
      var right := OperandOf(ts[1..], flag);
      RestOf(ts, flag, left) ==
      if right.Failed? then Failed else RestOf(right.rest, right.flag, Op(ts[0].op, left, right.q))
  {
    hide OperandOf;
  }

  class QueryParser {
    const tokens: seq<Token>
    var at: nat
    var parsingParenClause: bool

    constructor (tokens: seq<Token>)
      ensures this.tokens == tokens && at == 0 && !parsingParenClause
    {
      this.tokens, at, parsingParenClause := tokens, 0, false;
    }

    ghost predicate Valid()
      reads this
    {
      at <= |tokens|
    }

    ghost function Left(): seq<Token>
      requires Valid()
      reads this
    {
      tokens[at..]
    }

    /** The result of a parsing method and the state it leaves are those of an outcome. */
    ghost predicate Reached(r: MaybeQuery, o: Outcome)
      requires Valid()
      reads this
    {
      match o
      case Failed => r == NoQuery
      case Done(q, rest, flag) => r == Parsed(q) && Left() == rest && parsingParenClause == flag
    }

    method Parse() returns (r: MaybeQuery)
      requires Valid()
      modifies this
      ensures Valid() && Reached(r, ClauseOf(old(Left()), old(parsingParenClause)))
    {
      r := ParseBooleanClause();
    }

    method ParseOperand() returns (r: MaybeQuery)
      requires Valid()
      modifies this
      ensures Valid() && Reached(r, OperandOf(old(Left()), old(parsingParenClause)))
      ensures at >= old(at)
      decreases |tokens| - at, 1
    {
      if at < |tokens| && tokens[at] == LPAREN {
        at := at + 1;
        r := ParseParenClause();
      } else if at < |tokens| && tokens[at].LEAF? {
        r := Parsed(tokens[at].q);
        at := at + 1;
      } else {
        r := NoQuery;
      }
    }

    method ParseBooleanClause() returns (r: MaybeQuery)
      requires Valid()
      modifies this
      ensures Valid() && Reached(r, ClauseOf(old(Left()), old(parsingParenClause)))
      ensures at >= old(at)
      decreases |tokens| - at, 2
    {
      hide ClauseOf, OperandOf, RestOf;
      ClauseStep(Left(), parsingParenClause);
      r := ParseOperand();
      if r == NoQuery {
        return;
      }
      var unexpectedEnd := at < |tokens| && !tokens[at].OPERATOR? && !(tokens[at] == RPAREN && parsingParenClause);
      if unexpectedEnd {
        at := at + 1;
        return NoQuery;
      }
      ghost var outcome := RestOf(Left(), parsingParenClause, r.q);
      while at < |tokens| && tokens[at].OPERATOR?
        invariant Valid() && at > old(at)
        invariant r.Parsed? && RestOf(Left(), parsingParenClause, r.q) == outcome
        decreases |tokens| - at
      {
        RestStep(Left(), parsingParenClause, r.q);
        var op := tokens[at].op;
        assert tokens[at..][1..] == tokens[at + 1..];
        at := at + 1;
        var right := ParseOperand();
        if right == NoQuery {
          return NoQuery;
        }
        r := Parsed(Op(op, r.q, right.q));
      }
      RestStep(Left(), parsingParenClause, r.q);
    }

    method ParseParenClause() returns (r: MaybeQuery)
      requires Valid()
      modifies this
      ensures Valid() && Reached(r, ParenClauseOf(old(Left())))
      ensures at >= old(at)
      decreases |tokens| - at, 3
    {
      parsingParenClause := true;
      r := ParseBooleanClause();
      parsingParenClause := false;
      if at < |tokens| && tokens[at] == RPAREN {
        at := at + 1;
      } else {
        r := NoQuery;
      }
    }
  }

  // ----- the language: clauses, and what they mean -----

  /** A clause as it is written: operands with operators between them; an operand may be a clause in brackets. */
  datatype Clause = Clause(first: Operand, rest: Tail)
  datatype Operand = Leaf(q: Query) | Paren(clause: Clause)
  datatype Tail = Nothing | More(op: Operator, operand: Operand, rest: Tail)

  function Write(c: Clause): seq<Token> {
    WriteOperand(c.first) + WriteTail(c.rest)
  }

  function WriteOperand(o: Operand): seq<Token> {
    match o
    case Leaf(q) => [LEAF(q)]
    case Paren(c) => [LPAREN] + Write(c) + [RPAREN]
  }

  function WriteTail(t: Tail): seq<Token> {
    match t
    case Nothing => []
    case More(op, o, rest) => [OPERATOR(op)] + WriteOperand(o) + WriteTail(rest)
  }

  /** Operators have no precedence: a clause is folded from the left. */
  function Meaning(c: Clause): Query
    decreases c
  {
    Fold(OperandMeaning(c.first), c.rest)
  }

  function OperandMeaning(o: Operand): Query
    decreases o
  {
    match o
    case Leaf(q) => q
    case Paren(c) => Meaning(c)
  }

  function Fold(left: Query, t: Tail): Query
    decreases t
  {
    match t
    case Nothing => left
    case More(op, o, rest) => Fold(Op(op, left, OperandMeaning(o)), rest)
  }

  /** No bracket encloses just another bracket. */
  predicate NoDoubleBrackets(c: Clause) {
    SimpleOperand(c.first) && SimpleTail(c.rest)
  }

  predicate SimpleOperand(o: Operand) {
    match o
    case Leaf(_) => true
    case Paren(c) => NoDoubleBrackets(c) && !(c.first.Paren? && c.rest.Nothing?)
  }

  predicate SimpleTail(t: Tail) {
    match t
    case Nothing => true
    case More(_, o, rest) => SimpleOperand(o) && SimpleTail(rest)
  }

  function FlagAfter(o: Operand, flag: bool): bool {
    flag && o.Leaf?
  }

  function FlagAfterTail(t: Tail, flag: bool): bool {
    match t
    case Nothing => flag
    case More(_, o, rest) => FlagAfterTail(rest, FlagAfter(o, flag))
  }

  predicate NoOperatorNext(after: seq<Token>) {
    after == [] || !after[0].OPERATOR?
  }

  lemma {:induction false} OperandParses(o: Operand, after: seq<Token>, flag: bool)
    ensures OperandOf(WriteOperand(o) + after, flag) ==
            if SimpleOperand(o) then Done(OperandMeaning(o), after, FlagAfter(o, flag)) else Failed
    decreases o
  {
    match o
    case Leaf(q) =>
      assert (WriteOperand(o) + after)[1..] == after;
    case Paren(c) =>
      ClauseParses(c, [RPAREN] + after, true);
      assert WriteOperand(o) + after == [LPAREN] + (Write(c) + ([RPAREN] + after));
      assert (WriteOperand(o) + after)[1..] == Write(c) + ([RPAREN] + after);
      assert ([RPAREN] + after)[1..] == after;
  }

  lemma {:induction false} TailParses(t: Tail, after: seq<Token>, flag: bool, left: Query)
    requires NoOperatorNext(after)
    ensures RestOf(WriteTail(t) + after, flag, left) ==
            if SimpleTail(t) then Done(Fold(left, t), after, FlagAfterTail(t, flag)) else Failed
    decreases t
  {
    match t
    case Nothing =>
      assert WriteTail(t) + after == after;
    case More(op, o, rest) =>
      var next := WriteTail(rest) + after;
      OperandParses(o, next, flag);
      assert WriteTail(t) + after == [OPERATOR(op)] + (WriteOperand(o) + next);
      assert (WriteTail(t) + after)[1..] == WriteOperand(o) + next;
      TailParses(rest, after, FlagAfter(o, flag), Op(op, left, OperandMeaning(o)));
  }

  /** What the parser makes of a written clause, whatever follows it. */
  lemma {:induction false} ClauseParses(c: Clause, after: seq<Token>, flag: bool)
    requires NoOperatorNext(after)
    ensures ClauseOf(Write(c) + after, flag) ==
            if NoDoubleBrackets(c) &&
               (c.rest.More? || after == [] || (after[0] == RPAREN && flag && c.first.Leaf?))
            then Done(Meaning(c), after, FlagAfterTail(c.rest, FlagAfter(c.first, flag)))
            else Failed
    decreases c
  {
    var next := WriteTail(c.rest) + after;
    assert Write(c) + after == WriteOperand(c.first) + next;
    OperandParses(c.first, next, flag);
    TailParses(c.rest, after, FlagAfter(c.first, flag), OperandMeaning(c.first));
    match c.rest
    case Nothing => assert next == after;
    case More(op, _, _) => assert next[0] == OPERATOR(op);
  }

  /** A written clause on its own parses to its meaning exactly when no bracket encloses just another bracket. */
  lemma ParseClause(c: Clause)
    ensures ClauseOf(Write(c), false) ==
            if NoDoubleBrackets(c) then Done(Meaning(c), [], false) else Failed
  {
    ClauseParses(c, [], false);
    assert Write(c) + [] == Write(c);
    FlagStaysDown(c.rest);
  }

  lemma {:induction false} FlagStaysDown(t: Tail)
    ensures !FlagAfterTail(t, false)
  {
    if t.More? {
      FlagStaysDown(t.rest);
    }
  }

  /** Once an operator has been read, whatever follows the clause is left unread without complaint. */
  lemma TrailingTokensIgnored(c: Clause, after: seq<Token>)
    requires NoDoubleBrackets(c) && c.rest.More? && NoOperatorNext(after)
    ensures ClauseOf(Write(c) + after, false) == Done(Meaning(c), after, false)
  {
    ClauseParses(c, after, false);
    FlagStaysDown(c.rest);
  }

  /** Before an operator has been read, anything that follows the first operand is an error. */
  lemma TrailingTokensRejected(o: Operand, after: seq<Token>)
    requires after != [] && NoOperatorNext(after)
    ensures ClauseOf(WriteOperand(o) + after, false) == Failed
  {
    var c := Clause(o, Nothing);
    assert Write(c) + after == WriteOperand(o) + after;
    ClauseParses(c, after, false);
  }

  // ----- queries written with the brackets of their printed form -----

  /** The tokens of a query in which every operator has its brackets. */
  function Bracketed(q: Query): seq<Token> {
    match q
    case Op(op, left, right) => [LPAREN] + Bracketed(left) + [OPERATOR(op)] + Bracketed(right) + [RPAREN]
    case Pos(_, _, _) => [LEAF(q)]
    case Term(_, _, _, _) => [LEAF(q)]
  }

  function AsOperand(q: Query): Operand {
    match q
    case Op(op, left, right) => Paren(Clause(AsOperand(left), More(op, AsOperand(right), Nothing)))
    case Pos(_, _, _) => Leaf(q)
    case Term(_, _, _, _) => Leaf(q)
  }

  lemma {:induction false} BracketedIsSimple(q: Query)
    ensures WriteOperand(AsOperand(q)) == Bracketed(q)
    ensures OperandMeaning(AsOperand(q)) == q && SimpleOperand(AsOperand(q))
  {
    if q.Op? {
      BracketedIsSimple(q.left);
      BracketedIsSimple(q.right);
      var l, r := AsOperand(q.left), AsOperand(q.right);
      BracketsAround(q.op, l, r);
      assert [LPAREN] + (WriteOperand(l) + [OPERATOR(q.op)] + WriteOperand(r)) + [RPAREN] == Bracketed(q);
    }
  }

  lemma BracketsAround(op: Operator, l: Operand, r: Operand)
    requires SimpleOperand(l) && SimpleOperand(r)
    ensures var o := Paren(Clause(l, More(op, r, Nothing)));
      && WriteOperand(o) == [LPAREN] + (WriteOperand(l) + [OPERATOR(op)] + WriteOperand(r)) + [RPAREN]
      && OperandMeaning(o) == Op(op, OperandMeaning(l), OperandMeaning(r))
      && SimpleOperand(o)
  {
    var t := More(op, r, Nothing);
    assert WriteTail(t) == [OPERATOR(op)] + WriteOperand(r);
    assert Fold(OperandMeaning(l), t) == Op(op, OperandMeaning(l), OperandMeaning(r));
    assert SimpleTail(t);
  }

  /** Every query tree, written with all its brackets, parses back to itself. */
  lemma PrintedFormParsesBack(q: Query)
    ensures ClauseOf(Bracketed(q), false) == Done(q, [], false)
  {
    BracketedIsSimple(q);
    var c := Clause(AsOperand(q), Nothing);
    assert Write(c) == Bracketed(q);
    ParseClause(c);
  }

  /** Leaves joined by operators, without any bracket. */
  function Chain(qs: seq<(Operator, Query)>): Tail {
    if qs == [] then Nothing else More(qs[0].0, Leaf(qs[0].1), Chain(qs[1..]))
  }

  function LeftFold(left: Query, qs: seq<(Operator, Query)>): Query
    decreases qs
  {
    if qs == [] then left else LeftFold(Op(qs[0].0, left, qs[0].1), qs[1..])
  }

  lemma {:induction false} ChainFolds(left: Query, qs: seq<(Operator, Query)>)
    ensures SimpleTail(Chain(qs)) && Fold(left, Chain(qs)) == LeftFold(left, qs)
    decreases qs
  {
    if qs != [] {
      ChainFolds(Op(qs[0].0, left, qs[0].1), qs[1..]);
    }
  }

  /** An unbracketed chain parses to the left fold of its leaves. */
  lemma ChainParsesToLeftFold(first: Query, qs: seq<(Operator, Query)>)
    ensures ClauseOf(Write(Clause(Leaf(first), Chain(qs))), false) == Done(LeftFold(first, qs), [], false)
  {
    ChainFolds(first, qs);
    ParseClause(Clause(Leaf(first), Chain(qs)));
  }
}
