/** What a query asks for, said as a filter over the live symbols. */
module SearchSpecs {
  import Decimals
  import opened Symbols
  import opened Tries
  import opened PosSearch
  import opened InvertedIndexes
  import opened Queries

  const UINT32_MAX := 0xFFFF_FFFF

  // ----- numbers in queries -----

  predicate AllDigits(s: string) {
    forall i :: 0 <= i < |s| ==> IsDigit(s[i])
  }

  function DigitsValue(s: string): nat
    requires AllDigits(s)
  {
    if s == "" then 0 else 10 * DigitsValue(s[..|s| - 1]) + (s[|s| - 1] as int - '0' as int)
  }

  const ULONG_MAX := 0xFFFF_FFFF_FFFF_FFFF

  predicate IsBlank(c: char) {
    c in " \t\n\r" || c == '\U{B}' || c == '\U{C}'
  }

  function SkipBlanks(s: string): string {
    if s != "" && IsBlank(s[0]) then SkipBlanks(s[1..]) else s
  }

  /**
   * The number at the start of a text, 0 when there is none, as the C library reads it: blanks and a sign may stand
   * before it, a minus sign wraps it around, and one that does not fit is the greatest unsigned long.
   */
  function StrToUl(s: string): nat {
    var text := SkipBlanks(s);
    var digits := if text != "" && text[0] in "+-" then text[1..] else text;
    var n := DigitsValue(LeadingDigits(digits));
    if n > ULONG_MAX then ULONG_MAX
    else if text != "" && text[0] == '-' then (ULONG_MAX + 1 - n) % (ULONG_MAX + 1)
    else n
  }

  function LeadingDigits(s: string): (d: string)
    ensures AllDigits(d)
  {
    if s == "" || !IsDigit(s[0]) then "" else [s[0]] + LeadingDigits(s[1..])
  }

  /**
   * The scope level that a value names exactly; the greatest 32-bit number stands for none. Levels past the end of a
   * non-empty symbol table are none either.
   */
  function StrToUint(value: string, tableSize: nat): nat {
    if value == "" || !AllDigits(value) then UINT32_MAX
    else
      var n := DigitsValue(value);
      if n >= tableSize && tableSize != 0 then UINT32_MAX else n
  }

  lemma {:induction false} DecimalIsRead(n: nat)
    ensures AllDigits(Decimals.Decimal(n)) && DigitsValue(Decimals.Decimal(n)) == n
  {
    var s := Decimals.Decimal(n);
    if n < 10 {
      assert s[..0] == "";
    } else {
      DecimalIsRead(n / 10);
      assert s[..|s| - 1] == Decimals.Decimal(n / 10);
    }
  }

  lemma {:induction false} AllAreLeading(s: string)
    requires AllDigits(s)
    ensures LeadingDigits(s) == s
  {
    if s != "" {
      assert forall i :: 0 <= i < |s[1..]| ==> s[1..][i] == s[i + 1];
      AllAreLeading(s[1..]);
    }
  }

  /** A decimal number is read as itself where it fits, and else as the greatest; a blank or a sign may stand first. */
  lemma NumbersAreRead(n: nat, tableSize: nat)
    ensures var s, m := Decimals.Decimal(n), if n <= 18446744073709551615 then n else 18446744073709551615;
      && StrToUl(s) == StrToUl(" " + s) == StrToUl("+" + s) == m
      && StrToUl("-" + s) ==
         (if n > 18446744073709551615 then 18446744073709551615 else if n == 0 then 0 else 18446744073709551616 - n)
      && StrToUint(s, tableSize) == if tableSize != 0 && n >= tableSize then 4294967295 else n
  {
    hide Decimals.Decimal, DigitsValue, LeadingDigits;
    var s := Decimals.Decimal(n);
    DecimalIsRead(n);
    AllAreLeading(s);
    assert (" " + s)[1..] == s && ("+" + s)[1..] == s && ("-" + s)[1..] == s;
    assert !IsBlank(s[0]) && s[0] !in "+-";
    assert SkipBlanks(" " + s) == s;
  }

  // ----- leaves -----

  /** The symbols that begin at or before a position. */
  ghost function BeginsUpTo(facts: Facts, pos: Position): set<Symbol> {
    LessIds(BeginKeys(facts), facts.limits, PosToStr(facts.limits, pos), true)
  }

  /** The symbols that end at or after a position. */
  ghost function EndsFrom(facts: Facts, pos: Position): set<Symbol> {
    GreaterIds(EndKeys(facts), facts.limits, PosToStr(facts.limits, pos), true)
  }

  ghost predicate DistinctAddresses(ids: set<Symbol>) {
    forall a, b :: a in ids && b in ids && a.address == b.address ==> a == b
  }

  ghost predicate IsLowest(m: Symbol, ids: set<Symbol>) {
    m in ids && forall x :: x in ids ==> m.address <= x.address
  }

  lemma {:induction false} LowestExists(ids: set<Symbol>)
    requires ids != {}
    ensures exists m :: IsLowest(m, ids)
  {
    var x :| x in ids;
    if ids == {x} {
      assert IsLowest(x, ids);
    } else {
      LowestExists(ids - {x});
      var m :| IsLowest(m, ids - {x});
      if x.address <= m.address {
        assert IsLowest(x, ids);
      } else {
        assert IsLowest(m, ids);
      }
    }
  }

  ghost function Lowest(ids: set<Symbol>): (m: Symbol)
    requires ids != {}
    ensures IsLowest(m, ids)
  {
    LowestExists(ids);
    var m :| IsLowest(m, ids);
    m
  }

  /** The first `count` symbols of a set in the order of their addresses. */
  ghost function FirstByAddress(ids: set<Symbol>, count: nat): set<Symbol> {
    if count == 0 || ids == {} then {}
    else
      {Lowest(ids)} + FirstByAddress(ids - {Lowest(ids)}, count - 1)
  }

  /**
   * The symbols around a position. When nothing ends at or after it, the answer is a guess: as many of the symbols
   * that begin before it, in the order of their addresses, as the scope level of the first of them allows.
   */
  ghost function PosEQ(facts: Facts, pos: Position): set<Symbol> {
    var begins, ends := BeginsUpTo(facts, pos), EndsFrom(facts, pos);
    if ends != {} then begins * ends
    else if begins == {} then {}
    else FirstByAddress(begins, Lowest(begins).scopeLevel + 1)
  }

  ghost function PosIds(facts: Facts, sign: string, pos: Position): set<Symbol> {
    if sign == "=" then PosEQ(facts, pos)
    else if sign == "<" then LessIds(EndKeys(facts), facts.limits, PosToStr(facts.limits, pos), false)
    else if sign == "<=" then
      LessIds(EndKeys(facts), facts.limits, PosToStr(facts.limits, pos), false) + PosEQ(facts, pos)
    else if sign == ">" then GreaterIds(BeginKeys(facts), facts.limits, PosToStr(facts.limits, pos), false)
    else if sign == ">=" then
      GreaterIds(BeginKeys(facts), facts.limits, PosToStr(facts.limits, pos), false) + PosEQ(facts, pos)
    else {}
  }

  predicate LevelMatches(level: nat, sign: string, value: string, tableSize: nat) {
    if sign == "=" then level == StrToUint(value, tableSize) && level < UINT32_MAX
    else if sign == "<" then level < StrToUl(value)
    else sign == "<=" && level <= StrToUl(value)
  }

  /** A term and a symbol match. Prefix and suffix lookups know only words that their trie has seen. */
  predicate TermMatches(facts: Facts, tableSize: nat, q: Query, s: Symbol)
    requires q.Term?
  {
    if q.key == "name" then
      match q.matchKind
      case PRECISE => s.name == q.value
      case PREFIX => s.name in facts.nameWords && s.name != "" && q.value <= s.name
      case SUFFIX => q.value == "" || (s.name in facts.nameWords && IsProperSuffix(q.value, s.name))
    else if q.key == "scope_level" then LevelMatches(s.scopeLevel, q.sign, q.value, tableSize)
    else if q.key == "scope_name" then
      var scope := ScopeNameWithoutTail(s.scopeName);
      match q.matchKind
      case PRECISE => scope == q.value
      case PREFIX => scope in facts.scopeWords && scope != "" && q.value <= scope
      case SUFFIX => false
    else if q.key == "ast_kind" then
      var kind := KindOf(facts.kindNames)(s);
      match q.matchKind
      case PRECISE => kind == q.value
      case SUFFIX => kind in facts.kindNames && IsProperSuffix(q.value, kind)
      case PREFIX => false
    else false
  }

  /** The symbols a query asks for. */
  ghost function Denoted(facts: Facts, tableSize: nat, q: Query): set<Symbol> {
    match q
    case Op(AND, left, right) => Denoted(facts, tableSize, left) * Denoted(facts, tableSize, right)
    case Op(OR, left, right) => Denoted(facts, tableSize, left) + Denoted(facts, tableSize, right)
    case Op(NOT, left, right) => Denoted(facts, tableSize, left) - Denoted(facts, tableSize, right)
    case Pos(_, sign, pos) => PosIds(facts, sign, pos)
    case Term(_, _, _, _) => set s | s in facts.live && TermMatches(facts, tableSize, q, s)
  }

  // ----- the same, symbol by symbol -----

  /** A range lookup finds a symbol by its two keys, when no symbols around the position have to be guessed. */
  ghost predicate PosFinds(limits: PosLimits, sign: string, pos: Position, s: Symbol) {
    var key, begin, end := PosToStr(limits, pos), PosToStr(limits, s.begin), PosToStr(limits, s.end);
    var around := IsBelow(limits, key, begin, true) && IsAbove(limits, key, end, true);
    if sign == "=" then around
    else if sign == "<" then IsBelow(limits, key, end, false)
    else if sign == "<=" then IsBelow(limits, key, end, false) || around
    else if sign == ">" then IsAbove(limits, key, begin, false)
    else sign == ">=" && (IsAbove(limits, key, begin, false) || around)
  }

  /** A query finds a symbol, as far as the tries know the symbol and its words. */
  ghost predicate Finds(facts: Facts, tableSize: nat, q: Query, s: Symbol) {
    match q
    case Op(AND, left, right) => Finds(facts, tableSize, left, s) && Finds(facts, tableSize, right, s)
    case Op(OR, left, right) => Finds(facts, tableSize, left, s) || Finds(facts, tableSize, right, s)
    case Op(NOT, left, right) => Finds(facts, tableSize, left, s) && !Finds(facts, tableSize, right, s)
    case Pos(_, sign, pos) => s in facts.inTries && PosFinds(facts.limits, sign, pos, s)
    case Term(_, _, _, _) => TermMatches(facts, tableSize, q, s)
  }

  /** No lookup of the symbols around a position has to guess. */
  ghost predicate NoGuess(facts: Facts, q: Query) {
    match q
    case Op(_, left, right) => NoGuess(facts, left) && NoGuess(facts, right)
    case Pos(_, sign, pos) =>
      sign in ["=", "<=", ">="] ==> EndsFrom(facts, pos) != {} || BeginsUpTo(facts, pos) == {}
    case Term(_, _, _, _) => true
  }

  lemma PosIdsFound(facts: Facts, sign: string, pos: Position, s: Symbol)
    requires sign in ["=", "<=", ">="] ==> EndsFrom(facts, pos) != {} || BeginsUpTo(facts, pos) == {}
    ensures s in PosIds(facts, sign, pos) <==> s in facts.inTries && PosFinds(facts.limits, sign, pos, s)
  {
    hide PosToStr, IsAbove, IsBelow, FirstByAddress;
    assert s in facts.inTries ==> BeginKeys(facts)[s] == PosToStr(facts.limits, s.begin);
    assert s in facts.inTries ==> EndKeys(facts)[s] == PosToStr(facts.limits, s.end);
    assert s in BeginsUpTo(facts, pos) * EndsFrom(facts, pos) <==>
           s in facts.inTries && PosFinds(facts.limits, "=", pos, s);
    assert EndsFrom(facts, pos) == {} && BeginsUpTo(facts, pos) == {} ==> s !in BeginsUpTo(facts, pos);
  }

  /** A query that never guesses looks at each live symbol on its own. */
  lemma {:induction false} SymbolBySymbol(facts: Facts, tableSize: nat, q: Query)
    requires facts.inTries <= facts.live && NoGuess(facts, q)
    ensures Denoted(facts, tableSize, q) == set s | s in facts.live && Finds(facts, tableSize, q, s)
  {
    hide PosFinds, PosIds, TermMatches;
    match q {
      case Op(_, left, right) =>
        SymbolBySymbol(facts, tableSize, left);
        SymbolBySymbol(facts, tableSize, right);
      case Pos(_, sign, pos) =>
        PosIdsAreLive(facts, sign, pos);
        forall s ensures s in PosIds(facts, sign, pos) <==> s in facts.inTries && PosFinds(facts.limits, sign, pos, s) {
          PosIdsFound(facts, sign, pos, s);
        }
      case Term(_, _, _, _) =>
    }
  }

  // ----- in terms of the program alone -----

  predicate PosMatches(limits: PosLimits, sign: string, pos: Position, s: Symbol)
    requires limits.Sane()
  {
    var around := InReach(limits, pos, s.begin) && s.begin.AtMost(pos) && InReach(limits, pos, s.end) &&
      pos.AtMost(s.end);
    var before := InReach(limits, pos, s.end) && s.end.Before(pos);
    var after := InReach(limits, pos, s.begin) && pos.Before(s.begin);
    if sign == "=" then around
    else if sign == "<" then before
    else if sign == "<=" then before || around
    else if sign == ">" then after
    else sign == ">=" && (after || around)
  }

  /** The plain meaning of a query for one symbol. */
  predicate Matches(limits: PosLimits, kindNames: seq<string>, tableSize: nat, q: Query, s: Symbol)
    requires limits.Sane()
  {
    match q
    case Op(AND, left, right) =>
      Matches(limits, kindNames, tableSize, left, s) && Matches(limits, kindNames, tableSize, right, s)
    case Op(OR, left, right) =>
      Matches(limits, kindNames, tableSize, left, s) || Matches(limits, kindNames, tableSize, right, s)
    case Op(NOT, left, right) =>
      Matches(limits, kindNames, tableSize, left, s) && !Matches(limits, kindNames, tableSize, right, s)
    case Pos(_, sign, pos) => PosMatches(limits, sign, pos, s)
    case Term(key, sign, value, matchKind) =>
      if key == "scope_level" then LevelMatches(s.scopeLevel, sign, value, tableSize)
      else if key == "name" then
        match matchKind
        case PRECISE => s.name == value
        case PREFIX => s.name != "" && value <= s.name
        case SUFFIX => value == "" || IsProperSuffix(value, s.name)
      else if key == "scope_name" then
        var scope := ScopeNameWithoutTail(s.scopeName);
        (matchKind == PRECISE && scope == value) || (matchKind == PREFIX && scope != "" && value <= scope)
      else if key == "ast_kind" then
        var kind := KindOf(kindNames)(s);
        (matchKind == PRECISE && kind == value) || (matchKind == SUFFIX && IsProperSuffix(value, kind))
      else false
  }

  predicate PositionsFit(limits: PosLimits, q: Query) {
    match q
    case Op(_, left, right) => PositionsFit(limits, left) && PositionsFit(limits, right)
    case Pos(_, _, pos) => limits.Fits(pos)
    case Term(_, _, _, _) => true
  }

  /** A symbol that was registered with its scope. */
  predicate InScope(facts: Facts, s: Symbol) {
    Fits(facts, s) && ScopeNameWithoutTail(s.scopeName) in facts.scopeWords
  }

  /** A symbol that was indexed with its tries. */
  predicate FullyIndexed(facts: Facts, s: Symbol) {
    InScope(facts, s) && s in facts.inTries && s.name in facts.nameWords
  }

  lemma PosFindsMatches(limits: PosLimits, sign: string, pos: Position, s: Symbol)
    requires limits.Sane() && limits.Fits(pos) && limits.Fits(s.begin) && limits.Fits(s.end)
    ensures PosFinds(limits, sign, pos, s) <==> PosMatches(limits, sign, pos, s)
  {
    hide PosToStr, IsAbove, IsBelow, InReach;
    RangeMeans(limits, pos, s.begin, true);
    RangeMeans(limits, pos, s.begin, false);
    RangeMeans(limits, pos, s.end, true);
    RangeMeans(limits, pos, s.end, false);
  }

  /** A query finds a symbol that was indexed with its tries exactly when the symbol matches. */
  lemma {:induction false} FindsWhatMatches(facts: Facts, tableSize: nat, q: Query, s: Symbol)
    requires facts.limits.Sane() && FullyIndexed(facts, s) && PositionsFit(facts.limits, q)
    ensures Finds(facts, tableSize, q, s) <==> Matches(facts.limits, facts.kindNames, tableSize, q, s)
  {
    hide PosFinds, PosMatches, LevelMatches, IsProperSuffix, ScopeNameWithoutTail, PosLimits.Fits;
    match q {
      case Op(_, left, right) =>
        FindsWhatMatches(facts, tableSize, left, s);
        FindsWhatMatches(facts, tableSize, right, s);
      case Pos(_, sign, pos) => PosFindsMatches(facts.limits, sign, pos, s);
      case Term(_, _, _, _) =>
    }
  }

  /** On a program indexed with tries, a query that never guesses is a plain filter over the live symbols. */
  lemma QueryIsAFilter(facts: Facts, tableSize: nat, q: Query)
    requires facts.limits.Sane() && facts.inTries <= facts.live
    requires forall s :: s in facts.live ==> FullyIndexed(facts, s)
    requires NoGuess(facts, q) && PositionsFit(facts.limits, q)
    ensures Denoted(facts, tableSize, q) ==
            set s | s in facts.live && Matches(facts.limits, facts.kindNames, tableSize, q, s)
  {
    hide Denoted, Finds, Matches, FullyIndexed;
    SymbolBySymbol(facts, tableSize, q);
    forall s | s in facts.live
      ensures Finds(facts, tableSize, q, s) <==> Matches(facts.limits, facts.kindNames, tableSize, q, s)
    {
      FindsWhatMatches(facts, tableSize, q, s);
    }
  }

  // ----- indexes without tries -----

  /** A term that no symbol matches. */
  const NOTHING := Term("", "=", "", PRECISE)

  /** The query with nothing in place of every part that only a trie could answer. */
  function WithoutTries(q: Query): Query {
    match q
    case Op(op, left, right) => Op(op, WithoutTries(left), WithoutTries(right))
    case Pos(_, _, _) => NOTHING
    case Term(key, _, value, matchKind) =>
      if key == "name" && (matchKind == PREFIX || (matchKind == SUFFIX && value != "")) then NOTHING else q
  }

  lemma {:induction false} FindsWithoutTries(facts: Facts, tableSize: nat, q: Query, s: Symbol)
    requires facts.limits.Sane() && TriesUnused(facts) && InScope(facts, s)
    ensures Finds(facts, tableSize, q, s) <==>
            Matches(facts.limits, facts.kindNames, tableSize, WithoutTries(q), s)
  {
    hide PosFinds, PosMatches, LevelMatches, IsProperSuffix, ScopeNameWithoutTail, PosLimits.Fits;
    if q.Op? {
      FindsWithoutTries(facts, tableSize, q.left, s);
      FindsWithoutTries(facts, tableSize, q.right, s);
    }
  }

  lemma {:induction false} NothingToGuess(facts: Facts, q: Query)
    requires facts.inTries == {}
    ensures NoGuess(facts, q)
  {
    if q.Op? {
      NothingToGuess(facts, q.left);
      NothingToGuess(facts, q.right);
    } else if q.Pos? {
      assert BeginsUpTo(facts, q.pos) == {};
    }
  }

  /**
   * On a program indexed without tries every query is a plain filter too, of the query without its positions, name
   * prefixes and non-empty name suffixes. Those find nothing there.
   */
  lemma {:induction false} QueryIsAFilterWithoutTries(facts: Facts, tableSize: nat, q: Query)
    requires facts.limits.Sane() && TriesUnused(facts) && forall s :: s in facts.live ==> InScope(facts, s)
    ensures Denoted(facts, tableSize, q) ==
            set s | s in facts.live && Matches(facts.limits, facts.kindNames, tableSize, WithoutTries(q), s)
  {
    hide Denoted, Finds, Matches, InScope;
    NothingToGuess(facts, q);
    SymbolBySymbol(facts, tableSize, q);
    forall s | s in facts.live
      ensures Finds(facts, tableSize, q, s) <==>
              Matches(facts.limits, facts.kindNames, tableSize, WithoutTries(q), s)
    {
      FindsWithoutTries(facts, tableSize, q, s);
    }
  }

  // ----- what every query finds is live -----

  lemma {:induction false} FirstByAddressIsSubset(ids: set<Symbol>, count: nat)
    ensures FirstByAddress(ids, count) <= ids
    ensures |FirstByAddress(ids, count)| == if count <= |ids| then count else |ids|
    ensures forall a, b :: a in FirstByAddress(ids, count) && b in ids - FirstByAddress(ids, count) ==>
      a.address <= b.address
  {
    if count != 0 && ids != {} {
      FirstByAddressIsSubset(ids - {Lowest(ids)}, count - 1);
    }
  }

  lemma PosIdsAreLive(facts: Facts, sign: string, pos: Position)
    requires facts.inTries <= facts.live
    ensures PosIds(facts, sign, pos) <= facts.live
  {
    hide PosToStr, FirstByAddress;
    var begins := BeginsUpTo(facts, pos);
    assert begins <= facts.inTries;
    if EndsFrom(facts, pos) == {} && begins != {} {
      FirstByAddressIsSubset(begins, Lowest(begins).scopeLevel + 1);
    }
    assert PosEQ(facts, pos) <= facts.live;
  }

  lemma {:induction false} DenotedAreLive(facts: Facts, tableSize: nat, q: Query)
    requires facts.inTries <= facts.live
    ensures Denoted(facts, tableSize, q) <= facts.live
  {
    hide PosIds, TermMatches;
    match q {
      case Op(_, left, right) =>
        DenotedAreLive(facts, tableSize, left);
        DenotedAreLive(facts, tableSize, right);
      case Pos(_, sign, pos) =>
        PosIdsAreLive(facts, sign, pos);
      case Term(_, _, _, _) =>
    }
  }
}
