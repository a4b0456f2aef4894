/** The searcher: evaluates query trees over the inverted index and caches the sorted answers. */
module Searchers {
  import opened Symbols
  import opened Tries
  import opened PosSearch
  import opened InvertedIndexes
  import opened Queries
  import opened SearchSpecs

  // ----- counting through levels -----

  /** The counter of a loop over levels after some rounds: an unsigned word of 32 bits. */
  function Counter(rounds: nat): nat {
    rounds % (UINT32_MAX + 1)
  }

  /**
   * A loop that counts while the counter is below a bound comes to an end if and only if the bound fits the counter.
   */
  lemma CountingEndsIff(bound: nat)
    ensures (exists rounds: nat :: !(Counter(rounds) < bound)) <==> bound <= UINT32_MAX
  {
    assert Counter(UINT32_MAX) == UINT32_MAX;
  }

  /** The numbers of a query that levels are counted up to can be reached by the counter. */
  predicate LevelsFit(q: Query) {
    match q
    case Op(_, left, right) => LevelsFit(left) && LevelsFit(right)
    case Pos(_, _, _) => true
    case Term(key, sign, value, _) => key == "scope_level" ==> CountEnds(sign, value)
  }

  predicate CountEnds(sign: string, value: string) {
    (sign == "<" ==> StrToUl(value) <= UINT32_MAX) && (sign == "<=" ==> StrToUl(value) + 1 <= UINT32_MAX)
  }

  // ----- lookups by one property -----

  method GetIDsByName(index: InvertedIndex, name: string) returns (ids: set<Symbol>)
    requires index.Valid()
    ensures ids == set s | s in index.facts.live && s.name == name
  {
    ids := Bucket(index.nameIndexes, name);
  }

  /** The union of the name buckets of a list of names. */
  method GetIDsByNames(index: InvertedIndex, names: seq<string>) returns (ids: set<Symbol>)
    requires index.Valid()
    ensures ids == set s | s in index.facts.live && s.name in names
  {
    hide Trie.Valid, Trie.Linked;
    ids := {};
    var i := 0;
    while i < |names|
      invariant 0 <= i <= |names|
      invariant ids == set s | s in index.facts.live && s.name in names[..i]
    {
      var more := GetIDsByName(index, names[i]);
      ids := ids + more;
      assert names[..i + 1] == names[..i] + [names[i]];
      i := i + 1;
    }
    assert names[..i] == names;
  }

  method GetIDsByNamePrefix(index: InvertedIndex, prefix: string) returns (ids: set<Symbol>)
    requires index.Valid()
    ensures ids == set s | s in index.facts.live && s.name in index.facts.nameWords && s.name != "" && prefix <= s.name
  {
    hide Trie.Valid, Trie.Linked;
    var names := index.nameTrie.PrefixMatch(prefix);
    ids := GetIDsByNames(index, names);
  }

  method GetAllIDs(index: InvertedIndex) returns (ids: set<Symbol>)
    requires index.Valid()
    ensures ids == index.facts.live
  {
    hide Trie.Valid, InvertedIndex.TriesValid;
    ids := {};
    var todo := index.nameIndexes.Keys;
    forall s | s in index.facts.live ensures s.name in todo {
      assert s in set x | x in index.facts.live && NameOf()(x) == s.name;
      assert s in Bucket(index.nameIndexes, s.name);
    }
    while todo != {}
      invariant todo <= index.nameIndexes.Keys
      invariant ids == set s | s in index.facts.live && s.name !in todo
      decreases todo
    {
      var name :| name in todo;
      assert Bucket(index.nameIndexes, name) == set s | s in index.facts.live && NameOf()(s) == name;
      ids := ids + index.nameIndexes[name];
      todo := todo - {name};
    }
  }

  /** An empty suffix matches every indexed name. */
  method GetIDsByNameSuffix(index: InvertedIndex, suffix: string) returns (ids: set<Symbol>)
    requires index.Valid()
    ensures ids == set s | s in index.facts.live &&
                           (suffix == "" || (s.name in index.facts.nameWords && |suffix| < |s.name| &&
                                              s.name[|s.name| - |suffix|..] == suffix))
  {
    hide Trie.Valid, Trie.Linked;
    if suffix == "" {
      ids := GetAllIDs(index);
      return;
    }
    var names := index.nameTrie.SuffixMatch(suffix);
    ids := GetIDsByNames(index, names);
  }

  method GetIDsByScopeName(index: InvertedIndex, scopeName: string) returns (ids: set<Symbol>)
    requires index.Valid()
    ensures ids == set s | s in index.facts.live && ScopeOf()(s) == scopeName
  {
    ids := Bucket(index.scopeNameIndexes, scopeName);
  }

  method GetIDsByScopeNamePrefix(index: InvertedIndex, prefix: string) returns (ids: set<Symbol>)
    requires index.Valid()
    ensures ids == set s | s in index.facts.live && ScopeOf()(s) in index.facts.scopeWords &&
                           ScopeOf()(s) != "" && prefix <= ScopeOf()(s)
  {
    hide ScopeNameWithoutTail, Trie.Valid;
    var names := index.scopeNameTrie.PrefixMatch(prefix);
    ids := {};
    var i := 0;
    while i < |names|
      invariant 0 <= i <= |names|
      invariant ids == set s | s in index.facts.live && ScopeOf()(s) in names[..i]
    {
      var more := GetIDsByScopeName(index, names[i]);
      ids := ids + more;
      assert names[..i + 1] == names[..i] + [names[i]];
      i := i + 1;
    }
    assert names[..i] == names;
  }

  method GetIDsByASTKind(index: InvertedIndex, astKind: string) returns (ids: set<Symbol>)
    requires index.Valid()
    ensures ids == set s | s in index.facts.live && KindOf(index.kindNames)(s) == astKind
  {
    ids := Bucket(index.astKindIndexes, astKind);
  }

  method GetIDsByASTKindSuffix(index: InvertedIndex, suffix: string) returns (ids: set<Symbol>)
    requires index.Valid()
    ensures ids == set s | s in index.facts.live && KindOf(index.kindNames)(s) in index.kindNames &&
                           IsProperSuffix(suffix, KindOf(index.kindNames)(s))
    ensures forall s :: s in ids ==>
      s.astKind < |index.kindNames| && 0 < |suffix| < |index.kindNames[s.astKind]| &&
      index.kindNames[s.astKind][|index.kindNames[s.astKind]| - |suffix|..] == suffix
  {
    hide Trie.Valid;
    var kinds := index.astKindTrie.SuffixMatch(suffix);
    ids := {};
    var i := 0;
    while i < |kinds|
      invariant 0 <= i <= |kinds|
      invariant ids == set s | s in index.facts.live && KindOf(index.kindNames)(s) in kinds[..i]
    {
      var more := GetIDsByASTKind(index, kinds[i]);
      ids := ids + more;
      assert kinds[..i + 1] == kinds[..i] + [kinds[i]];
      i := i + 1;
    }
    assert kinds[..i] == kinds;
  }

  /** The symbols whose scope level compares with the number in a value. Each level below it is looked up in turn. */
  method GetIDsByScopeLevel(index: InvertedIndex, tableSize: nat, sign: string,
                            value: string) returns (ids: set<Symbol>)
    requires index.Valid()
    requires CountEnds(sign, value)
    ensures ids == set s | s in index.facts.live && LevelMatches(s.scopeLevel, sign, value, tableSize)
    ensures sign == "=" ==> ids == set s | s in index.facts.live && s.scopeLevel == StrToUint(value, tableSize) &&
                                           s.scopeLevel < 4294967295
    ensures sign == "<" ==> ids == set s | s in index.facts.live && s.scopeLevel < StrToUl(value)
    ensures sign == "<=" ==> ids == set s | s in index.facts.live && s.scopeLevel <= StrToUl(value)
    ensures sign !in {"=", "<", "<="} ==> ids == {}
  {
    hide Trie.Valid, InvertedIndex.TriesValid, StrToUl, StrToUint;
    ids := {};
    if sign == "=" {
      var level: nat := StrToUint(value, tableSize);
      if level < UINT32_MAX {
        ids := Bucket(index.scopeLevelIndexes, level);
        assert ids == set s | s in index.facts.live && LevelOf()(s) == level;
      }
    } else if sign == "<" {
      ids := LevelsBelow(index, StrToUl(value));
    } else if sign == "<=" {
      ids := LevelsBelow(index, StrToUl(value) + 1);
    }
  }

  method LevelsBelow(index: InvertedIndex, bound: nat) returns (ids: set<Symbol>)
    requires index.Valid() && bound <= UINT32_MAX
    ensures ids == set s | s in index.facts.live && s.scopeLevel < bound
  {
    hide Trie.Valid, InvertedIndex.TriesValid;
    ids := {};
    var level: nat := 0;
    while level < bound
      invariant 0 <= level <= bound
      invariant ids == set s | s in index.facts.live && s.scopeLevel < level
    {
      assert Bucket(index.scopeLevelIndexes, level) == set s | s in index.facts.live && LevelOf()(s) == level;
      ids := ids + Bucket(index.scopeLevelIndexes, level);
      level := level + 1;
    }
  }

  // ----- lookups by position -----

  method LowestOf(ids: set<Symbol>) returns (m: Symbol)
    requires ids != {} && DistinctAddresses(ids)
    ensures m == Lowest(ids)
  {
    m :| m in ids;
    var todo := ids - {m};
    while todo != {}
      invariant todo <= ids && m in ids
      invariant forall x :: x in ids - todo ==> m.address <= x.address
      decreases todo
    {
      var x :| x in todo;
      if x.address < m.address {
        m := x;
      }
      todo := todo - {x};
    }
    assert Lowest(ids) in ids && m in ids;
  }

  /**
   * The symbols whose range contains a position. When none ends at or after it, the scope level of the first candidate
   * says how many candidates to take.
   */
  method GetIDsByPosEQ(index: InvertedIndex, pos: Position) returns (ids: set<Symbol>)
    requires index.Valid() && DistinctAddresses(index.facts.live)
    ensures ids == PosEQ(index.facts, pos)
  {
    hide Trie.Valid, Trie.Linked, PosToStr, LessIds, GreaterIds, InvertedIndex.BucketsValid, InvertedIndex.Distinct;
    var begins := GetIDsLessThanPos(index.posBeginTrie, index.limits, pos, true);
    var ends := GetIDsGreaterThanPos(index.posEndTrie, index.limits, pos, true);
    if ends != {} {
      return begins * ends;
    }
    if begins == {} {
      return {};
    }
    BeginsAreLive(index.facts, pos);
    ids := {};
    var first := LowestOf(begins);
    var scopeLevel: int := first.scopeLevel;
    var todo := begins;
    while todo != {} && scopeLevel >= 0
      invariant todo <= begins && scopeLevel >= -1
      invariant ids + FirstByAddress(todo, scopeLevel + 1) == FirstByAddress(begins, first.scopeLevel + 1)
      decreases todo
    {
      var id := LowestOf(todo);
      ids := ids + {id};
      scopeLevel := scopeLevel - 1;
      todo := todo - {id};
    }
  }

  lemma BeginsAreLive(facts: Facts, pos: Position)
    requires facts.inTries <= facts.live
    ensures BeginsUpTo(facts, pos) <= facts.live
  {
    hide PosToStr;
  }

  method GetIDsByPos(index: InvertedIndex, sign: string, pos: Position) returns (ids: set<Symbol>)
    requires index.Valid() && DistinctAddresses(index.facts.live)
    ensures ids == PosIds(index.facts, sign, pos)
  {
    hide Trie.Valid, Trie.Linked, PosToStr, LessIds, GreaterIds, PosEQ;
    ids := {};
    if sign == "=" {
      ids := GetIDsByPosEQ(index, pos);
    } else if sign == "<" {
      ids := GetIDsByPosLT(index, pos, false);
    } else if sign == "<=" {
      ids := GetIDsByPosLT(index, pos, true);
    } else if sign == ">" {
      ids := GetIDsByPosGT(index, pos, false);
    } else if sign == ">=" {
      ids := GetIDsByPosGT(index, pos, true);
    }
  }

  method GetIDsByPosLT(index: InvertedIndex, pos: Position, contain: bool) returns (ids: set<Symbol>)
    requires index.Valid() && DistinctAddresses(index.facts.live)
    ensures ids == LessIds(EndKeys(index.facts), index.limits, PosToStr(index.limits, pos), false) +
                   if contain then PosEQ(index.facts, pos) else {}
  {
    hide Trie.Valid, Trie.Linked, PosToStr, LessIds, GreaterIds, PosEQ;
    ids := GetIDsLessThanPos(index.posEndTrie, index.limits, pos, false);
    if contain {
      var around := GetIDsByPosEQ(index, pos);
      ids := ids + around;
    }
  }

  method GetIDsByPosGT(index: InvertedIndex, pos: Position, contain: bool) returns (ids: set<Symbol>)
    requires index.Valid() && DistinctAddresses(index.facts.live)
    ensures ids == GreaterIds(BeginKeys(index.facts), index.limits, PosToStr(index.limits, pos), false) +
                   if contain then PosEQ(index.facts, pos) else {}
  {
    hide Trie.Valid, Trie.Linked, PosToStr, LessIds, GreaterIds, PosEQ;
    ids := GetIDsGreaterThanPos(index.posBeginTrie, index.limits, pos, false);
    if contain {
      var around := GetIDsByPosEQ(index, pos);
      ids := ids + around;
    }
  }

  // ----- evaluation of a query tree -----

  /** The symbols of a term. An unknown key finds nothing. */
  method GetIDsByTerm(index: InvertedIndex, tableSize: nat, q: Query) returns (ids: set<Symbol>)
    requires index.Valid() && q.Term? && LevelsFit(q)
    ensures ids == set s | s in index.facts.live && TermMatches(index.facts, tableSize, q, s)
  {
    hide Trie.Valid, InvertedIndex.TriesValid, InvertedIndex.BucketsValid, ScopeNameWithoutTail, LevelMatches,
      StrToUl;
    ids := {};
    if q.key == "name" {
      if q.matchKind == PRECISE {
        ids := GetIDsByName(index, q.value);
      } else if q.matchKind == PREFIX {
        ids := GetIDsByNamePrefix(index, q.value);
      } else {
        ids := GetIDsByNameSuffix(index, q.value);
      }
    } else if q.key == "scope_level" {
      ids := GetIDsByScopeLevel(index, tableSize, q.sign, q.value);
    } else if q.key == "scope_name" {
      if q.matchKind == PRECISE {
        ids := GetIDsByScopeName(index, q.value);
      } else if q.matchKind == PREFIX {
        ids := GetIDsByScopeNamePrefix(index, q.value);
      }
    } else if q.key == "ast_kind" {
      if q.matchKind == PRECISE {
        ids := GetIDsByASTKind(index, q.value);
      } else if q.matchKind == SUFFIX {
        ids := GetIDsByASTKindSuffix(index, q.value);
      }
    }
  }

  method PerformSearch(index: InvertedIndex, tableSize: nat, q: Query) returns (ids: set<Symbol>)
    requires index.Valid() && DistinctAddresses(index.facts.live)
    requires LevelsFit(q)
    ensures ids == Denoted(index.facts, tableSize, q)
    ensures q.Op? ==>
      var left, right := Denoted(index.facts, tableSize, q.left), Denoted(index.facts, tableSize, q.right);
      ids == if q.op == AND then left * right else if q.op == OR then left + right else left - right
    decreases q
  {
    hide Trie.Valid, Trie.Linked, TermMatches, PosIds;
    match q {
      case Op(op, left, right) =>
        var leftIds := PerformSearch(index, tableSize, left);
        var rightIds := PerformSearch(index, tableSize, right);
        match op {
          case AND => ids := leftIds * rightIds;
          case OR => ids := leftIds + rightIds;
          case NOT => ids := leftIds - rightIds;
        }
      case Pos(_, sign, pos) =>
        ids := GetIDsByPos(index, sign, pos);
      case Term(_, _, _, _) =>
        ids := GetIDsByTerm(index, tableSize, q);
    }
  }
}
