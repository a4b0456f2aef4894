/** The result cache of the searcher, and what has to happen for it not to show. */
module SearchCaches {
  import opened Symbols
  import opened Tries
  import opened PosSearch
  import opened InvertedIndexes
  import opened Queries
  import opened Orders
  import opened SearchSpecs
  import opened Searchers

  type Cache = map<string, seq<Symbol>>

  /** What a search with a coherent cache asks of the query: it can be printed without ambiguity, and counting ends. */
  predicate Searchable(q: Query) {
    WellFormed(q) && LevelsFit(q)
  }

  predicate Contains(text: string, part: string) {
    exists i :: 0 <= i <= |text| && part <= text[i..]
  }

  /** The text by which entries are kept when symbols below the top level change. */
  const TOP_LEVEL_TEXT := "scope_level=0"

  /** Queries that can only find symbols of the top level. */
  predicate AboutTopLevel(q: Query) {
    match q
    case Op(AND, left, right) => AboutTopLevel(left) || AboutTopLevel(right)
    case Op(OR, left, right) => AboutTopLevel(left) && AboutTopLevel(right)
    case Op(NOT, left, _) => AboutTopLevel(left)
    case Pos(_, _, _) => false
    case Term(key, sign, value, _) =>
      key == "scope_level" && sign == "=" && value != "" && AllDigits(value) && DigitsValue(value) == 0
  }

  /** Queries that no index makes guess, because they ask for no symbols around a position. */
  predicate NeverGuesses(q: Query) {
    match q
    case Op(_, left, right) => NeverGuesses(left) && NeverGuesses(right)
    case Pos(_, sign, _) => sign !in ["=", "<=", ">="]
    case Term(_, _, _, _) => true
  }

  /** A search whose answer a change below the top level cannot spoil: it is dropped, or it only shows the top level. */
  predicate Unspoilt(q: Query, order: Order) {
    !Contains(NormalizeQuery(q, order), TOP_LEVEL_TEXT) || (AboutTopLevel(q) && NeverGuesses(q))
  }

  /**
   * Every cached list is an answer to each searchable query that has its key; in a cache that was kept through changes
   * below the top level, only to those that such a change cannot spoil.
   */
  ghost predicate Coherent(cache: Cache, facts: Facts, tableSize: nat, spoilt: bool) {
    forall q, order ::
      Searchable(q) && (spoilt ==> Unspoilt(q, order)) && NormalizeQuery(q, order) in cache ==>
        IsAnswer(order, cache[NormalizeQuery(q, order)], Denoted(facts, tableSize, q))
  }

  lemma EmptyCacheIsCoherent(facts: Facts, tableSize: nat, spoilt: bool)
    ensures Coherent(map[], facts, tableSize, spoilt)
  {
  }

  class Searcher {
    var cache: Cache

    constructor ()
      ensures cache == map[]
    {
      cache := map[];
    }

    method InvalidateCache()
      modifies this
      ensures cache == map[]
    {
      cache := map[];
    }

    /** Drops the entries whose key does not contain a text. */
    method InvalidateCacheBut(query: string)
      modifies this
      ensures cache == KeptBut(old(cache), query)
      ensures forall key :: key in cache <==>
        key in old(cache) && exists i :: 0 <= i <= |key| && query <= key[i..]
      ensures forall key :: key in cache ==> cache[key] == old(cache)[key]
    {
      var todo := cache.Keys;
      while todo != {}
        invariant todo <= old(cache).Keys
        invariant cache == map key | key in old(cache) && (key in todo || Contains(key, query)) :: old(cache)[key]
        decreases todo
      {
        var key :| key in todo;
        if !Contains(key, query) {
          cache := cache - {key};
        }
        todo := todo - {key};
      }
    }

    /**
     * The symbols of a query in order, from the cache when it has them. A cache that agrees with the index still does
     * so afterwards, if the query prints without ambiguity, and the answer is then right.
     */
    method Search(index: InvertedIndex, tableSize: nat, query: Query, order: Order) returns (results: seq<Symbol>)
      requires index.Valid() && DistinctAddresses(index.facts.live) && LevelsFit(query)
      requires NormalizeQuery(query, order) !in cache ==> PathsAgree(Denoted(index.facts, tableSize, query))
      modifies this
      ensures Lookup(old(cache), index.facts, tableSize, query, order, results, cache)
      ensures forall spoilt :: WellFormed(query) && Coherent(old(cache), index.facts, tableSize, spoilt) ==>
                Coherent(cache, index.facts, tableSize, spoilt) &&
                ((spoilt ==> Unspoilt(query, order)) ==>
                  IsAnswer(order, results, Denoted(index.facts, tableSize, query)) && InOrder(order, results))
    {
      hide InvertedIndex.BucketsValid, InvertedIndex.TriesValid, Denoted, IsAnswer, InOrder, NormalizeQuery, Printed;
      hide Coherent;
      var normalizedQuery := NormalizeQuery(query, order);
      if normalizedQuery in cache {
        results := cache[normalizedQuery];
      } else {
        var ids := PerformSearch(index, tableSize, query);
        results := Sort(ids, order);
        cache := cache[normalizedQuery := results];
      }
      forall spoilt | WellFormed(query) && Coherent(old(cache), index.facts, tableSize, spoilt)
        ensures Coherent(cache, index.facts, tableSize, spoilt)
        ensures (spoilt ==> Unspoilt(query, order)) ==> IsAnswer(order, results, Denoted(index.facts, tableSize, query))
      {
        LookupKeepsCoherence(old(cache), index.facts, tableSize, query, order, results, cache, spoilt);
      }
      AnswersAre(order, results, Denoted(index.facts, tableSize, query));
    }
  }

  /** One search as the cache sees it: a hit returns the entry, a miss computes an answer and stores it. */
  ghost predicate Lookup(cache: Cache, facts: Facts, tableSize: nat, q: Query, order: Order, results: seq<Symbol>,
                         cache': Cache) {
    var key := NormalizeQuery(q, order);
    if key in cache then results == cache[key] && cache' == cache
    else IsAnswer(order, results, Denoted(facts, tableSize, q)) && cache' == cache[key := results]
  }

  /** Storing an answer under a key answers no other query, because no other query has the key. */
  lemma LookupKeepsCoherence(cache: Cache, facts: Facts, tableSize: nat, q: Query, order: Order, results: seq<Symbol>,
                             cache': Cache, spoilt: bool)
    requires Coherent(cache, facts, tableSize, spoilt) && Searchable(q)
    requires Lookup(cache, facts, tableSize, q, order, results, cache')
    ensures (spoilt ==> Unspoilt(q, order)) ==> IsAnswer(order, results, Denoted(facts, tableSize, q))
    ensures Coherent(cache', facts, tableSize, spoilt)
  {
    hide Denoted, IsAnswer, NormalizeQuery, Printed, Unspoilt;
    forall r, order' | Searchable(r) && (spoilt ==> Unspoilt(r, order')) && NormalizeQuery(r, order') in cache'
      ensures IsAnswer(order', cache'[NormalizeQuery(r, order')], Denoted(facts, tableSize, r))
    {
      CacheKeysDoNotCollide(q, order, r, order');
    }
  }

  // ----- what one deletion and one new symbol do to an answer -----

  lemma KeysWithout(facts: Facts, s: Symbol, pos: Position)
    ensures BeginsUpTo(Deleted(facts, s), pos) == BeginsUpTo(facts, pos) - {s}
    ensures EndsFrom(Deleted(facts, s), pos) == EndsFrom(facts, pos) - {s}
    ensures forall key, isClose ::
              LessIds(EndKeys(Deleted(facts, s)), facts.limits, key, isClose) ==
              LessIds(EndKeys(facts), facts.limits, key, isClose) - {s}
    ensures forall key, isClose ::
              GreaterIds(BeginKeys(Deleted(facts, s)), facts.limits, key, isClose) ==
              GreaterIds(BeginKeys(facts), facts.limits, key, isClose) - {s}
  {
    hide PosToStr, IsAbove, IsBelow;
    KeysDeleted(facts, s);
  }

  /** A deletion takes just the deleted symbol out of what a query finds. */
  lemma {:induction false} DeletionTakesOne(facts: Facts, tableSize: nat, q: Query, s: Symbol)
    requires NoGuess(facts, q) && NoGuess(Deleted(facts, s), q)
    ensures Denoted(Deleted(facts, s), tableSize, q) == Denoted(facts, tableSize, q) - {s}
  {
    hide TermMatches, PosToStr, LessIds, GreaterIds, BeginsUpTo, EndsFrom, FirstByAddress;
    match q {
      case Op(_, left, right) =>
        DeletionTakesOne(facts, tableSize, left, s);
        DeletionTakesOne(facts, tableSize, right, s);
      case Pos(_, _, pos) => KeysWithout(facts, s, pos);
      case Term(_, _, _, _) =>
        forall x ensures TermMatches(Deleted(facts, s), tableSize, q, x) == TermMatches(facts, tableSize, q, x) {
          TermsIgnoreDeletion(facts, tableSize, q, s, x);
        }
    }
  }

  lemma TermsIgnoreDeletion(facts: Facts, tableSize: nat, q: Query, s: Symbol, x: Symbol)
    requires q.Term?
    ensures TermMatches(Deleted(facts, s), tableSize, q, x) == TermMatches(facts, tableSize, q, x)
  {
  }

  /** The name of another symbol becomes a word of the name trie with `s`, so that lookups by part of it find both. */
  ghost predicate BecomesKnown(facts: Facts, s: Symbol, withTrie: bool, t: Symbol) {
    withTrie && s.name !in facts.nameWords && t.name == s.name
  }

  /**
   * The name of `s` is no news to the name trie, as far as the other symbols are concerned. It never is where all
   * symbols are indexed with tries, or none.
   */
  ghost predicate NameIsNoNews(facts: Facts, s: Symbol, withTrie: bool) {
    forall t :: t in facts.live ==> !BecomesKnown(facts, s, withTrie, t)
  }

  /** Every level of a live symbol can be asked for. */
  ghost predicate LevelsInTable(facts: Facts, tableSize: nat) {
    forall t :: t in facts.live ==> t.scopeLevel < tableSize
  }

  lemma {:induction false} OthersUnaffected(facts: Facts, m: nat, n: nat, q: Query, s: Symbol, withTrie: bool,
                                            t: Symbol)
    requires !BecomesKnown(facts, s, withTrie, t) && LevelsInTable(facts, m) && m <= n && t in facts.live && t != s
    ensures Finds(Indexed(facts, s, withTrie), n, q, t) <==> Finds(facts, m, q, t)
  {
    hide PosFinds, PosToStr, ScopeNameWithoutTail, IsProperSuffix;
    if q.Op? {
      OthersUnaffected(facts, m, n, q.left, s, withTrie, t);
      OthersUnaffected(facts, m, n, q.right, s, withTrie, t);
    }
  }

  /** A new symbol adds at most itself to what a query finds, and adds itself just when the query finds it. */
  lemma JoiningAddsOne(facts: Facts, m: nat, n: nat, q: Query, s: Symbol, withTrie: bool)
    requires facts.inTries <= facts.live && s !in facts.live
    requires NameIsNoNews(facts, s, withTrie) && LevelsInTable(facts, m) && m <= n
    requires NoGuess(facts, q) && NoGuess(Indexed(facts, s, withTrie), q)
    ensures Denoted(Indexed(facts, s, withTrie), n, q) ==
            Denoted(facts, m, q) + if Finds(Indexed(facts, s, withTrie), n, q, s) then {s} else {}
  {
    hide Denoted, Finds, NoGuess, PosToStr, BecomesKnown, LevelsInTable;
    SymbolBySymbol(facts, m, q);
    SymbolBySymbol(Indexed(facts, s, withTrie), n, q);
    forall t | t in facts.live ensures Finds(Indexed(facts, s, withTrie), n, q, t) <==> Finds(facts, m, q, t) {
      OthersUnaffected(facts, m, n, q, s, withTrie, t);
    }
  }

  lemma AnswersAgreeIff(order: Order, results: seq<Symbol>, ids: set<Symbol>, ids': set<Symbol>)
    requires IsAnswer(order, results, ids)
    ensures IsAnswer(order, results, ids') <==> ids == ids'
    ensures forall s :: s in results <==> s in ids
  {
    hide Sorted;
    forall s ensures s in results <==> s in ids {
      assert s in results <==> s in set x | x in results;
    }
  }

  /** A cached answer stays right through a deletion just when it does not list the symbol. */
  lemma SilentDeletionIsNoticedIff(facts: Facts, tableSize: nat, q: Query, s: Symbol, order: Order, cached: seq<Symbol>)
    requires NoGuess(facts, q) && NoGuess(Deleted(facts, s), q)
    requires IsAnswer(order, cached, Denoted(facts, tableSize, q))
    ensures IsAnswer(order, cached, Denoted(Deleted(facts, s), tableSize, q)) <==> s !in cached
  {
    hide Denoted, IsAnswer, NoGuess;
    DeletionTakesOne(facts, tableSize, q, s);
    AnswersAgreeIff(order, cached, Denoted(facts, tableSize, q), Denoted(Deleted(facts, s), tableSize, q));
  }

  /** What a query finds of the symbols that become known by their name with `s`, but for `gone`, stays as it was. */
  ghost predicate SameOfKnown(facts: Facts, m: nat, n: nat, q: Query, s: Symbol, withTrie: bool, gone: set<Symbol>) {
    forall t :: t in facts.live && t !in gone && BecomesKnown(facts, s, withTrie, t) ==>
      (Finds(Indexed(facts, s, withTrie), n, q, t) <==> Finds(facts, m, q, t))
  }

  lemma FoundAfterArrival(facts: Facts, m: nat, n: nat, q: Query, s: Symbol, withTrie: bool, gone: set<Symbol>)
    requires facts.inTries <= facts.live && s !in facts.live && s !in gone
    requires LevelsInTable(facts, m) && m <= n && NoGuess(facts, q) && NoGuess(Indexed(facts, s, withTrie), q)
    ensures Denoted(Indexed(facts, s, withTrie), n, q) - gone == Denoted(facts, m, q) - gone <==>
            !Finds(Indexed(facts, s, withTrie), n, q, s) && SameOfKnown(facts, m, n, q, s, withTrie, gone)
  {
    hide Denoted, Finds, NoGuess, PosToStr, BecomesKnown, LevelsInTable;
    var facts' := Indexed(facts, s, withTrie);
    SymbolBySymbol(facts, m, q);
    SymbolBySymbol(facts', n, q);
    forall t | t in facts.live && !BecomesKnown(facts, s, withTrie, t)
      ensures Finds(facts', n, q, t) <==> Finds(facts, m, q, t)
    {
      OthersUnaffected(facts, m, n, q, s, withTrie, t);
    }
    var before, after := Denoted(facts, m, q) - gone, Denoted(facts', n, q) - gone;
    assert s in after <==> Finds(facts', n, q, s);
    forall t | t in facts.live && t !in gone
      ensures (t in after <==> Finds(facts', n, q, t)) && (t in before <==> Finds(facts, m, q, t))
    {
    }
  }

  /**
   * A cached answer stays right through the arrival of a symbol just when the query does not find the symbol, nor more
   * of those that become known by their name with it. There are such only where some symbols were indexed with tries
   * and some without.
   */
  lemma SilentArrivalIsNoticedIff(facts: Facts, m: nat, n: nat, q: Query, s: Symbol, withTrie: bool, order: Order,
                                  cached: seq<Symbol>)
    requires facts.inTries <= facts.live && s !in facts.live
    requires LevelsInTable(facts, m) && m <= n && NoGuess(facts, q) && NoGuess(Indexed(facts, s, withTrie), q)
    requires IsAnswer(order, cached, Denoted(facts, m, q))
    ensures IsAnswer(order, cached, Denoted(Indexed(facts, s, withTrie), n, q)) <==>
            !Finds(Indexed(facts, s, withTrie), n, q, s) && SameOfKnown(facts, m, n, q, s, withTrie, {})
    ensures NameIsNoNews(facts, s, withTrie) ==> SameOfKnown(facts, m, n, q, s, withTrie, {})
  {
    hide Denoted, Finds, IsAnswer, NoGuess, LevelsInTable;
    FoundAfterArrival(facts, m, n, q, s, withTrie, {});
    var before, after := Denoted(facts, m, q), Denoted(Indexed(facts, s, withTrie), n, q);
    assert before - {} == before && after - {} == after;
    AnswersAgreeIff(order, cached, before, after);
  }

  ghost function Replaced(facts: Facts, added: Symbol, withTrie: bool, gone: Symbol): Facts {
    Deleted(Indexed(facts, added, withTrie), gone)
  }

  /**
   * A kept answer stays right when one symbol takes the place of another just when it does not list the one that is
   * gone and its query does not find the new one, nor more of the others that become known by their name with it.
   */
  lemma SilentReplacementIsNoticedIff(facts: Facts, m: nat, n: nat, q: Query, added: Symbol, withTrie: bool,
                                      gone: Symbol, order: Order, cached: seq<Symbol>)
    requires facts.inTries <= facts.live && added !in facts.live && gone in facts.live
    requires LevelsInTable(facts, m) && m <= n && NoGuess(facts, q) && NoGuess(Indexed(facts, added, withTrie), q)
    requires NoGuess(Replaced(facts, added, withTrie, gone), q)
    requires IsAnswer(order, cached, Denoted(facts, m, q))
    ensures IsAnswer(order, cached, Denoted(Replaced(facts, added, withTrie, gone), n, q)) <==>
            gone !in cached && !Finds(Indexed(facts, added, withTrie), n, q, added) &&
            SameOfKnown(facts, m, n, q, added, withTrie, {gone})
    ensures NameIsNoNews(facts, added, withTrie) ==> SameOfKnown(facts, m, n, q, added, withTrie, {gone})
  {
    hide Denoted, Finds, IsAnswer, NoGuess, LevelsInTable;
    var before, between := Denoted(facts, m, q), Denoted(Indexed(facts, added, withTrie), n, q);
    FoundAfterArrival(facts, m, n, q, added, withTrie, {gone});
    DeletionTakesOne(Indexed(facts, added, withTrie), n, q, gone);
    AnswersAgreeIff(order, cached, before, between - {gone});
    assert gone !in before ==> before - {gone} == before;
    assert gone in before ==> before != between - {gone};
  }

  /** A deletion that leaves the cache alone is noticed: the search shows a symbol that is gone. */
  lemma StaleAfterSilentDeletion(cache: Cache, facts: Facts, tableSize: nat, s: Symbol, order: Order,
                                 first: seq<Symbol>, cache': Cache, second: seq<Symbol>, cache'': Cache)
    requires s in facts.live && cache == map[]
    requires Lookup(cache, facts, tableSize, Term("name", "=", s.name, PRECISE), order, first, cache')
    requires Lookup(cache', Deleted(facts, s), tableSize, Term("name", "=", s.name, PRECISE), order, second, cache'')
    ensures s in second && s !in Denoted(Deleted(facts, s), tableSize, Term("name", "=", s.name, PRECISE))
  {
    hide NormalizeQuery, Printed;
    var q := Term("name", "=", s.name, PRECISE);
    assert TermMatches(facts, tableSize, q, s);
    assert s in Denoted(facts, tableSize, q);
    assert s in set x | x in first;
  }

  /** The text that keeps entries about the top level also keeps others: this one changes with a symbol below it. */
  lemma KeptEntryGoesStale(facts: Facts, m: nat, n: nat, s: Symbol, withTrie: bool)
    requires s !in facts.live && s.scopeLevel > 0 && facts.inTries <= facts.live
    ensures var q := Op(OR, Term("scope_level", "=", "0", PRECISE), Term("name", "=", s.name, PRECISE));
            && Contains(NormalizeQuery(q, PosAsc), TOP_LEVEL_TEXT)
            && s in Denoted(Indexed(facts, s, withTrie), n, q) && s !in Denoted(facts, m, q)
  {
    var level, name := Term("scope_level", "=", "0", PRECISE), Term("name", "=", s.name, PRECISE);
    var q := Op(OR, level, name);
    var rest := "||" + Printed(name) + ")" + SortSuffix(PosAsc);
    assert NormalizeQuery(q, PosAsc) == "(" + (Printed(level) + rest);
    assert Printed(level) == TOP_LEVEL_TEXT;
    assert NormalizeQuery(q, PosAsc)[1..] == Printed(level) + rest;
    assert TermMatches(Indexed(facts, s, withTrie), n, name, s);
    DenotedAreLive(facts, m, q);
  }

  // ----- answers about the top level -----

  lemma {:induction false} AboutTopLevelFindsTopLevel(facts: Facts, tableSize: nat, q: Query, s: Symbol)
    requires AboutTopLevel(q) && Finds(facts, tableSize, q, s)
    ensures s.scopeLevel == 0
  {
    match q
    case Op(AND, left, right) =>
      if AboutTopLevel(left) {
        AboutTopLevelFindsTopLevel(facts, tableSize, left, s);
      } else {
        AboutTopLevelFindsTopLevel(facts, tableSize, right, s);
      }
    case Op(OR, left, right) =>
      if Finds(facts, tableSize, left, s) {
        AboutTopLevelFindsTopLevel(facts, tableSize, left, s);
      } else {
        AboutTopLevelFindsTopLevel(facts, tableSize, right, s);
      }
    case Op(NOT, left, _) => AboutTopLevelFindsTopLevel(facts, tableSize, left, s);
    case Term(_, _, _, _) =>
  }

  ghost function TopLevel(facts: Facts): set<Symbol> {
    set s | s in facts.live && s.scopeLevel == 0
  }

  /** The index has the same symbols of the top level, and its tries know the same of them. */
  ghost predicate SameTopLevel(facts: Facts, facts': Facts) {
    && facts.limits == facts'.limits && facts.kindNames == facts'.kindNames
    && TopLevel(facts) == TopLevel(facts')
    && forall s :: s in TopLevel(facts) ==>
         (s in facts.inTries <==> s in facts'.inTries) && (s.name in facts.nameWords <==> s.name in facts'.nameWords) &&
         (ScopeNameWithoutTail(s.scopeName) in facts.scopeWords <==>
           ScopeNameWithoutTail(s.scopeName) in facts'.scopeWords)
  }

  /** For a symbol of the top level the size of the symbol table makes no difference. */
  lemma {:induction false} TopLevelFoundAlike(facts: Facts, facts': Facts, m: nat, n: nat, q: Query, s: Symbol)
    requires SameTopLevel(facts, facts') && s in TopLevel(facts)
    ensures Finds(facts, m, q, s) <==> Finds(facts', n, q, s)
  {
    hide PosFinds, ScopeNameWithoutTail, IsProperSuffix;
    if q.Op? {
      TopLevelFoundAlike(facts, facts', m, n, q.left, s);
      TopLevelFoundAlike(facts, facts', m, n, q.right, s);
    }
  }

  /** When the index changes below the top level only, an answer about the top level stays an answer. */
  lemma TopLevelAnswersSurvive(facts: Facts, facts': Facts, m: nat, n: nat, q: Query)
    requires facts.inTries <= facts.live && facts'.inTries <= facts'.live && SameTopLevel(facts, facts')
    requires AboutTopLevel(q) && NoGuess(facts, q) && NoGuess(facts', q)
    ensures Denoted(facts, m, q) == Denoted(facts', n, q)
  {
    hide Denoted, Finds, NoGuess, SameTopLevel, AboutTopLevel;
    SymbolBySymbol(facts, m, q);
    SymbolBySymbol(facts', n, q);
    assert TopLevel(facts) == TopLevel(facts') by { SameTops(facts, facts'); }
    forall s | s in facts.live + facts'.live
      ensures s in facts.live && Finds(facts, m, q, s) <==> s in facts'.live && Finds(facts', n, q, s)
    {
      if s.scopeLevel == 0 {
        if s in TopLevel(facts) {
          TopLevelFoundAlike(facts, facts', m, n, q, s);
        }
      } else {
        if Finds(facts, m, q, s) {
          AboutTopLevelFindsTopLevel(facts, m, q, s);
        }
        if Finds(facts', n, q, s) {
          AboutTopLevelFindsTopLevel(facts', n, q, s);
        }
      }
    }
  }

  lemma SameTops(facts: Facts, facts': Facts)
    requires SameTopLevel(facts, facts')
    ensures TopLevel(facts) == TopLevel(facts')
  {
  }

  /** Replacing one symbol below the top level by another there leaves the top level as it was. */
  lemma ReplacementKeepsTopLevel(facts: Facts, added: Symbol, withTrie: bool, gone: Symbol)
    requires added.scopeLevel > 0 && gone.scopeLevel > 0 && NameIsNoNews(facts, added, withTrie)
    ensures SameTopLevel(facts, Replaced(facts, added, withTrie, gone))
  {
    hide PosToStr, ScopeNameWithoutTail;
  }

  lemma {:induction false} NeverGuessing(facts: Facts, q: Query)
    requires NeverGuesses(q)
    ensures NoGuess(facts, q)
  {
    if q.Op? {
      NeverGuessing(facts, q.left);
      NeverGuessing(facts, q.right);
    }
  }

  /** The entries that stay when those without a text are dropped. */
  function KeptBut(cache: Cache, text: string): Cache {
    map key | key in cache && Contains(key, text) :: cache[key]
  }

  /** What is kept through a change below the top level answers every query that the change cannot spoil. */
  lemma KeptStaysCoherent(cache: Cache, facts: Facts, m: nat, facts': Facts, n: nat)
    requires Coherent(cache, facts, m, true) && SameTopLevel(facts, facts')
    requires facts.inTries <= facts.live && facts'.inTries <= facts'.live
    ensures Coherent(KeptBut(cache, TOP_LEVEL_TEXT), facts', n, true)
  {
    hide Denoted, IsAnswer, NormalizeQuery, SameTopLevel, AboutTopLevel, NeverGuesses, Searchable, Contains, NoGuess;
    var cache' := KeptBut(cache, TOP_LEVEL_TEXT);
    forall q, order | Searchable(q) && Unspoilt(q, order) && NormalizeQuery(q, order) in cache'
      ensures IsAnswer(order, cache'[NormalizeQuery(q, order)], Denoted(facts', n, q))
    {
      NeverGuessing(facts, q);
      NeverGuessing(facts', q);
      TopLevelAnswersSurvive(facts, facts', m, n, q);
    }
  }

  // ----- runs -----

  datatype Event =
    | IndexChange(newFacts: Facts, newTableSize: nat)
    | ChangeBelowTopLevel(newFacts: Facts, newTableSize: nat)
    | Invalidate
    | InvalidateBut(text: string)
    | Search(q: Query, order: Order, results: seq<Symbol>)

  /** `spoilt` says that the cache was kept through a change of the index and not emptied since. */
  datatype State = State(cache: Cache, facts: Facts, tableSize: nat, spoilt: bool)

  /**
   * One event. A change of the index empties the cache, or it leaves the top level alone and the entries whose key
   * mentions the top level are kept.
   */
  ghost predicate Step(s: State, e: Event, s': State) {
    match e
    case IndexChange(newFacts, newTableSize) => s' == State(map[], newFacts, newTableSize, false)
    case ChangeBelowTopLevel(newFacts, newTableSize) =>
      s.facts.inTries <= s.facts.live && newFacts.inTries <= newFacts.live && SameTopLevel(s.facts, newFacts) &&
      s' == State(KeptBut(s.cache, TOP_LEVEL_TEXT), newFacts, newTableSize, true)
    case Invalidate => s' == s.(cache := map[], spoilt := false)
    case InvalidateBut(text) => s' == s.(cache := KeptBut(s.cache, text))
    case Search(q, order, results) =>
      s' == s.(cache := s'.cache) && Searchable(q) &&
      Lookup(s.cache, s.facts, s.tableSize, q, order, results, s'.cache)
  }

  ghost predicate Run(states: seq<State>, events: seq<Event>) {
    && |states| == |events| + 1
    && states[0].cache == map[] && !states[0].spoilt
    && forall i :: 0 <= i < |events| ==> Step(states[i], events[i], states[i + 1])
  }

  lemma SpoiltIsLess(cache: Cache, facts: Facts, tableSize: nat)
    requires Coherent(cache, facts, tableSize, false)
    ensures Coherent(cache, facts, tableSize, true)
  {
    hide Denoted, IsAnswer, NormalizeQuery, Unspoilt;
  }

  lemma KeptButIsLess(cache: Cache, facts: Facts, tableSize: nat, spoilt: bool, text: string)
    requires Coherent(cache, facts, tableSize, spoilt)
    ensures Coherent(KeptBut(cache, text), facts, tableSize, spoilt)
  {
    hide Denoted, IsAnswer, NormalizeQuery, Unspoilt, Contains;
  }

  lemma StepKeepsCoherence(s: State, e: Event, s': State)
    requires Coherent(s.cache, s.facts, s.tableSize, s.spoilt) && Step(s, e, s')
    ensures Coherent(s'.cache, s'.facts, s'.tableSize, s'.spoilt)
    ensures e.Search? && (s.spoilt ==> Unspoilt(e.q, e.order)) ==>
            IsAnswer(e.order, e.results, Denoted(s.facts, s.tableSize, e.q))
  {
    hide Coherent, Lookup, Denoted, IsAnswer, Unspoilt, SameTopLevel, KeptBut;
    match e
    case IndexChange(newFacts, newTableSize) => EmptyCacheIsCoherent(newFacts, newTableSize, false);
    case ChangeBelowTopLevel(newFacts, newTableSize) =>
      if !s.spoilt {
        SpoiltIsLess(s.cache, s.facts, s.tableSize);
      }
      KeptStaysCoherent(s.cache, s.facts, s.tableSize, newFacts, newTableSize);
    case Invalidate => EmptyCacheIsCoherent(s.facts, s.tableSize, false);
    case InvalidateBut(text) => KeptButIsLess(s.cache, s.facts, s.tableSize, s.spoilt, text);
    case Search(q, order, results) =>
      LookupKeepsCoherence(s.cache, s.facts, s.tableSize, q, order, results, s'.cache, s.spoilt);
  }

  lemma {:induction false} CoherentThroughout(states: seq<State>, events: seq<Event>, n: nat)
    requires Run(states, events) && n < |states|
    ensures Coherent(states[n].cache, states[n].facts, states[n].tableSize, states[n].spoilt)
  {
    hide Step, Coherent;
    if n == 0 {
      EmptyCacheIsCoherent(states[0].facts, states[0].tableSize, false);
    } else {
      CoherentThroughout(states, events, n - 1);
      StepKeepsCoherence(states[n - 1], events[n - 1], states[n]);
    }
  }

  /**
   * In every run each search shows what the index denotes at that moment, unless the cache was kept through a change
   * below the top level and the search is one whose entry mentions the top level without being about it.
   */
  lemma CacheIsTransparent(states: seq<State>, events: seq<Event>, n: nat)
    requires Run(states, events) && n < |events| && events[n].Search?
    requires states[n].spoilt ==> Unspoilt(events[n].q, events[n].order)
    ensures IsAnswer(events[n].order, events[n].results, Denoted(states[n].facts, states[n].tableSize, events[n].q))
    ensures InOrder(events[n].order, events[n].results)
  {
    hide Step, Coherent, IsAnswer, InOrder;
    CoherentThroughout(states, events, n);
    StepKeepsCoherence(states[n], events[n], states[n + 1]);
    AnswersAre(events[n].order, events[n].results, Denoted(states[n].facts, states[n].tableSize, events[n].q));
  }

  ghost function Without(facts: Facts, gone: set<Symbol>): Facts {
    facts.(live := facts.live - gone, inTries := facts.inTries - gone)
  }

  // ----- the context that owns index and searcher -----

  class ASTContext {
    const invertedIndex: InvertedIndex
    const searcher: Searcher
    var symbolTable: seq<Symbol>

    ghost predicate Valid()
      reads this, invertedIndex, invertedIndex.Tries()
    {
      invertedIndex.Valid() && DistinctAddresses(invertedIndex.facts.live)
    }

    /** The cache agrees with the index, or as far as a cache can that was kept through changes below the top level. */
    ghost predicate InStep(spoilt: bool)
      reads this, invertedIndex, searcher
    {
      Coherent(searcher.cache, invertedIndex.facts, |symbolTable|, spoilt)
    }

    constructor (kindNames: seq<string>, limits: PosLimits)
      requires limits.Sane()
      ensures Valid() && InStep(false) && symbolTable == []
    {
      hide InvertedIndex.BucketsValid, Trie.Valid, Trie.Linked, Coherent, PosToStr;
      symbolTable := [];
      searcher := new Searcher();
      invertedIndex := new InvertedIndex(kindNames, limits);
      new;
      EmptyCacheIsCoherent(invertedIndex.facts, |symbolTable|, false);
    }

    /** Puts a new symbol into the table and the index. The cache is left as it is. */
    method AddSymbol(symbol: Symbol, buildTrie: bool)
      requires Valid() && Fits(invertedIndex.facts, symbol) && DistinctAddresses(invertedIndex.facts.live + {symbol})
      modifies this`symbolTable, invertedIndex, invertedIndex.Tries()
      ensures Valid()
      ensures symbolTable == old(symbolTable) + [symbol]
      ensures invertedIndex.facts == Indexed(old(invertedIndex.facts), symbol, buildTrie)
    {
      hide InvertedIndex.BucketsValid, InvertedIndex.TriesValid;
      symbolTable := symbolTable + [symbol];
      invertedIndex.Index(symbol, buildTrie);
    }

    /** A symbol that was taken out before, or that can be taken out. */
    ghost predicate MayGo(symbol: Symbol)
      reads invertedIndex, symbol
    {
      symbol.invertedIndexBeenDeleted ||
      (symbol.astKind < |invertedIndex.kindNames| && Deletable(invertedIndex.facts, symbol))
    }

    /** Takes the symbol of one node out of the index. The cache is left as it is. */
    method DeleteCurrentInvertedIndexes(symbol: Symbol?)
      requires Valid() && (symbol != null ==> MayGo(symbol))
      modifies invertedIndex, invertedIndex.Tries(), if symbol == null then {} else {symbol}
      ensures Valid()
      ensures invertedIndex.facts == if symbol == null || old(symbol.invertedIndexBeenDeleted)
                                     then old(invertedIndex.facts) else Deleted(old(invertedIndex.facts), symbol)
      ensures symbol != null ==> symbol.invertedIndexBeenDeleted
    {
      hide InvertedIndex.BucketsValid, InvertedIndex.TriesValid, Deletable;
      if symbol != null {
        invertedIndex.Delete(symbol);
      }
    }

    /** Takes the symbols of a whole tree out of the index, one visited node at a time, and empties the cache. */
    method DeleteInvertedIndexes(symbols: seq<Symbol?>)
      requires Valid() && forall s: Symbol :: s in symbols ==> MayGo(s)
      modifies invertedIndex, invertedIndex.Tries(), searcher, set s: Symbol? | s in symbols && s != null
      ensures Valid() && InStep(false)
      ensures var gone := set s: Symbol | s in symbols && !old(s.invertedIndexBeenDeleted);
              invertedIndex.facts == Without(old(invertedIndex.facts), gone)
    {
      hide InvertedIndex.Valid, Coherent, Erasable, PosToStr, DistinctAddresses;
      ghost var facts := invertedIndex.facts;
      var i := 0;
      while i < |symbols|
        invariant 0 <= i <= |symbols|
        invariant Valid()
        invariant invertedIndex.facts ==
          Without(facts, set s: Symbol | s in symbols[..i] && !old(s.invertedIndexBeenDeleted))
        invariant forall s: Symbol :: s in symbols ==>
          (s.invertedIndexBeenDeleted <==> old(s.invertedIndexBeenDeleted) || s in symbols[..i])
      {
        assert symbols[i] != null ==> old(MayGo(symbols[i])) && MayGo(symbols[i]);
        DeleteCurrentInvertedIndexes(symbols[i]);
        assert symbols[..i + 1] == symbols[..i] + [symbols[i]];
        i := i + 1;
      }
      assert symbols[..i] == symbols;
      searcher.InvalidateCache();
      EmptyCacheIsCoherent(invertedIndex.facts, |symbolTable|, false);
    }

    /** Puts a new symbol in the place of another, and keeps the entries that mention the top level. */
    method ReplaceSymbol(added: Symbol, buildTrie: bool, gone: Symbol)
      requires Valid() && Fits(invertedIndex.facts, added) && DistinctAddresses(invertedIndex.facts.live + {added})
      requires !gone.invertedIndexBeenDeleted
      requires gone.astKind < |invertedIndex.kindNames| &&
        Deletable(Indexed(invertedIndex.facts, added, buildTrie), gone)
      modifies this`symbolTable, invertedIndex, invertedIndex.Tries(), searcher, gone
      ensures Valid()
      ensures symbolTable == old(symbolTable) + [added]
      ensures invertedIndex.facts == Replaced(old(invertedIndex.facts), added, buildTrie, gone)
      ensures searcher.cache == KeptBut(old(searcher.cache), TOP_LEVEL_TEXT)
      ensures old(InStep(true)) && SameTopLevel(old(invertedIndex.facts), invertedIndex.facts) ==> InStep(true)
    {
      hide InvertedIndex.BucketsValid, InvertedIndex.TriesValid, Coherent, Deletable, SameTopLevel, KeptBut, PosToStr;
      AddSymbol(added, buildTrie);
      DeleteCurrentInvertedIndexes(gone);
      searcher.InvalidateCacheBut(TOP_LEVEL_TEXT);
      ghost var facts := old(invertedIndex.facts);
      if old(InStep(true)) && SameTopLevel(facts, invertedIndex.facts) {
        KeptStaysCoherent(old(searcher.cache), facts, |old(symbolTable)|, invertedIndex.facts, |symbolTable|);
      }
    }
  }
}
