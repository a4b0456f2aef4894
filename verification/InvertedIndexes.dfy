/** The inverted index: one bucket map per symbol property, and tries for prefix, suffix and range lookups. */
module InvertedIndexes {
  import opened Symbols
  import opened Tries
  import opened PosSearch

  const TOPLEVEL_SCOPE_NAME := "a"

  /** A scope name without its part from the last '_' on; "a0a_a" gives "a0a". */
  function ScopeNameWithoutTail(scopeName: string): string {
    WithoutTail(scopeName, |scopeName|)
  }

  function WithoutTail(scopeName: string, found: nat): string
    requires found <= |scopeName|
  {
    if found == 0 then scopeName
    else if scopeName[found - 1] == '_' then scopeName[..found - 1]
    else WithoutTail(scopeName, found - 1)
  }

  /** What stands before the last underscore is left, and all of a name without one. */
  lemma TailIsCut(name: string, tail: string)
    requires '_' !in tail
    ensures ScopeNameWithoutTail(name + "_" + tail) == name
    ensures ScopeNameWithoutTail(tail) == tail
  {
    var s := name + "_" + tail;
    assert s[|name|] == '_';
    TailIsCutAt(s, |s|, |name|);
    NoTail(tail, |tail|);
  }

  lemma {:induction false} TailIsCutAt(s: string, found: nat, at: nat)
    requires at < found <= |s| && s[at] == '_' && forall k :: at < k < found ==> s[k] != '_'
    ensures WithoutTail(s, found) == s[..at]
  {
    if found > at + 1 {
      TailIsCutAt(s, found - 1, at);
    }
  }

  lemma {:induction false} NoTail(s: string, found: nat)
    requires found <= |s| && '_' !in s
    ensures WithoutTail(s, found) == s
  {
    if found > 0 {
      NoTail(s, found - 1);
    }
  }

  function Bucket<K>(buckets: map<K, set<Symbol>>, key: K): set<Symbol> {
    if key in buckets then buckets[key] else {}
  }

  /** `buckets` sorts the symbols of `live` by the property `f`. */
  ghost predicate SortsBy<K(!new)>(buckets: map<K, set<Symbol>>, live: set<Symbol>, f: Symbol -> K) {
    forall key :: Bucket(buckets, key) == set s | s in live && f(s) == key
  }

  lemma BucketInsert<K(!new)>(buckets: map<K, set<Symbol>>, live: set<Symbol>, f: Symbol -> K, s: Symbol)
    requires SortsBy(buckets, live, f)
    ensures SortsBy(buckets[f(s) := Bucket(buckets, f(s)) + {s}], live + {s}, f)
  {
    var buckets' := buckets[f(s) := Bucket(buckets, f(s)) + {s}];
    forall key ensures Bucket(buckets', key) == set x | x in live + {s} && f(x) == key {
      assert Bucket(buckets, key) == set x | x in live && f(x) == key;
    }
  }

  lemma BucketErase<K(!new)>(buckets: map<K, set<Symbol>>, live: set<Symbol>, f: Symbol -> K, s: Symbol)
    requires SortsBy(buckets, live, f)
    ensures SortsBy(buckets[f(s) := Bucket(buckets, f(s)) - {s}], live - {s}, f)
  {
    var buckets' := buckets[f(s) := Bucket(buckets, f(s)) - {s}];
    forall key ensures Bucket(buckets', key) == set x | x in live - {s} && f(x) == key {
      assert Bucket(buckets, key) == set x | x in live && f(x) == key;
    }
  }

  /** What the index knows: the live symbols, those of them in the tries, and the words the tries have seen. */
  datatype Facts = Facts(
    live: set<Symbol>,
    inTries: set<Symbol>,
    nameWords: set<string>,
    scopeWords: set<string>,
    beginWords: set<string>,
    endWords: set<string>,
    kindNames: seq<string>,
    limits: PosLimits)

  function NameOf(): Symbol -> string { (s: Symbol) => s.name }
  function ScopeOf(): Symbol -> string { (s: Symbol) => ScopeNameWithoutTail(s.scopeName) }
  function LevelOf(): Symbol -> nat { (s: Symbol) => s.scopeLevel }
  function KindOf(kindNames: seq<string>): Symbol -> string {
    (s: Symbol) => if s.astKind < |kindNames| then kindNames[s.astKind] else ""
  }

  function BeginOf(limits: PosLimits): Symbol -> string { (s: Symbol) => PosToStr(limits, s.begin) }
  function EndOf(limits: PosLimits): Symbol -> string { (s: Symbol) => PosToStr(limits, s.end) }

  ghost function Keyed(ids: set<Symbol>, f: Symbol -> string): map<Symbol, string> {
    map s | s in ids :: f(s)
  }

  lemma KeyedInsert(ids: set<Symbol>, f: Symbol -> string, s: Symbol)
    ensures Keyed(ids + {s}, f) == Keyed(ids, f)[s := f(s)]
    ensures s in Keyed(ids, f) ==> Keyed(ids, f)[s] == f(s)
  {
  }

  lemma KeyedDelete(ids: set<Symbol>, f: Symbol -> string, s: Symbol)
    ensures Keyed(ids - {s}, f) == Keyed(ids, f) - {s}
    ensures s in Keyed(ids, f) ==> Keyed(ids, f)[s] == f(s)
  {
  }

  ghost function NameKeys(facts: Facts): map<Symbol, string> { Keyed(facts.inTries, NameOf()) }
  ghost function BeginKeys(facts: Facts): map<Symbol, string> { Keyed(facts.inTries, BeginOf(facts.limits)) }
  ghost function EndKeys(facts: Facts): map<Symbol, string> { Keyed(facts.inTries, EndOf(facts.limits)) }

  predicate Fits(facts: Facts, s: Symbol) {
    s.astKind < |facts.kindNames| && facts.limits.Fits(s.begin) && facts.limits.Fits(s.end)
  }

  lemma NothingToSort<K(!new)>(f: Symbol -> K)
    ensures SortsBy(map[], {}, f)
  {
  }

  /** A trie that knows the given words and no symbols. */
  method TrieOf(words: seq<string>) returns (t: Trie)
    ensures fresh(t) && t.Valid() && t.words == set w | w in words
  {
    hide Trie.Valid;
    t := new Trie();
    var i := 0;
    while i < |words|
      invariant 0 <= i <= |words|
      invariant fresh(t) && t.Valid() && t.words == set w | w in words[..i]
    {
      t.Insert(words[i], NoSymbol);
      assert words[..i + 1] == words[..i] + [words[i]];
      i := i + 1;
    }
    assert words[..i] == words;
  }

  ghost function Indexed(facts: Facts, s: Symbol, withTrie: bool): Facts {
    facts.(live := facts.live + {s},
           inTries := if withTrie then facts.inTries + {s} else facts.inTries,
           nameWords := if withTrie then facts.nameWords + {s.name} else facts.nameWords,
           beginWords := if withTrie then facts.beginWords + {PosToStr(facts.limits, s.begin)} else facts.beginWords,
           endWords := if withTrie then facts.endWords + {PosToStr(facts.limits, s.end)} else facts.endWords)
  }

  ghost function Deleted(facts: Facts, s: Symbol): Facts {
    facts.(live := facts.live - {s}, inTries := facts.inTries - {s})
  }

  /** Every symbol in the tries has left its words there. */
  ghost predicate WordsOfTries(facts: Facts) {
    forall s :: s in facts.inTries ==>
      s.name in facts.nameWords && PosToStr(facts.limits, s.begin) in facts.beginWords &&
      PosToStr(facts.limits, s.end) in facts.endWords
  }

  /** The tries were never told of a symbol, as in a compilation that asks for no tries. */
  ghost predicate TriesUnused(facts: Facts) {
    facts.inTries == {} && facts.nameWords == {} && facts.beginWords == {} && facts.endWords == {}
  }

  /**
   * What taking a symbol out asks of its caller: no trie is left on the way of a key of the symbol. It can only fail
   * where some symbols were indexed with tries and this one was not.
   */
  ghost predicate Deletable(facts: Facts, s: Symbol) {
    && Erasable(facts.nameWords, s.name)
    && Erasable(facts.beginWords, PosToStr(facts.limits, s.begin))
    && Erasable(facts.endWords, PosToStr(facts.limits, s.end))
  }

  /** Symbols in the tries can be taken out, and so can all symbols of an index that never used its tries. */
  lemma DeletableInBothModes(facts: Facts, s: Symbol)
    requires (WordsOfTries(facts) && s in facts.inTries) || TriesUnused(facts)
    ensures Deletable(facts, s)
  {
    InsertedIsErasable(facts.nameWords, s.name);
    InsertedIsErasable(facts.beginWords, PosToStr(facts.limits, s.begin));
    InsertedIsErasable(facts.endWords, PosToStr(facts.limits, s.end));
  }

  /** An index whose tries were told of all symbols so far, or of none, stays one of the two in that mode. */
  lemma ModeIsKept(facts: Facts, s: Symbol, withTrie: bool)
    ensures WordsOfTries(facts) ==> WordsOfTries(Indexed(facts, s, withTrie)) && WordsOfTries(Deleted(facts, s))
    ensures TriesUnused(facts) ==> TriesUnused(Indexed(facts, s, false)) && TriesUnused(Deleted(facts, s))
  {
    hide PosToStr;
  }

  lemma KeysIndexed(facts: Facts, s: Symbol)
    ensures NameKeys(Indexed(facts, s, true)) == NameKeys(facts)[s := s.name]
    ensures BeginKeys(Indexed(facts, s, true)) == BeginKeys(facts)[s := PosToStr(facts.limits, s.begin)]
    ensures EndKeys(Indexed(facts, s, true)) == EndKeys(facts)[s := PosToStr(facts.limits, s.end)]
    ensures s in NameKeys(facts) ==> NameKeys(facts)[s] == s.name
    ensures s in BeginKeys(facts) ==> BeginKeys(facts)[s] == PosToStr(facts.limits, s.begin)
    ensures s in EndKeys(facts) ==> EndKeys(facts)[s] == PosToStr(facts.limits, s.end)
  {
    hide PosToStr, Keyed;
    KeyedInsert(facts.inTries, NameOf(), s);
    KeyedInsert(facts.inTries, BeginOf(facts.limits), s);
    KeyedInsert(facts.inTries, EndOf(facts.limits), s);
  }

  lemma KeysUntouched(facts: Facts, s: Symbol)
    ensures NameKeys(Indexed(facts, s, false)) == NameKeys(facts)
    ensures BeginKeys(Indexed(facts, s, false)) == BeginKeys(facts)
    ensures EndKeys(Indexed(facts, s, false)) == EndKeys(facts)
  {
  }

  lemma KeysDeleted(facts: Facts, s: Symbol)
    ensures NameKeys(Deleted(facts, s)) == NameKeys(facts) - {s}
    ensures BeginKeys(Deleted(facts, s)) == BeginKeys(facts) - {s}
    ensures EndKeys(Deleted(facts, s)) == EndKeys(facts) - {s}
    ensures s in NameKeys(facts) ==> NameKeys(facts)[s] == s.name
    ensures s in BeginKeys(facts) ==> BeginKeys(facts)[s] == PosToStr(facts.limits, s.begin)
    ensures s in EndKeys(facts) ==> EndKeys(facts)[s] == PosToStr(facts.limits, s.end)
  {
    hide PosToStr, Keyed;
    KeyedDelete(facts.inTries, NameOf(), s);
    KeyedDelete(facts.inTries, BeginOf(facts.limits), s);
    KeyedDelete(facts.inTries, EndOf(facts.limits), s);
  }

  lemma LiveAreWords(t: Trie)
    requires t.Valid()
    ensures forall s :: s in t.live ==> t.live[s] in t.words
  {
  }

  class InvertedIndex {
    var nameIndexes: map<string, set<Symbol>>
    var scopeNameIndexes: map<string, set<Symbol>>
    var scopeLevelIndexes: map<nat, set<Symbol>>
    var astKindIndexes: map<string, set<Symbol>>
    const nameTrie: Trie
    const scopeNameTrie: Trie
    const astKindTrie: Trie
    const posBeginTrie: Trie
    const posEndTrie: Trie
    const kindNames: seq<string>
    const limits: PosLimits
    ghost var facts: Facts

    ghost predicate Distinct() {
      && nameTrie != scopeNameTrie && nameTrie != astKindTrie && nameTrie != posBeginTrie && nameTrie != posEndTrie
      && scopeNameTrie != astKindTrie && scopeNameTrie != posBeginTrie && scopeNameTrie != posEndTrie
      && astKindTrie != posBeginTrie && astKindTrie != posEndTrie && posBeginTrie != posEndTrie
    }

    ghost function Tries(): set<Trie> {
      {nameTrie, scopeNameTrie, astKindTrie, posBeginTrie, posEndTrie}
    }

    ghost predicate BucketsValid(live: set<Symbol>)
      reads this
    {
      && SortsBy(nameIndexes, live, NameOf())
      && SortsBy(scopeNameIndexes, live, ScopeOf())
      && SortsBy(scopeLevelIndexes, live, LevelOf())
      && SortsBy(astKindIndexes, live, KindOf(kindNames))
    }

    ghost predicate TriesValid(facts: Facts)
      reads Tries()
    {
      && nameTrie.Valid() && nameTrie.Linked()
      && nameTrie.live == NameKeys(facts) && nameTrie.words == facts.nameWords
      && scopeNameTrie.Valid() && scopeNameTrie.words == facts.scopeWords
      && astKindTrie.Valid() && astKindTrie.words == (set k | k in kindNames)
      && posBeginTrie.Valid() && posBeginTrie.Linked()
      && posBeginTrie.live == BeginKeys(facts) && posBeginTrie.words == facts.beginWords
      && Uniform(facts.beginWords, limits)
      && posEndTrie.Valid() && posEndTrie.Linked()
      && posEndTrie.live == EndKeys(facts) && posEndTrie.words == facts.endWords
      && Uniform(facts.endWords, limits)
    }

    ghost predicate Valid()
      reads this, Tries()
    {
      && Distinct() && limits.Sane() && facts.limits == limits && facts.kindNames == kindNames
      && facts.inTries <= facts.live
      && (forall s :: s in facts.live ==> Fits(facts, s))
      && BucketsValid(facts.live) && TriesValid(facts)
    }

    /** An empty index; the kind trie knows all kinds, the scope trie the top level. */
    constructor (kindNames: seq<string>, limits: PosLimits)
      requires limits.Sane()
      ensures Valid()
      ensures fresh(nameTrie) && fresh(scopeNameTrie) && fresh(astKindTrie) && fresh(posBeginTrie) && fresh(posEndTrie)
      ensures this.kindNames == kindNames && this.limits == limits
      ensures facts == Facts({}, {}, {}, {TOPLEVEL_SCOPE_NAME}, {}, {}, kindNames, limits)
    {
      hide Trie.Valid, Trie.Linked, SortsBy;
      nameIndexes, scopeNameIndexes, scopeLevelIndexes, astKindIndexes := map[], map[], map[], map[];
      this.kindNames, this.limits := kindNames, limits;
      facts := Facts({}, {}, {}, {TOPLEVEL_SCOPE_NAME}, {}, {}, kindNames, limits);
      nameTrie := new Trie();
      var scopes := TrieOf([TOPLEVEL_SCOPE_NAME]);
      scopeNameTrie := scopes;
      var kinds := TrieOf(kindNames);
      astKindTrie := kinds;
      posBeginTrie := new Trie();
      posEndTrie := new Trie();
      NothingToSort(NameOf());
      NothingToSort(ScopeOf());
      NothingToSort(LevelOf());
      NothingToSort(KindOf(kindNames));
    }

    /** Registers the name of a scope for prefix lookups. */
    method EnterScope(scopeName: string)
      requires Valid()
      modifies this`facts, scopeNameTrie
      ensures Valid()
      ensures facts == old(facts).(scopeWords := old(facts).scopeWords + {scopeName})
    {
      hide Trie.Valid, Trie.Linked, SortsBy;
      scopeNameTrie.Insert(scopeName, NoSymbol);
      facts := facts.(scopeWords := facts.scopeWords + {scopeName});
    }

    /** Indexes a symbol; the tries learn of it only when asked to. A symbol indexed before stays as it is. */
    method Index(symbol: Symbol?, withTrie: bool)
      requires Valid()
      requires symbol != null ==> Fits(facts, symbol)
      modifies this, Tries()
      ensures Valid()
      ensures facts == if symbol == null then old(facts) else Indexed(old(facts), symbol, withTrie)
      ensures symbol != null ==>
        && facts.live == old(facts).live + {symbol}
        && facts.inTries == old(facts).inTries + (if withTrie then {symbol} else {})
        && facts.nameWords == old(facts).nameWords + (if withTrie then {symbol.name} else {})
        && facts.beginWords == old(facts).beginWords + (if withTrie then {PosToStr(limits, symbol.begin)} else {})
        && facts.endWords == old(facts).endWords + (if withTrie then {PosToStr(limits, symbol.end)} else {})
        && facts.scopeWords == old(facts).scopeWords
    {
      hide InvertedIndex.TriesValid, SortsBy, PosToStr;
      if symbol == null {
        return;
      }
      IndexBuckets(symbol);
      if withTrie {
        IndexInTries(symbol);
      } else {
        TriesUntouched(facts, symbol);
      }
      facts := Indexed(facts, symbol, withTrie);
    }

    lemma TriesUntouched(facts: Facts, symbol: Symbol)
      requires TriesValid(facts)
      ensures TriesValid(Indexed(facts, symbol, false))
    {
      hide Trie.Valid, Trie.Linked, NameKeys, BeginKeys, EndKeys;
      KeysUntouched(facts, symbol);
    }

    method IndexInTries(symbol: Symbol)
      requires Distinct() && limits.Sane() && facts.limits == limits && Fits(facts, symbol) && TriesValid(facts)
      modifies nameTrie, posBeginTrie, posEndTrie
      ensures TriesValid(Indexed(facts, symbol, true))
    {
      hide Trie.Valid, Trie.Linked, PosToStr, NameKeys, BeginKeys, EndKeys;
      KeysIndexed(facts, symbol);
      PosToStrParts(limits, symbol.begin);
      PosToStrParts(limits, symbol.end);
      nameTrie.Insert(symbol.name, JustSymbol(symbol));
      posBeginTrie.Insert(PosToStr(limits, symbol.begin), JustSymbol(symbol));
      posEndTrie.Insert(PosToStr(limits, symbol.end), JustSymbol(symbol));
    }

    method IndexBuckets(symbol: Symbol)
      requires BucketsValid(facts.live) && symbol.astKind < |kindNames|
      modifies this`nameIndexes, this`scopeNameIndexes, this`scopeLevelIndexes, this`astKindIndexes
      ensures BucketsValid(facts.live + {symbol})
    {
      hide SortsBy, ScopeNameWithoutTail;
      ghost var live := facts.live;
      BucketInsert(nameIndexes, live, NameOf(), symbol);
      BucketInsert(scopeNameIndexes, live, ScopeOf(), symbol);
      BucketInsert(scopeLevelIndexes, live, LevelOf(), symbol);
      BucketInsert(astKindIndexes, live, KindOf(kindNames), symbol);
      var scopeName := ScopeNameWithoutTail(symbol.scopeName);
      nameIndexes := nameIndexes[symbol.name := Bucket(nameIndexes, symbol.name) + {symbol}];
      scopeNameIndexes := scopeNameIndexes[scopeName := Bucket(scopeNameIndexes, scopeName) + {symbol}];
      scopeLevelIndexes :=
        scopeLevelIndexes[symbol.scopeLevel := Bucket(scopeLevelIndexes, symbol.scopeLevel) + {symbol}];
      var kind := kindNames[symbol.astKind];
      astKindIndexes := astKindIndexes[kind := Bucket(astKindIndexes, kind) + {symbol}];
    }

    method DeleteFromTries(symbol: Symbol)
      requires Distinct() && facts.limits == limits && Deletable(facts, symbol) && TriesValid(facts)
      modifies nameTrie, posBeginTrie, posEndTrie
      ensures TriesValid(Deleted(facts, symbol))
    {
      hide Trie.Valid, Trie.Linked, PosToStr, NameKeys, BeginKeys, EndKeys, Erasable;
      KeysDeleted(facts, symbol);
      nameTrie.Delete(symbol.name, symbol);
      posBeginTrie.Delete(PosToStr(limits, symbol.begin), symbol);
      posEndTrie.Delete(PosToStr(limits, symbol.end), symbol);
    }

    method DeleteFromBuckets(symbol: Symbol)
      requires BucketsValid(facts.live) && symbol.astKind < |kindNames|
      modifies this`nameIndexes, this`scopeNameIndexes, this`scopeLevelIndexes, this`astKindIndexes
      ensures BucketsValid(facts.live - {symbol})
    {
      hide SortsBy, ScopeNameWithoutTail;
      ghost var live := facts.live;
      BucketErase(nameIndexes, live, NameOf(), symbol);
      BucketErase(scopeNameIndexes, live, ScopeOf(), symbol);
      BucketErase(scopeLevelIndexes, live, LevelOf(), symbol);
      BucketErase(astKindIndexes, live, KindOf(kindNames), symbol);
      var scopeName := ScopeNameWithoutTail(symbol.scopeName);
      nameIndexes := nameIndexes[symbol.name := Bucket(nameIndexes, symbol.name) - {symbol}];
      scopeNameIndexes := scopeNameIndexes[scopeName := Bucket(scopeNameIndexes, scopeName) - {symbol}];
      scopeLevelIndexes :=
        scopeLevelIndexes[symbol.scopeLevel := Bucket(scopeLevelIndexes, symbol.scopeLevel) - {symbol}];
      var kind := kindNames[symbol.astKind];
      astKindIndexes := astKindIndexes[kind := Bucket(astKindIndexes, kind) - {symbol}];
    }

    /**
     * Takes a symbol out of the index and marks it. The mark is for good: a marked symbol that is indexed again can
     * no longer be taken out.
     */
    method Delete(symbol: Symbol?)
      requires Valid()
      requires symbol != null && !symbol.invertedIndexBeenDeleted ==>
        symbol.astKind < |kindNames| && Deletable(facts, symbol)
      modifies this, Tries(), if symbol == null then {} else {symbol}
      ensures Valid()
      ensures facts == if symbol == null || old(symbol.invertedIndexBeenDeleted) then old(facts)
                       else Deleted(old(facts), symbol)
      ensures symbol != null && !old(symbol.invertedIndexBeenDeleted) ==>
        facts == old(facts).(live := old(facts).live - {symbol}, inTries := old(facts).inTries - {symbol})
      ensures symbol != null ==> symbol.invertedIndexBeenDeleted
    {
      hide Trie.Valid, Trie.Linked, SortsBy, PosToStr, NameKeys, BeginKeys, EndKeys, Deletable;
      if symbol == null {
        return;
      }
      if symbol.invertedIndexBeenDeleted {
        return;
      }
      DeleteFromBuckets(symbol);
      DeleteFromTries(symbol);
      symbol.invertedIndexBeenDeleted := true;
      facts := Deleted(facts, symbol);
    }

    /** Being in the tries leaves words there. */
    lemma TriesKnowTheirWords()
      requires Valid()
      ensures WordsOfTries(facts)
    {
      hide PosToStr, Trie.Valid, Trie.Linked, InvertedIndex.BucketsValid, InvertedIndex.Distinct;
      LiveAreWords(nameTrie);
      LiveAreWords(posBeginTrie);
      LiveAreWords(posEndTrie);
      forall s | s in facts.inTries
        ensures s.name in facts.nameWords && PosToStr(limits, s.begin) in facts.beginWords &&
                PosToStr(limits, s.end) in facts.endWords
      {
        assert nameTrie.live[s] == s.name;
        assert posBeginTrie.live[s] == PosToStr(limits, s.begin);
        assert posEndTrie.live[s] == PosToStr(limits, s.end);
      }
    }
  }
}
