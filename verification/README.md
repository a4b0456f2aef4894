# A verified model of the Cangjie compiler's algorithmic cores

This project models, in Dafny, the parts of the Cangjie compiler that are algorithms over strings, maps and graphs, and
proves what they are for. One module stands for one component.

- **Symbol index and query engine** (`Symbols`, `Decimals`, `Tries`, `PosSearch`, `InvertedIndexes`, `Queries`,
  `QueryParsers`, `SearchSpecs`, `Orders`, `Searchers`, `SearchCaches`). Tries over names and zero-filled positions,
  inverted indexes that own them, a query language with its parser and printer, and a result cache keyed by the printed
  query. The tries are proved against the words and live symbols they stand for, so every lookup is a plain filter; a
  search shows what the query denotes, and in every run the cache cannot be noticed as long as index changes clear it.
- **Graph algorithms** (`Walkers`, `Clones`, `SuperDecls`). The stamped depth-first walk with callbacks, the deep clone
  with its redirection of cross references, and the breadth-first collection of super-declarations.
- **Demangler and decompressor** (`MangledTexts`, `MangledReadings`, `NestedNames`, `MangledTypes`, `MangledDecls`,
  `Displays`, `Demanglers`, `Decompressions`). The recursive-descent parser with one cursor and one validity flag is proved to find,
  for every input, what the name reads as: a function of the name and a place in it. What is shown of nested names is
  given in closed form for every input. What is written for a type reads back as just that, and what is written for a
  declaration if and only if neither text of a generated name occurs in it; what is shown of both is said by their parts
  alone. The expansion of back references in place is
  proved against the tokens of the unread text.
- **Arithmetic and codecs** (`Arithmetic`, `IntLiterals`, `Utf8`, `Escapes`). Overflow-detecting power, literal ranges,
  UTF-8 with up to six bytes, escape printing and reading.
- **Source text and diagnostics** (`SourceText`, `Diagnostics`). Two line scanners, positions and offsets, and the
  transaction protocol of the diagnostic engine as a state machine over all interleavings of threads.

Where the original updates objects or runs loops, the model has classes and methods with loops, proved against functions
that say what is computed; the properties are lemmas about those functions. Words of 8, 32 and 64 bits wrap around where
the original's do. `Wrappers` holds the option type that several modules use.

The compiler indexes symbols without tries by default (`src/FrontendTool/DefaultCompilerInstance.cpp:65`), and with tries
for editors. The index is modelled for any mixture; what holds in which mode is said by `InvertedIndexes.ModeIsKept`,
`InvertedIndexes.DeletableInBothModes`, `SearchSpecs.QueryIsAFilter` and `SearchSpecs.QueryIsAFilterWithoutTries`.

## Where the code does less than its documentation or its promise

- `include/cangjie/AST/Node.h:1136` says that `GetAllSuperDecls` puts sub-types before super-types. It does not always:
  `SuperDecls.SupertypeFirst` shows a graph, and `SuperDecls.SubtypesPrecedeIffOrderly` says exactly for which graphs it
  does. It is enough that each step of inheritance leads farther away (`SuperDecls.LeadingAwayIsOrderly`), and a cycle
  that can be reached always breaks it (`SuperDecls.CyclesAreNotOrderly`).
- Range lookups by position compare only within one leading digit of the line: lines 9999 and 10000 of a file do not find
  each other (`PosSearch.ReachStopsAtTheLeadingDigit`; exactly what is found: `PosSearch.RangeMeans`).
- Without tries, queries for positions, name prefixes and non-empty name suffixes find nothing, without complaint
  (`SearchSpecs.QueryIsAFilterWithoutTries`).
- Deleting the symbol of one node leaves the cache as it is, and a later search may show the deleted symbol
  (`SearchCaches.StaleAfterSilentDeletion`, exactly when: `SearchCaches.SilentDeletionIsNoticedIff`). The same holds for a
  symbol that joins (`SearchCaches.SilentArrivalIsNoticedIff`).
- When one symbol is put in the place of another, entries whose text mentions the top level are kept, which are more than
  the answers about the top level (`SearchCaches.KeptEntryGoesStale`). Which kept answers are still right is said by
  `SearchCaches.SilentReplacementIsNoticedIff`, and which later searches are, by `SearchCaches.CacheIsTransparent`.
- The orders of the searcher can sort symbols of common or specific files together with others if and only if paths and
  file numbers agree on them (`Orders.SortableIff`). Else they can run in a circle: `Orders.MixedFamiliesCycle` has three
  such symbols, two of common or specific files whose numbers and paths disagree, and one whose number lies between.
- The query parser rejects a bracket around just another bracket and leaves tokens behind a complete clause unread without
  complaint (`QueryParsers.ParseClause`, `QueryParsers.TrailingTokensIgnored`).
- Printed queries for the empty prefix and the empty suffix are the same. With plain values that is the only collision of
  cache keys (`Queries.KeysCollideIff`). Values that hold operator signs collide too (`Queries.OperatorInValueCollides`).
- The loop that counts scope levels for `<` and `<=` does not end where its bound exceeds the 32-bit counter, and only
  there (`Searchers.CountingEndsIff`).
- Nested names are collected in groups of sixteen, and the groups are shown with nothing between them
  (`NestedNames.NestedNamesAreShownInGroups`). A named part that follows a full group costs the delimiter between them. A
  lambda, an extension, or a name that ends the text is stored over the first place of a full group, and costs all sixteen
  names of it. So names are shown whole if and only if they fit one group, or the delimiter is empty and each group lost
  in this way only holds empty names (`NestedNames.NestedNamesAreJoinedIff`); where each name shows
  something, no such part may stand first behind a full group at all (`NestedNames.LosesNothingIff`).
  `MangledDecls.DelimiterIsLost`, `NamesAreLostToTheEnd`, `NamesAreLostToALambda` and `NamesAreLostToAnExtension` each
  have a text for one kind of loss; the last three hold for the empty delimiter too. Argument lists, which are collected in the same way, lose nothing
  (`MangledReadings.CollectedIsJoined`).
- A declaration is taken for a lambda of a function, or for a wrapper of a C function, wherever `$lambda.` or `$real`
  occurs in its name, although `$` also stands between the names of modules and packages and behind the names of files.
  Exactly then a declaration of which something is shown is not read back (`MangledDecls.DeclIsRead`; what it is read as:
  `MangledDecls.GeneratedOrDeclaration`). The function `foo` of the package `a/realm` is such a declaration
  (`MangledDecls.RealmIsTakenForAWrapper`), and so is that of a package `a/lambda.b`
  (`MangledDecls.LambdaPackageIsTakenForALambda`).
- Behind the nested names of a declaration only an end mark or the end can stand, so the parser never reads the arguments
  and default functions that it looks for there (`Displays.NoArgumentsBehindNames`).
- The sign of an integer literal is never set back, so a literal that is read again after a negative text is checked
  against the wrong bound (`IntLiterals.ReusedLiteralKeepsItsSign`).
- The UTF-8 encoder turns to five bytes above the last Unicode code point, where the table of RFC 2279, section 2, still
  has four (`Utf8.EncodesAsRfc2279`). The decoder reads what the first byte announces and leaves the text, with the null
  character behind it, if and only if more than one byte is missing (`Utf8.StaysInTextIff`).
- A position with a column below 1 lies at the start of the text, so text up to it is all the rest of the text
  (`SourceText.OffsetsFollowPositions`, `SourceText.ColumnZeroTakesTheRest`). Texts up to a position and from it on then
  need not join (`SourceText.TextsJoin`, exactly when they do).
- A symbol's deletion mark is never cleared, so a symbol that is indexed again cannot be deleted again
  (`InvertedIndexes.InvertedIndex.Delete`).

## Model

| member | source | states |
|---|---|---|
| Decimals.PaddedOrder | src/AST/Searcher.cpp:180-186 | numbers written with as many zero-filled digits compare as strings the way they compare as numbers |
| Decimals.PaddedInjective | src/AST/Searcher.cpp:180-186 | zero-filled numerals of one width are equal only for equal numbers |
| Tries.Trie.Insert | src/AST/Searcher.cpp:53-95 | afterwards the trie stands for the old words and the new one, and a symbol is found under its key; nothing else changes |
| Tries.Trie.Delete | src/AST/Searcher.cpp:97-108 | afterwards the trie stands for the same words without the symbol, although no node or value is removed |
| Tries.Trie.PrefixMatch | src/AST/Searcher.cpp:123-140 | exactly the non-empty words that start with the prefix, each once |
| Tries.Trie.SuffixMatch | src/AST/Searcher.cpp:142-158 | exactly the words that have the text as a proper suffix, each once; the whole word does not count |
| Tries.InsertingStep | src/AST/Searcher.cpp:73-95 | one character of an insertion keeps the store a tree whose nodes record exactly the inserted words and keys seen so far |
| Tries.DeletingStep | src/AST/Searcher.cpp:97-108 | one character of a deletion takes the symbol out of exactly one more node on its key's way |
| Tries.WalkableIffErasable | src/AST/Searcher.cpp:97-108 | a deletion never meets a missing child if and only if, as long as any inserted word goes on along its key, some word goes on along the key's next character |
| Tries.InsertedIsErasable | src/AST/Searcher.cpp:97-108 | that is so for inserted keys, and for every key where nothing was inserted |
| Tries.CollectMore | src/AST/Searcher.cpp:123-140 | the words below one more child are added without duplicates |
| Tries.GatherMore | src/AST/Searcher.cpp:142-158 | the words with the suffix below one more child are added without duplicates |
| PosSearch.UpdatedLimitsFit | src/AST/Searcher.cpp:164-178 | after the widths were raised for a position, that position and all that fitted before fit |
| PosSearch.KeyOrder | src/AST/Searcher.cpp:180-186 | keys of positions of one file compare as strings exactly as the positions compare by line and column |
| PosSearch.FindCommonRootInPosTrie | src/AST/Searcher.cpp:202-213 | the node on the way of a key behind which the trie has no further node of the key |
| PosSearch.GetIDsGreaterThanPos | src/AST/Searcher.cpp:215-238 | exactly the live symbols whose key agrees with the query's on the first digits, up to the leading line digit, and lies above it, or on it when closed; for positions of any size |
| PosSearch.GetIDsLessThanPos | src/AST/Searcher.cpp:257-272 | the same for keys below |
| PosSearch.GetIDsLessThanPosOfDepth | src/AST/Searcher.cpp:240-255 | one level of the climb adds exactly the symbols that branch off below the key there |
| PosSearch.GetIDsWithinPosXByRange | src/AST/Searcher.cpp:274-284 | exactly the symbols that both range lookups find |
| PosSearch.LevelAbove | src/AST/Searcher.cpp:215-238 | the symbols above the key that share a prefix are those that branch off there and those that share more |
| PosSearch.NoneBeyond | src/AST/Searcher.cpp:202-213 | no live symbol shares more of the key than the trie's deepest node on its way |
| PosSearch.ShareMeans | src/AST/Searcher.cpp:202-213 | keys agree on their first digits exactly when file and leading line digit agree |
| PosSearch.RangeMeans | src/AST/Searcher.cpp:215-284 | what range lookups find in terms of file, line and column, in both directions, for positions that fit the widths |
| PosSearch.ReachBelowTheLeadingDigit | src/AST/Searcher.cpp:202-238 | for lines that leave the leading digit free the lookup is a plain comparison within the file |
| PosSearch.ReachStopsAtTheLeadingDigit | src/AST/Searcher.cpp:202-238 | lines 9999 and 10000 of one file are out of each other's reach |
| InvertedIndexes.InvertedIndex.constructor | src/AST/ASTContext.cpp:237-252 | an empty index: only the kinds of nodes and the top-level scope are words |
| InvertedIndexes.InvertedIndex.EnterScope | src/Sema/ScopeManager.cpp:105 | a scope's name becomes a word for prefix lookups |
| InvertedIndexes.InvertedIndex.Index | src/AST/ASTContext.cpp:254-272 | the symbol becomes live in all indexes, and when asked for it joins the tries and its name and position keys become words; nothing else changes |
| InvertedIndexes.InvertedIndex.Delete | src/AST/ASTContext.cpp:274-294 | the symbol is live nowhere and in no trie, and marked; words stay, and a marked symbol or null changes nothing |
| InvertedIndexes.DeletableInBothModes | src/AST/ASTContext.cpp:274-294 | deleting a symbol never leaves a trie, where the symbol was indexed with tries or the tries were never used |
| InvertedIndexes.ModeIsKept | src/Sema/Collector.cpp:45-59 | an index that never used its tries stays so as long as symbols are indexed without them, and one whose tries know their symbols' words stays so always |
| InvertedIndexes.InvertedIndex.TriesKnowTheirWords | src/AST/ASTContext.cpp:254-272 | the names and position keys of all symbols in the tries are words of the tries |
| InvertedIndexes.BucketInsert | src/AST/ASTContext.cpp:259-265 | a bucket index stays the grouping of the live symbols by their key when one is added |
| InvertedIndexes.BucketErase | src/AST/ASTContext.cpp:283-289 | and when one is taken out |
| InvertedIndexes.TailIsCut | include/cangjie/AST/ScopeManagerApi.h:35-45 | the scope by which a symbol is found is its scope name up to the last underscore, or all of a name without one |
| Queries.PrettyPrint | src/AST/Query.cpp:255-276 | appends the printed form of a query tree |
| Queries.PrintedAs | src/AST/Query.cpp:255-276 | operands stand around their operator in brackets, a star behind a value marks a prefix and one before it a suffix |
| Queries.PositionPrintedAs | src/AST/Query.cpp:263-266 | a position is printed with file, line and column in brackets of its own |
| Queries.SamePrinted | src/AST/Query.cpp:255-276 | two well-formed queries whose printed forms, followed by anything that can follow, agree are the same query |
| Queries.CacheKeysDoNotCollide | src/AST/Searcher.cpp:37-50 | two searches with well-formed queries share a cache key only if query and order are the same |
| Queries.KeysCollideIff | src/AST/Searcher.cpp:37-50 | for plain keys and values, empty ones included, two searches share a cache key if and only if the orders are the same and the queries differ at most in calling an empty suffix an empty prefix |
| Queries.OperatorInValueCollides | src/AST/Query.cpp:255-276 | a value with an operator, the key and the sign in it can be read as two terms: moving it across the operator gives another query that prints alike |
| QueryParsers.QueryParser.Parse | src/AST/Query.cpp:41-44 | the parser reads what the grammar function reads |
| QueryParsers.QueryParser.ParseBooleanClause | src/AST/Query.cpp:46-101 | the loop over operators builds the left fold that the grammar function describes, and consumes the same tokens |
| QueryParsers.QueryParser.ParseParenClause | src/AST/Query.cpp:103-114 | a bracketed clause is read and the flag is down afterwards |
| QueryParsers.ClauseParses | src/AST/Query.cpp:46-114 | a written clause followed by anything that is no operator parses to its left fold exactly when it has no double brackets and what follows is allowed |
| QueryParsers.ParseClause | src/AST/Query.cpp:46-114 | a written clause on its own parses to its meaning if and only if no bracket encloses just another bracket |
| QueryParsers.TrailingTokensIgnored | src/AST/Query.cpp:46-101 | behind a clause with an operator other tokens stay unread without complaint |
| QueryParsers.TrailingTokensRejected | src/AST/Query.cpp:46-101 | behind a single operand other tokens are an error |
| QueryParsers.PrintedFormParsesBack | src/AST/Query.cpp:46-114 | every query tree, written with all its brackets, parses back to itself |
| QueryParsers.ChainParsesToLeftFold | src/AST/Query.cpp:46-101 | an unbracketed chain parses to the left fold, without precedence |
| Orders.SortableIff | src/AST/Searcher.cpp:287-322 | both orders are strict weak orders on a set of symbols if and only if paths and file numbers agree on it: where a symbol of another file separates two of common or specific files, or is level with both, their paths say the same |
| Orders.UsuallySortable | src/AST/Searcher.cpp:287-322 | they are for symbols of one family of files, and for all where common and specific files are numbered in the order of their paths |
| Orders.MixedFamiliesCycle | src/AST/Searcher.cpp:287-318 | else three symbols can come each before the next in a circle: two of common or specific files whose numbers and paths disagree, and one of another file with a number between |
| Orders.Sort | src/AST/Searcher.cpp:345-358 | lists every symbol of a set that can be sorted once; of two in the list the earlier one has the smaller path among common and specific files or else the smaller file number, then the smaller begin, then the greater end, then the smaller kind, or all the other way round |
| Orders.AnswersAre | src/AST/Searcher.cpp:287-322 | a list is an answer if and only if it has each symbol once and any two stand in that order, said with their fields |
| SearchSpecs.QueryIsAFilter | src/AST/Searcher.cpp:537-704 | on a program indexed with tries a query that never guesses is a plain filter over the live symbols |
| SearchSpecs.QueryIsAFilterWithoutTries | src/AST/Searcher.cpp:537-704 | on a program indexed without tries every query is a plain filter too: of the query with nothing in place of positions, name prefixes and non-empty name suffixes |
| SearchSpecs.SymbolBySymbol | src/AST/Searcher.cpp:537-704 | in any mixture of symbols with and without tries, a query that never guesses finds a live symbol by looking at that symbol alone |
| SearchSpecs.PosFindsMatches | src/AST/Searcher.cpp:479-578 | a position query finds a symbol in the tries exactly when file, leading line digit, line and column of its range say so |
| SearchSpecs.PosIdsFound | src/AST/Searcher.cpp:479-578 | joining and intersecting the two range lookups finds a symbol exactly when it is in the tries and its keys compare as the sign asks |
| SearchSpecs.NumbersAreRead | src/AST/Searcher.cpp:596-620 | a decimal number in a query is read as itself, with a blank or a sign before it too, and clamped or wrapped around where it does not fit |
| SearchSpecs.FirstByAddressIsSubset | src/AST/Searcher.cpp:494-508 | the guess takes as many symbols of lowest address as it counts levels, and no others |
| SearchSpecs.DenotedAreLive | src/AST/Searcher.cpp:537-558 | a query never finds a symbol that is not live |
| Searchers.GetIDsByName | src/AST/Searcher.cpp:391-399 | exactly the live symbols of that name |
| Searchers.GetIDsByNamePrefix | src/AST/Searcher.cpp:401-409 | exactly the live symbols whose non-empty, registered name has the prefix |
| Searchers.GetIDsByNameSuffix | src/AST/Searcher.cpp:411-426 | exactly the live symbols whose registered name has the text as a proper suffix; all of them for the empty text |
| Searchers.GetIDsByScopeName | src/AST/Searcher.cpp:428-436 | exactly the live symbols of that scope |
| Searchers.GetIDsByScopeNamePrefix | src/AST/Searcher.cpp:622-639 | exactly the live symbols whose registered scope has the prefix |
| Searchers.GetIDsByASTKind | src/AST/Searcher.cpp:464-472 | exactly the live symbols of that kind |
| Searchers.GetIDsByASTKindSuffix | src/AST/Searcher.cpp:641-656 | exactly the live symbols whose kind has the text as a proper suffix |
| Searchers.GetIDsByScopeLevel | src/AST/Searcher.cpp:596-620 | exactly the live symbols whose level compares as asked with the number as it is read, wherever the loop ends |
| Searchers.CountingEndsIff | src/AST/Searcher.cpp:607-617 | counting levels with a 32-bit counter below a bound ends if and only if the bound fits the counter |
| Searchers.GetIDsByPosEQ | src/AST/Searcher.cpp:479-509 | the symbols around a position, or the guess where none ends behind it |
| Searchers.GetIDsByPos | src/AST/Searcher.cpp:560-578 | the symbols before, around or behind a position, by the sign |
| Searchers.PerformSearch | src/AST/Searcher.cpp:537-558 | the set of symbols that the query tree denotes |
| SearchCaches.Searcher.Search | src/AST/Searcher.cpp:360-374 | shows the denoted symbols, each once, ascending or descending by file, begin, end and kind; a cache in agreement with the index stays so for queries that print without ambiguity |
| SearchCaches.Searcher.InvalidateCacheBut | src/AST/Searcher.cpp:438-447 | exactly the entries whose key contains the text stay |
| SearchCaches.LookupKeepsCoherence | src/AST/Searcher.cpp:324-374 | looking up or entering an answer keeps every cached answer right |
| SearchCaches.CacheIsTransparent | src/AST/Searcher.cpp:360-374 | in every run of index changes that clear the cache, changes below the top level that keep what mentions it, invalidations and searches, each search shows what the index denotes at that moment; after a change that kept entries, if the search does not mention the top level or is about it |
| SearchCaches.StaleAfterSilentDeletion | src/AST/ASTContext.cpp:52-57 | after a deletion that leaves the cache alone a search shows the deleted symbol |
| SearchCaches.SilentDeletionIsNoticedIff | src/AST/ASTContext.cpp:52-57 | a cached answer stays right through such a deletion if and only if it does not list the symbol, in either mode of the index |
| SearchCaches.SilentArrivalIsNoticedIff | src/Sema/Collector.cpp:45-59 | a cached answer stays right through the arrival of a symbol if and only if its query does not find the symbol, nor more of the symbols without tries whose name becomes known with it |
| SearchCaches.SilentReplacementIsNoticedIff | src/Sema/TypeCheckPattern.cpp:75-79 | a kept answer stays right when one symbol takes the place of another if and only if it does not list the old one and its query finds neither the new one nor more of those whose name becomes known with it |
| SearchCaches.DeletionTakesOne | src/AST/ASTContext.cpp:274-294 | a deletion takes exactly the deleted symbol out of what a query finds |
| SearchCaches.JoiningAddsOne | src/AST/ASTContext.cpp:254-272 | a new symbol adds at most itself to what a query finds, and adds itself exactly when the query finds it |
| SearchCaches.TopLevelAnswersSurvive | src/AST/Searcher.cpp:438-447 | answers about the top level stay right when the index changes below it only, in either mode |
| SearchCaches.ReplacementKeepsTopLevel | src/Sema/TypeCheckPattern.cpp:99-102 | putting a symbol below the top level in the place of another there leaves the top level as it was |
| SearchCaches.KeptStaysCoherent | src/AST/Searcher.cpp:438-447 | what is kept for mentioning the top level answers, after a change below it, every query that the change cannot spoil |
| SearchCaches.KeptEntryGoesStale | src/AST/Searcher.cpp:438-447 | an entry that is kept for its text can change with a symbol below the top level |
| SearchCaches.ASTContext.AddSymbol | src/Sema/Collector.cpp:45-59 | a symbol joins table and index; the cache stays |
| SearchCaches.ASTContext.DeleteCurrentInvertedIndexes | src/AST/ASTContext.cpp:52-57 | one symbol leaves the index; the cache stays |
| SearchCaches.ASTContext.DeleteInvertedIndexes | src/AST/ASTContext.cpp:37-50 | the symbols of a tree leave the index, and cache and index agree again |
| SearchCaches.ASTContext.ReplaceSymbol | src/Sema/TypeCheckPattern.cpp:75-79 | one symbol takes the place of another in the index, exactly the entries that mention the top level stay, and they agree with the index as far as the change below the top level allows |
| Walkers.NthWalkerIDIs | src/AST/Walker.cpp:27-34 | walker numbers count up and skip 0 when the counter wraps around |
| Walkers.WalkerIDsAreFresh | src/AST/Walker.cpp:27-34 | a walker number is never 0, and two are equal exactly when a whole round of the counter lies between |
| Walkers.Walker.Walk | src/AST/Walker.cpp:41-66 | the nodes it stamps, its callbacks and its answer are those of the walk as a function of the graph, the stamps and the callbacks; the two callbacks for a node enclose all others, each non-modifier is called back at most once, well nested, and nothing is called after a stop |
| Walkers.WalkIsWalked | src/AST/Walker.cpp:41-66 | what every walk, from any node and with any stamps, stamps, calls back and answers, said with reachability, nesting and the first stop |
| Walkers.ChildWalked | src/AST/Walker.cpp:57-66 | one more child walked without a stop keeps what is stamped, reachable and called back in step |
| Walkers.ChildStopped | src/AST/Walker.cpp:1196-1203 | a stop in a child ends the walk of the node and of everything above with no further callback |
| Walkers.NodeDone | src/AST/Walker.cpp:1203-1217 | the callback behind the children ends the walk of a node |
| Walkers.UnstoppedWalkStampsReachable | src/AST/Walker.cpp:41-66 | a walk that nobody stops newly stamps exactly the nodes reachable on paths of nodes that it was told to enter and that were not stamped |
| Walkers.EarlierChildrenComeFirst | src/AST/Walker.cpp:57-66 | between the callbacks for a node come first all those for what can be reached from its first children, for any number of them, and then none of these but for modifiers |
| Walkers.OpenedAreStamped | src/AST/Walker.cpp:44-52 | a walk stamps exactly the nodes that it opens |
| Walkers.WalksAreMadeOfWalks | src/AST/Walker.cpp:41-66 | wherever a walk opens a node it goes on as the walk from that node does with the nodes stamped that are opened by then |
| Walkers.StopsCutTheWalk | src/AST/Walker.cpp:53-66 | a stop cuts the walk off: its callbacks are a beginning of those of the same walk without stops, and all of them if nothing stops |
| Clones.ASTCloner.CollectMap | src/AST/Clone.cpp:1555-1688 | records exactly the remapped node and its recorded, non-null slots |
| Clones.ASTCloner.CollectKindSlots | src/AST/Clone.cpp:1594-1686 | enters the slots of its kind into the table, and no others, with the guards for accesses and calls on anything but `this` |
| Clones.ASTCloner.CloneNode | src/AST/Clone.cpp:1517-1551 | copies exactly the owned tree into new nodes and keeps all books in step |
| Clones.ASTCloner.CloneArgs | src/AST/Clone.cpp:714-736 | arguments and defaults are copied place by place, and desugared arguments name the copies |
| Clones.ASTCloner.Adopt | src/AST/Clone.cpp:714-744 | a finished copy is bound into the subnode that knows its parent, and entered into the books |
| Clones.ASTCloner.Rearrange | src/AST/Clone.cpp:1690-1695 | every recorded slot whose target was copied as a declaration, expression, body or pattern points at the copy; all others keep what copying wrote |
| Clones.ASTCloner.CloneWithRearrange | src/AST/Clone.cpp:1553-1697 | the copies are new and mirror the owned tree; each slot of each copy holds the copy of its target where it follows a copied declaration, expression, body or pattern, and else what copying or binding wrote |
| Clones.RedirectedStep | src/AST/Clone.cpp:1690-1695 | one redirected address leaves all other slots as they were, so the order of the pass does not matter |
| Clones.ReferencesAreIsomorphic | src/AST/Clone.cpp:1690-1695 | a slot of a copy holds the copy of a node if and only if the original's slot is redirected and holds that node, or that copy bound itself there |
| Clones.CopiesOwnCopies | src/AST/Clone.cpp:714-744 | on a finished clone, the copies are new nodes of the same kinds, one for each, and own the copies of what the originals own, place by place |
| Clones.SlotsOfCopies | src/AST/Clone.cpp:1553-1697 | on a finished clone, every slot of every copy, slot by slot: it holds the copy of the target, the copy that entered itself, nothing, or the old target |
| Clones.FollowersAreRedirected | src/AST/Clone.cpp:1555-1695 | the slots that are redirected, slot by slot: which kinds of node have them, with the guards for `this`, and which kinds of target count |
| Clones.OthersKeepTheirTargets | src/AST/Clone.cpp:1690-1695 | a slot that is not redirected keeps its target |
| Clones.AccessesOnOthersAreNotRedirected | src/AST/Clone.cpp:1614-1645 | copies of accesses and calls on anything but `this` still name the original members, even copied ones |
| Clones.DesugaredArgsAlias | src/AST/Clone.cpp:714-744 | a desugared argument of the copy is the argument or default of the copy at the same place |
| Clones.FollowCommutes | src/AST/Clone.cpp:1553-1697 | following owned subnodes and redirected references among the copies leads to the copy of where it leads among the originals |
| SuperDecls.GetAllSuperDecls | src/AST/Node.cpp:553-589 | lists exactly the class-like declarations that inheritance leads to, in the order of the first ways there, and ends on cycles; besides the start these are just the declarations, or their specific versions, of the valid class and interface types that the start and listed declarations inherit |
| SuperDecls.ListedIffInherited | src/AST/Node.cpp:563-587 | a listing has just what the start and the listed declarations inherit |
| SuperDecls.UnseenIsLater | src/AST/Node.cpp:563-587 | what the search has not found yet lies behind the position it looks at |
| SuperDecls.FoundFirst | src/AST/Node.cpp:563-587 | what it finds next it finds by the first way there |
| SuperDecls.SearchedAll | src/AST/Node.cpp:563-587 | when the queue is empty everything that any way leads to was found |
| SuperDecls.ListedByDistance | src/AST/Node.cpp:553-589 | no duplicates, itself first if class-like and absent otherwise, non-decreasing distance |
| SuperDecls.ListingIsUnique | src/AST/Node.cpp:553-589 | there is only one list with these properties |
| SuperDecls.SubtypesPrecedeIffOrderly | include/cangjie/AST/Node.h:1134-1144 | sub-types precede super-types if and only if each way to a super-type has an earlier way to each of its sub-types |
| SuperDecls.LeadingAwayIsOrderly | include/cangjie/AST/Node.h:1134-1144 | the documented order holds where each step of inheritance leads to a greater distance |
| SuperDecls.CyclesAreNotOrderly | include/cangjie/AST/Node.h:1134-1144 | a cycle of inheritance that can be reached always breaks the documented order |
| SuperDecls.SupertypeFirst | include/cangjie/AST/Node.h:1134-1144 | a class that inherits an interface before a class with that interface lists the interface first |
| MangledTexts.ReadBase62 | demangler/Demangler.cpp:829-852 | summing digits from the least significant one gives the value of the numeral, modulo the word size, and only for base 62 digits |
| MangledTexts.Base62RoundTrip | demangler/Demangler.cpp:806-853 | writing a number in base 62 and reading it gives it back |
| MangledTexts.MangledNumbersAreRead | demangler/Demangler.cpp:806-853 | every 64-bit number is the value of some mangling number |
| MangledReadings.CollectedIsJoined | demangler/Demangler.cpp:934-979 | collecting arguments in groups of sixteen shows them like one list with a delimiter between any two |
| NestedNames.PiecesAreCollected | demangler/Demangler.cpp:981-1080 | reading nested names is reading their parts one after another and collecting them, for every text |
| NestedNames.NestedNamesAreShownInGroups | demangler/Demangler.cpp:981-1080 | for every text, the parts are shown in groups of sixteen with delimiters inside a group and none between groups, without the groups that a stored part has overwritten; kind and parameter types are those of the last part and the last named part |
| NestedNames.ShownAndLost | demangler/Demangler.cpp:1059-1075 | what is shown is shorter than all names with their delimiters by a delimiter for each full group and by all of each overwritten one |
| NestedNames.NestedNamesAreJoinedIff | demangler/Demangler.cpp:981-1080 | nested names are shown with all delimiters if and only if they fit one group, or the delimiter is empty and every overwritten group only holds empty names |
| NestedNames.LosesNothingIff | demangler/Demangler.cpp:993-1035 | where each part shows something, that is if and only if they fit one group, or the delimiter is empty and no lambda, extension or name that ends the text stands first behind a full group |
| MangledTypes.NumberIsRead | demangler/Demangler.cpp:806-853 | every 64-bit number, written anywhere in a name, is read there and nothing more |
| MangledTypes.NameIsRead | demangler/Demangler.cpp:748-764 | every identifier, `<init>` and the like included, written behind its length, is read back and nothing more |
| MangledTypes.PackageIsRead | demangler/Demangler.cpp:707-741 | every package, standard, none or spelled out, with or without a file of its own, is read back as what is shown for it |
| MangledTypes.NoOperator | demangler/Demangler.cpp:236-247 | where types follow each other, their letters are never taken for an operator |
| MangledTypes.UnitIsRead | demangler/Demangler.cpp:1082-1160 | reading the text of a type, in front of anything that may follow it, finds just that type and its info; what the info shows: `Displays.TypeIsDisplayed` |
| MangledTypes.TypeNamesAreRead | demangler/Demangler.cpp:981-1080 | any number of nested names of a type, each with its type arguments, are read back in order |
| MangledTypes.GenericsAreRead | demangler/Demangler.cpp:1300-1321 | any list of types, up to where it must stop, is read back as type arguments |
| MangledTypes.ParametersAreRead | demangler/Demangler.cpp:1323-1347 | and as parameter types |
| MangledTypes.ArgsAreRead | demangler/Demangler.cpp:934-979 | and as arguments |
| MangledTypes.TypeIsRead | demangler/Demangler.cpp:667-676 | reading a whole type finds just that type and its info; what is shown: `Displays.TypeTextIsDisplayed` |
| MangledDecls.PartNameIsRead | demangler/Demangler.cpp:1019-1029 | plain names, operators and accessors of properties are told apart by what stands there and behind it |
| MangledDecls.SignatureIsRead | demangler/Demangler.cpp:1040-1058 | type arguments and parameter types behind a name are read back, with the end marks they take |
| MangledDecls.PartIsRead | demangler/Demangler.cpp:981-1080 | a member, lambda or extension, wherever it stands, is read as what is to be collected of it and nothing more |
| MangledDecls.PartsAreRead | demangler/Demangler.cpp:981-1080 | any number of them, one after another, are read back in order |
| MangledDecls.DeclIsRead | demangler/Demangler.cpp:677-701 | reading the whole name of a declaration finds its package and all of its nested parts, with their signatures, and what is shown for them, if and only if something is shown and neither `$lambda.` nor `$real` occurs in the name |
| MangledDecls.GeneratedOrDeclaration | demangler/Demangler.cpp:688-700 | what starts like a declaration reads as a lambda behind its package where `$lambda.` occurs, else as a wrapper's name where `$real` occurs, and as a declaration else |
| MangledDecls.ModuleIsRead | demangler/Demangler.cpp:707-741 | the name of `Object` in the package `std/core`, with a `$` in it, is read back |
| MangledDecls.RealmIsTakenForAWrapper | demangler/Demangler.cpp:692-695 | the name of the function `foo` of the package `a/realm` is shown without its last five characters |
| MangledDecls.LambdaPackageIsTakenForALambda | demangler/Demangler.cpp:688-691 | the name of the function `foo` of the package `a/lambda.b` is shown as a lambda |
| MangledDecls.BehindSixteen | demangler/Demangler.cpp:981-1080 | of a whole name with sixteen nested names and one more part, a part that is stored is all that is shown, and a named one is shown without the delimiter before it |
| MangledDecls.DelimiterIsLost | demangler/Demangler.cpp:1059-1065 | a whole name with seventeen nested names and an end mark loses one delimiter |
| MangledDecls.NamesAreLostToTheEnd | demangler/Demangler.cpp:1030-1035 | without the end mark only the last of them is shown |
| MangledDecls.NamesAreLostToALambda | demangler/Demangler.cpp:993-1002 | of a whole name with sixteen nested names and a lambda only the lambda is shown |
| MangledDecls.NamesAreLostToAnExtension | demangler/Demangler.cpp:1003-1018 | of a whole name with sixteen nested names and an extension only the extended type is shown |
| MangledTexts.PrimitivesAre | demangler/Demangler.cpp:73-118 | the seventeen letters of primitive types and their names |
| MangledTexts.OperatorsAre | demangler/Demangler.cpp:123-178 | the twenty codes of operators and their signs |
| MangledTexts.Base62CharsAre | demangler/Demangler.cpp:64 | the digits of base 62, by their places |
| MangledDecls.PartsAreWritten | demangler/Demangler.cpp:981-1058 | the marks of accessors, counters, type arguments, parameters, lambdas and extensions in a nested name |
| Displays.TypeIsDisplayed | demangler/Demangler.cpp:462-592 | what is shown of every type, by recursion over its parts: type arguments in angle brackets, a fixed array with `,$` and its size, a function as its parameters, an arrow and its result, a nominal type as package, scope sign and names |
| Displays.TypeTextIsDisplayed | demangler/Demangler.cpp:1285-1298 | what is read of the text of a type shows just that |
| Displays.FunctionTypeIsShown | demangler/Demangler.cpp:579-582 | `F0ulE` is shown as `(Int64) -> Unit` |
| Displays.PackageIsDisplayed | demangler/Demangler.cpp:707-741 | a package is shown with slashes, its organisation set off by two colons, and is private exactly where it has a file |
| Displays.ShownInSixteens | demangler/Demangler.cpp:981-1080 | what is shown of nested names, sixteen by sixteen from the front |
| Displays.DeclIsDisplayed | demangler/Demangler.cpp:462-592 | what is shown of every declaration, by its parts: their names, type arguments and signs, and the parameters of a function in brackets |
| Displays.DeclTextIsDisplayed | demangler/Demangler.cpp:1162-1197 | what is read of the text of a declaration shows just that |
| Displays.NoArgumentsBehindNames | demangler/Demangler.cpp:1200-1234 | the names of a declaration go on to an end mark or the end, so the arguments and default functions behind them are never read |
| Displays.GlobalInitIsDisplayed | demangler/Demangler.cpp:595-625 | initialisers of packages and files are shown with their package and by what they do, for all six endings |
| Displays.WrapperIsDisplayed | demangler/Demangler.cpp:1392-1402 | a wrapper of a function for C is shown as the declaration in it, up to a `$` or the end, with a remark |
| Demanglers.Demangler.Reject | demangler/Demangler.cpp:1405-1416 | afterwards the parse has failed with the cursor at the end |
| Demanglers.Demangler.SkipString | demangler/Demangler.cpp:411-451 | succeeds exactly when the text stands at the cursor, and consumes it |
| Demanglers.Demangler.DemangleLength | demangler/Demangler.cpp:262-292 | succeeds exactly where a digit stands; the decimal value, or 0 where it does not fit 32 bits; a failed parse stays failed |
| Demanglers.Demangler.DemangleManglingNumber | demangler/Demangler.cpp:806-853 | succeeds exactly where base 62 digits and an underscore stand, and finds their number |
| Demanglers.Demangler.DemangleStringName | demangler/Demangler.cpp:748-764 | succeeds exactly where a length that is not 0 and as many characters stand, and finds those |
| Demanglers.Demangler.DemanglePackageName | demangler/Demangler.cpp:707-741 | succeeds exactly where a package is read, standard, empty or spelled out, with or without a file, and finds it |
| Demanglers.Demangler.DemanglePrimitive | demangler/Demangler.cpp:1236-1254 | succeeds exactly for a letter of a primitive type, or the two of the half-width float, and finds its name |
| Demanglers.Demangler.DemangleNextUnit | demangler/Demangler.cpp:1417-1425 | succeeds exactly where a unit is read and finds it; consumes at least one character, or the parse has failed with the cursor at the end |
| Demanglers.Demangler.DemangleByPrefix | demangler/Demangler.cpp:1427-1481 | the first character selects the unit that is read there |
| Demanglers.Demangler.DemangleType | demangler/Demangler.cpp:1285-1298 | succeeds exactly where a type may stand and is read; a failure may leave the cursor, but stays a failure for the caller to reject |
| Demanglers.Demangler.DemangleArgTypes | demangler/Demangler.cpp:934-979 | succeeds exactly where the arguments are read, and shows them like one list, although it collects them in groups |
| Demanglers.Demangler.DemangleGenericTypes | demangler/Demangler.cpp:1300-1321 | succeeds exactly where the type arguments are read, and shows them |
| Demanglers.Demangler.DemangleNestedDecls | demangler/Demangler.cpp:981-1080 | the loop over nested names ends, and finds what reading them one after another finds, group by group |
| Demanglers.Demangler.DemangleCommonDecl | demangler/Demangler.cpp:1162-1197 | succeeds exactly where a declaration, or the variable of a global initialiser, is read, and finds it |
| Demanglers.Demangler.DemangleDefaultParamFunction | demangler/Demangler.cpp:1349-1370 | succeeds exactly where a default function is read, and finds its identifier and arguments |
| Demanglers.Demangler.DemangleWrappedFunction | demangler/Demangler.cpp:1392-1402 | the declaration between the wrapper's prefix and its end mark is demangled in a name of its own |
| Demanglers.Demangler.Demangle | demangler/Demangler.cpp:667-701 | for every name the parser ends, succeeds exactly when the name can be read, and finds what it reads as; a failure leaves the cursor at the end. What that shows: `Displays.TypeTextIsDisplayed`, `Displays.DeclTextIsDisplayed` |
| Decompressions.ForwardNumber | demangler/DeCompression.cpp:491-502 | the place behind the letters, digits and underscore of a number, or the place itself |
| Decompressions.GetNumber | demangler/DeCompression.cpp:68-84 | the same number as the demangler reads |
| Decompressions.IsCompressed | demangler/DeCompression.cpp:694-709 | whether a reference stands anywhere in the name |
| Decompressions.DeCompression.UpdateCompressedNames | demangler/DeCompression.cpp:861-894 | rewriting in place ends for every table, and gives what the string expands to, or fails where an entry lies outside it |
| Decompressions.DeCompression.UpdateCompressedName | demangler/DeCompression.cpp:831-858 | the same for the references that follow each other at a place, counted, with the place behind them |
| Decompressions.RewritingExpands | demangler/DeCompression.cpp:861-894 | where every referenced entry ends before its reference, rewriting gives exactly the expansion of the tokens of the unread text |
| Decompressions.RewritingExpandsLeading | demangler/DeCompression.cpp:831-858 | and expands exactly the references that follow each other at a place, counts them and names the place behind |
| Decompressions.TokensCover | demangler/DeCompression.cpp:861-894 | splitting the unread text into tokens loses nothing and reads nothing twice |
| Decompressions.PrefixIsUntouched | demangler/DeCompression.cpp:861-894 | what was written before stays |
| Decompressions.ReadReference | demangler/DeCompression.cpp:869-889 | one replacement leads to the same expansion with a strictly shorter unread text, though the string may grow |
| Decompressions.LeadingRefsComeFirst | demangler/DeCompression.cpp:831-894 | the references one form expands are the first that the other reads |
| Decompressions.WithoutReferencesNothingChanges | demangler/DeCompression.cpp:694-709 | a name without references is not changed, whatever the table |
| Decompressions.RenderedReadsBack | demangler/DeCompression.cpp:831-894 | literals and references written by a compressor are read back as they were |
| IntLiterals.QuickPow | src/AST/IntLiteral.cpp:333-353 | overflow exactly when the power exceeds the bound, else the power, although the squared base wraps around |
| IntLiterals.IntLiteral.InitIntLiteral | src/AST/IntLiteral.cpp:174-213 | for every text, byte literals included, sign, both words and the range flag are those of the text; the empty text changes nothing |
| IntLiterals.IntLiteral.SetOutOfRange | src/AST/IntLiteral.cpp:228-232 | an out-of-range literal stays so, and an overflow of the type is added |
| IntLiterals.TextComesApart | src/AST/IntLiteral.cpp:135-172 | the base, sign and digits of every literal text are found, with its underscores dropped |
| IntLiterals.NumbersAreWritten | src/AST/IntLiteral.cpp:135-172 | a number written in base 2, 8, 10 or 16 behind the mark of the base, in letters of either case, is the value of the literal |
| IntLiterals.RangeIsExact | src/AST/IntLiteral.cpp:174-244 | a literal is out of range exactly when its value lies outside the type, and in range its words hold the value |
| IntLiterals.ByteLiteralsAreRead | src/AST/IntLiteral.cpp:107-134 | a byte spelled as itself, by one of ten escapes or by its code is read as that byte, and is out of range exactly when its value is |
| IntLiterals.ReusedLiteralKeepsItsSign | src/AST/IntLiteral.cpp:181-183 | read again after a negative text, a literal is out of range only beyond signed words |
| IntLiterals.IsLiteralOutOfRange | src/AST/IntLiteral.cpp:174-244 | reading a fresh literal and setting its type gives the exact range check against the bounds of the type, native types included |
| IntLiterals.WrappingIsUnique | src/AST/IntLiteral.cpp:247-273 | narrowing gives the one value of the type that is congruent modulo its width |
| IntLiterals.IntLiteral.CalcWrappingAndSaturatingVal | src/AST/IntLiteral.cpp:276-299 | the wrapped value and the bound that was missed |
| Utf8.CodepointRoundTrip | src/Basic/StringConvertor.cpp:212-261 | the first byte announces the length and the bytes give the code point back, for all six lengths |
| Utf8.UTF8ToCodepoint | src/Basic/StringConvertor.cpp:296-345 | the decoded code points of a text of which at most one byte is missing at the end |
| Utf8.StaysInTextIff | src/Basic/StringConvertor.cpp:296-345 | the decoder stays within the text and its null character if and only if at most one byte is missing |
| Utf8.RoundTrip | src/Basic/StringConvertor.cpp:212-345 | decoding the encodings of a sequence of code points gives the sequence back |
| Utf8.EncodingIsInjective | src/Basic/StringConvertor.cpp:212-261 | different sequences have different encodings |
| Utf8.EncodesAsRfc2279 | src/Basic/StringConvertor.cpp:212-261 | the marks of first and continuation bytes and the places of the bits are those of RFC 2279, section 2, with the fewest bytes, if and only if the code point is not in 110000 to 1FFFFF |
| Escapes.EscapeString | src/Basic/StringConvertor.cpp:263-280 | every character of the list becomes its escape, all others stay |
| Escapes.Recover | src/Basic/StringConvertor.cpp:282-287 | the printed form, which reads back as the string |
| Escapes.EscapeToJsonString | src/Basic/StringConvertor.cpp:289-294 | the printed form for JSON, which reads back as the string |
| Escapes.Normalize | src/Basic/StringConvertor.cpp:177-210 | reads escapes and unifies line ends as the step function says |
| Escapes.GetUnicodeAndToUTF8 | src/Basic/StringConvertor.cpp:154-171 | takes exactly the hexadecimal digits and gives the text of their value on 32-bit words |
| Escapes.EscapeRoundTrip | src/Basic/StringConvertor.cpp:177-294 | every string survives being printed with escapes and read again, for every list whose escapes are read back |
| Escapes.PrintedStringsAreReadBack | src/Basic/StringConvertor.cpp:282-294 | what is printed for recovery or for JSON reads back as it was, for every string |
| Escapes.RawStringsAreUnified | src/Basic/StringConvertor.cpp:177-210 | a raw string has no carriage return left, and reading it again changes nothing |
| Escapes.UnknownEscapesLoseTheirBackslash | src/Basic/StringConvertor.cpp:184-200 | a backslash that starts no escape is dropped |
| Escapes.EscapesAreRead | src/Basic/StringConvertor.cpp:177-210 | each of the eleven short escapes is read as the character of its code |
| Escapes.CodeIsRead | src/Basic/StringConvertor.cpp:154-192 | a code of two hexadecimal digits in braces is read as its character |
| Escapes.HexDigitsAre | src/Basic/StringConvertor.cpp:158-162 | the hexadecimal digits in both cases, and nothing else |
| Escapes.LineEndsAreUnified | src/Basic/StringConvertor.cpp:200-210 | a carriage return, alone or with a line feed behind it, gives one line feed, in raw strings too |
| Escapes.JsonTextsHaveNoBareQuotes | src/Basic/StringConvertor.cpp:289-294 | what is printed for JSON has no bare quote, backslash or line end, and only the short escapes of JSON |
| SourceText.SplitLines | src/Basic/Utils.cpp:42-71 | the lines of a text without their terminators |
| SourceText.GetLineTerminatorLength | src/Basic/Utils.cpp:131-143 | 0 where no line feed stands, alone or behind a carriage return, and else the length that leads just behind it |
| SourceText.IsTerminatorLength | src/Basic/Utils.cpp:131-143 | only one length does so |
| SourceText.Source.constructor | src/Basic/SourceManager.cpp:47-69 | the recorded line starts are those of the text |
| SourceText.Source.PosToOffset | src/Basic/SourceManager.cpp:22-45 | the offset of a position; columns behind the end of a line lie at the start of the next |
| SourceText.ColumnsOfLine | src/Basic/SourceManager.cpp:22-45 | a column counts from the start of its line up to the first terminator; else it lies behind the next line feed, or at the end of the text |
| SourceText.LinesMatchOffsets | src/Basic/SourceManager.cpp:56-68 | both scanners find the same lines: as many texts as starts, each the text from its start to the line's end |
| SourceText.LinesStartBehindLineFeeds | src/Basic/SourceManager.cpp:56-68 | a line starts at the beginning and behind every line feed, and nowhere else |
| SourceText.OffsetsFollowPositions | src/Basic/SourceManager.cpp:22-45 | offsets follow positions if and only if the later column counts or the earlier position can only lie at the start of the text |
| SourceText.SourceManager.GetContentBetween | src/Basic/SourceManager.cpp:175-207 | the text between two positions, with its fallbacks |
| SourceText.TextsJoin | src/Basic/SourceManager.cpp:175-207 | text up to a position and from it on join to the whole if and only if: the position has a column, and the end has one too or the beginning does not lie at the start or the position does; or it has none, and the end has none or the beginning lies at the start |
| SourceText.ColumnZeroTakesTheRest | src/Basic/SourceManager.cpp:203-206 | up to a column below 1 of a line, the text is all the rest |
| Diagnostics.DiagnosticEngine.HandleDiagnostic | src/Basic/DiagnosticEngine.cpp:519-548 | with diagnosing enabled everything is kept or handed over but warnings that are switched off, of a suppressed group, or for a suppressed unused main; unchanged, but for one more note on a warning of a named group |
| Diagnostics.DiagnosticEngine.Prepare | src/Basic/DiagnosticEngine.cpp:550-558 | a transaction is open with nothing pending |
| Diagnostics.DiagnosticEngine.Commit | src/Basic/DiagnosticEngine.cpp:560-571 | what was pending is handed over in order and the transaction is gone |
| Diagnostics.DiagnosticEngine.ClearTransaction | src/Basic/DiagnosticEngine.cpp:573-580 | the transaction is gone and nothing was handed over |
| Diagnostics.DeliveredOrPending | src/Basic/DiagnosticEngine.cpp:519-580 | of one thread's calls, what is delivered and pending is exactly what is not cleared, once and in order |
| Diagnostics.StepFollows | src/Basic/DiagnosticEngine.cpp:519-580 | every step of any thread keeps each thread's deliveries and pending diagnostics those of its own calls |
| Diagnostics.EveryRunFollows | src/Basic/DiagnosticEngine.cpp:519-580 | in every interleaving each thread's deliveries are those of its own calls, and at most one thread holds the mutex |
| Diagnostics.AcceptedDiagnosticsArrive | src/Basic/DiagnosticEngine.cpp:519-580 | the diagnostics that a thread raises reach the handler exactly once and in order, with their notes, unless dropped, pending or cleared, and pending ones exist only in an open transaction |
| Diagnostics.OtherThreadsDoNotMatter | src/Basic/DiagnosticEngine.cpp:519-580 | what other threads do makes no difference to a thread's deliveries |
| Diagnostics.CommitIsItsSteps | src/Basic/DiagnosticEngine.cpp:560-571 | a commit is its steps with no other thread between them |

## Left out

- The nodes of a trie are records in a growing store, and pointers to them are indices; ownership through unique pointers
  and the release of nodes are not modelled.
- The symbol's own links, file hashes in queries and cache keys, and custom orders of a search; the two orders of the
  searcher are modelled, and sorting is represented by insertion in place of the library's sort.
- `scopeGateMap`, which keeps one symbol per scope name and is not restored by deletion.
- Names, scopes and positions of a symbol are fixed while it is indexed, key widths are fixed for the lifetime of an index,
  and positions of symbols are not negative.
- Searchers.GetIDsByScopeLevel: says nothing where the original's counting loop does not end, which is exactly where its
  bound exceeds 32 bits.
- Searchers.PerformSearch: says nothing of queries with such a bound.
- SearchCaches.Searcher.Search: says nothing of queries with such a bound, nor of answers that the orders cannot sort.
- Queries.OperatorInValueCollides: which other values with operator signs make keys collide. Such keys have more than one
  reading, so taking a key apart does not decide it; the other half of a condition is out of reach.
- SearchCaches.SilentArrivalIsNoticedIff: queries that guess before or after the arrival.
- SearchCaches.CacheIsTransparent: after a kept change, searches that mention the top level without being about it; which
  of their answers are still right depends on the symbols, as `SilentReplacementIsNoticedIff` says.
- Orders.Sort: sets of symbols that the orders cannot sort, for which the original's sort has no defined result.
- Queries with a null operand, and the difference between query types that print alike.
- The terms of a query are tokens of the model's parser: lexing, comparators and positions inside a term are not modelled.
- Searchers.GetIDsByPosEQ: the guess goes through symbols by address; addresses are numbers that belong to the symbols.
- Callbacks of a walk are functions of the node and leave the graph alone; the atomicity of the walker counter is not
  modelled. The many kinds of nodes differ only in their lists of children.
- Cloning: kinds that become invalid nodes, attributes, types, positions and other copied values, subnodes that are cloned
  without a visit, and the second visit of nodes that are cloned by kind, which records the same again.
- Demanglers.Demangler.Demangle: the expansion of back references that comes first is a function parameter, the table of
  standard packages is a parameter with two-letter codes. `SkipPrivateTopLevelDeclHash` is not called by anything and is
  left out.
- MangledTypes.UnitIsRead: the texts of types are those that the parser's grammar has for them; the mangler is not part of
  this model. A type that has no end mark of its own only stands at the end of the name or of a list.
- MangledTypes.TypeIsRead: types in functions, lambdas or extensions; the parser's model reads them, but they are not
  written. The name `<>`, of which nothing is shown, is none.
- MangledDecls.DeclIsRead: the variables of global initialisers and the initialisers of parameters are read by the parser's
  model but not written.
- The bookkeeping of the path parser in the decompressor, which fills the table of entries.
- IntLiterals.IntLiteral.InitIntLiteral: suffixes; the C library's number readers are modelled for texts without leading
  blanks or plus signs.
- Utf8.UTF8ToCodepoint: texts of which more than one byte is missing, where the original reads past the end of its string.
- Windows code pages, and hashing and registration of source files.
- Diagnostic counters, error categories, formatting and emitting; the handler is a log.
