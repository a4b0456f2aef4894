/**
 * The character trie of the symbol index. A node keeps the set of symbols whose key runs through it, the word that
 * ends at it, and the suffixes that complete it to a word.
 *
 * The nodes of a trie live in one growing store; a pointer to a node is its place in the store, and the root is at
 * place 0. The ghost map `at` sends every string that can be spelled from the root to the place it leads to. Two more
 * ghost fields say what the nodes stand for: `words` (every string ever inserted; deletion takes none away) and `live`
 * (the key of every symbol inserted and not deleted since).
 */
module Tries {
  import opened Symbols

  datatype TrieNode = TrieNode(
    next: map<char, nat>,
    c: char,
    value: string,
    prefix: string,
    suffixes: set<string>,
    ids: set<Symbol>,
    depth: nat,
    parent: nat)

  function NewNode(c: char): TrieNode {
    TrieNode(map[], c, "", "", {}, {}, 0, 0)
  }

  function Child(p: string, ch: char): string {
    p + [ch]
  }

  /** The store is a tree, and the paths from its root spell exactly the keys of `at`. */
  ghost predicate Tree(nodes: seq<TrieNode>, at: map<string, nat>) {
    && "" in at && at[""] == 0
    && (forall p :: p in at ==> at[p] < |nodes| && nodes[at[p]].prefix == p)
    && (forall i :: 0 <= i < |nodes| ==> nodes[i].prefix in at && at[nodes[i].prefix] == i)
    && (forall i, ch :: 0 <= i < |nodes| && ch in nodes[i].next ==>
          nodes[i].next[ch] < |nodes| && nodes[nodes[i].next[ch]].prefix == Child(nodes[i].prefix, ch))
    && (forall p, ch {:trigger Child(p, ch) in at} :: Child(p, ch) in at ==> p in at && ch in nodes[at[p]].next)
  }

  /** Depths and parent links are right; only the insertion that carries a symbol sets them. */
  ghost predicate Links(nodes: seq<TrieNode>) {
    && (forall i :: 0 <= i < |nodes| ==> nodes[i].depth == |nodes[i].prefix|)
    && (forall i, ch :: 0 <= i < |nodes| && ch in nodes[i].next ==>
          nodes[i].next[ch] < |nodes| && nodes[nodes[i].next[ch]].parent == i)
  }

  /** The symbol that an insertion carries, if any. */
  datatype MaybeSymbol = NoSymbol | JustSymbol(s: Symbol)

  function IdSet(id: MaybeSymbol): set<Symbol> {
    if id.JustSymbol? then {id.s} else {}
  }

  ghost function WithKey(live: map<Symbol, string>, id: MaybeSymbol, value: string): map<Symbol, string> {
    if id.JustSymbol? then live[id.s := value] else live
  }

  /** A symbol keeps its key while it is live. */
  ghost predicate Consistent(live: map<Symbol, string>, id: MaybeSymbol, value: string) {
    id.JustSymbol? && id.s in live ==> live[id.s] == value
  }

  // ----- what the nodes stand for -----

  /** A string is stored exactly when some inserted word starts with it. */
  ghost predicate Stored(words: set<string>, p: string) {
    p == "" || exists w :: w in words && p <= w
  }

  /** The string at a node: the inserted word that ends there. The empty word leaves no trace. */
  ghost function ValueAt(words: set<string>, p: string): string {
    if p in words then p else ""
  }

  ghost function SuffixesAt(words: set<string>, p: string): set<string> {
    set w | w in words && p != "" && p <= w && p != w :: w[|p|..]
  }

  ghost function IdsAt(live: map<Symbol, string>, p: string): set<Symbol> {
    set s | s in live && p != "" && p <= live[s]
  }

  ghost predicate Records(node: TrieNode, words: set<string>, live: map<Symbol, string>) {
    && node.value == ValueAt(words, node.prefix)
    && node.suffixes == SuffixesAt(words, node.prefix)
    && node.ids == IdsAt(live, node.prefix)
  }

  ghost predicate Means(nodes: seq<TrieNode>, at: map<string, nat>, words: set<string>, live: map<Symbol, string>) {
    && (forall p :: p in at <==> Stored(words, p))
    && (forall i :: 0 <= i < |nodes| ==> Records(nodes[i], words, live))
    && (forall s :: s in live ==> live[s] in words)
  }

  /**
   * The records in the middle of an insertion of `value`, when the nodes along `done` have been updated: only the
   * word at the end of the path is still missing.
   */
  ghost predicate ThreadedRecord(node: TrieNode, words: set<string>, live: map<Symbol, string>, value: string,
                                 id: MaybeSymbol, done: string) {
    && node.value == ValueAt(words, node.prefix)
    && (if node.prefix <= done then
          node.suffixes == SuffixesAt(words + {value}, node.prefix) &&
          node.ids == IdsAt(WithKey(live, id, value), node.prefix)
        else node.suffixes == SuffixesAt(words, node.prefix) && node.ids == IdsAt(live, node.prefix))
  }

  ghost predicate Threaded(nodes: seq<TrieNode>, at: map<string, nat>, words: set<string>, live: map<Symbol, string>,
                           value: string, id: MaybeSymbol, done: string) {
    && (forall p :: p in at <==> Stored(words, p) || p <= done)
    && (forall i :: 0 <= i < |nodes| ==> ThreadedRecord(nodes[i], words, live, value, id, done))
  }

  lemma InsertedRecord(words: set<string>, live: map<Symbol, string>, value: string, id: MaybeSymbol, p: string)
    requires Consistent(live, id, value)
    ensures ValueAt(words + {value}, p) == if p == value then p else ValueAt(words, p)
    ensures SuffixesAt(words + {value}, p) ==
            SuffixesAt(words, p) + (if p != "" && p < value then {value[|p|..]} else {})
    ensures IdsAt(WithKey(live, id, value), p) == IdsAt(live, p) + (if p != "" && p <= value then IdSet(id) else {})
  {
  }

  lemma RootRecordsNothing(words: set<string>, live: map<Symbol, string>, value: string, id: MaybeSymbol)
    ensures SuffixesAt(words + {value}, "") == SuffixesAt(words, "")
    ensures IdsAt(WithKey(live, id, value), "") == IdsAt(live, "")
  {
  }

  lemma PrefixStep(p: string, value: string, i: nat)
    requires i < |value|
    ensures p <= value[..i + 1] <==> p <= value[..i] || p == value[..i + 1]
  {
    if p <= value[..i + 1] && p != value[..i + 1] {
      assert |p| <= i;
    }
    if p <= value[..i] {
      assert p == value[..i + 1][..|p|];
    }
  }

  lemma NothingBelowUnstored(words: set<string>, live: map<Symbol, string>, p: string)
    requires !Stored(words, p)
    requires forall s :: s in live ==> live[s] in words
    ensures SuffixesAt(words, p) == {} && IdsAt(live, p) == {} && ValueAt(words, p) == ""
  {
  }

  // ----- one step down the trie -----

  /** The store after the child of `n` along `ch` has been created when missing. */
  function Grown(nodes: seq<TrieNode>, n: nat, ch: char): seq<TrieNode>
    requires n < |nodes|
  {
    if ch in nodes[n].next then nodes
    else nodes[n := nodes[n].(next := nodes[n].next[ch := |nodes|])]
         + [NewNode(ch).(prefix := Child(nodes[n].prefix, ch))]
  }

  function ChildPlace(nodes: seq<TrieNode>, n: nat, ch: char): nat
    requires n < |nodes|
  {
    if ch in nodes[n].next then nodes[n].next[ch] else |nodes|
  }

  lemma ChildInjective(p: string, ch: char, p': string, ch': char)
    requires Child(p, ch) == Child(p', ch')
    ensures p == p' && ch == ch'
  {
    assert Child(p, ch)[..|p|] == p && Child(p', ch')[..|p'|] == p';
    assert Child(p, ch)[|p|] == ch && Child(p', ch')[|p'|] == ch';
  }

  lemma GrownTree(nodes: seq<TrieNode>, at: map<string, nat>, n: nat, ch: char)
    requires Tree(nodes, at) && n < |nodes|
    ensures Tree(Grown(nodes, n, ch), at[Child(nodes[n].prefix, ch) := ChildPlace(nodes, n, ch)])
    ensures ch in nodes[n].next <==> Child(nodes[n].prefix, ch) in at
  {
    var prefix := nodes[n].prefix;
    var q := Child(prefix, ch);
    var nodes', at' := Grown(nodes, n, ch), at[q := ChildPlace(nodes, n, ch)];
    if ch !in nodes[n].next {
      assert q !in at;
      forall p, c {:trigger Child(p, c) in at'} | Child(p, c) in at' ensures p in at' && c in nodes'[at'[p]].next {
        if Child(p, c) == q {
          ChildInjective(p, c, prefix, ch);
        }
      }
    } else {
      assert at' == at;
    }
  }

  /** What an insertion changes at a node it passes. */
  function Touched(node: TrieNode, depth: nat, parent: nat, id: MaybeSymbol, rest: string): TrieNode {
    node.(depth := if id.JustSymbol? then depth else node.depth,
          parent := if id.JustSymbol? then parent else node.parent,
          ids := node.ids + IdSet(id),
          suffixes := if rest == "" then node.suffixes else node.suffixes + {rest})
  }

  lemma TouchedTree(nodes: seq<TrieNode>, at: map<string, nat>, k: nat, node: TrieNode)
    requires Tree(nodes, at) && k < |nodes|
    requires node.next == nodes[k].next && node.prefix == nodes[k].prefix
    ensures Tree(nodes[k := node], at)
  {
  }

  /** One step of an insertion: the child is created when missing, linked, and told of the symbol and the suffix. */
  function Step(nodes: seq<TrieNode>, n: nat, ch: char, id: MaybeSymbol, rest: string): seq<TrieNode>
    requires n < |nodes| && (ch in nodes[n].next ==> nodes[n].next[ch] < |nodes|)
  {
    var grown := Grown(nodes, n, ch);
    var child := ChildPlace(nodes, n, ch);
    grown[child := Touched(grown[child], nodes[n].depth + 1, n, id, rest)]
  }

  lemma ChildIsThere(nodes: seq<TrieNode>, at: map<string, nat>, n: nat, ch: char)
    requires Tree(nodes, at) && n < |nodes|
    ensures ChildPlace(nodes, n, ch) < |Grown(nodes, n, ch)|
  {
  }

  lemma StepTree(nodes: seq<TrieNode>, at: map<string, nat>, n: nat, ch: char, id: MaybeSymbol, rest: string)
    requires Tree(nodes, at) && n < |nodes|
    ensures Tree(Step(nodes, n, ch, id, rest), at[Child(nodes[n].prefix, ch) := ChildPlace(nodes, n, ch)])
  {
    hide Tree;
    ChildIsThere(nodes, at, n, ch);
    GrownTree(nodes, at, n, ch);
    var grown, child := Grown(nodes, n, ch), ChildPlace(nodes, n, ch);
    var node := Touched(grown[child], nodes[n].depth + 1, n, id, rest);
    TouchedTree(grown, at[Child(nodes[n].prefix, ch) := child], child, node);
  }

  lemma StepLinks(nodes: seq<TrieNode>, at: map<string, nat>, n: nat, ch: char, id: MaybeSymbol, rest: string)
    requires Tree(nodes, at) && Links(nodes) && n < |nodes| && id.JustSymbol?
    ensures Links(Step(nodes, n, ch, id, rest))
  {
    var nodes' := Step(nodes, n, ch, id, rest);
    forall i, c | 0 <= i < |nodes'| && c in nodes'[i].next
      ensures nodes'[i].next[c] < |nodes'| && nodes'[nodes'[i].next[c]].parent == i
    {
      if i < |nodes| && c in nodes[i].next && nodes[i].next[c] == ChildPlace(nodes, n, ch) {
        assert nodes[nodes[i].next[c]].parent == i;
      }
    }
  }

  lemma RecordOf(nodes: seq<TrieNode>, at: map<string, nat>, words: set<string>, live: map<Symbol, string>,
                 value: string, id: MaybeSymbol, done: string)
    requires Threaded(nodes, at, words, live, value, id, done)
    ensures forall k :: 0 <= k < |nodes| ==> ThreadedRecord(nodes[k], words, live, value, id, done)
    ensures forall p :: p in at <==> Stored(words, p) || p <= done
  {
  }

  lemma StepRecord(nodes: seq<TrieNode>, at: map<string, nat>, words: set<string>, live: map<Symbol, string>,
                   value: string, id: MaybeSymbol, i: nat, n: nat)
    requires Consistent(live, id, value)
    requires forall s :: s in live ==> live[s] in words
    requires i < |value| && Threaded(nodes, at, words, live, value, id, value[..i])
    requires Tree(nodes, at) && n < |nodes| && nodes[n].prefix == value[..i]
    ensures ThreadedRecord(Step(nodes, n, value[i], id, value[i + 1..])[ChildPlace(nodes, n, value[i])],
                           words, live, value, id, value[..i + 1])
  {
    hide Threaded, SuffixesAt, IdsAt, ValueAt, Stored, Consistent;
    RecordOf(nodes, at, words, live, value, id, value[..i]);
    var q, child := value[..i + 1], ChildPlace(nodes, n, value[i]);
    assert q == Child(value[..i], value[i]);
    InsertedRecord(words, live, value, id, q);
    if child == |nodes| {
      GrownTree(nodes, at, n, value[i]);
      NothingBelowUnstored(words, live, q);
    } else {
      assert ThreadedRecord(nodes[child], words, live, value, id, value[..i]);
    }
  }

  lemma StepOtherRecord(nodes: seq<TrieNode>, at: map<string, nat>, words: set<string>, live: map<Symbol, string>,
                        value: string, id: MaybeSymbol, i: nat, n: nat, k: nat)
    requires i < |value| && Tree(nodes, at) && n < |nodes| && nodes[n].prefix == value[..i]
    requires k < |nodes| && k != ChildPlace(nodes, n, value[i])
    requires ThreadedRecord(nodes[k], words, live, value, id, value[..i])
    ensures ThreadedRecord(Step(nodes, n, value[i], id, value[i + 1..])[k], words, live, value, id, value[..i + 1])
  {
    GrownTree(nodes, at, n, value[i]);
    assert value[..i + 1] == Child(value[..i], value[i]);
    PrefixStep(nodes[k].prefix, value, i);
    var node' := Step(nodes, n, value[i], id, value[i + 1..])[k];
    assert node'.prefix == nodes[k].prefix && node'.value == nodes[k].value;
    assert node'.suffixes == nodes[k].suffixes && node'.ids == nodes[k].ids;
  }

  /** A step threads the insertion one prefix further. */
  lemma StepThreads(nodes: seq<TrieNode>, at: map<string, nat>, words: set<string>, live: map<Symbol, string>,
                    value: string, id: MaybeSymbol, i: nat, n: nat)
    requires Consistent(live, id, value)
    requires forall s :: s in live ==> live[s] in words
    requires i < |value| && Threaded(nodes, at, words, live, value, id, value[..i])
    requires Tree(nodes, at) && n < |nodes| && nodes[n].prefix == value[..i]
    ensures Threaded(Step(nodes, n, value[i], id, value[i + 1..]), at[value[..i + 1] := ChildPlace(nodes, n, value[i])],
                     words, live, value, id, value[..i + 1])
  {
    var q, child := value[..i + 1], ChildPlace(nodes, n, value[i]);
    var nodes', at' := Step(nodes, n, value[i], id, value[i + 1..]), at[q := child];
    forall p ensures p in at' <==> Stored(words, p) || p <= q {
      PrefixStep(p, value, i);
    }
    forall k | 0 <= k < |nodes'| ensures ThreadedRecord(nodes'[k], words, live, value, id, q) {
      if k == child {
        StepRecord(nodes, at, words, live, value, id, i, n);
      } else {
        StepOtherRecord(nodes, at, words, live, value, id, i, n, k);
      }
    }
  }

  /** What a step needs to find: the child along `ch`, when there is one, is another node with the right prefix. */
  predicate Steppable(nodes: seq<TrieNode>, n: nat, prefix: string, ch: char) {
    && n < |nodes| && prefix == nodes[n].prefix
    && (ch in nodes[n].next ==>
          var child := nodes[n].next[ch];
          child < |nodes| && child != n && nodes[child].prefix == prefix + [ch])
  }

  /** The state of an insertion that stands at node `n` after `i` characters. */
  ghost predicate Inserting(nodes: seq<TrieNode>, at: map<string, nat>, words: set<string>, live: map<Symbol, string>,
                            value: string, id: MaybeSymbol, i: nat, n: nat) {
    && i <= |value| && n < |nodes| && nodes[n].prefix == value[..i]
    && Tree(nodes, at) && (id.JustSymbol? ==> Links(nodes))
    && Threaded(nodes, at, words, live, value, id, value[..i])
  }

  lemma InsertingStart(nodes: seq<TrieNode>, at: map<string, nat>, words: set<string>, live: map<Symbol, string>,
                       value: string, id: MaybeSymbol)
    requires Tree(nodes, at) && Means(nodes, at, words, live)
    requires id.JustSymbol? ==> Links(nodes)
    ensures Inserting(nodes, at, words, live, value, id, 0, 0)
  {
    forall k | 0 <= k < |nodes| ensures ThreadedRecord(nodes[k], words, live, value, id, "") {
      RootRecordsNothing(words, live, value, id);
    }
  }

  lemma InsertingStep(nodes: seq<TrieNode>, at: map<string, nat>, words: set<string>, live: map<Symbol, string>,
                      value: string, id: MaybeSymbol, i: nat, n: nat)
    requires Consistent(live, id, value)
    requires forall s :: s in live ==> live[s] in words
    requires i < |value| && Inserting(nodes, at, words, live, value, id, i, n)
    ensures Steppable(nodes, n, value[..i], value[i])
    ensures Inserting(Step(nodes, n, value[i], id, value[i + 1..]),
                      at[value[..i + 1] := ChildPlace(nodes, n, value[i])],
                      words, live, value, id, i + 1, ChildPlace(nodes, n, value[i]))
  {
    hide Threaded;
    StepTree(nodes, at, n, value[i], id, value[i + 1..]);
    if id.JustSymbol? {
      StepLinks(nodes, at, n, value[i], id, value[i + 1..]);
    }
    StepThreads(nodes, at, words, live, value, id, i, n);
    assert Child(value[..i], value[i]) == value[..i + 1];
  }

  lemma StoredWithWord(words: set<string>, value: string, p: string)
    ensures Stored(words + {value}, p) <==> Stored(words, p) || p <= value
  {
    if p <= value {
      assert value in words + {value};
    }
  }

  /** Only the word itself is missing behind its end. */
  lemma RecordAtEnd(node: TrieNode, words: set<string>, live: map<Symbol, string>, value: string, id: MaybeSymbol)
    requires Consistent(live, id, value) && ThreadedRecord(node, words, live, value, id, value)
    ensures Records(if node.prefix == value then node.(value := value) else node,
                    words + {value}, WithKey(live, id, value))
  {
    hide SuffixesAt, IdsAt, WithKey;
    InsertedRecord(words, live, value, id, node.prefix);
  }

  /** Giving a node its word touches neither the tree nor the links. */
  lemma WordTree(nodes: seq<TrieNode>, at: map<string, nat>, n: nat, value: string)
    requires Tree(nodes, at) && n < |nodes|
    ensures Tree(nodes[n := nodes[n].(value := value)], at)
    ensures Links(nodes) ==> Links(nodes[n := nodes[n].(value := value)])
  {
    TouchedTree(nodes, at, n, nodes[n].(value := value));
  }

  lemma OnlyOneEnds(nodes: seq<TrieNode>, at: map<string, nat>, n: nat, k: nat)
    requires Tree(nodes, at) && n < |nodes| && k < |nodes|
    ensures nodes[k].prefix == nodes[n].prefix <==> k == n
  {
  }

  lemma ThreadedToTheEnd(nodes: seq<TrieNode>, at: map<string, nat>, words: set<string>, live: map<Symbol, string>,
                         value: string, id: MaybeSymbol, n: nat)
    requires Consistent(live, id, value)
    requires forall s :: s in live ==> live[s] in words
    requires Inserting(nodes, at, words, live, value, id, |value|, n)
    ensures var nodes' := nodes[n := nodes[n].(value := value)];
            && Tree(nodes', at) && (id.JustSymbol? ==> Links(nodes'))
            && Means(nodes', at, words + {value}, WithKey(live, id, value))
  {
    hide Tree, Links, Stored, Records, ThreadedRecord;
    var nodes' := nodes[n := nodes[n].(value := value)];
    assert value[..|value|] == value;
    WordTree(nodes, at, n, value);
    forall p ensures p in at <==> Stored(words + {value}, p) {
      StoredWithWord(words, value, p);
    }
    forall k | 0 <= k < |nodes'| ensures Records(nodes'[k], words + {value}, WithKey(live, id, value)) {
      OnlyOneEnds(nodes, at, n, k);
      RecordAtEnd(nodes[k], words, live, value, id);
    }
  }

  // ----- deletion -----

  /** The records in the middle of a deletion, when the symbol has been taken off the nodes along `done`. */
  ghost predicate ErasedRecord(node: TrieNode, words: set<string>, live: map<Symbol, string>, id: Symbol,
                               done: string) {
    && node.value == ValueAt(words, node.prefix)
    && node.suffixes == SuffixesAt(words, node.prefix)
    && node.ids == IdsAt(if node.prefix <= done then live - {id} else live, node.prefix)
  }

  ghost predicate Deleting(nodes: seq<TrieNode>, at: map<string, nat>, words: set<string>, live: map<Symbol, string>,
                           value: string, id: Symbol, i: nat, n: nat) {
    && i <= |value| && n < |nodes| && nodes[n].prefix == value[..i]
    && Tree(nodes, at)
    && (forall p :: p in at <==> Stored(words, p))
    && (forall k :: 0 <= k < |nodes| ==> ErasedRecord(nodes[k], words, live, id, value[..i]))
  }

  /** Some word goes on behind `p`. */
  ghost predicate GoesOn(words: set<string>, p: string) {
    exists w :: w in words && p < w
  }

  /**
   * What a deletion asks of its caller, in terms of the inserted words: as long as any word goes on along `value`, some
   * word goes on along the next character of it.
   */
  ghost predicate Erasable(words: set<string>, value: string) {
    forall i {:trigger value[i]} :: 0 <= i < |value| && GoesOn(words, value[..i]) ==> Stored(words, value[..i + 1])
  }

  lemma InsertedIsErasable(words: set<string>, value: string)
    requires value in words || words == {}
    ensures Erasable(words, value)
  {
    forall i | 0 <= i < |value| && GoesOn(words, value[..i]) ensures Stored(words, value[..i + 1]) {
      assert value[..i + 1] <= value;
    }
  }

  /** The same for the nodes: the walk may run into a node without children, but else finds the next character. */
  ghost predicate Walkable(nodes: seq<TrieNode>, at: map<string, nat>, value: string)
    requires Tree(nodes, at)
  {
    forall i {:trigger value[i]} :: 0 <= i < |value| && value[..i] in at && nodes[at[value[..i]]].next != map[] ==>
      value[i] in nodes[at[value[..i]]].next
  }

  /** A node has children exactly when some word goes on behind it. */
  lemma ChildrenIffGoesOn(nodes: seq<TrieNode>, at: map<string, nat>, words: set<string>, p: string)
    requires Tree(nodes, at) && (forall q :: q in at <==> Stored(words, q)) && p in at
    ensures nodes[at[p]].next != map[] <==> GoesOn(words, p)
  {
    if GoesOn(words, p) {
      var w :| w in words && p < w;
      WordGoesOn(nodes, at, words, at[p], w);
    }
    if nodes[at[p]].next != map[] {
      var ch :| ch in nodes[at[p]].next;
      assert Stored(words, Child(p, ch));
      var w :| w in words && Child(p, ch) <= w;
      assert p == Child(p, ch)[..|p|];
    }
  }

  /** A deletion never leaves the trie exactly when the inserted words say so. */
  lemma WalkableIffErasable(nodes: seq<TrieNode>, at: map<string, nat>, words: set<string>, value: string)
    requires Tree(nodes, at) && (forall p :: p in at <==> Stored(words, p))
    ensures Walkable(nodes, at, value) <==> Erasable(words, value)
  {
    hide Tree, GoesOn, Stored;
    PlacesFit(nodes, at);
    forall i | 0 <= i < |value|
      ensures value[..i] in at && nodes[at[value[..i]]].next != map[] <==> GoesOn(words, value[..i])
      ensures value[..i] in at ==> (value[i] in nodes[at[value[..i]]].next <==> Stored(words, value[..i + 1]))
    {
      NodeAlong(nodes, at, words, value, i);
    }
  }

  lemma PlacesFit(nodes: seq<TrieNode>, at: map<string, nat>)
    requires Tree(nodes, at)
    ensures forall p :: p in at ==> at[p] < |nodes|
  {
  }

  lemma NodeAlong(nodes: seq<TrieNode>, at: map<string, nat>, words: set<string>, value: string, i: nat)
    requires Tree(nodes, at) && (forall p :: p in at <==> Stored(words, p)) && i < |value|
    ensures value[..i] in at && nodes[at[value[..i]]].next != map[] <==> GoesOn(words, value[..i])
    ensures value[..i] in at ==> (value[i] in nodes[at[value[..i]]].next <==> Stored(words, value[..i + 1]))
  {
    hide GoesOn, Stored;
    assert Child(value[..i], value[i]) == value[..i + 1];
    if value[..i] in at {
      ChildrenIffGoesOn(nodes, at, words, value[..i]);
    } else {
      UnstoredEnds(words, value[..i]);
    }
  }

  lemma UnstoredEnds(words: set<string>, p: string)
    requires !Stored(words, p)
    ensures !GoesOn(words, p)
  {
  }

  lemma WalkGoesOn(nodes: seq<TrieNode>, at: map<string, nat>, value: string, i: nat, n: nat)
    requires Tree(nodes, at) && Walkable(nodes, at, value)
    requires i < |value| && n < |nodes| && nodes[n].prefix == value[..i] && nodes[n].next != map[]
    ensures value[i] in nodes[n].next
  {
    assert at[value[..i]] == n;
  }

  lemma StillWalkable(nodes: seq<TrieNode>, at: map<string, nat>, value: string, k: nat, id: Symbol)
    requires Tree(nodes, at) && Walkable(nodes, at, value) && k < |nodes|
    ensures var nodes' := nodes[k := nodes[k].(ids := nodes[k].ids - {id})];
            Tree(nodes', at) && Walkable(nodes', at, value)
  {
    TouchedTree(nodes, at, k, nodes[k].(ids := nodes[k].ids - {id}));
  }

  lemma DeletingStart(nodes: seq<TrieNode>, at: map<string, nat>, words: set<string>, live: map<Symbol, string>,
                      value: string, id: Symbol)
    requires Tree(nodes, at) && Means(nodes, at, words, live)
    ensures Deleting(nodes, at, words, live, value, id, 0, 0)
  {
  }

  /** Without its symbol on the next node, the deletion stands one step further. */
  lemma DeletingStep(nodes: seq<TrieNode>, at: map<string, nat>, words: set<string>, live: map<Symbol, string>,
                     value: string, id: Symbol, i: nat, n: nat)
    requires i < |value| && Deleting(nodes, at, words, live, value, id, i, n)
    requires value[i] in nodes[n].next
    ensures var next := nodes[n].next[value[i]];
            next < |nodes| &&
            Deleting(nodes[next := nodes[next].(ids := nodes[next].ids - {id})], at, words, live, value, id,
                     i + 1, next)
  {
    var next := nodes[n].next[value[i]];
    var nodes' := nodes[next := nodes[next].(ids := nodes[next].ids - {id})];
    assert Child(value[..i], value[i]) == value[..i + 1];
    TouchedTree(nodes, at, next, nodes'[next]);
    forall k | 0 <= k < |nodes'| ensures ErasedRecord(nodes'[k], words, live, id, value[..i + 1]) {
      PrefixStep(nodes[k].prefix, value, i);
      assert ErasedRecord(nodes[k], words, live, id, value[..i]);
      if k == next {
        assert IdsAt(live - {id}, nodes[k].prefix) == IdsAt(live, nodes[k].prefix) - {id};
      } else {
        assert nodes[k].prefix != nodes[next].prefix;
      }
    }
  }

  /** A deletion that cannot go further has reached every node it must change. */
  lemma DeletingEnd(nodes: seq<TrieNode>, at: map<string, nat>, words: set<string>, live: map<Symbol, string>,
                    value: string, id: Symbol, i: nat, n: nat)
    requires Deleting(nodes, at, words, live, value, id, i, n)
    requires i == |value| || nodes[n].next == map[]
    requires forall s :: s in live ==> live[s] in words
    requires id in live ==> live[id] == value
    ensures Means(nodes, at, words, live - {id})
  {
    forall k | 0 <= k < |nodes| ensures Records(nodes[k], words, live - {id}) {
      var p := nodes[k].prefix;
      assert ErasedRecord(nodes[k], words, live, id, value[..i]);
      if !(p <= value[..i]) && id in live && p <= value {
        assert Child(value[..i], value[i]) == value[..i + 1] == p[..i + 1];
        assert Stored(words, value[..i + 1]);
        assert false;
      }
    }
  }

  // ----- lookups -----

  lemma StoredDownwards(words: set<string>, p: string, q: string)
    requires Stored(words, q) && p <= q
    ensures Stored(words, p)
  {
  }

  ghost predicate NoDuplicates<T>(s: seq<T>) {
    forall i, j :: 0 <= i < j < |s| ==> s[i] != s[j]
  }

  lemma NoDuplicatesConcat<T>(a: seq<T>, b: seq<T>)
    requires NoDuplicates(a) && NoDuplicates(b)
    requires forall x :: x in b ==> x !in a
    ensures NoDuplicates(a + b)
  {
    forall i, j | 0 <= i < j < |a + b| ensures (a + b)[i] != (a + b)[j] {
      if i < |a| <= j {
        assert b[j - |a|] in b;
      }
    }
  }

  lemma WordGoesOn(nodes: seq<TrieNode>, at: map<string, nat>, words: set<string>, n: nat, w: string)
    requires Tree(nodes, at) && (forall p :: p in at <==> Stored(words, p)) && n < |nodes|
    requires w in words && nodes[n].prefix <= w && w != nodes[n].prefix
    ensures |nodes[n].prefix| < |w| && w[|nodes[n].prefix|] in nodes[n].next
  {
    var p := nodes[n].prefix;
    assert Child(p, w[|p|]) == w[..|p| + 1];
    assert Stored(words, w[..|p| + 1]);
  }

  /** The words at and below `p` have been collected, except those that go on with a character in `todo`. */
  ghost predicate Collected(words: set<string>, p: string, todo: set<char>, matches: seq<string>) {
    && NoDuplicates(matches)
    && forall w :: w in matches <==> w in words && w != "" && p <= w && (|w| == |p| || w[|p|] !in todo)
  }

  lemma CollectStart(nodes: seq<TrieNode>, at: map<string, nat>, words: set<string>, live: map<Symbol, string>, n: nat,
                     matches: seq<string>)
    requires Tree(nodes, at) && Means(nodes, at, words, live) && n < |nodes|
    requires matches == if nodes[n].value != "" then [nodes[n].value] else []
    ensures Collected(words, nodes[n].prefix, nodes[n].next.Keys, matches)
  {
    assert Records(nodes[n], words, live);
    var p := nodes[n].prefix;
    forall w | w in words && p <= w && w != p ensures |p| < |w| && w[|p|] in nodes[n].next {
      WordGoesOn(nodes, at, words, n, w);
    }
  }

  lemma CollectMore(words: set<string>, p: string, todo: set<char>, matches: seq<string>, ch: char, more: seq<string>)
    requires Collected(words, p, todo, matches) && ch in todo
    requires NoDuplicates(more)
    requires forall w :: w in more <==> w in words && w != "" && Child(p, ch) <= w
    ensures Collected(words, p, todo - {ch}, matches + more)
  {
    forall w ensures Child(p, ch) <= w <==> p <= w && |p| < |w| && w[|p|] == ch {
      if Child(p, ch) <= w {
        assert w[|p|] == Child(p, ch)[|p|] && p == w[..|p|];
      }
    }
    NoDuplicatesConcat(matches, more);
  }

  /** `suffix` is a non-empty ending of `w`, and not the whole of it. */
  predicate IsProperSuffix(suffix: string, w: string) {
    0 < |suffix| < |w| && w[|w| - |suffix|..] == suffix
  }

  function Stem(suffix: string, w: string): string
    requires |suffix| <= |w|
  {
    w[..|w| - |suffix|]
  }

  /** As `Collected`, for the words with a given proper suffix whose stem lies at or below `p`. */
  ghost predicate Gathered(words: set<string>, p: string, suffix: string, todo: set<char>, matches: seq<string>) {
    && NoDuplicates(matches)
    && forall w :: w in matches <==>
         w in words && IsProperSuffix(suffix, w) && p <= Stem(suffix, w) &&
         (|Stem(suffix, w)| == |p| || Stem(suffix, w)[|p|] !in todo)
  }

  lemma GatherStart(nodes: seq<TrieNode>, at: map<string, nat>, words: set<string>, live: map<Symbol, string>, n: nat,
                    suffix: string, matches: seq<string>)
    requires Tree(nodes, at) && Means(nodes, at, words, live) && n < |nodes|
    requires matches == if suffix in nodes[n].suffixes then [nodes[n].prefix + suffix] else []
    ensures Gathered(words, nodes[n].prefix, suffix, nodes[n].next.Keys, matches)
  {
    var p := nodes[n].prefix;
    assert Records(nodes[n], words, live);
    assert (p + suffix)[|p|..] == suffix;
    forall w ensures w in matches <==> w in words && IsProperSuffix(suffix, w) && Stem(suffix, w) == p {
      if w in words && IsProperSuffix(suffix, w) && Stem(suffix, w) == p {
        assert w == p + suffix;
        assert p <= w && w[|p|..] == suffix;
      }
      if w in matches {
        var u :| u in words && p != "" && p <= u && p != u && u[|p|..] == suffix;
        assert u == p + suffix == w;
      }
    }
    forall w | w in words && IsProperSuffix(suffix, w) && p <= Stem(suffix, w) && Stem(suffix, w) != p
      ensures |p| < |Stem(suffix, w)| && Stem(suffix, w)[|p|] in nodes[n].next
    {
      assert p == w[..|p|];
      WordGoesOn(nodes, at, words, n, w);
    }
  }

  lemma GatherMore(words: set<string>, p: string, suffix: string, todo: set<char>, matches: seq<string>, ch: char,
                   more: seq<string>)
    requires Gathered(words, p, suffix, todo, matches) && ch in todo
    requires NoDuplicates(more)
    requires forall w :: w in more <==> w in words && IsProperSuffix(suffix, w) && Child(p, ch) <= Stem(suffix, w)
    ensures Gathered(words, p, suffix, todo - {ch}, matches + more)
  {
    forall w | IsProperSuffix(suffix, w)
      ensures var q := Stem(suffix, w); Child(p, ch) <= q <==> p <= q && |p| < |q| && q[|p|] == ch
    {
      var q := Stem(suffix, w);
      if Child(p, ch) <= q {
        assert q[|p|] == Child(p, ch)[|p|] && p == q[..|p|];
      }
    }
    NoDuplicatesConcat(matches, more);
  }

  /** The places of the nodes at and below a string. */
  ghost function Below(nodes: seq<TrieNode>, p: string): set<nat> {
    set i: nat | i < |nodes| && p <= nodes[i].prefix
  }

  lemma BelowChild(nodes: seq<TrieNode>, at: map<string, nat>, n: nat, ch: char)
    requires Tree(nodes, at) && n < |nodes| && ch in nodes[n].next
    ensures nodes[n].next[ch] < |nodes| && nodes[nodes[n].next[ch]].prefix == Child(nodes[n].prefix, ch)
    ensures Below(nodes, nodes[nodes[n].next[ch]].prefix) < Below(nodes, nodes[n].prefix)
  {
    var child := nodes[n].next[ch];
    assert nodes[child].prefix[..|nodes[n].prefix|] == nodes[n].prefix;
    forall i | i in Below(nodes, nodes[child].prefix) ensures i in Below(nodes, nodes[n].prefix) {
      assert nodes[n].prefix == nodes[i].prefix[..|nodes[n].prefix|];
    }
    assert n in Below(nodes, nodes[n].prefix) && n !in Below(nodes, nodes[child].prefix);
  }

  class Trie {
    var nodes: seq<TrieNode>
    ghost var at: map<string, nat>
    ghost var words: set<string>
    ghost var live: map<Symbol, string>

    ghost predicate Valid()
      reads this
    {
      Tree(nodes, at) && Means(nodes, at, words, live)
    }

    ghost predicate Linked()
      reads this
    {
      Links(nodes)
    }

    constructor ()
      ensures Valid() && Linked()
      ensures words == {} && live == map[]
    {
      nodes, at := [NewNode('R')], map["" := 0];
      words, live := {}, map[];
    }

    /** Moves from `n` to its child along `ch`, creating and updating the child on the way. */
    method StepDown(n: nat, prefix: string, ch: char, rest: string, id: MaybeSymbol) returns (next: nat)
      requires Steppable(nodes, n, prefix, ch)
      modifies this`nodes
      ensures nodes == Step(old(nodes), n, ch, id, rest) && next == ChildPlace(old(nodes), n, ch)
    {
      if ch !in nodes[n].next {
        nodes := nodes[n := nodes[n].(next := nodes[n].next[ch := |nodes|])] + [NewNode(ch)];
      }
      next := nodes[n].next[ch];
      if id.JustSymbol? {
        nodes := nodes[next := nodes[next].(depth := nodes[n].depth + 1, parent := n, ids := nodes[next].ids + {id.s})];
      }
      nodes := nodes[next := nodes[next].(prefix := prefix + [ch])];
      if rest != "" {
        nodes := nodes[next := nodes[next].(suffixes := nodes[next].suffixes + {rest})];
      }
      ghost var grown := Grown(old(nodes), n, ch);
      assert nodes[next] == Touched(grown[next], grown[n].depth + 1, n, id, rest);
    }

    /** Inserts a word, with or without a symbol. */
    method Insert(value: string, id: MaybeSymbol)
      requires Valid() && Consistent(live, id, value)
      requires id.JustSymbol? ==> Linked()
      modifies this
      ensures Valid() && (id.JustSymbol? ==> Linked())
      ensures words == old(words) + {value} && live == WithKey(old(live), id, value)
    {
      hide Tree, Links, Threaded, Stored, SuffixesAt, IdsAt;
      var n: nat := 0;
      var prefix := "";
      var i := 0;
      InsertingStart(nodes, at, words, live, value, id);
      while i < |value|
        invariant 0 <= i <= |value| && prefix == value[..i]
        invariant words == old(words) && live == old(live)
        invariant Inserting(nodes, at, words, live, value, id, i, n)
      {
        InsertingStep(nodes, at, words, live, value, id, i, n);
        ghost var child := ChildPlace(nodes, n, value[i]);
        n := StepDown(n, prefix, value[i], value[i + 1..], id);
        prefix := prefix + [value[i]];
        at := at[value[..i + 1] := child];
        i := i + 1;
      }
      ThreadedToTheEnd(nodes, at, words, live, value, id, n);
      nodes := nodes[n := nodes[n].(value := value)];
      words, live := words + {value}, WithKey(live, id, value);
    }

    /** Takes a symbol off the nodes along its key. Nodes, words and suffixes stay. */
    method Delete(value: string, id: Symbol)
      requires Valid() && Erasable(words, value)
      requires id in live ==> live[id] == value
      modifies this`nodes, this`live
      ensures Valid() && (old(Linked()) ==> Linked())
      ensures live == old(live) - {id}
    {
      hide Stored, SuffixesAt, IdsAt, Tree, Walkable, ErasedRecord, Erasable;
      var n: nat := 0;
      var i := 0;
      WalkableIffErasable(nodes, at, words, value);
      DeletingStart(nodes, at, words, live, value, id);
      while i < |value|
        invariant 0 <= i <= |value|
        invariant Deleting(nodes, at, words, live, value, id, i, n)
        invariant Walkable(nodes, at, value) && (old(Linked()) ==> Linked())
        invariant live == old(live) && words == old(words)
      {
        if nodes[n].next == map[] {
          DeletingEnd(nodes, at, words, live, value, id, i, n);
          live := live - {id};
          return;
        }
        WalkGoesOn(nodes, at, value, i, n);
        DeletingStep(nodes, at, words, live, value, id, i, n);
        StillWalkable(nodes, at, value, nodes[n].next[value[i]], id);
        var next := nodes[n].next[value[i]];
        nodes := nodes[next := nodes[next].(ids := nodes[next].ids - {id})];
        n := next;
        i := i + 1;
      }
      DeletingEnd(nodes, at, words, live, value, id, i, n);
      live := live - {id};
    }

    /** The node that the whole of `prefix` leads to; `found` is false when there is none. */
    method GetPrefixRootNode(prefix: string) returns (found: bool, n: nat)
      requires Valid()
      ensures found <==> prefix in at
      ensures found ==> n == at[prefix]
    {
      n, found := 0, true;
      var i := 0;
      while i < |prefix|
        invariant 0 <= i <= |prefix|
        invariant prefix[..i] in at && n == at[prefix[..i]]
      {
        assert Child(prefix[..i], prefix[i]) == prefix[..i + 1];
        if prefix[i] !in nodes[n].next {
          assert prefix !in at by {
            if prefix in at {
              assert prefix[..i + 1] <= prefix;
              StoredDownwards(words, prefix[..i + 1], prefix);
            }
          }
          found := false;
          return;
        }
        n := nodes[n].next[prefix[i]];
        i := i + 1;
      }
      assert prefix[..i] == prefix;
    }

    /** Every inserted word that starts with `prefix`, once each; the empty word is never among them. */
    method PrefixMatch(prefix: string) returns (matches: seq<string>)
      requires Valid()
      ensures forall w :: w in matches <==> w in words && w != "" && prefix <= w
      ensures NoDuplicates(matches)
    {
      var found, n := GetPrefixRootNode(prefix);
      if found {
        matches := CollectValues(n);
      } else {
        matches := [];
        assert forall w :: w in words && prefix <= w ==> Stored(words, prefix);
      }
    }

    /** The words at and below a node, in the order of the walk. */
    method CollectValues(n: nat) returns (matches: seq<string>)
      requires Valid() && n < |nodes|
      ensures forall w :: w in matches <==> w in words && w != "" && nodes[n].prefix <= w
      ensures NoDuplicates(matches)
      decreases Below(nodes, nodes[n].prefix)
    {
      hide Tree, Means;
      var p := nodes[n].prefix;
      matches := if nodes[n].value != "" then [nodes[n].value] else [];
      var todo := nodes[n].next.Keys;
      CollectStart(nodes, at, words, live, n, matches);
      while todo != {}
        invariant todo <= nodes[n].next.Keys
        invariant Collected(words, p, todo, matches)
        decreases todo
      {
        var ch :| ch in todo;
        var child := nodes[n].next[ch];
        BelowChild(nodes, at, n, ch);
        var more := CollectValues(child);
        CollectMore(words, p, todo, matches, ch, more);
        matches := matches + more;
        todo := todo - {ch};
      }
    }

    /** Every inserted word of which `suffix` is a proper suffix, once each. */
    method SuffixMatch(suffix: string) returns (matches: seq<string>)
      requires Valid()
      ensures forall w :: w in matches <==> w in words && IsProperSuffix(suffix, w)
      ensures NoDuplicates(matches)
    {
      matches := GatherSuffixes(0, suffix);
    }

    method GatherSuffixes(n: nat, suffix: string) returns (matches: seq<string>)
      requires Valid() && n < |nodes|
      ensures forall w :: w in matches <==>
        w in words && IsProperSuffix(suffix, w) && nodes[n].prefix <= Stem(suffix, w)
      ensures NoDuplicates(matches)
      decreases Below(nodes, nodes[n].prefix)
    {
      hide Tree, Means;
      var p := nodes[n].prefix;
      matches := if suffix in nodes[n].suffixes then [nodes[n].prefix + suffix] else [];
      var todo := nodes[n].next.Keys;
      GatherStart(nodes, at, words, live, n, suffix, matches);
      while todo != {}
        invariant todo <= nodes[n].next.Keys
        invariant Gathered(words, p, suffix, todo, matches)
        decreases todo
      {
        var ch :| ch in todo;
        var child := nodes[n].next[ch];
        BelowChild(nodes, at, n, ch);
        var more := GatherSuffixes(child, suffix);
        GatherMore(words, p, suffix, todo, matches, ch, more);
        matches := matches + more;
        todo := todo - {ch};
      }
    }
  }
}
