/** Range queries over a trie whose keys are zero-filled positions of one width. */
module PosSearch {
  import opened Symbols
  import opened Arithmetic
  import opened Decimals
  import opened Tries

  /** How many digits the file, line and column part of a key have. */
  datatype PosLimits = PosLimits(file: nat, line: nat, column: nat) {
    function Width(): nat {
      file + line + column
    }

    predicate Fits(pos: Position) {
      pos.fileID < Pow10(file) && pos.line < Pow10(line) && pos.column < Pow10(column)
    }

    predicate Sane() {
      file > 0 && line > 0 && column > 0
    }
  }

  const DEFAULT_LIMITS := PosLimits(4, 5, 5)

  /** Widens the limits so that they can hold the three maxima of a package. */
  function UpdatePosLimit(limits: PosLimits, fileId: nat, line: nat, column: nat): PosLimits {
    var digitsFile, digitsLine, digitsColumn := |FillZero(fileId, 0)|, |FillZero(line, 0)|, |FillZero(column, 0)|;
    PosLimits(
      if digitsFile > limits.file then digitsFile else limits.file,
      if digitsLine > limits.line then digitsLine else limits.line,
      if digitsColumn > limits.column then digitsColumn else limits.column)
  }

  lemma {:induction false} Pow10Monotone(j: nat, k: nat)
    requires j <= k
    ensures Pow10(j) <= Pow10(k)
  {
    if j < k {
      Pow10Monotone(j, k - 1);
    }
  }

  /** After the update every position within the maxima fits, and what fitted before still does. */
  lemma UpdatedLimitsFit(limits: PosLimits, fileId: nat, line: nat, column: nat, pos: Position)
    requires limits.Sane()
    requires limits.Fits(pos) || (pos.fileID <= fileId && pos.line <= line && pos.column <= column)
    ensures UpdatePosLimit(limits, fileId, line, column).Sane()
    ensures UpdatePosLimit(limits, fileId, line, column).Fits(pos)
  {
    var l := UpdatePosLimit(limits, fileId, line, column);
    Pow10Monotone(limits.file, l.file);
    Pow10Monotone(limits.line, l.line);
    Pow10Monotone(limits.column, l.column);
    DecimalLength(fileId, l.file);
    DecimalLength(line, l.line);
    DecimalLength(column, l.column);
  }

  function PosToStr(limits: PosLimits, pos: Position): string {
    FillZero(pos.fileID, limits.file) + FillZero(pos.line, limits.line) + FillZero(pos.column, limits.column)
  }

  lemma PosToStrParts(limits: PosLimits, pos: Position)
    requires limits.Sane() && limits.Fits(pos)
    ensures PosToStr(limits, pos) ==
            Padded(pos.fileID, limits.file) + Padded(pos.line, limits.line) + Padded(pos.column, limits.column)
    ensures |PosToStr(limits, pos)| == limits.Width()
  {
    FillZeroIsPadded(pos.fileID, limits.file);
    FillZeroIsPadded(pos.line, limits.line);
    FillZeroIsPadded(pos.column, limits.column);
  }

  /** Keys of one file are ordered as the positions are. */
  lemma KeyOrder(limits: PosLimits, p: Position, q: Position)
    requires limits.Sane() && limits.Fits(p) && limits.Fits(q) && p.fileID == q.fileID
    ensures p.Before(q) <==> LexLess(PosToStr(limits, p), PosToStr(limits, q))
    ensures p.SamePlace(q) <==> PosToStr(limits, p) == PosToStr(limits, q)
  {
    PosToStrParts(limits, p);
    PosToStrParts(limits, q);
    if p.Before(q) {
      KeyOrderBefore(limits, p, q);
      LexLessAsymmetric(PosToStr(limits, p), PosToStr(limits, q));
    } else if q.Before(p) {
      KeyOrderBefore(limits, q, p);
      LexLessAsymmetric(PosToStr(limits, q), PosToStr(limits, p));
    } else if LexLess(PosToStr(limits, p), PosToStr(limits, q)) {
      LexLessAsymmetric(PosToStr(limits, p), PosToStr(limits, q));
    }
  }

  lemma KeyOrderBefore(limits: PosLimits, p: Position, q: Position)
    requires limits.Sane() && limits.Fits(p) && limits.Fits(q) && p.fileID == q.fileID && p.Before(q)
    ensures LexLess(PosToStr(limits, p), PosToStr(limits, q))
  {
    hide PosToStr, Padded, LexLess, Pow10;
    PosToStrParts(limits, p);
    PosToStrParts(limits, q);
    var f := Padded(p.fileID, limits.file);
    var pl, ql := Padded(p.line, limits.line), Padded(q.line, limits.line);
    var pc, qc := Padded(p.column, limits.column), Padded(q.column, limits.column);
    if p.line < q.line {
      PaddedOrder(p.line, q.line, limits.line);
      LexLessLeft(pl, ql, pc, qc);
    } else {
      PaddedOrder(p.column, q.column, limits.column);
      LexLessRight(pl, pc, qc);
    }
    LexLessRight(f, pl + pc, ql + qc);
    assert f + (pl + pc) == f + pl + pc && f + (ql + qc) == f + ql + qc;
  }

  // ----- which symbols a range query is about -----

  /** The keys agree on the first `k` characters. */
  predicate Share(a: string, b: string, k: nat) {
    k <= |a| && k <= |b| && a[..k] == b[..k]
  }

  /**
   * In the reach of `key` and above it, or on it when closed. A position that the widths do not hold has a longer key,
   * and then the keys on it are those that it starts with.
   */
  ghost predicate IsAbove(limits: PosLimits, key: string, other: string, isClose: bool) {
    Share(key, other, limits.file + 1) && (LexLess(key, other) || (isClose && other <= key))
  }

  ghost predicate IsBelow(limits: PosLimits, key: string, other: string, isClose: bool) {
    Share(key, other, limits.file + 1) && (LexLess(other, key) || (isClose && other <= key))
  }

  ghost function GreaterIds(live: map<Symbol, string>, limits: PosLimits, key: string, isClose: bool): set<Symbol> {
    set s | s in live && IsAbove(limits, key, live[s], isClose)
  }

  ghost function LessIds(live: map<Symbol, string>, limits: PosLimits, key: string, isClose: bool): set<Symbol> {
    set s | s in live && IsBelow(limits, key, live[s], isClose)
  }

  /** All keys of the trie have the width that the limits give. */
  ghost predicate Uniform(words: set<string>, limits: PosLimits) {
    forall w :: w in words ==> |w| == limits.Width()
  }

  /** The node of the longest stored prefix of a key. */
  method FindCommonRootInPosTrie(posTrie: Trie, pos: string) returns (n: nat, ghost m: nat)
    requires posTrie.Valid()
    ensures m <= |pos| && pos[..m] in posTrie.at && n == posTrie.at[pos[..m]]
    ensures m < |pos| ==> pos[..m + 1] !in posTrie.at
    ensures n < |posTrie.nodes| && posTrie.nodes[n].prefix == pos[..m]
    ensures var prefix := posTrie.nodes[n].prefix;
            prefix <= pos && (prefix == pos || pos[|prefix|] !in posTrie.nodes[n].next)
  {
    n, m := 0, 0;
    var i := 0;
    while i < |pos|
      invariant 0 <= i <= |pos| && m == i
      invariant pos[..i] in posTrie.at && n == posTrie.at[pos[..i]]
    {
      assert Child(pos[..i], pos[i]) == pos[..i + 1];
      if pos[i] !in posTrie.nodes[n].next {
        return;
      }
      n := posTrie.nodes[n].next[pos[i]];
      i := i + 1;
      m := i;
    }
  }

  /** The symbols of `live` whose key goes on from `p` with a character of `chs`. */
  ghost function Branching(live: map<Symbol, string>, p: string, chs: set<char>): set<Symbol> {
    set s | s in live && |p| < |live[s]| && p <= live[s] && live[s][|p|] in chs
  }

  lemma BranchingMore(live: map<Symbol, string>, p: string, chs: set<char>, ch: char)
    ensures Branching(live, p, chs + {ch}) == Branching(live, p, chs) + IdsAt(live, Child(p, ch))
  {
    forall s | s in live
      ensures |p| < |live[s]| && p <= live[s] && live[s][|p|] == ch <==> Child(p, ch) <= live[s]
    {
      if Child(p, ch) <= live[s] {
        assert live[s][|p|] == Child(p, ch)[|p|] && p == live[s][..|p|];
      }
    }
  }

  /** Adds the symbols below the children along `chs`. */
  method UnionOfChildren(posTrie: Trie, n: nat, chs: set<char>, ids0: set<Symbol>) returns (ids: set<Symbol>)
    requires posTrie.Valid() && n < |posTrie.nodes| && chs <= posTrie.nodes[n].next.Keys
    ensures ids == ids0 + Branching(posTrie.live, posTrie.nodes[n].prefix, chs)
  {
    ids := ids0;
    var todo := chs;
    ghost var p := posTrie.nodes[n].prefix;
    while todo != {}
      invariant todo <= chs
      invariant ids == ids0 + Branching(posTrie.live, p, chs - todo)
      decreases todo
    {
      var ch :| ch in todo;
      assert posTrie.nodes[n].next[ch] < |posTrie.nodes|;
      assert Records(posTrie.nodes[posTrie.nodes[n].next[ch]], posTrie.words, posTrie.live);
      BranchingMore(posTrie.live, p, chs - todo, ch);
      assert chs - (todo - {ch}) == (chs - todo) + {ch};
      ids := ids + posTrie.nodes[posTrie.nodes[n].next[ch]].ids;
      todo := todo - {ch};
    }
    assert chs - todo == chs;
  }

  // ----- the climb from the common root -----

  /** The symbols whose key leaves `key` upwards after `m` characters or more. */
  ghost function AboveFrom(live: map<Symbol, string>, key: string, m: nat): set<Symbol> {
    set s | s in live && exists d: nat :: m <= d && DivergesAt(key, live[s], d)
  }

  /** The symbols whose key leaves `key` downwards after `m` characters or more. */
  ghost function BelowFrom(live: map<Symbol, string>, key: string, m: nat): set<Symbol> {
    set s | s in live && exists d: nat :: m <= d && DivergesAt(live[s], key, d)
  }

  ghost function OnKey(live: map<Symbol, string>, key: string): set<Symbol> {
    set s | s in live && live[s] <= key
  }

  /** All symbols have keys of one width, which the key in question may exceed. */
  ghost predicate AllWide(live: map<Symbol, string>, width: nat) {
    forall s :: s in live ==> |live[s]| == width
  }

  /** What a climb keeps: it stands at a node on the way to the key, and no stored key follows it further. */
  ghost predicate Climbing(posTrie: Trie, key: string, n: nat, m: nat, floor: nat)
    reads posTrie
  {
    && m <= |key| && key[..m] in posTrie.at && n == posTrie.at[key[..m]]
    && (m >= floor || (m < |key| && key[..m + 1] !in posTrie.at))
  }

  lemma ClimbFacts(posTrie: Trie, key: string, n: nat, m: nat, floor: nat)
    requires posTrie.Valid() && posTrie.Linked() && Climbing(posTrie, key, n, m, floor)
    ensures m <= |key| && n < |posTrie.nodes| && posTrie.nodes[n].prefix == key[..m] && posTrie.nodes[n].depth == m
  {
  }

  /** Keys cannot diverge behind their width. */
  lemma NothingAtTheTop(live: map<Symbol, string>, key: string, width: nat)
    requires AllWide(live, width)
    ensures AboveFrom(live, key, width + 1) == AboveFrom(live, key, width)
    ensures BelowFrom(live, key, width + 1) == BelowFrom(live, key, width)
  {
  }

  lemma ClimbUp(posTrie: Trie, key: string, n: nat, m: nat, floor: nat)
    requires posTrie.Valid() && posTrie.Linked() && Climbing(posTrie, key, n, m, floor) && m > floor
    ensures n < |posTrie.nodes| && Climbing(posTrie, key, posTrie.nodes[n].parent, m - 1, floor)
  {
    assert Child(key[..m - 1], key[m - 1]) == key[..m];
  }

  /** No live key follows the key past a prefix that is not stored. */
  lemma NoneBeyond(posTrie: Trie, key: string, m: nat, s: Symbol)
    requires posTrie.Valid() && m < |key| && key[..m + 1] !in posTrie.at && s in posTrie.live
    ensures !(key[..m + 1] <= posTrie.live[s])
    ensures m < |posTrie.live[s]| ==> !(posTrie.live[s] <= key)
    ensures forall d: nat :: m < d ==> !DivergesAt(key, posTrie.live[s], d) && !DivergesAt(posTrie.live[s], key, d)
  {
    assert !Stored(posTrie.words, key[..m + 1]);
    assert key[..m + 1] <= key;
    forall d: nat | m < d
      ensures !DivergesAt(key, posTrie.live[s], d) && !DivergesAt(posTrie.live[s], key, d)
    {
      if d < |key| && d < |posTrie.live[s]| {
        assert key[..m + 1] == key[..d][..m + 1] && posTrie.live[s][..m + 1] == posTrie.live[s][..d][..m + 1];
      }
    }
  }

  /** Below a node, a live key goes on with a character that has a child. */
  lemma LiveGoesOn(posTrie: Trie, n: nat, s: Symbol)
    requires posTrie.Valid() && n < |posTrie.nodes| && s in posTrie.live
    requires posTrie.nodes[n].prefix <= posTrie.live[s] && posTrie.nodes[n].prefix != posTrie.live[s]
    ensures |posTrie.nodes[n].prefix| < |posTrie.live[s]|
    ensures posTrie.live[s][|posTrie.nodes[n].prefix|] in posTrie.nodes[n].next
  {
    WordGoesOn(posTrie.nodes, posTrie.at, posTrie.words, n, posTrie.live[s]);
  }

  /** What one level of the climb adds for `>`: the branches above the key, and the key itself when asked for. */
  lemma LevelAbove(posTrie: Trie, key: string, width: nat, n: nat, m: nat, floor: nat, isClose: bool, chs: set<char>)
    requires posTrie.Valid() && Climbing(posTrie, key, n, m, floor) && m < width <= |key|
    requires AllWide(posTrie.live, width)
    requires isClose ==> m == width - 1 || key[..m + 1] !in posTrie.at
    requires n < |posTrie.nodes| && chs == set ch | ch in posTrie.nodes[n].next &&
      (key[m] < ch || (isClose && key[m] == ch))
    ensures AboveFrom(posTrie.live, key, m + 1) + Branching(posTrie.live, key[..m], chs) ==
            AboveFrom(posTrie.live, key, m) + if isClose then OnKey(posTrie.live, key) else {}
  {
    var live := posTrie.live;
    assert key[..m] <= key;
    forall s | s in live
      ensures s in Branching(live, key[..m], chs) <==>
              DivergesAt(key, live[s], m) || (isClose && live[s] <= key)
    {
      if key[..m] <= live[s] {
        LiveGoesOn(posTrie, n, s);
        if live[s][m] == key[m] {
          assert key[..m + 1] == live[s][..m + 1];
          if isClose && m < width - 1 {
            NoneBeyond(posTrie, key, m, s);
          }
        }
      }
    }
    forall s | s in live
      ensures s in AboveFrom(live, key, m) <==> DivergesAt(key, live[s], m) || s in AboveFrom(live, key, m + 1)
    {
    }
  }

  /** A climb that has reached the file part has collected the keys in reach that leave the key, and not those on it. */
  lemma ClimbDone(posTrie: Trie, limits: PosLimits, key: string, n: nat, m: nat, isClose: bool)
    requires posTrie.Valid() && limits.Sane() && |key| >= limits.Width() && m <= limits.file
    requires AllWide(posTrie.live, limits.Width())
    requires Climbing(posTrie, key, n, m, limits.file)
    ensures GreaterIds(posTrie.live, limits, key, isClose) ==
            AboveFrom(posTrie.live, key, m + 1) + if isClose then OnKey(posTrie.live, key) else {}
    ensures LessIds(posTrie.live, limits, key, isClose) ==
            BelowFrom(posTrie.live, key, m + 1) + if isClose then OnKey(posTrie.live, key) else {}
  {
    hide Share, LexLess;
    forall s | s in posTrie.live
      ensures s in AboveFrom(posTrie.live, key, m + 1) <==>
              Share(key, posTrie.live[s], limits.file + 1) && LexLess(key, posTrie.live[s])
      ensures s in BelowFrom(posTrie.live, key, m + 1) <==>
              Share(key, posTrie.live[s], limits.file + 1) && LexLess(posTrie.live[s], key)
      ensures posTrie.live[s] <= key ==> Share(key, posTrie.live[s], limits.file + 1)
    {
      if m < limits.file {
        NoneBeyond(posTrie, key, m, s);
      }
      LeavesInReach(key, posTrie.live[s], limits.file, m);
    }
  }

  /** Two keys diverge behind the file part when they share it and one more character. */
  lemma LeavesInReach(key: string, other: string, file: nat, m: nat)
    requires file < |other| && file < |key| && m <= file
    requires m < file ==> !(key[..m + 1] <= other)
    requires m < file ==> forall d: nat :: m < d ==> !DivergesAt(key, other, d) && !DivergesAt(other, key, d)
    ensures (exists d: nat :: m + 1 <= d && DivergesAt(key, other, d)) <==>
      Share(key, other, file + 1) && LexLess(key, other)
    ensures (exists d: nat :: m + 1 <= d && DivergesAt(other, key, d)) <==>
      Share(key, other, file + 1) && LexLess(other, key)
    ensures other <= key ==> Share(key, other, file + 1)
  {
    var k := file + 1;
    if m < file {
      assert key[..k][..m + 1] == key[..m + 1] && other[..k][..m + 1] == other[..m + 1];
    } else {
      forall d: nat ensures DivergesAt(key, other, d) || DivergesAt(other, key, d) ==>
        (k <= d <==> Share(key, other, k)) {
        if k <= d < |key| && d < |other| {
          assert key[..d][..k] == key[..k] && other[..d][..k] == other[..k];
        } else if d < k {
          assert key[..k][d] == key[d] && other[..k][d] == other[d];
        }
      }
    }
  }

  /** The symbols after a position within its file. */
  method GetIDsGreaterThanPos(posTrie: Trie, limits: PosLimits, pos: Position, isClose: bool) returns (ids: set<Symbol>)
    requires posTrie.Valid() && posTrie.Linked() && Uniform(posTrie.words, limits) && limits.Sane()
    ensures ids == GreaterIds(posTrie.live, limits, PosToStr(limits, pos), isClose)
  {
    hide Climbing, Tree, Means, Links, AboveFrom, BelowFrom, OnKey, Branching, BranchIsBelow, FillZero, Share, LexLess,
      GreaterIds, LessIds;
    var posStr := PosToStr(limits, pos);
    ghost var width := limits.Width();
    LiveKeysAreUniform(posTrie, limits);
    var n: nat, m: nat := FindCommonRootInPosTrie(posTrie, posStr);
    ids := {};
    var closing := isClose;
    ClimbStart(posTrie, posStr, limits, n, m);
    ClimbFacts(posTrie, posStr, n, m, limits.file);
    while posTrie.nodes[n].depth > limits.file
      invariant Climbing(posTrie, posStr, n, m, limits.file)
      invariant n < |posTrie.nodes| && m <= width && posTrie.nodes[n].depth == m &&
        posTrie.nodes[n].prefix == posStr[..m]
      invariant closing ==> isClose && (m >= width - 1 || posStr[..m + 1] !in posTrie.at)
      invariant ids == AboveFrom(posTrie.live, posStr, m + 1) +
                       if isClose && !closing then OnKey(posTrie.live, posStr) else {}
      decreases m
    {
      if posTrie.nodes[n].depth == limits.Width() {
        NothingAtTheTop(posTrie.live, posStr, width);
      } else {
        var d := posTrie.nodes[n].depth;
        var chs := set ch | ch in posTrie.nodes[n].next && (posStr[d] < ch || (closing && posStr[d] == ch));
        LevelAbove(posTrie, posStr, width, n, m, limits.file, closing, chs);
        ids := UnionOfChildren(posTrie, n, chs, ids);
        closing := false;
      }
      ClimbUp(posTrie, posStr, n, m, limits.file);
      n := posTrie.nodes[n].parent;
      m := m - 1;
      ClimbFacts(posTrie, posStr, n, m, limits.file);
    }
    ClimbDone(posTrie, limits, posStr, n, m, isClose);
    if closing {
      NotStored(posTrie, posStr, width, m);
    }
  }

  lemma NotStored(posTrie: Trie, key: string, width: nat, m: nat)
    requires posTrie.Valid() && m < width <= |key| && key[..m + 1] !in posTrie.at
    requires AllWide(posTrie.live, width)
    ensures OnKey(posTrie.live, key) == {}
  {
    forall s | s in posTrie.live ensures !(posTrie.live[s] <= key) {
      NoneBeyond(posTrie, key, m, s);
    }
  }

  lemma LiveKeysAreUniform(posTrie: Trie, limits: PosLimits)
    requires posTrie.Valid() && Uniform(posTrie.words, limits)
    ensures AllWide(posTrie.live, limits.Width())
  {
  }

  lemma ClimbStart(posTrie: Trie, key: string, limits: PosLimits, n: nat, m: nat)
    requires posTrie.Valid() && m <= |key| && key[..m] in posTrie.at && n == posTrie.at[key[..m]]
    requires limits.Sane() && limits.Width() <= |key| && Uniform(posTrie.words, limits)
    requires m < |key| ==> key[..m + 1] !in posTrie.at
    ensures m <= limits.Width() && Climbing(posTrie, key, n, m, limits.file)
    ensures AboveFrom(posTrie.live, key, m + 1) == {} && BelowFrom(posTrie.live, key, m + 1) == {}
  {
    if m < |key| {
      forall s | s in posTrie.live
        ensures s !in AboveFrom(posTrie.live, key, m + 1) && s !in BelowFrom(posTrie.live, key, m + 1)
      {
        NoneBeyond(posTrie, key, m, s);
      }
    }
  }

  /** What one level of the climb adds for `<`: the branches below the key, and its own branch when `own` is set. */
  lemma LevelBelow(posTrie: Trie, key: string, width: nat, n: nat, m: nat, floor: nat, own: bool, chs: set<char>)
    requires posTrie.Valid() && Climbing(posTrie, key, n, m, floor) && m < width <= |key|
    requires AllWide(posTrie.live, width)
    requires own ==> m == width - 1 || BranchIsBelow(posTrie.live, key, m)
    requires n < |posTrie.nodes| && chs == set ch | ch in posTrie.nodes[n].next &&
      (ch < key[m] || (own && ch == key[m]))
    ensures BelowFrom(posTrie.live, key, m + 1) + Branching(posTrie.live, key[..m], chs) ==
            BelowFrom(posTrie.live, key, m) + if own then OnKey(posTrie.live, key) else {}
  {
    var live := posTrie.live;
    assert key[..m] <= key && key[..m + 1] <= key;
    forall s | s in live
      ensures s in BelowFrom(live, key, m) <==> DivergesAt(live[s], key, m) || s in BelowFrom(live, key, m + 1)
    {
    }
    forall s | s in live
      ensures s in Branching(live, key[..m], chs) ==>
              DivergesAt(live[s], key, m) || (own && (live[s] <= key || s in BelowFrom(live, key, m + 1)))
      ensures DivergesAt(live[s], key, m) || (own && live[s] <= key) ==>
              s in Branching(live, key[..m], chs) || s in BelowFrom(live, key, m + 1)
    {
      if key[..m] <= live[s] {
        LiveGoesOn(posTrie, n, s);
        if live[s][m] == key[m] {
          assert key[..m + 1] == live[s][..m + 1];
        }
      }
    }
  }

  /** Every live key that follows the key for more than `m` characters leaves it downwards. */
  ghost predicate BranchIsBelow(live: map<Symbol, string>, key: string, m: nat)
    requires m < |key|
  {
    forall s :: s in live && key[..m + 1] <= live[s] ==> s in BelowFrom(live, key, m + 1)
  }

  /** A level without a child at or above the key's character lies below the key as a whole. */
  lemma AllBelow(posTrie: Trie, key: string, width: nat, n: nat, m: nat, floor: nat)
    requires posTrie.Valid() && Climbing(posTrie, key, n, m, floor) && 0 < m < width <= |key|
    requires AllWide(posTrie.live, width)
    requires n < |posTrie.nodes| && forall ch :: ch in posTrie.nodes[n].next ==> ch < key[m]
    ensures BranchIsBelow(posTrie.live, key, m - 1)
  {
    forall s | s in posTrie.live && key[..m] <= posTrie.live[s] ensures s in BelowFrom(posTrie.live, key, m) {
      LiveGoesOn(posTrie, n, s);
      assert DivergesAt(posTrie.live[s], key, m);
    }
  }

  /**
   * The symbols before a position within its file. The flag that asks for the position itself survives a level whose
   * children all lie below the position, and is then spent on a branch that has been collected already.
   */
  method GetIDsLessThanPos(posTrie: Trie, limits: PosLimits, pos: Position, isClose: bool) returns (ids: set<Symbol>)
    requires posTrie.Valid() && posTrie.Linked() && Uniform(posTrie.words, limits) && limits.Sane()
    ensures ids == LessIds(posTrie.live, limits, PosToStr(limits, pos), isClose)
  {
    hide Climbing, Tree, Means, Links, AboveFrom, BelowFrom, OnKey, Branching, BranchIsBelow, FillZero, Share, LexLess,
      GreaterIds, LessIds;
    var posStr := PosToStr(limits, pos);
    ghost var width := limits.Width();
    LiveKeysAreUniform(posTrie, limits);
    var n: nat, m: nat := FindCommonRootInPosTrie(posTrie, posStr);
    ids := {};
    var closing := isClose;
    ClimbStart(posTrie, posStr, limits, n, m);
    ClimbFacts(posTrie, posStr, n, m, limits.file);
    StartIsBelow(posTrie, posStr, m);
    while posTrie.nodes[n].depth > limits.file
      invariant Climbing(posTrie, posStr, n, m, limits.file)
      invariant n < |posTrie.nodes| && m <= width && posTrie.nodes[n].depth == m &&
        posTrie.nodes[n].prefix == posStr[..m]
      invariant closing ==> isClose && (m >= width - 1 || BranchIsBelow(posTrie.live, posStr, m))
      invariant ids == BelowFrom(posTrie.live, posStr, m + 1) +
                       if isClose && !closing then OnKey(posTrie.live, posStr) else {}
      decreases m
    {
      if posTrie.nodes[n].depth == limits.Width() {
        NothingAtTheTop(posTrie.live, posStr, width);
      } else {
        BelowFromGrows(posTrie.live, posStr, m);
        ids, closing := GetIDsLessThanPosOfDepth(posTrie, n, posStr, ids, closing, width, m, limits.file);
      }
      ClimbUp(posTrie, posStr, n, m, limits.file);
      n := posTrie.nodes[n].parent;
      m := m - 1;
      ClimbFacts(posTrie, posStr, n, m, limits.file);
    }
    ClimbDone(posTrie, limits, posStr, n, m, isClose);
    if closing {
      NotBelowItself(posTrie.live, posStr, width, m);
    }
  }

  lemma PrefixOfBoth(a: string, b: string, k: nat)
    requires k <= |a| && k <= |b|
    ensures a <= b ==> b[..k] <= a
  {
  }

  lemma NotBelowItself(live: map<Symbol, string>, key: string, width: nat, m: nat)
    requires m < width <= |key| && AllWide(live, width) && BranchIsBelow(live, key, m)
    ensures OnKey(live, key) == {}
  {
    forall s | s in live ensures !(live[s] <= key) {
      PrefixOfBoth(live[s], key, m + 1);
    }
  }

  lemma BelowFromGrows(live: map<Symbol, string>, key: string, m: nat)
    ensures BelowFrom(live, key, m + 1) <= BelowFrom(live, key, m)
  {
  }

  lemma StartIsBelow(posTrie: Trie, key: string, m: nat)
    requires posTrie.Valid() && m <= |key|
    requires m < |key| ==> key[..m + 1] !in posTrie.at
    ensures m < |key| ==> BranchIsBelow(posTrie.live, key, m)
  {
    if m < |key| {
      forall s | s in posTrie.live ensures !(key[..m + 1] <= posTrie.live[s]) {
        NoneBeyond(posTrie, key, m, s);
      }
    }
  }

  /** One level of the climb for `<`. */
  method GetIDsLessThanPosOfDepth(posTrie: Trie, n: nat, posStr: string, ids0: set<Symbol>, isClose: bool,
                                  ghost width: nat, ghost m: nat, ghost floor: nat)
    returns (ids: set<Symbol>, closing: bool)
    requires posTrie.Valid() && posTrie.Linked() && Climbing(posTrie, posStr, n, m, floor) && 0 < m < width <= |posStr|
    requires AllWide(posTrie.live, width)
    requires isClose ==> m == width - 1 || BranchIsBelow(posTrie.live, posStr, m)
    requires BelowFrom(posTrie.live, posStr, m + 1) <= ids0
    ensures closing ==> isClose && BranchIsBelow(posTrie.live, posStr, m - 1)
    ensures ids == ids0 + BelowFrom(posTrie.live, posStr, m) +
                   if isClose && !closing then OnKey(posTrie.live, posStr) else {}
  {
    hide Climbing, Tree, Means, Links, BelowFrom, OnKey, Branching, BranchIsBelow;
    ClimbFacts(posTrie, posStr, n, m, floor);
    var ch := posStr[posTrie.nodes[n].depth];
    var next := posTrie.nodes[n].next;
    closing := isClose;
    var own := false;
    if exists c :: c in next && ch <= c {
      if isClose {
        own := ch in next;
        closing := false;
      }
    }
    var chs := set c | c in next && (c < ch || (own && c == ch));
    ids := UnionOfChildren(posTrie, n, chs, ids0);
    if isClose && !closing {
      LevelBelow(posTrie, posStr, width, n, m, floor, true, chs);
    } else {
      LevelBelow(posTrie, posStr, width, n, m, floor, false, chs);
      if closing {
        AllBelow(posTrie, posStr, width, n, m, floor);
      }
    }
  }

  /** The symbols in the range between two positions of a file. */
  method GetIDsWithinPosXByRange(posTrie: Trie, limits: PosLimits, startPos: Position, endPos: Position,
                                 isLeftClose: bool, isRightClose: bool)
    returns (ids: set<Symbol>)
    requires posTrie.Valid() && posTrie.Linked() && Uniform(posTrie.words, limits) && limits.Sane()
    ensures ids == if endPos.AtMost(startPos) then {} else
                     GreaterIds(posTrie.live, limits, PosToStr(limits, startPos), isLeftClose) *
                     LessIds(posTrie.live, limits, PosToStr(limits, endPos), isRightClose)
  {
    ids := {};
    if endPos.AtMost(startPos) {
      return;
    }
    ids := GetIDsGreaterThanPos(posTrie, limits, startPos, isLeftClose);
    var less := GetIDsLessThanPos(posTrie, limits, endPos, isRightClose);
    ids := ids * less;
  }

  // ----- what a range query means for positions -----

  /** Two keys share the file part and one more character exactly when file and leading line digit agree. */
  lemma ShareMeans(limits: PosLimits, p: Position, q: Position)
    requires limits.Sane() && limits.Fits(p) && limits.Fits(q)
    ensures Share(PosToStr(limits, p), PosToStr(limits, q), limits.file + 1) <==>
            p.fileID == q.fileID && Leading(p.line, limits.line) == Leading(q.line, limits.line)
  {
    hide PosToStr, Padded, Pow10, Leading, Share;
    KeyHead(limits, p);
    KeyHead(limits, q);
    PaddedInjective(p.fileID, q.fileID, limits.file);
    PaddedLeading(p.line, limits.line);
    PaddedLeading(q.line, limits.line);
    ShareSplits(PosToStr(limits, p), PosToStr(limits, q), limits.file);
  }

  /** A key starts with its file part, and goes on with the leading digit of the line. */
  lemma KeyHead(limits: PosLimits, p: Position)
    requires limits.Sane() && limits.Fits(p)
    ensures |PosToStr(limits, p)| > limits.file
    ensures PosToStr(limits, p)[..limits.file] == Padded(p.fileID, limits.file)
    ensures PosToStr(limits, p)[limits.file] == Padded(p.line, limits.line)[0]
  {
    hide PosToStr, Padded, Pow10;
    PosToStrParts(limits, p);
  }

  lemma ShareSplits(a: string, b: string, k: nat)
    requires k < |a| && k < |b|
    ensures Share(a, b, k + 1) <==> a[..k] == b[..k] && a[k] == b[k]
  {
    assert a[..k + 1] == a[..k] + [a[k]] && b[..k + 1] == b[..k] + [b[k]];
  }

  /** Within reach of `q`: the same file and the same leading line digit. */
  predicate InReach(limits: PosLimits, q: Position, p: Position)
    requires limits.Sane()
  {
    p.fileID == q.fileID && Leading(p.line, limits.line) == Leading(q.line, limits.line)
  }

  /** What a range query finds, in terms of positions. */
  lemma RangeMeans(limits: PosLimits, q: Position, p: Position, isClose: bool)
    requires limits.Sane() && limits.Fits(p) && limits.Fits(q)
    ensures IsAbove(limits, PosToStr(limits, q), PosToStr(limits, p), isClose) <==>
            InReach(limits, q, p) && (q.Before(p) || (isClose && q.SamePlace(p)))
    ensures IsBelow(limits, PosToStr(limits, q), PosToStr(limits, p), isClose) <==>
            InReach(limits, q, p) && (p.Before(q) || (isClose && p.SamePlace(q)))
  {
    hide PosToStr, LexLess, Share, Leading;
    ShareMeans(limits, q, p);
    PosToStrParts(limits, p);
    PosToStrParts(limits, q);
    if p.fileID == q.fileID {
      KeyOrder(limits, q, p);
      KeyOrder(limits, p, q);
    }
  }

  /** For lines that leave the leading digit free, a range query is a plain comparison within the file. */
  lemma ReachBelowTheLeadingDigit(limits: PosLimits, q: Position, p: Position)
    requires limits.Sane()
    requires q.line < Pow10(limits.line - 1) && p.line < Pow10(limits.line - 1)
    ensures InReach(limits, q, p) <==> p.fileID == q.fileID
  {
    QuotientUnique(p.line, Pow10(limits.line - 1), 0, p.line);
    QuotientUnique(q.line, Pow10(limits.line - 1), 0, q.line);
  }

  /** Lines 9999 and 10000 of one file are out of each other's reach under the default limits. */
  lemma ReachStopsAtTheLeadingDigit()
    ensures var p, q := Position(1, 10000, 1), Position(1, 9999, 1);
            DEFAULT_LIMITS.Fits(p) && DEFAULT_LIMITS.Fits(q) && q.Before(p) && !InReach(DEFAULT_LIMITS, q, p)
  {
    assert Pow10(2) == 100;
    assert Pow10(4) == 10000 && Pow10(5) == 100000;
  }
}
