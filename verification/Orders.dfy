/** The orders in which search results are listed. */
module Orders {
  import opened Symbols
  import opened Queries

  /** The order of characters in a path is that of their codes. */
  predicate PathLess(a: string, b: string) {
    if a == "" || b == "" then a == "" && b != ""
    else if a[0] != b[0] then a[0] < b[0]
    else PathLess(a[1..], b[1..])
  }

  lemma {:induction false} PathLessTotal(a: string, b: string)
    ensures a == b ==> !PathLess(a, b)
    ensures a != b ==> (PathLess(a, b) <==> !PathLess(b, a))
  {
    if a != "" && b != "" && a[0] == b[0] {
      PathLessTotal(a[1..], b[1..]);
      assert a == [a[0]] + a[1..] && b == [b[0]] + b[1..];
    }
  }

  lemma {:induction false} PathLessTransitive(a: string, b: string, c: string)
    requires PathLess(a, b) && PathLess(b, c)
    ensures PathLess(a, c)
  {
    if a != "" && c != "" && a[0] == b[0] == c[0] {
      PathLessTransitive(a[1..], b[1..], c[1..]);
    }
  }

  /** Within one file: by begin position, the longer node first, then by kind. */
  predicate ByPlace(a: Symbol, b: Symbol) {
    if a.begin.Before(b.begin) then true
    else if a.begin.SamePlace(b.begin) then
      if a.end.SamePlace(b.end) then a.astKind < b.astKind else b.end.Before(a.end)
    else false
  }

  predicate ByNumber(a: Symbol, b: Symbol) {
    if a.begin.fileID != b.begin.fileID then a.begin.fileID < b.begin.fileID else ByPlace(a, b)
  }

  predicate ByPath(a: Symbol, b: Symbol)
    requires a.file.InCjmp() && b.file.InCjmp()
  {
    if a.file.path != b.file.path then PathLess(a.file.path, b.file.path) else ByPlace(a, b)
  }

  /** The ascending order: by path among common and specific files, and else by file number. */
  predicate PosAscLess(a: Symbol, b: Symbol) {
    if a.file.InCjmp() && b.file.InCjmp() then ByPath(a, b) else ByNumber(a, b)
  }

  predicate Less(order: Order, a: Symbol, b: Symbol) {
    match order
    case PosAsc => PosAscLess(a, b)
    case PosDesc => PosAscLess(b, a)
  }

  /** What sorting asks of an order: it is irreflexive and transitive, and so is being no less. */
  ghost predicate StrictWeak(order: Order, ids: set<Symbol>) {
    && (forall a :: a in ids ==> !Less(order, a, a))
    && (forall a, b, c :: a in ids && b in ids && c in ids && Less(order, a, b) && Less(order, b, c) ==>
       Less(order, a, c))
    && (forall a, b, c :: a in ids && b in ids && c in ids && !Less(order, a, b) && !Less(order, b, c) ==>
          !Less(order, a, c))
  }

  // ----- when the symbols of a program can be sorted -----

  /** By its file number and place, `n` lies between `x` and `y`, and not level with both. */
  predicate Separates(n: Symbol, x: Symbol, y: Symbol) {
    (ByNumber(x, n) && !ByNumber(y, n)) || (!ByNumber(n, x) && ByNumber(n, y))
  }

  predicate Level(a: Symbol, b: Symbol) {
    !ByNumber(a, b) && !ByNumber(b, a)
  }

  /**
   * Wherever a symbol of another file separates two symbols of common or specific files, the paths of those order them
   * the same way, and two that are level with it are level by path.
   */
  ghost predicate PathsAgree(ids: set<Symbol>) {
    forall x, y, n :: x in ids && y in ids && n in ids && x.file.InCjmp() && y.file.InCjmp() && !n.file.InCjmp() ==>
      (Separates(n, x, y) ==> ByPath(x, y)) && (Level(x, n) && Level(y, n) ==> !ByPath(x, y))
  }

  lemma PathFacts(p: string, q: string, r: string)
    ensures !PathLess(p, p)
    ensures p != q ==> (PathLess(p, q) <==> !PathLess(q, p))
    ensures PathLess(p, q) && PathLess(q, r) ==> PathLess(p, r)
  {
    PathLessTotal(p, p);
    PathLessTotal(p, q);
    if PathLess(p, q) && PathLess(q, r) {
      PathLessTransitive(p, q, r);
    }
  }

  lemma ByNumberStrictWeak(a: Symbol, b: Symbol, c: Symbol)
    ensures !ByNumber(a, a)
    ensures ByNumber(a, b) && ByNumber(b, c) ==> ByNumber(a, c)
    ensures !ByNumber(a, b) && !ByNumber(b, c) ==> !ByNumber(a, c)
  {
  }

  lemma ByPathStrictWeak(a: Symbol, b: Symbol, c: Symbol)
    requires a.file.InCjmp() && b.file.InCjmp() && c.file.InCjmp()
    ensures !ByPath(a, a)
    ensures ByPath(a, b) && ByPath(b, c) ==> ByPath(a, c)
    ensures !ByPath(a, b) && !ByPath(b, c) ==> !ByPath(a, c)
  {
    PathFacts(a.file.path, b.file.path, c.file.path);
    PathFacts(c.file.path, b.file.path, a.file.path);
    PathFacts(b.file.path, c.file.path, a.file.path);
    PathFacts(a.file.path, c.file.path, b.file.path);
  }

  /** The ascending order on three symbols of which two may be separated by the third. */
  lemma AscendingOnThree(ids: set<Symbol>, a: Symbol, b: Symbol, c: Symbol)
    requires PathsAgree(ids) && a in ids && b in ids && c in ids
    ensures !PosAscLess(a, a)
    ensures PosAscLess(a, b) && PosAscLess(b, c) ==> PosAscLess(a, c)
    ensures !PosAscLess(a, b) && !PosAscLess(b, c) ==> !PosAscLess(a, c)
  {
    hide ByNumber, ByPath;
    forall x, y, z | x in {a, b, c} && y in {a, b, c} && z in {a, b, c}
      ensures !ByNumber(x, x)
      ensures ByNumber(x, y) && ByNumber(y, z) ==> ByNumber(x, z)
      ensures !ByNumber(x, y) && !ByNumber(y, z) ==> !ByNumber(x, z)
    {
      ByNumberStrictWeak(x, y, z);
    }
    forall x, y, z | x in {a, b, c} && y in {a, b, c} && z in {a, b, c} &&
                     x.file.InCjmp() && y.file.InCjmp() && z.file.InCjmp()
      ensures !ByPath(x, x)
      ensures ByPath(x, y) && ByPath(y, z) ==> ByPath(x, z)
      ensures !ByPath(x, y) && !ByPath(y, z) ==> !ByPath(x, z)
    {
      ByPathStrictWeak(x, y, z);
    }
  }

  /** The searcher's orders can sort a set of symbols if and only if paths and file numbers agree on it. */
  lemma SortableIff(order: Order, ids: set<Symbol>)
    ensures StrictWeak(order, ids) <==> PathsAgree(ids)
  {
    hide ByNumber, ByPath;
    if PathsAgree(ids) {
      forall a, b, c | a in ids && b in ids && c in ids
        ensures !Less(order, a, a)
        ensures Less(order, a, b) && Less(order, b, c) ==> Less(order, a, c)
        ensures !Less(order, a, b) && !Less(order, b, c) ==> !Less(order, a, c)
      {
        AscendingOnThree(ids, a, b, c);
        AscendingOnThree(ids, c, b, a);
      }
    }
    if StrictWeak(order, ids) {
      forall x, y, n | x in ids && y in ids && n in ids && x.file.InCjmp() && y.file.InCjmp() && !n.file.InCjmp()
        ensures Separates(n, x, y) ==> ByPath(x, y)
        ensures Level(x, n) && Level(y, n) ==> !ByPath(x, y)
      {
        assert PosAscLess(x, n) == ByNumber(x, n) && PosAscLess(n, x) == ByNumber(n, x);
        assert PosAscLess(y, n) == ByNumber(y, n) && PosAscLess(n, y) == ByNumber(n, y);
        assert PosAscLess(x, y) == ByPath(x, y);
        assert Less(PosAsc, x, n) == Less(PosDesc, n, x) && Less(PosAsc, y, n) == Less(PosDesc, n, y);
      }
    }
  }

  /** All symbols come from common or specific files, or none does. */
  ghost predicate OneFamily(ids: set<Symbol>) {
    (forall s :: s in ids ==> s.file.InCjmp()) || (forall s :: s in ids ==> !s.file.InCjmp())
  }

  /** The numbers of common and specific files ascend with their paths. */
  ghost predicate NumberedByPath(ids: set<Symbol>) {
    forall x, y :: x in ids && y in ids && x.file.InCjmp() && y.file.InCjmp() ==>
      (x.begin.fileID < y.begin.fileID <==> PathLess(x.file.path, y.file.path))
  }

  lemma PathsAreNumbers(ids: set<Symbol>, x: Symbol, y: Symbol)
    requires NumberedByPath(ids) && x in ids && y in ids && x.file.InCjmp() && y.file.InCjmp()
    ensures ByPath(x, y) == ByNumber(x, y)
  {
    hide ByPlace;
    PathLessTotal(x.file.path, y.file.path);
  }

  /** Symbols of one family can be sorted, and so can all when files are numbered in the order of their paths. */
  lemma UsuallySortable(order: Order, ids: set<Symbol>)
    requires OneFamily(ids) || NumberedByPath(ids)
    ensures StrictWeak(order, ids)
  {
    hide ByNumber, ByPath;
    if NumberedByPath(ids) {
      forall x, y, n | x in ids && y in ids && n in ids && x.file.InCjmp() && y.file.InCjmp() && !n.file.InCjmp()
        ensures Separates(n, x, y) ==> ByPath(x, y)
        ensures Level(x, n) && Level(y, n) ==> !ByPath(x, y)
      {
        ByNumberStrictWeak(x, n, y);
        ByNumberStrictWeak(n, x, y);
        ByNumberStrictWeak(x, y, n);
        PathsAreNumbers(ids, x, y);
      }
    }
    SortableIff(order, ids);
  }

  /** Else the order can run in a circle. */
  lemma MixedFamiliesCycle(a: Symbol, b: Symbol, c: Symbol)
    requires a.file.InCjmp() && !b.file.InCjmp() && c.file.InCjmp()
    requires a.begin.fileID < b.begin.fileID < c.begin.fileID && PathLess(c.file.path, a.file.path)
    ensures PosAscLess(a, b) && PosAscLess(b, c) && PosAscLess(c, a)
  {
    PathLessTotal(a.file.path, c.file.path);
  }

  // ----- sorted results -----

  /** No later element comes before an earlier one. */
  ghost predicate Sorted(order: Order, s: seq<Symbol>) {
    forall i, j :: 0 <= i < j < |s| ==> !Less(order, s[j], s[i])
  }

  /** An answer lists every symbol of a set once, in order. Symbols that the order does not tell apart may swap. */
  ghost predicate IsAnswer(order: Order, s: seq<Symbol>, ids: set<Symbol>) {
    && (set x | x in s) == ids
    && (forall i, j :: 0 <= i < j < |s| ==> s[i] != s[j])
    && Sorted(order, s)
  }

  /** Two different paths: at the first difference, `a` ends or has the character of the smaller code. */
  ghost predicate PathFirst(a: string, b: string) {
    exists k: nat :: k <= |a| && k < |b| && a[..k] == b[..k] && (k == |a| || a[k] < b[k])
  }

  /** `a` is in its place ahead of `b` where symbols ascend, said with the fields of the two alone. */
  ghost predicate Ascends(a: Symbol, b: Symbol) {
    var byPath := a.file.File? && b.file.File? && a.file.isCjmp && b.file.isCjmp;
    if byPath && a.file.path != b.file.path then PathFirst(a.file.path, b.file.path)
    else if !byPath && a.begin.fileID != b.begin.fileID then a.begin.fileID < b.begin.fileID
    else if a.begin.line != b.begin.line then a.begin.line < b.begin.line
    else if a.begin.column != b.begin.column then a.begin.column < b.begin.column
    else if a.end.line != b.end.line then a.end.line > b.end.line
    else if a.end.column != b.end.column then a.end.column > b.end.column
    else a.astKind <= b.astKind
  }

  /** A list ascends, or it descends. */
  ghost predicate InOrder(order: Order, s: seq<Symbol>) {
    forall i, j :: 0 <= i < j < |s| ==> if order == PosAsc then Ascends(s[i], s[j]) else Ascends(s[j], s[i])
  }

  /** The order of paths is that of their first difference. */
  lemma {:induction false} PathLessIsFirst(a: string, b: string)
    ensures PathLess(a, b) <==> PathFirst(a, b)
  {
    if a == "" || b == "" {
      if b != "" {
        assert a[..0] == b[..0];
      }
    } else if a[0] != b[0] {
      if PathLess(a, b) {
        assert a[..0] == b[..0];
      }
    } else {
      PathLessIsFirst(a[1..], b[1..]);
      if PathFirst(a[1..], b[1..]) {
        var c, d := a[1..], b[1..];
        var k: nat :| k <= |c| && k < |d| && c[..k] == d[..k] && (k == |c| || c[k] < d[k]);
        assert a[..k + 1] == [a[0]] + c[..k] && b[..k + 1] == [b[0]] + d[..k];
      }
      if PathFirst(a, b) {
        var k: nat :| k <= |a| && k < |b| && a[..k] == b[..k] && (k == |a| || a[k] < b[k]);
        assert a[1..][..k - 1] == a[..k][1..] && b[1..][..k - 1] == b[..k][1..];
      }
    }
  }

  /** One symbol may stand ahead of another exactly where the comparison does not put the other one first. */
  lemma AscendsIffNotLess(a: Symbol, b: Symbol)
    ensures Ascends(a, b) <==> !PosAscLess(b, a)
  {
    if a.file.InCjmp() && b.file.InCjmp() {
      PathLessIsFirst(a.file.path, b.file.path);
      PathLessTotal(a.file.path, b.file.path);
    }
  }

  /**
   * What an answer is: each symbol of the set once, and of two of them the earlier one has the smaller path among
   * common and specific files, or else the smaller file number; within a file it does not begin behind the other; where
   * both begin at one place it does not end ahead of the other, and where they also end at one place its kind is no
   * greater. The descending order is the other way round.
   */
  lemma AnswersAre(order: Order, s: seq<Symbol>, ids: set<Symbol>)
    ensures IsAnswer(order, s, ids) <==>
      && (forall x :: x in s <==> x in ids)
      && (forall i, j :: 0 <= i < j < |s| ==> s[i] != s[j])
      && InOrder(order, s)
  {
    hide Ascends, PosAscLess;
    forall i, j | 0 <= i < |s| && 0 <= j < |s|
      ensures Ascends(s[i], s[j]) <==> !PosAscLess(s[j], s[i])
    {
      AscendsIffNotLess(s[i], s[j]);
    }
    if forall x :: x in s <==> x in ids {
      assert (set x | x in s) == ids;
    }
    if (set x | x in s) == ids {
      forall x ensures x in s <==> x in ids {
        assert x in s <==> x in (set y | y in s);
      }
    }
  }

  /** Puts one symbol into a sorted list. */
  method InsertSorted(order: Order, s: seq<Symbol>, x: Symbol, ghost ids: set<Symbol>) returns (r: seq<Symbol>)
    requires StrictWeak(order, ids) && x in ids && (forall y :: y in s ==> y in ids) && x !in s
    requires Sorted(order, s) && (forall i, j :: 0 <= i < j < |s| ==> s[i] != s[j])
    ensures Sorted(order, r) && (forall i, j :: 0 <= i < j < |r| ==> r[i] != r[j])
    ensures forall y :: y in r <==> y in s || y == x
  {
    var k := 0;
    while k < |s| && !Less(order, x, s[k])
      invariant 0 <= k <= |s|
      invariant forall i :: 0 <= i < k ==> !Less(order, x, s[i])
    {
      k := k + 1;
    }
    r := s[..k] + [x] + s[k..];
    forall j | k <= j < |s| ensures !Less(order, s[j], x) {
      assert s[j] in s && s[k] in s;
      assert !Less(order, s[k], x) by {
        assert Less(order, x, s[k]) && !Less(order, x, x);
      }
    }
    forall i, j | 0 <= i < j < |r| ensures !Less(order, r[j], r[i]) && r[i] != r[j] {
      if i == k {
        assert r[j] == s[j - 1] && s[j - 1] in s;
      } else if j == k {
        assert r[i] == s[i] && s[i] in s;
      }
    }
    forall y ensures y in r <==> y in s || y == x {
      assert s == s[..k] + s[k..];
    }
  }

  /** Sorts a set of symbols. */
  method Sort(ids: set<Symbol>, order: Order) returns (results: seq<Symbol>)
    requires PathsAgree(ids)
    ensures IsAnswer(order, results, ids)
    ensures InOrder(order, results)
  {
    SortableIff(order, ids);
    results := [];
    var todo := ids;
    while todo != {}
      invariant todo <= ids
      invariant IsAnswer(order, results, ids - todo)
      decreases todo
    {
      var s :| s in todo;
      ghost var listed := set x | x in results;
      assert listed == ids - todo && s !in listed;
      assert forall y :: y in results ==> y in listed;
      var longer := InsertSorted(order, results, s, ids);
      assert (set x | x in longer) == listed + {s} == ids - (todo - {s});
      results := longer;
      todo := todo - {s};
    }
    AnswersAre(order, results, ids);
  }
}
