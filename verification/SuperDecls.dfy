/**
 * The breadth-first collection of a declaration and all it inherits from.
 *
 * The search keeps a queue, a visited set and the list of what it found. It is specified by the ways that lead from the
 * declaration to its super-declarations: a way is a sequence of positions in lists of inherited types, and ways are
 * ordered by length and then position by position. The collection lists every class-like declaration that some way
 * leads to, in the order of the first ways that lead there.
 */
module SuperDecls {
  datatype TypeKind = TYPE_CLASS | TYPE_INTERFACE | TYPE_OTHER

  /** The type of an inherited type; `NoTy` stands for the null pointer. */
  datatype Ty = NoTy | Ty(invalid: bool, kind: TypeKind, declPtr: Decl?)
  {
    predicate IsTyCorrect() {
      Ty? && !invalid
    }
  }

  class Decl {
    const isClassLike: bool
    var inheritedTypes: seq<Ty>
    var specificImplementation: Decl?

    constructor (isClassLike: bool)
      ensures this.isClassLike == isClassLike && inheritedTypes == [] && specificImplementation == null
    {
      this.isClassLike, inheritedTypes, specificImplementation := isClassLike, [], null;
    }
  }

  /** The declaration that an inherited type names, or null. */
  function SuperDecl(ty: Ty, obtainSpecific: bool): Decl?
    reads if ty.Ty? then {ty.declPtr} else {}
  {
    if !ty.IsTyCorrect() || ty.kind == TYPE_OTHER then null
    else if obtainSpecific then
      var decl := if ty.declPtr != null && ty.declPtr.specificImplementation != null
                  then ty.declPtr.specificImplementation else ty.declPtr;
      if decl != null && decl.isClassLike then decl else null
    else ty.declPtr
  }

  /**
   * An inherited type names `x`: the type is valid and a class or an interface, and `x` is its declaration, or, where
   * specific versions are asked for, the specific version of it if there is one, as far as that is class-like.
   */
  predicate Inherits(ty: Ty, obtainSpecific: bool, x: Decl)
    reads if ty.Ty? then {ty.declPtr} else {}
  {
    && ty.Ty? && !ty.invalid && (ty.kind.TYPE_CLASS? || ty.kind.TYPE_INTERFACE?) && ty.declPtr != null
    && if !obtainSpecific then x == ty.declPtr
       else
         && x.isClassLike
         && if ty.declPtr.specificImplementation == null then x == ty.declPtr
            else x == ty.declPtr.specificImplementation
  }

  lemma SuperDeclIsInherited(ty: Ty, obtainSpecific: bool, x: Decl)
    ensures SuperDecl(ty, obtainSpecific) == x <==> Inherits(ty, obtainSpecific, x)
  {
  }

  // ----- ways -----

  /** For every declaration, the declarations its inherited types name, null where they name none. */
  type Graph = map<Decl, seq<Decl?>>

  ghost predicate IsGraph(g: Graph) {
    forall d, x :: d in g && 0 <= x < |g[d]| && g[d][x] != null ==> g[d][x] in g && g[d][x].isClassLike
  }

  type Way = seq<nat>

  ghost function Follow(g: Graph, start: Decl, way: Way): Decl? {
    if way == [] then start
    else
      var u, x := Follow(g, start, way[..|way| - 1]), way[|way| - 1];
      if u != null && u in g && x < |g[u]| then g[u][x] else null
  }

  /** Shorter ways come first, and ways of one length are ordered at the first position where they differ. */
  ghost predicate Earlier(v: Way, w: Way)
    decreases |v|
  {
    || |v| < |w|
    || (&& |v| == |w| > 0
        && (var v', w' := v[..|v| - 1], w[..|w| - 1];
            Earlier(v', w') || (v' == w' && v[|v| - 1] < w[|w| - 1])))
  }

  ghost predicate NotLater(v: Way, w: Way) {
    v == w || Earlier(v, w)
  }

  lemma {:induction false} NotEarlierThanItself(v: Way)
    ensures !Earlier(v, v)
  {
    if v != [] {
      NotEarlierThanItself(v[..|v| - 1]);
    }
  }

  lemma {:induction false} EarlierIsTransitive(u: Way, v: Way, w: Way)
    requires Earlier(u, v) && Earlier(v, w)
    ensures Earlier(u, w)
    decreases |v|
  {
    if |u| == |v| == |w| {
      var u', v', w' := u[..|u| - 1], v[..|v| - 1], w[..|w| - 1];
      if Earlier(u', v') && Earlier(v', w') {
        EarlierIsTransitive(u', v', w');
      }
    }
  }

  lemma EarlierExtends(v: Way, w: Way, x: nat, y: nat)
    requires Earlier(v, w) || (v == w && x < y)
    ensures Earlier(v + [x], w + [y])
  {
    assert (v + [x])[..|v|] == v && (w + [y])[..|w|] == w;
  }

  ghost predicate IsFirstWay(g: Graph, start: Decl, d: Decl, way: Way) {
    Follow(g, start, way) == d && forall w :: Follow(g, start, w) == d ==> NotLater(way, w)
  }

  // ----- the search -----

  /** The search has found `seen` by the ways `ways`, and looks at position `k` of the list of `seen[i]` next. */
  ghost predicate Searching(g: Graph, start: Decl, seen: seq<Decl>, ways: seq<Way>, i: nat, k: nat) {
    && IsGraph(g) && start in g
    && |ways| == |seen| > 0 && seen[0] == start && ways[0] == [] && i <= |seen|
    && (forall j :: 0 <= j < |seen| ==> seen[j] in g && IsFirstWay(g, start, seen[j], ways[j]))
    && (forall j, l :: 0 <= j < l < |seen| ==> Earlier(ways[j], ways[l]))
    && (forall j, x :: 0 <= j < |seen| && 0 <= x < |g[seen[j]]| && (j < i || (j == i && x < k)) && g[seen[j]][x] != null
          ==> g[seen[j]][x] in seen)
    && (i < |seen| ==> k <= |g[seen[i]]| && forall j :: 0 <= j < |seen| ==> Earlier(ways[j], ways[i] + [k]))
  }

  /** A way to something not found yet is not earlier than the way the search looks at. */
  lemma {:induction false} UnseenIsLater(g: Graph, start: Decl, seen: seq<Decl>, ways: seq<Way>, i: nat, k: nat, w: Way)
    requires Searching(g, start, seen, ways, i, k) && i < |seen|
    requires Follow(g, start, w) != null && Follow(g, start, w) !in seen
    ensures NotLater(ways[i] + [k], w)
    decreases |w|
  {
    var q, x := w[..|w| - 1], w[|w| - 1];
    var u := Follow(g, start, q);
    assert w == q + [x];
    if u in seen {
      var j :| 0 <= j < |seen| && seen[j] == u;
      assert NotLater(ways[j], q);
      if j == i {
        if ways[i] != q || k < x {
          EarlierExtends(ways[i], q, k, x);
        }
      } else {
        assert i < j;
        if ways[j] != q {
          EarlierIsTransitive(ways[i], ways[j], q);
        }
        EarlierExtends(ways[i], q, k, x);
      }
    } else {
      UnseenIsLater(g, start, seen, ways, i, k, q);
      assert Earlier(q, w);
      if ways[i] + [k] != q {
        EarlierIsTransitive(ways[i] + [k], q, w);
      }
    }
  }

  /** What the search finds next, it finds by the first way there. */
  lemma FoundFirst(g: Graph, start: Decl, seen: seq<Decl>, ways: seq<Way>, i: nat, k: nat, d: Decl)
    requires Searching(g, start, seen, ways, i, k) && i < |seen| && k < |g[seen[i]]|
    requires g[seen[i]][k] == d && d !in seen
    ensures Searching(g, start, seen + [d], ways + [ways[i] + [k]], i, k + 1)
  {
    var way := ways[i] + [k];
    assert way[..|ways[i]|] == ways[i];
    assert Follow(g, start, way) == d;
    forall w | Follow(g, start, w) == d
      ensures NotLater(way, w)
    {
      UnseenIsLater(g, start, seen, ways, i, k, w);
    }
    SkipOne(g, start, seen, ways, i, k);
    EarlierExtends(ways[i], ways[i], k, k + 1);
  }

  /** Everything found stays earlier than the next position. */
  lemma SkipOne(g: Graph, start: Decl, seen: seq<Decl>, ways: seq<Way>, i: nat, k: nat)
    requires Searching(g, start, seen, ways, i, k) && i < |seen|
    ensures forall j :: 0 <= j < |seen| ==> Earlier(ways[j], ways[i] + [k + 1])
  {
    EarlierExtends(ways[i], ways[i], k, k + 1);
    forall j | 0 <= j < |seen|
      ensures Earlier(ways[j], ways[i] + [k + 1])
    {
      EarlierIsTransitive(ways[j], ways[i] + [k], ways[i] + [k + 1]);
    }
  }

  lemma NextDecl(g: Graph, start: Decl, seen: seq<Decl>, ways: seq<Way>, i: nat)
    requires i < |seen| && seen[i] in g && Searching(g, start, seen, ways, i, |g[seen[i]]|)
    ensures Searching(g, start, seen, ways, i + 1, 0)
  {
    var k := |g[seen[i]]|;
    if i + 1 < |seen| {
      EarlierExtends(ways[i], ways[i + 1], k, 0);
      forall j | 0 <= j < |seen|
        ensures Earlier(ways[j], ways[i + 1] + [0])
      {
        EarlierIsTransitive(ways[j], ways[i] + [k], ways[i + 1] + [0]);
      }
    }
  }

  /** A search that has looked at everything has found all that any way leads to. */
  lemma {:induction false} SearchedAll(g: Graph, start: Decl, seen: seq<Decl>, ways: seq<Way>, way: Way)
    requires Searching(g, start, seen, ways, |seen|, 0) && Follow(g, start, way) != null
    ensures Follow(g, start, way) in seen
    decreases |way|
  {
    if way != [] {
      SearchedAll(g, start, seen, ways, way[..|way| - 1]);
    }
  }

  lemma SkipSeen(g: Graph, start: Decl, seen: seq<Decl>, ways: seq<Way>, i: nat, k: nat)
    requires Searching(g, start, seen, ways, i, k) && i < |seen| && k < |g[seen[i]]|
    requires g[seen[i]][k] == null || g[seen[i]][k] in seen
    ensures Searching(g, start, seen, ways, i, k + 1)
  {
    SkipOne(g, start, seen, ways, i, k);
  }

  /** The list has exactly the class-like declarations that some way leads to, in the order of the first ways there. */
  ghost predicate IsListing(g: Graph, start: Decl, list: seq<Decl>, ways: seq<Way>) {
    && |ways| == |list|
    && (forall j :: 0 <= j < |list| ==> list[j].isClassLike && IsFirstWay(g, start, list[j], ways[j]))
    && (forall j, l :: 0 <= j < l < |list| ==> Earlier(ways[j], ways[l]))
    && (forall way :: Follow(g, start, way) != null && Follow(g, start, way).isClassLike ==>
       Follow(g, start, way) in list)
  }

  /** The list of results and the visited set hold what was found, without a start that is not class-like. */
  ghost predicate Keeps(start: Decl, seen: seq<Decl>, visited: set<Decl>, ret: seq<Decl>) {
    && seen != [] && seen[0] == start
    && ret == (if start.isClassLike then seen else seen[1..])
    && (forall d :: d in ret ==> d.isClassLike)
    && visited == set d | d in ret
  }

  lemma KeepsOneMore(start: Decl, seen: seq<Decl>, visited: set<Decl>, ret: seq<Decl>, d: Decl)
    requires Keeps(start, seen, visited, ret) && d.isClassLike
    ensures d in visited <==> d in seen
    ensures Keeps(start, seen + [d], visited + {d}, ret + [d])
  {
    assert seen == [start] + seen[1..];
    assert (seen + [d])[1..] == seen[1..] + [d];
  }

  ghost predicate Lists(g: Graph, start: Decl, list: seq<Decl>) {
    exists ways :: IsListing(g, start, list, ways)
  }

  lemma StartSearching(g: Graph, start: Decl, visited: set<Decl>, ret: seq<Decl>)
    requires IsGraph(g) && start in g
    requires ret == (if start.isClassLike then [start] else []) && visited == set d | d in ret
    ensures Searching(g, start, [start], [[]], 0, 0) && Keeps(start, [start], visited, ret)
  {
  }

  lemma SearchedIsListing(g: Graph, start: Decl, seen: seq<Decl>, ways: seq<Way>, visited: set<Decl>, ret: seq<Decl>)
    returns (listed: seq<Way>)
    requires Searching(g, start, seen, ways, |seen|, 0) && Keeps(start, seen, visited, ret)
    ensures IsListing(g, start, ret, listed)
  {
    listed := if start.isClassLike then ways else ways[1..];
    assert seen == [start] + seen[1..];
    forall way | Follow(g, start, way) != null && Follow(g, start, way).isClassLike
      ensures Follow(g, start, way) in ret
    {
      SearchedAll(g, start, seen, ways, way);
    }
  }

  /** Nothing is found twice, so there are no more findings than declarations. */
  lemma SeenFits(g: Graph, start: Decl, seen: seq<Decl>, ways: seq<Way>, i: nat, k: nat)
    requires Searching(g, start, seen, ways, i, k)
    ensures |seen| <= |g|
    ensures forall d :: d in seen ==> d in g
  {
    forall j, l | 0 <= j < l < |seen|
      ensures seen[j] != seen[l]
    {
      NotEarlierThanItself(ways[j]);
      if seen[j] == seen[l] && ways[j] != ways[l] {
        EarlierIsTransitive(ways[j], ways[l], ways[j]);
      }
    }
    DistinctFit(seen, g.Keys);
  }

  lemma {:induction false} DistinctFit(seen: seq<Decl>, all: set<Decl>)
    requires forall j, l :: 0 <= j < l < |seen| ==> seen[j] != seen[l]
    requires forall d :: d in seen ==> d in all
    ensures |seen| <= |all|
  {
    if seen != [] {
      var rest, d := seen[1..], seen[0];
      assert forall e :: e in rest ==> e in all - {d};
      DistinctFit(rest, all - {d});
    }
  }

  /** What the search does at one position: it goes on, or finds something new by the first way there. */
  lemma LookAt(g: Graph, start: Decl, seen: seq<Decl>, ways: seq<Way>, visited: set<Decl>, ret: seq<Decl>, i: nat,
               k: nat)
    requires Searching(g, start, seen, ways, i, k) && Keeps(start, seen, visited, ret)
    requires i < |seen| && seen[i] in g && k < |g[seen[i]]|
    ensures i < |ways|
    ensures var d := g[seen[i]][k];
      if d != null && d !in visited then
        && Searching(g, start, seen + [d], ways + [ways[i] + [k]], i, k + 1)
        && Keeps(start, seen + [d], visited + {d}, ret + [d])
      else Searching(g, start, seen, ways, i, k + 1)
  {
    var d := g[seen[i]][k];
    if d != null {
      KeepsOneMore(start, seen, visited, ret, d);
    }
    if d != null && d !in visited {
      FoundFirst(g, start, seen, ways, i, k, d);
    } else {
      SkipSeen(g, start, seen, ways, i, k);
    }
  }

  /** Besides a class-like start, a listing has just what the start and the listed declarations inherit. */
  lemma ListedIffInherited(g: Graph, start: Decl, list: seq<Decl>, ways: seq<Way>, x: Decl)
    requires IsListing(g, start, list, ways) && IsGraph(g) && start in g
    ensures x in list <==>
      (x == start && start.isClassLike) ||
      exists u: Decl :: u in g && (u == start || u in list) && x in g[u]
  {
    if x in list {
      var j :| 0 <= j < |list| && list[j] == x;
      var way := ways[j];
      if way == [] {
        assert x == start;
      } else {
        var up, k := way[..|way| - 1], way[|way| - 1];
        var u := Follow(g, start, up);
        assert u != null && u in g && g[u][k] == x;
        StartOrClassLike(g, start, up);
      }
    }
    if x == start && start.isClassLike {
      assert Follow(g, start, []) == start;
    }
    if exists u: Decl :: u in g && (u == start || u in list) && x in g[u] {
      var u: Decl :| u in g && (u == start || u in list) && x in g[u];
      var k :| 0 <= k < |g[u]| && g[u][k] == x;
      var way: Way;
      if u == start {
        way := [];
      } else {
        var j :| 0 <= j < |list| && list[j] == u;
        way := ways[j];
      }
      assert Follow(g, start, way) == u;
      assert (way + [k])[..|way|] == way;
      assert Follow(g, start, way + [k]) == x;
    }
  }

  lemma StartOrClassLike(g: Graph, start: Decl, way: Way)
    requires IsGraph(g) && Follow(g, start, way) != null
    ensures Follow(g, start, way) == start || Follow(g, start, way).isClassLike
  {
  }

  /** Besides a class-like start, a list has just what the start and the listed declarations inherit. */
  ghost predicate HasWhatIsInherited(all: set<Decl>, start: Decl, list: seq<Decl>, obtainSpecific: bool)
    reads *
  {
    && (forall x :: x in list ==> x in all)
    && forall x :: x in all ==>
      (x in list <==>
       (x == start && start.isClassLike) ||
       exists u, k :: u in all && (u == start || u in list) && 0 <= k < |u.inheritedTypes| &&
         Inherits(u.inheritedTypes[k], obtainSpecific, x))
  }

  /** `g` is the graph that the search can get to, as the inherited types name it. */
  method GetAllSuperDecls(start: Decl, obtainSpecific: bool, ghost g: Graph) returns (ret: seq<Decl>)
    requires IsGraph(g) && start in g
    requires forall d :: d in g ==> |g[d]| == |d.inheritedTypes|
    requires forall d, x :: d in g && 0 <= x < |g[d]| ==> g[d][x] == SuperDecl(d.inheritedTypes[x], obtainSpecific)
    ensures Lists(g, start, ret)
    ensures HasWhatIsInherited(g.Keys, start, ret, obtainSpecific)
  {
    hide SuperDecl, HasWhatIsInherited, Searching, IsListing, Keeps, Earlier, Follow;
    var visited: set<Decl> := {};
    ret := [];
    var workList: seq<Decl> := [start];
    if start.isClassLike {
      visited := visited + {start};
      ret := ret + [start];
    }
    ghost var seen: seq<Decl>, i := [start], 0;
    ghost var ways: seq<Way> := [[]];
    StartSearching(g, start, visited, ret);
    while workList != []
      invariant i <= |seen| && workList == seen[i..]
      invariant Searching(g, start, seen, ways, i, 0) && Keeps(start, seen, visited, ret)
      decreases |g| - i
    {
      SeenFits(g, start, seen, ways, i, 0);
      var curDecl := workList[0];
      workList := workList[1..];
      var k := 0;
      while k < |curDecl.inheritedTypes|
        invariant k <= |curDecl.inheritedTypes|
        invariant i < |seen| && workList == seen[i + 1..] && curDecl == seen[i]
        invariant Searching(g, start, seen, ways, i, k) && Keeps(start, seen, visited, ret)
      {
        var declPtr := SuperDecl(curDecl.inheritedTypes[k], obtainSpecific);
        LookAt(g, start, seen, ways, visited, ret, i, k);
        if declPtr != null && declPtr !in visited {
          workList := workList + [declPtr];
          visited := visited + {declPtr};
          ret := ret + [declPtr];
          seen, ways := seen + [declPtr], ways + [ways[i] + [k]];
        }
        k := k + 1;
      }
      NextDecl(g, start, seen, ways, i);
      i := i + 1;
    }
    ways := SearchedIsListing(g, start, seen, ways, visited, ret);
    OnlyInherited(g, start, ret, ways, obtainSpecific);
  }

  lemma OnlyInherited(g: Graph, start: Decl, ret: seq<Decl>, ways: seq<Way>, obtainSpecific: bool)
    requires IsListing(g, start, ret, ways) && IsGraph(g) && start in g
    requires forall d :: d in g ==> |g[d]| == |d.inheritedTypes|
    requires forall d, x :: d in g && 0 <= x < |g[d]| ==> g[d][x] == SuperDecl(d.inheritedTypes[x], obtainSpecific)
    ensures HasWhatIsInherited(g.Keys, start, ret, obtainSpecific)
  {
    hide SuperDecl, Inherits, IsListing, Follow;
    forall x | x in ret
      ensures x in g
    {
      ListedIffInherited(g, start, ret, ways, x);
    }
    forall x | x in g
      ensures x in ret <==>
        (x == start && start.isClassLike) ||
        exists u, k :: u in g && (u == start || u in ret) && 0 <= k < |u.inheritedTypes| &&
          Inherits(u.inheritedTypes[k], obtainSpecific, x)
    {
      ListedIffInherited(g, start, ret, ways, x);
      forall u, k | u in g && 0 <= k < |g[u]|
        ensures g[u][k] == x <==> Inherits(u.inheritedTypes[k], obtainSpecific, x)
      {
        SuperDeclIsInherited(u.inheritedTypes[k], obtainSpecific, x);
      }
    }
  }

  // ----- what the list is -----

  /** Some way leads to `d`, and none of fewer steps does. */
  ghost predicate IsDistance(g: Graph, start: Decl, d: Decl, n: nat) {
    && (exists way :: Follow(g, start, way) == d && |way| == n)
    && (forall way :: Follow(g, start, way) == d ==> n <= |way|)
  }

  lemma PlacesFollowWays(g: Graph, start: Decl, list: seq<Decl>, ways: seq<Way>, a: nat, b: nat)
    requires IsListing(g, start, list, ways) && a < |list| && b < |list|
    ensures Earlier(ways[a], ways[b]) <==> a < b
    ensures list[a] == list[b] ==> a == b
  {
    NotEarlierThanItself(ways[a]);
    if list[a] == list[b] && ways[a] != ways[b] {
      EarlierIsTransitive(ways[a], ways[b], ways[a]);
    }
    if b < a && Earlier(ways[a], ways[b]) {
      EarlierIsTransitive(ways[a], ways[b], ways[a]);
    }
  }

  /** The list has no duplicates, starts with the declaration itself if that is class-like, and moves away from it. */
  lemma ListedByDistance(g: Graph, start: Decl, list: seq<Decl>, ways: seq<Way>)
    requires IsListing(g, start, list, ways)
    ensures forall a, b :: 0 <= a < b < |list| ==> list[a] != list[b]
    ensures start in list <==> start.isClassLike
    ensures start.isClassLike ==> list[0] == start
    ensures forall a :: 0 <= a < |list| ==> IsDistance(g, start, list[a], |ways[a]|)
    ensures forall a, b :: 0 <= a < b < |list| ==> |ways[a]| <= |ways[b]|
  {
    forall a, b | 0 <= a < b < |list|
      ensures list[a] != list[b] && |ways[a]| <= |ways[b]|
    {
      PlacesFollowWays(g, start, list, ways, a, b);
    }
    assert Follow(g, start, []) == start;
    if start.isClassLike {
      var a :| 0 <= a < |list| && list[a] == start;
      assert NotLater(ways[a], []);
      PlacesFollowWays(g, start, list, ways, 0, a);
    }
  }

  /** What one listing has at `j`, another listing has too, by the same way. */
  lemma IsListedToo(g: Graph, start: Decl, l1: seq<Decl>, w1: seq<Way>, l2: seq<Decl>, w2: seq<Way>,
                    j: nat) returns (k: nat)
    requires IsListing(g, start, l1, w1) && IsListing(g, start, l2, w2) && j < |l1|
    ensures k < |l2| && l2[k] == l1[j] && w2[k] == w1[j]
  {
    assert Follow(g, start, w1[j]) == l1[j];
    k :| 0 <= k < |l2| && l2[k] == l1[j];
    FirstWayIsUnique(g, start, l1[j], w1[j], w2[k]);
  }

  /** Listing is a function of the graph: any two lists with these properties agree. */
  lemma {:induction false} ListingIsUnique(g: Graph, start: Decl, l1: seq<Decl>, w1: seq<Way>, l2: seq<Decl>,
                                           w2: seq<Way>, n: nat)
    requires IsListing(g, start, l1, w1) && IsListing(g, start, l2, w2) && n <= |l1|
    ensures n <= |l2| && l1[..n] == l2[..n] && w1[..n] == w2[..n]
  {
    hide Follow, Earlier, IsListing;
    ListingLengths(g, start, l1, w1);
    ListingLengths(g, start, l2, w2);
    if n > 0 {
      ListingIsUnique(g, start, l1, w1, l2, w2, n - 1);
      var b := IsListedToo(g, start, l1, w1, l2, w2, n - 1);
      if b < n - 1 {
        assert l2[b] == l2[..n - 1][b] == l1[..n - 1][b] == l1[b];
        PlacesFollowWays(g, start, l1, w1, b, n - 1);
      } else if b > n - 1 {
        var a := IsListedToo(g, start, l2, w2, l1, w1, n - 1);
        PlacesFollowWays(g, start, l2, w2, n - 1, b);
        PlacesFollowWays(g, start, l1, w1, a, n - 1);
        assert l2[a] == l2[..n - 1][a] == l1[..n - 1][a] == l1[a];
        PlacesFollowWays(g, start, l2, w2, a, n - 1);
      }
      assert l1[..n] == l1[..n - 1] + [l1[n - 1]] && l2[..n] == l2[..n - 1] + [l2[n - 1]];
      assert w1[..n] == w1[..n - 1] + [w1[n - 1]] && w2[..n] == w2[..n - 1] + [w2[n - 1]];
    }
  }

  lemma ListingLengths(g: Graph, start: Decl, list: seq<Decl>, ways: seq<Way>)
    requires IsListing(g, start, list, ways)
    ensures |ways| == |list|
  {
  }

  lemma FirstWayIsUnique(g: Graph, start: Decl, d: Decl, v: Way, w: Way)
    requires IsFirstWay(g, start, d, v) && IsFirstWay(g, start, d, w)
    ensures v == w
  {
    NotEarlierThanItself(v);
    if v != w {
      EarlierIsTransitive(v, w, v);
    }
  }

  // ----- whether sub-types come before super-types -----

  /** Every listed sub-type of a listed declaration stands before it. */
  ghost predicate SubtypesPrecede(g: Graph, list: seq<Decl>) {
    forall a, b :: 0 <= a < |list| && 0 <= b < |list| && list[a] in g && list[b] in g[list[a]] ==> a < b
  }

  /** Some way to the class-like sub-type `u` is earlier than the way `w`. */
  ghost predicate IsReachedBefore(g: Graph, start: Decl, u: Decl, w: Way) {
    exists v :: Follow(g, start, v) == u && Earlier(v, w)
  }

  /** Wherever inheritance leads from `u` to `v`, each way to `v` has an earlier way to `u`. */
  ghost predicate IsOrderly(g: Graph, start: Decl) {
    forall p, w :: Follow(g, start, p) != null && Follow(g, start, p).isClassLike && Follow(g, start, p) in g
      && Follow(g, start, w) != null && Follow(g, start, w) in g[Follow(g, start, p)]
      ==> IsReachedBefore(g, start, Follow(g, start, p), w)
  }

  /** The documented order, sub-types before super-types, is met exactly by orderly inheritance graphs. */
  lemma SubtypesPrecedeIffOrderly(g: Graph, start: Decl, list: seq<Decl>, ways: seq<Way>)
    requires IsGraph(g) && start in g && IsListing(g, start, list, ways)
    ensures SubtypesPrecede(g, list) <==> IsOrderly(g, start)
  {
    if SubtypesPrecede(g, list) {
      forall p, w | Follow(g, start, p) != null && Follow(g, start, p).isClassLike && Follow(g, start, p) in g
        && Follow(g, start, w) != null && Follow(g, start, w) in g[Follow(g, start, p)]
        ensures IsReachedBefore(g, start, Follow(g, start, p), w)
      {
        var u, v := Follow(g, start, p), Follow(g, start, w);
        var a :| 0 <= a < |list| && list[a] == u;
        var b :| 0 <= b < |list| && list[b] == v;
        PlacesFollowWays(g, start, list, ways, a, b);
        if ways[b] != w {
          EarlierIsTransitive(ways[a], ways[b], w);
        }
      }
    }
    if IsOrderly(g, start) {
      forall a, b | 0 <= a < |list| && 0 <= b < |list| && list[a] in g && list[b] in g[list[a]]
        ensures a < b
      {
        assert Follow(g, start, ways[a]) == list[a] && Follow(g, start, ways[b]) == list[b];
        assert IsReachedBefore(g, start, list[a], ways[b]);
        var v :| Follow(g, start, v) == list[a] && Earlier(v, ways[b]);
        if ways[a] != v {
          EarlierIsTransitive(ways[a], v, ways[b]);
        }
        PlacesFollowWays(g, start, list, ways, a, b);
      }
    }
  }

  /** Each step of inheritance leads farther away from the declaration. */
  ghost predicate EachStepLeadsAway(g: Graph, start: Decl) {
    forall u, v, m, n ::
      u in g && u.isClassLike && v in g[u] && IsDistance(g, start, u, m) && IsDistance(g, start, v, n)
      ==> m < n
  }

  /** What can be reached has a distance. */
  lemma {:induction false} HasDistance(g: Graph, start: Decl, d: Decl, way: Way) returns (n: nat)
    requires Follow(g, start, way) == d
    ensures IsDistance(g, start, d, n)
    decreases |way|
  {
    if shorter :| Follow(g, start, shorter) == d && |shorter| < |way| {
      n := HasDistance(g, start, d, shorter);
    } else {
      n := |way|;
    }
  }

  /** It is enough for the documented order that each step of inheritance leads farther away. */
  lemma LeadingAwayIsOrderly(g: Graph, start: Decl)
    requires EachStepLeadsAway(g, start)
    ensures IsOrderly(g, start)
  {
    forall p, w | Follow(g, start, p) != null && Follow(g, start, p).isClassLike && Follow(g, start, p) in g
      && Follow(g, start, w) != null && Follow(g, start, w) in g[Follow(g, start, p)]
      ensures IsReachedBefore(g, start, Follow(g, start, p), w)
    {
      var u, v := Follow(g, start, p), Follow(g, start, w);
      var m := HasDistance(g, start, u, p);
      var n := HasDistance(g, start, v, w);
      var first :| Follow(g, start, first) == u && |first| == m;
      assert m < n <= |w|;
      assert Earlier(first, w);
    }
  }

  /** Declarations of which each inherits the next. */
  ghost predicate IsChain(g: Graph, chain: seq<Decl>) {
    chain != [] && forall k :: 0 <= k < |chain| - 1 ==> chain[k] in g && chain[k + 1] in g[chain[k]]
  }

  /** Where sub-types come first, a chain of inheritance ascends in the list. */
  lemma {:induction false} ChainAscends(g: Graph, start: Decl, list: seq<Decl>, ways: seq<Way>, chain: seq<Decl>,
                                        a: nat)
    returns (b: nat)
    requires IsGraph(g) && IsListing(g, start, list, ways) && SubtypesPrecede(g, list)
    requires IsChain(g, chain) && a < |list| && list[a] == chain[0]
    ensures a + |chain| - 1 <= b < |list| && list[b] == chain[|chain| - 1]
  {
    if |chain| == 1 {
      b := a;
    } else {
      var x :| 0 <= x < |g[chain[0]]| && g[chain[0]][x] == chain[1];
      assert (ways[a] + [x])[..|ways[a]|] == ways[a];
      assert Follow(g, start, ways[a] + [x]) == chain[1];
      var next :| 0 <= next < |list| && list[next] == chain[1];
      b := ChainAscends(g, start, list, ways, chain[1..], next);
    }
  }

  /** A cycle of inheritance that can be reached never is orderly. */
  lemma CyclesAreNotOrderly(g: Graph, start: Decl, list: seq<Decl>, ways: seq<Way>, cycle: seq<Decl>, way: Way)
    requires IsGraph(g) && start in g && IsListing(g, start, list, ways)
    requires IsChain(g, cycle) && |cycle| > 1 && cycle[0] == cycle[|cycle| - 1]
    requires Follow(g, start, way) == cycle[0] && cycle[0].isClassLike
    ensures !IsOrderly(g, start) && !SubtypesPrecede(g, list)
  {
    SubtypesPrecedeIffOrderly(g, start, list, ways);
    if SubtypesPrecede(g, list) {
      var a :| 0 <= a < |list| && list[a] == cycle[0];
      var b := ChainAscends(g, start, list, ways, cycle, a);
      ListedByDistance(g, start, list, ways);
    }
  }

  lemma ListsSupertypeFirst(g: Graph, d: Decl, i: Decl, c: Decl, list: seq<Decl>, ways: seq<Way>)
    requires g == map[d := [i, c], i := [], c := [i]] && d != i && d != c && i != c
    requires d.isClassLike && i.isClassLike && c.isClassLike && list == [d, i, c] && ways == [[], [0], [1]]
    ensures IsListing(g, d, list, ways)
  {
    forall w: Way
      ensures Follow(g, d, w) == d ==> w == []
      ensures Follow(g, d, w) == i ==> w == [0] || w == [1, 0]
      ensures Follow(g, d, w) == c ==> w == [1]
      ensures Follow(g, d, w) == null || Follow(g, d, w) in {d, i, c}
    {
      WaysOfThree(d, i, c, w);
    }
    assert ways[1][..0] == [] && ways[2][..0] == [];
    assert Follow(g, d, ways[1]) == i && Follow(g, d, ways[2]) == c;
    assert Earlier(ways[1], [1, 0]);
  }

  lemma {:induction false} WaysOfThree(d: Decl, i: Decl, c: Decl, w: Way)
    requires d != i && d != c && i != c
    ensures var to := Follow(map[d := [i, c], i := [], c := [i]], d, w);
      && (to == d ==> w == [])
      && (to == i ==> w == [0] || w == [1, 0])
      && (to == c ==> w == [1])
      && (to == null || to in {d, i, c})
  {
    if w != [] {
      var q := w[..|w| - 1];
      assert w == q + [w[|w| - 1]];
      WaysOfThree(d, i, c, q);
    }
  }

  /** There is no other listing of that graph. */
  lemma OnlyListing(g: Graph, d: Decl, i: Decl, c: Decl, ret: seq<Decl>, ways: seq<Way>)
    requires g == map[d := [i, c], i := [], c := [i]] && d != i && d != c && i != c
    requires d.isClassLike && i.isClassLike && c.isClassLike && IsListing(g, d, ret, ways)
    ensures ret == [d, i, c] && !SubtypesPrecede(g, ret)
  {
    hide IsListing, SubtypesPrecede, Follow;
    var list, firsts: seq<Way> := [d, i, c], [[], [0], [1]];
    ListsSupertypeFirst(g, d, i, c, list, firsts);
    ListingIsUnique(g, d, ret, ways, list, firsts, |ret|);
    ListingIsUnique(g, d, list, firsts, ret, ways, 3);
    assert ret == ret[..|ret|] == list[..3] == list;
    SupertypeIsBefore(g, ret, c, i);
  }

  lemma SupertypeIsBefore(g: Graph, list: seq<Decl>, sub: Decl, super: Decl)
    requires |list| == 3 && list[1] == super && list[2] == sub && sub in g && super in g[sub]
    ensures !SubtypesPrecede(g, list)
  {
    assert list[1] in g[list[2]];
  }

  /**
   * A class that inherits an interface `i` first and then a class `c` that inherits `i` too: the super-type `i` is
   * listed before its sub-type `c`.
   */
  method SupertypeFirst() returns (ret: seq<Decl>, d: Decl, i: Decl, c: Decl, ghost g: Graph)
    ensures g == map[d := [i, c], i := [], c := [i]] && d != i && d != c && i != c
    ensures ret == [d, i, c] && !SubtypesPrecede(g, ret)
  {
    d := new Decl(true);
    i := new Decl(true);
    c := new Decl(true);
    c.inheritedTypes := [Ty(false, TYPE_INTERFACE, i)];
    d.inheritedTypes := [Ty(false, TYPE_INTERFACE, i), Ty(false, TYPE_CLASS, c)];
    g := map[d := [i, c], i := [], c := [i]];
    ret := GetAllSuperDecls(d, false, g);
    hide IsListing, SubtypesPrecede;
    ghost var ways :| IsListing(g, d, ret, ways);
    OnlyListing(g, d, i, c, ret, ways);
  }
}
