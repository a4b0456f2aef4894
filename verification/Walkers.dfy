/**
 * The walker over the syntax graph: a depth-first walk that stamps nodes with its number, calls back before and after
 * the children of a node, and stops as soon as a callback says so.
 *
 * A node here has an ordered list of children, possibly null, shared or cyclic. The many node kinds of the compiler
 * differ only in where that list comes from. A callback is a function of the node; one that is not given is the
 * function that always answers `WALK_CHILDREN` before, or `KEEP_DECISION` after, the children.
 */
module Walkers {
  import opened Arithmetic

  datatype VisitAction = WALK_CHILDREN | SKIP_CHILDREN | STOP_NOW | KEEP_DECISION

  class Node {
    const isModifier: bool
    var children: seq<Node?>
    var visitedByWalkerID: nat

    constructor (isModifier: bool, children: seq<Node?>)
      ensures this.isModifier == isModifier && this.children == children && visitedByWalkerID == 0
    {
      this.isModifier, this.children, visitedByWalkerID := isModifier, children, 0;
    }
  }

  datatype Event = PreVisit(node: Node) | PostVisit(node: Node)

  // ----- walker numbers -----

  const UINT_RANGE: nat := 0x1_0000_0000

  /** The next walker number and the counter after it was drawn. The counter wraps around and skips 0. */
  function NextWalkerID(counter: nat): (nat, nat)
    requires counter < UINT_RANGE
  {
    var id := if counter == 0 then 1 else counter;
    (id, (id + 1) % UINT_RANGE)
  }

  /** The counter after `n` numbers have been drawn from the start. */
  function CounterAfter(n: nat): (c: nat)
    ensures c < UINT_RANGE
  {
    if n == 0 then 1 else NextWalkerID(CounterAfter(n - 1)).1
  }

  function NthWalkerID(n: nat): nat {
    NextWalkerID(CounterAfter(n)).0
  }

  lemma {:induction false} NthWalkerIDIs(n: nat)
    ensures NthWalkerID(n) == n % (UINT_RANGE - 1) + 1
  {
    if n > 0 {
      NthWalkerIDIs(n - 1);
      ModStep(n - 1, UINT_RANGE - 1);
    }
  }

  /** A walker number is never 0, and two walks share one exactly when a whole round of the counter lies between. */
  lemma WalkerIDsAreFresh(i: nat, j: nat)
    ensures NthWalkerID(i) != 0
    ensures NthWalkerID(i) == NthWalkerID(j) <==> i % (UINT_RANGE - 1) == j % (UINT_RANGE - 1)
  {
    NthWalkerIDIs(i);
    NthWalkerIDIs(j);
  }

  // ----- graphs and paths -----

  /** The children of the nodes of a graph. A walk finds them as they are and does not change them. */
  type Graph = map<Node, seq<Node?>>

  /** All children of nodes in the graph are in the graph; modifiers have no children. */
  ghost predicate Closed(graph: Graph) {
    && (forall n, c: Node :: n in graph && c in graph[n] ==> c in graph)
    && (forall n :: n in graph && n.isModifier ==> graph[n] == [])
  }

  /**
   * A path from `from` to `to` on which every node but the last is entered by the walk, and none is in `stamped` unless
   * it is a modifier.
   */
  ghost predicate IsPath(graph: Graph, pre: Node -> VisitAction, stamped: set<Node>, older path: seq<Node>,
                         from: Node, to: Node) {
    && |path| > 0 && path[0] == from && path[|path| - 1] == to
    && (forall i :: 0 <= i < |path| ==> path[i] in graph && (path[i].isModifier || path[i] !in stamped))
    && forall i :: 0 <= i < |path| - 1 ==> pre(path[i]) == WALK_CHILDREN && path[i + 1] in graph[path[i]]
  }

  ghost predicate Reachable(graph: Graph, pre: Node -> VisitAction, stamped: set<Node>, from: Node?, to: Node) {
    from != null && exists path: seq<Node> :: IsPath(graph, pre, stamped, path, from, to)
  }

  /** A node can be got to from one of a list of nodes. */
  ghost predicate ReachableFromOne(graph: Graph, pre: Node -> VisitAction, stamped: set<Node>, from: seq<Node?>,
                                   to: Node) {
    exists i :: 0 <= i < |from| && Reachable(graph, pre, stamped, from[i], to)
  }

  // ----- the record of callbacks -----

  /** Replays callbacks on a stack of open nodes: a node is opened before its children and closed after them. */
  function Replay(trace: seq<Event>, open: seq<Node>): (r: (bool, seq<Node>)) {
    if trace == [] then (true, open)
    else
      match trace[0]
      case PreVisit(n) => Replay(trace[1..], open + [n])
      case PostVisit(n) =>
        if open != [] && open[|open| - 1] == n then Replay(trace[1..], open[..|open| - 1]) else (false, open)
  }

  lemma {:induction false} ReplayConcat(a: seq<Event>, b: seq<Event>, open: seq<Node>)
    requires Replay(a, open).0
    ensures Replay(a + b, open) == Replay(b, Replay(a, open).1)
  {
    if a == [] {
      assert a + b == b;
    } else {
      assert (a + b)[1..] == a[1..] + b;
      match a[0]
      case PreVisit(n) => ReplayConcat(a[1..], b, open + [n]);
      case PostVisit(n) => ReplayConcat(a[1..], b, open[..|open| - 1]);
    }
  }

  lemma {:induction false} ReplayOnTop(t: seq<Event>, base: seq<Node>, open: seq<Node>)
    requires Replay(t, open).0
    ensures Replay(t, base + open) == (true, base + Replay(t, open).1)
  {
    if t != [] {
      match t[0]
      case PreVisit(n) =>
        assert base + open + [n] == base + (open + [n]);
        ReplayOnTop(t[1..], base, open + [n]);
      case PostVisit(n) =>
        assert (base + open)[..|base + open| - 1] == base + open[..|open| - 1];
        ReplayOnTop(t[1..], base, open[..|open| - 1]);
    }
  }

  /** The callbacks are well nested: every node that is opened is closed, after everything opened in between. */
  ghost predicate WellNested(trace: seq<Event>) {
    Replay(trace, []) == (true, [])
  }

  lemma NestedConcat(a: seq<Event>, b: seq<Event>)
    requires WellNested(a) && WellNested(b)
    ensures WellNested(a + b)
  {
    ReplayConcat(a, b, []);
  }

  lemma NestedAround(n: Node, inner: seq<Event>)
    requires WellNested(inner)
    ensures WellNested([PreVisit(n)] + inner + [PostVisit(n)])
  {
    var t := [PreVisit(n)] + inner + [PostVisit(n)];
    assert t[1..] == inner + [PostVisit(n)];
    ReplayOnTop(inner, [n], []);
    assert [n] + [] == [n] && [] + [n] == [n];
    ReplayConcat(inner, [PostVisit(n)], [n]);
    assert [PostVisit(n)][1..] == [];
    assert Replay(t, []) == Replay(t[1..], [n]);
  }

  // ----- the walker -----

  /** A callback that stops the walk. */
  predicate Stops(pre: Node -> VisitAction, post: Node -> VisitAction, e: Event) {
    match e
    case PreVisit(n) => pre(n) == STOP_NOW
    case PostVisit(n) => post(n) == STOP_NOW
  }

  /** A node that is no modifier is opened at most once and closed at most once. */
  ghost predicate OncePerNode(trace: seq<Event>) {
    forall i, j :: 0 <= i < j < |trace| && trace[i] == trace[j] ==> trace[i].node.isModifier
  }

  /** The fixed part of a walk. */
  datatype Setting = Setting(ghost graph: Graph, pre: Node -> VisitAction, post: Node -> VisitAction) {
    ghost predicate Valid() {
      Closed(graph) && forall n :: n in graph && pre(n) == KEEP_DECISION ==> post(n) != KEEP_DECISION
    }

    /** Nodes of `entered` that the walk went into have all their children stamped. */
    ghost predicate ChildrenStamped(entered: set<Node>, stamped: set<Node>) {
      forall n, c: Node :: n in entered && n in graph && pre(n) == WALK_CHILDREN && c in graph[n] ==> c in stamped
    }

    /** The callbacks are for nodes stamped between two states, or for modifiers. */
    ghost predicate ForNewNodes(evs: seq<Event>, before: set<Node>, after: set<Node>) {
      forall e :: e in evs ==> e.node in graph && (e.node.isModifier || e.node in after - before)
    }

    /** The first callback that stops the walk is the last callback. */
    ghost predicate StopsAtEnd(evs: seq<Event>, action: VisitAction) {
      && (forall i :: 0 <= i < |evs| ==> (Stops(pre, post, evs[i]) <==> action == STOP_NOW && i == |evs| - 1))
      && (action == STOP_NOW ==> evs != [])
    }

    /**
     * The callbacks for `n` enclose all others, and the last is missing where the walk stops earlier. The answer is
     * that of the last one, or of the first if the last leaves it at that.
     */
    ghost predicate Encloses(n: Node?, evs: seq<Event>, action: VisitAction) {
      if evs == [] then action == WALK_CHILDREN
      else
        && n != null && evs[0] == PreVisit(n)
        && (forall i :: 0 < i < |evs| - 1 ==> evs[i].node != n)
        && (action != STOP_NOW ==>
              evs[|evs| - 1] == PostVisit(n) && action == if post(n) == KEEP_DECISION then pre(n) else post(n))
    }

    /** What a walk from `n`, or from nowhere, does: which nodes it stamps, which callbacks it makes, how it ends. */
    ghost predicate Walked(before: set<Node>, after: set<Node>, n: Node?, evs: seq<Event>, action: VisitAction) {
      && before <= after <= graph.Keys
      && ForNewNodes(evs, before, after) && OncePerNode(evs) && StopsAtEnd(evs, action) && Encloses(n, evs, action)
      && (evs == [] <==> n == null || (n in before && !n.isModifier))
      && (forall m :: m in after - before ==> PreVisit(m) in evs)
      && (forall e :: e in evs ==> Reachable(graph, pre, before, n, e.node))
      && (action != STOP_NOW ==>
            WellNested(evs) && ChildrenStamped(after - before, after) && (n != null ==> n in after))
    }

    /** A walk from `n` that has stamped it and is done with its first `i` children. */
    ghost predicate Entered(before: set<Node>, after: set<Node>, n: Node, i: nat, evs: seq<Event>) {
      && n in graph && before + {n} <= after <= graph.Keys && i <= |graph[n]|
      && ForNewNodes(evs, before + {n}, after) && OncePerNode(evs) && StopsAtEnd(evs, WALK_CHILDREN)
      && (forall m :: m in after - before - {n} ==> PreVisit(m) in evs)
      && (forall e :: e in evs ==> ReachableFromOne(graph, pre, before + {n}, graph[n][..i], e.node))
      && WellNested(evs) && ChildrenStamped(after - before - {n}, after)
      && forall k :: 0 <= k < i && graph[n][k] != null ==> graph[n][k] in after
    }
  }

  // ----- the walk as a function -----

  /** How a walk ends: the nodes that are stamped then, the callbacks it has made, and its answer. */
  datatype Outcome = Outcome(stamped: set<Node>, evs: seq<Event>, action: VisitAction)

  /** The walk from a node where some nodes are stamped. */
  ghost function WalkOf(s: Setting, stamped: set<Node>, n: Node?): (r: Outcome)
    requires s.Valid() && stamped <= s.graph.Keys && (n != null ==> n in s.graph)
    ensures stamped <= r.stamped <= s.graph.Keys
    decreases s.graph.Keys - stamped, 0
  {
    if n == null || (n in stamped && !n.isModifier) then Outcome(stamped, [], WALK_CHILDREN)
    else if s.pre(n) == STOP_NOW then Outcome(stamped + {n}, [PreVisit(n)], STOP_NOW)
    else
      var inner := if s.pre(n) == WALK_CHILDREN && s.graph[n] != [] then WalkAll(s, stamped + {n}, s.graph[n])
                   else Outcome(stamped + {n}, [], s.pre(n));
      if inner.action == STOP_NOW then Outcome(inner.stamped, [PreVisit(n)] + inner.evs, STOP_NOW)
      else
        Outcome(inner.stamped, [PreVisit(n)] + inner.evs + [PostVisit(n)],
                if s.post(n) == KEEP_DECISION then s.pre(n) else s.post(n))
  }

  /** The walks from a list of nodes, one after the other, up to the first that stops. */
  ghost function WalkAll(s: Setting, stamped: set<Node>, nodes: seq<Node?>): (r: Outcome)
    requires s.Valid() && stamped <= s.graph.Keys && forall n: Node :: n in nodes ==> n in s.graph
    ensures stamped <= r.stamped <= s.graph.Keys
    decreases s.graph.Keys - stamped, |nodes| + 1
  {
    if nodes == [] then Outcome(stamped, [], WALK_CHILDREN)
    else
      var first := WalkAll(s, stamped, nodes[..|nodes| - 1]);
      if first.action == STOP_NOW then first
      else
        var last := WalkOf(s, first.stamped, nodes[|nodes| - 1]);
        Outcome(last.stamped, first.evs + last.evs, if last.action == STOP_NOW then STOP_NOW else WALK_CHILDREN)
  }

  lemma ReachableItself(s: Setting, stamped: set<Node>, n: Node)
    requires n in s.graph && (n.isModifier || n !in stamped)
    ensures Reachable(s.graph, s.pre, stamped, n, n)
  {
    assert IsPath(s.graph, s.pre, stamped, [n], n, n);
  }

  /** What is reached from a child without passing stamped nodes is reached from its parent, unless that is stamped. */
  lemma ReachableThrough(s: Setting, stamped: set<Node>, more: set<Node>, n: Node, c: Node?, m: Node)
    requires n in s.graph && s.pre(n) == WALK_CHILDREN && c in s.graph[n] && n !in stamped && stamped <= more
    requires Reachable(s.graph, s.pre, more, c, m)
    ensures Reachable(s.graph, s.pre, stamped, n, m)
  {
    var path :| IsPath(s.graph, s.pre, more, path, c, m);
    assert IsPath(s.graph, s.pre, stamped, [n] + path, n, m);
  }

  lemma ReachableWithFewer(s: Setting, stamped: set<Node>, more: set<Node>, from: Node?, m: Node)
    requires Reachable(s.graph, s.pre, more, from, m) && stamped <= more
    ensures Reachable(s.graph, s.pre, stamped, from, m)
  {
    var path :| IsPath(s.graph, s.pre, more, path, from, m);
    assert IsPath(s.graph, s.pre, stamped, path, from, m);
  }

  lemma OnceConcat(s: Setting, a: seq<Event>, b: seq<Event>, before: set<Node>, middle: set<Node>, after: set<Node>)
    requires OncePerNode(a) && OncePerNode(b)
    requires s.ForNewNodes(a, before, middle) && s.ForNewNodes(b, middle, after)
    ensures OncePerNode(a + b)
  {
    forall i, j | 0 <= i < j < |a + b| && (a + b)[i] == (a + b)[j] ensures (a + b)[i].node.isModifier {
      if i < |a| <= j {
        assert a[i] in a && b[j - |a|] in b;
      }
    }
  }

  /** What the walk of one more child reaches is reached from one of the children up to it. */
  lemma ReachedFromChild(s: Setting, before: set<Node>, middle: set<Node>, n: Node, i: nat, evs: seq<Event>,
                         more: seq<Event>)
    requires n in s.graph && i < |s.graph[n]| && before + {n} <= middle
    requires forall e :: e in evs ==> ReachableFromOne(s.graph, s.pre, before + {n}, s.graph[n][..i], e.node)
    requires forall e :: e in more ==> Reachable(s.graph, s.pre, middle, s.graph[n][i], e.node)
    ensures forall e :: e in evs + more ==>
      ReachableFromOne(s.graph, s.pre, before + {n}, s.graph[n][..i + 1], e.node)
  {
    hide Reachable;
    var some, children := s.graph[n][..i], s.graph[n][..i + 1];
    forall e | e in evs + more
      ensures ReachableFromOne(s.graph, s.pre, before + {n}, children, e.node)
    {
      if e in evs {
        var k :| 0 <= k < |some| && Reachable(s.graph, s.pre, before + {n}, some[k], e.node);
        assert children[k] == some[k];
      } else {
        ReachableWithFewer(s, before + {n}, middle, s.graph[n][i], e.node);
        assert children[i] == s.graph[n][i];
      }
    }
  }

  lemma ReachedFromParent(s: Setting, before: set<Node>, n: Node, i: nat, evs: seq<Event>)
    requires n in s.graph && i <= |s.graph[n]| && (i > 0 ==> s.pre(n) == WALK_CHILDREN && n !in before)
    requires forall e :: e in evs ==> ReachableFromOne(s.graph, s.pre, before + {n}, s.graph[n][..i], e.node)
    ensures forall e :: e in evs ==> Reachable(s.graph, s.pre, before, n, e.node)
  {
    hide Reachable;
    var some := s.graph[n][..i];
    forall e | e in evs
      ensures Reachable(s.graph, s.pre, before, n, e.node)
    {
      var k :| 0 <= k < |some| && Reachable(s.graph, s.pre, before + {n}, some[k], e.node);
      assert some[k] == s.graph[n][k];
      ReachableThrough(s, before, before + {n}, n, some[k], e.node);
    }
  }

  /** A child has been walked without a stop. */
  lemma ChildWalked(s: Setting, before: set<Node>, middle: set<Node>, after: set<Node>, n: Node, i: nat,
                    evs: seq<Event>, more: seq<Event>, action: VisitAction)
    requires n in s.graph && i < |s.graph[n]| && s.pre(n) == WALK_CHILDREN && action != STOP_NOW
    requires s.Entered(before, middle, n, i, evs)
    requires s.Walked(middle, after, s.graph[n][i], more, action)
    ensures s.Entered(before, after, n, i + 1, evs + more)
  {
    hide Reachable, ReachableFromOne;
    OnceConcat(s, evs, more, before + {n}, middle, after);
    NestedConcat(evs, more);
    ReachedFromChild(s, before, middle, n, i, evs, more);
  }

  /** A child has stopped the walk: nothing more is called back, neither for `n` nor anywhere else. */
  lemma ChildStopped(s: Setting, before: set<Node>, middle: set<Node>, after: set<Node>, n: Node, i: nat,
                     evs: seq<Event>, more: seq<Event>)
    requires n in s.graph && i < |s.graph[n]| && s.pre(n) == WALK_CHILDREN && n !in before && !n.isModifier
    requires s.Entered(before, middle, n, i, evs)
    requires s.Walked(middle, after, s.graph[n][i], more, STOP_NOW)
    ensures s.Walked(before, after, n, [PreVisit(n)] + (evs + more), STOP_NOW)
  {
    hide Reachable, ReachableFromOne;
    OnceConcat(s, evs, more, before + {n}, middle, after);
    OnceConcat(s, [PreVisit(n)], evs + more, before, before + {n}, after);
    ReachedFromChild(s, before, middle, n, i, evs, more);
    ReachedFromParent(s, before, n, i + 1, evs + more);
    ReachableItself(s, before, n);
  }

  /** The callback after the children ends the walk of a node. */
  lemma NodeDone(s: Setting, before: set<Node>, after: set<Node>, n: Node, evs: seq<Event>, action: VisitAction)
    requires n in s.graph && s.pre(n) != STOP_NOW && (n in before ==> n.isModifier)
    requires n.isModifier ==> s.graph[n] == [] && evs == []
    requires s.Entered(before, after, n, if s.pre(n) == WALK_CHILDREN then |s.graph[n]| else 0, evs)
    requires action == if s.post(n) == KEEP_DECISION then s.pre(n) else s.post(n)
    ensures s.Walked(before, after, n, [PreVisit(n)] + evs + [PostVisit(n)], action)
  {
    hide Reachable, ReachableFromOne;
    NestedAround(n, evs);
    OnceConcat(s, [PreVisit(n)], evs, before, before + {n}, after);
    ReachedFromParent(s, before, n, if s.pre(n) == WALK_CHILDREN then |s.graph[n]| else 0, evs);
    ReachableItself(s, before, n);
    var all := [PreVisit(n)] + evs + [PostVisit(n)];
    forall i | 0 < i < |all| - 1
      ensures all[i].node != n
    {
      assert all[i] == evs[i - 1] && evs[i - 1] in evs;
    }
    forall i, j | 0 <= i < j < |all| && all[i] == all[j] ensures all[i].node.isModifier {
    }
  }

  lemma Regroup(a: seq<Event>, b: seq<Event>, c: seq<Event>)
    ensures a + b + c == a + (b + c)
  {
  }

  class Walker {
    const ID: nat
    const VisitPre: Node -> VisitAction
    const VisitPost: Node -> VisitAction
    ghost const graph: Graph
    ghost var trace: seq<Event>

    /** `graph` is the part of the syntax graph that the walk can get to. */
    constructor (id: nat, pre: Node -> VisitAction, post: Node -> VisitAction, ghost graph: Graph)
      requires Setting(graph, pre, post).Valid() && forall n :: n in graph ==> n.children == graph[n]
      ensures Valid() && trace == [] && ID == id && VisitPre == pre && VisitPost == post && this.graph == graph
    {
      ID, VisitPre, VisitPost := id, pre, post;
      this.graph, trace := graph, [];
    }

    ghost function Terms(): Setting {
      Setting(graph, VisitPre, VisitPost)
    }

    ghost predicate Valid()
      reads graph.Keys
    {
      Terms().Valid() && forall n :: n in graph ==> n.children == graph[n]
    }

    ghost function Stamped(): set<Node>
      reads graph.Keys
    {
      set n | n in graph && n.visitedByWalkerID == ID
    }

    method Walk(n: Node?) returns (action: VisitAction, ghost evs: seq<Event>)
      requires Valid() && (n != null ==> n in graph)
      modifies this`trace, graph.Keys`visitedByWalkerID
      ensures Outcome(Stamped(), evs, action) == WalkOf(Terms(), old(Stamped()), n)
      ensures Terms().Walked(old(Stamped()), Stamped(), n, evs, action) && action != KEEP_DECISION
      ensures trace == old(trace) + evs
      decreases graph.Keys - Stamped()
    {
      hide Setting.Walked, Setting.Valid, Closed, WalkAll;
      ghost var s := Terms();
      ghost var before := Stamped();
      WalkIsWalked(s, before, n);
      if n == null {
        return WALK_CHILDREN, [];
      }
      if !n.isModifier && n.visitedByWalkerID == ID {
        return WALK_CHILDREN, [];
      }
      n.visitedByWalkerID := ID;
      action := VisitPre(n);
      trace := trace + [PreVisit(n)];
      assert Stamped() == before + {n};
      if action == STOP_NOW {
        return STOP_NOW, [PreVisit(n)];
      }
      ghost var inner: seq<Event> := [];
      if action == WALK_CHILDREN {
        var i := 0;
        ChildrenInGraph(s, n);
        NoChild(s, before + {n}, s.graph[n]);
        while i < |n.children|
          invariant 0 <= i <= |n.children|
          invariant Outcome(Stamped(), inner, WALK_CHILDREN) == WalkAll(s, before + {n}, s.graph[n][..i])
          invariant trace == old(trace) + [PreVisit(n)] + inner && Valid()
        {
          ghost var middle := Stamped();
          OneMoreChild(s, before, n, i);
          var childAction, more := Walk(n.children[i]);
          if childAction == STOP_NOW {
            OthersUnvisited(s, before + {n}, s.graph[n], i + 1);
            Regroup(old(trace) + [PreVisit(n)], inner, more);
            Regroup(old(trace), [PreVisit(n)], inner + more);
            return STOP_NOW, [PreVisit(n)] + (inner + more);
          }
          Regroup(old(trace) + [PreVisit(n)], inner, more);
          inner := inner + more;
          i := i + 1;
        }
        assert s.graph[n][..i] == s.graph[n];
        action := WALK_CHILDREN;
      }
      var optionalAction := VisitPost(n);
      ghost var after := Stamped();
      trace := trace + [PostVisit(n)];
      assert Stamped() == after;
      if optionalAction != KEEP_DECISION {
        action := optionalAction;
      }
      evs := [PreVisit(n)] + inner + [PostVisit(n)];
      Regroup(old(trace), [PreVisit(n)], inner);
      Regroup(old(trace), [PreVisit(n)] + inner, [PostVisit(n)]);
    }
  }

  lemma ChildrenInGraph(s: Setting, n: Node)
    requires s.Valid() && n in s.graph
    ensures forall c: Node :: c in s.graph[n] ==> c in s.graph
    ensures n.isModifier ==> s.graph[n] == []
  {
  }

  lemma NoChild(s: Setting, stamped: set<Node>, nodes: seq<Node?>)
    requires s.Valid() && stamped <= s.graph.Keys
    ensures nodes[..0] == [] && WalkAll(s, stamped, []) == Outcome(stamped, [], WALK_CHILDREN)
  {
  }

  /** The walk of the first `i + 1` children is that of the first `i` and then that of the next. */
  lemma OneMoreChild(s: Setting, before: set<Node>, n: Node, i: nat)
    requires s.Valid() && before <= s.graph.Keys && n in s.graph && i < |s.graph[n]|
    ensures !n.isModifier && (s.graph[n][i] != null ==> s.graph[n][i] in s.graph)
    ensures var r := WalkAll(s, before + {n}, s.graph[n][..i]);
            var last := WalkOf(s, r.stamped, s.graph[n][i]);
            WalkAll(s, before + {n}, s.graph[n][..i + 1]) == if r.action == STOP_NOW then r else
              Outcome(last.stamped, r.evs + last.evs, if last.action == STOP_NOW then STOP_NOW else WALK_CHILDREN)
  {
    assert s.graph[n][i] in s.graph[n];
    assert s.graph[n][..i + 1][..i] == s.graph[n][..i];
  }

  /** Children behind the first `i` add callbacks behind theirs, for other nodes; and none if those stop the walk. */
  lemma {:induction false} OthersUnvisited(s: Setting, stamped: set<Node>, nodes: seq<Node?>, i: nat)
    requires s.Valid() && stamped <= s.graph.Keys && (forall n: Node :: n in nodes ==> n in s.graph) && i <= |nodes|
    ensures var some, all := WalkAll(s, stamped, nodes[..i]), WalkAll(s, stamped, nodes);
      && some.evs <= all.evs
      && (some.action == STOP_NOW ==> all == some)
      && (forall e :: e in all.evs[|some.evs|..] ==> e.node.isModifier || e.node !in some.stamped)
  {
    if i == |nodes| {
      assert nodes[..i] == nodes;
    } else {
      var fewer := nodes[..|nodes| - 1];
      OthersUnvisited(s, stamped, fewer, i);
      assert fewer[..i] == nodes[..i];
      var some, first, all := WalkAll(s, stamped, nodes[..i]), WalkAll(s, stamped, fewer), WalkAll(s, stamped, nodes);
      if first.action != STOP_NOW {
        var last := WalkOf(s, first.stamped, nodes[|nodes| - 1]);
        WalkIsWalked(s, first.stamped, nodes[|nodes| - 1]);
        StampsGrow(s, stamped, fewer, i);
        assert all.evs[|some.evs|..] == first.evs[|some.evs|..] + last.evs;
      }
    }
  }

  lemma {:induction false} StampsGrow(s: Setting, stamped: set<Node>, nodes: seq<Node?>, i: nat)
    requires s.Valid() && stamped <= s.graph.Keys && (forall n: Node :: n in nodes ==> n in s.graph) && i <= |nodes|
    ensures WalkAll(s, stamped, nodes[..i]).stamped <= WalkAll(s, stamped, nodes).stamped
  {
    if i == |nodes| {
      assert nodes[..i] == nodes;
    } else {
      assert nodes[..|nodes| - 1][..i] == nodes[..i];
      StampsGrow(s, stamped, nodes[..|nodes| - 1], i);
    }
  }

  // ----- what every walk does -----

  /** Every walk stamps, calls back and ends as it should. */
  lemma {:induction false} WalkIsWalked(s: Setting, before: set<Node>, n: Node?)
    requires s.Valid() && before <= s.graph.Keys && (n != null ==> n in s.graph)
    ensures var r := WalkOf(s, before, n);
            s.Walked(before, r.stamped, n, r.evs, r.action) && r.action != KEEP_DECISION
    decreases s.graph.Keys - before, 0
  {
    hide Setting.Walked, Setting.Entered, Closed;
    if n == null || (n in before && !n.isModifier) {
      NothingWalked(s, before, n);
    } else if s.pre(n) == STOP_NOW {
      StoppedBefore(s, before, n);
    } else {
      NodeEntered(s, before, n);
      ChildrenInGraph(s, n);
      var all := |s.graph[n]|;
      assert s.graph[n][..all] == s.graph[n];
      var r := WalkOf(s, before, n);
      if s.pre(n) == WALK_CHILDREN && all > 0 {
        ChildrenAreWalked(s, before, n, all);
        var inner := WalkAll(s, before + {n}, s.graph[n]);
        if inner.action != STOP_NOW {
          NodeDone(s, before, inner.stamped, n, inner.evs, r.action);
        }
      } else {
        NodeDone(s, before, before + {n}, n, [], r.action);
      }
    }
  }

  lemma {:induction false} ChildrenAreWalked(s: Setting, before: set<Node>, n: Node, i: nat)
    requires s.Valid() && before <= s.graph.Keys && n in s.graph && n !in before && !n.isModifier
    requires s.pre(n) == WALK_CHILDREN && i <= |s.graph[n]|
    ensures forall c: Node :: c in s.graph[n] ==> c in s.graph
    ensures var r := WalkAll(s, before + {n}, s.graph[n][..i]);
      && (forall e :: e in r.evs ==> ReachableFromOne(s.graph, s.pre, before + {n}, s.graph[n][..i], e.node))
      && if r.action == STOP_NOW then s.Walked(before, r.stamped, n, [PreVisit(n)] + r.evs, STOP_NOW)
         else r.action == WALK_CHILDREN && s.Entered(before, r.stamped, n, i, r.evs)
    decreases s.graph.Keys - before - {n}, i + 1
  {
    hide Setting.Walked, Setting.Entered, Setting.Valid, Closed, Reachable, ReachableFromOne;
    ChildrenInGraph(s, n);
    if i == 0 {
      NodeEntered(s, before, n);
    } else {
      ChildrenAreWalked(s, before, n, i - 1);
      OneMoreChild(s, before, n, i - 1);
      var r := WalkAll(s, before + {n}, s.graph[n][..i - 1]);
      if r.action == STOP_NOW {
        ReachedFromChild(s, before, before + {n}, n, i - 1, r.evs, []);
        assert r.evs + [] == r.evs;
      } else {
        var last := WalkOf(s, r.stamped, s.graph[n][i - 1]);
        WalkIsWalked(s, r.stamped, s.graph[n][i - 1]);
        AfterChild(s, before, r.stamped, n, i - 1, r.evs, last);
      }
    }
  }

  lemma AfterChild(s: Setting, before: set<Node>, middle: set<Node>, n: Node, i: nat, evs: seq<Event>, last: Outcome)
    requires n in s.graph && i < |s.graph[n]| && s.pre(n) == WALK_CHILDREN && n !in before && !n.isModifier
    requires s.Entered(before, middle, n, i, evs)
    requires s.Walked(middle, last.stamped, s.graph[n][i], last.evs, last.action)
    ensures forall e :: e in evs + last.evs ==>
      ReachableFromOne(s.graph, s.pre, before + {n}, s.graph[n][..i + 1], e.node)
    ensures if last.action == STOP_NOW
            then s.Walked(before, last.stamped, n, [PreVisit(n)] + (evs + last.evs), STOP_NOW)
            else s.Entered(before, last.stamped, n, i + 1, evs + last.evs)
  {
    hide Reachable, ReachableFromOne;
    ReachedFromChild(s, before, middle, n, i, evs, last.evs);
    if last.action == STOP_NOW {
      ChildStopped(s, before, middle, last.stamped, n, i, evs, last.evs);
    } else {
      ChildWalked(s, before, middle, last.stamped, n, i, evs, last.evs, last.action);
    }
  }

  lemma {:induction false} PathIsStamped(s: Setting, before: set<Node>, after: set<Node>, path: seq<Node>, from: Node,
                                         to: Node)
    requires s.Valid() && s.ChildrenStamped(after - before, after) && from in after
    requires IsPath(s.graph, s.pre, before, path, from, to)
    ensures to in after
    decreases |path|
  {
    if |path| > 1 {
      var next := path[1];
      assert path[0] == from && next in s.graph[from];
      PathIsStamped(s, before, after, path[1..], next, to);
    }
  }

  /**
   * A walk that nobody stops stamps, besides what was stamped already, exactly the nodes it can get to on paths of
   * nodes that it enters and that were not stamped.
   */
  lemma UnstoppedWalkStampsReachable(s: Setting, before: set<Node>, root: Node, m: Node)
    requires s.Valid() && before <= s.graph.Keys && root in s.graph && root !in before
    requires WalkOf(s, before, root).action != STOP_NOW
    ensures m in WalkOf(s, before, root).stamped <==> m in before || Reachable(s.graph, s.pre, before, root, m)
  {
    WalkIsWalked(s, before, root);
    var after := WalkOf(s, before, root).stamped;
    if Reachable(s.graph, s.pre, before, root, m) {
      var path :| IsPath(s.graph, s.pre, before, path, root, m);
      PathIsStamped(s, before, after, path, root, m);
    }
  }

  lemma ReachedFromChildIsStamped(s: Setting, before: set<Node>, after: set<Node>, n: Node, i: nat, evs: seq<Event>,
                                  m: Node)
    requires s.Valid() && s.Entered(before, after, n, i, evs)
    requires ReachableFromOne(s.graph, s.pre, before + {n}, s.graph[n][..i], m)
    ensures m in after
  {
    var some := s.graph[n][..i];
    var k :| 0 <= k < |some| && Reachable(s.graph, s.pre, before + {n}, some[k], m);
    var path :| IsPath(s.graph, s.pre, before + {n}, path, some[k], m);
    assert some[k] == s.graph[n][k];
    assert after - before - {n} == after - (before + {n});
    PathIsStamped(s, before + {n}, after, path, some[k], m);
  }

  /** The callbacks for a node that the walk enters enclose those of the walks of its children. */
  lemma BetweenItsCallbacks(s: Setting, before: set<Node>, n: Node)
    requires s.Valid() && before <= s.graph.Keys && n in s.graph && n !in before && s.pre(n) == WALK_CHILDREN
    requires forall c: Node :: c in s.graph[n] ==> c in s.graph
    ensures var r, all := WalkOf(s, before, n), WalkAll(s, before + {n}, s.graph[n]);
            r.evs == [PreVisit(n)] + all.evs + (if all.action == STOP_NOW then [] else [PostVisit(n)])
  {
  }

  /** The first `k` callbacks are for what can be reached from some nodes, and the others for nothing of it. */
  ghost predicate ComeFirst(s: Setting, stamped: set<Node>, some: seq<Node?>, evs: seq<Event>, k: nat) {
    && 1 <= k <= |evs|
    && (forall j :: 1 <= j < k ==> ReachableFromOne(s.graph, s.pre, stamped, some, evs[j].node))
    && (forall j :: k <= j < |evs| ==>
          evs[j].node.isModifier || !ReachableFromOne(s.graph, s.pre, stamped, some, evs[j].node))
  }

  /**
   * The children are walked in their order: behind the first callback for a node come first all those for what can be
   * reached from its first `i` children, wherever else that can be reached from, and then none of these any more. Only
   * modifiers are called back again.
   */
  lemma EarlierChildrenComeFirst(s: Setting, before: set<Node>, n: Node, i: nat)
    requires s.Valid() && before <= s.graph.Keys && n in s.graph && n !in before && !n.isModifier
    requires s.pre(n) == WALK_CHILDREN && i <= |s.graph[n]|
    ensures exists k :: ComeFirst(s, before + {n}, s.graph[n][..i], WalkOf(s, before, n).evs, k)
  {
    hide Reachable, ReachableFromOne, ComeFirst, Setting.Walked, Setting.Entered, Setting.Valid, Closed;
    ChildrenAreWalked(s, before, n, i);
    OthersUnvisited(s, before + {n}, s.graph[n], i);
    BetweenItsCallbacks(s, before, n);
    hide WalkOf, WalkAll;
    var some, all := WalkAll(s, before + {n}, s.graph[n][..i]), WalkAll(s, before + {n}, s.graph[n]);
    ComesFirstIs(s, before, n, i, some, all, if all.action == STOP_NOW then [] else [PostVisit(n)]);
    assert ComeFirst(s, before + {n}, s.graph[n][..i], WalkOf(s, before, n).evs, |some.evs| + 1);
  }

  lemma ComesFirstIs(s: Setting, before: set<Node>, n: Node, i: nat, some: Outcome, all: Outcome, tail: seq<Event>)
    requires s.Valid() && n in s.graph && i <= |s.graph[n]| && !n.isModifier
    requires some.evs <= all.evs && forall e :: e in tail ==> e.node == n
    requires if some.action == STOP_NOW then some.evs == all.evs && tail == []
             else s.Entered(before, some.stamped, n, i, some.evs)
    requires forall e :: e in some.evs ==> ReachableFromOne(s.graph, s.pre, before + {n}, s.graph[n][..i], e.node)
    requires forall e :: e in all.evs[|some.evs|..] ==> e.node.isModifier || e.node !in some.stamped
    ensures ComeFirst(s, before + {n}, s.graph[n][..i], [PreVisit(n)] + all.evs + tail, |some.evs| + 1)
  {
    hide Reachable, ReachableFromOne, Setting.Entered, Setting.Valid;
    var evs, rest := [PreVisit(n)] + all.evs + tail, all.evs[|some.evs|..] + tail;
    assert evs == [PreVisit(n)] + some.evs + rest;
    forall e | e in rest && !e.node.isModifier
      ensures !ReachableFromOne(s.graph, s.pre, before + {n}, s.graph[n][..i], e.node)
    {
      if ReachableFromOne(s.graph, s.pre, before + {n}, s.graph[n][..i], e.node) {
        ReachedIsNotStamped(s, before + {n}, s.graph[n][..i], e.node);
        ReachedFromChildIsStamped(s, before, some.stamped, n, i, some.evs, e.node);
      }
    }
    forall j | |some.evs| + 1 <= j < |evs|
      ensures evs[j] in rest
    {
      assert evs[j] == rest[j - |some.evs| - 1];
    }
  }

  lemma ReachedIsNotStamped(s: Setting, stamped: set<Node>, from: seq<Node?>, m: Node)
    requires ReachableFromOne(s.graph, s.pre, stamped, from, m)
    ensures m !in stamped || m.isModifier
  {
    var k :| 0 <= k < |from| && Reachable(s.graph, s.pre, stamped, from[k], m);
    var path :| IsPath(s.graph, s.pre, stamped, path, from[k], m);
    assert path[|path| - 1] == m;
  }

  /** The nodes that some callbacks open. */
  ghost function Opened(evs: seq<Event>): set<Node> {
    set e | e in evs && e.PreVisit? :: e.node
  }

  lemma OpenedConcat(a: seq<Event>, b: seq<Event>)
    ensures Opened(a + b) == Opened(a) + Opened(b)
  {
  }

  lemma OpenedOne(n: Node)
    ensures Opened([]) == Opened([PostVisit(n)]) == {} && Opened([PreVisit(n)]) == {n}
  {
  }

  /** A walk stamps the nodes that it opens. */
  lemma {:induction false} OpenedAreStamped(s: Setting, stamped: set<Node>, n: Node?)
    requires s.Valid() && stamped <= s.graph.Keys && (n != null ==> n in s.graph)
    ensures var r := WalkOf(s, stamped, n);
            r.stamped == stamped + Opened(r.evs)
    decreases s.graph.Keys - stamped, 0
  {
    hide Setting.Valid, Opened;
    if n == null || (n in stamped && !n.isModifier) {
      OpenedNothing();
    } else {
      OpenedOne(n);
      if s.pre(n) == WALK_CHILDREN && s.graph[n] != [] {
        ChildrenInGraph(s, n);
        AllOpenedAreStamped(s, stamped + {n}, s.graph[n]);
        var inner := WalkAll(s, stamped + {n}, s.graph[n]);
        OpenedConcat([PreVisit(n)], inner.evs);
        OpenedConcat([PreVisit(n)] + inner.evs, [PostVisit(n)]);
      } else {
        OpenedConcat([PreVisit(n)], []);
        OpenedConcat([PreVisit(n)] + [], [PostVisit(n)]);
      }
    }
  }

  lemma OpenedNothing()
    ensures Opened([]) == {}
  {
  }

  lemma {:induction false} AllOpenedAreStamped(s: Setting, stamped: set<Node>, nodes: seq<Node?>)
    requires s.Valid() && stamped <= s.graph.Keys && forall n: Node :: n in nodes ==> n in s.graph
    ensures var r := WalkAll(s, stamped, nodes);
            r.stamped == stamped + Opened(r.evs)
    decreases s.graph.Keys - stamped, |nodes| + 1
  {
    hide Setting.Valid, Opened;
    OpenedNothing();
    if nodes != [] {
      AllOpenedAreStamped(s, stamped, nodes[..|nodes| - 1]);
      var first := WalkAll(s, stamped, nodes[..|nodes| - 1]);
      if first.action != STOP_NOW {
        OpenedAreStamped(s, first.stamped, nodes[|nodes| - 1]);
        OpenedConcat(first.evs, WalkOf(s, first.stamped, nodes[|nodes| - 1]).evs);
      }
    }
  }

  /** From its `p`th callback on, `r` does what the walk from that node does with what is stamped by then. */
  ghost predicate Continues(s: Setting, stamped: set<Node>, r: Outcome, p: nat)
    requires s.Valid() && p < |r.evs|
  {
    var m, now := r.evs[p].node, stamped + Opened(r.evs[..p]);
    && m in s.graph && now <= s.graph.Keys
    && var w := WalkOf(s, now, m);
    && w.evs <= r.evs[p..]
    && (w.action == STOP_NOW ==> r.evs[p..] == w.evs && r.action == STOP_NOW)
  }

  /**
   * A walk is made of walks: wherever it opens a node, it goes on as the walk from that node would, with the nodes
   * stamped that are stamped by then.
   */
  lemma {:induction false} WalksAreMadeOfWalks(s: Setting, stamped: set<Node>, n: Node?, p: nat)
    requires s.Valid() && stamped <= s.graph.Keys && (n != null ==> n in s.graph)
    requires var evs := WalkOf(s, stamped, n).evs; p < |evs| && evs[p].PreVisit?
    ensures Continues(s, stamped, WalkOf(s, stamped, n), p)
    decreases s.graph.Keys - stamped, 0
  {
    hide Setting.Valid, Opened;
    var r := WalkOf(s, stamped, n);
    if p == 0 {
      OpenedNothing();
      assert r.evs[0].node == n && stamped + {} == stamped;
    } else {
      ChildrenInGraph(s, n);
      var inner := WalkAll(s, stamped + {n}, s.graph[n]);
      BetweenItsCallbacks(s, stamped, n);
      assert r.evs[p] == inner.evs[p - 1];
      ListsAreMadeOfWalks(s, stamped + {n}, s.graph[n], p - 1);
      OpenedOne(n);
      OpenedConcat([PreVisit(n)], inner.evs[..p - 1]);
      assert r.evs[..p] == [PreVisit(n)] + inner.evs[..p - 1];
      assert stamped + {n} + Opened(inner.evs[..p - 1]) == stamped + Opened(r.evs[..p]);
      assert r.evs[p..] == inner.evs[p - 1..] + if inner.action == STOP_NOW then [] else [PostVisit(n)];
    }
  }

  lemma {:induction false} ListsAreMadeOfWalks(s: Setting, stamped: set<Node>, nodes: seq<Node?>, p: nat)
    requires s.Valid() && stamped <= s.graph.Keys && forall n: Node :: n in nodes ==> n in s.graph
    requires var evs := WalkAll(s, stamped, nodes).evs; p < |evs| && evs[p].PreVisit?
    ensures Continues(s, stamped, WalkAll(s, stamped, nodes), p)
    decreases s.graph.Keys - stamped, |nodes| + 1
  {
    hide Setting.Valid, Opened, WalkOf;
    var fewer := nodes[..|nodes| - 1];
    var r, first := WalkAll(s, stamped, nodes), WalkAll(s, stamped, fewer);
    if p < |first.evs| {
      ListsAreMadeOfWalks(s, stamped, fewer, p);
      if first.action != STOP_NOW {
        var last := WalkOf(s, first.stamped, nodes[|nodes| - 1]);
        assert r.evs[p..] == first.evs[p..] + last.evs && r.evs[..p] == first.evs[..p];
      }
    } else {
      var last, q := WalkOf(s, first.stamped, nodes[|nodes| - 1]), p - |first.evs|;
      WalksAreMadeOfWalks(s, first.stamped, nodes[|nodes| - 1], q);
      AllOpenedAreStamped(s, stamped, fewer);
      OpenedConcat(first.evs, last.evs[..q]);
      assert r.evs[p..] == last.evs[q..] && r.evs[..p] == first.evs + last.evs[..q];
      assert stamped + Opened(r.evs[..p]) == first.stamped + Opened(last.evs[..q]);
    }
  }

  /** The same callbacks, but for their stops. */
  ghost predicate Unstopped(s: Setting, t: Setting) {
    && t.graph == s.graph
    && (forall n :: n in s.graph ==> t.pre(n) != STOP_NOW && (s.pre(n) != STOP_NOW ==> t.pre(n) == s.pre(n)))
    && (forall n :: n in s.graph ==> t.post(n) != STOP_NOW && (s.post(n) != STOP_NOW ==> t.post(n) == s.post(n)))
  }

  /** A stop cuts the walk off: what is called back is a beginning of what is called back when nobody stops. */
  lemma {:induction false} StopsCutTheWalk(s: Setting, t: Setting, stamped: set<Node>, n: Node?)
    requires s.Valid() && t.Valid() && Unstopped(s, t) && stamped <= s.graph.Keys && (n != null ==> n in s.graph)
    ensures var r, u := WalkOf(s, stamped, n), WalkOf(t, stamped, n);
            r.evs <= u.evs && (r.action != STOP_NOW ==> u == r) && u.action != STOP_NOW
    decreases s.graph.Keys - stamped, 0
  {
    hide Setting.Valid;
    if n != null && !(n in stamped && !n.isModifier) && t.pre(n) == WALK_CHILDREN && s.graph[n] != [] {
      ChildrenInGraph(s, n);
      StopsCutTheChildren(s, t, stamped + {n}, s.graph[n]);
    }
  }

  lemma {:induction false} StopsCutTheChildren(s: Setting, t: Setting, stamped: set<Node>, nodes: seq<Node?>)
    requires s.Valid() && t.Valid() && Unstopped(s, t) && stamped <= s.graph.Keys
    requires forall n: Node :: n in nodes ==> n in s.graph
    ensures var r, u := WalkAll(s, stamped, nodes), WalkAll(t, stamped, nodes);
            r.evs <= u.evs && (r.action != STOP_NOW ==> u == r) && u.action != STOP_NOW
    decreases s.graph.Keys - stamped, |nodes| + 1
  {
    hide Setting.Valid;
    if nodes != [] {
      StopsCutTheChildren(s, t, stamped, nodes[..|nodes| - 1]);
      StopsCutTheWalk(s, t, WalkAll(t, stamped, nodes[..|nodes| - 1]).stamped, nodes[|nodes| - 1]);
    }
  }

  lemma NothingWalked(s: Setting, before: set<Node>, n: Node?)
    requires before <= s.graph.Keys && (n != null ==> n in before && !n.isModifier)
    ensures s.Walked(before, before, n, [], WALK_CHILDREN)
  {
  }

  lemma StoppedBefore(s: Setting, before: set<Node>, n: Node)
    requires before <= s.graph.Keys && n in s.graph && s.pre(n) == STOP_NOW && (n in before ==> n.isModifier)
    ensures s.Walked(before, before + {n}, n, [PreVisit(n)], STOP_NOW)
  {
    ReachableItself(s, before, n);
  }

  lemma NodeEntered(s: Setting, before: set<Node>, n: Node)
    requires before <= s.graph.Keys && n in s.graph
    ensures s.Entered(before, before + {n}, n, 0, [])
  {
  }
}
