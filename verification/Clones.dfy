/**
 * The deep clone of a syntax tree, and the redirection of its cross references.
 *
 * A node owns its subnodes and has named reference slots that point anywhere. Cloning copies the owned tree and, while
 * it goes, records for every copied slot where its copy is. A last pass points each recorded slot whose target was
 * itself copied at the copy of that target.
 */
module Clones {
  import opened Wrappers

  /** The kinds of node whose slots the cloner treats differently. */
  datatype Kind =
    | RefExpr(isThis: bool) | ArrayExpr | ArrayLit | MemberAccess | ForInExpr | CallExpr | ReturnExpr | JumpExpr
    | OtherExpr | RefType | QualifiedType | FuncDecl | VarDecl | OtherDecl | FuncBody | Pattern | OtherNode
  {
    predicate IsDecl() { FuncDecl? || VarDecl? || OtherDecl? }

    predicate IsExpr() {
      RefExpr? || ArrayExpr? || ArrayLit? || MemberAccess? || ForInExpr? || CallExpr? || ReturnExpr? || JumpExpr?
      || OtherExpr?
    }

    /** The copies of these nodes are the targets that slots are redirected to. */
    predicate IsRemapped() { IsDecl() || IsExpr() || FuncBody? || Pattern? }
  }

  datatype Slot =
    | OuterDecl | GenericDecl | SourceExpr | MapExpr | BodyOwner | OuterFunc | ParentClassLike | ParentStruct
    | ParentEnum | CtxExpr | RefTarget | CallOrPattern | InitFunc | Target | Targets(index: nat)
    | PatternInDesugarExpr | ResolvedFunction | RefFuncBody | RefLoop | OwnerFunc | PropDecl | ParentPattern

  /** The fields of a node. A slot that holds null is not in `refs`. */
  datatype Fields = Fields(children: seq<Node?>, args: seq<Node?>, defaultArgs: seq<Node?>,
                           desugarArgs: Option<seq<Node?>>, targetCount: nat, refs: map<Slot, Node>)
  {
    /** The expression before the dot or the bracket of a member access or call, and the body of a function. */
    function Base(): Node? {
      if children == [] then null else children[0]
    }

    /** Default arguments only go along with desugared ones. */
    function CopiedDefaults(): seq<Node?> {
      if desugarArgs.Some? then defaultArgs else []
    }

    /** The owned subnodes that a clone copies. */
    function Owned(): seq<Node?> {
      children + args + CopiedDefaults()
    }

    function Get(slot: Slot): Node? {
      if slot in refs then refs[slot] else null
    }
  }

  class Node {
    const kind: Kind
    var fields: Fields

    constructor (kind: Kind)
      ensures this.kind == kind && fields == Fields([], [], [], None, 0, map[])
    {
      this.kind := kind;
      fields := Fields([], [], [], None, 0, map[]);
    }
  }

  /** What some nodes hold. */
  type Contents = map<Node, Fields>

  type Copies = map<Node, Node>

  datatype Addr = Addr(node: Node, slot: Slot)

  // ----- ownership trees -----

  /** For every node of a tree, the nodes strictly below it. */
  type Below = map<Node, set<Node>>

  ghost function Whole(below: Below, n: Node): set<Node>
    requires n in below
  {
    below[n] + {n}
  }

  /** The subnodes sit below `limit`, and no node sits in or below two of them. */
  ghost predicate Apart(below: Below, nodes: seq<Node?>, limit: set<Node>) {
    && (forall i :: 0 <= i < |nodes| && nodes[i] != null ==> nodes[i] in below && Whole(below, nodes[i]) <= limit)
    && (forall i, j :: 0 <= i < j < |nodes| && nodes[i] != null && nodes[j] != null
          ==> Whole(below, nodes[i]) !! Whole(below, nodes[j]))
  }

  /** The nodes in or below one of a list of subnodes. */
  ghost function Span(below: Below, nodes: seq<Node?>): set<Node> {
    set n: Node, d | n in nodes && n in below && d in Whole(below, n) :: d
  }

  /** Ownership is by unique pointers, so the owned nodes form a tree; only calls have arguments. */
  ghost predicate IsTree(source: Contents, below: Below) {
    && source.Keys == below.Keys
    && (forall n :: n in below ==>
      && n !in below[n] && below[n] <= below.Keys
      && Apart(below, source[n].Owned(), below[n])
      && below[n] == Span(below, source[n].Owned())
      && (n.kind.FuncDecl? ==> source[n].Base() != null)
      && (!n.kind.CallExpr? ==> source[n].args == [] && source[n].desugarArgs.None?))
    && (forall p, q, c: Node :: p in below && q in below && c in source[p].Owned() && c in source[q].Owned() ==> p == q)
  }

  lemma SpanSteps(below: Below, nodes: seq<Node?>, limit: set<Node>, i: nat)
    requires Apart(below, nodes, limit) && i <= |nodes|
    ensures Span(below, nodes[..0]) == {}
    ensures i < |nodes| && nodes[i] == null ==> Span(below, nodes[..i + 1]) == Span(below, nodes[..i])
    ensures i < |nodes| && nodes[i] != null ==>
      && nodes[i] in below
      && Span(below, nodes[..i + 1]) == Span(below, nodes[..i]) + Whole(below, nodes[i])
      && Span(below, nodes[..i]) !! Whole(below, nodes[i])
      && Whole(below, nodes[i]) <= Span(below, nodes)
      && Whole(below, nodes[i]) <= limit
  {
    if i < |nodes| {
      assert nodes[..i + 1] == nodes[..i] + [nodes[i]];
      assert nodes[i] in nodes;
    }
  }

  lemma BaseIsInTree(source: Contents, below: Below, n: Node)
    requires IsTree(source, below) && n in source
    ensures source[n].Base() != null ==> source[n].Base() in source
  {
    assert source[n].Base() != null ==> source[n].Owned()[0] == source[n].Base();
  }

  // ----- which slots are recorded -----

  predicate IsThisAccess(fields: Fields) {
    fields.Base() != null && fields.Base().kind == RefExpr(true)
  }

  /** A call records its function unless it goes through a member access on something other than `this`. */
  ghost predicate CallsOnThis(source: Contents, fields: Fields) {
    var ma := fields.Base();
    ma != null && ma.kind.MemberAccess? ==> ma in source && IsThisAccess(source[ma])
  }

  ghost function CommonSlots(kind: Kind): set<Slot> {
    if kind.IsDecl() then {OuterDecl, GenericDecl}
    else if kind.IsExpr() then {SourceExpr, MapExpr}
    else if kind.FuncBody? then {BodyOwner, OuterFunc, ParentClassLike, ParentStruct, ParentEnum}
    else if kind.Pattern? then {CtxExpr}
    else {}
  }

  ghost function TargetSlots(count: nat): set<Slot> {
    set i | 0 <= i < count :: Targets(i)
  }

  ghost function KindSlots(source: Contents, n: Node): set<Slot>
    requires n in source
  {
    var fields := source[n];
    match n.kind
    case RefExpr(_) => {RefTarget, CallOrPattern}
    case ArrayExpr => {InitFunc}
    case ArrayLit => {InitFunc}
    case MemberAccess => if IsThisAccess(fields) then {Target, CallOrPattern} + TargetSlots(fields.targetCount) else {}
    case ForInExpr => {PatternInDesugarExpr}
    case CallExpr => if CallsOnThis(source, fields) then {ResolvedFunction} else {}
    case ReturnExpr => {RefFuncBody}
    case JumpExpr => {RefLoop}
    case RefType => {RefTarget}
    case QualifiedType => {Target}
    case FuncDecl => {OwnerFunc, PropDecl}
    case VarDecl => {ParentPattern}
    case _ => {}
  }

  /** The slots of a node that can be redirected in its copy; null slots are not recorded. */
  ghost function RecordedSlots(source: Contents, n: Node): set<Slot>
    requires n in source
  {
    (CommonSlots(n.kind) + KindSlots(source, n)) * source[n].refs.Keys
  }

  // ----- what a clone looks like -----

  ghost function Image(copies: Copies, n: Node?): Node? {
    if n != null && n in copies then copies[n] else null
  }

  ghost function Images(copies: Copies, nodes: seq<Node?>): (r: seq<Node?>)
    ensures |r| == |nodes| && forall i :: 0 <= i < |nodes| ==> r[i] == Image(copies, nodes[i])
  {
    seq(|nodes|, i requires 0 <= i < |nodes| => Image(copies, nodes[i]))
  }

  /** The arguments of a call, as they are once the call is desugared, name arguments that the call owns. */
  ghost function ImageOfArg(copies: Copies, f: Fields, arg: Node?): Node? {
    if arg in f.args || arg in f.CopiedDefaults() then Image(copies, arg) else null
  }

  ghost predicate AreImagesOfArgs(copies: Copies, f: Fields, desugarArgs: Option<seq<Node?>>) {
    if f.desugarArgs.None? then desugarArgs.None?
    else
      && desugarArgs.Some? && |desugarArgs.value| == |f.desugarArgs.value|
      && forall k :: 0 <= k < |desugarArgs.value| ==>
         desugarArgs.value[k] == ImageOfArg(copies, f, f.desugarArgs.value[k])
  }

  /** The owned subnodes of the copy are the copies of the owned subnodes, place by place. */
  ghost predicate Mirrors(copies: Copies, f: Fields, g: Fields) {
    && g.children == Images(copies, f.children)
    && g.args == Images(copies, f.args)
    && g.defaultArgs == Images(copies, f.CopiedDefaults())
    && AreImagesOfArgs(copies, f, g.desugarArgs)
    && g.targetCount == f.targetCount
  }

  /** The references that copying the fields of `n` writes into its copy `c`. */
  function CopiedRefs(refs: map<Slot, Node>, n: Node, c: Node): map<Slot, Node> {
    map slot | slot in refs && slot != GenericDecl && slot != BodyOwner ::
      if slot == MapExpr && refs[slot] == n then c else refs[slot]
  }

  /** The copy of `p` writes itself into a slot of the copy of its subnode `n`. */
  ghost predicate Rebinds(source: Contents, p: Node, n: Node, slot: Slot)
    requires p in source
  {
    && source[p].Base() == n
    && ((p.kind.CallExpr? && n.kind.MemberAccess? && slot == CallOrPattern)
        || (p.kind.FuncDecl? && n.kind.FuncBody? && slot == BodyOwner))
  }

  /** The node whose copy binds itself into a slot of the copy of `n`. */
  ghost function Binder(source: Contents, n: Node, slot: Slot): Node? {
    if exists p :: p in source && Rebinds(source, p, n, slot) then
      var p :| p in source && Rebinds(source, p, n, slot); p
    else null
  }

  lemma BinderIs(source: Contents, below: Below, p: Node, n: Node, slot: Slot)
    requires IsTree(source, below) && p in source && Rebinds(source, p, n, slot)
    ensures Binder(source, n, slot) == p
  {
    var q := Binder(source, n, slot);
    assert n in source[p].Owned() && n in source[q].Owned();
  }

  // ----- the state of a cloner -----

  ghost function Remapped(copies: Copies): Copies {
    map n | n in copies && n.kind.IsRemapped() :: copies[n]
  }

  /** The table of slot addresses has exactly the recorded slots of the copied nodes. */
  ghost predicate IsAddressBook(source: Contents, copies: Copies, table: map<Addr, Addr>)
    requires copies.Keys <= source.Keys
  {
    && (forall a :: a in table ==>
          a.node in copies && a.slot in RecordedSlots(source, a.node) && table[a] == Addr(copies[a.node], a.slot))
    && (forall n, slot :: n in copies && slot in RecordedSlots(source, n) ==> Addr(n, slot) in table)
  }

  /** What a slot of a copy holds before any redirection: what field copying wrote, or the copy that bound it. */
  ghost function FirstRef(source: Contents, copies: Copies, n: Node, slot: Slot): Node?
    requires n in source && n in copies
  {
    var p := Binder(source, n, slot);
    var refs := CopiedRefs(source[n].refs, n, copies[n]);
    if p != null && p in copies then copies[p] else if slot in refs then refs[slot] else null
  }

  /** The copies are new, different nodes that mirror what they are copies of. */
  ghost predicate Mirrored(source: Contents, below: Below, copies: Copies, held: Contents)
    requires IsTree(source, below) && copies.Keys <= source.Keys
  {
    && (forall n :: n in copies ==> copies[n] in held && copies[n] !in source && copies[n].kind == n.kind)
    && (forall n, m :: n in copies && m in copies && n != m ==> copies[n] != copies[m])
    && (forall n :: n in copies ==> below[n] <= copies.Keys && Mirrors(copies, source[n], held[copies[n]]))
  }

  ghost predicate Written(source: Contents, copies: Copies, held: Contents)
    requires copies.Keys <= source.Keys && forall n :: n in copies ==> copies[n] in held
  {
    forall n, slot :: n in copies ==> held[copies[n]].Get(slot) == FirstRef(source, copies, n, slot)
  }

  // ----- one more copy -----

  /** The copy `c` of `n` with its fields `g` is added, and `n`'s first subnode is bound to it where that applies. */
  ghost function Adopted(source: Contents, copies: Copies, held: Contents, n: Node, c: Node, g: Fields): Contents
    requires n in source
  {
    var b := source[n].Base();
    var h := held[c := g];
    if b != null && b in copies && copies[b] in h && n.kind.CallExpr? && b.kind.MemberAccess? then
      h[copies[b] := h[copies[b]].(refs := h[copies[b]].refs[CallOrPattern := c])]
    else if b != null && b in copies && copies[b] in h && n.kind.FuncDecl? && b.kind.FuncBody? then
      h[copies[b] := h[copies[b]].(refs := h[copies[b]].refs[BodyOwner := c])]
    else h
  }

  lemma ImagesKept(copies: Copies, more: Copies, nodes: seq<Node?>)
    requires forall n :: n in copies ==> n in more && more[n] == copies[n]
    requires forall n: Node :: n in nodes ==> n in copies
    ensures Images(more, nodes) == Images(copies, nodes)
  {
  }

  lemma MirrorsKept(copies: Copies, more: Copies, f: Fields, g: Fields, refs: map<Slot, Node>)
    requires forall n :: n in copies ==> n in more && more[n] == copies[n]
    requires forall n: Node :: n in f.Owned() ==> n in copies
    requires Mirrors(copies, f, g)
    ensures Mirrors(more, f, g.(refs := refs))
  {
    ImagesKept(copies, more, f.children);
    ImagesKept(copies, more, f.args);
    ImagesKept(copies, more, f.CopiedDefaults());
  }

  lemma MirroredStep(source: Contents, below: Below, copies: Copies, held: Contents, n: Node, c: Node, g: Fields)
    requires IsTree(source, below) && copies.Keys <= source.Keys && Mirrored(source, below, copies, held)
    requires n in source && n !in copies && below[n] <= copies.Keys
    requires c !in copies.Values && c !in source && c.kind == n.kind
    requires Mirrors(copies, source[n], g)
    ensures Mirrored(source, below, copies[n := c], Adopted(source, copies, held, n, c, g))
  {
    hide IsTree, Images, AreImagesOfArgs, Adopted, Mirrors, Whole;
    var more := copies[n := c];
    var h := Adopted(source, copies, held, n, c, g);
    AdoptedKeys(source, copies, held, n, c, g);
    forall m | m in more
      ensures more[m] in h && m in below && below[m] <= more.Keys && Mirrors(more, source[m], h[more[m]])
    {
      OwnedAreBelow(source, below, m);
      SameButRefs(source, copies, held, n, c, g, more[m]);
      if m == n {
        MirrorsKept(copies, more, source[n], g, h[c].refs);
      } else {
        MirrorsKept(copies, more, source[m], held[copies[m]], h[copies[m]].refs);
      }
    }
  }

  lemma AdoptedKeys(source: Contents, copies: Copies, held: Contents, n: Node, c: Node, g: Fields)
    requires n in source
    ensures Adopted(source, copies, held, n, c, g).Keys == held.Keys + {c}
  {
  }

  lemma SameButRefs(source: Contents, copies: Copies, held: Contents, n: Node, c: Node, g: Fields, d: Node)
    requires n in source && (d == c || d in held)
    ensures var h := Adopted(source, copies, held, n, c, g);
            d in h && h[d] == (if d == c then g else held[d]).(refs := h[d].refs)
  {
  }

  lemma BelowShrinks(source: Contents, below: Below, n: Node, m: Node)
    requires IsTree(source, below) && n in below && m in below && Whole(below, m) <= below[n]
    ensures below[m] < below[n]
  {
  }

  lemma Spanned(below: Below, nodes: seq<Node?>, limit: set<Node>)
    requires Apart(below, nodes, limit)
    ensures forall n: Node :: n in nodes ==> n in Span(below, nodes)
  {
  }

  lemma SpanOfNone(below: Below)
    ensures Span(below, []) == {}
  {
  }

  lemma ApartSplit(below: Below, a: seq<Node?>, b: seq<Node?>, limit: set<Node>)
    requires Apart(below, a + b, limit)
    ensures Apart(below, a, limit) && Apart(below, b, limit)
    ensures Span(below, a) !! Span(below, b) && Span(below, a + b) == Span(below, a) + Span(below, b)
  {
    var ab := a + b;
    assert forall i :: 0 <= i < |b| ==> b[i] == ab[|a| + i];
    assert forall i :: 0 <= i < |a| ==> a[i] == ab[i];
    assert forall n: Node :: n in ab <==> n in a || n in b;
    forall m, n: Node | m in a && n in b && m in below && n in below
      ensures Whole(below, m) !! Whole(below, n)
    {
      var i :| 0 <= i < |a| && a[i] == m;
      var j :| 0 <= j < |b| && b[j] == n;
      assert ab[i] == m && ab[|a| + j] == n;
    }
  }

  /** The subnodes that a node owns fall into three lists that do not overlap and together span what is below it. */
  lemma OwnedSpans(source: Contents, below: Below, n: Node)
    requires IsTree(source, below) && n in source
    ensures var f := source[n];
      && Apart(below, f.children, below[n]) && Apart(below, f.args, below[n])
      && Apart(below, f.CopiedDefaults(), below[n])
      && Span(below, f.children) !! Span(below, f.args)
      && Span(below, f.children) + Span(below, f.args) !! Span(below, f.CopiedDefaults())
      && below[n] == Span(below, f.children) + (Span(below, f.args) + Span(below, f.CopiedDefaults()))
      && n !in below[n]
      && (!n.kind.CallExpr? ==> f.args == [] && f.desugarArgs.None?
                                && Span(below, f.args) + Span(below, f.CopiedDefaults()) == {})
  {
    var f := source[n];
    ApartSplit(below, f.children + f.args, f.CopiedDefaults(), below[n]);
    ApartSplit(below, f.children, f.args, below[n]);
  }

  lemma OwnedAreBelow(source: Contents, below: Below, n: Node)
    requires IsTree(source, below) && n in source
    ensures n in below && forall m: Node :: m in source[n].Owned() ==> m in below[n] && Whole(below, m) <= below[n]
  {
  }

  lemma WrittenStep(source: Contents, below: Below, copies: Copies, held: Contents, n: Node, c: Node, g: Fields)
    requires IsTree(source, below) && copies.Keys <= source.Keys && Mirrored(source, below, copies, held)
    requires Written(source, copies, held)
    requires n in source && n !in copies && below[n] <= copies.Keys
    requires c !in copies.Values && c !in source && g.refs == CopiedRefs(source[n].refs, n, c)
    ensures var more := copies[n := c];
            forall m :: m in more ==> more[m] in Adopted(source, copies, held, n, c, g)
    ensures Written(source, copies[n := c], Adopted(source, copies, held, n, c, g))
  {
    hide IsTree, Mirrors, CopiedRefs, FirstRef;
    var more := copies[n := c];
    var h := Adopted(source, copies, held, n, c, g);
    OwnedAreBelow(source, below, n);
    forall m, slot | m in more
      ensures h[more[m]].Get(slot) == FirstRef(source, more, m, slot)
    {
      if m == n {
        FirstRefOfNew(source, below, copies, n, c, slot);
      } else {
        FirstRefKept(source, below, copies, n, c, m, slot);
      }
    }
  }

  lemma FirstRefOfNew(source: Contents, below: Below, copies: Copies, n: Node, c: Node, slot: Slot)
    requires IsTree(source, below) && copies.Keys <= source.Keys && n in source && n !in copies
    requires forall m :: m in copies ==> below[m] <= copies.Keys
    ensures var refs := CopiedRefs(source[n].refs, n, c);
            FirstRef(source, copies[n := c], n, slot) == if slot in refs then refs[slot] else null
  {
    var p := Binder(source, n, slot);
    if p != null {
      OwnedAreBelow(source, below, p);
    }
  }

  lemma FirstRefKept(source: Contents, below: Below, copies: Copies, n: Node, c: Node, m: Node, slot: Slot)
    requires IsTree(source, below) && copies.Keys <= source.Keys && n in source && n !in copies && m in copies
    ensures FirstRef(source, copies[n := c], m, slot)
         == if Rebinds(source, n, m, slot) then c else FirstRef(source, copies, m, slot)
  {
    hide IsTree, CopiedRefs, Rebinds;
    if Rebinds(source, n, m, slot) {
      BinderIs(source, below, n, m, slot);
    }
  }

  lemma BaseIsCopied(source: Contents, below: Below, copies: Copies, held: Contents, n: Node, g: Fields)
    requires IsTree(source, below) && copies.Keys <= source.Keys && Mirrored(source, below, copies, held)
    requires n in source && below[n] <= copies.Keys && Mirrors(copies, source[n], g)
    ensures var b := source[n].Base();
            && g.Base() == Image(copies, b)
            && (b != null ==> b in copies && copies[b] in held && copies[b].kind == b.kind)
  {
    OwnedAreBelow(source, below, n);
    assert source[n].Base() != null ==> source[n].Owned()[0] == source[n].Base();
  }

  // ----- recording slots -----

  /** The table of slot addresses after some slots of `from` were recorded; slots that hold null are left out. */
  ghost function WithSlots(table: map<Addr, Addr>, refs: map<Slot, Node>, from: Node, target: Node, slots: set<Slot>)
    : map<Addr, Addr>
  {
    table + map slot | slot in slots * refs.Keys :: Addr(from, slot) := Addr(target, slot)
  }

  lemma RecordedIn(table: map<Addr, Addr>, refs: map<Slot, Node>, from: Node, target: Node, slots: set<Slot>, a: Addr)
    ensures var t := WithSlots(table, refs, from, target, slots);
            var here := a.node == from && a.slot in slots && a.slot in refs;
            && (a in t <==> here || a in table)
            && (a in t ==> t[a] == if here then Addr(target, a.slot) else table[a])
  {
  }

  lemma WithNoSlots(table: map<Addr, Addr>, refs: map<Slot, Node>, from: Node, target: Node)
    ensures table == WithSlots(table, refs, from, target, {})
  {
    assert {} * refs.Keys == {};
  }

  lemma WithOneMore(table: map<Addr, Addr>, refs: map<Slot, Node>, from: Node, target: Node, slots: set<Slot>,
                    slot: Slot)
    ensures var t := WithSlots(table, refs, from, target, slots);
            WithSlots(table, refs, from, target, slots + {slot})
            == if slot in refs then t[Addr(from, slot) := Addr(target, slot)] else t
  {
    var t := WithSlots(table, refs, from, target, slots);
    var u := WithSlots(table, refs, from, target, slots + {slot});
    var v := if slot in refs then t[Addr(from, slot) := Addr(target, slot)] else t;
    forall a: Addr
      ensures a in u <==> a in v
      ensures a in u ==> u[a] == v[a]
    {
      RecordedIn(table, refs, from, target, slots, a);
      RecordedIn(table, refs, from, target, slots + {slot}, a);
    }
  }

  lemma AddressBookStep(source: Contents, copies: Copies, table: map<Addr, Addr>, n: Node, c: Node)
    requires copies.Keys <= source.Keys && n in source && n !in copies && IsAddressBook(source, copies, table)
    ensures IsAddressBook(source, copies[n := c],
              WithSlots(table, source[n].refs, n, c, CommonSlots(n.kind) + KindSlots(source, n)))
  {
    hide CommonSlots, KindSlots;
    var slots := CommonSlots(n.kind) + KindSlots(source, n);
    var more := WithSlots(table, source[n].refs, n, c, slots);
    forall a | a in more
      ensures a.node in copies[n := c] && a.slot in RecordedSlots(source, a.node)
      ensures more[a] == Addr(copies[n := c][a.node], a.slot)
    {
      RecordedIn(table, source[n].refs, n, c, slots, a);
    }
    forall m, slot | m in copies[n := c] && slot in RecordedSlots(source, m)
      ensures Addr(m, slot) in more
    {
      RecordedIn(table, source[n].refs, n, c, slots, Addr(m, slot));
    }
  }

  /** The copies made so far, what they hold, and the tables, fit together. */
  ghost predicate IsCloning(source: Contents, below: Below, copies: Copies, held: Contents, source2cloned: Copies,
                            table: map<Addr, Addr>)
  {
    && IsTree(source, below) && copies.Keys <= source.Keys
    && Mirrored(source, below, copies, held) && Written(source, copies, held)
    && source2cloned == Remapped(copies)
    && IsAddressBook(source, copies, table)
  }

  lemma RemappedStep(copies: Copies, n: Node, c: Node)
    requires n !in copies
    ensures Remapped(copies[n := c]) == if n.kind.IsRemapped() then Remapped(copies)[n := c] else Remapped(copies)
  {
  }

  lemma CloningStep(source: Contents, below: Below, copies: Copies, held: Contents, source2cloned: Copies,
                    table: map<Addr, Addr>, n: Node, c: Node, g: Fields)
    requires IsCloning(source, below, copies, held, source2cloned, table)
    requires n in source && n !in copies && below[n] <= copies.Keys
    requires c !in held && c !in source && c.kind == n.kind
    requires Mirrors(copies, source[n], g) && g.refs == CopiedRefs(source[n].refs, n, c)
    ensures IsCloning(source, below, copies[n := c], Adopted(source, copies, held, n, c, g),
              if n.kind.IsRemapped() then source2cloned[n := c] else source2cloned,
              WithSlots(table, source[n].refs, n, c, CommonSlots(n.kind) + KindSlots(source, n)))
    ensures var b := source[n].Base();
            && g.Base() == Image(copies, b)
            && (b != null ==> b in source && b in copies && copies[b] in held && copies[b].kind == b.kind)
  {
    BaseIsInTree(source, below, n);
    BaseIsCopied(source, below, copies, held, n, g);
    MirroredStep(source, below, copies, held, n, c, g);
    WrittenStep(source, below, copies, held, n, c, g);
    AddressBookStep(source, copies, table, n, c);
    hide IsTree, Mirrors, CopiedRefs, WithSlots, Adopted, RecordedSlots, FirstRef, Remapped;
    RemappedStep(copies, n, c);
  }

  /** Exactly the nodes of `more` were given copies, and those copies are new. */
  ghost predicate Grown(copies: Copies, held: Contents, copies': Copies, held': Contents, more: set<Node>) {
    && copies'.Keys == copies.Keys + more
    && (forall m :: m in copies ==> copies'[m] == copies[m])
    && held.Keys <= held'.Keys
    && (forall m :: m in more ==> copies'[m] in held' && copies'[m] !in held)
  }

  lemma GrownTwice(copies: Copies, held: Contents, copies': Copies, held': Contents, more: set<Node>,
                   copies'': Copies, held'': Contents, more': set<Node>)
    requires Grown(copies, held, copies', held', more) && Grown(copies', held', copies'', held'', more')
    ensures Grown(copies, held, copies'', held'', more + more')
  {
  }

  lemma GrownByOne(copies: Copies, held: Contents, n: Node, c: Node, held': Contents)
    requires c !in held && held'.Keys == held.Keys + {c} && n !in copies
    ensures Grown(copies, held, copies[n := c], held', {n})
  {
  }

  lemma SpannedIsCopied(copies: Copies, held: Contents, copies': Copies, held': Contents, more: set<Node>)
    requires Grown(copies, held, copies', held', more)
    ensures more <= copies'.Keys
  {
  }

  lemma GrownFromNone(copies: Copies, held: Contents, copies': Copies, held': Contents, more: set<Node>)
    requires Grown(copies, held, copies', held', more) && copies == map[]
    ensures copies'.Keys == more
  {
  }

  lemma NewImage(copies: Copies, held: Contents, copies': Copies, held': Contents, more: set<Node>, n: Node?)
    requires Grown(copies, held, copies', held', more) && (n == null || n in more)
    ensures Image(copies', n) == null || (Image(copies', n) in held' && Image(copies', n) !in held)
  {
  }

  lemma NoImages(copies: Copies, f: Fields)
    requires f.args == [] && f.desugarArgs.None?
    ensures Images(copies, f.args) == [] && Images(copies, f.CopiedDefaults()) == [] && AreImagesOfArgs(copies, f, None)
  {
  }

  lemma NotDesugared(copies: Copies, f: Fields)
    requires f.desugarArgs.None?
    ensures AreImagesOfArgs(copies, f, None)
  {
  }

  lemma NotGrown(copies: Copies, held: Contents)
    ensures Grown(copies, held, copies, held, {})
  {
  }

  lemma NotYet(copies: Copies, held: Contents, copies': Copies, held': Contents, all: set<Node>, more: set<Node>,
               next: set<Node>)
    requires Grown(copies, held, copies', held', more) && all !! copies.Keys && next <= all && more !! next
    ensures next !! copies'.Keys
  {
  }

  lemma ImagesGrown(copies: Copies, held: Contents, copies': Copies, held': Contents, more: set<Node>,
                    nodes: seq<Node?>)
    requires Grown(copies, held, copies', held', more)
    requires forall n: Node :: n in nodes ==> n in copies
    ensures Images(copies', nodes) == Images(copies, nodes) && forall n: Node :: n in nodes ==> n in copies'
  {
  }

  /**
   * Desugared arguments that are looked up in a table of the arguments and the copied defaults are the right images.
   */
  lemma LookedUp(copies: Copies, held: Contents, copies': Copies, held': Contents, more: set<Node>, f: Fields,
                 args: map<Node?, Node?>, all: map<Node?, Node?>, named: seq<Node?>)
    requires Grown(copies, held, copies', held', more) && f.desugarArgs.Some?
    requires forall n: Node :: n in f.args ==> n in copies
    requires args.Keys == set x | x in f.args
    requires forall x :: x in args ==> args[x] == Image(copies, x)
    requires all.Keys == args.Keys + set x | x in f.CopiedDefaults()
    requires forall x :: x in all ==> all[x] == if x in f.CopiedDefaults() then Image(copies', x) else args[x]
    requires |named| == |f.desugarArgs.value|
    requires forall k :: 0 <= k < |named| ==>
      named[k] == if f.desugarArgs.value[k] in all then all[f.desugarArgs.value[k]] else null
    ensures AreImagesOfArgs(copies', f, Some(named))
  {
  }

  // ----- redirection -----

  /** Whether the last pass points this slot of the copy of `n` at another copy. */
  ghost predicate IsRedirected(source: Contents, copies: Copies, n: Node, slot: Slot)
    requires n in source
  {
    && slot in RecordedSlots(source, n)
    && source[n].refs[slot] in copies && source[n].refs[slot].kind.IsRemapped()
  }

  /** What a slot of a copy holds in the end. */
  ghost function FinalRef(source: Contents, copies: Copies, n: Node, slot: Slot): Node?
    requires n in source && n in copies
  {
    if IsRedirected(source, copies, n, slot) then copies[source[n].refs[slot]] else FirstRef(source, copies, n, slot)
  }

  /** The last pass has visited the addresses in `done`. */
  ghost predicate Rearranged(source: Contents, copies: Copies, held: Contents, done: set<Addr>, now: Contents)
  {
    && copies.Keys <= source.Keys && (forall n :: n in copies ==> copies[n] in held)
    && now.Keys == held.Keys
    && forall n :: n in copies ==>
      && now[copies[n]] == held[copies[n]].(refs := now[copies[n]].refs)
      && forall slot :: now[copies[n]].Get(slot)
           == if Addr(n, slot) in done then FinalRef(source, copies, n, slot) else FirstRef(source, copies, n, slot)
  }

  /** A copy with every slot as it is in the end. */
  ghost predicate IsClone(source: Contents, below: Below, copies: Copies, held: Contents) {
    && IsTree(source, below) && copies.Keys <= source.Keys
    && Mirrored(source, below, copies, held)
    && forall n, slot :: n in copies ==> held[copies[n]].Get(slot) == FinalRef(source, copies, n, slot)
  }

  /** One step of the last pass, for the slot at address `a`. */
  ghost function Redirected(source: Contents, copies: Copies, now: Contents, a: Addr): Contents
    requires a.node in source && a.node in copies && copies[a.node] in now
  {
    if IsRedirected(source, copies, a.node, a.slot) then
      var t := copies[a.node];
      now[t := now[t].(refs := now[t].refs[a.slot := copies[source[a.node].refs[a.slot]]])]
    else now
  }

  lemma NotRearranged(source: Contents, below: Below, copies: Copies, held: Contents)
    requires IsTree(source, below) && copies.Keys <= source.Keys && Mirrored(source, below, copies, held)
    requires Written(source, copies, held)
    ensures Rearranged(source, copies, held, {}, held)
  {
  }

  lemma AllRearranged(source: Contents, below: Below, copies: Copies, held: Contents, table: map<Addr, Addr>,
                      now: Contents)
    requires IsTree(source, below) && copies.Keys <= source.Keys && Mirrored(source, below, copies, held)
    requires IsAddressBook(source, copies, table) && Rearranged(source, copies, held, table.Keys, now)
    ensures IsClone(source, below, copies, now)
  {
    hide IsTree, RecordedSlots, FirstRef;
  }

  lemma AtAddress(source: Contents, below: Below, copies: Copies, held: Contents, table: map<Addr, Addr>,
                  done: set<Addr>, now: Contents, a: Addr)
    requires IsTree(source, below) && copies.Keys <= source.Keys && Mirrored(source, below, copies, held)
    requires IsAddressBook(source, copies, table) && a in table && Rearranged(source, copies, held, done, now)
    ensures a.node in copies && a.node in source && a.slot in source[a.node].refs
    ensures table[a] == Addr(copies[a.node], a.slot) && copies[a.node] in now
    ensures IsRedirected(source, copies, a.node, a.slot) <==> source[a.node].refs[a.slot] in Remapped(copies)
    ensures var s := source[a.node].refs[a.slot]; s in Remapped(copies) ==>
      s in copies && Remapped(copies)[s] == copies[s]
  {
  }

  lemma RedirectedStep(source: Contents, below: Below, copies: Copies, held: Contents, done: set<Addr>, now: Contents,
                       a: Addr)
    requires IsTree(source, below) && copies.Keys <= source.Keys && Mirrored(source, below, copies, held)
    requires Rearranged(source, copies, held, done, now) && a.node in copies && copies[a.node] in now
    ensures Rearranged(source, copies, held, done + {a}, Redirected(source, copies, now, a))
  {
    hide IsTree, Mirrors, FirstRef, RecordedSlots;
  }

  // ----- what a finished clone is -----

  /** No reference of the source points into the copies, which did not exist yet. */
  ghost predicate ReferencesPredate(source: Contents, copies: Copies) {
    forall n, slot, m :: n in source && slot in source[n].refs && m in copies ==> source[n].refs[slot] != copies[m]
  }

  /**
   * References among the copies are those among the originals: a slot of a copy holds the copy of `m` exactly when the
   * slot of the original is redirected and holds `m`, or is not redirected and the copy of `m` bound itself there.
   */
  lemma ReferencesAreIsomorphic(source: Contents, below: Below, copies: Copies, held: Contents, n: Node, slot: Slot,
                                m: Node)
    requires IsClone(source, below, copies, held) && ReferencesPredate(source, copies)
    requires n in copies && m in copies && (slot == MapExpr ==> n.kind.IsExpr())
    ensures held[copies[n]].Get(slot) == copies[m] <==>
      if IsRedirected(source, copies, n, slot) then source[n].Get(slot) == m else Binder(source, n, slot) == m
  {
  }

  /** A slot that is not redirected keeps its target, however the target lies, unless copying drops or binds it. */
  lemma OthersKeepTheirTargets(source: Contents, below: Below, copies: Copies, held: Contents, n: Node, slot: Slot)
    requires IsClone(source, below, copies, held) && n in copies && !IsRedirected(source, copies, n, slot)
    requires slot != GenericDecl && slot != BodyOwner && (slot == MapExpr ==> n.kind.IsExpr())
    requires !(slot == CallOrPattern && n.kind.MemberAccess?)
    ensures held[copies[n]].Get(slot) == source[n].Get(slot)
  {
  }

  /**
   * So the copy of a member access on anything but `this` still names the member of the original, even when that
   * member was copied along with it; and the call through it still names the original function.
   */
  lemma AccessesOnOthersAreNotRedirected(source: Contents, below: Below, copies: Copies, held: Contents, n: Node)
    requires IsClone(source, below, copies, held) && n in copies
    ensures n.kind.MemberAccess? && !IsThisAccess(source[n]) ==>
      held[copies[n]].Get(Target) == source[n].Get(Target)
    ensures n.kind.CallExpr? && !CallsOnThis(source, source[n]) ==>
      held[copies[n]].Get(ResolvedFunction) == source[n].Get(ResolvedFunction)
  {
    if n.kind.MemberAccess? && !IsThisAccess(source[n]) {
      OthersKeepTheirTargets(source, below, copies, held, n, Target);
    }
    if n.kind.CallExpr? && !CallsOnThis(source, source[n]) {
      OthersKeepTheirTargets(source, below, copies, held, n, ResolvedFunction);
    }
  }

  /** The desugared arguments of the copy of a call are its own arguments, at the places they had. */
  lemma DesugaredArgsAlias(source: Contents, below: Below, copies: Copies, held: Contents, n: Node, k: nat, i: nat)
    requires IsClone(source, below, copies, held) && n in copies && source[n].desugarArgs.Some?
    requires k < |source[n].desugarArgs.value| && i < |source[n].args + source[n].defaultArgs|
    requires source[n].desugarArgs.value[k] == (source[n].args + source[n].defaultArgs)[i] != null
    ensures var g := held[copies[n]];
      && g.desugarArgs.Some? && k < |g.desugarArgs.value| && i < |g.args + g.defaultArgs|
      && g.desugarArgs.value[k] == (g.args + g.defaultArgs)[i] != null
  {
    hide IsTree, FinalRef, Whole, Mirrors;
    ArgsAreCopied(source, below, copies, n);
    ArgsAlias(copies, source[n], held[copies[n]], k, i);
  }

  lemma ArgsAreCopied(source: Contents, below: Below, copies: Copies, n: Node)
    requires IsTree(source, below) && n in source && below[n] <= copies.Keys && source[n].desugarArgs.Some?
    ensures forall m: Node :: m in source[n].args + source[n].defaultArgs ==> m in copies
  {
    OwnedAreBelow(source, below, n);
    assert forall m: Node :: m in source[n].args + source[n].defaultArgs ==> m in source[n].Owned();
  }

  lemma ArgsAlias(copies: Copies, f: Fields, g: Fields, k: nat, i: nat)
    requires Mirrors(copies, f, g) && f.desugarArgs.Some?
    requires k < |f.desugarArgs.value| && i < |f.args + f.defaultArgs|
    requires f.desugarArgs.value[k] == (f.args + f.defaultArgs)[i] != null
    requires forall m: Node :: m in f.args + f.defaultArgs ==> m in copies
    ensures g.desugarArgs.Some? && k < |g.desugarArgs.value| && i < |g.args + g.defaultArgs|
    ensures g.desugarArgs.value[k] == (g.args + g.defaultArgs)[i] != null
  {
    assert f.desugarArgs.value[k] in f.args + f.defaultArgs;
  }

  // ----- what a finished clone is, node by node and slot by slot -----

  /** References to declarations, expressions, bodies of functions and patterns are the ones that follow a copy. */
  ghost predicate IsTarget(t: Node) {
    match t.kind
    case FuncDecl | VarDecl | OtherDecl => true
    case RefExpr(_) | ArrayExpr | ArrayLit | MemberAccess | ForInExpr | CallExpr | ReturnExpr | JumpExpr | OtherExpr =>
      true
    case FuncBody | Pattern => true
    case RefType | QualifiedType | OtherNode => false
  }

  /** The first subnode is the expression `this`. */
  ghost predicate StartsWithThis(f: Fields) {
    |f.children| > 0 && f.children[0] != null && f.children[0].kind.RefExpr? && f.children[0].kind.isThis
  }

  /** The slots of `n`, one by one, that follow their targets into the copies. */
  ghost predicate Follows(source: Contents, n: Node, slot: Slot)
    requires n in source
  {
    var f, kind := source[n], n.kind;
    match slot
    case OuterDecl | GenericDecl => kind.FuncDecl? || kind.VarDecl? || kind.OtherDecl?
    case SourceExpr | MapExpr =>
      kind.RefExpr? || kind.ArrayExpr? || kind.ArrayLit? || kind.MemberAccess? || kind.ForInExpr? || kind.CallExpr?
      || kind.ReturnExpr? || kind.JumpExpr? || kind.OtherExpr?
    case BodyOwner | OuterFunc | ParentClassLike | ParentStruct | ParentEnum => kind.FuncBody?
    case CtxExpr => kind.Pattern?
    case RefTarget => kind.RefExpr? || kind.RefType?
    case CallOrPattern => kind.RefExpr? || (kind.MemberAccess? && StartsWithThis(f))
    case InitFunc => kind.ArrayExpr? || kind.ArrayLit?
    case Target => kind.QualifiedType? || (kind.MemberAccess? && StartsWithThis(f))
    case Targets(i) => kind.MemberAccess? && StartsWithThis(f) && i < f.targetCount
    case PatternInDesugarExpr => kind.ForInExpr?
    case ResolvedFunction =>
      kind.CallExpr? && (|f.children| > 0 && f.children[0] != null && f.children[0].kind.MemberAccess? ==>
        f.children[0] in source && StartsWithThis(source[f.children[0]]))
    case RefFuncBody => kind.ReturnExpr?
    case RefLoop => kind.JumpExpr?
    case OwnerFunc | PropDecl => kind.FuncDecl?
    case ParentPattern => kind.VarDecl?
  }

  /**
   * A call is the owner of the member access it calls, and a function that of its body; their copies enter themselves
   * in the copies of these.
   */
  ghost predicate Enters(source: Contents, p: Node, n: Node, slot: Slot)
    requires p in source
  {
    && |source[p].children| > 0 && source[p].children[0] == n
    && if slot == CallOrPattern then p.kind.CallExpr? && n.kind.MemberAccess?
       else slot == BodyOwner && p.kind.FuncDecl? && n.kind.FuncBody?
  }

  /**
   * What a slot of the copy of `n` holds. Where the slot of `n` follows its target and the target was copied, it is the
   * copy of the target. Else it is the copy that entered itself there, if there is one. Else it is what the slot of `n`
   * holds, but for an expression that is mapped to itself, whose copy is too, and for two slots that are not copied.
   */
  ghost predicate IsSlotOfCopy(source: Contents, copies: Copies, n: Node, slot: Slot, r: Node?)
    requires n in source && n in copies && copies.Keys <= source.Keys
  {
    var t: Node? := if slot in source[n].refs then source[n].refs[slot] else null;
    if t != null && t in copies && IsTarget(t) && Follows(source, n, slot) then r == copies[t]
    else
      && (forall p :: p in copies && Enters(source, p, n, slot) ==> r == copies[p])
      && ((forall p :: p in copies ==> !Enters(source, p, n, slot)) ==>
        r == if slot == GenericDecl || slot == BodyOwner then null
             else if slot == MapExpr && t == n then copies[n]
             else t)
  }

  lemma TargetSlotsAre(count: nat, slot: Slot)
    ensures slot in TargetSlots(count) <==> slot.Targets? && slot.index < count
  {
  }

  lemma StartsWith(f: Fields)
    ensures IsThisAccess(f) <==> StartsWithThis(f)
  {
  }

  /** The slots that all declarations, all expressions, all bodies or all patterns have. */
  predicate IsCommon(slot: Slot) {
    slot.OuterDecl? || slot.GenericDecl? || slot.SourceExpr? || slot.MapExpr? || slot.BodyOwner? || slot.OuterFunc?
    || slot.ParentClassLike? || slot.ParentStruct? || slot.ParentEnum? || slot.CtxExpr?
  }

  lemma CommonFollow(source: Contents, n: Node, slot: Slot)
    requires n in source
    ensures if IsCommon(slot) then slot in CommonSlots(n.kind) <==> Follows(source, n, slot)
            else slot !in CommonSlots(n.kind)
  {
  }

  lemma OthersFollow(source: Contents, below: Below, n: Node, slot: Slot)
    requires IsTree(source, below) && n in source
    ensures if IsCommon(slot) then slot !in KindSlots(source, n)
            else slot in KindSlots(source, n) <==> Follows(source, n, slot)
  {
    hide IsTree, TargetSlots, StartsWithThis, IsThisAccess;
    BaseIsInTree(source, below, n);
    TargetSlotsAre(source[n].targetCount, slot);
    StartsWith(source[n]);
    if source[n].Base() != null {
      StartsWith(source[source[n].Base()]);
    }
  }

  lemma TargetsAreTheRemapped(t: Node)
    ensures IsTarget(t) <==> t.kind.IsRemapped()
  {
  }

  /** The redirected slots are the ones that follow a copied target. */
  lemma FollowersAreRedirected(source: Contents, below: Below, copies: Copies, n: Node, slot: Slot)
    requires IsTree(source, below) && n in source
    ensures IsRedirected(source, copies, n, slot) <==>
      var f := source[n];
      slot in f.refs && f.refs[slot] in copies && IsTarget(f.refs[slot]) && Follows(source, n, slot)
  {
    hide IsTree, CommonSlots, KindSlots, Follows, IsTarget;
    CommonFollow(source, n, slot);
    OthersFollow(source, below, n, slot);
    if slot in source[n].refs {
      TargetsAreTheRemapped(source[n].refs[slot]);
    }
  }

  lemma EntersIfBinds(source: Contents, below: Below, copies: Copies, n: Node, slot: Slot)
    requires IsTree(source, below) && n in source && copies.Keys <= source.Keys
    ensures forall p :: p in copies && Enters(source, p, n, slot) ==> Binder(source, n, slot) == p
    ensures var p := Binder(source, n, slot); p != null && p in copies ==> Enters(source, p, n, slot)
  {
    hide IsTree;
    forall p | p in copies && Enters(source, p, n, slot)
      ensures Binder(source, n, slot) == p
    {
      BinderIs(source, below, p, n, slot);
    }
  }

  lemma FinalRefIs(source: Contents, below: Below, copies: Copies, n: Node, slot: Slot)
    requires IsTree(source, below) && copies.Keys <= source.Keys && n in copies
    ensures IsSlotOfCopy(source, copies, n, slot, FinalRef(source, copies, n, slot))
  {
    hide IsTree, Follows, IsTarget, Enters, IsRedirected, Binder;
    FollowersAreRedirected(source, below, copies, n, slot);
    EntersIfBinds(source, below, copies, n, slot);
  }

  /** Every slot of every copy holds what it should. */
  lemma SlotsOfCopies(source: Contents, below: Below, copies: Copies, held: Contents, n: Node, slot: Slot)
    requires IsClone(source, below, copies, held) && n in copies
    ensures copies[n] in held
    ensures var g := held[copies[n]];
            IsSlotOfCopy(source, copies, n, slot, if slot in g.refs then g.refs[slot] else null)
  {
    hide IsTree, IsSlotOfCopy, FinalRef, Mirrors, Whole;
    FinalRefIs(source, below, copies, n, slot);
    assert held[copies[n]].Get(slot) == FinalRef(source, copies, n, slot);
  }

  /** The copies of a list of nodes, place by place. */
  ghost predicate Corresponds(copies: Copies, nodes: seq<Node?>, to: seq<Node?>) {
    && |nodes| == |to|
    && forall i :: 0 <= i < |nodes| ==>
      if nodes[i] == null then to[i] == null else nodes[i] in copies && to[i] == copies[nodes[i]]
  }

  /**
   * The copies are new nodes of the same kinds, one for each node, and own the copies of what the originals own, in the
   * same places. A call that is not desugared leaves out its default arguments; the desugared arguments of one that is
   * are the copies of the original's, as far as those are arguments of the call.
   */
  lemma CopiesOwnCopies(source: Contents, below: Below, copies: Copies, held: Contents, n: Node)
    requires IsClone(source, below, copies, held) && n in copies
    ensures copies[n] in held && copies[n] !in source && copies[n].kind == n.kind
    ensures forall m :: m in copies && m != n ==> copies[m] != copies[n]
    ensures var f, g := source[n], held[copies[n]];
            && Corresponds(copies, f.children, g.children)
            && Corresponds(copies, f.args, g.args)
            && (if f.desugarArgs.Some? then Corresponds(copies, f.defaultArgs, g.defaultArgs) else g.defaultArgs == [])
            && g.targetCount == f.targetCount
            && g.desugarArgs.Some? == f.desugarArgs.Some?
            && (f.desugarArgs.Some? ==>
              && |g.desugarArgs.value| == |f.desugarArgs.value|
              && forall k :: 0 <= k < |f.desugarArgs.value| ==>
                var arg := f.desugarArgs.value[k];
                g.desugarArgs.value[k]
                == if arg != null && arg in f.args + f.defaultArgs && arg in copies then copies[arg] else null)
  {
    hide IsTree, FinalRef, Whole, Images, Corresponds;
    OwnedAreBelow(source, below, n);
    var f := source[n];
    assert forall m: Node :: m in f.children || m in f.args || m in f.CopiedDefaults() ==> m in f.Owned();
    ImagesCorrespond(copies, f.children);
    ImagesCorrespond(copies, f.args);
    ImagesCorrespond(copies, f.CopiedDefaults());
    NoImagesOfNone(copies);
  }

  lemma ImagesCorrespond(copies: Copies, nodes: seq<Node?>)
    requires forall m: Node :: m in nodes ==> m in copies
    ensures Corresponds(copies, nodes, Images(copies, nodes))
  {
  }

  lemma NoImagesOfNone(copies: Copies)
    ensures Images(copies, []) == []
  {
  }

  // ----- walking through a clone -----

  /** A way from one node to another: to an owned subnode, or along a reference. */
  datatype Step = ToChild(index: nat) | ToArg(index: nat) | Along(slot: Slot)

  function Take(f: Fields, step: Step): Node? {
    match step
    case ToChild(i) => if i < |f.children| then f.children[i] else null
    case ToArg(i) => if i < |f.args| then f.args[i] else null
    case Along(slot) => f.Get(slot)
  }

  /** Follows steps, and ends in null where a step does. */
  ghost function Follow(contents: Contents, n: Node?, path: seq<Step>): Node? {
    if path == [] then n
    else if n == null || n !in contents then null
    else Follow(contents, Take(contents[n], path[0]), path[1..])
  }

  /** Every reference on the way is one that is redirected, so that the way stays among copied nodes. */
  ghost predicate StaysInside(source: Contents, copies: Copies, n: Node?, path: seq<Step>) {
    path == [] || n == null ||
    (&& n in source
     && (path[0].Along? ==> IsRedirected(source, copies, n, path[0].slot))
     && StaysInside(source, copies, Take(source[n], path[0]), path[1..]))
  }

  /** Following a way among the copies leads to the copy of where it leads among the originals. */
  lemma {:induction false} FollowCommutes(source: Contents, below: Below, copies: Copies, held: Contents, n: Node?,
                                          path: seq<Step>)
    requires IsClone(source, below, copies, held) && (n == null || n in copies)
    requires StaysInside(source, copies, n, path)
    ensures Follow(held, Image(copies, n), path) == Image(copies, Follow(source, n, path))
    ensures Follow(source, n, path) == null || Follow(source, n, path) in copies
  {
    if path != [] && n != null {
      OwnedAreBelow(source, below, n);
      TakeCommutes(source, below, copies, held, n, path[0]);
      FollowCommutes(source, below, copies, held, Take(source[n], path[0]), path[1..]);
    }
  }

  lemma TakeCommutes(source: Contents, below: Below, copies: Copies, held: Contents, n: Node, step: Step)
    requires IsClone(source, below, copies, held) && n in copies
    requires step.Along? ==> IsRedirected(source, copies, n, step.slot)
    ensures var m := Take(source[n], step);
            Take(held[copies[n]], step) == Image(copies, m) && (m == null || m in copies)
  {
    hide IsTree, Whole, AreImagesOfArgs, FirstRef, KindSlots, CommonSlots;
    OwnedAreBelow(source, below, n);
    var f := source[n];
    assert forall m: Node :: m in f.children || m in f.args ==> m in f.Owned();
  }

  // ----- the cloner -----

  class ASTCloner {
    var source2cloned: Copies
    var targetAddr2targetAddr: map<Addr, Addr>
    /** The nodes that may be cloned, and how they are nested. */
    ghost const source: Contents
    ghost const below: Below
    /** All copies made so far, also of nodes that no slot is redirected to, and what the copies hold. */
    ghost var copies: Copies
    ghost var held: Contents

    ghost predicate Valid()
      reads this, source.Keys, held.Keys
    {
      && (forall n :: n in source ==> n.fields == source[n])
      && (forall c :: c in held ==> c.fields == held[c])
      && source.Keys !! held.Keys
      && IsCloning(source, below, copies, held, source2cloned, targetAddr2targetAddr)
    }

    constructor (ghost source: Contents, ghost below: Below)
      requires IsTree(source, below) && forall n :: n in source ==> n.fields == source[n]
      ensures Valid() && copies == map[] && held == map[] && this.source == source && this.below == below
    {
      this.source, this.below := source, below;
      source2cloned, targetAddr2targetAddr, copies, held := map[], map[], map[], map[];
    }

    method TargetAddrMapInsert(from: Node, target: Node, slot: Slot, ghost table: map<Addr, Addr>,
                               ghost done: set<Slot>)
      requires targetAddr2targetAddr == WithSlots(table, from.fields.refs, from, target, done)
      modifies this`targetAddr2targetAddr
      ensures targetAddr2targetAddr == WithSlots(table, from.fields.refs, from, target, done + {slot})
    {
      WithOneMore(table, from.fields.refs, from, target, done, slot);
      hide WithSlots;
      if from.fields.Get(slot) == null {
        return;
      }
      targetAddr2targetAddr := targetAddr2targetAddr[Addr(from, slot) := Addr(target, slot)];
    }

    /** Records a node, if slots can be redirected to its copy, and its slots. */
    method CollectMap(from: Node, target: Node)
      requires from in source && (forall n :: n in source ==> n.fields == source[n])
      requires source[from].Base() != null ==> source[from].Base() in source
      modifies this`source2cloned, this`targetAddr2targetAddr
      ensures source2cloned == if from.kind.IsRemapped() then old(source2cloned)[from := target] else old(source2cloned)
      ensures targetAddr2targetAddr == WithSlots(old(targetAddr2targetAddr), from.fields.refs, from, target,
                                                 CommonSlots(from.kind) + KindSlots(source, from))
    {
      hide WithSlots, KindSlots;
      ghost var table := targetAddr2targetAddr;
      WithNoSlots(table, from.fields.refs, from, target);
      if from.kind.IsDecl() {
        source2cloned := source2cloned[from := target];
        TargetAddrMapInsert(from, target, OuterDecl, table, {});
        TargetAddrMapInsert(from, target, GenericDecl, table, {} + {OuterDecl});
        assert {} + {OuterDecl} + {GenericDecl} == CommonSlots(from.kind);
      }
      if from.kind.IsExpr() {
        source2cloned := source2cloned[from := target];
        TargetAddrMapInsert(from, target, SourceExpr, table, {});
        TargetAddrMapInsert(from, target, MapExpr, table, {} + {SourceExpr});
        assert {} + {SourceExpr} + {MapExpr} == CommonSlots(from.kind);
      }
      if from.kind.FuncBody? {
        source2cloned := source2cloned[from := target];
        TargetAddrMapInsert(from, target, BodyOwner, table, {});
        TargetAddrMapInsert(from, target, OuterFunc, table, {} + {BodyOwner});
        TargetAddrMapInsert(from, target, ParentClassLike, table, {} + {BodyOwner} + {OuterFunc});
        TargetAddrMapInsert(from, target, ParentStruct, table, {} + {BodyOwner} + {OuterFunc} + {ParentClassLike});
        TargetAddrMapInsert(from, target, ParentEnum, table,
                            {} + {BodyOwner} + {OuterFunc} + {ParentClassLike} + {ParentStruct});
        assert {} + {BodyOwner} + {OuterFunc} + {ParentClassLike} + {ParentStruct} + {ParentEnum}
            == CommonSlots(from.kind);
      }
      if from.kind.Pattern? {
        source2cloned := source2cloned[from := target];
        TargetAddrMapInsert(from, target, CtxExpr, table, {});
        assert {} + {CtxExpr} == CommonSlots(from.kind);
      }
      CollectKindSlots(from, target, table, CommonSlots(from.kind));
    }

    method CollectKindSlots(from: Node, target: Node, ghost table: map<Addr, Addr>, ghost done: set<Slot>)
      requires from in source && (forall n :: n in source ==> n.fields == source[n])
      requires source[from].Base() != null ==> source[from].Base() in source
      requires targetAddr2targetAddr == WithSlots(table, from.fields.refs, from, target, done)
      modifies this`targetAddr2targetAddr
      ensures targetAddr2targetAddr == WithSlots(table, from.fields.refs, from, target, done + KindSlots(source, from))
    {
      hide WithSlots, IsThisAccess, CallsOnThis, TargetSlots;
      assert done + {} == done;
      match from.kind
      case RefExpr(_) =>
        TargetAddrMapInsert(from, target, RefTarget, table, done);
        TargetAddrMapInsert(from, target, CallOrPattern, table, done + {RefTarget});
        assert done + {RefTarget} + {CallOrPattern} == done + KindSlots(source, from);
      case ArrayExpr => TargetAddrMapInsert(from, target, InitFunc, table, done);
      case ArrayLit => TargetAddrMapInsert(from, target, InitFunc, table, done);
      case MemberAccess => CollectOfAccess(from, target, table, done);
      case ForInExpr => TargetAddrMapInsert(from, target, PatternInDesugarExpr, table, done);
      case CallExpr =>
        CollectOfCall(from, target, table, done);
      case ReturnExpr => TargetAddrMapInsert(from, target, RefFuncBody, table, done);
      case JumpExpr => TargetAddrMapInsert(from, target, RefLoop, table, done);
      case RefType => TargetAddrMapInsert(from, target, RefTarget, table, done);
      case QualifiedType => TargetAddrMapInsert(from, target, Target, table, done);
      case FuncDecl =>
        TargetAddrMapInsert(from, target, OwnerFunc, table, done);
        TargetAddrMapInsert(from, target, PropDecl, table, done + {OwnerFunc});
        assert done + {OwnerFunc} + {PropDecl} == done + KindSlots(source, from);
      case VarDecl => TargetAddrMapInsert(from, target, ParentPattern, table, done);
      case _ =>
    }

    method CollectOfAccess(from: Node, target: Node, ghost table: map<Addr, Addr>, ghost done: set<Slot>)
      requires targetAddr2targetAddr == WithSlots(table, from.fields.refs, from, target, done)
      modifies this`targetAddr2targetAddr
      ensures targetAddr2targetAddr == WithSlots(table, from.fields.refs, from, target,
        if IsThisAccess(from.fields)
        then done + ({Target, CallOrPattern} + TargetSlots(from.fields.targetCount))
        else done)
    {
      hide WithSlots;
      var base := from.fields.Base();
      if base == null || base.kind != RefExpr(true) {
        return;
      }
      TargetAddrMapInsert(from, target, Target, table, done);
      TargetAddrMapInsert(from, target, CallOrPattern, table, done + {Target});
      CollectTargets(from, target, table, done + {Target} + {CallOrPattern});
      assert done + {Target} + {CallOrPattern} + TargetSlots(from.fields.targetCount)
          == done + ({Target, CallOrPattern} + TargetSlots(from.fields.targetCount));
    }

    method CollectOfCall(from: Node, target: Node, ghost table: map<Addr, Addr>, ghost done: set<Slot>)
      requires from in source && (forall n :: n in source ==> n.fields == source[n])
      requires source[from].Base() != null ==> source[from].Base() in source
      requires targetAddr2targetAddr == WithSlots(table, from.fields.refs, from, target, done)
      modifies this`targetAddr2targetAddr
      ensures targetAddr2targetAddr == WithSlots(table, from.fields.refs, from, target,
        if CallsOnThis(source, source[from]) then done + {ResolvedFunction} else done)
    {
      hide WithSlots;
      var ma := from.fields.Base();
      if ma != null && ma.kind.MemberAccess? {
        var base := ma.fields.Base();
        if base == null || base.kind != RefExpr(true) {
          return;
        }
      }
      TargetAddrMapInsert(from, target, ResolvedFunction, table, done);
    }

    method CollectTargets(from: Node, target: Node, ghost table: map<Addr, Addr>, ghost done: set<Slot>)
      requires targetAddr2targetAddr == WithSlots(table, from.fields.refs, from, target, done)
      modifies this`targetAddr2targetAddr
      ensures targetAddr2targetAddr
           == WithSlots(table, from.fields.refs, from, target, done + TargetSlots(from.fields.targetCount))
    {
      hide WithSlots;
      var i := 0;
      assert done + TargetSlots(0) == done;
      while i < from.fields.targetCount
        invariant i <= from.fields.targetCount
        invariant targetAddr2targetAddr == WithSlots(table, from.fields.refs, from, target, done + TargetSlots(i))
      {
        TargetAddrMapInsert(from, target, Targets(i), table, done + TargetSlots(i));
        assert done + TargetSlots(i) + {Targets(i)} == done + TargetSlots(i + 1);
        i := i + 1;
      }
    }

    /** Fills in the copy of a node, points a copied subnode that knows its parent at it, and records it. */
    method Adopt(n: Node, c: Node, g: Fields)
      requires Valid() && n in source && n !in copies && below[n] <= copies.Keys
      requires c !in held && c !in source && c.kind == n.kind
      requires Mirrors(copies, source[n], g) && g.refs == CopiedRefs(source[n].refs, n, c)
      modifies this, c, g.Base()
      ensures Valid() && copies == old(copies)[n := c] && held.Keys == old(held).Keys + {c}
    {
      hide IsTree, IsCloning, Mirrors, CopiedRefs, WithSlots, KindSlots, CommonSlots, Adopted;
      CloningStep(source, below, copies, held, source2cloned, targetAddr2targetAddr, n, c, g);
      ghost var h := Adopted(source, copies, held, n, c, g);
      Fill(n, c, g);
      Record(n, c, h);
    }

    /** Enters a finished copy into the tables. */
    method Record(n: Node, c: Node, ghost h: Contents)
      requires n in source && (source[n].Base() != null ==> source[n].Base() in source)
      requires forall m :: m in source ==> m.fields == source[m]
      requires forall d :: d in h ==> d.fields == h[d]
      requires source.Keys !! h.Keys
      requires IsCloning(source, below, copies[n := c], h,
                 if n.kind.IsRemapped() then source2cloned[n := c] else source2cloned,
                 WithSlots(targetAddr2targetAddr, source[n].refs, n, c, CommonSlots(n.kind) + KindSlots(source, n)))
      modifies this
      ensures Valid() && copies == old(copies)[n := c] && held == h
    {
      hide IsCloning, WithSlots, KindSlots, CommonSlots;
      CollectMap(n, c);
      held, copies := h, copies[n := c];
    }

    method Fill(n: Node, c: Node, g: Fields)
      requires n in source && c !in held && c !in source && source.Keys !! held.Keys
      requires var b := source[n].Base();
               g.Base() == Image(copies, b) &&
                 (b != null ==> b in copies && copies[b] in held && copies[b].kind == b.kind)
      requires forall m :: m in source ==> m.fields == source[m]
      requires forall d :: d in held ==> d.fields == held[d]
      modifies c, g.Base()
      ensures forall m :: m in source ==> m.fields == source[m]
      ensures var h := Adopted(source, copies, held, n, c, g);
              h.Keys == held.Keys + {c} && forall d :: d in h ==> d.fields == h[d]
    {
      c.fields := g;
      var base := g.Base();
      if base != null && n.kind.CallExpr? && base.kind.MemberAccess? {
        base.fields := base.fields.(refs := base.fields.refs[CallOrPattern := c]);
      }
      if base != null && n.kind.FuncDecl? && base.kind.FuncBody? {
        base.fields := base.fields.(refs := base.fields.refs[BodyOwner := c]);
      }
    }

    lemma OfTree()
      requires Valid()
      ensures IsTree(source, below) && source.Keys == below.Keys && copies.Keys <= source.Keys
      ensures forall n :: n in source ==> n.fields == source[n] && n !in held
    {
    }

    /** Clones a node and all it owns. */
    method CloneNode(n: Node) returns (c: Node)
      requires Valid() && n in source && n in below && Whole(below, n) !! copies.Keys
      modifies this
      ensures Valid()
      ensures Grown(old(copies), old(held), copies, held, Whole(below, n))
      ensures forall d :: d in held ==> d in old(held) || fresh(d)
      ensures n in copies && copies[n] == c
      decreases below[n], 2
    {
      hide IsTree, IsCloning, Span, Apart, Valid, Grown, Images, CopiedRefs, AreImagesOfArgs;
      OfTree();
      OwnedSpans(source, below, n);
      ghost var f := source[n];
      ghost var spare := Span(below, f.args) + Span(below, f.CopiedDefaults());
      c := new Node(n.kind);
      var children := CloneAll(n.fields.children, n);
      ghost var copies', held' := copies, held;
      NotYet(old(copies), old(held), copies', held', Whole(below, n), Span(below, f.children), spare + {n});
      if f.children != [] {
        Spanned(below, f.children, below[n]);
        NewImage(old(copies), old(held), copies', held', Span(below, f.children), f.children[0]);
      }
      OfTree();
      var g := Fields(children, [], [], None, n.fields.targetCount, CopiedRefs(n.fields.refs, n, c));
      if n.kind.CallExpr? {
        var args, defaultArgs, desugarArgs := CloneArgs(n);
        Spanned(below, f.children, below[n]);
        SpannedIsCopied(old(copies), old(held), copies', held', Span(below, f.children));
        ImagesGrown(copies', held', copies, held, spare, f.children);
        g := g.(args := args, defaultArgs := defaultArgs, desugarArgs := desugarArgs);
      } else {
        NoImages(copies, source[n]);
        NotGrown(copies, held);
      }
      GrownTwice(old(copies), old(held), copies', held', Span(below, f.children), copies, held, spare);
      NotYet(old(copies), old(held), copies, held, Whole(below, n), below[n], {n});
      ghost var copies'', held'' := copies, held;
      Adopt(n, c, g);
      GrownByOne(copies'', held'', n, c, held);
      GrownTwice(old(copies), old(held), copies'', held'', below[n], copies, held, {n});
    }

    /** Clones a list of subnodes of `n` in order; null stays null. */
    method CloneAll(nodes: seq<Node?>, ghost n: Node) returns (r: seq<Node?>)
      requires Valid() && n in source && n in below && Apart(below, nodes, below[n])
      requires Span(below, nodes) !! copies.Keys
      modifies this
      ensures Valid()
      ensures Grown(old(copies), old(held), copies, held, Span(below, nodes))
      ensures forall d :: d in held ==> d in old(held) || fresh(d)
      ensures r == Images(copies, nodes)
      decreases below[n], 0
    {
      hide IsTree, IsCloning, Span, Valid, Grown, Apart, Whole;
      r := [];
      var i := 0;
      SpanSteps(below, nodes, below[n], 0);
      NotGrown(copies, held);
      while i < |nodes|
        invariant 0 <= i <= |nodes|
        invariant Valid()
        invariant Grown(old(copies), old(held), copies, held, Span(below, nodes[..i]))
        invariant forall d :: d in held ==> d in old(held) || fresh(d)
        invariant r == Images(copies, nodes[..i])
        invariant forall m: Node :: m in nodes[..i] ==> m in copies
      {
        SpanSteps(below, nodes, below[n], i);
        if nodes[i] == null {
          r := r + [null];
        } else {
          OfTree();
          BelowShrinks(source, below, n, nodes[i]);
          NotYet(old(copies), old(held), copies, held, Span(below, nodes), Span(below, nodes[..i]),
            Whole(below, nodes[i]));
          ghost var copies', held' := copies, held;
          var c := CloneNode(nodes[i]);
          GrownTwice(old(copies), old(held), copies', held', Span(below, nodes[..i]), copies, held,
            Whole(below, nodes[i]));
          ImagesGrown(copies', held', copies, held, Whole(below, nodes[i]), nodes[..i]);
          r := r + [c];
        }
        i := i + 1;
      }
      assert nodes[..i] == nodes;
    }

    /** Clones the arguments of a call; the desugared arguments of the copy name the copies of these. */
    method CloneArgs(n: Node) returns (args: seq<Node?>, defaultArgs: seq<Node?>, desugarArgs: Option<seq<Node?>>)
      requires Valid() && n in source && n in below
      requires Apart(below, source[n].args, below[n]) && Apart(below, source[n].CopiedDefaults(), below[n])
      requires Span(below, source[n].args) !! copies.Keys
      requires Span(below, source[n].CopiedDefaults()) !! copies.Keys
      requires Span(below, source[n].args) !! Span(below, source[n].CopiedDefaults())
      modifies this
      ensures Valid()
      ensures Grown(old(copies), old(held), copies, held,
                    Span(below, source[n].args) + Span(below, source[n].CopiedDefaults()))
      ensures forall d :: d in held ==> d in old(held) || fresh(d)
      ensures args == Images(copies, source[n].args)
      ensures defaultArgs == Images(copies, source[n].CopiedDefaults())
      ensures AreImagesOfArgs(copies, source[n], desugarArgs)
      decreases below[n], 1
    {
      hide IsTree, IsCloning, Span, Apart, Valid, Grown, Images, AreImagesOfArgs;
      OfTree();
      SpanOfNone(below);
      ghost var f := source[n];
      ghost var all := Span(below, f.args) + Span(below, f.CopiedDefaults());
      args := CloneAll(n.fields.args, n);
      Spanned(below, f.args, below[n]);
      ghost var copies', held' := copies, held;
      NotYet(old(copies), old(held), copies', held', all, Span(below, f.args), Span(below, f.CopiedDefaults()));
      var cloneTable := EnterAll(map[], n.fields.args, args, copies);
      defaultArgs, desugarArgs := [], None;
      OfTree();
      if n.fields.desugarArgs.Some? {
        defaultArgs := CloneAll(n.fields.defaultArgs, n);
        OfTree();
        GrownTwice(old(copies), old(held), copies', held', Span(below, f.args), copies, held,
                   Span(below, f.CopiedDefaults()));
        SpannedIsCopied(old(copies), old(held), copies', held', Span(below, f.args));
        ImagesGrown(copies', held', copies, held, Span(below, f.CopiedDefaults()), f.args);
        ghost var argTable := cloneTable;
        cloneTable := EnterAll(cloneTable, n.fields.defaultArgs, defaultArgs, copies);
        var named := LookUpAll(cloneTable, n.fields.desugarArgs.value);
        LookedUp(copies', held', copies, held, Span(below, f.CopiedDefaults()), f, argTable, cloneTable, named);
        desugarArgs := Some(named);
      } else {
        assert all == Span(below, f.args);
        NotDesugared(copies, f);
      }
    }

    /** Points every recorded slot whose target was copied at the copy of the target. */
    method Rearrange()
      requires Valid()
      modifies this`held, held.Keys
      ensures held.Keys == old(held).Keys && IsClone(source, below, copies, held)
      ensures forall d :: d in held ==> d.fields == held[d]
    {
      hide IsTree, Mirrored, Written, IsAddressBook, Redirected, Rearranged, FinalRef, IsClone;
      var rest := targetAddr2targetAddr.Keys;
      ghost var before, done := held, {};
      NotRearranged(source, below, copies, held);
      while rest != {}
        invariant done + rest == targetAddr2targetAddr.Keys
        invariant held.Keys == before.Keys && Rearranged(source, copies, before, done, held)
        invariant forall n :: n in source ==> n.fields == source[n]
        invariant forall d :: d in held ==> d.fields == held[d]
        decreases rest
      {
        var a :| a in rest;
        RearrangeAt(a, before, done);
        rest, done := rest - {a}, done + {a};
      }
      assert done == targetAddr2targetAddr.Keys;
      AllRearranged(source, below, copies, before, targetAddr2targetAddr, held);
    }

    method RearrangeAt(a: Addr, ghost before: Contents, ghost done: set<Addr>)
      requires IsTree(source, below) && copies.Keys <= source.Keys && Mirrored(source, below, copies, before)
      requires IsAddressBook(source, copies, targetAddr2targetAddr) && source2cloned == Remapped(copies)
      requires a in targetAddr2targetAddr
      requires forall n :: n in source ==> n.fields == source[n]
      requires forall d :: d in held ==> d.fields == held[d]
      requires source.Keys !! held.Keys && Rearranged(source, copies, before, done, held)
      modifies this`held, held.Keys
      ensures held.Keys == old(held).Keys && Rearranged(source, copies, before, done + {a}, held)
      ensures forall n :: n in source ==> n.fields == source[n]
      ensures forall d :: d in held ==> d.fields == held[d]
    {
      hide IsTree, Mirrored, IsAddressBook, Rearranged, RecordedSlots, FinalRef, Remapped, IsRedirected;
      AtAddress(source, below, copies, before, targetAddr2targetAddr, done, held, a);
      RedirectedStep(source, below, copies, before, done, held, a);
      var s, t := a.node.fields.refs[a.slot], targetAddr2targetAddr[a];
      held := Redirected(source, copies, held, a);
      if s in source2cloned {
        t.node.fields := t.node.fields.(refs := t.node.fields.refs[t.slot := source2cloned[s]]);
      }
    }

    /** Clones a node and redirects the references between the copies. */
    method CloneWithRearrange(node: Node?) returns (c: Node?)
      requires Valid() && copies == map[] && held == map[] && (node != null ==> node in source && node in below)
      modifies this
      ensures IsClone(source, below, copies, held)
      ensures forall n, slot :: n in copies ==>
        && copies[n] in held
        && IsSlotOfCopy(source, copies, n, slot,
                        if slot in copies[n].fields.refs then copies[n].fields.refs[slot] else null)
      ensures copies.Keys == (if node == null then {} else Whole(below, node)) && c == Image(copies, node)
      ensures forall d :: d in held ==> d.fields == held[d] && fresh(d)
    {
      hide IsTree, IsClone, Grown, IsSlotOfCopy;
      if node == null {
        c := null;
      } else {
        c := CloneNode(node);
        GrownFromNone(old(copies), old(held), copies, held, Whole(below, node));
      }
      Rearrange();
      forall n, slot | n in copies
        ensures copies[n] in held
        ensures IsSlotOfCopy(source, copies, n, slot,
                             if slot in copies[n].fields.refs then copies[n].fields.refs[slot] else null)
      {
        SlotsOfCopies(source, below, copies, held, n, slot);
      }
    }

    /** Enters pairs of a node and its copy into a table. */
    method EnterAll(table: map<Node?, Node?>, from: seq<Node?>, to: seq<Node?>, ghost copies: Copies)
      returns (r: map<Node?, Node?>)
      requires to == Images(copies, from)
      ensures r.Keys == table.Keys + set x | x in from
      ensures forall x :: x in r ==> r[x] == if x in from then Image(copies, x) else table[x]
    {
      r := table;
      var i := 0;
      while i < |from|
        invariant 0 <= i <= |from|
        invariant r.Keys == table.Keys + set x | x in from[..i]
        invariant forall x :: x in r ==> r[x] == if x in from[..i] then Image(copies, x) else table[x]
      {
        r := r[from[i] := to[i]];
        assert from[..i + 1] == from[..i] + [from[i]];
        i := i + 1;
      }
      assert from[..i] == from;
    }

    /** Looks names up in a table; a name that is not there becomes null. */
    method LookUpAll(table: map<Node?, Node?>, names: seq<Node?>) returns (r: seq<Node?>)
      ensures |r| == |names|
      ensures forall k :: 0 <= k < |names| ==> r[k] == if names[k] in table then table[names[k]] else null
    {
      r := [];
      for i := 0 to |names|
        invariant |r| == i
        invariant forall k :: 0 <= k < i ==> r[k] == if names[k] in table then table[names[k]] else null
      {
        r := r + [if names[i] in table then table[names[i]] else null];
      }
    }
  }
}
