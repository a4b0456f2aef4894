/**
 * The parts of a nested name, and how they are shown.
 *
 * Parts are collected in groups of sixteen. A named part that meets a full group has it written out first; a lambda, an
 * extension, and a name that ends the text are stored over its first place instead. What is lost by that is said here
 * of whatever is read.
 */
module NestedNames {
  import opened MangledTexts
  import opened MangledReadings

  /** A part that may have a full group written out before it, or one that is stored without looking. */
  datatype Piece = Named(part: Part) | Stored(shown: string, kind: TypeKind)
  {
    function Name(): string {
      if Named? then part.shown else shown
    }

    function Kind(): TypeKind {
      if Named? then part.kind else kind
    }
  }

  function Names(pieces: seq<Piece>): (names: seq<string>)
    ensures |names| == |pieces|
  {
    seq(|pieces|, i requires 0 <= i < |pieces| => pieces[i].Name())
  }

  // ----- reading the parts -----

  /** One part: a lambda, an extension, or a named part; one that ends the text is stored. */
  function ReadPiece(env: Env, i: nat, isClass: bool, isParamInit: bool): (r: Reading<Piece>)
    requires env.Valid() && !EndsAt(env.name, i)
    ensures r.Got? ==> i < r.next <= |env.name|
  {
    if env.name[i] == MANGLE_LAMBDA_PREFIX then
      match ReadNumber(env.name, i + 1)
      case Failed => Failed
      case Got(n, j) => Got(Stored("lambda." + UIntToString(n), LAMBDA_FUNCTION), j)
    else if env.name[i] == MANGLE_EXTEND_PREFIX then
      match ReadExtension(env, i)
      case Failed => Failed
      case Got(extended, j) => Got(Stored(extended, COMMON_DECL), j)
    else
      match ReadNamedPart(env, i, isClass, isParamInit)
      case Failed => Failed
      case Got(part, j) => Got(if part.isLast then Stored(part.shown, part.kind) else Named(part), j)
  }

  /** The parts of a nested name, up to an end mark or the end of the text. */
  function ReadPieces(env: Env, i: nat, isClass: bool, isParamInit: bool): (r: Reading<seq<Piece>>)
    requires env.Valid()
    ensures r.Got? ==> i <= r.next && (i <= |env.name| ==> r.next <= |env.name|)
    decreases |env.name| - i
  {
    if EndsAt(env.name, i) then Got([], i)
    else
      match ReadPiece(env, i, isClass, isParamInit)
      case Failed => Failed
      case Got(piece, j) => Prepend([piece], ReadPieces(env, j, isClass, isParamInit))
  }

  /** What one round of reading parts does. */
  lemma PiecesStep(env: Env, i: nat, isClass: bool, isParamInit: bool)
    requires env.Valid()
    ensures EndsAt(env.name, i) ==> ReadPieces(env, i, isClass, isParamInit) == Got([], i)
    ensures !EndsAt(env.name, i) ==>
      var r := ReadPiece(env, i, isClass, isParamInit);
      ReadPieces(env, i, isClass, isParamInit) ==
      if r.Failed? then Failed else Prepend([r.value], ReadPieces(env, r.next, isClass, isParamInit))
  {
    hide ReadPiece;
  }

  // ----- collecting them -----

  function Take(parts: Parts, piece: Piece, delimiter: string): (p: Parts)
    requires parts.Valid()
    ensures p.Valid() && p.count == parts.count + 1 && p.kind == piece.Kind()
  {
    match piece
    case Named(part) => parts.Push(part, delimiter)
    case Stored(shown, kind) => parts.Put(shown, kind)
  }

  function TakeAll(parts: Parts, pieces: seq<Piece>, delimiter: string): (p: Parts)
    requires parts.Valid()
    ensures p.Valid()
    decreases |pieces|
  {
    if pieces == [] then parts else TakeAll(Take(parts, pieces[0], delimiter), pieces[1..], delimiter)
  }

  lemma OnlyTheEndIsLast(env: Env, i: nat, isClass: bool, isParamInit: bool)
    requires env.Valid() && i < |env.name|
    ensures var r := ReadNamedPart(env, i, isClass, isParamInit); r.Got? && r.value.isLast ==> r.next == |env.name|
  {
    hide ReadNestedName, CounterEnd, ReadSignature;
  }

  lemma CollectedStep(env: Env, i: nat, isClass: bool, isParamInit: bool, parts: Parts)
    requires env.Valid() && parts.Valid() && !EndsAt(env.name, i)
    ensures var r := ReadPiece(env, i, isClass, isParamInit);
      ReadNestedFrom(env, i, isClass, isParamInit, parts) ==
      if r.Failed? then Failed
      else ReadNestedFrom(env, r.next, isClass, isParamInit, Take(parts, r.value, env.scopeResolution))
  {
    hide ReadNestedFrom, ReadNumber, ReadExtension, ReadNamedPart, Parts.Put, Parts.Push;
    NestedStep(env, i, isClass, isParamInit, parts);
    OnlyTheEndIsLast(env, i, isClass, isParamInit);
    var r := ReadNamedPart(env, i, isClass, isParamInit);
    if r.Got? {
      NestedStep(env, r.next, isClass, isParamInit, parts.Put(r.value.shown, r.value.kind));
    }
  }

  /** Reading nested names is reading their parts and collecting them. */
  lemma {:induction false} PiecesAreCollected(env: Env, i: nat, isClass: bool, isParamInit: bool, parts: Parts)
    requires env.Valid() && parts.Valid()
    ensures var r := ReadPieces(env, i, isClass, isParamInit);
      ReadNestedFrom(env, i, isClass, isParamInit, parts) ==
      if r.Failed? then Failed else Got(TakeAll(parts, r.value, env.scopeResolution), r.next)
    decreases |env.name| - i
  {
    hide ReadNestedFrom, ReadPieces, ReadPiece, Take, EndsAt;
    PiecesStep(env, i, isClass, isParamInit);
    if EndsAt(env.name, i) {
      NestedStep(env, i, isClass, isParamInit, parts);
    } else {
      CollectedStep(env, i, isClass, isParamInit, parts);
      var r := ReadPiece(env, i, isClass, isParamInit);
      if r.Got? {
        var taken := Take(parts, r.value, env.scopeResolution);
        PiecesAreCollected(env, r.next, isClass, isParamInit, taken);
        var more := ReadPieces(env, r.next, isClass, isParamInit);
        if more.Got? {
          TakeFirst(parts, r.value, more.value, env.scopeResolution);
        }
      }
    }
  }

  lemma TakeFirst(parts: Parts, piece: Piece, rest: seq<Piece>, delimiter: string)
    requires parts.Valid()
    ensures TakeAll(parts, [piece] + rest, delimiter) == TakeAll(Take(parts, piece, delimiter), rest, delimiter)
  {
    hide Take;
    assert ([piece] + rest)[1..] == rest;
  }

  // ----- what is shown of them -----

  /** How many groups are behind so many parts when the last of them is in the group that is being filled. */
  function GroupsBehind(count: nat): (k: nat)
    ensures k == 0 || MAX_ARGS_SIZE * k < count
    ensures MAX_ARGS_SIZE * k + TakenOf(count) == count
  {
    if count == 0 then 0 else (count - 1) / MAX_ARGS_SIZE
  }

  /** The names of one full group. */
  function Group(pieces: seq<Piece>, k: nat): (names: seq<string>)
    requires MAX_ARGS_SIZE * (k + 1) <= |pieces|
    ensures |names| == MAX_ARGS_SIZE
  {
    Names(pieces)[MAX_ARGS_SIZE * k..MAX_ARGS_SIZE * (k + 1)]
  }

  /** A group is lost when the part behind it is stored over its first place. */
  predicate IsLost(pieces: seq<Piece>, k: nat)
    requires MAX_ARGS_SIZE * (k + 1) < |pieces|
  {
    pieces[MAX_ARGS_SIZE * (k + 1)].Stored?
  }

  /**
   * What is shown of the first `k` groups: each with its delimiters, nothing between them, and lost ones not at all.
   */
  function ShownGroups(pieces: seq<Piece>, k: nat, delimiter: string): string
    requires k == 0 || MAX_ARGS_SIZE * k < |pieces|
  {
    if k == 0 then ""
    else
      ShownGroups(pieces, k - 1, delimiter) +
      if IsLost(pieces, k - 1) then "" else Joined(Group(pieces, k - 1), delimiter)
  }

  /** What is shown of all parts: the full groups, and right behind them the parts of the group that is being filled. */
  function ShownInGroups(pieces: seq<Piece>, delimiter: string): string {
    var k := GroupsBehind(|pieces|);
    ShownGroups(pieces, k, delimiter) + Joined(Names(pieces)[MAX_ARGS_SIZE * k..], delimiter)
  }

  function LastKind(pieces: seq<Piece>): TypeKind {
    if pieces == [] then COMMON_DECL else pieces[|pieces| - 1].Kind()
  }

  /** The parameter types of the last part that is not stored. */
  function LastTypes(pieces: seq<Piece>): string {
    if pieces == [] then ""
    else
      match pieces[|pieces| - 1]
      case Named(part) => part.parameterTypes
      case Stored(_, _) => LastTypes(pieces[..|pieces| - 1])
  }

  function NestedInfo(pieces: seq<Piece>, delimiter: string): DemangleInfo {
    Info(ShownInGroups(pieces, delimiter), LastKind(pieces)).(functionParameterTypes := LastTypes(pieces))
  }

  /** What has been collected of some parts. */
  predicate Holds(parts: Parts, pieces: seq<Piece>, delimiter: string) {
    var k := GroupsBehind(|pieces|);
    && parts.Valid() && parts.count == |pieces|
    && parts.group[..TakenOf(|pieces|)] == Names(pieces)[MAX_ARGS_SIZE * k..]
    && parts.result == ShownGroups(pieces, k, delimiter)
    && parts.kind == LastKind(pieces) && parts.parameterTypes == LastTypes(pieces)
  }

  lemma {:induction false} GroupsKept(pieces: seq<Piece>, piece: Piece, k: nat, delimiter: string)
    requires k == 0 || MAX_ARGS_SIZE * k < |pieces|
    ensures ShownGroups(pieces + [piece], k, delimiter) == ShownGroups(pieces, k, delimiter)
  {
    hide Group, Joined;
    if k > 0 {
      GroupsKept(pieces, piece, k - 1, delimiter);
      GroupKept(pieces, piece, k - 1);
    }
  }

  lemma GroupKept(pieces: seq<Piece>, piece: Piece, k: nat)
    requires MAX_ARGS_SIZE * (k + 1) <= |pieces|
    ensures Group(pieces + [piece], k) == Group(pieces, k)
  {
    hide Names;
    LastOf(pieces, piece);
    PartOfFront(Names(pieces), piece.Name(), MAX_ARGS_SIZE * k, MAX_ARGS_SIZE * (k + 1));
  }

  lemma PartOfFront(names: seq<string>, name: string, i: nat, j: nat)
    requires i <= j <= |names|
    ensures (names + [name])[i..j] == names[i..j]
  {
  }

  lemma LastOf(pieces: seq<Piece>, piece: Piece)
    ensures LastKind(pieces + [piece]) == piece.Kind()
    ensures LastTypes(pieces + [piece]) == if piece.Named? then piece.part.parameterTypes else LastTypes(pieces)
    ensures Names(pieces + [piece]) == Names(pieces) + [piece.Name()]
  {
    assert (pieces + [piece])[..|pieces|] == pieces;
  }

  /** Whether the group that is being filled has room for one more part. */
  predicate HasRoom(count: nat) {
    count == 0 || count % MAX_ARGS_SIZE != 0
  }

  lemma GroupsGrow(n: nat)
    ensures HasRoom(n) ==>
      GroupsBehind(n + 1) == GroupsBehind(n) && TakenOf(n) < MAX_ARGS_SIZE && TakenOf(n + 1) == TakenOf(n) + 1
    ensures !HasRoom(n) ==>
      n > 0 && GroupsBehind(n + 1) == GroupsBehind(n) + 1 && TakenOf(n) == MAX_ARGS_SIZE && TakenOf(n + 1) == 1
  {
  }

  lemma PutBehind(group: seq<string>, j: nat, name: string)
    requires j < |group|
    ensures group[j := name][..j + 1] == group[..j] + [name]
  {
  }

  lemma OneMoreBehind(names: seq<string>, name: string, i: nat)
    requires i <= |names|
    ensures (names + [name])[i..] == names[i..] + [name]
  {
  }

  /** Where there is room in the group, the next part takes the next place. */
  lemma TakesPlace(parts: Parts, piece: Piece, delimiter: string)
    requires parts.Valid() && HasRoom(parts.count)
    ensures var next, j := Take(parts, piece, delimiter), TakenOf(parts.count);
      && j < MAX_ARGS_SIZE && next.group == parts.group[j := piece.Name()] && next.result == parts.result
      && next.parameterTypes == if piece.Named? then piece.part.parameterTypes else parts.parameterTypes
  {
    hide Flush, Truncate, GroupsBehind;
    assert TakenOf(parts.count) == parts.count % MAX_ARGS_SIZE;
  }

  /** There is room in the group for one more part. */
  lemma TakenIntoGroup(parts: Parts, pieces: seq<Piece>, piece: Piece, delimiter: string)
    requires Holds(parts, pieces, delimiter) && HasRoom(|pieces|)
    ensures Holds(Take(parts, piece, delimiter), pieces + [piece], delimiter)
  {
    hide ShownGroups, Names, LastKind, LastTypes, GroupsBehind, TakenOf, Take, HasRoom;
    var k := GroupsBehind(|pieces|);
    TakesPlace(parts, piece, delimiter);
    GroupsGrow(|pieces|);
    GroupsKept(pieces, piece, k, delimiter);
    LastOf(pieces, piece);
    PutBehind(parts.group, TakenOf(|pieces|), piece.Name());
    OneMoreBehind(Names(pieces), piece.Name(), MAX_ARGS_SIZE * k);
  }

  /** A named part has the full group written out; a stored one takes its place. */
  lemma TakenBehindGroup(parts: Parts, pieces: seq<Piece>, piece: Piece, delimiter: string)
    requires Holds(parts, pieces, delimiter) && !HasRoom(|pieces|)
    ensures Holds(Take(parts, piece, delimiter), pieces + [piece], delimiter)
  {
    hide LastKind, LastTypes, Flush, Joined, GroupsBehind, TakenOf;
    var k := GroupsBehind(|pieces|);
    var next, all := Take(parts, piece, delimiter), pieces + [piece];
    GroupsGrow(|pieces|);
    GroupsKept(pieces, piece, k, delimiter);
    LastOf(pieces, piece);
    assert parts.group[..MAX_ARGS_SIZE] == parts.group;
    assert parts.group == Group(all, k);
    assert next.result == parts.result + if piece.Stored? then "" else Joined(parts.group, delimiter) by {
      FlushIsJoined(parts.group, delimiter);
      var shown := Joined(parts.group, delimiter);
      assert parts.result + (shown + delimiter) == parts.result + shown + delimiter;
    }
    assert next.group[..1] == [piece.Name()];
  }

  lemma {:induction false} AllTaken(parts: Parts, done: seq<Piece>, pieces: seq<Piece>, delimiter: string)
    requires Holds(parts, done, delimiter)
    ensures Holds(TakeAll(parts, pieces, delimiter), done + pieces, delimiter)
    decreases |pieces|
  {
    hide Holds, Take, HasRoom;
    if pieces == [] {
      assert done + pieces == done;
    } else {
      HoldsAsMany(parts, done, delimiter);
      if HasRoom(|done|) {
        TakenIntoGroup(parts, done, pieces[0], delimiter);
      } else {
        TakenBehindGroup(parts, done, pieces[0], delimiter);
      }
      AllTaken(Take(parts, pieces[0], delimiter), done + [pieces[0]], pieces[1..], delimiter);
      assert done + [pieces[0]] + pieces[1..] == done + pieces;
    }
  }

  lemma HoldsAsMany(parts: Parts, pieces: seq<Piece>, delimiter: string)
    requires Holds(parts, pieces, delimiter)
    ensures parts.Valid() && parts.count == |pieces|
  {
  }

  lemma NothingHeld(delimiter: string)
    ensures Holds(NoParts(), [], delimiter)
  {
  }

  lemma HeldIsShown(parts: Parts, pieces: seq<Piece>, delimiter: string)
    requires Holds(parts, pieces, delimiter)
    ensures parts.Shows(delimiter) == NestedInfo(pieces, delimiter)
  {
    hide ShownGroups, Names, LastKind, LastTypes;
    var names := Names(pieces)[MAX_ARGS_SIZE * GroupsBehind(|pieces|)..];
    assert names[..|names|] == names;
    JoinLess(parts.group, names, TakenOf(|pieces|), delimiter);
  }

  /** What is read of nested names, for every text: their parts, in groups. */
  lemma NestedNamesAreShownInGroups(env: Env, i: nat, isClass: bool, isParamInit: bool)
    requires env.Valid()
    ensures var r := ReadPieces(env, i, isClass, isParamInit);
      ReadNested(env, i, isClass, isParamInit) ==
      if r.Failed? then Failed else Got(NestedInfo(r.value, env.scopeResolution), r.next)
  {
    hide ReadPieces, ReadNestedFrom, ReadNested, TakeAll, Holds, NestedInfo, Parts.Shows;
    PiecesAreCollected(env, i, isClass, isParamInit, NoParts());
    NestedShown(env, i, isClass, isParamInit);
    var r := ReadPieces(env, i, isClass, isParamInit);
    if r.Got? {
      NothingHeld(env.scopeResolution);
      AllTaken(NoParts(), [], r.value, env.scopeResolution);
      assert [] + r.value == r.value;
      HeldIsShown(TakeAll(NoParts(), r.value, env.scopeResolution), r.value, env.scopeResolution);
    }
  }

  // ----- what is lost -----

  /** How many characters are lost with the first `k` groups: a delimiter behind each, and all of a lost one. */
  function LostWith(pieces: seq<Piece>, k: nat, delimiter: string): nat
    requires k == 0 || MAX_ARGS_SIZE * k < |pieces|
  {
    if k == 0 then 0
    else
      LostWith(pieces, k - 1, delimiter) + |delimiter| +
      if IsLost(pieces, k - 1) then |Joined(Group(pieces, k - 1), delimiter)| else 0
  }

  lemma {:induction false} JoinedSplit(a: seq<string>, b: seq<string>, delimiter: string)
    requires b != []
    ensures Joined(a + b, delimiter) ==
            Joined(a, delimiter) + (if a == [] then "" else delimiter) + Joined(b, delimiter)
    decreases |b|
  {
    hide Joined;
    var rest, last := b[..|b| - 1], b[|b| - 1];
    assert b == rest + [last] && a + b == a + rest + [last];
    OneMore(a + rest, last, delimiter);
    OneMore(rest, last, delimiter);
    if rest == [] {
      NothingJoined(delimiter);
      assert a + rest == a;
    } else {
      JoinedSplit(a, rest, delimiter);
    }
  }

  lemma {:induction false} GroupsAndLosses(pieces: seq<Piece>, k: nat, delimiter: string)
    requires k == 0 || MAX_ARGS_SIZE * k < |pieces|
    ensures var all := Joined(Names(pieces)[..MAX_ARGS_SIZE * k], delimiter);
      && |ShownGroups(pieces, k, delimiter)| + LostWith(pieces, k, delimiter) ==
         |all| + (if k == 0 then 0 else |delimiter|)
      && (LostWith(pieces, k, delimiter) == 0 ==> ShownGroups(pieces, k, delimiter) == all)
  {
    hide Names, Joined;
    if k == 0 {
      NothingJoined(delimiter);
      assert Names(pieces)[..0] == [];
    } else {
      GroupsAndLosses(pieces, k - 1, delimiter);
      var before, group := Names(pieces)[..MAX_ARGS_SIZE * (k - 1)], Group(pieces, k - 1);
      assert Names(pieces)[..MAX_ARGS_SIZE * k] == before + group;
      JoinedSplit(before, group, delimiter);
      if k == 1 {
        NothingJoined(delimiter);
      }
    }
  }

  lemma ShownAndLost(pieces: seq<Piece>, delimiter: string)
    ensures var k := GroupsBehind(|pieces|);
      && |ShownInGroups(pieces, delimiter)| + LostWith(pieces, k, delimiter) == |Joined(Names(pieces), delimiter)|
      && (LostWith(pieces, k, delimiter) == 0 ==> ShownInGroups(pieces, delimiter) == Joined(Names(pieces), delimiter))
  {
    hide Names, Joined, ShownGroups, LostWith;
    var k := GroupsBehind(|pieces|);
    var before, rest := Names(pieces)[..MAX_ARGS_SIZE * k], Names(pieces)[MAX_ARGS_SIZE * k..];
    assert Names(pieces) == before + rest;
    GroupsAndLosses(pieces, k, delimiter);
    if rest == [] {
      NothingJoined(delimiter);
      assert Names(pieces) == [] && before == [];
    } else {
      JoinedSplit(before, rest, delimiter);
    }
  }

  predicate AreEmpty(names: seq<string>) {
    forall i :: 0 <= i < |names| ==> names[i] == ""
  }

  lemma {:induction false} JoinedIsEmptyIff(names: seq<string>)
    ensures Joined(names, "") == "" <==> AreEmpty(names)
  {
    if names == [] {
      NothingJoined("");
    } else {
      hide Joined;
      var rest, last := names[..|names| - 1], names[|names| - 1];
      assert names == rest + [last];
      JoinedIsEmptyIff(rest);
      OneMore(rest, last, "");
    }
  }

  /** Without delimiters, nothing is lost with groups that only hold empty names. */
  lemma {:induction false} NothingLostIff(pieces: seq<Piece>, k: nat)
    requires k == 0 || MAX_ARGS_SIZE * k < |pieces|
    ensures LostWith(pieces, k, "") == 0 <==>
            forall m :: 0 <= m < k && IsLost(pieces, m) ==> AreEmpty(Group(pieces, m))
  {
    hide Group, AreEmpty, Joined, IsLost;
    if k > 0 {
      NothingLostIff(pieces, k - 1);
      JoinedIsEmptyIff(Group(pieces, k - 1));
    }
  }

  /** All fit one group; or there are no delimiters to lose, and every group that is lost only holds empty names. */
  ghost predicate LosesNothing(pieces: seq<Piece>, delimiter: string) {
    |pieces| <= MAX_ARGS_SIZE ||
    (delimiter == "" &&
     forall k: nat :: MAX_ARGS_SIZE * (k + 1) < |pieces| && IsLost(pieces, k) ==> AreEmpty(Group(pieces, k)))
  }

  /** Something is lost with the first full group where there are delimiters. */
  lemma {:induction false} DelimitersAreLost(pieces: seq<Piece>, k: nat, delimiter: string)
    requires 0 < k && MAX_ARGS_SIZE * k < |pieces|
    ensures LostWith(pieces, k, delimiter) >= |delimiter|
  {
  }

  lemma ShownWholeIff(pieces: seq<Piece>, delimiter: string)
    ensures ShownInGroups(pieces, delimiter) == Joined(Names(pieces), delimiter) <==> LosesNothing(pieces, delimiter)
  {
    hide Names, Joined, ShownGroups, ShownInGroups, LostWith, IsLost, AreEmpty, Group;
    var k := GroupsBehind(|pieces|);
    ShownAndLost(pieces, delimiter);
    NothingLostIff(pieces, k);
    if k > 0 {
      DelimitersAreLost(pieces, k, delimiter);
    } else {
      NoGroupsLost(pieces, delimiter);
    }
  }

  lemma NoGroupsLost(pieces: seq<Piece>, delimiter: string)
    ensures LostWith(pieces, 0, delimiter) == 0
  {
  }

  /**
   * Where each part shows something, no part may be lost: the parts fit one group, or there are no delimiters and no
   * lambda, extension or name that ends the text stands first behind a full group.
   */
  lemma LosesNothingIff(pieces: seq<Piece>, delimiter: string)
    requires forall k :: 0 <= k < |pieces| ==> pieces[k].Name() != ""
    ensures LosesNothing(pieces, delimiter) <==>
            |pieces| <= MAX_ARGS_SIZE ||
            (delimiter == "" && forall k: nat :: MAX_ARGS_SIZE * (k + 1) < |pieces| ==> !IsLost(pieces, k))
  {
    forall k: nat | MAX_ARGS_SIZE * (k + 1) < |pieces| ensures !AreEmpty(Group(pieces, k)) {
      assert Group(pieces, k)[0] == pieces[MAX_ARGS_SIZE * k].Name();
    }
  }

  /**
   * Nested names are shown with a delimiter between any two, if and only if nothing is lost with a full group: its last
   * delimiter is where a named part follows, and all of it where the next part is stored over its first place.
   */
  lemma NestedNamesAreJoinedIff(env: Env, i: nat, isClass: bool, isParamInit: bool)
    requires env.Valid()
    ensures var r, p := ReadNested(env, i, isClass, isParamInit), ReadPieces(env, i, isClass, isParamInit);
      && (r.Got? <==> p.Got?)
      && (p.Got? ==>
            r.next == p.next &&
            (r.value.demangled == Joined(Names(p.value), env.scopeResolution) <==>
             LosesNothing(p.value, env.scopeResolution)))
  {
    hide ReadPieces, ReadNested, ShownInGroups, LosesNothing, Names, Joined;
    NestedNamesAreShownInGroups(env, i, isClass, isParamInit);
    var p := ReadPieces(env, i, isClass, isParamInit);
    if p.Got? {
      ShownWholeIff(p.value, env.scopeResolution);
    }
  }
}
