/**
 * What is shown of types and declarations, said by their parts alone: which names and signs are written one after
 * another. The infos that the parser keeps, and how they put their fields together, do not occur here; it is proved
 * that they show just this.
 */
module Displays {
  import opened MangledTexts
  import opened MangledReadings
  import opened MangledTypes
  import opened MangledDecls
  import opened NestedNames
  import opened Wrappers

  // ----- signs and lists -----

  function Listed(names: seq<string>, delimiter: string): string {
    if names == [] then "" else if |names| == 1 then names[0] else names[0] + delimiter + Listed(names[1..], delimiter)
  }

  /** Nothing stands in no brackets. */
  function InAngles(inner: string): string {
    if inner == "" then "" else "<" + inner + ">"
  }

  function WithoutAngles(name: string): string {
    if |name| >= 2 && name[0] == '<' && name[|name| - 1] == '>' then name[1..|name| - 1] else name
  }

  /** One pair of brackets for each dimension. */
  function Dimensions(n: nat): string {
    seq(2 * n, i => if i % 2 == 0 then '[' else ']')
  }

  /** The first colon of a package's name is doubled, unless it is the last character. */
  function Organized(name: string): string {
    if name == "" then "" else if name[0] != ':' then [name[0]] + Organized(name[1..])
    else if |name| > 1 then "::" + name[1..] else name
  }

  function Slashed(name: string): string {
    seq(|name|, i requires 0 <= i < |name| => if name[i] == '$' then '/' else name[i])
  }

  /**
   * Nested names are shown sixteen at a time, with the scope sign between the names of each sixteen and none between
   * sixteens. Sixteen that a stored name follows are not shown.
   */
  function InSixteens(names: seq<string>, stored: seq<bool>, scope: string): string
    requires |names| == |stored|
  {
    if |names| <= 16 then Listed(names, scope)
    else (if stored[16] then "" else Listed(names[..16], scope)) + InSixteens(names[16..], stored[16..], scope)
  }

  function NoneStored(names: seq<string>): seq<bool> {
    seq(|names|, _ => false)
  }

  // ----- types -----

  function DisplayPackage(env: Env, pkg: Package): string {
    match pkg
    case Standard(code, _) => if code in env.stdPackages then Slashed(env.stdPackages[code]) else ""
    case NoPackage => ""
    case Spelled(name, _) => Slashed(Organized(name))
  }

  function Display(env: Env, t: Type): string
    decreases t, 1
  {
    match t
    case Primitive(_) => DisplayHead(env, t)
    case Float16 => DisplayHead(env, t)
    case CString => DisplayHead(env, t)
    case Parameter(_) => DisplayHead(env, t)
    case Pointer(to) => "CPointer" + env.genericTypefilter(InAngles(Display(env, to)))
    case RawArray(dimension, element) => "RawArray" + InAngles(Display(env, element)) + Dimensions(dimension)
    case VArray(size, elements) =>
      var inner, n := Listed(DisplayAll(env, elements), ","), size % 0x1_0000_0000;
      "VArray" + if inner == "" then "" else "<" + inner + (if n == 0 then "" else ",$" + UIntToString(n)) + ">"
    case Tuple(elements) => "Tuple" + env.genericTypefilter(InAngles(Listed(DisplayAll(env, elements), ",")))
    case Function(_, result, parameters) =>
      "(" + Listed(DisplayAll(env, parameters), ", ") + ") -> " + Display(env, result)
    case Nominal(_, pkg, _) =>
      var package, name := DisplayPackage(env, pkg), DisplayHead(env, t);
      package + (if package == "" || name == "" then "" else env.scopeResolution) + name
  }

  /** A type without its package and, but for the names of a nominal type, its arguments. */
  function DisplayHead(env: Env, t: Type): string
    decreases t, 0
  {
    match t
    case Primitive(letter) => PrimitiveName(letter)
    case Float16 => "Float16"
    case CString => "CString"
    case Parameter(number) =>
      WithoutAngles(if number < |env.genericVec| then env.genericVec[number] else "T" + UIntToString(number))
    case Pointer(_) => "CPointer"
    case RawArray(_, _) => "RawArray"
    case VArray(_, _) => "VArray"
    case Tuple(_) => "Tuple"
    case Function(_, result, _) => WithoutAngles(Display(env, result))
    case Nominal(_, _, names) =>
      var shown := DisplayNames(env, names);
      WithoutAngles(InSixteens(shown, NoneStored(shown), env.scopeResolution))
  }

  function DisplayAll(env: Env, ts: seq<Type>): seq<string>
    decreases ts, 0
  {
    if ts == [] then [] else [Display(env, ts[0])] + DisplayAll(env, ts[1..])
  }

  function DisplayArguments(env: Env, ts: seq<Type>): string
    decreases ts, 1
  {
    if ts == [] then "" else env.genericTypefilter(InAngles(Listed(DisplayAll(env, ts), ",")))
  }

  function DisplayNames(env: Env, names: seq<TypeName>): seq<string>
    decreases names, 2
  {
    if names == [] then []
    else [WithoutAngles(names[0].name) + DisplayArguments(env, names[0].arguments)] + DisplayNames(env, names[1..])
  }

  // ----- declarations -----

  function DisplayPartName(name: PartName): string {
    match name
    case Plain(n) => WithoutAngles(n)
    case Operator(pair) => if |pair| == 2 then OperatorName(pair) else ""
    case Setter(n) => n + "::set"
    case Getter(n) => n + "::get"
  }

  function DisplayPart(env: Env, part: NestedPart): string {
    match part
    case Member(name, _, arguments, _) => DisplayPartName(name) + DisplayArguments(env, arguments)
    case Lambda(number) => "lambda." + UIntToString(number)
    case Extension(extended, _, _) => DisplayHead(env, extended)
  }

  function DisplayParts(env: Env, parts: seq<NestedPart>): (names: seq<string>)
    ensures |names| == |parts|
  {
    seq(|parts|, i requires 0 <= i < |parts| => DisplayPart(env, parts[i]))
  }

  /** Lambdas and extensions are stored, and so is a name without anything behind it. */
  function StoredParts(d: Decl): (stored: seq<bool>)
    ensures |stored| == |d.parts|
  {
    seq(|d.parts|, i requires 0 <= i < |d.parts| =>
      match d.parts[i]
      case Member(_, counter, arguments, parameters) =>
        i == |d.parts| - 1 && !d.closed && counter == None && arguments == [] && parameters == None
      case Lambda(_) => true
      case Extension(_, _, _) => true)
  }

  function DisplayDecl(env: Env, d: Decl): string {
    var name := WithoutAngles(InSixteens(DisplayParts(env, d.parts), StoredParts(d), env.scopeResolution));
    if d.parts == [] then name
    else
      match d.parts[|d.parts| - 1]
      case Member(_, _, _, parameters) =>
        if parameters.Some? then name + "(" + Listed(DisplayAll(env, parameters.value), ", ") + ")" else name
      case Lambda(_) => name + "()"
      case Extension(_, _, _) => name
  }

  // ----- how infos show lists -----

  lemma {:induction false} JoinedIsListed(names: seq<string>, delimiter: string)
    ensures Joined(names, delimiter) == Listed(names, delimiter)
  {
    if |names| <= 1 {
      NothingJoined(delimiter);
    } else {
      hide Joined;
      JoinedIsListed(names[1..], delimiter);
      assert names == [names[0]] + names[1..];
      JoinedSplit([names[0]], names[1..], delimiter);
      JoinedOne(names[0], delimiter);
    }
  }

  lemma JoinedOne(name: string, delimiter: string)
    ensures Joined([name], delimiter) == name
  {
  }

  lemma BareIs(name: string)
    ensures Bare(name) == WithoutAngles(name)
  {
    hide UIntToString;
    if |name| >= 2 {
      assert EndsWith(name, ">") <==> name[|name| - 1] == '>' by {
        assert name[|name| - 1..] == [name[|name| - 1]];
      }
    }
  }

  lemma {:induction false} BracketsAre(n: nat)
    ensures Brackets(n) == Dimensions(n)
  {
    if n > 0 {
      BracketsAre(n - 1);
      assert Dimensions(n) == Dimensions(n - 1) + "[]";
    }
  }

  /** A package, and a name in it. */
  function Qualified(package: string, name: string, scope: string): string {
    package + (if package == "" || name == "" then "" else scope) + name
  }

  function InAnglesWithSize(inner: string, n: nat): string {
    InAngles(if inner == "" || n == 0 then inner else inner + ",$" + UIntToString(n))
  }

  lemma ArgumentsShow(di: DemangleInfo, n: nat)
    requires !di.IsFunctionLike()
    ensures di.GetArgTypesName(n) == InAnglesWithSize(di.args, n)
  {
    hide UIntToString;
    if di.args != "" && n != 0 {
      var size := UIntToString(n);
      assert "<" + di.args + ",$" + size + ">" == "<" + (di.args + ",$" + size) + ">";
    }
  }

  /** An info of a type shows its package, its identifier, and what stands behind it. */
  lemma TypeInfoShows(di: DemangleInfo, scope: string, n: nat)
    requires di.kind != FUNCTION && di.kind != GENERIC_CONSTRAINTS && di.kind != COMMON_DECL && !di.IsFunctionLike()
    ensures di.GetFullName(scope, n) == Qualified(di.pkgName, WithoutAngles(di.demangled), scope)
                                        + di.genericTypes + InAnglesWithSize(di.args, n) + di.genericConstraints
  {
    hide WithoutAngles, InAnglesWithSize, DemangleInfo.GetArgTypesName, DemangleInfo.GetIdentifier;
    ArgumentsShow(di, n);
    IdentifierIs(di);
    var name := WithoutAngles(di.demangled);
    assert di.pkgName + "" + name == di.pkgName + name;
  }

  lemma IdentifierIs(di: DemangleInfo)
    ensures di.GetIdentifier() == WithoutAngles(di.demangled)
  {
    BareIs(di.demangled);
  }

  lemma FunctionInfoShows(di: DemangleInfo, scope: string)
    requires di.kind == FUNCTION
    ensures di.GetFullName(scope) == "(" + di.args + ") -> " + di.demangled
  {
    if di.args == "" {
      assert "()" + " -> " == "(" + di.args + ") -> ";
    } else {
      assert "(" + di.args + ")" + " -> " == "(" + di.args + ") -> ";
    }
  }

  lemma ListShows(names: seq<string>, scope: string, n: nat)
    ensures TypesInfo(names).GetFullName(scope, n) == InAnglesWithSize(Listed(names, ","), n)
  {
    hide InAnglesWithSize, DemangleInfo.GetFullName, Joined, Listed;
    JoinedIsListed(names, ",");
    TypeInfoShows(TypesInfo(names), scope, n);
    var shown := InAnglesWithSize(Listed(names, ","), n);
    assert Qualified("", WithoutAngles(""), scope) == "";
    assert "" + "" + shown + "" == shown;
  }

  lemma NoSize(inner: string)
    ensures InAnglesWithSize(inner, 0) == InAngles(inner)
  {
  }

  lemma FilteredShows(env: Env, names: seq<string>)
    ensures Filtered(env, names) == env.genericTypefilter(InAngles(Listed(names, ",")))
  {
    hide InAngles, InAnglesWithSize, DemangleInfo.GetFullName, Listed, TypesInfo;
    ListShows(names, env.scopeResolution, 0);
    NoSize(Listed(names, ","));
  }

  // ----- what is shown in groups -----

  lemma Shifted(names: seq<string>, i: nat, j: nat)
    requires 16 <= i <= j <= |names|
    ensures names[i..j] == names[16..][i - 16..j - 16]
  {
  }

  lemma NamesShift(pieces: seq<Piece>)
    requires |pieces| >= 16
    ensures Names(pieces[16..]) == Names(pieces)[16..]
  {
  }

  lemma GroupShifts(pieces: seq<Piece>, k: nat)
    requires k > 0 && MAX_ARGS_SIZE * (k + 1) < |pieces|
    ensures Group(pieces, k) == Group(pieces[16..], k - 1)
    ensures IsLost(pieces, k) == IsLost(pieces[16..], k - 1)
  {
    hide Names;
    NamesShift(pieces);
    Shifted(Names(pieces), MAX_ARGS_SIZE * k, MAX_ARGS_SIZE * (k + 1));
  }

  lemma FirstGroup(pieces: seq<Piece>)
    requires |pieces| > 16
    ensures Group(pieces, 0) == Names(pieces)[..16] && IsLost(pieces, 0) == pieces[16].Stored?
  {
    hide Names;
  }

  lemma {:induction false} GroupsBehindFirst(pieces: seq<Piece>, k: nat, delimiter: string)
    requires k > 0 && MAX_ARGS_SIZE * k < |pieces|
    ensures ShownGroups(pieces, k, delimiter) ==
            (if pieces[16].Stored? then "" else Joined(Names(pieces)[..16], delimiter)) +
            ShownGroups(pieces[16..], k - 1, delimiter)
  {
    hide Joined, Names, Group, IsLost;
    FirstGroup(pieces);
    if k > 1 {
      GroupsBehindFirst(pieces, k - 1, delimiter);
      GroupShifts(pieces, k - 1);
    }
  }

  function AreStored(pieces: seq<Piece>): (stored: seq<bool>)
    ensures |stored| == |pieces|
  {
    seq(|pieces|, i requires 0 <= i < |pieces| => pieces[i].Stored?)
  }

  lemma NoGroups(pieces: seq<Piece>, delimiter: string)
    ensures ShownGroups(pieces, 0, delimiter) == ""
  {
  }

  lemma {:induction false} ShownInSixteens(pieces: seq<Piece>, delimiter: string)
    ensures ShownInGroups(pieces, delimiter) == InSixteens(Names(pieces), AreStored(pieces), delimiter)
  {
    hide Joined, Listed, Names, ShownGroups;
    var k := GroupsBehind(|pieces|);
    if |pieces| <= 16 {
      NoGroups(pieces, delimiter);
      JoinedIsListed(Names(pieces), delimiter);
      assert k == 0 && Names(pieces)[0..] == Names(pieces);
    } else {
      var rest := pieces[16..];
      ShownInSixteens(rest, delimiter);
      assert GroupsBehind(|rest|) == k - 1;
      GroupsBehindFirst(pieces, k, delimiter);
      JoinedIsListed(Names(pieces)[..16], delimiter);
      NamesShift(pieces);
      assert AreStored(pieces)[16..] == AreStored(rest);
      Shifted(Names(pieces), MAX_ARGS_SIZE * k, |pieces|);
    }
  }

  // ----- types are shown by their parts -----

  lemma {:induction false} ReplacedIsSlashed(name: string)
    ensures ReplaceChar(name, '$', "/") == Slashed(name)
  {
    if name != "" {
      ReplacedIsSlashed(name[1..]);
      assert Slashed(name) == [Slashed(name)[0]] + Slashed(name[1..]);
    }
  }

  lemma {:induction false} OrganizedIs(name: string, i: nat)
    requires i <= |name| && forall k :: 0 <= k < i ==> name[k] != ':'
    ensures WithOrganization(name) == name[..i] + Organized(name[i..])
    decreases |name| - i
  {
    hide WithOrganization;
    if i == |name| || name[i] == ':' {
      DoubledAt(name, i);
    } else {
      OrganizedIs(name, i + 1);
      assert name[i..] == [name[i]] + name[i + 1..];
      assert name[..i] + [name[i]] == name[..i + 1];
    }
  }

  lemma DoubledAt(name: string, i: nat)
    requires i <= |name| && (forall k :: 0 <= k < i ==> name[k] != ':') && (i < |name| ==> name[i] == ':')
    ensures WithOrganization(name) == name[..i] + Organized(name[i..])
  {
    hide Find;
    if i == |name| {
      NoColon(name, 0);
      assert name[..i] + "" == name;
    } else {
      FindIs(name, ':', 0, i);
      assert name[i..] == ":" + name[i + 1..];
      if i + 1 < |name| {
        assert name[..i] + ":" + name[i..] == name[..i] + ("::" + name[i + 1..]);
      } else {
        assert name == name[..i] + name[i..];
      }
    }
  }

  lemma {:induction false} NoColon(name: string, i: nat)
    requires forall k :: i <= k < |name| ==> name[k] != ':'
    ensures Find(name, ":", i) == -1
    decreases |name| - i
  {
    FindStep(name, ':', i);
    if i < |name| {
      NoColon(name, i + 1);
    }
  }

  /** A package is shown with slashes, and its organisation is set off by two colons. */
  lemma PackageIsDisplayed(env: Env, pkg: Package)
    ensures ShownPackage(env, pkg).pkgName == DisplayPackage(env, pkg)
    ensures ShownPackage(env, pkg).isPrivateDeclaration <==> pkg != NoPackage && pkg.file != NoFile
  {
    hide ReplaceChar, WithOrganization, Organized, Slashed;
    match pkg
    case NoPackage =>
    case Standard(code, _) =>
      ReplacedIsSlashed(if code in env.stdPackages then env.stdPackages[code] else "");
      assert Slashed("") == "" by { NothingSlashed(); }
    case Spelled(name, _) =>
      OrganizedIs(name, 0);
      assert name[..0] + Organized(name) == Organized(name) && name[0..] == name;
      ReplacedIsSlashed(Organized(name));
  }

  lemma NothingSlashed()
    ensures Slashed("") == ""
  {
  }

  lemma PrimitivesHaveNoAngles(letter: char)
    ensures WithoutAngles(PrimitiveName(letter)) == PrimitiveName(letter)
  {
  }

  /** A type that is known by a word shows it, its type arguments, its element and its brackets. */
  lemma WordShows(word: string, kind: TypeKind, generics: string, args: string, constraints: string, scope: string)
    requires kind in {PRIMITIVE, CSTRING, RAW_ARRAY, TUPLE, CPOINTER, GENERIC_TYPES}
    ensures var di := Info(word, kind).(genericTypes := generics, args := args, genericConstraints := constraints);
            && di.GetFullName(scope) == WithoutAngles(word) + generics + InAngles(args) + constraints
            && di.GetIdentifier() == WithoutAngles(word)
  {
    hide WithoutAngles, InAngles, InAnglesWithSize, DemangleInfo.GetFullName, DemangleInfo.GetIdentifier;
    var di := Info(word, kind).(genericTypes := generics, args := args, genericConstraints := constraints);
    TypeInfoShows(di, scope, 0);
    NoSize(args);
    IdentifierIs(di);
    assert Qualified("", WithoutAngles(word), scope) == WithoutAngles(word);
  }

  lemma WordAlone(word: string, generics: string)
    ensures word + generics + InAngles("") + "" == word + generics
    ensures word + "" == word
  {
  }

  lemma WordsHaveNoAngles()
    ensures WithoutAngles("CPointer") == "CPointer" && WithoutAngles("RawArray") == "RawArray"
    ensures WithoutAngles("VArray") == "VArray" && WithoutAngles("Tuple") == "Tuple"
    ensures WithoutAngles("Float16") == "Float16" && WithoutAngles("CString") == "CString"
  {
  }

  lemma LeafIsDisplayed(env: Env, t: Type)
    requires t.Primitive? || t.Float16? || t.CString? || t.Parameter?
    ensures FullName(env, t) == Display(env, t) && Shown(env, t).GetIdentifier() == DisplayHead(env, t)
  {
    hide WithoutAngles, InAngles, DemangleInfo.GetFullName, DemangleInfo.GetIdentifier, PrimitiveName, UIntToString;
    WordsHaveNoAngles();
    var di := Shown(env, t);
    if t.Primitive? {
      PrimitivesHaveNoAngles(t.letter);
    }
    WordShows(di.demangled, di.kind, "", "", "", env.scopeResolution);
    WordAlone(WithoutAngles(di.demangled), "");
  }

  lemma PointerIsDisplayed(env: Env, to: Type)
    requires FullName(env, to) == Display(env, to)
    ensures FullName(env, Pointer(to)) == Display(env, Pointer(to))
    ensures Shown(env, Pointer(to)).GetIdentifier() == DisplayHead(env, Pointer(to))
  {
    hide WithoutAngles, InAngles, DemangleInfo.GetFullName, DemangleInfo.GetIdentifier, Filtered;
    WordsHaveNoAngles();
    var generics := Filtered(env, [FullName(env, to)]);
    WordShows("CPointer", CPOINTER, generics, "", "", env.scopeResolution);
    WordAlone("CPointer", generics);
    FilteredShows(env, [FullName(env, to)]);
  }

  lemma RawArrayIsDisplayed(env: Env, dimension: nat, element: Type)
    requires FullName(env, element) == Display(env, element)
    ensures FullName(env, RawArray(dimension, element)) == Display(env, RawArray(dimension, element))
    ensures Shown(env, RawArray(dimension, element)).GetIdentifier() == DisplayHead(env, RawArray(dimension, element))
  {
    hide WithoutAngles, InAngles, DemangleInfo.GetFullName, DemangleInfo.GetIdentifier, Brackets, Dimensions;
    WordsHaveNoAngles();
    BracketsAre(dimension);
    WordShows("RawArray", RAW_ARRAY, "", FullName(env, element), Brackets(dimension), env.scopeResolution);
    WordAlone("RawArray", "");
  }

  lemma SizeIsDisplayed(inner: string, n: nat)
    ensures InAnglesWithSize(inner, n) ==
            if inner == "" then "" else "<" + inner + (if n == 0 then "" else ",$" + UIntToString(n)) + ">"
  {
    hide UIntToString;
    var size := UIntToString(n);
    assert "<" + (inner + ",$" + size) + ">" == "<" + inner + (",$" + size) + ">";
    assert "<" + inner + "" + ">" == "<" + inner + ">";
  }

  lemma VArrayIsDisplayed(env: Env, size: nat, elements: seq<Type>)
    requires FullNames(env, elements) == DisplayAll(env, elements)
    ensures FullName(env, VArray(size, elements)) == Display(env, VArray(size, elements))
    ensures Shown(env, VArray(size, elements)).GetIdentifier() == DisplayHead(env, VArray(size, elements))
  {
    hide WithoutAngles, InAngles, InAnglesWithSize, DemangleInfo.GetFullName, DemangleInfo.GetIdentifier, Listed,
      TypesInfo, UIntToString, FullNames, DisplayAll;
    WordsHaveNoAngles();
    var n := size % (UINT32_MAX + 1);
    var generics := TypesInfo(FullNames(env, elements)).GetFullName(env.scopeResolution, n);
    WordShows("VArray", TUPLE, generics, "", "", env.scopeResolution);
    WordAlone("VArray", generics);
    ListShows(FullNames(env, elements), env.scopeResolution, n);
    SizeIsDisplayed(Listed(FullNames(env, elements), ","), n);
  }

  lemma TupleIsDisplayed(env: Env, elements: seq<Type>)
    requires FullNames(env, elements) == DisplayAll(env, elements)
    ensures FullName(env, Tuple(elements)) == Display(env, Tuple(elements))
    ensures Shown(env, Tuple(elements)).GetIdentifier() == DisplayHead(env, Tuple(elements))
  {
    hide WithoutAngles, InAngles, DemangleInfo.GetFullName, DemangleInfo.GetIdentifier, Listed, Filtered, FullNames,
      DisplayAll;
    WordsHaveNoAngles();
    var generics := Filtered(env, FullNames(env, elements));
    WordShows("Tuple", TUPLE, generics, "", "", env.scopeResolution);
    WordAlone("Tuple", generics);
    FilteredShows(env, FullNames(env, elements));
  }

  lemma FunctionIsDisplayed(env: Env, isC: bool, result: Type, parameters: seq<Type>)
    requires FullName(env, result) == Display(env, result) && FullNames(env, parameters) == DisplayAll(env, parameters)
    ensures var t := Function(isC, result, parameters);
            FullName(env, t) == Display(env, t) && Shown(env, t).GetIdentifier() == DisplayHead(env, t)
  {
    hide WithoutAngles, DemangleInfo.GetFullName, DemangleInfo.GetIdentifier, Listed, Joined, FullNames, DisplayAll;
    var di := Shown(env, Function(isC, result, parameters));
    FunctionInfoShows(di, env.scopeResolution);
    IdentifierIs(di);
    JoinedIsListed(FullNames(env, parameters), ", ");
  }

  lemma NoneAreStored(pieces: seq<Piece>, names: seq<string>)
    requires |pieces| == |names| && forall piece :: piece in pieces ==> piece.Named?
    ensures AreStored(pieces) == NoneStored(names)
  {
    assert forall i :: 0 <= i < |pieces| ==> pieces[i] in pieces;
  }

  lemma NominalInfo(env: Env, letter: char, pkg: Package, names: seq<TypeName>)
    requires letter in {'C', 'R', 'N'}
    requires forall piece :: piece in TypePieces(env, names) ==> piece.Kind() == COMMON_DECL
    ensures var di, pieces := Shown(env, Nominal(letter, pkg, names)), TypePieces(env, names);
            di == Info(ShownInGroups(pieces, env.scopeResolution), UnitKind(letter))
                  .(pkgName := ShownPackage(env, pkg).pkgName,
                    isPrivateDeclaration := ShownPackage(env, pkg).isPrivateDeclaration)
  {
    hide ShownInGroups, TypePieces, ShownPackage, LastTypes;
  }

  lemma NominalIsDisplayed(env: Env, letter: char, pkg: Package, names: seq<TypeName>)
    requires letter in {'C', 'R', 'N'}
    requires Names(TypePieces(env, names)) == DisplayNames(env, names)
    requires forall piece :: piece in TypePieces(env, names) ==> piece.Named? && piece.Kind() == COMMON_DECL
    ensures var t := Nominal(letter, pkg, names);
            FullName(env, t) == Display(env, t) && Shown(env, t).GetIdentifier() == DisplayHead(env, t)
  {
    hide Shown, WithoutAngles, DemangleInfo.GetFullName, DemangleInfo.GetIdentifier, ShownInGroups, InSixteens, Names,
      TypePieces, DisplayNames, ShownPackage, DisplayPackage, LastTypes;
    var di := Shown(env, Nominal(letter, pkg, names));
    NominalInfo(env, letter, pkg, names);
    PackageIsDisplayed(env, pkg);
    ShownInSixteens(TypePieces(env, names), env.scopeResolution);
    NoneAreStored(TypePieces(env, names), DisplayNames(env, names));
    TypeInfoShows(di, env.scopeResolution, 0);
    IdentifierIs(di);
    var shown := Qualified(di.pkgName, WithoutAngles(di.demangled), env.scopeResolution);
    NoSize("");
    assert shown + "" + "" + "" == shown;
  }

  /** What is shown of a type is said by its parts alone. */
  lemma {:induction false} TypeIsDisplayed(env: Env, t: Type)
    requires CanMangle(env, t)
    ensures FullName(env, t) == Display(env, t) && Shown(env, t).GetIdentifier() == DisplayHead(env, t)
    decreases t, 1
  {
    hide FullName, Shown, Display, DisplayHead, FullNames, DisplayAll, TypePieces, DisplayNames;
    match t
    case Primitive(_) => LeafIsDisplayed(env, t);
    case Float16 => LeafIsDisplayed(env, t);
    case CString => LeafIsDisplayed(env, t);
    case Parameter(_) => LeafIsDisplayed(env, t);
    case Pointer(to) =>
      TypeIsDisplayed(env, to);
      PointerIsDisplayed(env, to);
    case RawArray(dimension, element) =>
      TypeIsDisplayed(env, element);
      RawArrayIsDisplayed(env, dimension, element);
    case VArray(size, elements) =>
      TypesAreDisplayed(env, elements);
      VArrayIsDisplayed(env, size, elements);
    case Tuple(elements) =>
      TypesAreDisplayed(env, elements);
      TupleIsDisplayed(env, elements);
    case Function(isC, result, parameters) =>
      TypeIsDisplayed(env, result);
      TypesAreDisplayed(env, parameters);
      FunctionIsDisplayed(env, isC, result, parameters);
    case Nominal(letter, pkg, names) =>
      TypeNamesAreDisplayed(env, names);
      NominalIsDisplayed(env, letter, pkg, names);
  }

  lemma {:induction false} TypesAreDisplayed(env: Env, ts: seq<Type>)
    requires CanMangleAll(env, ts)
    ensures FullNames(env, ts) == DisplayAll(env, ts)
    decreases ts, 0
  {
    if ts != [] {
      TypeIsDisplayed(env, ts[0]);
      TypesAreDisplayed(env, ts[1..]);
    }
  }

  lemma ArgumentsAreDisplayed(env: Env, ts: seq<Type>)
    requires FullNames(env, ts) == DisplayAll(env, ts)
    ensures ShownArguments(env, ts) == DisplayArguments(env, ts)
  {
    hide FullNames, DisplayAll, Filtered, InAngles, Listed;
    FilteredShows(env, FullNames(env, ts));
  }

  lemma {:induction false} TypeNamesAreDisplayed(env: Env, names: seq<TypeName>)
    requires CanMangleNames(env, names)
    ensures Names(TypePieces(env, names)) == DisplayNames(env, names)
    ensures forall piece :: piece in TypePieces(env, names) ==> piece.Named? && piece.Kind() == COMMON_DECL
    decreases names, 0
  {
    hide ShownArguments, DisplayArguments, WithoutAngles;
    if names != [] {
      TypesAreDisplayed(env, names[0].arguments);
      ArgumentsAreDisplayed(env, names[0].arguments);
      BareIs(names[0].name);
      TypeNamesAreDisplayed(env, names[1..]);
    }
  }

  /** What is read of the text of a type shows that type. */
  lemma TypeTextIsDisplayed(env: Env, t: Type)
    requires CodesAreNoNumbers(env) && CanMangle(env, t) && env.name == Text(t)
    ensures QualifiedTypeAt(env.name, 0)
    ensures var r := ReadUnit(env, 0);
            r.Got? && r.next == |env.name| && r.value.GetFullName(env.scopeResolution) == Display(env, t)
  {
    hide Text, ReadUnit, Shown, Display, DemangleInfo.GetFullName, QualifiedTypeAt, CanMangle;
    TypeIsRead(env, t);
    TypeIsDisplayed(env, t);
  }

  // ----- declarations are shown by their parts -----

  lemma PartNameIsDisplayed(name: PartName)
    requires CanManglePartName(name)
    ensures Bare(ShownPartName(name)) == DisplayPartName(name)
  {
    hide Bare, OperatorName, IsIdentifier;
    BareIs(ShownPartName(name));
    if name.Operator? {
      OperatorsAreNoAccessors(name.pair);
    }
  }

  /** What is collected of a part is stored without looking, or not. */
  predicate IsStoredPart(part: NestedPart, endsText: bool) {
    match part
    case Member(_, counter, arguments, parameters) =>
      endsText && counter == None && arguments == [] && parameters == None
    case Lambda(_) => true
    case Extension(_, _, _) => true
  }

  lemma PartIsDisplayed(env: Env, part: NestedPart, endsText: bool)
    requires CanManglePart(env, part)
    ensures var piece := PieceOf(env, part, endsText);
            piece.Name() == DisplayPart(env, part) && (piece.Stored? <==> IsStoredPart(part, endsText))
  {
    hide ShownPartName, DisplayPartName, CanManglePartName, CanMangleAll, FullNames, DisplayAll, Shown, DisplayHead,
      ParameterTypes, Filtered, CanMangle, Bare, UIntToString, DemangleInfo.GetIdentifier;
    match part
    case Member(name, _, arguments, _) =>
      PartNameIsDisplayed(name);
      TypesAreDisplayed(env, arguments);
      ArgumentsAreDisplayed(env, arguments);
    case Lambda(_) =>
    case Extension(extended, _, _) => TypeIsDisplayed(env, extended);
  }

  lemma {:induction false} PieceAt(env: Env, parts: seq<NestedPart>, closed: bool, i: nat)
    requires i < |parts|
    ensures PiecesOf(env, parts, closed)[i] == PieceOf(env, parts[i], i == |parts| - 1 && !closed)
  {
    hide PieceOf;
    if i > 0 {
      PieceAt(env, parts[1..], closed, i - 1);
    }
  }

  lemma PartsAreDisplayed(env: Env, d: Decl)
    requires CanMangleParts(env, d.parts)
    ensures Names(PiecesOf(env, d.parts, d.closed)) == DisplayParts(env, d.parts)
    ensures AreStored(PiecesOf(env, d.parts, d.closed)) == StoredParts(d)
  {
    hide PiecesOf, PieceOf, DisplayPart, CanManglePart;
    forall i | 0 <= i < |d.parts|
      ensures PiecesOf(env, d.parts, d.closed)[i].Name() == DisplayPart(env, d.parts[i])
      ensures PiecesOf(env, d.parts, d.closed)[i].Stored? == IsStoredPart(d.parts[i], i == |d.parts| - 1 && !d.closed)
    {
      PieceAt(env, d.parts, d.closed, i);
      PartIsDisplayed(env, d.parts[i], i == |d.parts| - 1 && !d.closed);
    }
  }

  /** The kind of a declaration and its parameters are those of its last part. */
  lemma LastPartDecides(env: Env, d: Decl)
    requires d.parts != []
    ensures var pieces, last := PiecesOf(env, d.parts, d.closed), d.parts[|d.parts| - 1];
      && LastKind(pieces) ==
         (if last.Lambda? then LAMBDA_FUNCTION
          else if last.Member? && last.parameters.Some? then FUNCTION_DECL else COMMON_DECL)
      && (last.Member? && last.parameters.Some? ==>
            LastTypes(pieces) == Joined(FullNames(env, last.parameters.value), ", "))
  {
    hide PiecesOf, Joined, FullNames, ShownArguments, Shown, Bare;
    PieceAt(env, d.parts, d.closed, |d.parts| - 1);
  }

  lemma DeclInfoShows(di: DemangleInfo, scope: string)
    requires di.kind in {COMMON_DECL, FUNCTION_DECL, LAMBDA_FUNCTION} && di.genericTypes == di.genericConstraints == ""
    requires di.kind != FUNCTION_DECL ==> di.args == ""
    ensures di.GetFullName(scope) ==
            WithoutAngles(di.demangled) + if di.kind == COMMON_DECL then "" else "(" + di.args + ")"
  {
    hide WithoutAngles, DemangleInfo.GetIdentifier;
    IdentifierIs(di);
    var name := WithoutAngles(di.demangled);
    assert name + "" == name;
    assert di.kind != COMMON_DECL ==> di.GetArgTypesName(0) == "(" + di.args + ")";
    var args := di.GetArgTypesName(0);
    assert name + "" + args + "" == name + args;
  }

  /** What is shown of a declaration is said by its parts alone. */
  lemma DeclIsDisplayed(env: Env, d: Decl)
    requires CanMangleDecl(env, d)
    ensures ShownDecl(env, d).GetFullName(env.scopeResolution) == DisplayDecl(env, d)
    ensures ShownDecl(env, d).pkgName == DisplayPackage(env, d.pkg)
    ensures ShownDecl(env, d).isPrivateDeclaration <==> d.pkg != NoPackage && d.pkg.file != NoFile
    ensures IsShown(env, d) <==> InSixteens(DisplayParts(env, d.parts), StoredParts(d), env.scopeResolution) != ""
  {
    hide PiecesOf, Names, AreStored, DisplayParts, StoredParts, ShownInGroups, InSixteens, ShownPackage, DisplayPackage,
      WithoutAngles, DemangleInfo.GetFullName, LastKind, LastTypes, Joined, Listed, FullNames, DisplayAll,
      CanManglePackage, CanMangleAll;
    var pieces, last := PiecesOf(env, d.parts, d.closed), d.parts[|d.parts| - 1];
    PackageIsDisplayed(env, d.pkg);
    PartsAreDisplayed(env, d);
    ShownInSixteens(pieces, env.scopeResolution);
    LastPartDecides(env, d);
    DeclInfoShows(ShownDecl(env, d), env.scopeResolution);
    var name := WithoutAngles(ShownInGroups(pieces, env.scopeResolution));
    assert name + "" == name && "(" + "" + ")" == "()";
    if last.Member? && last.parameters.Some? {
      TypesAreDisplayed(env, last.parameters.value);
      JoinedIsListed(FullNames(env, last.parameters.value), ", ");
      var types := Listed(DisplayAll(env, last.parameters.value), ", ");
      assert name + "(" + types + ")" == name + ("(" + types + ")");
    }
  }

  /** What is read of the text of a declaration shows that declaration. */
  lemma DeclTextIsDisplayed(env: Env, d: Decl)
    requires CodesAreNoNumbers(env) && CanMangleDecl(env, d) && env.name == DeclText(d) && !LooksGenerated(env.name)
    requires InSixteens(DisplayParts(env, d.parts), StoredParts(d), env.scopeResolution) != ""
    ensures var r := ReadWhole(env);
      && r.Got? && r.value.pkgName == DisplayPackage(env, d.pkg)
      && r.value.GetFullName(env.scopeResolution) == DisplayDecl(env, d)
  {
    hide DeclText, CanMangleDecl, ReadWhole, ShownDecl, DisplayDecl, DisplayPackage, DemangleInfo.GetFullName, IsShown,
      LooksGenerated, InSixteens, DisplayParts, StoredParts;
    DeclIsDisplayed(env, d);
    DeclIsRead(env, d);
  }

  /** The type of functions from Int64 to Unit. */
  lemma FunctionTypeIsShown(env: Env)
    requires CodesAreNoNumbers(env) && env.name == "F0ulE"
    ensures var r := ReadUnit(env, 0); r.Got? && r.value.GetFullName(env.scopeResolution) == "(Int64) -> Unit"
  {
    hide ReadUnit, DemangleInfo.GetFullName, Text, Display, CanMangle, QualifiedTypeAt;
    var t := Function(false, Primitive('u'), [Primitive('l')]);
    FunctionParts(env);
    TypeTextIsDisplayed(env, t);
  }

  lemma FunctionParts(env: Env)
    ensures var t := Function(false, Primitive('u'), [Primitive('l')]);
      && Text(t) == "F0ulE" && CanMangle(env, t) && Display(env, t) == "(Int64) -> Unit"
  {
    var ts := [Primitive('l')];
    OneType(env, 'l');
    OneType(env, 'u');
    hide Texts, CanMangleAll, DisplayAll;
    FunctionText(false, Primitive('u'), ts);
    assert "F0" + ("u" + ("l" + "E")) == "F0ulE";
    assert "(" + "Int64" + ") -> " + "Unit" == "(Int64) -> Unit";
  }

  lemma OneType(env: Env, letter: char)
    requires PrimitiveName(letter) != "" && letter != 'D'
    ensures var t := Primitive(letter);
      && Text(t) == Texts([t]) == [letter] && CanMangle(env, t) && CanMangleAll(env, [t])
      && Display(env, t) == PrimitiveName(letter) && DisplayAll(env, [t]) == [PrimitiveName(letter)]
  {
    hide PrimitiveName;
    var ts := [Primitive(letter)];
    assert ts[1..] == [];
    assert [letter] + "" == [letter];
  }

  // ----- initialisers and wrappers -----

  lemma SuffixSays(s: string, rest: string, suffix: string, meaning: string)
    requires (suffix, meaning) in {("irHv", "_global_reset"), ("ifHv", "_global_flag_reset"),
      ("ilHv", "_global_init_literal"), ("fiHv", "_global_init_imports"), ("flHv", "_global_init_import_literal"),
      ("iiHv", "_global_init")}
    requires s == rest + suffix
    ensures GlobalInitSuffix(s) == Some(meaning) && suffix[0] in {'i', 'f'} && |suffix| == 4
  {
    assert s[|s| - 4..] == suffix;
  }

  /** The initialiser of a package or a file is shown with its package and by what it does. */
  lemma GlobalInitIsDisplayed(env: Env, ofPackage: bool, pkg: Package, suffix: string, meaning: string)
    requires CodesAreNoNumbers(env) && CanManglePackage(env, pkg)
    requires (suffix, meaning) in {("irHv", "_global_reset"), ("ifHv", "_global_flag_reset"),
      ("ilHv", "_global_init_literal"), ("fiHv", "_global_init_imports"), ("flHv", "_global_init_import_literal"),
      ("iiHv", "_global_init")}
    requires env.name == (if ofPackage then "_CGP" else "_CGF") + (PackageText(pkg) + suffix)
    ensures var r := ReadWhole(env);
      && r.Got? && r.value.kind == NAME
      && r.value.demangled == DisplayPackage(env, pkg) + (if ofPackage then "::package" else "::file") + meaning
  {
    hide GlobalInitSuffix, PackageText, CanManglePackage, ReadPackage, ShownPackage, DisplayPackage, ReadDecl,
      ReadPackageAndNested, Find, CodesAreNoNumbers;
    var head := if ofPackage then "_CGP" else "_CGF";
    var package := PackageText(pkg);
    assert env.name == (head + package) + suffix;
    SuffixSays(env.name, head + package, suffix, meaning);
    assert env.name[4..] == package + suffix && env.name[0..] == env.name;
    PackageIsRead(env, 4, pkg, suffix);
    PackageIsDisplayed(env, pkg);
    assert StandsAt(env.name, 0, head);
    assert env.name[3] == head[3];
  }

  /** Nothing is left of the text behind nested names but an end mark. */
  lemma {:induction false} NestedNamesGoToTheEnd(env: Env, i: nat, isClass: bool, isParamInit: bool, parts: Parts)
    requires env.Valid() && parts.Valid()
    ensures var r := ReadNestedFrom(env, i, isClass, isParamInit, parts); r.Got? ==> EndsAt(env.name, r.next)
    decreases |env.name| - i
  {
    hide ReadNestedFrom, ReadNumber, ReadExtension, ReadNamedPart, Parts.Put, Parts.Push;
    NestedStep(env, i, isClass, isParamInit, parts);
    if !EndsAt(env.name, i) {
      if env.name[i] == MANGLE_LAMBDA_PREFIX {
        var r := ReadNumber(env.name, i + 1);
        if r.Got? {
          var put := parts.Put("lambda." + UIntToString(r.value), LAMBDA_FUNCTION);
          NestedNamesGoToTheEnd(env, r.next, isClass, isParamInit, put);
        }
      } else if env.name[i] == MANGLE_EXTEND_PREFIX {
        var r := ReadExtension(env, i);
        if r.Got? {
          NestedNamesGoToTheEnd(env, r.next, isClass, isParamInit, parts.Put(r.value, COMMON_DECL));
        }
      } else {
        var r := ReadNamedPart(env, i, isClass, isParamInit);
        OnlyTheEndIsLast(env, i, isClass, isParamInit);
        if r.Got? && !r.value.isLast {
          NestedNamesGoToTheEnd(env, r.next, isClass, isParamInit, parts.Push(r.value, env.scopeResolution));
        }
      }
    }
  }

  lemma NamesInPackageGoToTheEnd(env: Env, i: nat, isClass: bool, isParamInit: bool)
    requires env.Valid()
    ensures var r := ReadPackageAndNested(env, i, isClass, isParamInit); r.Got? ==> EndsAt(env.name, r.next)
  {
    hide ReadNestedFrom, ReadNested, ReadPackage, Parts.Shows;
    var pkg := ReadPackage(env, i);
    if pkg.Got? {
      NestedShown(env, pkg.next, isClass, isParamInit);
      NestedNamesGoToTheEnd(env, pkg.next, isClass, isParamInit, NoParts());
    }
  }

  /**
   * The names of a declaration go on to an end mark or to the end, and there the reading of the whole name ends: no
   * arguments and no default function are ever read behind them.
   */
  lemma NoArgumentsBehindNames(env: Env)
    requires env.Valid()
    ensures ReadDecl(env) == if StandsAt(env.name, 0, "_C") then ReadCommonDecl(env, 2, false) else Failed
  {
    hide ReadPackageAndNested, ReadArgs, ReadDefaultParam, StandsAt;
    NamesInPackageGoToTheEnd(env, 3, false, false);
    NamesInPackageGoToTheEnd(env, 4, false, false);
  }

  function WrapperText(inner: string, tail: string): string
    requires |inner| >= 2
  {
    "_CV" + (inner[2..] + tail)
  }

  lemma WrapperIsUnwrapped(s: string, inner: string, tail: string)
    requires "_C" <= inner && '$' !in inner && (tail == "" || tail[0] == '$') && s == WrapperText(inner, tail)
    ensures StandsAt(s, 0, "_CV") && Unwrapped(s) == inner
    ensures !StandsAt(s, 0, "_CGP") && !StandsAt(s, 0, "_CGF") && !StandsAt(s, 0, "_CPI")
  {
    hide Find;
    assert s[0..] == s && s[2] == 'V' && s[..3] == "_CV";
    var end := 1 + |inner|;
    assert s[3..] == inner[2..] + tail && s[..end] == "_CV" + inner[2..];
    assert forall k :: 3 <= k < end ==> s[k] == inner[k - 1];
    if tail == "" {
      assert tail == "" ==> s[3..] == inner[2..];
      NoMark(s, 0);
    } else {
      assert s[end] == '$';
      FindIs(s, '$', 0, end);
      assert s[3..end] == inner[2..];
    }
  }

  lemma {:induction false} NoMark(s: string, i: nat)
    requires forall k :: i <= k < |s| ==> s[k] != '$'
    ensures Find(s, "$", i) == -1
    decreases |s| - i
  {
    FindStep(s, '$', i);
    if i < |s| {
      NoMark(s, i + 1);
    }
  }

  lemma FoundCharacter(s: string, pattern: string)
    requires pattern != "" && Find(s, pattern, 0) != -1
    ensures pattern[0] in s
  {
    var pos := Find(s, pattern, 0);
    assert s[pos..pos + |pattern|][0] == s[pos];
  }

  lemma UnmarkedIsNotGenerated(s: string)
    requires '$' !in s
    ensures !LooksGenerated(s)
  {
    hide Find;
    if Find(s, "$lambda.", 0) != -1 {
      FoundCharacter(s, "$lambda.");
    } else if Find(s, "$real", 0) != -1 {
      FoundCharacter(s, "$real");
    }
  }

  lemma DeclTextStart(d: Decl)
    ensures "_CN" <= DeclText(d) && StandsAt(DeclText(d), 0, "_CN")
  {
    hide PackageText, PartsText;
    assert DeclText(d)[0..] == DeclText(d);
  }

  lemma ReadOfWrapper(env: Env, inner: string)
    requires env.Valid() && StandsAt(env.name, 0, "_CV") && Unwrapped(env.name) == inner && !LooksGenerated(env.name)
    requires !StandsAt(env.name, 0, "_CGP") && !StandsAt(env.name, 0, "_CGF") && !StandsAt(env.name, 0, "_CPI")
    ensures ReadWhole(env) == WrappedInfo(ReadDecl(env.(name := inner)))
  {
    hide ReadDecl, ReadGlobalInit, ReadPackageAndNested, Find, StandsAt, WrappedInfo, Unwrapped;
  }

  lemma NamesOfDecl(env: Env, d: Decl)
    requires CanMangleDecl(env, d)
    ensures ShownDecl(env, d).demangled == InSixteens(DisplayParts(env, d.parts), StoredParts(d), env.scopeResolution)
  {
    hide PiecesOf, Names, AreStored, DisplayParts, StoredParts, ShownInGroups, InSixteens, ShownPackage, LastKind,
      LastTypes, CanManglePackage;
    PartsAreDisplayed(env, d);
    ShownInSixteens(PiecesOf(env, d.parts, d.closed), env.scopeResolution);
  }

  /**
   * A wrapper of a function for C is shown by the declaration that stands in it, up to a `$` or the end, and a remark.
   */
  lemma WrapperIsDisplayed(env: Env, d: Decl, tail: string)
    requires CodesAreNoNumbers(env) && CanMangleDecl(env, d) && env.name == DeclText(d) && '$' !in DeclText(d)
    requires (tail == "" || tail[0] == '$') && |DeclText(d)| >= 2 && !LooksGenerated(WrapperText(DeclText(d), tail))
    requires InSixteens(DisplayParts(env, d.parts), StoredParts(d), env.scopeResolution) != ""
    ensures var r := ReadWhole(env.(name := WrapperText(DeclText(d), tail)));
      && r.Got? && r.value.pkgName == DisplayPackage(env, d.pkg) && r.value.kind == WRAPPED_FUNCTION
      && r.value.demangled ==
         InSixteens(DisplayParts(env, d.parts), StoredParts(d), env.scopeResolution) + "<compiler generated>"
  {
    hide DeclText, CanMangleDecl, ReadDecl, ReadWhole, InSixteens, DisplayParts, StoredParts, DisplayPackage, ShownDecl,
      IsShown, LooksGenerated, Unwrapped, WrapperText, DemangleInfo.GetFullName, StandsAt;
    var whole := env.(name := WrapperText(env.name, tail));
    DeclTextStart(d);
    WrapperIsUnwrapped(whole.name, env.name, tail);
    UnmarkedIsNotGenerated(env.name);
    ReadOfWrapper(whole, env.name);
    assert whole.(name := env.name) == env;
    DeclIsRead(env, d);
    GeneratedOrDeclaration(env);
    DeclIsDisplayed(env, d);
    NamesOfDecl(env, d);
  }
}
