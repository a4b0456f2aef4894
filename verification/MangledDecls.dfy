/**
 * Declarations as they are mangled, and what is shown for them: a package, and the parts of a nested name.
 *
 * A part is a member, a lambda, or an extension. A member may be an operator or a property's accessor, and may have a
 * number, type arguments and parameter types. What is written for a declaration reads back as just that.
 */
module MangledDecls {
  import opened MangledTexts
  import opened MangledReadings
  import opened MangledTypes
  import opened NestedNames
  import opened Wrappers

  datatype PartName = Plain(name: string) | Operator(pair: string) | Setter(name: string) | Getter(name: string)

  datatype NestedPart =
    | Member(name: PartName, counter: Option<nat>, arguments: seq<Type>, parameters: Option<seq<Type>>)
    | Lambda(number: nat)
    | Extension(extended: Type, file: File, counter: Option<nat>)
  {
    predicate IsBare() {
      Member? && counter == None && arguments == [] && parameters == None
    }

    predicate IsFunction() {
      Member? && parameters.Some?
    }
  }

  /** A global declaration; an end mark may close its name. */
  datatype Decl = Decl(pkg: Package, parts: seq<NestedPart>, closed: bool)

  // ----- how they are written -----

  function PartNameText(name: PartName): string {
    match name
    case Plain(n) => NameText(n)
    case Operator(pair) => pair
    case Setter(n) => NameText(n) + "ps"
    case Getter(n) => NameText(n) + "pg"
  }

  function CounterText(counter: Option<nat>): string {
    match counter
    case None => ""
    case Some(n) => "K" + NumberText(n)
  }

  /** Type arguments in a nested name have an end mark. */
  function ArgumentListText(arguments: seq<Type>): string {
    if arguments == [] then "" else "I" + (Texts(arguments) + "E")
  }

  function ParameterText(parameters: seq<Type>): string {
    if parameters == [] then "v" else Texts(parameters)
  }

  function ParametersText(parameters: Option<seq<Type>>): string {
    match parameters
    case None => ""
    case Some(types) => "H" + ParameterText(types)
  }

  function SignatureText(arguments: seq<Type>, parameters: Option<seq<Type>>): string {
    ArgumentListText(arguments) + ParametersText(parameters)
  }

  function PartText(part: NestedPart): string {
    match part
    case Member(name, counter, arguments, parameters) =>
      PartNameText(name) + (CounterText(counter) + SignatureText(arguments, parameters))
    case Lambda(number) => "L" + NumberText(number)
    case Extension(extended, file, counter) => "X" + (Text(extended) + (FileText(file) + CounterText(counter)))
  }

  /** The end mark of parameter types that another part follows. */
  function MarkText(part: NestedPart): string {
    if part.IsFunction() then "E" else ""
  }

  function PartsText(parts: seq<NestedPart>): string {
    if parts == [] then ""
    else if |parts| == 1 then PartText(parts[0])
    else PartText(parts[0]) + (MarkText(parts[0]) + PartsText(parts[1..]))
  }

  function CloseText(closed: bool): string {
    if closed then "E" else ""
  }

  function DeclText(d: Decl): string {
    "_CN" + (PackageText(d.pkg) + (PartsText(d.parts) + CloseText(d.closed)))
  }

  /** How the parts of a declaration are written, mark by mark. */
  lemma PartsAreWritten(name: string, pair: string, n: nat, types: seq<Type>, t: Type)
    ensures PartText(Member(Plain(name), None, [], None)) == NameText(name)
    ensures PartText(Member(Setter(name), None, [], None)) == NameText(name) + "ps"
    ensures PartText(Member(Getter(name), None, [], None)) == NameText(name) + "pg"
    ensures PartText(Member(Operator(pair), Some(n), [], None)) == pair + "K" + NumberText(n)
    ensures types != [] ==>
      PartText(Member(Plain(name), None, types, Some(types))) ==
      NameText(name) + "I" + Texts(types) + "EH" + Texts(types)
    ensures PartText(Member(Plain(name), None, [], Some([]))) == NameText(name) + "Hv"
    ensures PartText(Lambda(n)) == "L" + NumberText(n)
    ensures PartText(Extension(t, NoFile, Some(n))) == "X" + Text(t) + "K" + NumberText(n)
  {
    hide NameText, NumberText, Text, Texts;
    var first, list := NameText(name), Texts(types);
    assert first + ("" + ("" + "")) == first && "" + "" == "";
    assert first + "ps" + ("" + ("" + "")) == first + "ps" && first + "pg" + ("" + ("" + "")) == first + "pg";
    assert pair + ("K" + NumberText(n) + ("" + "")) == pair + "K" + NumberText(n);
    assert first + ("" + ("I" + (list + "E") + ("H" + list))) == first + "I" + list + "EH" + list;
    assert first + ("" + ("" + ("H" + "v"))) == first + "Hv";
    assert "X" + (Text(t) + ("" + ("K" + NumberText(n)))) == "X" + Text(t) + "K" + NumberText(n);
  }

  // ----- how they are shown -----

  function ShownPartName(name: PartName): string {
    match name
    case Plain(n) => n
    case Operator(pair) => if |pair| == 2 then OperatorName(pair) else ""
    case Setter(n) => n + "::set"
    case Getter(n) => n + "::get"
  }

  function ParameterTypes(env: Env, parameters: Option<seq<Type>>): string {
    match parameters
    case None => ""
    case Some(types) => Joined(FullNames(env, types), ARGS_DELIMITER)
  }

  /** What is collected of a part; a name without a signature that ends the text is stored. */
  function PieceOf(env: Env, part: NestedPart, endsText: bool): Piece {
    match part
    case Member(name, counter, arguments, parameters) =>
      var shown := Bare(ShownPartName(name));
      if part.IsBare() && endsText then Stored(shown, COMMON_DECL)
      else
        Named(Part(shown + ShownArguments(env, arguments),
                   if parameters.Some? then FUNCTION_DECL else COMMON_DECL, ParameterTypes(env, parameters), false))
    case Lambda(number) => Stored("lambda." + UIntToString(number), LAMBDA_FUNCTION)
    case Extension(extended, _, _) => Stored(Shown(env, extended).GetIdentifier(), COMMON_DECL)
  }

  function PiecesOf(env: Env, parts: seq<NestedPart>, closed: bool): (pieces: seq<Piece>)
    ensures |pieces| == |parts|
  {
    if parts == [] then []
    else [PieceOf(env, parts[0], |parts| == 1 && !closed)] + PiecesOf(env, parts[1..], closed)
  }

  function ShownDecl(env: Env, d: Decl): DemangleInfo {
    DeclInfo(ShownPackage(env, d.pkg), NestedInfo(PiecesOf(env, d.parts, d.closed), env.scopeResolution))
  }

  // ----- which can be written -----

  predicate CanManglePartName(name: PartName) {
    match name
    case Plain(n) => IsIdentifier(n)
    case Operator(pair) => |pair| == 2 && OperatorName(pair) != ""
    case Setter(n) => IsIdentifier(n)
    case Getter(n) => IsIdentifier(n)
  }

  predicate CanMangleCounter(counter: Option<nat>) {
    counter.Some? ==> counter.value < SIZE_RANGE
  }

  predicate CanMangleSignature(env: Env, arguments: seq<Type>, parameters: Option<seq<Type>>) {
    CanMangleAll(env, arguments) && (parameters.Some? ==> CanMangleAll(env, parameters.value))
  }

  /** Numbers fit a word; an operator is only one in front of a number or a signature. */
  predicate CanManglePart(env: Env, part: NestedPart) {
    match part
    case Member(name, counter, arguments, parameters) =>
      CanManglePartName(name) && CanMangleCounter(counter) && CanMangleSignature(env, arguments, parameters) &&
      (name.Operator? ==> !part.IsBare())
    case Lambda(number) => number < SIZE_RANGE
    case Extension(extended, file, counter) =>
      CanMangle(env, extended) && !IsOpen(extended) && CanMangleFile(file) && CanMangleCounter(counter)
  }

  predicate CanMangleParts(env: Env, parts: seq<NestedPart>) {
    forall k :: 0 <= k < |parts| ==> CanManglePart(env, parts[k])
  }

  predicate CanMangleDecl(env: Env, d: Decl) {
    CanManglePackage(env, d.pkg) && d.parts != [] && CanMangleParts(env, d.parts)
  }

  /** Whether anything is shown of the parts; the parser takes no declaration of which nothing is. */
  predicate IsShown(env: Env, d: Decl) {
    ShownInGroups(PiecesOf(env, d.parts, d.closed), env.scopeResolution) != ""
  }

  /** The texts by which the parser tells a lambda in a function, and a wrapper of a C function. */
  predicate LooksGenerated(s: string) {
    Find(s, "$lambda.", 0) != -1 || Find(s, "$real", 0) != -1
  }

  // ----- what follows a part -----

  predicate StartsPart(text: string) {
    && text != ""
    && ((IsDigit(text[0]) && text[0] != '0') || text[0] in {MANGLE_LAMBDA_PREFIX, MANGLE_EXTEND_PREFIX}
        || (|text| >= 2 && OperatorName(text[..2]) != ""))
  }

  predicate FollowsPart(text: string) {
    text == "" || text[0] == END || StartsPart(text)
  }

  lemma OperatorsAreNoAccessors(pair: string)
    requires |pair| == 2 && OperatorName(pair) != ""
    ensures pair !in {"ps", "pg"} && IsLower(pair[0]) && IsLower(pair[1])
    ensures Bare(OperatorName(pair)) == OperatorName(pair)
  {
  }

  /** No character in front of which something is read of a signature begins what follows a part. */
  lemma FollowsNothing(text: string)
    requires FollowsPart(text)
    ensures text != "" ==> text[0] !in {'0', 'K', 'I', 'H', 'U'}
    ensures |text| >= 2 ==> text[..2] !in {"ps", "pg"}
  {
    hide OperatorName;
    if |text| >= 2 && OperatorName(text[..2]) != "" {
      OperatorsAreNoAccessors(text[..2]);
    }
  }

  // ----- parts are read back -----

  lemma CounterIsRead(s: string, i: nat, counter: Option<nat>, after: string)
    requires GoesOn(s, i, CounterText(counter), after) && CanMangleCounter(counter)
    requires after != "" ==> after[0] != 'K'
    ensures CounterEnd(s, i) == Some(i + |CounterText(counter)|)
  {
    hide GoesOn, NumberText, ReadNumber;
    First(s, i, CounterText(counter), after);
    if counter.Some? {
      Next(s, i, "K", NumberText(counter.value), after);
      NumberIsRead(s, i + 1, counter.value, after);
    }
  }

  /** Whether a name is that of a plain member, in front of something that is no accessor's mark. */
  lemma PlainNameIsRead(s: string, i: nat, name: string, after: string)
    requires GoesOn(s, i, NameText(name), after) && IsIdentifier(name)
    ensures i < |s| && IsDigit(s[i])
    ensures var j := i + |NameText(name)|;
      && (|after| >= 2 && after[..2] == "ps" ==> ReadNestedName(s, i) == Got(Info(name + "::set", NAME), j + 2))
      && (|after| >= 2 && after[..2] == "pg" ==> ReadNestedName(s, i) == Got(Info(name + "::get", NAME), j + 2))
      && ((|after| >= 2 ==> after[..2] !in {"ps", "pg"}) ==> ReadNestedName(s, i) == Got(Info(name, NAME), j))
  {
    hide GoesOn, NameText, ReadName;
    var j := i + |NameText(name)|;
    NameIsRead(s, i, name, after);
    Behind(s, i, NameText(name), after);
    Behind(s, j, after, "");
    assert !OperatorAt(s, i);
    assert |after| == |s| - j;
    if |after| >= 2 {
      assert s[j..j + 2] == after[..2];
    }
  }

  lemma OperatorIsRead(s: string, i: nat, pair: string, after: string)
    requires GoesOn(s, i, pair, after) && |pair| == 2 && OperatorName(pair) != ""
    requires after != "" && after[0] in {'I', 'H', 'K'}
    ensures i < |s| && IsLower(s[i]) && ReadNestedName(s, i) == Got(Info(OperatorName(pair), NAME), i + 2)
  {
    hide GoesOn, OperatorName;
    Behind(s, i, pair, after);
    Behind(s, i + 2, after, "");
    OperatorsAreNoAccessors(pair);
    assert s[i..i + 2] == pair && s[i + 2] == after[0];
  }

  lemma PartNameIsRead(s: string, i: nat, name: PartName, after: string)
    requires GoesOn(s, i, PartNameText(name), after) && CanManglePartName(name)
    requires |after| >= 2 ==> after[..2] !in {"ps", "pg"}
    requires name.Operator? ==> after != "" && after[0] in {'I', 'H', 'K'}
    ensures !EndsAt(s, i) && s[i] !in {MANGLE_LAMBDA_PREFIX, MANGLE_EXTEND_PREFIX}
    ensures ReadNestedName(s, i) == Got(Info(ShownPartName(name), NAME), i + |PartNameText(name)|)
  {
    hide GoesOn, NameText, OperatorName, ReadNestedName, IsIdentifier;
    match name {
      case Plain(n) => PlainNameIsRead(s, i, n, after);
      case Operator(pair) => OperatorIsRead(s, i, pair, after);
      case Setter(n) =>
        Regrouped(s, i, NameText(n), "ps", after);
        assert ("ps" + after)[..2] == "ps";
        PlainNameIsRead(s, i, n, "ps" + after);
      case Getter(n) =>
        Regrouped(s, i, NameText(n), "pg", after);
        assert ("pg" + after)[..2] == "pg";
        PlainNameIsRead(s, i, n, "pg" + after);
    }
  }

  // Signatures: type arguments with their end mark, and parameter types up to the end of the part.

  lemma ParametersSelected(env: Env, i: nat)
    requires env.Valid()
    ensures CharAt(env.name, i) == 'v' ==> ReadParameters(env, i) == Got(FullNames(env, []), i + 1)
    ensures i < |env.name| && IsStart(env.name[i]) ==> ReadParameters(env, i) == ReadParameterList(env, i)
  {
    hide ReadParameterList;
  }

  lemma ParametersOfPart(env: Env, i: nat, parameters: seq<Type>, after: string)
    requires CodesAreNoNumbers(env) && CanMangleAll(env, parameters)
    requires GoesOn(env.name, i, ParameterText(parameters), after) && Closes(after)
    ensures ReadParameters(env, i) == Got(FullNames(env, parameters), i + |ParameterText(parameters)|)
  {
    hide GoesOn, ReadParameters, ReadParameterList, Texts, Text, FullNames, CanMangleAll, IsStart;
    First(env.name, i, ParameterText(parameters), after);
    if parameters != [] {
      StartOfList(env, i, parameters, after);
      ParametersAreRead(env, i, parameters, after);
    }
    ParametersSelected(env, i);
  }

  /** What is kept of a signature. */
  function Signed(env: Env, di: DemangleInfo, arguments: seq<Type>, parameters: Option<seq<Type>>)
    : (DemangleInfo, TypeKind)
  {
    (di.(genericTypes := if arguments == [] then di.genericTypes else ShownArguments(env, arguments),
         functionParameterTypes :=
           if parameters == None then di.functionParameterTypes else ParameterTypes(env, parameters)),
     if parameters == None then COMMON_DECL else FUNCTION_DECL)
  }

  lemma FunctionPartIsRead(env: Env, di: DemangleInfo, i: nat, parameters: Option<seq<Type>>, after: string)
    requires CodesAreNoNumbers(env) && (parameters.Some? ==> CanMangleAll(env, parameters.value))
    requires GoesOn(env.name, i, ParametersText(parameters), after)
    requires if parameters.Some? then Closes(after) else FollowsPart(after)
    ensures ReadFunctionPart(env, di, i) ==
            Got(Signed(env, di, [], parameters),
                i + |ParametersText(parameters)| + if parameters.Some? && after != "" then 1 else 0)
  {
    hide GoesOn, ReadParameters, ParameterText, FullNames, CanMangleAll, Joined, ShownArguments;
    First(env.name, i, ParametersText(parameters), after);
    if parameters == None {
      hide FollowsPart;
      FollowsNothing(after);
    } else {
      var text := ParameterText(parameters.value);
      Next(env.name, i, "H", text, after);
      ParametersOfPart(env, i + 1, parameters.value, after);
      Behind(env.name, i + 1, text, after);
      First(env.name, i + 1 + |text|, after, "");
    }
  }

  lemma GenericPartIsRead(env: Env, di: DemangleInfo, i: nat, arguments: seq<Type>, after: string)
    requires CodesAreNoNumbers(env) && arguments != [] && CanMangleAll(env, arguments)
    requires GoesOn(env.name, i, ArgumentListText(arguments), after)
    ensures i <= |env.name| && i + |ArgumentListText(arguments)| <= |env.name|
    ensures ReadSignature(env, di, i, false) ==
            ReadFunctionPart(env, di.(genericTypes := ShownArguments(env, arguments)),
                             i + |ArgumentListText(arguments)|)
  {
    hide GoesOn, ReadGenerics, ReadFunctionPart, FullNames, CanMangleAll, Texts, TypesInfo, DemangleInfo.GetFullName;
    var types := Texts(arguments);
    Next(env.name, i, "I", types + "E", after);
    Next(env.name, i + 1, types, "E", after);
    GenericsAreRead(env, i + 1, arguments, "E" + after);
    First(env.name, i, "I", types + "E" + after);
    First(env.name, i + 1 + |types|, "E", after);
  }

  lemma SignatureIsRead(env: Env, di: DemangleInfo, i: nat, arguments: seq<Type>, parameters: Option<seq<Type>>,
                        after: string)
    requires CodesAreNoNumbers(env) && CanMangleSignature(env, arguments, parameters)
    requires GoesOn(env.name, i, SignatureText(arguments, parameters), after)
    requires if parameters.Some? then Closes(after) else FollowsPart(after)
    ensures i <= |env.name|
    ensures ReadSignature(env, di, i, false) ==
            Got(Signed(env, di, arguments, parameters),
                i + |SignatureText(arguments, parameters)| + if parameters.Some? && after != "" then 1 else 0)
  {
    hide GoesOn, ReadSignature, ReadFunctionPart, ParameterText, CanMangleAll, ShownArguments, ParameterTypes,
      FollowsPart, Closes;
    var args := ArgumentListText(arguments);
    Next(env.name, i, args, ParametersText(parameters), after);
    if arguments == [] {
      FunctionPartIsRead(env, di, i, parameters, after);
      NoArguments(env, di, i, parameters, after);
    } else {
      GenericPartIsRead(env, di, i, arguments, ParametersText(parameters) + after);
      FunctionPartIsRead(env, di.(genericTypes := ShownArguments(env, arguments)), i + |args|, parameters, after);
    }
  }

  lemma NoArguments(env: Env, di: DemangleInfo, i: nat, parameters: Option<seq<Type>>, after: string)
    requires env.Valid() && GoesOn(env.name, i, ParametersText(parameters), after)
    requires if parameters.Some? then Closes(after) else FollowsPart(after)
    ensures i <= |env.name| && ReadSignature(env, di, i, false) == ReadFunctionPart(env, di, i)
  {
    hide GoesOn, ReadFunctionPart, ParameterText, FollowsPart;
    First(env.name, i, ParametersText(parameters), after);
    if parameters == None {
      FollowsNothing(after);
    }
  }

  // The three kinds of parts.

  /** Where the reading of a part ends: behind the end mark of its parameter types, if one follows. */
  function PartEnd(part: NestedPart, i: nat, after: string): nat {
    i + |PartText(part)| + if part.IsFunction() && after != "" then 1 else 0
  }

  lemma NamedPartStep(env: Env, i: nat, di: DemangleInfo, j: nat)
    requires env.Valid() && i < |env.name| && ReadNestedName(env.name, i) == Got(di, j)
    ensures j == |env.name| ==>
      ReadNamedPart(env, i, false, false) == Got(Part(di.GetFullName(env.scopeResolution), COMMON_DECL, "", true), j)
    ensures j < |env.name| && CounterEnd(env.name, j).Some? ==>
      var r := ReadSignature(env, di, CounterEnd(env.name, j).value, false);
      r.Got? ==>
        var (full, kind) := r.value;
        ReadNamedPart(env, i, false, false) ==
        Got(Part(full.GetFullName(env.scopeResolution), kind, full.functionParameterTypes, false), r.next)
  {
    hide ReadNestedName, CounterEnd, ReadSignature, DemangleInfo.GetFullName;
  }

  lemma BehindCounter(part: NestedPart, after: string)
    requires part.Member? && FollowsPart(after)
    ensures var signature := SignatureText(part.arguments, part.parameters);
      && (signature + after != "" ==> (signature + after)[0] != 'K')
      && (signature == "" <==> part.arguments == [] && part.parameters == None)
      && (signature != "" ==> signature[0] in {'I', 'H'})
  {
    hide Texts, ParameterText, FollowsPart;
    FollowsNothing(after);
    var signature := SignatureText(part.arguments, part.parameters);
    if signature == "" {
      assert signature + after == after;
    } else {
      assert (signature + after)[0] == signature[0];
    }
  }

  lemma NoAccessor(text: string, after: string)
    requires text != "" && text[0] in {'I', 'H', 'K'}
    ensures text + after != "" && (text + after)[0] in {'I', 'H', 'K'}
    ensures |text + after| >= 2 ==> (text + after)[..2] !in {"ps", "pg"}
  {
  }

  /** What follows the name of a member. */
  lemma BehindName(part: NestedPart, after: string)
    requires part.Member? && FollowsPart(after) && (part.name.Operator? ==> !part.IsBare())
    ensures var rest := CounterText(part.counter) + SignatureText(part.arguments, part.parameters) + after;
      && (|rest| >= 2 ==> rest[..2] !in {"ps", "pg"})
      && (part.name.Operator? ==> rest != "" && rest[0] in {'I', 'H', 'K'})
      && (rest == "" <==> part.IsBare() && after == "")
  {
    hide NumberText, SignatureText, FollowsPart;
    BehindCounter(part, after);
    FollowsNothing(after);
    var counter, signature := CounterText(part.counter), SignatureText(part.arguments, part.parameters);
    if part.IsBare() {
      assert counter + signature + after == after;
    } else {
      if counter == "" {
        assert counter + signature == signature;
      } else {
        assert (counter + signature)[0] == counter[0] == 'K';
      }
      NoAccessor(counter + signature, after);
    }
  }

  lemma MemberText(part: NestedPart)
    requires part.Member?
    ensures var name, counter := PartNameText(part.name), CounterText(part.counter);
      var signature := SignatureText(part.arguments, part.parameters);
      && PartText(part) == name + (counter + signature)
      && |PartText(part)| == |name| + |counter| + |signature|
  {
    hide PartNameText, CounterText, SignatureText;
  }

  /** The name of a member and its number, up to its signature. */
  lemma MemberNameIsRead(env: Env, i: nat, part: NestedPart, after: string)
    requires part.Member? && CanManglePart(env, part)
    requires GoesOn(env.name, i, PartText(part), after) && FollowsPart(after)
    ensures var j, k := i + |PartNameText(part.name)|, |CounterText(part.counter)|;
      && !EndsAt(env.name, i) && env.name[i] !in {MANGLE_LAMBDA_PREFIX, MANGLE_EXTEND_PREFIX}
      && ReadNestedName(env.name, i) == Got(Info(ShownPartName(part.name), NAME), j)
      && j <= |env.name| && (j == |env.name| <==> part.IsBare() && after == "")
      && CounterEnd(env.name, j) == Some(j + k)
      && GoesOn(env.name, j + k, SignatureText(part.arguments, part.parameters), after)
  {
    hide GoesOn, PartText, PartNameText, CounterText, SignatureText, ReadNestedName, CounterEnd, ShownPartName,
      CanManglePartName, CanMangleCounter, CanMangleSignature, FollowsPart, EndsAt;
    var name, counter := PartNameText(part.name), CounterText(part.counter);
    var signature, j := SignatureText(part.arguments, part.parameters), i + |name|;
    MemberText(part);
    BehindName(part, after);
    BehindCounter(part, after);
    Next(env.name, i, name, counter + signature, after);
    PartNameIsRead(env.name, i, part.name, counter + signature + after);
    Next(env.name, j, counter, signature, after);
    CounterIsRead(env.name, j, part.counter, signature + after);
    Behind(env.name, i, name, counter + signature + after);
    First(env.name, j, "", counter + signature + after);
  }

  /** A named part is a piece of a nested name. */
  lemma NamedPiece(env: Env, i: nat)
    requires env.Valid() && !EndsAt(env.name, i) && env.name[i] !in {MANGLE_LAMBDA_PREFIX, MANGLE_EXTEND_PREFIX}
    ensures var r := ReadNamedPart(env, i, false, false);
      ReadPiece(env, i, false, false) ==
      if r.Failed? then Failed
      else Got(if r.value.isLast then Stored(r.value.shown, r.value.kind) else Named(r.value), r.next)
  {
    hide ReadNamedPart;
  }

  lemma MemberIsRead(env: Env, i: nat, part: NestedPart, after: string)
    requires CodesAreNoNumbers(env) && part.Member? && CanManglePart(env, part)
    requires GoesOn(env.name, i, PartText(part), after)
    requires FollowsPart(after) && (part.IsFunction() ==> Closes(after))
    ensures !EndsAt(env.name, i)
    ensures ReadPiece(env, i, false, false) == Got(PieceOf(env, part, after == ""), PartEnd(part, i, after))
  {
    hide GoesOn, PartText, PartNameText, CounterText, SignatureText, ReadNestedName, ReadNamedPart, ReadPiece,
      CounterEnd, ReadSignature, DemangleInfo.GetFullName, ShownPartName, ShownArguments, ParameterTypes, Bare,
      CanManglePartName, CanMangleCounter, CanMangleSignature, FollowsPart, Closes, EndsAt, Signed;
    var di, j := Info(ShownPartName(part.name), NAME), i + |PartNameText(part.name)|;
    MemberText(part);
    MemberNameIsRead(env, i, part, after);
    SignatureIsRead(env, di, j + |CounterText(part.counter)|, part.arguments, part.parameters, after);
    InTheText(env.name, i);
    NamedPartStep(env, i, di, j);
    NamedPiece(env, i);
    SignedShown(env, part);
  }

  lemma InTheText(s: string, i: nat)
    requires !EndsAt(s, i)
    ensures i < |s|
  {
  }

  /** A member with its signature is shown by its bare name and type arguments. */
  lemma SignedShown(env: Env, part: NestedPart)
    requires part.Member?
    ensures var di := Info(ShownPartName(part.name), NAME);
      var signed := Signed(env, di, part.arguments, part.parameters);
      && di.GetFullName(env.scopeResolution) == Bare(ShownPartName(part.name))
      && signed.0.GetFullName(env.scopeResolution) ==
         Bare(ShownPartName(part.name)) + ShownArguments(env, part.arguments)
      && signed.0.functionParameterTypes == ParameterTypes(env, part.parameters)
      && signed.1 == if part.parameters == None then COMMON_DECL else FUNCTION_DECL
  {
    hide ShownPartName, DemangleInfo.GetFullName, Bare, FullNames, Filtered;
    PlainName(env, ShownPartName(part.name), ShownArguments(env, part.arguments), ParameterTypes(env, part.parameters));
  }

  lemma LambdaIsRead(env: Env, i: nat, part: NestedPart, after: string)
    requires env.Valid() && part.Lambda? && CanManglePart(env, part) && GoesOn(env.name, i, PartText(part), after)
    ensures !EndsAt(env.name, i)
    ensures ReadPiece(env, i, false, false) == Got(PieceOf(env, part, after == ""), PartEnd(part, i, after))
  {
    hide GoesOn, NumberText, ReadNumber, UIntToString;
    First(env.name, i, PartText(part), after);
    Next(env.name, i, "L", NumberText(part.number), after);
    NumberIsRead(env.name, i + 1, part.number, after);
  }

  lemma MaybeFileIsRead(s: string, i: nat, file: File, after: string)
    requires GoesOn(s, i, FileText(file), after) && CanMangleFile(file) && (after != "" ==> after[0] != 'U')
    ensures FileNameAt(s, i) <==> file != NoFile
    ensures file != NoFile ==> FileNameEnd(s, i) == Some(i + |FileText(file)|)
    ensures file == NoFile ==> |FileText(file)| == 0
  {
    hide GoesOn, FileNameEnd, CanMangleFile;
    First(s, i, FileText(file), after);
    if file != NoFile {
      FileIsRead(s, i, file, after);
    }
  }

  lemma ExtensionText(part: NestedPart)
    requires part.Extension?
    ensures var extended, file, counter := Text(part.extended), FileText(part.file), CounterText(part.counter);
      && PartText(part) == "X" + (extended + (file + counter))
      && |PartText(part)| == 1 + |extended| + |file| + |counter|
  {
    hide Text, FileText, CounterText;
  }

  /** An extension is a piece of a nested name. */
  lemma ExtensionPiece(env: Env, i: nat)
    requires env.Valid() && i < |env.name| && env.name[i] == MANGLE_EXTEND_PREFIX
    ensures var r := ReadExtension(env, i);
      && !EndsAt(env.name, i)
      && ReadPiece(env, i, false, false) ==
         if r.Failed? then Failed else Got(Stored(r.value, COMMON_DECL), r.next)
  {
    hide ReadExtension;
  }

  lemma ExtensionIsRead(env: Env, i: nat, part: NestedPart, after: string)
    requires CodesAreNoNumbers(env) && part.Extension? && CanManglePart(env, part)
    requires GoesOn(env.name, i, PartText(part), after) && FollowsPart(after)
    ensures !EndsAt(env.name, i)
    ensures ReadPiece(env, i, false, false) == Got(PieceOf(env, part, after == ""), PartEnd(part, i, after))
  {
    hide GoesOn, Text, FileText, CounterText, PartText, ReadUnit, ReadPiece, FileNameAt, FileNameEnd, CounterEnd,
      QualifiedTypeAt, Shown, DemangleInfo.GetIdentifier, CanMangle, CanMangleFile, CanMangleCounter, FollowsPart,
      EndsAt;
    var extended, file, counter := Text(part.extended), FileText(part.file), CounterText(part.counter);
    var j := i + 1 + |extended|;
    ExtensionText(part);
    First(env.name, i, PartText(part), after);
    Next(env.name, i, "X", extended + (file + counter), after);
    Next(env.name, i + 1, extended, file + counter, after);
    Next(env.name, j, file, counter, after);
    QualifiedAtStart(env, i + 1, part.extended, file + counter + after);
    UnitIsRead(env, i + 1, part.extended, file + counter + after);
    BehindFile(part.counter, after);
    MaybeFileIsRead(env.name, j, part.file, counter + after);
    CounterIsRead(env.name, j + |file|, part.counter, after);
    ExtensionPiece(env, i);
  }

  lemma BehindFile(counter: Option<nat>, after: string)
    requires FollowsPart(after)
    ensures var rest := CounterText(counter) + after; rest != "" ==> rest[0] != 'U'
    ensures after != "" ==> after[0] != 'K'
  {
    hide NumberText, FollowsPart;
    FollowsNothing(after);
    if counter == None {
      assert CounterText(counter) + after == after;
    }
  }

  /** A part is read as what is to be collected of it, wherever it stands. */
  lemma PartIsRead(env: Env, i: nat, part: NestedPart, after: string)
    requires CodesAreNoNumbers(env) && CanManglePart(env, part) && GoesOn(env.name, i, PartText(part), after)
    requires FollowsPart(after) && (part.IsFunction() ==> Closes(after))
    ensures !EndsAt(env.name, i)
    ensures ReadPiece(env, i, false, false) == Got(PieceOf(env, part, after == ""), PartEnd(part, i, after))
  {
    hide GoesOn, PartText, PieceOf, CanManglePart, ReadPiece, FollowsPart, Closes;
    match part {
      case Member(_, _, _, _) => MemberIsRead(env, i, part, after);
      case Lambda(_) => LambdaIsRead(env, i, part, after);
      case Extension(_, _, _) => ExtensionIsRead(env, i, part, after);
    }
  }

  // ----- all parts are read back -----

  lemma PartStarts(env: Env, part: NestedPart, after: string)
    requires CanManglePart(env, part)
    ensures StartsPart(PartText(part) + after) && PartText(part) != ""
  {
    hide NumberText, Text, FileText, CounterText, SignatureText, OperatorName, CanMangle, CanMangleSignature;
    match part {
      case Member(name, counter, arguments, parameters) =>
        var text := PartNameText(name) + (CounterText(counter) + SignatureText(arguments, parameters));
        NameStarts(name);
        assert PartText(part) + after == text + after && (text + after)[0] == PartNameText(name)[0];
        if name.Operator? {
          assert (text + after)[..2] == name.pair;
        }
      case Lambda(_) =>
        assert (PartText(part) + after)[0] == 'L';
      case Extension(_, _, _) =>
        assert (PartText(part) + after)[0] == 'X';
    }
  }

  lemma NameStarts(name: PartName)
    requires CanManglePartName(name)
    ensures PartNameText(name) != ""
    ensures !name.Operator? ==> IsDigit(PartNameText(name)[0]) && PartNameText(name)[0] != '0'
  {
    hide UIntToString, OperatorName;
    if !name.Operator? {
      DecimalIsRead(|name.name|);
      assert PartNameText(name)[0] == UIntToString(|name.name|)[0];
    }
  }

  lemma {:induction false} PartsStart(env: Env, parts: seq<NestedPart>, after: string)
    requires parts != [] && CanMangleParts(env, parts)
    ensures StartsPart(PartsText(parts) + after)
  {
    hide PartText, CanManglePart, StartsPart;
    var first := PartText(parts[0]);
    if |parts| == 1 {
      PartStarts(env, parts[0], after);
    } else {
      var rest := MarkText(parts[0]) + PartsText(parts[1..]);
      assert PartsText(parts) + after == first + (rest + after);
      PartStarts(env, parts[0], rest + after);
    }
  }

  /** Where the reading of parts ends: at an end mark, or behind the one that their last parameter types take. */
  function PartsEnd(parts: seq<NestedPart>, i: nat, closed: bool): nat {
    i + |PartsText(parts)| + if closed && parts != [] && parts[|parts| - 1].IsFunction() then 1 else 0
  }

  lemma LastPartIsRead(env: Env, i: nat, part: NestedPart, closed: bool)
    requires CodesAreNoNumbers(env) && CanManglePart(env, part)
    requires GoesOn(env.name, i, PartText(part), CloseText(closed))
    ensures EndsAt(env.name, PartsEnd([part], i, closed))
    ensures ReadPieces(env, i, false, false) == Got(PiecesOf(env, [part], closed), PartsEnd([part], i, closed))
  {
    hide GoesOn, PartText, PieceOf, CanManglePart, ReadPiece, ReadPieces;
    PartIsRead(env, i, part, CloseText(closed));
    Behind(env.name, i, PartText(part), CloseText(closed));
    First(env.name, i + |PartText(part)|, CloseText(closed), "");
    PiecesStep(env, i, false, false);
    PiecesStep(env, PartsEnd([part], i, closed), false, false);
  }

  lemma PartsTextStep(parts: seq<NestedPart>)
    requires |parts| > 1
    ensures PartsText(parts) == PartText(parts[0]) + (MarkText(parts[0]) + PartsText(parts[1..]))
    ensures |PartsText(parts)| == |PartText(parts[0])| + |MarkText(parts[0])| + |PartsText(parts[1..])|
  {
    hide PartText;
  }

  lemma PartFollows(part: NestedPart, rest: string, after: string)
    requires StartsPart(rest + after)
    ensures var text := MarkText(part) + rest + after;
      FollowsPart(text) && text != "" && (part.IsFunction() ==> Closes(text))
  {
    hide StartsPart;
    NotEmpty(rest + after);
    if part.IsFunction() {
      assert ("E" + rest + after)[0] == 'E';
    } else {
      assert "" + rest + after == rest + after;
    }
  }

  /** What follows the first of several parts, up to the others. */
  lemma FirstPartIsRead(env: Env, i: nat, parts: seq<NestedPart>, after: string)
    requires CodesAreNoNumbers(env) && |parts| > 1 && CanMangleParts(env, parts)
    requires GoesOn(env.name, i, PartsText(parts), after)
    ensures var j := i + |PartText(parts[0])| + |MarkText(parts[0])|;
      && !EndsAt(env.name, i) && ReadPiece(env, i, false, false) == Got(PieceOf(env, parts[0], false), j)
      && GoesOn(env.name, j, PartsText(parts[1..]), after)
      && j + |PartsText(parts[1..])| == i + |PartsText(parts)|
  {
    hide GoesOn, PartText, PartsText, PieceOf, CanManglePart, ReadPiece, StartsPart, FollowsPart, Closes, EndsAt;
    var text, mark, rest := PartText(parts[0]), MarkText(parts[0]), PartsText(parts[1..]);
    PartsTextStep(parts);
    Next(env.name, i, text, mark + rest, after);
    Next(env.name, i + |text|, mark, rest, after);
    PartsStart(env, parts[1..], after);
    PartFollows(parts[0], rest, after);
    PartIsRead(env, i, parts[0], mark + rest + after);
  }

  /** Parts are read one after another, each as what is to be collected of it. */
  lemma {:induction false} PartsAreRead(env: Env, i: nat, parts: seq<NestedPart>, closed: bool)
    requires CodesAreNoNumbers(env) && parts != [] && CanMangleParts(env, parts)
    requires GoesOn(env.name, i, PartsText(parts), CloseText(closed))
    ensures EndsAt(env.name, PartsEnd(parts, i, closed))
    ensures ReadPieces(env, i, false, false) == Got(PiecesOf(env, parts, closed), PartsEnd(parts, i, closed))
    decreases |parts|
  {
    hide GoesOn, PartText, PieceOf, CanManglePart, ReadPiece, ReadPieces, EndsAt;
    if |parts| == 1 {
      assert parts == [parts[0]];
      LastPartIsRead(env, i, parts[0], closed);
    } else {
      FirstPartIsRead(env, i, parts, CloseText(closed));
      PiecesStep(env, i, false, false);
      PartsAreRead(env, ReadPiece(env, i, false, false).next, parts[1..], closed);
    }
  }

  // ----- whole names -----

  /** Where the reading of a declaration ends: at its end mark, or at the end of the name. */
  function DeclEnd(d: Decl): nat {
    3 + |PackageText(d.pkg)| + PartsEnd(d.parts, 0, d.closed)
  }

  /** A text whose first two characters stand nowhere together is not found. */
  lemma {:induction false} NotFound(s: string, pattern: string, i: nat)
    requires |pattern| > 1 && forall k :: i <= k < |s| - 1 ==> s[k] != pattern[0] || s[k + 1] != pattern[1]
    ensures Find(s, pattern, i) == -1
    decreases |s| - i
  {
    if i + |pattern| <= |s| {
      assert s[i..i + |pattern|][0] == s[i] && s[i..i + |pattern|][1] == s[i + 1];
      NotFound(s, pattern, i + 1);
    }
  }

  /** A text is found where it stands and its first character did not stand before. */
  lemma {:induction false} FoundAt(s: string, pattern: string, i: nat, j: nat)
    requires pattern != "" && i <= j && j + |pattern| <= |s| && s[j..j + |pattern|] == pattern
    requires forall k :: i <= k < j ==> s[k] != pattern[0]
    ensures Find(s, pattern, i) == j
    decreases j - i
  {
    if i < j {
      assert s[i..i + |pattern|][0] == s[i];
      FoundAt(s, pattern, i + 1, j);
    }
  }

  /**
   * What starts like a declaration is taken for a lambda in a function or a wrapper of a C function wherever one of
   * their texts occurs, and for a declaration else.
   */
  lemma GeneratedOrDeclaration(env: Env)
    requires env.Valid() && StandsAt(env.name, 0, "_CN")
    ensures var s, lambda, wrapper := env.name, Find(env.name, "$lambda.", 0), Find(env.name, "$real", 0);
      && (lambda != -1 ==>
            ReadWhole(env) == Got(Info(s[lambda + 1..], LAMBDA_FUNCTION).(pkgName := s[..lambda]), |s|))
      && (lambda == -1 && wrapper != -1 ==> |s| > 5 && ReadWhole(env) == Got(Info(s[..|s| - 5], NAME), 0))
      && (!LooksGenerated(s) ==> ReadWhole(env) == ReadDecl(env))
  {
    hide ReadDecl, ReadGlobalInit, ReadPackageAndNested, Find, StandsAt, WrappedInfo, Unwrapped;
    var s, lambda, wrapper := env.name, Find(env.name, "$lambda.", 0), Find(env.name, "$real", 0);
    OtherPrefixes(s);
    if lambda != -1 {
      BehindTheStart(s, "$lambda.", lambda);
    } else if wrapper != -1 {
      BehindTheStart(s, "$real", wrapper);
    }
  }

  lemma ThirdCharacter(s: string, prefix: string)
    requires |prefix| > 2
    ensures StandsAt(s, 0, prefix) ==> |s| > 2 && s[2] == prefix[2]
  {
    if StandsAt(s, 0, prefix) {
      assert s[0..] == s;
      assert prefix[2] == s[..|prefix|][2];
    }
  }

  lemma OtherPrefixes(s: string)
    requires StandsAt(s, 0, "_CN")
    ensures !StandsAt(s, 0, "_CGP") && !StandsAt(s, 0, "_CGF") && !StandsAt(s, 0, "_CPI") && !StandsAt(s, 0, "_CV")
  {
    hide StandsAt;
    ThirdCharacter(s, "_CN");
    ThirdCharacter(s, "_CGP");
    ThirdCharacter(s, "_CGF");
    ThirdCharacter(s, "_CPI");
    ThirdCharacter(s, "_CV");
  }

  lemma BehindTheStart(s: string, pattern: string, i: int)
    requires StandsAt(s, 0, "_CN") && pattern != "" && pattern[0] == '$'
    requires 0 <= i && i + |pattern| <= |s| && s[i..i + |pattern|] == pattern
    ensures i >= 3
  {
    assert s[0..] == s && s[i..i + |pattern|][0] == s[i];
    assert "_CN" == s[..3] && forall k :: 0 <= k < 3 ==> s[..3][k] == s[k];
  }

  /** A declaration ends where its package and nested names end. */
  lemma DeclIsItsParts(env: Env)
    requires env.Valid() && StandsAt(env.name, 0, "_CN")
    ensures var r := ReadPackageAndNested(env, 3, false, false);
      && (r.Failed? ==> ReadDecl(env) == Failed)
      && (r.Got? && EndsAt(env.name, r.next) ==> ReadDecl(env) == r)
  {
    hide ReadPackageAndNested, ReadArgs, ReadDefaultParam, DemangleInfo.GetFullName, Joined;
    assert env.name[0..] == env.name;
    assert forall k :: 0 <= k < 3 ==> env.name[k] == "_CN"[k];
  }

  lemma DeclTextParts(s: string, d: Decl)
    requires s == DeclText(d)
    ensures var pkg, parts := PackageText(d.pkg), PartsText(d.parts);
      && StandsAt(s, 0, "_CN") && GoesOn(s, 3, pkg, parts + CloseText(d.closed))
      && GoesOn(s, 3 + |pkg|, parts, CloseText(d.closed))
  {
    hide GoesOn, PackageText, PartsText;
    var rest := PartsText(d.parts) + CloseText(d.closed);
    WholeText(s);
    Behind(s, 0, s, "");
    Next(s, 0, "_CN", PackageText(d.pkg) + rest, "");
    Next(s, 3, PackageText(d.pkg), rest, "");
    Regrouped(s, 3 + |PackageText(d.pkg)|, PartsText(d.parts), CloseText(d.closed), "");
    assert CloseText(d.closed) + "" == CloseText(d.closed) && rest + "" == rest;
    assert s[0..] == s;
  }

  lemma DeclPartsAreRead(env: Env, d: Decl)
    requires CodesAreNoNumbers(env) && CanMangleDecl(env, d) && env.name == DeclText(d)
    ensures ReadPackageAndNested(env, 3, false, false) ==
            if IsShown(env, d) then Got(ShownDecl(env, d), DeclEnd(d)) else Failed
    ensures EndsAt(env.name, DeclEnd(d))
  {
    hide GoesOn, PackageText, PartsText, DeclText, ReadPackage, ReadNested, ReadPieces, PiecesOf, DeclInfo,
      ShownPackage, CanManglePackage, CanMangleParts, StartsPart, EndsAt, ShownInGroups, LastTypes, LastKind;
    var j := 3 + |PackageText(d.pkg)|;
    DeclTextParts(env.name, d);
    PartsStart(env, d.parts, CloseText(d.closed));
    PackageStops(PartsText(d.parts) + CloseText(d.closed));
    PackageIsRead(env, 3, d.pkg, PartsText(d.parts) + CloseText(d.closed));
    PartsAreRead(env, j, d.parts, d.closed);
    NestedNamesAreShownInGroups(env, j, false, false);
  }

  lemma PackageStops(text: string)
    requires StartsPart(text)
    ensures text != "" && text[0] !in {'0', MANGLE_FILE_ID_PREFIX}
  {
    hide StartsPart;
    assert FollowsPart(text);
    FollowsNothing(text);
    assert text != "" by { NotEmpty(text); }
  }

  lemma NotEmpty(text: string)
    requires StartsPart(text)
    ensures text != ""
  {
  }

  // A misread declaration is never read as itself, not even one whose last part is a lambda.

  lemma {:induction false} PartsEndInLast(parts: seq<NestedPart>)
    requires parts != [] && PartText(parts[|parts| - 1]) != ""
    ensures var text, last := PartsText(parts), PartText(parts[|parts| - 1]);
      |text| >= |last| && text[|text| - 1] == last[|last| - 1]
  {
    hide PartText;
    if |parts| > 1 {
      PartsTextStep(parts);
      PartsEndInLast(parts[1..]);
    }
  }

  lemma ShownEndsInLast(pieces: seq<Piece>, last: Piece, delimiter: string)
    requires last.Name() != ""
    ensures var shown, name := ShownInGroups(pieces + [last], delimiter), last.Name();
      shown != "" && shown[|shown| - 1] == name[|name| - 1]
  {
    hide Joined, ShownGroups, Names;
    var all := pieces + [last];
    var rest := Names(all)[MAX_ARGS_SIZE * GroupsBehind(|all|)..];
    LastOf(pieces, last);
    assert rest[..|rest| - 1] + [last.Name()] == rest;
    OneMore(rest[..|rest| - 1], last.Name(), delimiter);
  }

  lemma {:induction false} PiecesEndInLast(env: Env, parts: seq<NestedPart>, closed: bool)
    requires parts != []
    ensures PiecesOf(env, parts, closed)[|parts| - 1] == PieceOf(env, parts[|parts| - 1], !closed)
  {
    hide PieceOf;
    if |parts| > 1 {
      PiecesEndInLast(env, parts[1..], closed);
    }
  }

  lemma LambdaTexts(env: Env, number: nat, endsText: bool)
    ensures var text, name := PartText(Lambda(number)), PieceOf(env, Lambda(number), endsText).Name();
      text != "" && text[|text| - 1] == '_' && name != "" && IsDigit(name[|name| - 1])
  {
    hide UIntToString, DecimalValue, Base62;
    DecimalIsRead(number);
    var digits, text, n := UIntToString(number), PartText(Lambda(number)), NumberText(number);
    assert ("lambda." + digits)[|"lambda." + digits| - 1] == digits[|digits| - 1];
    assert text[|text| - 1] == n[|n| - 1] == '_';
  }

  /** What ends in a lambda ends in an underscore, and is shown with a digit at its end. */
  lemma LambdasDiffer(env: Env, d: Decl)
    requires env.name == DeclText(d) && CanMangleDecl(env, d) && !d.closed && d.parts[|d.parts| - 1].Lambda?
    ensures var s, shown := env.name, ShownDecl(env, d).demangled;
      s != "" && s[|s| - 1] == '_' && shown != "" && shown[|shown| - 1] != '_'
  {
    hide PartText, PartsText, PieceOf, PiecesOf, ShownInGroups, PackageText, CanMangleParts, CanManglePackage;
    var last, pieces := d.parts[|d.parts| - 1], PiecesOf(env, d.parts, d.closed);
    LambdaTexts(env, last.number, true);
    PartsEndInLast(d.parts);
    PiecesEndInLast(env, d.parts, d.closed);
    assert pieces[..|pieces| - 1] + [pieces[|pieces| - 1]] == pieces;
    ShownEndsInLast(pieces[..|pieces| - 1], pieces[|pieces| - 1], env.scopeResolution);
    assert env.name == ("_CN" + PackageText(d.pkg)) + PartsText(d.parts);
  }

  lemma OnlyLambdasAreLambdas(env: Env, d: Decl)
    requires d.parts != []
    ensures ShownDecl(env, d).kind == LAMBDA_FUNCTION ==> d.parts[|d.parts| - 1].Lambda?
  {
    hide ShownInGroups, LastTypes, ShownPackage, PiecesOf, ShownArguments, ParameterTypes, Bare;
    PiecesEndInLast(env, d.parts, d.closed);
  }

  lemma EndOfClosed(d: Decl)
    requires d.closed && d.parts != [] && d.parts[|d.parts| - 1].Lambda?
    ensures DeclEnd(d) != |DeclText(d)|
  {
    hide PackageText, PartsText;
  }

  lemma GeneratedIsMisread(env: Env, d: Decl)
    requires CodesAreNoNumbers(env) && CanMangleDecl(env, d) && env.name == DeclText(d) && LooksGenerated(env.name)
    ensures ReadWhole(env) != Got(ShownDecl(env, d), DeclEnd(d))
  {
    hide ReadWhole, ShownDecl, DeclText, PartsText, PackageText, CanManglePackage, CanMangleParts, GoesOn, Find;
    DeclTextParts(env.name, d);
    GeneratedOrDeclaration(env);
    OnlyLambdasAreLambdas(env, d);
    if Find(env.name, "$lambda.", 0) != -1 && ShownDecl(env, d).kind == LAMBDA_FUNCTION {
      if d.closed {
        EndOfClosed(d);
      } else {
        LambdasDiffer(env, d);
      }
    }
  }

  /**
   * Reading the whole name of a declaration finds just that declaration, and what is shown for it, if and only if
   * something is shown and neither text of a generated name occurs in it.
   */
  lemma DeclIsRead(env: Env, d: Decl)
    requires CodesAreNoNumbers(env) && CanMangleDecl(env, d) && env.name == DeclText(d)
    ensures ReadWhole(env) == Got(ShownDecl(env, d), DeclEnd(d)) <==> IsShown(env, d) && !LooksGenerated(env.name)
  {
    hide ReadDecl, ReadWhole, ReadPackageAndNested, ShownDecl, PartsText, PackageText, CanMangleDecl, GoesOn, IsShown,
      LooksGenerated;
    DeclTextParts(env.name, d);
    if LooksGenerated(env.name) {
      GeneratedIsMisread(env, d);
    } else {
      DeclPartsAreRead(env, d);
      DeclIsItsParts(env);
      GeneratedOrDeclaration(env);
    }
  }

  // Names of modules and packages are written with `$` between them.

  function OneName(pkg: string, name: string, parameters: Option<seq<Type>>): Decl {
    Decl(Spelled(pkg, NoFile), [Member(Plain(name), None, [], parameters)], parameters == None)
  }

  lemma OneNameText(pkg: string, name: string, parameters: Option<seq<Type>>)
    requires parameters == None || parameters == Some([])
    ensures DeclText(OneName(pkg, name, parameters)) ==
            "_CN" + (NameText(pkg) + (NameText(name) + if parameters == None then "E" else "Hv"))
  {
    hide NameText;
    assert NameText(pkg) + "" == NameText(pkg);
    if parameters == None {
      assert NameText(name) + ("" + ("" + "")) + "E" == NameText(name) + "E";
    } else {
      assert NameText(name) + ("" + ("" + "Hv")) + "" == NameText(name) + "Hv";
    }
  }

  lemma OneNameIsShown(env: Env, pkg: string, name: string, parameters: Option<seq<Type>>)
    requires IsIdentifier(name)
    ensures IsShown(env, OneName(pkg, name, parameters))
    ensures ShownDecl(env, OneName(pkg, name, parameters)).demangled == Bare(name)
    ensures ShownDecl(env, OneName(pkg, name, parameters)).pkgName ==
            ReplaceChar(WithOrganization(pkg), '$', "/")
  {
    hide Joined, ReplaceChar, WithOrganization, ParameterTypes, Bare, LastTypes;
    SomethingBare(name);
    var d := OneName(pkg, name, parameters);
    var pieces := PiecesOf(env, d.parts, d.closed);
    assert pieces == [PieceOf(env, d.parts[0], false)] by { assert PiecesOf(env, d.parts[1..], d.closed) == []; }
    assert Bare(name) + "" == Bare(name);
    assert Names(pieces)[0..] == [] + [Bare(name)];
    OneMore([], Bare(name), env.scopeResolution);
    NothingJoined(env.scopeResolution);
    assert "" + "" + Bare(name) == Bare(name) && "" + Bare(name) == Bare(name);
  }

  lemma NameTextOf(name: string, length: string)
    requires |name| < 100 && length == UIntToString(|name|)
    ensures NameText(name) == length + name
  {
  }

  lemma ObjectText(s: string)
    requires s == "_CN8std$core6ObjectE"
    ensures s == DeclText(OneName("std$core", "Object", None))
  {
    hide DeclText, NameText;
    OneNameText("std$core", "Object", None);
    NameTextOf("std$core", "8");
    NameTextOf("Object", "6");
    assert "_CN" + ("8" + "std$core" + ("6" + "Object" + "E")) == s;
  }

  lemma ObjectIsNotGenerated(s: string)
    requires s == "_CN8std$core6ObjectE"
    ensures !LooksGenerated(s)
  {
    hide Find;
    assert forall k :: 0 <= k < |s| && s[k] == '$' ==> k == 7;
    assert s[8] == 'c';
    NotFound(s, "$lambda.", 0);
    NotFound(s, "$real", 0);
  }

  /** A declaration in a module's package. */
  lemma ModuleIsRead(env: Env)
    requires CodesAreNoNumbers(env) && env.name == "_CN8std$core6ObjectE"
    ensures var r := ReadWhole(env); r.Got? && r.value.pkgName == "std/core" && r.value.demangled == "Object"
  {
    hide ReadWhole, ShownDecl, IsShown, DeclText, CanMangleDecl, OneName, LooksGenerated, ReplaceChar, WithOrganization;
    var d := OneName("std$core", "Object", None);
    ObjectText(env.name);
    ObjectIsNotGenerated(env.name);
    OneNameIsShown(env, "std$core", "Object", None);
    OneNameCanBeMangled(env, "std$core", "Object", None);
    DeclIsRead(env, d);
    StandardCore();
  }

  lemma OneNameCanBeMangled(env: Env, pkg: string, name: string, parameters: Option<seq<Type>>)
    requires IsIdentifier(pkg) && IsIdentifier(name) && (parameters == None || parameters == Some([]))
    ensures CanMangleDecl(env, OneName(pkg, name, parameters))
  {
  }

  lemma StandardCore()
    ensures ReplaceChar(WithOrganization("std$core"), '$', "/") == "std/core" && Bare("Object") == "Object"
    ensures IsIdentifier("std$core") && IsIdentifier("Object")
  {
    hide ReplaceChar, WithOrganization;
    WithoutOrganization("std$core");
    ReplacedIn("std", "core");
    assert "std" + "$" + "core" == "std$core" && "std" + "/" + "core" == "std/core";
  }

  lemma WithoutOrganization(pkg: string)
    requires ':' !in pkg
    ensures WithOrganization(pkg) == pkg
  {
    hide Find;
    NoColon(pkg, 0);
  }

  lemma {:induction false} ReplacedIn(before: string, after: string)
    requires '$' !in before && '$' !in after
    ensures ReplaceChar(before + "$" + after, '$', "/") == before + "/" + after
    decreases |before|
  {
    var s := before + "$" + after;
    if before == "" {
      assert s[1..] == after;
      NothingReplaced(after);
    } else {
      assert s[1..] == before[1..] + "$" + after;
      ReplacedIn(before[1..], after);
    }
  }

  lemma {:induction false} NothingReplaced(s: string)
    requires '$' !in s
    ensures ReplaceChar(s, '$', "/") == s
  {
    if s != "" {
      NothingReplaced(s[1..]);
    }
  }

  lemma {:induction false} NoColon(s: string, i: nat)
    requires ':' !in s
    ensures Find(s, ":", i) == -1
    decreases |s| - i
  {
    FindStep(s, ':', i);
    if i < |s| {
      NoColon(s, i + 1);
    }
  }

  lemma RealmText(s: string)
    requires s == "_CN7a$realm3fooHv"
    ensures s == DeclText(OneName("a$realm", "foo", Some([])))
  {
    hide DeclText, NameText;
    OneNameText("a$realm", "foo", Some([]));
    NameTextOf("a$realm", "7");
    NameTextOf("foo", "3");
    assert "_CN" + ("7" + "a$realm" + ("3" + "foo" + "Hv")) == s;
  }

  lemma RealmIsFound(s: string)
    requires s == "_CN7a$realm3fooHv"
    ensures Find(s, "$lambda.", 0) == -1 && Find(s, "$real", 0) == 5 && s[..|s| - 5] == "_CN7a$realm3"
  {
    hide Find;
    assert forall k :: 0 <= k < |s| && s[k] == '$' ==> k == 5;
    assert s[6] == 'r' && s[5..10] == "$real";
    NotFound(s, "$lambda.", 0);
    FoundAt(s, "$real", 0, 5);
  }

  /** The function `foo` of the package `a/realm` is taken for a wrapper, and shown without its last characters. */
  lemma RealmIsTakenForAWrapper(env: Env)
    requires CodesAreNoNumbers(env) && env.name == "_CN7a$realm3fooHv"
    ensures var d := OneName("a$realm", "foo", Some([])); CanMangleDecl(env, d) && env.name == DeclText(d)
    ensures ReadWhole(env) == Got(Info("_CN7a$realm3", NAME), 0)
  {
    hide ReadWhole, Find, DeclText, CanMangleDecl, OneName, StandsAt;
    RealmText(env.name);
    OneNameCanBeMangled(env, "a$realm", "foo", Some([]));
    DeclTextParts(env.name, OneName("a$realm", "foo", Some([])));
    RealmIsFound(env.name);
    GeneratedOrDeclaration(env);
  }

  lemma TenAndThree()
    ensures UIntToString(10) == "10" && UIntToString(3) == "3"
  {
  }

  lemma LambdaPackageText(s: string)
    requires s == "_CN10a$lambda.b3fooHv"
    ensures s == DeclText(OneName("a$lambda.b", "foo", Some([])))
  {
    hide DeclText, NameText, UIntToString;
    TenAndThree();
    OneNameText("a$lambda.b", "foo", Some([]));
    NameTextOf("a$lambda.b", "10");
    NameTextOf("foo", "3");
    assert "_CN" + ("10" + "a$lambda.b" + ("3" + "foo" + "Hv")) == s;
  }

  lemma LambdaPackageIsFound(s: string)
    requires s == "_CN10a$lambda.b3fooHv"
    ensures Find(s, "$lambda.", 0) == 6 && s[6 + 1..] == "lambda.b3fooHv" && s[..6] == "_CN10a"
  {
    hide Find;
    assert s[6..14] == "$lambda.";
    FoundAt(s, "$lambda.", 0, 6);
  }

  /** The same function of a package `a/lambda.b` is taken for a lambda of it. */
  lemma LambdaPackageIsTakenForALambda(env: Env)
    requires CodesAreNoNumbers(env) && env.name == "_CN10a$lambda.b3fooHv"
    ensures var d := OneName("a$lambda.b", "foo", Some([])); CanMangleDecl(env, d) && env.name == DeclText(d)
    ensures ReadWhole(env) == Got(Info("lambda.b3fooHv", LAMBDA_FUNCTION).(pkgName := "_CN10a"), |env.name|)
  {
    hide ReadWhole, Find, DeclText, CanMangleDecl, OneName, StandsAt;
    LambdaPackageText(env.name);
    OneNameCanBeMangled(env, "a$lambda.b", "foo", Some([]));
    DeclTextParts(env.name, OneName("a$lambda.b", "foo", Some([])));
    LambdaPackageIsFound(env.name);
    GeneratedOrDeclaration(env);
  }

  // ----- sixteen names, and one more part -----

  const NAME_A: NestedPart := Member(Plain("a"), None, [], None)

  function Times(text: string, n: nat): string {
    if n == 0 then "" else text + Times(text, n - 1)
  }

  function Members(n: nat, last: NestedPart): (parts: seq<NestedPart>)
    ensures |parts| == n + 1 && parts[n] == last
  {
    if n == 0 then [last] else [NAME_A] + Members(n - 1, last)
  }

  lemma TextOfA()
    ensures PartText(NAME_A) == "1a" && MarkText(NAME_A) == ""
  {
    assert "" + ("" + "") == "" && "1a" + "" == "1a";
  }

  lemma {:induction false} MembersText(n: nat, last: NestedPart)
    ensures PartsText(Members(n, last)) == Times("1a", n) + PartText(last)
  {
    hide PartText, MarkText;
    if n == 0 {
      assert "" + PartText(last) == PartText(last);
    } else {
      TextOfA();
      MembersText(n - 1, last);
      PartsTextStep(Members(n, last));
      assert Members(n, last)[1..] == Members(n - 1, last);
      assert "1a" + ("" + (Times("1a", n - 1) + PartText(last))) == "1a" + Times("1a", n - 1) + PartText(last);
    }
  }

  lemma PieceOfA(env: Env)
    ensures PieceOf(env, NAME_A, false) == NamePiece("a")
  {
    assert Bare("a") + "" == Bare("a");
  }

  lemma {:induction false} MembersPieces(env: Env, n: nat, last: NestedPart, closed: bool)
    ensures PiecesOf(env, Members(n, last), closed) == seq(n, _ => NamePiece("a")) + [PieceOf(env, last, !closed)]
  {
    hide PieceOf, NamePiece;
    if n > 0 {
      MembersPieces(env, n - 1, last, closed);
      PieceOfA(env);
      assert Members(n, last)[1..] == Members(n - 1, last);
    }
  }

  lemma ShownBehindSixteen(last: Piece, delimiter: string)
    ensures var pieces := seq(16, _ => NamePiece("a")) + [last];
      ShownInGroups(pieces, delimiter) ==
      (if last.Stored? then "" else Joined(seq(16, _ => "a"), delimiter)) + last.Name()
  {
    hide Joined;
    var pieces := seq(16, _ => NamePiece("a")) + [last];
    assert GroupsBehind(17) == 1;
    assert Group(pieces, 0) == seq(16, _ => "a");
    var group := if last.Stored? then "" else Joined(seq(16, _ => "a"), delimiter);
    assert ShownGroups(pieces, 0, delimiter) == "" && ShownGroups(pieces, 1, delimiter) == "" + group == group;
    assert Names(pieces)[16..] == [] + [last.Name()];
    OneMore([], last.Name(), delimiter);
    NothingJoined(delimiter);
    assert "" + "" + last.Name() == last.Name();
  }

  lemma ACanBeMangled(env: Env)
    ensures CanManglePart(env, NAME_A)
  {
  }

  lemma {:induction false} MembersCanBeMangled(env: Env, n: nat, last: NestedPart)
    requires CanManglePart(env, NAME_A) && CanManglePart(env, last)
    ensures CanMangleParts(env, Members(n, last))
  {
    hide CanManglePart;
    if n > 0 {
      MembersCanBeMangled(env, n - 1, last);
    }
  }

  lemma {:induction false} NoMarkInTimes(text: string, n: nat)
    requires '$' !in text
    ensures '$' !in Times(text, n)
  {
    if n > 0 {
      NoMarkInTimes(text, n - 1);
    }
  }

  /** Sixteen names `a` in a package `p`, and one more part. */
  function Seventeen(last: NestedPart, closed: bool): Decl {
    Decl(Spelled("p", NoFile), Members(16, last), closed)
  }

  lemma OneDigit()
    ensures UIntToString(1) == "1"
  {
  }

  lemma SeventeenText(last: NestedPart, closed: bool)
    ensures DeclText(Seventeen(last, closed)) == "_CN1p" + Times("1a", 16) + PartText(last) + CloseText(closed)
  {
    hide PartText, PartsText, Times, Members, CloseText, UIntToString;
    MembersText(16, last);
    OneDigit();
    NameTextOf("p", "1");
    assert "1p" + "" == "1p" && "_CN" + "1p" == "_CN1p";
  }

  lemma SeventeenIsNotGenerated(last: NestedPart, closed: bool)
    requires '$' !in PartText(last)
    ensures !LooksGenerated(DeclText(Seventeen(last, closed)))
  {
    hide PartText, DeclText, Times, Members, Find;
    var s := "_CN1p" + Times("1a", 16) + PartText(last) + CloseText(closed);
    SeventeenText(last, closed);
    NoMarkInTimes("1a", 16);
    assert '$' !in s;
    NotFound(s, "$lambda.", 0);
    NotFound(s, "$real", 0);
  }

  lemma SeventeenAreShown(env: Env, last: NestedPart, closed: bool)
    ensures var piece, shown := PieceOf(env, last, !closed), ShownDecl(env, Seventeen(last, closed));
      && shown.kind == piece.Kind()
      && shown.demangled ==
         (if piece.Stored? then "" else Joined(seq(16, _ => "a"), env.scopeResolution)) + piece.Name()
  {
    hide PieceOf, PiecesOf, ShownInGroups, NamePiece, Joined, Members, LastTypes, LastKind, ShownPackage;
    var a, piece := seq(16, _ => NamePiece("a")), PieceOf(env, last, !closed);
    MembersPieces(env, 16, last, closed);
    ShownBehindSixteen(piece, env.scopeResolution);
    LastOf(a, piece);
  }

  lemma SeventeenCanBeMangled(env: Env, last: NestedPart, closed: bool)
    requires CanManglePart(env, last)
    ensures CanMangleDecl(env, Seventeen(last, closed))
  {
    hide CanManglePart, Members;
    ACanBeMangled(env);
    MembersCanBeMangled(env, 16, last);
  }

  /** Behind sixteen names, a part that is stored takes the place of them all, and a named one loses a delimiter. */
  lemma BehindSixteen(env: Env, last: NestedPart, closed: bool)
    requires CodesAreNoNumbers(env) && CanManglePart(env, last) && '$' !in PartText(last)
    requires env.name == "_CN1p" + Times("1a", 16) + PartText(last) + CloseText(closed)
    ensures var r, piece := ReadWhole(env), PieceOf(env, last, !closed);
      piece.Name() != "" ==>
        && r.Got? && r.value.kind == piece.Kind() && r.value.pkgName == "p"
        && r.value.demangled ==
           (if piece.Stored? then "" else Joined(seq(16, _ => "a"), env.scopeResolution)) + piece.Name()
  {
    hide PartText, PieceOf, CanManglePart, ReadWhole, ShownDecl, ShownInGroups, Joined, Times, DeclText, CanMangleDecl,
      LooksGenerated, CloseText;
    var d := Seventeen(last, closed);
    SeventeenText(last, closed);
    SeventeenIsNotGenerated(last, closed);
    SeventeenCanBeMangled(env, last, closed);
    SeventeenAreShown(env, last, closed);
    ShownIs(env, d);
    PackageOf(env, d);
    DeclIsRead(env, d);
  }

  lemma ShownIs(env: Env, d: Decl)
    ensures IsShown(env, d) <==> ShownDecl(env, d).demangled != ""
  {
    hide ShownInGroups, PiecesOf, ShownPackage;
  }

  lemma PackageOf(env: Env, d: Decl)
    requires d.pkg == Spelled("p", NoFile)
    ensures ShownDecl(env, d).pkgName == "p"
  {
    hide NestedInfo, ReplaceChar, WithOrganization;
    WithoutOrganization("p");
    NothingReplaced("p");
  }

  /** Seventeen names: the delimiter in front of the last one is lost. */
  lemma DelimiterIsLost(env: Env)
    requires CodesAreNoNumbers(env) && env.name == "_CN1p" + Times("1a", 16) + "1aE"
    ensures var r := ReadWhole(env);
      r.Got? && r.value.demangled == Joined(seq(16, _ => "a"), env.scopeResolution) + "a"
  {
    hide Times, ReadWhole, Joined, PartText, PieceOf, CanManglePart;
    TextOfA();
    PieceOfA(env);
    ACanBeMangled(env);
    EndsWithMark("_CN1p" + Times("1a", 16), "1a");
    BehindSixteen(env, NAME_A, true);
  }

  lemma EndsWithMark(start: string, text: string)
    ensures start + text + CloseText(true) == start + (text + "E") && start + text + CloseText(false) == start + text
  {
  }

  /** The same without an end mark: sixteen names are lost. */
  lemma NamesAreLostToTheEnd(env: Env)
    requires CodesAreNoNumbers(env) && env.name == "_CN1p" + Times("1a", 16) + "1a"
    ensures var r := ReadWhole(env); r.Got? && r.value.demangled == "a"
  {
    hide Times, ReadWhole, Joined, PartText, PieceOf, CanManglePart;
    TextOfA();
    StoredA(env);
    ACanBeMangled(env);
    EndsWithMark("_CN1p" + Times("1a", 16), "1a");
    BehindSixteen(env, NAME_A, false);
  }

  lemma StoredA(env: Env)
    ensures PieceOf(env, NAME_A, true) == Stored("a", COMMON_DECL)
  {
  }

  lemma TextOfLambda(env: Env)
    ensures PartText(Lambda(0)) == "L_" && CanManglePart(env, Lambda(0))
    ensures PieceOf(env, Lambda(0), false) == Stored("lambda.0", LAMBDA_FUNCTION)
  {
  }

  /** Sixteen names are lost to a lambda in them ... */
  lemma NamesAreLostToALambda(env: Env)
    requires CodesAreNoNumbers(env) && env.name == "_CN1p" + Times("1a", 16) + "L_E"
    ensures var r := ReadWhole(env); r.Got? && r.value.demangled == "lambda.0"
  {
    hide Times, ReadWhole, Joined, PartText, PieceOf, CanManglePart;
    TextOfLambda(env);
    EndsWithMark("_CN1p" + Times("1a", 16), "L_");
    BehindSixteen(env, Lambda(0), true);
  }

  lemma ExtensionOfInt8(env: Env)
    ensures var part := Extension(Primitive('a'), NoFile, None);
      PartText(part) == "Xa" && CanManglePart(env, part) && PieceOf(env, part, false) == Stored("Int8", COMMON_DECL)
  {
    assert "X" + ("a" + ("" + "")) == "Xa";
  }

  /** ... and to an extension in them. */
  lemma NamesAreLostToAnExtension(env: Env)
    requires CodesAreNoNumbers(env) && env.name == "_CN1p" + Times("1a", 16) + "XaE"
    ensures var r := ReadWhole(env); r.Got? && r.value.demangled == "Int8"
  {
    hide Times, ReadWhole, Joined, PartText, PieceOf, CanManglePart;
    ExtensionOfInt8(env);
    EndsWithMark("_CN1p" + Times("1a", 16), "Xa");
    BehindSixteen(env, Extension(Primitive('a'), NoFile, None), true);
  }
}
