/**
 * Types and declarations as they are mangled, and what is shown for them.
 *
 * A type is written as a text and shown as an info, each by recursion over the type; reading the text gives the info.
 */
module MangledTypes {
  import opened MangledTexts
  import opened MangledReadings
  import opened NestedNames
  import opened Wrappers

  /** A file of its own by a hash: all of it, or up to an end mark. */
  datatype File = NoFile | Hash(digits: string) | Marked(text: string)

  /** The package of a declaration: a standard one by its code, none, or one by its name. */
  datatype Package = Standard(code: string, file: File) | NoPackage | Spelled(name: string, file: File)

  datatype Type =
    | Primitive(letter: char) | Float16 | CString | Parameter(number: nat) | Pointer(to: Type)
    | RawArray(dimension: nat, element: Type) | VArray(size: nat, elements: seq<Type>) | Tuple(elements: seq<Type>)
    | Function(isC: bool, result: Type, parameters: seq<Type>)
    | Nominal(letter: char, pkg: Package, names: seq<TypeName>)

  /** One of the nested names of a class, struct or enum, with its type arguments. */
  datatype TypeName = TypeName(name: string, arguments: seq<Type>)

  /** A name whose length can be written before it, and of which something is shown. */
  predicate IsIdentifier(name: string) {
    name != "" && !IsDigit(name[0]) && name != "<>" && |name| <= UINT32_MAX
  }

  predicate CanMangleFile(file: File) {
    match file
    case NoFile => true
    case Hash(digits) => |digits| == FILE_HASH_LEN && IsBase62(digits)
    case Marked(text) => |text| < FILE_HASH_LEN && '$' !in text
  }

  predicate CanManglePackage(env: Env, pkg: Package) {
    match pkg
    case Standard(code, file) => code in env.stdPackages && env.stdPackages[code] != "" && CanMangleFile(file)
    case NoPackage => true
    case Spelled(name, file) => IsIdentifier(name) && CanMangleFile(file)
  }

  /** A type that goes on with whatever types follow it, because it has no end mark. */
  predicate IsOpen(t: Type) {
    match t
    case Pointer(to) => IsOpen(to)
    case RawArray(_, element) => IsOpen(element)
    case VArray(_, _) => true
    case _ => false
  }

  /** Types that can be mangled: numbers fit a word, names are identifiers, and an open type only ends a list. */
  predicate CanMangle(env: Env, t: Type) {
    match t
    case Primitive(letter) => PrimitiveName(letter) != "" && letter != 'D'
    case Float16 => true
    case CString => true
    case Parameter(number) => number < SIZE_RANGE && (env.genericVec == [] || number < |env.genericVec|)
    case Pointer(to) => CanMangle(env, to)
    case RawArray(dimension, element) => dimension < SIZE_RANGE && CanMangle(env, element)
    case VArray(size, elements) => size < SIZE_RANGE && CanMangleAll(env, elements)
    case Tuple(elements) => |elements| < SIZE_RANGE && CanMangleAll(env, elements)
    case Function(_, result, parameters) =>
      CanMangle(env, result) && (parameters != [] ==> !IsOpen(result)) && CanMangleAll(env, parameters) &&
      |parameters| <= UINT32_MAX
    case Nominal(letter, pkg, names) =>
      letter in {'C', 'R', 'N'} && CanManglePackage(env, pkg) && names != [] && CanMangleNames(env, names)
  }

  predicate CanMangleNames(env: Env, names: seq<TypeName>) {
    names == [] ||
    (IsIdentifier(names[0].name) && CanMangleAll(env, names[0].arguments) && CanMangleNames(env, names[1..]))
  }

  predicate CanMangleAll(env: Env, ts: seq<Type>) {
    ts == [] || (CanMangle(env, ts[0]) && (|ts| > 1 ==> !IsOpen(ts[0])) && CanMangleAll(env, ts[1..]))
  }

  // ----- how they are written -----

  function NumberText(n: nat): string {
    (if n == 0 then "" else Base62(n - 1)) + "_"
  }

  function NameText(name: string): string {
    UIntToString(|name|) + name
  }

  function FileText(file: File): string {
    match file
    case NoFile => ""
    case Hash(digits) => "U" + digits
    case Marked(text) => "U" + (text + "$")
  }

  function PackageText(pkg: Package): string {
    match pkg
    case Standard(code, file) => code + FileText(file)
    case NoPackage => "0"
    case Spelled(name, file) => NameText(name) + FileText(file)
  }

  function Text(t: Type): string
    decreases t, 0
  {
    match t
    case Primitive(letter) => [letter]
    case Float16 => "Dh"
    case CString => "k"
    case Parameter(number) => "G" + NumberText(number)
    case Pointer(to) => "P" + Text(to)
    case RawArray(dimension, element) => "A" + (NumberText(dimension) + Text(element))
    case VArray(size, elements) => "V" + (NumberText(size) + Texts(elements))
    case Tuple(elements) => "T" + (NumberText(|elements|) + (Texts(elements) + "E"))
    case Function(isC, result, parameters) =>
      (if isC then "FC" else "F0") + (Text(result) + (Texts(parameters) + "E"))
    case Nominal(letter, pkg, names) => [letter, 'N'] + (PackageText(pkg) + (TypeNamesText(names) + "E"))
  }

  function Texts(ts: seq<Type>): string
    decreases ts, 0
  {
    if ts == [] then "" else Text(ts[0]) + Texts(ts[1..])
  }

  function ArgumentsText(ts: seq<Type>): string
    decreases ts, 1
  {
    if ts == [] then "" else "I" + Texts(ts)
  }

  function TypeNamesText(names: seq<TypeName>): string
    decreases names, 0
  {
    if names == [] then ""
    else NameText(names[0].name) + (ArgumentsText(names[0].arguments) + TypeNamesText(names[1..]))
  }

  // ----- how they are shown -----

  function ShownPackage(env: Env, pkg: Package): DemangleInfo {
    match pkg
    case Standard(code, file) =>
      PackageInfo(if code in env.stdPackages then env.stdPackages[code] else "", file != NoFile)
    case NoPackage => Info("", COMMON_DECL)
    case Spelled(name, file) => PackageInfo(WithOrganization(name), file != NoFile)
  }

  /** A name is shown without the angle brackets around it. */
  function Bare(name: string): string {
    Info(name, NAME).GetIdentifier()
  }

  /** A name without a signature that another name or an end mark follows. */
  function NamePiece(name: string): Piece {
    Named(Part(Bare(name), COMMON_DECL, "", false))
  }

  function Shown(env: Env, t: Type): DemangleInfo
    decreases t, 0
  {
    match t
    case Primitive(letter) => Info(PrimitiveName(letter), PRIMITIVE)
    case Float16 => Info("Float16", PRIMITIVE)
    case CString => Info("CString", CSTRING)
    case Parameter(number) =>
      Info(if number < |env.genericVec| then env.genericVec[number] else "T" + UIntToString(number), GENERIC_TYPES)
    case Pointer(to) => Info("CPointer", CPOINTER).(genericTypes := Filtered(env, [FullName(env, to)]))
    case RawArray(dimension, element) =>
      Info("RawArray", RAW_ARRAY).(genericConstraints := Brackets(dimension), args := FullName(env, element))
    case VArray(size, elements) =>
      Info("VArray", TUPLE)
      .(genericTypes := TypesInfo(FullNames(env, elements)).GetFullName(env.scopeResolution, size % (UINT32_MAX + 1)))
    case Tuple(elements) => Info("Tuple", TUPLE).(genericTypes := Filtered(env, FullNames(env, elements)))
    case Function(_, result, parameters) =>
      Info(FullName(env, result), FUNCTION).(args := Joined(FullNames(env, parameters), ARGS_DELIMITER))
    case Nominal(letter, pkg, names) =>
      DeclInfo(ShownPackage(env, pkg), NestedInfo(TypePieces(env, names), env.scopeResolution))
      .(kind := UnitKind(letter))
  }

  /** The names of a type, each with its type arguments. */
  function TypePieces(env: Env, names: seq<TypeName>): (pieces: seq<Piece>)
    ensures |pieces| == |names|
    decreases names, 2
  {
    if names == [] then []
    else
      [Named(Part(Bare(names[0].name) + ShownArguments(env, names[0].arguments), COMMON_DECL, "", false))] +
      TypePieces(env, names[1..])
  }

  function FullName(env: Env, t: Type): string
    decreases t, 1
  {
    Shown(env, t).GetFullName(env.scopeResolution)
  }

  function FullNames(env: Env, ts: seq<Type>): seq<string>
    decreases ts, 0
  {
    if ts == [] then [] else [FullName(env, ts[0])] + FullNames(env, ts[1..])
  }

  /** Type arguments in their brackets, as the caller wants them. */
  function Filtered(env: Env, names: seq<string>): string {
    env.genericTypefilter(TypesInfo(names).GetFullName(env.scopeResolution))
  }

  function ShownArguments(env: Env, ts: seq<Type>): string
    decreases ts, 1
  {
    if ts == [] then "" else Filtered(env, FullNames(env, ts))
  }

  // ----- numbers and names are read back -----

  /** The name goes on with `text`, and then `rest`. */
  predicate GoesOn(s: string, i: nat, text: string, rest: string) {
    i <= |s| && s[i..] == text + rest
  }

  lemma Behind(s: string, i: nat, a: string, rest: string)
    requires GoesOn(s, i, a, rest)
    ensures i + |a| <= |s| && GoesOn(s, i + |a|, rest, "") && GoesOn(s, i + |a|, "", rest)
    ensures forall k :: 0 <= k < |a| ==> s[i + k] == a[k]
    ensures a == s[i..i + |a|]
  {
    assert s[i + |a|..] == s[i..][|a|..] == rest;
    assert s[i..i + |a|] == s[i..][..|a|] == a;
    forall k | 0 <= k < |a| ensures s[i + k] == a[k] {
      assert s[i + k] == s[i..][k];
    }
    assert rest + "" == rest && "" + rest == rest;
  }

  /** Texts that follow each other can be taken apart at any place. */
  lemma Regrouped(s: string, i: nat, a: string, b: string, rest: string)
    ensures GoesOn(s, i, a + b, rest) <==> GoesOn(s, i, a, b + rest)
    ensures GoesOn(s, i, a, b) <==> GoesOn(s, i, a + b, "")
  {
    assert a + b + rest == a + (b + rest);
    assert a + b + "" == a + b;
  }

  lemma {:induction false} FindIs(s: string, c: char, i: nat, j: nat)
    requires i <= j < |s| && s[j] == c && forall k :: i <= k < j ==> s[k] != c
    ensures Find(s, [c], i) == j
    decreases j - i
  {
    FindStep(s, c, i);
    if i < j {
      FindIs(s, c, i + 1, j);
    }
  }

  lemma NumberIsRead(s: string, i: nat, n: nat, rest: string)
    requires GoesOn(s, i, NumberText(n), rest) && n < SIZE_RANGE
    ensures ReadNumber(s, i) == Got(n, i + |NumberText(n)|)
  {
    hide IsBase62, ManglingNumber, Base62, GoesOn;
    var digits := if n == 0 then "" else Base62(n - 1);
    MangledNumbersAreRead(n);
    Behind(s, i, NumberText(n), rest);
    var end := i + |digits|;
    assert s[end] == '_';
    FindIs(s, '_', i, end);
    assert s[i..end] == NumberText(n)[..|digits|] == digits;
  }

  lemma {:induction false} DecimalIsRead(n: nat)
    ensures var d := UIntToString(n);
      && d != "" && (forall k :: 0 <= k < |d| ==> IsDigit(d[k])) && DecimalValue(d) == n && (n > 0 ==> d[0] != '0')
  {
    if n < 10 {
      assert UIntToString(n)[..0] == "";
    } else {
      DecimalIsRead(n / 10);
      var d, e := UIntToString(n / 10), UIntToString(n % 10);
      assert UIntToString(n) == d + e && (d + e)[..|d + e| - 1] == d;
    }
  }

  lemma NameIsRead(s: string, i: nat, name: string, rest: string)
    requires GoesOn(s, i, NameText(name), rest) && IsIdentifier(name)
    ensures ReadName(s, i) == Got(name, i + |NameText(name)|)
    ensures i < |s| && IsDigit(s[i]) && s[i] != '0'
  {
    hide GoesOn, UIntToString, DecimalValue, Digits;
    var d := UIntToString(|name|);
    DecimalIsRead(|name|);
    Behind(s, i, NameText(name), rest);
    assert NameText(name)[0] == d[0];
    var t := s[i..];
    assert t[..|d|] == d && d <= t by {
      assert s[i..i + |NameText(name)|][..|d|] == d;
    }
    assert t[|d|] == s[i + |d|] == NameText(name)[|d|] == name[0];
    DigitsAre(t, d);
    assert s[i + |d|..i + |d| + |name|] == NameText(name)[|d|..] == name;
  }

  /** No standard package has a code that starts like a length. */
  predicate CodesAreNoNumbers(env: Env) {
    env.Valid() && forall code :: code in env.stdPackages ==> !IsDigit(code[0])
  }

  lemma NoMarkFound(s: string, i: nat, digits: string)
    requires i + |digits| <= |s| && s[i..i + |digits|] == digits && IsBase62(digits)
    ensures Find(s, "$", i) == -1 || Find(s, "$", i) >= i + |digits|
  {
    forall k | i <= k < i + |digits| ensures s[k] != '$' {
      assert s[k] == digits[k - i] && Base62Digit(digits[k - i]) >= 0;
    }
    var end := Find(s, "$", i);
    assert end != -1 ==> s[end..end + 1][0] == s[end];
  }

  lemma FileIsRead(s: string, i: nat, file: File, rest: string)
    requires GoesOn(s, i, FileText(file), rest) && CanMangleFile(file) && file != NoFile
    ensures FileNameAt(s, i) && FileNameEnd(s, i) == Some(i + |FileText(file)|)
  {
    hide GoesOn, IsBase62, Find;
    var j := i + |FileText(file)|;
    Behind(s, i, FileText(file), rest);
    match file {
      case Hash(digits) =>
        assert s[i + 1..j] == FileText(file)[1..] == digits;
        NoMarkFound(s, i + 1, digits);
      case Marked(text) =>
        assert s[j - 1] == '$';
        forall k | i + 1 <= k < j - 1 ensures s[k] != '$' {
          assert s[k] == FileText(file)[k - i] == text[k - i - 1];
        }
        FindIs(s, '$', i + 1, j - 1);
    }
  }

  /** Behind the name of a package only a file can stand. */
  lemma FileOrNone(s: string, i: nat, file: File, rest: string)
    requires GoesOn(s, i, FileText(file), rest) && CanMangleFile(file)
    requires rest != "" && rest[0] !in {'0', MANGLE_FILE_ID_PREFIX}
    ensures i < |s| && s[i] != '0' && (FileNameAt(s, i) <==> file != NoFile)
    ensures file != NoFile ==> FileNameEnd(s, i) == Some(i + |FileText(file)|)
    ensures file == NoFile ==> |FileText(file)| == 0
  {
    hide GoesOn, FileNameEnd, CanMangleFile;
    Behind(s, i, FileText(file), rest);
    Behind(s, i + |FileText(file)|, rest, "");
    if file != NoFile {
      FileIsRead(s, i, file, rest);
    }
  }

  lemma CodeStands(s: string, i: nat, code: string, rest: string)
    requires GoesOn(s, i, code, rest) && |code| == 2
    ensures i + 2 <= |s| && SubStr(s, i, 2) == code
  {
    Behind(s, i, code, rest);
  }

  lemma StandardIsRead(env: Env, i: nat, pkg: Package, rest: string)
    requires env.Valid() && GoesOn(env.name, i, PackageText(pkg), rest) && pkg.Standard? && CanManglePackage(env, pkg)
    requires rest != "" && rest[0] !in {'0', MANGLE_FILE_ID_PREFIX}
    ensures ReadPackage(env, i) == Got(ShownPackage(env, pkg), i + |PackageText(pkg)|)
  {
    hide GoesOn, FileText, FileNameAt, FileNameEnd, CanMangleFile, PackageInfo, SubStr, ReadName, WithOrganization;
    Regrouped(env.name, i, pkg.code, FileText(pkg.file), rest);
    CodeStands(env.name, i, pkg.code, FileText(pkg.file) + rest);
    Behind(env.name, i, pkg.code, FileText(pkg.file) + rest);
    Regrouped(env.name, i + 2, FileText(pkg.file), rest, "");
    FileOrNone(env.name, i + 2, pkg.file, rest);
  }

  lemma SpelledIsRead(env: Env, i: nat, pkg: Package, rest: string)
    requires CodesAreNoNumbers(env) && GoesOn(env.name, i, PackageText(pkg), rest)
    requires pkg.Spelled? && CanManglePackage(env, pkg)
    requires rest != "" && rest[0] !in {'0', MANGLE_FILE_ID_PREFIX}
    ensures ReadPackage(env, i) == Got(ShownPackage(env, pkg), i + |PackageText(pkg)|)
  {
    hide GoesOn, NameText, FileText, FileNameAt, FileNameEnd, CanMangleFile, IsIdentifier, PackageInfo, ReadName,
      WithOrganization;
    var file, j := FileText(pkg.file), i + |NameText(pkg.name)|;
    Regrouped(env.name, i, NameText(pkg.name), file, rest);
    NameIsRead(env.name, i, pkg.name, file + rest);
    Behind(env.name, i, NameText(pkg.name), file + rest);
    Regrouped(env.name, j, file, rest, "");
    FileOrNone(env.name, j, pkg.file, rest);
    assert SubStr(env.name, i, 2)[0] == env.name[i];
  }

  /** A package is read back, in front of anything that is neither a file nor the mark for no package. */
  lemma PackageIsRead(env: Env, i: nat, pkg: Package, rest: string)
    requires CodesAreNoNumbers(env) && GoesOn(env.name, i, PackageText(pkg), rest) && CanManglePackage(env, pkg)
    requires rest != "" && rest[0] !in {'0', MANGLE_FILE_ID_PREFIX}
    ensures ReadPackage(env, i) == Got(ShownPackage(env, pkg), i + |PackageText(pkg)|)
  {
    match pkg {
      case Standard(_, _) =>
        hide GoesOn, ReadPackage, PackageText, ShownPackage, CanManglePackage;
        StandardIsRead(env, i, pkg, rest);
      case Spelled(_, _) =>
        hide GoesOn, ReadPackage, PackageText, ShownPackage, CanManglePackage;
        SpelledIsRead(env, i, pkg, rest);
      case NoPackage =>
        hide GoesOn, ReadName, FileNameAt, FileNameEnd, WithOrganization;
        Behind(env.name, i, "0", rest);
        assert SubStr(env.name, i, 2)[0] == env.name[i] == '0';
    }
  }

  // ----- nested names are read back -----

  lemma PlainName(env: Env, name: string, generics: string, types: string)
    ensures Info(name, NAME).(genericTypes := generics, functionParameterTypes := types)
            .GetFullName(env.scopeResolution) == Bare(name) + generics
    ensures Info(name, NAME).(genericTypes := generics).GetFullName(env.scopeResolution) == Bare(name) + generics
    ensures Info(name, NAME).GetFullName(env.scopeResolution) == Bare(name)
  {
    assert "" + Bare(name) + generics + "" + "" == Bare(name) + generics;
    assert "" + Bare(name) + "" + "" + "" == Bare(name);
  }

  lemma SomethingBare(name: string)
    requires IsIdentifier(name)
    ensures Bare(name) != ""
  {
  }

  /** One nested name, up to its signature. */
  lemma NestedNameIsRead(env: Env, i: nat, name: string, after: string)
    requires env.Valid() && GoesOn(env.name, i, NameText(name), after) && IsIdentifier(name)
    requires after != "" && (IsDigit(after[0]) || after[0] in {'E', 'I', 'H'})
    ensures i + |NameText(name)| < |env.name| && env.name[i + |NameText(name)|] == after[0]
    ensures !EndsAt(env.name, i) && env.name[i] !in {MANGLE_LAMBDA_PREFIX, MANGLE_EXTEND_PREFIX}
    ensures ReadNestedName(env.name, i) == Got(Info(name, NAME), i + |NameText(name)|)
    ensures CounterEnd(env.name, i + |NameText(name)|) == Some(i + |NameText(name)|)
  {
    hide GoesOn, NameText, ReadName;
    NameIsRead(env.name, i, name, after);
    Behind(env.name, i, NameText(name), after);
    var j := i + |NameText(name)|;
    Behind(env.name, j, after, "");
    assert !OperatorAt(env.name, i);
    assert env.name[j] == after[0];
  }

  /** One nested name with its signature. */
  lemma NamedPieceIsRead(env: Env, i: nat, name: string, after: string, isClass: bool, full: DemangleInfo,
                         kind: TypeKind, k: nat)
    requires env.Valid() && GoesOn(env.name, i, NameText(name), after) && IsIdentifier(name)
    requires after != "" && (IsDigit(after[0]) || after[0] in {'E', 'I', 'H'}) && i + |NameText(name)| <= |env.name|
    requires ReadSignature(env, Info(name, NAME), i + |NameText(name)|, isClass) == Got((full, kind), k)
    ensures !EndsAt(env.name, i)
    ensures ReadPiece(env, i, isClass, false) ==
            Got(Named(Part(full.GetFullName(env.scopeResolution), kind, full.functionParameterTypes, false)), k)
  {
    hide GoesOn, NameText, ReadNestedName, CounterEnd, ReadSignature, DemangleInfo.GetFullName;
    NestedNameIsRead(env, i, name, after);
  }

  /** A name that another name follows has no signature. */
  lemma NoSignature(env: Env, di: DemangleInfo, i: nat, isClass: bool)
    requires env.Valid() && i <= |env.name| && CharAt(env.name, i) !in {'I', 'H'}
    ensures ReadSignature(env, di, i, isClass) == Got((di, COMMON_DECL), i)
  {
  }

  lemma FirstOfNames(env: Env, names: seq<TypeName>, after: string)
    requires CanMangleNames(env, names) && after != ""
    ensures var text := TypeNamesText(names) + after;
      text != "" && if names == [] then text == after else IsDigit(text[0]) && text[0] != '0'
  {
    hide UIntToString, ArgumentsText, CanMangleAll;
    if names != [] {
      DecimalIsRead(|names[0].name|);
      assert (TypeNamesText(names) + after)[0] == UIntToString(|names[0].name|)[0];
    }
  }

  // ----- types are read back -----

  /** The characters that types begin with. No reading of a list takes one of them for its end. */
  predicate IsStart(c: char) {
    PrimitiveName(c) != "" || c in {'k', 'G', 'P', 'A', 'V', 'T', 'F', 'C', 'R', 'N'}
  }

  predicate IsLower(c: char) {
    'a' <= c <= 'z'
  }

  lemma StartOf(env: Env, t: Type)
    requires CanMangle(env, t)
    ensures Text(t) != "" && IsStart(Text(t)[0]) && (IsLower(Text(t)[0]) ==> |Text(t)| == 1)
    ensures Text(t)[0] == 'D' ==> Text(t) == "Dh"
    ensures Text(t)[0] == 'F' ==> |Text(t)| > 1 && Text(t)[1] in {'0', 'C'}
  {
    hide NumberText, PackageText, TypeNamesText, Texts, CanManglePackage;
  }

  /** What a list that is not closed by its own mark has to be followed by; lists of arguments do not stop at a name. */
  predicate Stops(rest: string) {
    rest == "" || rest[0] == 'E' || IsDigit(rest[0])
  }

  predicate Closes(rest: string) {
    rest == "" || rest[0] == 'E'
  }

  /** A text in two parts goes on with the second behind the first. */
  lemma Next(s: string, i: nat, a: string, b: string, rest: string)
    requires GoesOn(s, i, a + b, rest)
    ensures i + |a| <= |s| && GoesOn(s, i + |a|, b, rest) && GoesOn(s, i, a, b + rest)
  {
    hide GoesOn;
    Regrouped(s, i, a, b, rest);
    Behind(s, i, a, b + rest);
    Regrouped(s, i + |a|, b, rest, "");
  }

  /** A letter, a number and more. */
  lemma BehindNumber(s: string, i: nat, letter: string, number: string, b: string, rest: string)
    requires GoesOn(s, i, letter + (number + b), rest) && |letter| == 1
    ensures i < |s| && s[i] == letter[0] && i + 1 + |number| <= |s|
    ensures GoesOn(s, i + 1, number, b + rest) && GoesOn(s, i + 1 + |number|, b, rest)
  {
    hide GoesOn;
    Next(s, i, letter, number + b, rest);
    Next(s, i + 1, number, b, rest);
    First(s, i, letter, number + b + rest);
  }

  lemma First(s: string, i: nat, a: string, rest: string)
    requires GoesOn(s, i, a, rest)
    ensures i + |a| <= |s|
    ensures a != "" ==> s[i] == a[0]
    ensures a == "" && rest != "" ==> i < |s| && s[i] == rest[0]
    ensures a == "" && rest == "" ==> i == |s|
  {
    hide GoesOn;
    Behind(s, i, a, rest);
    Behind(s, i + |a|, rest, "");
  }

  lemma QualifiedAtStart(env: Env, i: nat, t: Type, rest: string)
    requires CanMangle(env, t) && GoesOn(env.name, i, Text(t), rest)
    ensures QualifiedTypeAt(env.name, i)
  {
    hide GoesOn, Text;
    StartOf(env, t);
    Behind(env.name, i, Text(t), rest);
    assert env.name[i] == Text(t)[0];
  }

  lemma LeafIsRead(env: Env, i: nat, t: Type, rest: string)
    requires env.Valid() && CanMangle(env, t) && GoesOn(env.name, i, Text(t), rest)
    requires t.Primitive? || t.Float16? || t.CString?
    ensures ReadUnit(env, i) == Got(Shown(env, t), i + |Text(t)|)
  {
    hide GoesOn, ReadUnit;
    Behind(env.name, i, Text(t), rest);
    UnitSelected(env, i);
    assert env.name[i] == Text(t)[0];
    if t.Float16? {
      assert env.name[i + 1] == 'h';
    }
  }

  lemma ParameterIsRead(env: Env, i: nat, number: nat, rest: string)
    requires env.Valid() && CanMangle(env, Parameter(number)) && GoesOn(env.name, i, "G" + NumberText(number), rest)
    ensures ReadUnit(env, i) == Got(Shown(env, Parameter(number)), i + |Text(Parameter(number))|)
  {
    hide GoesOn, NumberText, ReadNumber, ReadUnit, UIntToString;
    Next(env.name, i, "G", NumberText(number), rest);
    NumberIsRead(env.name, i + 1, number, rest);
    First(env.name, i, "G", NumberText(number) + rest);
    UnitSelected(env, i);
  }

  lemma ParameterOfText(env: Env, i: nat, t: Type, rest: string)
    requires env.Valid() && t.Parameter? && CanMangle(env, t) && GoesOn(env.name, i, Text(t), rest)
    ensures ReadUnit(env, i) == Got(Shown(env, t), i + |Text(t)|)
  {
    hide GoesOn, NumberText, ReadUnit, Shown;
    ParameterIsRead(env, i, t.number, rest);
  }

  lemma PointerIsRead(env: Env, i: nat, to: Type, j: nat, rest: string)
    requires env.Valid() && CanMangle(env, to) && GoesOn(env.name, i, "P" + Text(to), rest)
    requires ReadUnit(env, i + 1) == Got(Shown(env, to), j)
    ensures ReadUnit(env, i) == Got(Shown(env, Pointer(to)), j)
  {
    hide GoesOn, Text, ReadUnit, Shown, QualifiedTypeAt;
    Next(env.name, i, "P", Text(to), rest);
    First(env.name, i, "P", Text(to) + rest);
    QualifiedAtStart(env, i + 1, to, rest);
    PointerRead(env, i, to, j);
  }

  lemma PointerRead(env: Env, i: nat, to: Type, j: nat)
    requires env.Valid() && i < |env.name| && env.name[i] == 'P' && QualifiedTypeAt(env.name, i + 1)
    requires ReadUnit(env, i + 1) == Got(Shown(env, to), j)
    ensures ReadUnit(env, i) == Got(Shown(env, Pointer(to)), j)
  {
    hide ReadUnit, DemangleInfo.GetFullName, TypesInfo, QualifiedTypeAt, ReadPointer, ReadClass, ReadFunction, ReadTuple,
      ReadRawArray, ReadVArray, ReadGenericParameter, ReadPrimitive, Shown;
    UnitSelected(env, i);
    PointerStep(env, i);
    ShownPointer(env, to);
  }

  lemma PointerStep(env: Env, i: nat)
    requires env.Valid() && i < |env.name| && QualifiedTypeAt(env.name, i + 1)
    ensures var r := ReadUnit(env, i + 1);
      ReadPointer(env, i) ==
      if r.Failed? then Failed
      else Got(Info("CPointer", CPOINTER)
               .(genericTypes := Filtered(env, [r.value.GetFullName(env.scopeResolution)])), r.next)
  {
    hide ReadUnit, DemangleInfo.GetFullName, TypesInfo, QualifiedTypeAt;
  }

  lemma ShownPointer(env: Env, to: Type)
    ensures Shown(env, Pointer(to)) ==
            Info("CPointer", CPOINTER)
            .(genericTypes := Filtered(env, [Shown(env, to).GetFullName(env.scopeResolution)]))
  {
    hide DemangleInfo.GetFullName, Filtered;
  }

  lemma RawArrayIsRead(env: Env, i: nat, dimension: nat, element: Type, j: nat, rest: string)
    requires env.Valid() && dimension < SIZE_RANGE
    requires GoesOn(env.name, i, "A" + (NumberText(dimension) + Text(element)), rest)
    requires ReadUnit(env, i + 1 + |NumberText(dimension)|) == Got(Shown(env, element), j)
    ensures ReadUnit(env, i) == Got(Shown(env, RawArray(dimension, element)), j)
  {
    hide GoesOn, Text, NumberText, ReadNumber, ReadUnit, Shown;
    BehindNumber(env.name, i, "A", NumberText(dimension), Text(element), rest);
    NumberIsRead(env.name, i + 1, dimension, Text(element) + rest);
    RawArrayRead(env, i, dimension, element, i + 1 + |NumberText(dimension)|, j);
  }

  lemma RawArrayStep(env: Env, i: nat, n: nat)
    requires env.Valid() && i < |env.name|
    ensures var number := ReadNumber(env.name, i + 1);
      number.Got? && number.next == n ==>
        var r := ReadUnit(env, n);
        ReadRawArray(env, i) ==
        if r.Failed? then Failed
        else Got(Info("RawArray", RAW_ARRAY).(genericConstraints := Brackets(number.value),
                                              args := r.value.GetFullName(env.scopeResolution)), r.next)
  {
    hide ReadNumber, ReadUnit, Brackets, DemangleInfo.GetFullName;
  }

  lemma RawArrayRead(env: Env, i: nat, dimension: nat, element: Type, n: nat, j: nat)
    requires env.Valid() && i < |env.name| && env.name[i] == 'A' && ReadNumber(env.name, i + 1) == Got(dimension, n)
    requires ReadUnit(env, n) == Got(Shown(env, element), j)
    ensures ReadUnit(env, i) == Got(Shown(env, RawArray(dimension, element)), j)
  {
    hide ReadNumber, ReadUnit, ReadRawArray, Brackets, DemangleInfo.GetFullName, Shown;
    UnitSelected(env, i);
    RawArrayStep(env, i, n);
    ShownArray(env, dimension, element);
  }

  lemma ShownArray(env: Env, dimension: nat, element: Type)
    ensures Shown(env, RawArray(dimension, element)) ==
            Info("RawArray", RAW_ARRAY).(genericConstraints := Brackets(dimension),
                                         args := Shown(env, element).GetFullName(env.scopeResolution))
  {
    hide Brackets, DemangleInfo.GetFullName;
  }

  lemma VArrayIsRead(env: Env, i: nat, size: nat, elements: seq<Type>, j: nat, rest: string)
    requires env.Valid() && size < SIZE_RANGE
    requires GoesOn(env.name, i, "V" + (NumberText(size) + Texts(elements)), rest)
    requires ReadGenerics(env, i + 1 + |NumberText(size)|) == Got(FullNames(env, elements), j)
    ensures ReadUnit(env, i) == Got(Shown(env, VArray(size, elements)), j)
  {
    hide GoesOn, Texts, NumberText, ReadNumber, ReadUnit, ReadGenerics, TypesInfo, DemangleInfo.GetFullName, ReadClass,
      ReadFunction, ReadTuple, ReadPointer, ReadRawArray, ReadGenericParameter, ReadPrimitive;
    BehindNumber(env.name, i, "V", NumberText(size), Texts(elements), rest);
    NumberIsRead(env.name, i + 1, size, Texts(elements) + rest);
    UnitSelected(env, i);
  }

  lemma TupleIsRead(env: Env, i: nat, elements: seq<Type>, j: nat, rest: string)
    requires env.Valid() && |elements| < SIZE_RANGE
    requires GoesOn(env.name, i, "T" + (NumberText(|elements|) + (Texts(elements) + "E")), rest)
    requires j == i + 1 + |NumberText(|elements|)| + |Texts(elements)|
    requires ReadGenerics(env, i + 1 + |NumberText(|elements|)|) == Got(FullNames(env, elements), j)
    ensures ReadUnit(env, i) == Got(Shown(env, Tuple(elements)), j + 1)
  {
    hide GoesOn, Texts, NumberText, ReadNumber, ReadUnit, ReadGenerics, Shown, FullNames;
    var number, types := NumberText(|elements|), Texts(elements);
    BehindNumber(env.name, i, "T", number, types + "E", rest);
    Next(env.name, i + 1 + |number|, types, "E", rest);
    First(env.name, j, "E", rest);
    NumberIsRead(env.name, i + 1, |elements|, types + "E" + rest);
    TupleRead(env, i, elements, i + 1 + |number|, j);
  }

  lemma TupleRead(env: Env, i: nat, elements: seq<Type>, n: nat, j: nat)
    requires env.Valid() && i < |env.name| && env.name[i] == 'T' && j < |env.name| && env.name[j] == 'E'
    requires ReadNumber(env.name, i + 1) == Got(|elements|, n)
    requires ReadGenerics(env, n) == Got(FullNames(env, elements), j)
    ensures ReadUnit(env, i) == Got(Shown(env, Tuple(elements)), j + 1)
  {
    hide ReadNumber, ReadUnit, ReadGenerics, FullNames, TypesInfo, DemangleInfo.GetFullName, ReadClass, ReadFunction,
      ReadPointer, ReadRawArray, ReadVArray, ReadGenericParameter, ReadPrimitive;
    UnitSelected(env, i);
  }

  lemma FunctionIsRead(env: Env, i: nat, isC: bool, result: Type, parameters: seq<Type>, j: nat, k: nat, rest: string)
    requires env.Valid()
    requires GoesOn(env.name, i, (if isC then "FC" else "F0") + (Text(result) + (Texts(parameters) + "E")), rest)
    requires j == i + 2 + |Text(result)| && k == j + |Texts(parameters)|
    requires ReadUnit(env, i + 2) == Got(Shown(env, result), j)
    requires ReadArgs(env, j, UINT32_MAX) == Got(FullNames(env, parameters), k)
    ensures ReadUnit(env, i) == Got(Shown(env, Function(isC, result, parameters)), k + 1)
  {
    hide GoesOn, Text, Texts, ReadUnit, ReadArgs, Shown, FullNames;
    var prefix, types := if isC then "FC" else "F0", Texts(parameters);
    Next(env.name, i, prefix, Text(result) + (types + "E"), rest);
    Next(env.name, i + 2, Text(result), types + "E", rest);
    Next(env.name, j, types, "E", rest);
    First(env.name, k, "E", rest);
    Behind(env.name, i, prefix, Text(result) + (types + "E") + rest);
    assert env.name[i] == prefix[0] && env.name[i + 1] == prefix[1];
    FunctionRead(env, i, isC, result, parameters, j, k);
  }

  lemma FunctionRead(env: Env, i: nat, isC: bool, result: Type, parameters: seq<Type>, j: nat, k: nat)
    requires env.Valid() && i + 1 < |env.name| && env.name[i] == 'F' && env.name[i + 1] in {'0', 'C'}
    requires k < |env.name| && env.name[k] == 'E'
    requires ReadUnit(env, i + 2) == Got(Shown(env, result), j)
    requires ReadArgs(env, j, UINT32_MAX) == Got(FullNames(env, parameters), k)
    ensures ReadUnit(env, i) == Got(Shown(env, Function(isC, result, parameters)), k + 1)
  {
    hide ReadUnit, ReadArgs, Joined, FullNames, DemangleInfo.GetFullName, ReadFunction, ReadClass, ReadTuple,
      ReadPointer, ReadRawArray, ReadVArray, ReadGenericParameter, ReadPrimitive, Shown;
    UnitSelected(env, i);
    FunctionStep(env, i, j, k);
    ShownFunction(env, isC, result, parameters);
  }

  lemma FunctionStep(env: Env, i: nat, j: nat, k: nat)
    requires env.Valid() && i + 1 < |env.name| && k < |env.name| && env.name[k] == 'E'
    requires var r := ReadUnit(env, i + 2); r.Got? && r.next == j
    requires var p := ReadArgs(env, j, UINT32_MAX); p.Got? && p.next == k
    ensures ReadFunction(env, i) ==
            Got(Info(ReadUnit(env, i + 2).value.GetFullName(env.scopeResolution), FUNCTION)
                .(args := Joined(ReadArgs(env, j, UINT32_MAX).value, ARGS_DELIMITER)), k + 1)
  {
    hide ReadUnit, ReadArgs, Joined, DemangleInfo.GetFullName;
  }

  lemma ShownFunction(env: Env, isC: bool, result: Type, parameters: seq<Type>)
    ensures Shown(env, Function(isC, result, parameters)) ==
            Info(Shown(env, result).GetFullName(env.scopeResolution), FUNCTION)
            .(args := Joined(FullNames(env, parameters), ARGS_DELIMITER))
  {
    hide DemangleInfo.GetFullName, Joined, FullNames;
  }

  // ----- declarations are read back -----

  /** What is shown of nested names is not empty where the last one is not. */
  lemma SomethingShown(pieces: seq<Piece>, last: Piece, delimiter: string)
    requires last.Name() != ""
    ensures ShownInGroups(pieces + [last], delimiter) != ""
  {
    hide Joined, ShownGroups, Names;
    var all := pieces + [last];
    var rest := Names(all)[MAX_ARGS_SIZE * GroupsBehind(|all|)..];
    LastOf(pieces, last);
    assert rest[..|rest| - 1] + [last.Name()] == rest;
    OneMore(rest[..|rest| - 1], last.Name(), delimiter);
  }

  lemma {:induction false} TypesAreShown(env: Env, names: seq<TypeName>)
    requires CanMangleNames(env, names) && names != []
    ensures TypePieces(env, names)[|names| - 1].Name() != ""
    ensures ShownInGroups(TypePieces(env, names), env.scopeResolution) != ""
    decreases names
  {
    hide ShownInGroups, Bare, ShownArguments, CanMangleAll, IsIdentifier;
    SomethingBare(names[0].name);
    if |names| > 1 {
      TypesAreShown(env, names[1..]);
    }
    var pieces := TypePieces(env, names);
    assert pieces[..|pieces| - 1] + [pieces[|pieces| - 1]] == pieces;
    SomethingShown(pieces[..|pieces| - 1], pieces[|pieces| - 1], env.scopeResolution);
  }

  /** Type arguments behind a name, where no parameter types follow. */
  lemma ArgumentsAreRead(env: Env, i: nat, name: string, arguments: seq<Type>, k: nat)
    requires env.Valid() && i <= k < |env.name| && env.name[k] !in {'I', 'H'}
    requires arguments == [] ==> k == i
    requires arguments != [] ==> env.name[i] == 'I' && ReadGenerics(env, i + 1) == Got(FullNames(env, arguments), k)
    ensures ReadSignature(env, Info(name, NAME), i, true) ==
            Got((Info(name, NAME).(genericTypes := ShownArguments(env, arguments)), COMMON_DECL), k)
  {
    hide ReadGenerics, FullNames, TypesInfo, DemangleInfo.GetFullName;
    if arguments == [] {
      NoSignature(env, Info(name, NAME), i, true);
    }
  }

  /** One name of a type, with its arguments. */
  lemma TypeNameIsRead(env: Env, i: nat, name: TypeName, after: string, k: nat)
    requires env.Valid() && IsIdentifier(name.name)
    requires GoesOn(env.name, i, NameText(name.name), ArgumentsText(name.arguments) + after)
    requires after != "" && (after[0] == 'E' || IsDigit(after[0]))
    requires k == i + |NameText(name.name)| + |ArgumentsText(name.arguments)|
    requires name.arguments != [] ==>
      ReadGenerics(env, i + |NameText(name.name)| + 1) == Got(FullNames(env, name.arguments), k)
    ensures !EndsAt(env.name, i)
    ensures ReadPiece(env, i, true, false) == Got(TypePieces(env, [name])[0], k)
  {
    hide GoesOn, NameText, Texts, ReadSignature, ReadPiece, ReadGenerics, DemangleInfo.GetFullName, EndsAt,
      IsIdentifier, Bare, ShownArguments, FullNames;
    var j, types := i + |NameText(name.name)|, ArgumentsText(name.arguments);
    Behind(env.name, i, NameText(name.name), types + after);
    Regrouped(env.name, j, types, after, "");
    Behind(env.name, j, types, after);
    First(env.name, j, types + after, "");
    First(env.name, k, after, "");
    if name.arguments == [] {
      assert types + after == after;
    }
    ArgumentsAreRead(env, j, name.name, name.arguments, k);
    PlainName(env, name.name, ShownArguments(env, name.arguments), "");
    var full := Info(name.name, NAME).(genericTypes := ShownArguments(env, name.arguments));
    NamedPieceIsRead(env, i, name.name, types + after, true, full, COMMON_DECL, k);
  }

  /** A class, struct or enum reads as its declaration, of the kind that its letter says. */
  lemma NominalRead(env: Env, i: nat, letter: char, di: DemangleInfo, k: nat)
    requires env.Valid() && i + 1 < |env.name| && env.name[i] == letter && letter in {'C', 'R', 'N'}
    requires env.name[i + 1] == 'N' && ReadPackageAndNested(env, i + 2, true, false) == Got(di, k)
    requires k < |env.name| && env.name[k] == 'E'
    ensures ReadUnit(env, i) == Got(di.(kind := UnitKind(letter)), k + 1)
  {
    hide ReadUnit, ReadPackageAndNested, ReadFunction, ReadTuple, ReadPointer, ReadRawArray, ReadVArray,
      ReadGenericParameter, ReadPrimitive;
    UnitSelected(env, i);
  }

  lemma NominalIsRead(env: Env, i: nat, letter: char, pkg: Package, names: seq<TypeName>, j: nat, k: nat, rest: string)
    requires CodesAreNoNumbers(env) && CanMangle(env, Nominal(letter, pkg, names))
    requires GoesOn(env.name, i, Text(Nominal(letter, pkg, names)), rest)
    requires j == i + 2 + |PackageText(pkg)| && k == j + |TypeNamesText(names)|
    requires ReadPieces(env, j, true, false) == Got(TypePieces(env, names), k)
    ensures ReadUnit(env, i) == Got(Shown(env, Nominal(letter, pkg, names)), k + 1)
  {
    hide GoesOn, PackageText, TypeNamesText, Text, ReadUnit, ReadPieces, ReadPackage, ReadNested, DeclInfo, TypePieces,
      ShownPackage, CanManglePackage, CanMangleNames, ShownInGroups, LastTypes, LastKind;
    NominalText(letter, pkg, names);
    var package, nested := PackageText(pkg), TypeNamesText(names);
    var head := [letter, 'N'];
    Next(env.name, i, head, package + (nested + "E"), rest);
    Behind(env.name, i, head, package + (nested + "E") + rest);
    assert env.name[i] == head[0] && env.name[i + 1] == head[1];
    Next(env.name, i + 2, package, nested + "E", rest);
    Next(env.name, j, nested, "E", rest);
    First(env.name, k, "E", rest);
    assert nested + "E" + rest == nested + ("E" + rest);
    FirstOfNames(env, names, "E" + rest);
    PackageIsRead(env, i + 2, pkg, nested + "E" + rest);
    NestedNamesAreShownInGroups(env, j, true, false);
    TypesAreShown(env, names);
    var nestedInfo := NestedInfo(TypePieces(env, names), env.scopeResolution);
    NominalRead(env, i, letter, DeclInfo(ShownPackage(env, pkg), nestedInfo), k);
  }

  // ----- lists of types are read back -----

  predicate ListEndsAt(s: string, i: nat) {
    EndsAt(s, i) || IsDigit(s[i])
  }

  /** Where a list of types stands, a type begins, or the list stops. */
  lemma StartOfList(env: Env, i: nat, ts: seq<Type>, rest: string)
    requires CanMangleAll(env, ts) && GoesOn(env.name, i, Texts(ts), rest) && Stops(rest)
    ensures i <= |env.name|
    ensures ts == [] ==> ListEndsAt(env.name, i) && (Closes(rest) ==> EndsAt(env.name, i))
    ensures ts != [] ==> i < |env.name| && IsStart(env.name[i]) && env.name[i] == Text(ts[0])[0]
    ensures ts != [] ==>
      i + |Text(ts[0])| <= |env.name| && GoesOn(env.name, i + |Text(ts[0])|, Texts(ts[1..]), rest) &&
      GoesOn(env.name, i, Text(ts[0]), Texts(ts[1..]) + rest)
  {
    hide GoesOn, Text;
    First(env.name, i, Texts(ts), rest);
    if ts != [] {
      StartOf(env, ts[0]);
      Next(env.name, i, Text(ts[0]), Texts(ts[1..]), rest);
      First(env.name, i, Text(ts[0]), Texts(ts[1..]) + rest);
    }
  }

  lemma ListParts(env: Env, ts: seq<Type>)
    ensures ts == [] ==> |Texts(ts)| == 0 && FullNames(env, ts) == []
    ensures ts != [] ==> |Texts(ts)| == |Text(ts[0])| + |Texts(ts[1..])|
    ensures ts != [] && CanMangleAll(env, ts) ==> CanMangle(env, ts[0]) && CanMangleAll(env, ts[1..])
  {
    hide Text, CanMangle, FullName;
  }

  /**
   * Letters of types that follow each other are never taken for an operator: what follows an operator starts no type.
   */
  lemma NoOperator(env: Env, i: nat, ts: seq<Type>, rest: string)
    requires CanMangleAll(env, ts) && ts != [] && GoesOn(env.name, i, Texts(ts), rest) && Stops(rest)
    ensures !OperatorAt(env.name, i)
  {
    hide GoesOn, Text, Texts, OperatorAt, IsStart, CanMangle;
    StartOfList(env, i, ts, rest);
    StartOf(env, ts[0]);
    if i + 2 < |env.name| && IsLower(env.name[i]) && IsLower(env.name[i + 1]) {
      StartOfList(env, i + 1, ts[1..], rest);
      if |ts| > 1 {
        StartOf(env, ts[1]);
        StartOfList(env, i + 2, ts[1..][1..], rest);
      }
      assert ListEndsAt(env.name, i + 1) || ListEndsAt(env.name, i + 2) || IsStart(env.name[i + 2]);
    }
    OnlyBehindLetters(env.name, i);
  }

  lemma OnlyBehindLetters(s: string, i: nat)
    ensures OperatorAt(s, i) ==>
      i + 2 < |s| && IsLower(s[i]) && IsLower(s[i + 1]) && s[i + 2] in {'I', 'H', 'K'} && !IsStart(s[i + 2])
  {
  }

  /** An open type only stands where the list stops. */
  lemma FollowsOpen(env: Env, ts: seq<Type>, rest: string)
    requires CanMangleAll(env, ts) && ts != [] && Stops(rest)
    ensures IsOpen(ts[0]) ==> Stops(Texts(ts[1..]) + rest)
  {
    if |ts| == 1 {
      assert Texts(ts[1..]) + rest == rest;
    }
  }

  lemma ListsEnd(env: Env, i: nat)
    requires env.Valid() && ListEndsAt(env.name, i)
    ensures ReadGenerics(env, i) == Got([], i) && ReadParameterList(env, i) == Got([], i)
  {
  }

  lemma ListsGoOn(s: string, i: nat)
    requires i < |s| && IsStart(s[i])
    ensures !ParametersEndAt(s, i) && (!OperatorAt(s, i) ==> !GenericsEndAt(s, i))
  {
    hide OperatorAt;
  }

  lemma GenericsStep(env: Env, i: nat, ts: seq<Type>, j: nat, k: nat)
    requires env.Valid() && ts != [] && !GenericsEndAt(env.name, i)
    requires ReadUnit(env, i) == Got(Shown(env, ts[0]), j) && ReadGenerics(env, j) == Got(FullNames(env, ts[1..]), k)
    ensures ReadGenerics(env, i) == Got(FullNames(env, ts), k)
  {
    hide ReadUnit, Shown, GenericsEndAt, DemangleInfo.GetFullName;
  }

  lemma ParametersStep(env: Env, i: nat, ts: seq<Type>, j: nat, k: nat)
    requires env.Valid() && ts != [] && !ParametersEndAt(env.name, i)
    requires ReadUnit(env, i) == Got(Shown(env, ts[0]), j) &&
      ReadParameterList(env, j) == Got(FullNames(env, ts[1..]), k)
    ensures ReadParameterList(env, i) == Got(FullNames(env, ts), k)
  {
    hide ReadUnit, Shown, ParametersEndAt, DemangleInfo.GetFullName;
  }

  lemma ArgsStep(env: Env, i: nat, ts: seq<Type>, size: nat, j: nat, k: nat)
    requires env.Valid() && ts != [] && i < |env.name| && IsStart(env.name[i]) && size > 0
    requires ReadUnit(env, i) == Got(Shown(env, ts[0]), j)
    requires ReadArgList(env, j, size - 1) == Got(FullNames(env, ts[1..]), k)
    ensures ReadArgList(env, i, size) == Got(FullNames(env, ts), k)
  {
    hide ReadUnit, Shown, ReadArgList, DemangleInfo.GetFullName;
    ArgListStep(env, i, size);
  }

  // The texts of composed types, taken apart.

  lemma PointerText(to: Type)
    ensures Text(Pointer(to)) == "P" + Text(to) && |Text(Pointer(to))| == 1 + |Text(to)|
  {
  }

  lemma RawArrayText(dimension: nat, element: Type)
    ensures Text(RawArray(dimension, element)) == "A" + (NumberText(dimension) + Text(element))
    ensures |Text(RawArray(dimension, element))| == 1 + |NumberText(dimension)| + |Text(element)|
  {
    hide NumberText;
  }

  lemma VArrayText(size: nat, elements: seq<Type>)
    ensures Text(VArray(size, elements)) == "V" + (NumberText(size) + Texts(elements))
    ensures |Text(VArray(size, elements))| == 1 + |NumberText(size)| + |Texts(elements)|
  {
    hide NumberText, Texts;
  }

  lemma TupleText(elements: seq<Type>)
    ensures Text(Tuple(elements)) == "T" + (NumberText(|elements|) + (Texts(elements) + "E"))
    ensures |Text(Tuple(elements))| == 1 + |NumberText(|elements|)| + |Texts(elements)| + 1
  {
    hide NumberText, Texts;
  }

  lemma FunctionText(isC: bool, result: Type, parameters: seq<Type>)
    ensures Text(Function(isC, result, parameters)) ==
            (if isC then "FC" else "F0") + (Text(result) + (Texts(parameters) + "E"))
    ensures |Text(Function(isC, result, parameters))| == 2 + |Text(result)| + |Texts(parameters)| + 1
  {
    hide Texts;
  }

  lemma NominalText(letter: char, pkg: Package, names: seq<TypeName>)
    ensures Text(Nominal(letter, pkg, names)) == [letter, 'N'] + (PackageText(pkg) + (TypeNamesText(names) + "E"))
    ensures |Text(Nominal(letter, pkg, names))| == 2 + |PackageText(pkg)| + |TypeNamesText(names)| + 1
  {
    hide PackageText, TypeNamesText;
  }

  /** Reading the text of a type finds just that type, and what is shown for it. */
  lemma {:induction false} UnitIsRead(env: Env, i: nat, t: Type, rest: string)
    requires CodesAreNoNumbers(env) && CanMangle(env, t) && GoesOn(env.name, i, Text(t), rest)
    requires IsOpen(t) ==> Stops(rest)
    ensures ReadUnit(env, i) == Got(Shown(env, t), i + |Text(t)|)
    decreases t, 1
  {
    hide GoesOn, ReadUnit, Text, Shown;
    match t
    case Primitive(_) => LeafIsRead(env, i, t, rest);
    case Float16 => LeafIsRead(env, i, t, rest);
    case CString => LeafIsRead(env, i, t, rest);
    case Parameter(_) => ParameterOfText(env, i, t, rest);
    case Pointer(_) => PointerOfReadType(env, i, t, rest);
    case RawArray(_, _) => RawArrayOfReadType(env, i, t, rest);
    case VArray(_, _) => VArrayOfReadTypes(env, i, t, rest);
    case Tuple(_) => TupleOfReadTypes(env, i, t, rest);
    case Function(_, _, _) => FunctionOfReadTypes(env, i, t, rest);
    case Nominal(_, _, _) => NominalOfReadTypes(env, i, t, rest);
  }

  lemma {:induction false} PointerOfReadType(env: Env, i: nat, t: Type, rest: string)
    requires CodesAreNoNumbers(env) && CanMangle(env, t) && GoesOn(env.name, i, Text(t), rest) && t.Pointer?
    requires IsOpen(t) ==> Stops(rest)
    ensures ReadUnit(env, i) == Got(Shown(env, t), i + |Text(t)|)
    decreases t, 0
  {
    hide GoesOn, ReadUnit, Shown, Text;
    PointerText(t.to);
    Next(env.name, i, "P", Text(t.to), rest);
    UnitIsRead(env, i + 1, t.to, rest);
    PointerIsRead(env, i, t.to, i + 1 + |Text(t.to)|, rest);
  }

  lemma {:induction false} RawArrayOfReadType(env: Env, i: nat, t: Type, rest: string)
    requires CodesAreNoNumbers(env) && CanMangle(env, t) && GoesOn(env.name, i, Text(t), rest) && t.RawArray?
    requires IsOpen(t) ==> Stops(rest)
    ensures ReadUnit(env, i) == Got(Shown(env, t), i + |Text(t)|)
    decreases t, 0
  {
    hide GoesOn, ReadUnit, NumberText, Text, Shown;
    var number := NumberText(t.dimension);
    RawArrayText(t.dimension, t.element);
    BehindNumber(env.name, i, "A", number, Text(t.element), rest);
    UnitIsRead(env, i + 1 + |number|, t.element, rest);
    RawArrayIsRead(env, i, t.dimension, t.element, i + 1 + |number| + |Text(t.element)|, rest);
  }

  lemma {:induction false} VArrayOfReadTypes(env: Env, i: nat, t: Type, rest: string)
    requires CodesAreNoNumbers(env) && CanMangle(env, t) && GoesOn(env.name, i, Text(t), rest) && t.VArray?
    requires Stops(rest)
    ensures ReadUnit(env, i) == Got(Shown(env, t), i + |Text(t)|)
    decreases t, 0
  {
    hide GoesOn, ReadUnit, ReadGenerics, NumberText, Text, Texts, Shown, CanMangleAll;
    var number, types := NumberText(t.size), Texts(t.elements);
    VArrayText(t.size, t.elements);
    BehindNumber(env.name, i, "V", number, types, rest);
    GenericsAreRead(env, i + 1 + |number|, t.elements, rest);
    VArrayIsRead(env, i, t.size, t.elements, i + 1 + |number| + |types|, rest);
  }

  lemma {:induction false} TupleOfReadTypes(env: Env, i: nat, t: Type, rest: string)
    requires CodesAreNoNumbers(env) && CanMangle(env, t) && GoesOn(env.name, i, Text(t), rest) && t.Tuple?
    ensures ReadUnit(env, i) == Got(Shown(env, t), i + |Text(t)|)
    decreases t, 0
  {
    hide GoesOn, ReadUnit, ReadGenerics, NumberText, Text, Texts, Shown, CanMangleAll;
    var number, types := NumberText(|t.elements|), Texts(t.elements);
    TupleText(t.elements);
    BehindNumber(env.name, i, "T", number, types + "E", rest);
    Next(env.name, i + 1 + |number|, types, "E", rest);
    GenericsAreRead(env, i + 1 + |number|, t.elements, "E" + rest);
    TupleIsRead(env, i, t.elements, i + 1 + |number| + |types|, rest);
  }

  lemma {:induction false} FunctionOfReadTypes(env: Env, i: nat, t: Type, rest: string)
    requires CodesAreNoNumbers(env) && CanMangle(env, t) && GoesOn(env.name, i, Text(t), rest) && t.Function?
    ensures ReadUnit(env, i) == Got(Shown(env, t), i + |Text(t)|)
    decreases t, 0
  {
    hide GoesOn, ReadUnit, ReadArgs, Text, Texts, Shown, CanMangleAll;
    FunctionText(t.isC, t.result, t.parameters);
    var prefix, types := if t.isC then "FC" else "F0", Texts(t.parameters);
    var j := i + 2 + |Text(t.result)|;
    Next(env.name, i, prefix, Text(t.result) + (types + "E"), rest);
    Next(env.name, i + 2, Text(t.result), types + "E", rest);
    Next(env.name, j, types, "E", rest);
    if t.parameters == [] {
      assert types == "" && types + "E" + rest == "E" + rest by { NoTypes(); }
    }
    UnitIsRead(env, i + 2, t.result, types + "E" + rest);
    ArgsAreRead(env, j, t.parameters, "E" + rest, UINT32_MAX);
    FunctionIsRead(env, i, t.isC, t.result, t.parameters, j, j + |types|, rest);
  }

  lemma NoTypes()
    ensures Texts([]) == ""
  {
  }

  lemma {:induction false} NominalOfReadTypes(env: Env, i: nat, t: Type, rest: string)
    requires CodesAreNoNumbers(env) && CanMangle(env, t) && GoesOn(env.name, i, Text(t), rest) && t.Nominal?
    ensures ReadUnit(env, i) == Got(Shown(env, t), i + |Text(t)|)
    decreases t, 0
  {
    hide GoesOn, ReadUnit, ReadPieces, PackageText, CanManglePackage, TypeNamesText, Text, Shown, CanMangleNames;
    NominalText(t.letter, t.pkg, t.names);
    var package, nested := PackageText(t.pkg), TypeNamesText(t.names);
    var j := i + 2 + |package|;
    Next(env.name, i, [t.letter, 'N'], package + (nested + "E"), rest);
    Next(env.name, i + 2, package, nested + "E", rest);
    Next(env.name, j, nested, "E", rest);
    TypeNamesAreRead(env, j, t.names, rest);
    NominalIsRead(env, i, t.letter, t.pkg, t.names, j, j + |nested|, rest);
  }

  lemma NamesParts(env: Env, names: seq<TypeName>)
    requires names != [] && CanMangleNames(env, names)
    ensures var name, types, more :=
        NameText(names[0].name), ArgumentsText(names[0].arguments), TypeNamesText(names[1..]);
      && TypeNamesText(names) == name + (types + more) && |TypeNamesText(names)| == |name| + |types| + |more|
    ensures IsIdentifier(names[0].name) && CanMangleAll(env, names[0].arguments) && CanMangleNames(env, names[1..])
    ensures TypePieces(env, names) == [TypePieces(env, [names[0]])[0]] + TypePieces(env, names[1..])
  {
    hide NameText, ArgumentsText, IsIdentifier, CanMangleAll, Bare, ShownArguments;
  }

  lemma StopsAtName(text: string)
    requires text != "" && (text[0] == 'E' || IsDigit(text[0]))
    ensures Stops(text)
  {
  }

  /** The nested names of a type are read one after another, each with its arguments. */
  lemma {:induction false} TypeNamesAreRead(env: Env, i: nat, names: seq<TypeName>, rest: string)
    requires CodesAreNoNumbers(env) && CanMangleNames(env, names) && names != []
    requires GoesOn(env.name, i, TypeNamesText(names), "E" + rest)
    ensures ReadPieces(env, i, true, false) == Got(TypePieces(env, names), i + |TypeNamesText(names)|)
    decreases names, 0
  {
    hide GoesOn, ReadPieces, ReadPiece, ReadGenerics, NameText, TypeNamesText, Texts, TypePieces, CanMangleAll,
      CanMangleNames, IsIdentifier, Stops, EndsAt, FullNames;
    var name, text, types := names[0], NameText(names[0].name), ArgumentsText(names[0].arguments);
    var more, after := TypeNamesText(names[1..]), "E" + rest;
    var j, k := i + |text|, i + |text| + |types|;
    NamesParts(env, names);
    FirstOfNames(env, names[1..], after);
    StopsAtName(more + after);
    Next(env.name, i, text, types + more, after);
    Next(env.name, j, types, more, after);
    assert types + more + after == types + (more + after);
    if name.arguments != [] {
      Next(env.name, j, "I", Texts(name.arguments), more + after);
      GenericsAreRead(env, j + 1, name.arguments, more + after);
    }
    TypeNameIsRead(env, i, name, more + after, k);
    PiecesStep(env, i, true, false);
    if |names| == 1 {
      NoNames(env, names[1..]);
      First(env.name, k, more, after);
      EndMark(env.name, k);
      PiecesStep(env, k, true, false);
    } else {
      TypeNamesAreRead(env, k, names[1..], rest);
    }
  }

  lemma NoNames(env: Env, names: seq<TypeName>)
    requires names == []
    ensures TypeNamesText(names) == "" && TypePieces(env, names) == []
  {
  }

  lemma EndMark(s: string, i: nat)
    requires i < |s| && s[i] == 'E'
    ensures EndsAt(s, i)
  {
  }

  lemma {:induction false} GenericsAreRead(env: Env, i: nat, ts: seq<Type>, rest: string)
    requires CodesAreNoNumbers(env) && CanMangleAll(env, ts) && GoesOn(env.name, i, Texts(ts), rest) && Stops(rest)
    ensures ReadGenerics(env, i) == Got(FullNames(env, ts), i + |Texts(ts)|)
    decreases ts, 0
  {
    hide GoesOn, ReadUnit, ReadGenerics, Text, Texts, Shown, FullNames, CanMangle, CanMangleAll, OperatorAt, EndsAt,
      GenericsEndAt, IsStart, Stops;
    StartOfList(env, i, ts, rest);
    ListParts(env, ts);
    if ts == [] {
      ListsEnd(env, i);
    } else {
      ListsGoOn(env.name, i);
      var j := i + |Text(ts[0])|;
      NoOperator(env, i, ts, rest);
      FollowsOpen(env, ts, rest);
      UnitIsRead(env, i, ts[0], Texts(ts[1..]) + rest);
      GenericsAreRead(env, j, ts[1..], rest);
      GenericsStep(env, i, ts, j, j + |Texts(ts[1..])|);
    }
  }

  lemma {:induction false} ParametersAreRead(env: Env, i: nat, ts: seq<Type>, rest: string)
    requires CodesAreNoNumbers(env) && CanMangleAll(env, ts) && GoesOn(env.name, i, Texts(ts), rest) && Stops(rest)
    ensures ReadParameterList(env, i) == Got(FullNames(env, ts), i + |Texts(ts)|)
    decreases ts, 0
  {
    hide GoesOn, ReadUnit, ReadParameterList, Text, Texts, Shown, FullNames, CanMangle, CanMangleAll, EndsAt,
      ParametersEndAt, IsStart, OperatorAt, Stops;
    StartOfList(env, i, ts, rest);
    ListParts(env, ts);
    if ts == [] {
      ListsEnd(env, i);
    } else {
      ListsGoOn(env.name, i);
      var j := i + |Text(ts[0])|;
      FollowsOpen(env, ts, rest);
      UnitIsRead(env, i, ts[0], Texts(ts[1..]) + rest);
      ParametersAreRead(env, j, ts[1..], rest);
      ParametersStep(env, i, ts, j, j + |Texts(ts[1..])|);
    }
  }

  lemma {:induction false} ArgListIsRead(env: Env, i: nat, ts: seq<Type>, rest: string, size: nat)
    requires CodesAreNoNumbers(env) && CanMangleAll(env, ts) && GoesOn(env.name, i, Texts(ts), rest) && Closes(rest)
    requires |ts| <= size
    ensures ReadArgList(env, i, size) == Got(FullNames(env, ts), i + |Texts(ts)|)
    decreases ts, 0
  {
    hide GoesOn, ReadUnit, Text, Texts, Shown, FullNames, CanMangle, CanMangleAll, ReadArgList, EndsAt, IsStart, SkipAt;
    StartOfList(env, i, ts, rest);
    ListParts(env, ts);
    if ts == [] {
      ArgListStep(env, i, size);
    } else {
      var j := i + |Text(ts[0])|;
      FollowsOpen(env, ts, rest);
      UnitIsRead(env, i, ts[0], Texts(ts[1..]) + rest);
      ArgListIsRead(env, j, ts[1..], rest, size - 1);
      ArgsStep(env, i, ts, size, j, j + |Texts(ts[1..])|);
    }
  }

  lemma {:induction false} ArgsAreRead(env: Env, i: nat, ts: seq<Type>, rest: string, size: nat)
    requires CodesAreNoNumbers(env) && CanMangleAll(env, ts) && GoesOn(env.name, i, Texts(ts), rest) && Closes(rest)
    requires |ts| <= size
    ensures ReadArgs(env, i, size) == Got(FullNames(env, ts), i + |Texts(ts)|)
    decreases ts, 1
  {
    hide GoesOn, Text, Texts, FullNames, ReadArgList;
    StartOfList(env, i, ts, rest);
    ArgListIsRead(env, i, ts, rest, size);
  }

  // ----- whole types -----

  lemma WholeText(s: string)
    ensures GoesOn(s, 0, s, "")
  {
    assert s[0..] == s && s + "" == s;
  }

  /** Reading a whole type finds just that type, and what is shown for it. */
  lemma TypeIsRead(env: Env, t: Type)
    requires CodesAreNoNumbers(env) && CanMangle(env, t) && env.name == Text(t)
    ensures QualifiedTypeAt(env.name, 0) && ReadUnit(env, 0) == Got(Shown(env, t), |env.name|)
  {
    WholeText(env.name);
    QualifiedAtStart(env, 0, t, "");
    UnitIsRead(env, 0, t, "");
  }
}
