/**
 * The demangler: a recursive-descent parser over a mangled name with one cursor and one validity flag.
 *
 * A failure moves the cursor to the end and clears the flag. Every parser method keeps the cursor in range, never moves
 * it back, and lets a failed parse stay failed, although the reader of lengths writes the flag in both directions. A
 * parse that has not failed finds just what the readings of the name say, or fails where they do.
 */
module Demanglers {
  import opened MangledTexts
  import opened MangledReadings
  import opened Wrappers

  // ----- the parser -----

  class Demangler {
    var mangledName: string
    var currentIndex: nat
    var isValid: bool
    /** What a failed parse reports. */
    const dumpDi: DemangleInfo
    const scopeResolution: string
    const genericTypefilter: string -> string
    const genericVec: seq<string>
    /** The two-letter codes of the standard packages. */
    const stdPackages: map<string, string>

    constructor (mangled: string, stripUnderscore: bool, scopeRes: string, genericParamFilter: string -> string,
                 genericVec: seq<string>, stdPackages: map<string, string>)
      requires forall code :: code in stdPackages ==> |code| == 2
      ensures mangledName == (if stripUnderscore && mangled != "" && mangled[0] == '_' then mangled[1..] else mangled)
      ensures Valid() && currentIndex == 0 && isValid
    {
      var name := if stripUnderscore && mangled != "" && mangled[0] == '_' then mangled[1..] else mangled;
      mangledName, dumpDi := name, Info(name, NAME, false);
      currentIndex, isValid := 0, true;
      scopeResolution, genericTypefilter := scopeRes, genericParamFilter;
      this.genericVec, this.stdPackages := genericVec, stdPackages;
    }

    /** The cursor is in range. */
    predicate InRange()
      reads this
    {
      && currentIndex <= |mangledName|
      && !dumpDi.isValid && forall code :: code in stdPackages ==> |code| == 2
    }

    /** The cursor is in range, and a failed parse has it at the end. */
    predicate Valid()
      reads this
    {
      InRange() && (!isValid ==> currentIndex == |mangledName|)
    }

    /**
     * What every parser method does: the cursor does not move back, the name stays, and a failed parse stays failed.
     */
    twostate predicate Proceeds()
      reads this
    {
      && InRange() && mangledName == old(mangledName)
      && old(currentIndex) <= currentIndex
      && (!old(isValid) ==> !isValid)
    }

    /** The name that is read and what the parser was told, as the readings take them. */
    function TheEnv(): Env
      reads this
    {
      Env(mangledName, scopeResolution, genericTypefilter, genericVec, stdPackages)
    }

    /** The parse and its answer are what a reading says. */
    ghost predicate Agrees<T>(r: Reading<T>, value: T)
      reads this
    {
      (isValid <==> r.Got?) && (isValid ==> value == r.value && currentIndex == r.next)
    }

    ghost predicate AgreesOnPlace(r: Option<nat>)
      reads this
    {
      (isValid <==> r.Some?) && (isValid ==> currentIndex == r.value)
    }

    /** The answer shows the names that a reading says, with a delimiter between them. */
    ghost predicate AgreesJoined(r: Reading<seq<string>>, shown: string, delimiter: string)
      reads this
    {
      (isValid <==> r.Got?) && (isValid ==> shown == Joined(r.value, delimiter) && currentIndex == r.next)
    }

    function Left(): nat
      requires InRange()
      reads this
    {
      |mangledName| - currentIndex
    }

    /** The character at the cursor; a string ends in a null character. */
    function Cur(): char
      requires InRange()
      reads this
    {
      CharAt(mangledName, currentIndex)
    }

    predicate AtEnd()
      reads this
    {
      currentIndex >= |mangledName|
    }

    predicate IsNotEndOfMangledName()
      reads this
    {
      !EndsAt(mangledName, currentIndex)
    }

    predicate MatchForward(pattern: string)
      requires InRange()
      reads this
    {
      SubStr(mangledName, currentIndex, |pattern|) == pattern
    }

    predicate IsProp()
      requires InRange()
      reads this
    {
      currentIndex + 1 < |mangledName| && SubStr(mangledName, currentIndex, 2) in {"ps", "pg"}
    }

    predicate IsOperatorName()
      reads this
    {
      OperatorAt(mangledName, currentIndex)
    }

    predicate IsQualifiedType()
      reads this
    {
      QualifiedTypeAt(mangledName, currentIndex)
    }

    predicate IsMaybeDefaultFuncParamFunction()
      reads this
    {
      !AtEnd() && mangledName[currentIndex] == '$'
    }

    method Reject() returns (r: DemangleInfo)
      requires InRange()
      modifies this`currentIndex, this`isValid
      ensures Valid() && Proceeds() && !isValid && r == dumpDi
    {
      r := dumpDi;
      if currentIndex == |mangledName| && !isValid {
        return;
      }
      isValid := false;
      currentIndex := |mangledName|;
    }

    method SkipChar(c: char)
      requires Valid()
      modifies this`currentIndex, this`isValid
      ensures Valid() && Proceeds()
      ensures !old(AtEnd()) ==> old(currentIndex) < currentIndex
      ensures isValid <==> old(isValid) && !old(AtEnd()) && old(mangledName)[old(currentIndex)] == c
      ensures isValid ==> currentIndex == old(currentIndex) + 1
    {
      if AtEnd() || mangledName[currentIndex] != c {
        var _ := Reject();
        return;
      }
      currentIndex := currentIndex + 1;
    }

    method SkipOptionalChar(c: char)
      requires Valid()
      modifies this`currentIndex
      requires c != '\0'
      ensures Valid() && Proceeds() && isValid == old(isValid)
      ensures currentIndex == SkipAt(mangledName, old(currentIndex), c)
    {
      if !AtEnd() && mangledName[currentIndex] == c {
        currentIndex := currentIndex + 1;
      }
    }

    method SkipString(pattern: string)
      requires Valid()
      modifies this`currentIndex, this`isValid
      ensures Valid() && Proceeds()
      ensures pattern != "" && !old(AtEnd()) ==> old(currentIndex) < currentIndex
      ensures isValid <==> old(isValid) && StandsAt(mangledName, old(currentIndex), pattern)
      ensures isValid ==> currentIndex == old(currentIndex) + |pattern|
    {
      hide StandsAt, StandsSoFar;
      var i := 0;
      ghost var name, start := mangledName, currentIndex;
      StandsSoFarStart(name, start, pattern);
      while i < |pattern|
        invariant 0 <= i <= |pattern|
        invariant Valid() && Proceeds() && mangledName == name && StandsSoFar(name, start, pattern, i)
        invariant i > 0 ==> isValid && currentIndex == start + i
        invariant i == 0 ==> currentIndex == start && isValid == old(isValid)
      {
        StandsSoFarStep(name, start, pattern, i);
        SkipChar(pattern[i]);
        if !isValid {
          return;
        }
        i := i + 1;
      }
      StandsSoFarStep(name, start, pattern, i);
    }

    /** Reads a decimal length; one that does not fit is 0. Without digits the flag is cleared, but the cursor stays. */
    method DemangleLength() returns (n: nat)
      requires Valid()
      modifies this`currentIndex, this`isValid
      ensures Proceeds() && n <= UINT32_MAX
      ensures isValid ==> Valid() && old(currentIndex) < currentIndex
      ensures (!isValid ==> n == 0) && (!old(isValid) ==> Valid())
      ensures old(isValid) ==> Agrees(ReadLength(mangledName, old(currentIndex)), n)
    {
      hide Digits, DecimalValue;
      if AtEnd() {
        var _ := Reject();
        return 0;
      }
      if mangledName[currentIndex] == '0' {
        currentIndex := currentIndex + 1;
        return 0;
      }
      var numStr := "";
      isValid := false;
      ghost var rest := mangledName[currentIndex..];
      while !AtEnd() && IsDigit(mangledName[currentIndex])
        invariant old(currentIndex) <= currentIndex <= |mangledName|
        invariant numStr == mangledName[old(currentIndex)..currentIndex]
        invariant forall k :: 0 <= k < |numStr| ==> IsDigit(numStr[k])
        invariant isValid <==> numStr != ""
        decreases |mangledName| - currentIndex
      {
        SliceGrows(mangledName, old(currentIndex), currentIndex, numStr);
        numStr := numStr + [mangledName[currentIndex]];
        currentIndex := currentIndex + 1;
        isValid := true;
      }
      DigitsAre(rest, numStr);
      if numStr != "" {
        DigitsStart(rest);
      }
      // An empty or too large number does not convert.
      n := if numStr == "" || DecimalValue(numStr) > UINT32_MAX then 0 else DecimalValue(numStr);
    }

    /** Reads a base 62 number, which ends in an underscore; the underscore alone is 0, and any digits count from 1. */
    method DemangleManglingNumber() returns (n: nat)
      requires Valid()
      modifies this`currentIndex, this`isValid
      ensures Valid() && Proceeds() && n < SIZE_RANGE
      ensures !old(AtEnd()) ==> old(currentIndex) < currentIndex
      ensures old(isValid) ==> Agrees(ReadNumber(mangledName, old(currentIndex)), n)
    {
      hide ReadNumber, ManglingNumber, IsBase62, IsSlice, Find;
      ghost var start := currentIndex;
      var content := "";
      SliceStarts(mangledName, currentIndex);
      while true
        invariant Valid() && start == old(currentIndex) <= currentIndex
        invariant isValid == old(isValid) && mangledName == old(mangledName)
        invariant IsSlice(mangledName, start, currentIndex, content)
        invariant Find(mangledName, "_", start) == Find(mangledName, "_", currentIndex)
        decreases |mangledName| - currentIndex
      {
        NumberScanned(mangledName, start, currentIndex, content);
        FindStep(mangledName, '_', currentIndex);
        SliceGrows(mangledName, start, currentIndex, content);
        if AtEnd() {
          var _ := Reject();
          return 0;
        }
        var c := mangledName[currentIndex];
        currentIndex := currentIndex + 1;
        if c == MANGLE_UNDERSCORE_PREFIX {
          break;
        }
        content := content + [c];
      }
      if content == "" {
        NoDigits();
        return 0;
      }
      var ok, value := ReadBase62(content);
      if !ok {
        var _ := Reject();
        return 0;
      }
      n := (value + 1) % SIZE_RANGE;
      NumberIs(content, value);
    }

    method DemangleFileNameNumber()
      requires Valid()
      modifies this`currentIndex, this`isValid
      ensures Valid() && Proceeds()
      ensures old(isValid) ==> AgreesOnPlace(FileHashEnd(mangledName, old(currentIndex)))
    {
      hide FileHashEnd, IsBase62, IsSlice, Find;
      ghost var start := currentIndex;
      var content := "";
      SliceStarts(mangledName, currentIndex);
      while |content| < FILE_HASH_LEN
        invariant Valid() && start == old(currentIndex) <= currentIndex
        invariant isValid == old(isValid) && mangledName == old(mangledName)
        invariant IsSlice(mangledName, start, currentIndex, content) && |content| <= FILE_HASH_LEN
        invariant Find(mangledName, "$", start) == Find(mangledName, "$", currentIndex)
      {
        HashScanned(mangledName, start, currentIndex, content);
        FindStep(mangledName, '$', currentIndex);
        SliceGrows(mangledName, start, currentIndex, content);
        if AtEnd() {
          var _ := Reject();
          return;
        }
        var c := mangledName[currentIndex];
        currentIndex := currentIndex + 1;
        if c == MANGLE_END {
          return;
        }
        content := content + [c];
      }
      HashScanned(mangledName, start, currentIndex, content);
      if !IsBase62(content) {
        var _ := Reject();
      }
    }

    predicate IsFileName()
      reads this
    {
      FileNameAt(mangledName, currentIndex)
    }

    method DemangleFileName()
      requires Valid() && IsFileName()
      modifies this`currentIndex, this`isValid
      ensures Valid() && Proceeds()
      ensures old(isValid) ==> AgreesOnPlace(FileNameEnd(mangledName, old(currentIndex)))
    {
      hide FileHashEnd;
      SkipChar(MANGLE_FILE_ID_PREFIX);
      DemangleFileNameNumber();
    }

    method SkipLocalCounter()
      requires Valid()
      modifies this`currentIndex, this`isValid
      ensures Valid() && Proceeds()
      ensures old(isValid) ==> AgreesOnPlace(CounterEnd(mangledName, old(currentIndex)))
    {
      hide ReadNumber;
      if AtEnd() || mangledName[currentIndex] != MANGLE_COUNT_PREFIX {
        return;
      }
      SkipChar(MANGLE_COUNT_PREFIX);
      var _ := DemangleManglingNumber();
    }

    /** A name is its length, not zero, and then as many characters. */
    method DemangleStringName() returns (name: string)
      requires Valid()
      modifies this`currentIndex, this`isValid
      ensures Valid() && Proceeds()
      ensures old(isValid) ==> Agrees(ReadName(mangledName, old(currentIndex)), name)
    {
      hide ReadLength, Digits, DecimalValue;
      var identifyLength := DemangleLength();
      if identifyLength == 0 || identifyLength > |mangledName| - currentIndex {
        var _ := Reject();
        return "";
      }
      name := SubStr(mangledName, currentIndex, identifyLength);
      currentIndex := currentIndex + identifyLength;
    }

    method DemangleProp() returns (prop: string)
      requires Valid() && IsProp()
      modifies this`currentIndex
      ensures Valid() && Proceeds() && isValid == old(isValid) && currentIndex == old(currentIndex) + 2
      ensures prop == if mangledName[old(currentIndex)..old(currentIndex) + 2] == "ps" then "::set" else "::get"
    {
      prop := if SubStr(mangledName, currentIndex, 2) == "ps" then "::set" else "::get";
      currentIndex := currentIndex + 2;
    }

    method DemanglePackageName() returns (di: DemangleInfo)
      requires Valid()
      modifies this`currentIndex, this`isValid
      ensures Valid() && Proceeds()
      ensures !old(AtEnd()) ==> old(currentIndex) < currentIndex
      ensures old(isValid) ==> Agrees(ReadPackage(TheEnv(), old(currentIndex)), di)
    {
      hide ReadName, FileNameEnd, Find, Digits, DecimalValue, ReplaceChar;
      di := Info("", COMMON_DECL);
      if AtEnd() {
        var _ := Reject();
        return;
      }
      var pkg := "";
      var code := SubStr(mangledName, currentIndex, 2);
      if code in stdPackages {
        pkg := stdPackages[code];
        currentIndex := currentIndex + 2;
      } else if !IsDigit(mangledName[currentIndex]) {
        var _ := Reject();
        return;
      }
      if Cur() == '0' {
        currentIndex := currentIndex + 1;
        return;
      }
      if pkg == "" {
        pkg := DemangleStringName();
        var pos := Find(pkg, ":", 0);
        if pos > -1 && |pkg| - pos > 1 {
          pkg := pkg[..pos] + ":" + pkg[pos..];
        }
      }
      if IsFileName() {
        di := di.(isPrivateDeclaration := true);
        DemangleFileName();
      }
      di := di.(pkgName := ReplaceChar(pkg, '$', "/"));
    }

    // Units. Every unit method is called with the cursor on the character that selects it.

    /** One unit: some characters are consumed, or the parse has failed. */
    method DemangleNextUnit() returns (di: DemangleInfo)
      requires Valid()
      modifies this`currentIndex, this`isValid
      ensures Valid() && Proceeds() && di.isValid == isValid && (isValid ==> old(currentIndex) < currentIndex)
      ensures old(isValid) ==> Agrees(ReadUnit(TheEnv(), old(currentIndex)), di)
      decreases Left(), 3
    {
      hide ReadUnit;
      di := DemangleByPrefix();
      if !isValid {
        di := Reject();
      }
    }

    method DemangleByPrefix() returns (di: DemangleInfo)
      requires Valid()
      modifies this`currentIndex, this`isValid
      ensures Proceeds() && (isValid ==> di.isValid && old(currentIndex) < currentIndex)
      ensures old(isValid) ==> Agrees(ReadUnit(TheEnv(), old(currentIndex)), di)
      decreases Left(), 2
    {
      hide ReadUnit, ReadClass, ReadFunction, ReadTuple, ReadPointer, ReadRawArray, ReadVArray, ReadGenericParameter,
        ReadName, ReadPrimitive, PrimitiveName, OperatorName;
      UnitNotSelected(TheEnv(), currentIndex);
      if AtEnd() {
        di := Reject();
        return;
      }
      UnitSelected(TheEnv(), currentIndex);
      var c := mangledName[currentIndex];
      match c {
        case 'C' => di := DemangleClass(CLASS);
        case 'R' => di := DemangleClass(STRUCT);
        case 'N' => di := DemangleClass(ENUM);
        case 'F' =>
          TwoStandAt(mangledName, currentIndex, 'F', '0');
          TwoStandAt(mangledName, currentIndex, 'F', 'C');
          if currentIndex + 1 < |mangledName| && mangledName[currentIndex + 1] == '0' {
            di := DemangleFunction("F0");
          } else if currentIndex + 1 < |mangledName| && mangledName[currentIndex + 1] == 'C' {
            di := DemangleFunction("FC");
          } else {
            di := Reject();
          }
        case 'T' => di := DemangleTuple();
        case 'P' => di := DemangleCPointer();
        case 'A' => di := DemangleRawArray();
        case 'V' => di := DemangleVArray();
        case 'k' => di := DemangleCStringType();
        case 'G' => di := DemangleGenericType();
        case _ =>
          if IsDigit(c) {
            var name := DemangleStringName();
            di := Info(name, NAME, isValid);
          } else if PrimitiveName(c) != "" {
            di := DemanglePrimitive();
          } else if c != '_' && IsOperatorName() {
            di := Info(OperatorName(SubStr(mangledName, currentIndex, 2)), NAME, isValid);
            currentIndex := currentIndex + 2;
          } else {
            di := Reject();
          }
      }
    }

    method DemangleClass(typeKind: TypeKind) returns (di: DemangleInfo)
      requires Valid() && !AtEnd()
      modifies this`currentIndex, this`isValid
      ensures Valid() && Proceeds() && (isValid ==> di.isValid) && old(currentIndex) < currentIndex
      ensures old(isValid) ==> Agrees(ReadClass(TheEnv(), old(currentIndex), typeKind), di)
      decreases Left(), 1
    {
      hide ReadCommonDecl;
      currentIndex := currentIndex + 1;
      di := DemangleCommonDecl(true);
      di := di.(kind := typeKind);
      if !AtEnd() && mangledName[currentIndex] == END {
        SkipChar(END);
      }
    }

    /** A function type or C function type: its prefix, the result type, the parameter types and the end mark. */
    method DemangleFunction(prefix: string) returns (di: DemangleInfo)
      requires Valid() && |prefix| == 2 && prefix[0] == 'F' && prefix[1] in {'0', 'C'}
      requires StandsAt(mangledName, currentIndex, prefix)
      modifies this`currentIndex, this`isValid
      ensures Valid() && Proceeds() && di.isValid && old(currentIndex) < currentIndex
      ensures old(isValid) ==> Agrees(ReadFunction(TheEnv(), old(currentIndex)), di)
      decreases Left(), 1
    {
      hide ReadUnit, ReadArgs, Joined, DemangleInfo.GetFullName;
      SkipString(prefix);
      var ret := DemangleNextUnit();
      di := Info(ret.GetFullName(scopeResolution), FUNCTION);
      var args := DemangleArgTypes(ARGS_DELIMITER, UINT32_MAX);
      di := di.(args := args);
      SkipChar(END);
    }

    method DemangleTuple() returns (di: DemangleInfo)
      requires Valid() && !AtEnd() && mangledName[currentIndex] == 'T'
      modifies this`currentIndex, this`isValid
      ensures Valid() && Proceeds() && di.isValid && old(currentIndex) < currentIndex
      ensures old(isValid) ==> Agrees(ReadTuple(TheEnv(), old(currentIndex)), di)
      decreases Left(), 1
    {
      hide ReadNumber, ReadGenerics, TypesInfo, DemangleInfo.GetFullName;
      SkipChar('T');
      var _ := DemangleManglingNumber();
      var generic := DemangleGenericTypes();
      di := Info("Tuple", TUPLE).(genericTypes := genericTypefilter(generic.GetFullName(scopeResolution)));
      SkipChar(END);
    }

    method DemangleRawArray() returns (di: DemangleInfo)
      requires Valid() && !AtEnd() && mangledName[currentIndex] == 'A'
      modifies this`currentIndex, this`isValid
      ensures Valid() && Proceeds() && di.isValid && old(currentIndex) < currentIndex
      ensures old(isValid) ==> Agrees(ReadRawArray(TheEnv(), old(currentIndex)), di)
      decreases Left(), 1
    {
      hide ReadNumber, ReadUnit, DemangleInfo.GetFullName;
      SkipChar('A');
      var dim := DemangleManglingNumber();
      var brackets := "";
      ghost var all := dim;
      while dim > 0
        invariant 0 <= dim <= all && brackets == Brackets(all - dim)
      {
        dim := dim - 1;
        brackets := brackets + "[]";
      }
      var element := DemangleNextUnit();
      di := Info("RawArray", RAW_ARRAY).(genericConstraints := brackets, args := element.GetFullName(scopeResolution));
    }

    method DemangleVArray() returns (di: DemangleInfo)
      requires Valid() && !AtEnd() && mangledName[currentIndex] == 'V'
      modifies this`currentIndex, this`isValid
      ensures Valid() && Proceeds() && di.isValid && old(currentIndex) < currentIndex
      ensures old(isValid) ==> Agrees(ReadVArray(TheEnv(), old(currentIndex)), di)
      decreases Left(), 1
    {
      hide ReadNumber, ReadGenerics, TypesInfo, DemangleInfo.GetFullName;
      SkipChar('V');
      var num := DemangleManglingNumber();
      var generic := DemangleGenericTypes();
      di := Info("VArray", TUPLE).(genericTypes := generic.GetFullName(scopeResolution, num % (UINT32_MAX + 1)));
    }

    /** A failed pointee type clears the flag and leaves the cursor; the caller then rejects. */
    method DemangleCPointer() returns (di: DemangleInfo)
      requires Valid() && !AtEnd() && mangledName[currentIndex] == 'P'
      modifies this`currentIndex, this`isValid
      ensures Proceeds() && di.isValid && old(currentIndex) < currentIndex
      ensures old(isValid) ==> Agrees(ReadPointer(TheEnv(), old(currentIndex)), di)
      decreases Left(), 1
    {
      hide ReadUnit, TypesInfo, DemangleInfo.GetFullName, QualifiedTypeAt;
      SkipChar('P');
      var pointee := DemangleType();
      di := Info("CPointer", CPOINTER).(genericTypes := genericTypefilter(pointee.GetFullName(scopeResolution)));
    }

    method DemangleType() returns (di: DemangleInfo)
      requires Valid()
      modifies this`currentIndex, this`isValid
      ensures Proceeds()
      ensures old(isValid) ==>
        var r := ReadUnit(TheEnv(), old(currentIndex));
        && (isValid <==> QualifiedTypeAt(mangledName, old(currentIndex)) && r.Got?)
        && (isValid ==> di == TypesInfo([r.value.GetFullName(scopeResolution)]) && currentIndex == r.next)
      decreases Left(), 4
    {
      hide ReadUnit, DemangleInfo.GetFullName, QualifiedTypeAt, PrimitiveName;
      di := Info("", GENERIC_TYPES);
      if IsQualifiedType() {
        var curDi := DemangleNextUnit();
        if isValid {
          di := di.(args := curDi.GetFullName(scopeResolution));
          return;
        }
      }
      isValid := false;
    }

    method DemangleCStringType() returns (di: DemangleInfo)
      requires Valid() && !AtEnd() && mangledName[currentIndex] == 'k'
      modifies this`currentIndex, this`isValid
      ensures Valid() && Proceeds() && di.isValid == isValid && old(currentIndex) < currentIndex
      ensures old(isValid) ==> Agrees(Got(Info("CString", CSTRING), old(currentIndex) + 1), di)
    {
      SkipChar('k');
      di := Info("CString", CSTRING, isValid);
    }

    /** An unknown generic parameter clears the flag and leaves the cursor; the caller then rejects. */
    method DemangleGenericType() returns (di: DemangleInfo)
      requires Valid() && !AtEnd() && mangledName[currentIndex] == 'G'
      modifies this`currentIndex, this`isValid
      ensures Proceeds() && di.isValid == isValid && old(currentIndex) < currentIndex
      ensures old(isValid) ==> Agrees(ReadGenericParameter(TheEnv(), old(currentIndex)), di)
    {
      hide ReadNumber, UIntToString;
      SkipChar('G');
      var gNumber := DemangleManglingNumber();
      var name := "";
      if genericVec == [] {
        name := "T" + UIntToString(gNumber);
      } else if gNumber < |genericVec| {
        name := genericVec[gNumber];
      } else {
        isValid := false;
      }
      di := Info(name, GENERIC_TYPES, isValid);
    }

    method DemanglePrimitive() returns (di: DemangleInfo)
      requires Valid() && !AtEnd()
      modifies this`currentIndex, this`isValid
      ensures Valid() && Proceeds() && (isValid ==> di.isValid && old(currentIndex) < currentIndex)
      ensures old(isValid) ==> Agrees(ReadPrimitive(mangledName, old(currentIndex)), di)
    {
      var c := mangledName[currentIndex];
      if MatchForward("Dh") {
        SkipString("Dh");
      } else {
        if c == 'D' {
          di := Reject();
          return;
        }
        SkipChar(c);
      }
      di := Info(PrimitiveName(c), PRIMITIVE);
    }

    // Lists of units.

    /** The arguments are collected in groups of up to sixteen, which makes no difference to what is shown. */
    method DemangleArgTypes(delimiter: string, size: nat) returns (result: string)
      requires Valid()
      modifies this`currentIndex, this`isValid
      ensures Valid() && Proceeds()
      ensures old(isValid) ==> AgreesJoined(ReadArgs(TheEnv(), old(currentIndex), size), result, delimiter)
      decreases Left(), 4
    {
      hide ReadUnit, ReadArgList, Joined, Collected.Shown, Collected.Add, DemangleInfo.GetFullName, Prepend;
      NothingJoined(delimiter);
      if currentIndex + 1 == |mangledName| && mangledName[currentIndex] == MANGLE_VOID_PREFIX {
        SkipChar(MANGLE_VOID_PREFIX);
        return "";
      }
      var collected := NothingCollected();
      ghost var done: seq<string> := [];
      ghost var env, whole := TheEnv(), ReadArgList(TheEnv(), currentIndex, size);
      PrependNothing(whole);
      while IsNotEndOfMangledName() && collected.count < size
        invariant Valid() && Proceeds() && env == TheEnv()
        invariant collected.Valid() && collected.count == |done| <= size
        invariant collected.Shown(delimiter) == Joined(done, delimiter)
        invariant old(isValid) ==> isValid && whole == Prepend(done, ReadArgList(env, currentIndex, size - |done|))
        decreases |mangledName| - currentIndex
      {
        ghost var start := currentIndex;
        ArgListStep(env, start, size - |done|);
        SkipOptionalChar(MANGLE_UNDERSCORE_PREFIX);
        if IsMaybeDefaultFuncParamFunction() {
          NothingBehind(done, currentIndex);
          return collected.Shown(delimiter);
        }
        NextArgument(env, start, size - |done|, done);
        var curDi := DemangleNextUnit();
        if !isValid {
          return "";
        }
        var name := curDi.GetFullName(scopeResolution);
        CollectedIsJoined(collected, done, name, delimiter);
        collected := collected.Add(name, delimiter);
        done := done + [name];
      }
      NothingBehind(done, currentIndex);
      ArgListStep(env, currentIndex, size - |done|);
      result := collected.Shown(delimiter);
    }

    method DemangleGenericTypes() returns (di: DemangleInfo)
      requires Valid()
      modifies this`currentIndex, this`isValid
      ensures Valid() && Proceeds() && di.isValid
      ensures old(isValid) ==>
        var r := ReadGenerics(TheEnv(), old(currentIndex));
        (isValid <==> r.Got?) && (isValid ==> di == TypesInfo(r.value) && currentIndex == r.next)
      decreases Left(), 4
    {
      hide ReadUnit, Joined, DemangleInfo.GetFullName, OperatorAt;
      var names, firstIteration := "", true;
      ghost var done: seq<string> := [];
      ghost var env, whole := TheEnv(), ReadGenerics(TheEnv(), currentIndex);
      PrependNothing(whole);
      NothingJoined(",");
      while IsNotEndOfMangledName() && !IsDigit(mangledName[currentIndex])
            && mangledName[currentIndex] != MANGLE_FUNCTION_PREFIX && !IsOperatorName()
        invariant Valid() && Proceeds() && env == TheEnv()
        invariant names == Joined(done, ",") && (firstIteration <==> done == [])
        invariant old(isValid) ==> isValid && whole == Prepend(done, ReadGenerics(env, currentIndex))
        decreases |mangledName| - currentIndex
      {
        var curDi := DemangleNextUnit();
        if !isValid {
          break;
        }
        ghost var name := curDi.GetFullName(scopeResolution);
        OneMore(done, name, ",");
        PrependOneMore(done, name, ReadGenerics(env, currentIndex));
        names := names + (if firstIteration then "" else ",") + curDi.GetFullName(scopeResolution);
        firstIteration := false;
        done := done + [name];
      }
      NothingBehind(done, currentIndex);
      di := Info("", GENERIC_TYPES).(args := names);
    }

    method DemangleFunctionParameterTypes() returns (di: DemangleInfo)
      requires Valid()
      modifies this`currentIndex, this`isValid
      ensures Valid() && Proceeds() && di.isValid
      ensures old(isValid) ==> AgreesJoined(ReadParameters(TheEnv(), old(currentIndex)), di.args, ARGS_DELIMITER)
      decreases Left(), 4
    {
      hide ReadUnit, Joined, DemangleInfo.GetFullName;
      var names, firstIteration := "", true;
      ghost var done: seq<string> := [];
      ghost var env, whole := TheEnv(), ReadParameterList(TheEnv(), currentIndex);
      PrependNothing(whole);
      NothingJoined(ARGS_DELIMITER);
      if IsNotEndOfMangledName() && mangledName[currentIndex] == MANGLE_VOID_PREFIX {
        currentIndex := currentIndex + 1;
      } else {
        while IsNotEndOfMangledName() && !IsDigit(mangledName[currentIndex])
          invariant Valid() && Proceeds() && env == TheEnv()
          invariant names == Joined(done, ARGS_DELIMITER) && (firstIteration <==> done == [])
          invariant old(isValid) ==> isValid && whole == Prepend(done, ReadParameterList(env, currentIndex))
          decreases |mangledName| - currentIndex
        {
          var curDi := DemangleNextUnit();
          if !isValid {
            break;
          }
          ghost var name := curDi.GetFullName(scopeResolution);
          OneMore(done, name, ARGS_DELIMITER);
          PrependOneMore(done, name, ReadParameterList(env, currentIndex));
          names := names + (if firstIteration then "" else ARGS_DELIMITER) + curDi.GetFullName(scopeResolution);
          firstIteration := false;
          done := done + [name];
        }
        NothingBehind(done, currentIndex);
      }
      di := Info("", FUNCTION_PARAMETER_TYPES).(args := names);
    }

    // Declarations.

    method DemangleNestedDecls(isClass: bool, isParamInit: bool) returns (di: DemangleInfo)
      requires Valid()
      modifies this`currentIndex, this`isValid
      ensures Valid() && Proceeds() && di.isValid == isValid
      ensures old(isValid) ==> Agrees(ReadNested(TheEnv(), old(currentIndex), isClass, isParamInit), di)
      decreases Left(), 7
    {
      hide ReadNumber, ReadNamedPart, ReadExtension, ReadNestedFrom, ReadNested, UIntToString, Parts.Put, Parts.Push,
        Parts.Shows;
      var parts := NoParts();
      ghost var env, whole := TheEnv(), ReadNestedFrom(TheEnv(), currentIndex, isClass, isParamInit, NoParts());
      NestedShown(env, currentIndex, isClass, isParamInit);
      while IsNotEndOfMangledName()
        invariant Valid() && Proceeds() && parts.Valid() && env == TheEnv()
        invariant old(isValid) ==>
          whole == if isValid then ReadNestedFrom(env, currentIndex, isClass, isParamInit, parts) else Failed
        decreases |mangledName| - currentIndex
      {
        NestedStep(env, currentIndex, isClass, isParamInit, parts);
        if mangledName[currentIndex] == MANGLE_LAMBDA_PREFIX {
          currentIndex := currentIndex + 1;
          var number := DemangleManglingNumber();
          parts := parts.Put("lambda." + UIntToString(number), LAMBDA_FUNCTION);
          continue;
        }
        if mangledName[currentIndex] == MANGLE_EXTEND_PREFIX {
          var extended := DemangleExtension();
          if !isValid {
            di := Reject();
            return;
          }
          parts := parts.Put(extended, COMMON_DECL);
          continue;
        }
        var part := DemangleNamedPart(isClass, isParamInit);
        if part.isLast {
          parts := parts.Put(part.shown, part.kind);
          break;
        }
        if !isValid {
          di := Reject();
          return;
        }
        parts := parts.Push(part, scopeResolution);
      }
      if old(isValid) && isValid {
        NestedStep(env, currentIndex, isClass, isParamInit, parts);
      }
      di := parts.Shows(scopeResolution).(isValid := isValid);
    }

    /** The type that an extension is for, and maybe its file and a number. */
    method DemangleExtension() returns (extended: string)
      requires Valid() && !AtEnd()
      modifies this`currentIndex, this`isValid
      ensures Valid() && Proceeds() && old(currentIndex) < currentIndex
      ensures old(isValid) ==> Agrees(ReadExtension(TheEnv(), old(currentIndex)), extended)
      decreases Left(), 5
    {
      hide ReadUnit, FileNameEnd, CounterEnd, QualifiedTypeAt, DemangleInfo.GetIdentifier;
      currentIndex := currentIndex + 1;
      if !IsQualifiedType() {
        var _ := Reject();
        return "";
      }
      var di := DemangleNextUnit();
      extended := di.GetIdentifier();
      if IsFileName() {
        DemangleFileName();
      }
      SkipLocalCounter();
    }

    method DemangleNestedName() returns (curDi: DemangleInfo)
      requires Valid() && !AtEnd()
      modifies this`currentIndex, this`isValid
      ensures Valid() && Proceeds() && old(currentIndex) < currentIndex
      ensures old(isValid) ==> Agrees(ReadNestedName(mangledName, old(currentIndex)), curDi)
    {
      hide ReadName, OperatorName;
      if IsOperatorName() {
        curDi := Info(OperatorName(SubStr(mangledName, currentIndex, 2)), NAME, isValid);
        currentIndex := currentIndex + 2;
      } else {
        var name := DemangleStringName();
        curDi := Info(name, NAME, isValid);
        if IsProp() {
          var prop := DemangleProp();
          curDi := curDi.(demangled := curDi.demangled + prop);
        }
      }
    }

    /** One named part: its name, a number, its signature, and how it is shown. */
    method DemangleNamedPart(isClass: bool, isParamInit: bool) returns (part: Part)
      requires Valid() && !AtEnd()
      modifies this`currentIndex, this`isValid
      ensures Valid() && Proceeds() && old(currentIndex) < currentIndex && (part.isLast ==> AtEnd())
      ensures old(isValid) ==> Agrees(ReadNamedPart(TheEnv(), old(currentIndex), isClass, isParamInit), part)
      decreases Left(), 6
    {
      hide ReadNestedName, CounterEnd, ReadSignature, DemangleInfo.GetFullName;
      var curDi := DemangleNestedName();
      if AtEnd() {
        return Part(curDi.GetFullName(scopeResolution), COMMON_DECL, "", true);
      }
      SkipLocalCounter();
      var typeKind;
      curDi, typeKind := DemangleSignature(curDi, isClass);
      var name := curDi.GetFullName(scopeResolution);
      if isParamInit && IsNotEndOfMangledName() && curDi.functionParameterTypes != "" {
        name := name + "(" + curDi.functionParameterTypes + ")";
      }
      part := Part(name, typeKind, curDi.functionParameterTypes, false);
    }

    /** The type arguments and parameter types behind the name of a nested declaration. */
    method DemangleSignature(di: DemangleInfo, isClass: bool) returns (curDi: DemangleInfo, typeKind: TypeKind)
      requires Valid()
      modifies this`currentIndex, this`isValid
      ensures Valid() && Proceeds()
      ensures old(isValid) ==> Agrees(ReadSignature(TheEnv(), di, old(currentIndex), isClass), (curDi, typeKind))
      decreases Left(), 6
    {
      hide ReadGenerics, ReadFunctionPart, TypesInfo, DemangleInfo.GetFullName;
      curDi := di;
      if Cur() == MANGLE_GENERIC_PREFIX {
        SkipChar(MANGLE_GENERIC_PREFIX);
        var generic := DemangleGenericTypes();
        curDi := curDi.(genericTypes := genericTypefilter(generic.GetFullName(scopeResolution)));
        if !isClass {
          SkipOptionalChar(END);
        }
      }
      curDi, typeKind := DemangleFunctionPart(curDi);
    }

    /** The parameter types of a declared function, where they stand. */
    method DemangleFunctionPart(di: DemangleInfo) returns (curDi: DemangleInfo, typeKind: TypeKind)
      requires Valid()
      modifies this`currentIndex, this`isValid
      ensures Valid() && Proceeds()
      ensures old(isValid) ==> Agrees(ReadFunctionPart(TheEnv(), di, old(currentIndex)), (curDi, typeKind))
      decreases Left(), 5
    {
      hide ReadParameters, Joined;
      curDi, typeKind := di, COMMON_DECL;
      if !AtEnd() && mangledName[currentIndex] == MANGLE_FUNCTION_PREFIX {
        SkipChar(MANGLE_FUNCTION_PREFIX);
        typeKind := FUNCTION_DECL;
        var types := DemangleFunctionParameterTypes();
        curDi := curDi.(functionParameterTypes := types.args);
        SkipOptionalChar(END);
      }
    }

    /** A package and the names nested in it. */
    method DemanglePackageAndNested(isClass: bool, isParamInit: bool) returns (di: DemangleInfo)
      requires Valid()
      modifies this`currentIndex, this`isValid
      ensures Valid() && Proceeds() && di.isValid == isValid
      ensures old(isValid) ==> Agrees(ReadPackageAndNested(TheEnv(), old(currentIndex), isClass, isParamInit), di)
      decreases Left(), 8
    {
      hide ReadPackage, ReadNested;
      var pkgDi := DemanglePackageName();
      var nestedDi := DemangleNestedDecls(isClass, isParamInit);
      if !isValid || nestedDi.demangled == "" {
        di := Reject();
        return;
      }
      di := Info(nestedDi.demangled, nestedDi.kind)
            .(pkgName := pkgDi.pkgName, isPrivateDeclaration := pkgDi.isPrivateDeclaration, args := nestedDi.args);
      if di.kind == FUNCTION_DECL {
        di := di.(args := nestedDi.functionParameterTypes);
      }
    }

    method DemangleCommonDecl(isClass: bool) returns (di: DemangleInfo)
      requires Valid()
      modifies this`currentIndex, this`isValid
      ensures Valid() && Proceeds() && di.isValid == isValid
      ensures old(isValid) ==> Agrees(ReadCommonDecl(TheEnv(), old(currentIndex), isClass), di)
      decreases Left(), 9
    {
      hide ReadPackageAndNested, StandsAt;
      var isGlobalVariableInitPrefix := false;
      TwoStandAt(mangledName, currentIndex, 'N', 'N');
      TwoStandAt(mangledName, currentIndex, 'G', 'V');
      if Cur() == 'N' {
        SkipString("N");
      } else {
        SkipString("GV");
        isGlobalVariableInitPrefix := true;
      }
      if !isValid {
        di := Reject();
        return;
      }
      di := DemanglePackageAndNested(isClass, false);
      if isValid && isGlobalVariableInitPrefix {
        di := di.(kind := COMMON_DECL);
      }
    }

    method DemangleDecl() returns (di: DemangleInfo)
      requires Valid()
      modifies this`currentIndex, this`isValid
      ensures Valid() && Proceeds() && di.isValid == isValid
      ensures old(isValid) && old(currentIndex) == 0 ==> Agrees(ReadDecl(TheEnv()), di)
    {
      hide ReadCommonDecl, ReadArgs, ReadDefaultParam, Joined, DemangleInfo.GetFullName;
      SkipString("_C");
      if !isValid {
        di := Reject();
        return;
      }
      di := DemangleCommonDecl(false);
      if di.kind == LAMBDA_FUNCTION || !isValid || AtEnd() || mangledName[currentIndex] == END {
        return;
      }
      var args := DemangleArgTypes(ARGS_DELIMITER, UINT32_MAX);
      di := di.(kind := FUNCTION_DECL, args := args);
      if !isValid {
        di := Reject();
        return;
      }
      if IsMaybeDefaultFuncParamFunction() {
        var dpf := DemangleDefaultParamFunction();
        if !isValid {
          di := Reject();
          return;
        }
        di := di.(demangled := di.GetFullName(scopeResolution) + scopeResolution + dpf.demangled, args := dpf.args);
      }
    }

    method DemangleDefaultParamFunction() returns (di: DemangleInfo)
      requires Valid() && IsMaybeDefaultFuncParamFunction()
      modifies this`currentIndex, this`isValid
      ensures Valid() && Proceeds()
      ensures old(isValid) ==> Agrees(ReadDefaultParam(TheEnv(), old(currentIndex)), di)
    {
      hide ReadDefaultArgs, ReadDefaultParam, Find, CStr, StandsAt;
      var pos := Find(mangledName, "_", currentIndex);
      IdentifierOfDefault(TheEnv(), currentIndex, pos);
      if pos == -1 || pos == |mangledName| - 1 || !IsDigit(mangledName[pos + 1]) {
        di := Reject();
        return;
      }
      SkipChar('$');
      var identifier := mangledName[currentIndex..pos];
      SkipString(CStr(identifier));
      SkipChar(MANGLE_UNDERSCORE_PREFIX);
      di := DemangleDefaultArgs(identifier);
    }

    /** The number of the parameter, and the arguments of its default function. */
    method DemangleDefaultArgs(identifier: string) returns (di: DemangleInfo)
      requires Valid() && (isValid ==> !AtEnd() && IsDigit(mangledName[currentIndex]))
      modifies this`currentIndex, this`isValid
      ensures Valid() && Proceeds()
      ensures old(isValid) ==> Agrees(ReadDefaultArgs(TheEnv(), identifier, old(currentIndex)), di)
    {
      hide ReadArgs, ReadLength, Joined;
      di := Info(identifier, FUNCTION_DECL);
      LengthStandsAtDigits(mangledName, currentIndex);
      var _ := DemangleLength();
      if !IsNotEndOfMangledName() {
        di := Reject();
        return;
      }
      var args := DemangleArgTypes(ARGS_DELIMITER, UINT32_MAX);
      di := di.(args := args);
    }

    // Entries.

    method DemangleGlobalInit() returns (di: DemangleInfo)
      requires Valid() && isValid && currentIndex == 0
      modifies this`currentIndex, this`isValid
      ensures Valid() && Proceeds() && di.isValid == isValid
      ensures Agrees(ReadGlobalInit(TheEnv()), di)
    {
      hide ReadPackage, GlobalInitSuffix, SubStr, StandsAt;
      FourthOfGlobal(mangledName);
      StandsAtStart(mangledName, "_CGP");
      StandsAtStart(mangledName, "_CGF");
      var prefix;
      if MatchForward("_CGP") {
        SkipString("_CGP");
        var pkgDi := DemanglePackageName();
        prefix := pkgDi.pkgName + "::package";
      } else if MatchForward("_CGF") {
        SkipString("_CGF");
        var pkgDi := DemanglePackageName();
        prefix := pkgDi.pkgName + "::file";
      } else {
        di := Reject();
        return;
      }
      var suffix := GlobalInitSuffix(mangledName);
      if suffix.None? {
        di := Reject();
      } else {
        di := Info(prefix + suffix.value, NAME, isValid);
      }
    }

    method DemangleParamInit() returns (di: DemangleInfo)
      requires Valid() && isValid && currentIndex == 0 && StandsAt(mangledName, 0, "_CPI")
      modifies this`currentIndex, this`isValid
      ensures Valid() && Proceeds() && di.isValid == isValid
      ensures Agrees(ReadPackageAndNested(TheEnv(), 4, false, true), di)
    {
      hide ReadPackageAndNested, StandsAt;
      SkipString("_CPI");
      di := DemanglePackageAndNested(false, true);
    }

    method DemangleInnerFunction(prefixIndex: nat) returns (di: DemangleInfo)
      requires Valid() && isValid && currentIndex <= prefixIndex < |mangledName|
      modifies this`currentIndex, this`isValid
      ensures Valid() && Proceeds() && di.isValid == isValid
      ensures Agrees(Got(Info(mangledName[prefixIndex + 1..], LAMBDA_FUNCTION)
                         .(pkgName := mangledName[old(currentIndex)..prefixIndex]), |mangledName|), di)
    {
      di := Info(mangledName[prefixIndex + 1..], LAMBDA_FUNCTION).(pkgName := mangledName[currentIndex..prefixIndex]);
      currentIndex := |mangledName|;
    }

    /** A wrapped function is the declaration between its prefix and the end mark, with no end mark all that is left. */
    method DemangleWrappedFunction() returns (di: DemangleInfo)
      requires Valid() && isValid && currentIndex == 0 && StandsAt(mangledName, 0, "_CV")
      modifies this`currentIndex, this`isValid, this`mangledName
      ensures Valid() && di.isValid == isValid && mangledName == Unwrapped(old(mangledName))
      ensures Agrees(WrappedInfo(ReadDecl(TheEnv())), di)
    {
      hide ReadDecl;
      var endIndex := Find(mangledName, "$", currentIndex);
      var prefixIndex := currentIndex + 3;
      assert endIndex >= 0 ==> mangledName[endIndex..endIndex + 1][0] == '$';
      mangledName := "_C" + (if endIndex == -1 then mangledName[prefixIndex..] else mangledName[prefixIndex..endIndex]);
      di := DemangleDecl();
      di := di.(demangled := di.demangled + "<compiler generated>", kind := WRAPPED_FUNCTION);
    }

    /**
     * Demangles the name of a fresh parser. `decompress` stands for the expansion of back references, which comes
     * first. The answer is what the name reads as, and says that it is valid exactly when the name can be read.
     */
    method Demangle(isType: bool, decompress: string -> string) returns (di: DemangleInfo)
      requires Valid() && isValid && currentIndex == 0
      modifies this`currentIndex, this`isValid, this`mangledName
      ensures Valid() && di.isValid == isValid
      ensures isType ==>
        mangledName == old(mangledName) &&
          Agrees(if QualifiedTypeAt(mangledName, 0) then ReadUnit(TheEnv(), 0) else Failed, di)
      ensures !isType && old(mangledName) == "" ==> !isValid
      ensures !isType && old(mangledName) != "" ==>
        Agrees(ReadWhole(old(TheEnv()).(name := decompress(old(mangledName)))), di)
    {
      hide ReadDecl, ReadUnit, ReadGlobalInit, ReadPackageAndNested, QualifiedTypeAt, Find, SubStr, Unwrapped, StandsAt;
      if isType {
        if !IsQualifiedType() {
          di := Reject();
        } else {
          di := DemangleNextUnit();
        }
        return;
      }
      if mangledName == "" {
        di := Reject();
        return;
      }
      mangledName := decompress(mangledName);
      StandsAtStart(mangledName, "_CGP");
      StandsAtStart(mangledName, "_CGF");
      StandsAtStart(mangledName, "_CPI");
      StandsAtStart(mangledName, "_CV");
      if MatchForward("_CGP") || MatchForward("_CGF") {
        di := DemangleGlobalInit();
        return;
      }
      if MatchForward("_CPI") {
        di := DemangleParamInit();
        return;
      }
      var lambda := Find(mangledName, "$lambda.", 0);
      if |mangledName| > 9 && lambda > -1 {
        di := DemangleInnerFunction(lambda);
        return;
      }
      if |mangledName| > 5 && Find(mangledName, "$real", 0) > -1 {
        di := Info(mangledName[..|mangledName| - 5], NAME, isValid);
        return;
      }
      if Find(mangledName, "_CV", 0) == 0 {
        di := DemangleWrappedFunction();
        return;
      }
      di := DemangleDecl();
    }
  }
}
