/**
 * What a mangled name reads as: for every construct, the place behind it and what is kept of it, or a failure.
 *
 * The readings take the name and a place in it, and have no cursor and no flag. The parser is proved to find what they
 * say; what they are good for is proved about them.
 */
module MangledReadings {
  import opened MangledTexts
  import opened Wrappers

  datatype Reading<T> = Failed | Got(value: T, next: nat)

  /** The name that is read, and what the reader was told about scopes, generic parameters and packages. */
  datatype Env = Env(name: string, scopeResolution: string, genericTypefilter: string -> string,
                     genericVec: seq<string>, stdPackages: map<string, string>)
  {
    predicate Valid() {
      forall code :: code in stdPackages ==> |code| == 2
    }
  }

  /** The character at a place; a string ends in a null character. */
  function CharAt(s: string, i: nat): char {
    if i < |s| then s[i] else '\0'
  }

  predicate StandsAt(s: string, i: nat, pattern: string) {
    i <= |s| && pattern <= s[i..]
  }

  /** The first characters of a pattern stand at a place. */
  predicate StandsSoFar(s: string, i: nat, pattern: string, n: nat) {
    i <= |s| && n <= |pattern| && i + n <= |s| && forall k :: 0 <= k < n ==> s[i + k] == pattern[k]
  }

  lemma StandsSoFarStart(s: string, i: nat, pattern: string)
    requires i <= |s|
    ensures StandsSoFar(s, i, pattern, 0)
  {
  }

  /** Whether one more character of it stands there. */
  lemma StandsSoFarStep(s: string, i: nat, pattern: string, n: nat)
    requires StandsSoFar(s, i, pattern, n)
    ensures n == |pattern| ==> StandsAt(s, i, pattern)
    ensures n < |pattern| && i + n < |s| && s[i + n] == pattern[n] ==> StandsSoFar(s, i, pattern, n + 1)
    ensures n < |pattern| && !(i + n < |s| && s[i + n] == pattern[n]) ==> !StandsAt(s, i, pattern)
  {
    if StandsAt(s, i, pattern) && n < |pattern| {
      assert s[i + n] == s[i..][n] == pattern[n];
    }
    if n == |pattern| {
      assert s[i..][..n] == pattern;
    }
  }

  lemma StandsAtStart(s: string, pattern: string)
    ensures SubStr(s, 0, |pattern|) == pattern <==> StandsAt(s, 0, pattern)
    ensures Find(s, pattern, 0) == 0 <==> StandsAt(s, 0, pattern)
  {
    if |pattern| <= |s| {
      assert s[0..|pattern|] == s[..|pattern|] == s[0..][..|pattern|];
    }
  }

  lemma TwoStandAt(s: string, i: nat, a: char, b: char)
    requires a != '\0' && b != '\0'
    ensures StandsAt(s, i, [a]) <==> CharAt(s, i) == a
    ensures StandsAt(s, i, [a, b]) <==> CharAt(s, i) == a && CharAt(s, i + 1) == b
  {
  }

  lemma FourthOfGlobal(s: string)
    ensures StandsAt(s, 0, "_CGP") ==> |s| > 3 && s[3] == 'P'
    ensures StandsAt(s, 0, "_CGF") ==> |s| > 3 && s[3] == 'F'
  {
  }

  predicate EndsAt(s: string, i: nat) {
    i >= |s| || s[i] == END
  }

  predicate OperatorAt(s: string, i: nat) {
    && i + 2 < |s|
    && OperatorName(s[i..i + 2]) != ""
    && s[i + 2] in {MANGLE_GENERIC_PREFIX, MANGLE_FUNCTION_PREFIX, MANGLE_COUNT_PREFIX}
  }

  predicate QualifiedTypeAt(s: string, i: nat) {
    && i < |s|
    && (|| (i + 1 < |s| && s[i..i + 2] in {"Dh", "F0", "FC"})
        || PrimitiveName(s[i]) != ""
        || s[i] in {'C', 'R', 'F', 'N', 'T', 'P', 'A', 'k', 'V', 'G'})
  }

  /** Behind a character that may stand at a place. */
  function SkipAt(s: string, i: nat, c: char): (j: nat)
    requires c != '\0'
    ensures i <= j && (i <= |s| ==> j <= |s|)
  {
    if CharAt(s, i) == c then i + 1 else i
  }

  // ----- numbers and names -----

  /** A base 62 number closed by an underscore. */
  function ReadNumber(s: string, i: nat): (r: Reading<nat>)
    ensures r.Got? ==> i < r.next <= |s|
  {
    var end := Find(s, "_", i);
    if end == -1 || !IsBase62(s[i..end]) then Failed else Got(ManglingNumber(s[i..end]), end + 1)
  }

  /** A number ends at the first underscore, if the characters before it are of base 62. */
  lemma NumberScanned(s: string, i: nat, j: nat, content: string)
    requires IsSlice(s, i, j, content) && Find(s, "_", i) == Find(s, "_", j)
    ensures j == |s| ==> ReadNumber(s, i) == Failed
    ensures j < |s| && s[j] == '_' ==>
      ReadNumber(s, i) == if IsBase62(content) then Got(ManglingNumber(content), j + 1) else Failed
  {
    hide ManglingNumber, IsBase62;
    FindStep(s, '_', j);
  }

  /** A decimal length, which is 0 where it does not fit 32 bits. A leading zero stands for itself alone. */
  function ReadLength(s: string, i: nat): (r: Reading<nat>)
    ensures r.Got? ==> i < r.next <= |s|
  {
    if i >= |s| || !IsDigit(s[i]) then Failed
    else if s[i] == '0' then Got(0, i + 1)
    else
      var digits := Digits(s[i..]);
      assert digits != "" by { DigitsStart(s[i..]); }
      Got(if DecimalValue(digits) <= UINT32_MAX then DecimalValue(digits) else 0, i + |digits|)
  }

  lemma DigitsStart(s: string)
    requires s != "" && IsDigit(s[0])
    ensures Digits(s) != ""
  {
  }

  lemma LengthStandsAtDigits(s: string, i: nat)
    ensures ReadLength(s, i).Got? <==> i < |s| && IsDigit(s[i])
  {
  }

  /** A length that is not zero, and as many characters. */
  function ReadName(s: string, i: nat): (r: Reading<string>)
    ensures r.Got? ==> i < r.next <= |s| && r.value != ""
  {
    match ReadLength(s, i)
    case Failed => Failed
    case Got(n, j) => if n == 0 || n > |s| - j then Failed else Got(s[j..j + n], j + n)
  }

  predicate FileNameAt(s: string, i: nat) {
    i < |s| && s[i] == MANGLE_FILE_ID_PREFIX
  }

  /** Up to an end mark among as many characters as a hash has, and else that many of base 62. */
  function FileHashEnd(s: string, i: nat): (r: Option<nat>)
    ensures r.Some? ==> i < r.value <= |s|
  {
    var end := Find(s, "$", i);
    if end != -1 && end < i + FILE_HASH_LEN then Some(end + 1)
    else if i + FILE_HASH_LEN <= |s| && IsBase62(s[i..i + FILE_HASH_LEN]) then Some(i + FILE_HASH_LEN)
    else None
  }

  lemma HashScanned(s: string, i: nat, j: nat, content: string)
    requires IsSlice(s, i, j, content) && |content| <= FILE_HASH_LEN && Find(s, "$", i) == Find(s, "$", j)
    ensures |content| < FILE_HASH_LEN && j == |s| ==> FileHashEnd(s, i) == None
    ensures |content| < FILE_HASH_LEN && j < |s| && s[j] == '$' ==> FileHashEnd(s, i) == Some(j + 1)
    ensures |content| == FILE_HASH_LEN ==> FileHashEnd(s, i) == if IsBase62(content) then Some(j) else None
  {
    hide IsBase62;
    FindStep(s, '$', j);
  }

  /** Behind a file name, which is a prefix and a hash. */
  function FileNameEnd(s: string, i: nat): (r: Option<nat>)
    requires FileNameAt(s, i)
    ensures r.Some? ==> i < r.value <= |s|
  {
    FileHashEnd(s, i + 1)
  }

  /** Behind the number of a local declaration, where one stands. */
  function CounterEnd(s: string, i: nat): (r: Option<nat>)
    ensures r.Some? ==> i <= r.value && (i <= |s| ==> r.value <= |s|)
  {
    if CharAt(s, i) != MANGLE_COUNT_PREFIX then Some(i)
    else
      match ReadNumber(s, i + 1)
      case Failed => None
      case Got(_, j) => Some(j)
  }

  // ----- packages -----

  /** An organisation's name is set off by two colons. */
  function WithOrganization(pkg: string): string {
    var pos := Find(pkg, ":", 0);
    if pos > -1 && |pkg| - pos > 1 then pkg[..pos] + ":" + pkg[pos..] else pkg
  }

  function PackageInfo(pkg: string, isPrivate: bool): DemangleInfo {
    Info("", COMMON_DECL).(isPrivateDeclaration := isPrivate, pkgName := ReplaceChar(pkg, '$', "/"))
  }

  /** A package: a standard one by its code, none at all, or one by its name, and maybe a file name. */
  function ReadPackage(env: Env, i: nat): (r: Reading<DemangleInfo>)
    requires env.Valid()
    ensures r.Got? ==> i < r.next <= |env.name|
  {
    var s := env.name;
    if i >= |s| then Failed
    else
      var code := SubStr(s, i, 2);
      var isStd := code in env.stdPackages;
      if !isStd && !IsDigit(s[i]) then Failed
      else
        var j := if isStd then i + 2 else i;
        if CharAt(s, j) == '0' then Got(Info("", COMMON_DECL), j + 1)
        else
          var std := if isStd then env.stdPackages[code] else "";
          var named := if std == "" then ReadName(s, j) else Got(std, j);
          match named
          case Failed => Failed
          case Got(name, k) =>
            var pkg := if std == "" then WithOrganization(name) else name;
            if !FileNameAt(s, k) then Got(PackageInfo(pkg, false), k)
            else
              match FileNameEnd(s, k)
              case None => Failed
              case Some(end) => Got(PackageInfo(pkg, true), end)
  }

  // ----- lists of shown names -----

  /** Names with a delimiter between them. */
  function Joined(names: seq<string>, delimiter: string): string {
    Join(names, |names|, delimiter)
  }

  function Prepend<T>(done: seq<T>, r: Reading<seq<T>>): Reading<seq<T>> {
    match r
    case Failed => Failed
    case Got(rest, next) => Got(done + rest, next)
  }

  lemma PrependNothing<T>(r: Reading<seq<T>>)
    ensures Prepend([], r) == r
  {
    if r.Got? {
      assert [] + r.value == r.value;
    }
  }

  lemma NothingBehind<T>(done: seq<T>, next: nat)
    ensures Prepend(done, Got([], next)) == Got(done, next)
  {
    assert done + [] == done;
  }

  lemma PrependOneMore<T>(done: seq<T>, x: T, r: Reading<seq<T>>)
    ensures Prepend(done, Prepend([x], r)) == Prepend(done + [x], r)
  {
    if r.Got? {
      assert done + ([x] + r.value) == done + [x] + r.value;
    }
  }

  /** Where lists of types are shown, they stand in place of the arguments of an info without a name. */
  function TypesInfo(names: seq<string>): DemangleInfo {
    Info("", GENERIC_TYPES).(args := Joined(names, ","))
  }

  /** How many places of a group are taken by so many names. */
  function TakenOf(count: nat): (n: nat)
    ensures n <= MAX_ARGS_SIZE
  {
    if count == 0 then 0 else (count - 1) % MAX_ARGS_SIZE + 1
  }

  lemma JoinLess(a: seq<string>, b: seq<string>, n: nat, delimiter: string)
    requires n <= |a| && n <= |b| && a[..n] == b[..n]
    ensures Join(a, n, delimiter) == Join(b, n, delimiter)
  {
    if n == 1 {
      assert a[..1][0] == b[..1][0];
    } else if n > 1 {
      assert a[..n - 1] == a[..n][..n - 1] && b[..n - 1] == b[..n][..n - 1];
      assert a[..n][n - 1] == b[..n][n - 1];
      JoinLess(a, b, n - 1, delimiter);
    }
  }

  lemma OneMore(names: seq<string>, name: string, delimiter: string)
    ensures Joined(names + [name], delimiter) ==
            Joined(names, delimiter) + (if names == [] then "" else delimiter) + name
  {
    assert (names + [name])[..|names|] == names[..|names|];
    JoinLess(names + [name], names, |names|, delimiter);
  }

  lemma {:induction false} FlushOneMore(args: seq<string>, x: string, delimiter: string)
    ensures Flush(args + [x], delimiter) == Flush(args, delimiter) + x + delimiter
  {
    if args == [] {
      assert (args + [x])[1..] == [];
    } else {
      FlushOneMore(args[1..], x, delimiter);
      assert (args + [x])[1..] == args[1..] + [x];
    }
  }

  /** A full group that is written out has a delimiter behind every name. */
  lemma {:induction false} FlushIsJoined(args: seq<string>, delimiter: string)
    requires args != []
    ensures Flush(args, delimiter) == Joined(args, delimiter) + delimiter
  {
    var rest, last := args[..|args| - 1], args[|args| - 1];
    assert args == rest + [last];
    OneMore(rest, last, delimiter);
    FlushOneMore(rest, last, delimiter);
    if rest != [] {
      FlushIsJoined(rest, delimiter);
    }
  }

  /** Collecting names in groups: the next name takes a place in the group ... */
  lemma InGroup(result: string, group: seq<string>, done: seq<string>, name: string, delimiter: string)
    requires |group| == MAX_ARGS_SIZE && (|done| % MAX_ARGS_SIZE != 0 || done == [])
    requires result + Join(group, TakenOf(|done|), delimiter) == Joined(done, delimiter)
    ensures result + Join(group[|done| % MAX_ARGS_SIZE := name], TakenOf(|done| + 1), delimiter) ==
            Joined(done + [name], delimiter)
  {
    hide Joined;
    var j := |done| % MAX_ARGS_SIZE;
    var group' := group[j := name];
    OneMore(done, name, delimiter);
    assert TakenOf(|done| + 1) == j + 1 && TakenOf(|done|) == j;
    if done == [] {
      NothingJoined(delimiter);
      assert Join(group', 1, delimiter) == name;
    } else {
      JoinLess(group, group', j, delimiter);
      assert Join(group', j + 1, delimiter) == Join(group, j, delimiter) + delimiter + name;
    }
  }

  lemma NothingJoined(delimiter: string)
    ensures Joined([], delimiter) == ""
    ensures forall group :: Join(group, 0, delimiter) == ""
  {
  }

  /** ... and a full group is written out with a delimiter behind each name, and a new one begun. */
  lemma NextGroup(result: string, group: seq<string>, next: seq<string>, done: seq<string>, name: string,
                  delimiter: string)
    requires |group| == |next| == MAX_ARGS_SIZE && |done| % MAX_ARGS_SIZE == 0 && done != []
    requires result + Join(group, TakenOf(|done|), delimiter) == Joined(done, delimiter)
    ensures result + Flush(group, delimiter) + Join(next[0 := name], TakenOf(|done| + 1), delimiter) ==
            Joined(done + [name], delimiter)
  {
    hide Flush;
    OneMore(done, name, delimiter);
    FlushIsJoined(group, delimiter);
    assert TakenOf(|done|) == MAX_ARGS_SIZE && TakenOf(|done| + 1) == 1;
    assert Join(next[0 := name], 1, delimiter) == name;
    assert result + (Joined(group, delimiter) + delimiter) + name ==
      result + Joined(group, delimiter) + delimiter + name;
  }

  /** Names collected for an argument list: what is written out, and the group. */
  datatype Collected = Collected(result: string, group: seq<string>, count: nat)
  {
    predicate Valid() {
      |group| == MAX_ARGS_SIZE
    }

    function Add(name: string, delimiter: string): (c: Collected)
      requires Valid()
      ensures c.Valid() && c.count == count + 1
    {
      var next := seq(MAX_ARGS_SIZE, _ => "");
      if count % MAX_ARGS_SIZE == 0 && count != 0
      then Collected(result + Flush(group, delimiter), next[0 := name], count + 1)
      else Collected(result, group[count % MAX_ARGS_SIZE := name], count + 1)
    }

    function Shown(delimiter: string): string
      requires Valid()
    {
      result + Join(group, TakenOf(count), delimiter)
    }
  }

  function NothingCollected(): (c: Collected)
    ensures c.Valid() && c.count == 0 && forall delimiter :: c.Shown(delimiter) == ""
  {
    Collected("", seq(MAX_ARGS_SIZE, _ => ""), 0)
  }

  /** Collecting in groups makes no difference to what is shown. */
  lemma CollectedIsJoined(c: Collected, done: seq<string>, name: string, delimiter: string)
    requires c.Valid() && c.count == |done| && c.Shown(delimiter) == Joined(done, delimiter)
    ensures c.Add(name, delimiter).Shown(delimiter) == Joined(done + [name], delimiter)
  {
    hide Joined, Join, Flush;
    if c.count % MAX_ARGS_SIZE == 0 && c.count != 0 {
      NextGroup(c.result, c.group, seq(MAX_ARGS_SIZE, _ => ""), done, name, delimiter);
    } else {
      InGroup(c.result, c.group, done, name, delimiter);
    }
  }

  /** A named part; one that ends the text is shown without looking for a signature. */
  datatype Part = Part(shown: string, kind: TypeKind, parameterTypes: string, isLast: bool)

  /** The parts of a nested name, collected in groups of up to sixteen. */
  datatype Parts = Parts(count: nat, group: seq<string>, result: string, kind: TypeKind, parameterTypes: string)
  {
    predicate Valid() {
      |group| == MAX_ARGS_SIZE
    }

    /** How many places of the group are taken. */
    function Taken(): (n: nat)
      ensures n <= MAX_ARGS_SIZE
    {
      TakenOf(count)
    }

    /** Takes the next place of the group; the first place again when the group is full. */
    function Put(part: string, kind: TypeKind): (p: Parts)
      requires Valid()
      ensures p.Valid()
    {
      this.(count := count + 1, group := group[count % MAX_ARGS_SIZE := part], kind := kind)
    }

    /** The same, but a full group is written out first, with a delimiter between its parts and none behind the last. */
    function Push(part: Part, delimiter: string): (p: Parts)
      requires Valid()
      ensures p.Valid()
    {
      var flushed :=
        if count % MAX_ARGS_SIZE == 0 && count != 0
        then this.(result := Truncate(result + Flush(group, delimiter), |delimiter|), group := NoParts().group)
        else this;
      flushed.Put(part.shown, part.kind).(parameterTypes := part.parameterTypes)
    }

    function Shown(delimiter: string): string
      requires Valid()
    {
      result + Join(group, Taken(), delimiter)
    }

    function Shows(delimiter: string): DemangleInfo
      requires Valid()
    {
      Info(Shown(delimiter), kind).(functionParameterTypes := parameterTypes)
    }
  }

  function NoParts(): (p: Parts)
    ensures p.Valid()
  {
    Parts(0, seq(MAX_ARGS_SIZE, _ => ""), "", COMMON_DECL, "")
  }

  // ----- units -----

  /** What kind of unit a character selects. */
  function UnitKind(c: char): TypeKind {
    match c
    case 'C' => CLASS case 'R' => STRUCT case 'N' => ENUM case 'F' => FUNCTION case 'T' => TUPLE case 'V' => TUPLE
    case 'P' => CPOINTER case 'A' => RAW_ARRAY case 'k' => CSTRING case 'G' => GENERIC_TYPES
    case _ => if !IsDigit(c) && PrimitiveName(c) != "" then PRIMITIVE else NAME
  }

  /** One unit; its first character selects its kind. */
  function ReadUnit(env: Env, i: nat): (r: Reading<DemangleInfo>)
    requires env.Valid()
    ensures r.Got? ==> i < r.next <= |env.name| && r.value.isValid && r.value.kind == UnitKind(env.name[i])
    decreases |env.name| - i, 2
  {
    var s := env.name;
    if i >= |s| then Failed
    else
      match s[i]
      case 'C' => ReadClass(env, i, CLASS)
      case 'R' => ReadClass(env, i, STRUCT)
      case 'N' => ReadClass(env, i, ENUM)
      case 'F' => if CharAt(s, i + 1) in {'0', 'C'} then ReadFunction(env, i) else Failed
      case 'T' => ReadTuple(env, i)
      case 'P' => ReadPointer(env, i)
      case 'A' => ReadRawArray(env, i)
      case 'V' => ReadVArray(env, i)
      case 'k' => Got(Info("CString", CSTRING), i + 1)
      case 'G' => ReadGenericParameter(env, i)
      case c =>
        if IsDigit(c) then
          match ReadName(s, i)
          case Failed => Failed
          case Got(name, j) => Got(Info(name, NAME), j)
        else if PrimitiveName(c) != "" then ReadPrimitive(s, i)
        else if c != '_' && OperatorAt(s, i) then Got(Info(OperatorName(s[i..i + 2]), NAME), i + 2)
        else Failed
  }

  /** Which reading the first character of a unit selects. */
  lemma UnitSelected(env: Env, i: nat)
    requires env.Valid() && i < |env.name|
    ensures env.name[i] == 'C' ==> ReadUnit(env, i) == ReadClass(env, i, CLASS)
    ensures env.name[i] == 'R' ==> ReadUnit(env, i) == ReadClass(env, i, STRUCT)
    ensures env.name[i] == 'N' ==> ReadUnit(env, i) == ReadClass(env, i, ENUM)
    ensures env.name[i] == 'F' && CharAt(env.name, i + 1) in {'0', 'C'} ==> ReadUnit(env, i) == ReadFunction(env, i)
    ensures env.name[i] == 'T' ==> ReadUnit(env, i) == ReadTuple(env, i)
    ensures env.name[i] == 'P' ==> ReadUnit(env, i) == ReadPointer(env, i)
    ensures env.name[i] == 'A' ==> ReadUnit(env, i) == ReadRawArray(env, i)
    ensures env.name[i] == 'V' ==> ReadUnit(env, i) == ReadVArray(env, i)
    ensures env.name[i] == 'k' ==> ReadUnit(env, i) == Got(Info("CString", CSTRING), i + 1)
    ensures env.name[i] == 'G' ==> ReadUnit(env, i) == ReadGenericParameter(env, i)
    ensures PrimitiveName(env.name[i]) != "" ==> ReadUnit(env, i) == ReadPrimitive(env.name, i)
  {
    hide ReadClass, ReadFunction, ReadTuple, ReadPointer, ReadRawArray, ReadVArray, ReadGenericParameter, ReadName,
      ReadPrimitive, OperatorAt, OperatorName;
  }

  /** Characters that begin a unit by themselves. */
  predicate SelectsUnit(c: char) {
    c in {'C', 'R', 'N', 'F', 'T', 'P', 'A', 'V', 'k', 'G'}
  }

  /** What is read where no such character stands. */
  lemma UnitNotSelected(env: Env, i: nat)
    requires env.Valid()
    ensures i >= |env.name| ==> ReadUnit(env, i) == Failed
    ensures i < |env.name| && env.name[i] == 'F' && CharAt(env.name, i + 1) !in {'0', 'C'} ==>
      ReadUnit(env, i) == Failed
    ensures i < |env.name| && !SelectsUnit(env.name[i]) ==>
      var c, name := env.name[i], ReadName(env.name, i);
      ReadUnit(env, i) ==
      if IsDigit(c) then (if name.Failed? then Failed else Got(Info(name.value, NAME), name.next))
      else if PrimitiveName(c) != "" then ReadPrimitive(env.name, i)
      else if c != '_' && OperatorAt(env.name, i) then Got(Info(OperatorName(env.name[i..i + 2]), NAME), i + 2)
      else Failed
  {
    hide ReadClass, ReadFunction, ReadTuple, ReadPointer, ReadRawArray, ReadVArray, ReadGenericParameter, ReadName,
      ReadPrimitive, OperatorName, PrimitiveName;
  }

  /** A primitive type is one letter, but `D` has an `h` behind it. */
  function ReadPrimitive(s: string, i: nat): (r: Reading<DemangleInfo>)
    requires i < |s|
    ensures r.Got? ==> i < r.next <= |s| && r.value.isValid && r.value.kind == PRIMITIVE
  {
    if s[i] != 'D' then Got(Info(PrimitiveName(s[i]), PRIMITIVE), i + 1)
    else if CharAt(s, i + 1) == 'h' then Got(Info(PrimitiveName('D'), PRIMITIVE), i + 2)
    else Failed
  }

  function ReadGenericParameter(env: Env, i: nat): (r: Reading<DemangleInfo>)
    requires i < |env.name|
    ensures r.Got? ==> i < r.next <= |env.name| && r.value.isValid && r.value.kind == GENERIC_TYPES
  {
    match ReadNumber(env.name, i + 1)
    case Failed => Failed
    case Got(n, j) =>
      if env.genericVec == [] then Got(Info("T" + UIntToString(n), GENERIC_TYPES), j)
      else if n < |env.genericVec| then Got(Info(env.genericVec[n], GENERIC_TYPES), j)
      else Failed
  }

  /** A class, struct or enum: its declaration, and maybe an end mark. */
  function ReadClass(env: Env, i: nat, kind: TypeKind): (r: Reading<DemangleInfo>)
    requires env.Valid() && i < |env.name|
    ensures r.Got? ==> i < r.next <= |env.name| && r.value.isValid && r.value.kind == kind
    decreases |env.name| - i, 1
  {
    match ReadCommonDecl(env, i + 1, true)
    case Failed => Failed
    case Got(di, j) => Got(di.(kind := kind), SkipAt(env.name, j, END))
  }

  /** A function type: two characters, the result type, the parameter types and an end mark. */
  function ReadFunction(env: Env, i: nat): (r: Reading<DemangleInfo>)
    requires env.Valid() && i + 1 < |env.name|
    ensures r.Got? ==> i < r.next <= |env.name| && r.value.isValid && r.value.kind == FUNCTION
    decreases |env.name| - i, 1
  {
    match ReadUnit(env, i + 2)
    case Failed => Failed
    case Got(ret, j) =>
      match ReadArgs(env, j, UINT32_MAX)
      case Failed => Failed
      case Got(params, k) =>
        if CharAt(env.name, k) != END then Failed
        else Got(Info(ret.GetFullName(env.scopeResolution), FUNCTION).(args := Joined(params, ARGS_DELIMITER)), k + 1)
  }

  function ReadTuple(env: Env, i: nat): (r: Reading<DemangleInfo>)
    requires env.Valid() && i < |env.name|
    ensures r.Got? ==> i < r.next <= |env.name| && r.value.isValid && r.value.kind == TUPLE
    decreases |env.name| - i, 1
  {
    match ReadNumber(env.name, i + 1)
    case Failed => Failed
    case Got(_, j) =>
      match ReadGenerics(env, j)
      case Failed => Failed
      case Got(types, k) =>
        if CharAt(env.name, k) != END then Failed
        else
          var shown := env.genericTypefilter(TypesInfo(types).GetFullName(env.scopeResolution));
          Got(Info("Tuple", TUPLE).(genericTypes := shown), k + 1)
  }

  function Brackets(n: nat): string {
    if n == 0 then "" else Brackets(n - 1) + "[]"
  }

  function ReadRawArray(env: Env, i: nat): (r: Reading<DemangleInfo>)
    requires env.Valid() && i < |env.name|
    ensures r.Got? ==> i < r.next <= |env.name| && r.value.isValid && r.value.kind == RAW_ARRAY
    decreases |env.name| - i, 1
  {
    match ReadNumber(env.name, i + 1)
    case Failed => Failed
    case Got(dim, j) =>
      match ReadUnit(env, j)
      case Failed => Failed
      case Got(element, k) =>
        Got(Info("RawArray", RAW_ARRAY).(genericConstraints := Brackets(dim),
                                         args := element.GetFullName(env.scopeResolution)), k)
  }

  /** An array of fixed size, which has no end mark of its own. */
  function ReadVArray(env: Env, i: nat): (r: Reading<DemangleInfo>)
    requires env.Valid() && i < |env.name|
    ensures r.Got? ==> i < r.next <= |env.name| && r.value.isValid && r.value.kind == TUPLE
    decreases |env.name| - i, 1
  {
    match ReadNumber(env.name, i + 1)
    case Failed => Failed
    case Got(size, j) =>
      match ReadGenerics(env, j)
      case Failed => Failed
      case Got(types, k) =>
        var shown := TypesInfo(types).GetFullName(env.scopeResolution, size % (UINT32_MAX + 1));
        Got(Info("VArray", TUPLE).(genericTypes := shown), k)
  }

  function ReadPointer(env: Env, i: nat): (r: Reading<DemangleInfo>)
    requires env.Valid() && i < |env.name|
    ensures r.Got? ==> i < r.next <= |env.name| && r.value.isValid && r.value.kind == CPOINTER
    decreases |env.name| - i, 1
  {
    if !QualifiedTypeAt(env.name, i + 1) then Failed
    else
      match ReadUnit(env, i + 1)
      case Failed => Failed
      case Got(to, j) =>
        var shown := TypesInfo([to.GetFullName(env.scopeResolution)]).GetFullName(env.scopeResolution);
        Got(Info("CPointer", CPOINTER).(genericTypes := env.genericTypefilter(shown)), j)
  }

  // ----- lists of units -----

  /** Arguments up to an end mark, a `$`, the end of the name or the given number; underscores may set them apart. */
  function ReadArgList(env: Env, i: nat, size: nat): (r: Reading<seq<string>>)
    requires env.Valid()
    ensures r.Got? ==> i <= r.next && (i <= |env.name| ==> r.next <= |env.name|)
    decreases |env.name| - i, 3
  {
    var s := env.name;
    if EndsAt(s, i) || size == 0 then Got([], i)
    else
      var j := SkipAt(s, i, MANGLE_UNDERSCORE_PREFIX);
      if CharAt(s, j) == '$' then Got([], j)
      else
        match ReadUnit(env, j)
        case Failed => Failed
        case Got(di, k) => Prepend([di.GetFullName(env.scopeResolution)], ReadArgList(env, k, size - 1))
  }

  /** What one round of reading arguments does. */
  lemma ArgListStep(env: Env, i: nat, size: nat)
    requires env.Valid()
    ensures EndsAt(env.name, i) || size == 0 ==> ReadArgList(env, i, size) == Got([], i)
    ensures !EndsAt(env.name, i) && size > 0 ==>
      var j := SkipAt(env.name, i, MANGLE_UNDERSCORE_PREFIX);
      var r := ReadUnit(env, j);
      ReadArgList(env, i, size) ==
      if CharAt(env.name, j) == '$' then Got([], j)
      else if r.Failed? then Failed
      else Prepend([r.value.GetFullName(env.scopeResolution)], ReadArgList(env, r.next, size - 1))
  {
    hide ReadUnit, DemangleInfo.GetFullName;
  }

  /** One more argument behind those that are done. */
  lemma NextArgument(env: Env, i: nat, size: nat, done: seq<string>)
    requires env.Valid() && !EndsAt(env.name, i) && size > 0
    requires CharAt(env.name, SkipAt(env.name, i, MANGLE_UNDERSCORE_PREFIX)) != '$'
    ensures var r := ReadUnit(env, SkipAt(env.name, i, MANGLE_UNDERSCORE_PREFIX));
      Prepend(done, ReadArgList(env, i, size)) ==
      if r.Failed? then Failed
      else Prepend(done + [r.value.GetFullName(env.scopeResolution)], ReadArgList(env, r.next, size - 1))
  {
    hide ReadUnit, ReadArgList, DemangleInfo.GetFullName, SkipAt, EndsAt;
    ArgListStep(env, i, size);
    var r := ReadUnit(env, SkipAt(env.name, i, MANGLE_UNDERSCORE_PREFIX));
    if r.Got? {
      PrependOneMore(done, r.value.GetFullName(env.scopeResolution), ReadArgList(env, r.next, size - 1));
    }
  }

  /** Arguments; a `v` that ends the name says that there are none. */
  function ReadArgs(env: Env, i: nat, size: nat): (r: Reading<seq<string>>)
    requires env.Valid()
    ensures r.Got? ==> i <= r.next && (i <= |env.name| ==> r.next <= |env.name|)
    decreases |env.name| - i, 4
  {
    if i + 1 == |env.name| && env.name[i] == MANGLE_VOID_PREFIX then Got([], i + 1) else ReadArgList(env, i, size)
  }

  predicate GenericsEndAt(s: string, i: nat) {
    EndsAt(s, i) || IsDigit(s[i]) || s[i] == MANGLE_FUNCTION_PREFIX || OperatorAt(s, i)
  }

  /** Type arguments, up to an end mark or something that no type begins with. */
  function ReadGenerics(env: Env, i: nat): (r: Reading<seq<string>>)
    requires env.Valid()
    ensures r.Got? ==> i <= r.next && (i <= |env.name| ==> r.next <= |env.name|)
    decreases |env.name| - i, 3
  {
    if GenericsEndAt(env.name, i) then Got([], i)
    else
      match ReadUnit(env, i)
      case Failed => Failed
      case Got(di, j) => Prepend([di.GetFullName(env.scopeResolution)], ReadGenerics(env, j))
  }

  predicate ParametersEndAt(s: string, i: nat) {
    EndsAt(s, i) || IsDigit(s[i])
  }

  function ReadParameterList(env: Env, i: nat): (r: Reading<seq<string>>)
    requires env.Valid()
    ensures r.Got? ==> i <= r.next && (i <= |env.name| ==> r.next <= |env.name|)
    decreases |env.name| - i, 3
  {
    if ParametersEndAt(env.name, i) then Got([], i)
    else
      match ReadUnit(env, i)
      case Failed => Failed
      case Got(di, j) => Prepend([di.GetFullName(env.scopeResolution)], ReadParameterList(env, j))
  }

  /** The parameter types of a declared function; a `v` says that there are none. */
  function ReadParameters(env: Env, i: nat): (r: Reading<seq<string>>)
    requires env.Valid()
    ensures r.Got? ==> i <= r.next && (i <= |env.name| ==> r.next <= |env.name|)
    decreases |env.name| - i, 4
  {
    if CharAt(env.name, i) == MANGLE_VOID_PREFIX then Got([], i + 1) else ReadParameterList(env, i)
  }

  // ----- nested names -----

  /** The name of one nested declaration: an operator, or a name that may belong to a property. */
  function ReadNestedName(s: string, i: nat): (r: Reading<DemangleInfo>)
    ensures r.Got? ==> i < r.next <= |s|
  {
    if OperatorAt(s, i) then Got(Info(OperatorName(s[i..i + 2]), NAME), i + 2)
    else
      match ReadName(s, i)
      case Failed => Failed
      case Got(name, j) =>
        if j + 1 < |s| && s[j..j + 2] == "ps" then Got(Info(name + "::set", NAME), j + 2)
        else if j + 1 < |s| && s[j..j + 2] == "pg" then Got(Info(name + "::get", NAME), j + 2)
        else Got(Info(name, NAME), j)
  }

  /** What may stand behind the name of a nested declaration: type arguments, and parameter types. */
  function ReadSignature(env: Env, di: DemangleInfo, i: nat, isClass: bool): (r: Reading<(DemangleInfo, TypeKind)>)
    requires env.Valid() && i <= |env.name|
    ensures r.Got? ==> i <= r.next <= |env.name|
    decreases |env.name| - i, 6
  {
    if CharAt(env.name, i) != MANGLE_GENERIC_PREFIX then ReadFunctionPart(env, di, i)
    else
      match ReadGenerics(env, i + 1)
      case Failed => Failed
      case Got(types, j) =>
        var shown := env.genericTypefilter(TypesInfo(types).GetFullName(env.scopeResolution));
        ReadFunctionPart(env, di.(genericTypes := shown), if isClass then j else SkipAt(env.name, j, END))
  }

  function ReadFunctionPart(env: Env, di: DemangleInfo, i: nat): (r: Reading<(DemangleInfo, TypeKind)>)
    requires env.Valid() && i <= |env.name|
    ensures r.Got? ==> i <= r.next <= |env.name|
    decreases |env.name| - i, 5
  {
    if CharAt(env.name, i) != MANGLE_FUNCTION_PREFIX then Got((di, COMMON_DECL), i)
    else
      match ReadParameters(env, i + 1)
      case Failed => Failed
      case Got(types, j) =>
        Got((di.(functionParameterTypes := Joined(types, ARGS_DELIMITER)), FUNCTION_DECL), SkipAt(env.name, j, END))
  }

  /** How one nested declaration is shown; a function that others are nested in shows its parameters when asked to. */
  function ShownPart(env: Env, di: DemangleInfo, next: nat, isParamInit: bool): string {
    var name := di.GetFullName(env.scopeResolution);
    if isParamInit && !EndsAt(env.name, next) && di.functionParameterTypes != ""
    then name + "(" + di.functionParameterTypes + ")"
    else name
  }

  /** Nested names from a place on, after the parts found so far. */
  function ReadNestedFrom(env: Env, i: nat, isClass: bool, isParamInit: bool, parts: Parts): (r: Reading<Parts>)
    requires env.Valid() && parts.Valid()
    ensures r.Got? ==> i <= r.next && (i <= |env.name| ==> r.next <= |env.name|) && r.value.Valid()
    decreases |env.name| - i, 7
  {
    var s := env.name;
    if EndsAt(s, i) then Got(parts, i)
    else if s[i] == MANGLE_LAMBDA_PREFIX then
      match ReadNumber(s, i + 1)
      case Failed => Failed
      case Got(n, j) =>
        ReadNestedFrom(env, j, isClass, isParamInit, parts.Put("lambda." + UIntToString(n), LAMBDA_FUNCTION))
    else if s[i] == MANGLE_EXTEND_PREFIX then
      match ReadExtension(env, i)
      case Failed => Failed
      case Got(extended, j) => ReadNestedFrom(env, j, isClass, isParamInit, parts.Put(extended, COMMON_DECL))
    else
      match ReadNamedPart(env, i, isClass, isParamInit)
      case Failed => Failed
      case Got(part, j) =>
        if part.isLast then Got(parts.Put(part.shown, part.kind), j)
        else ReadNestedFrom(env, j, isClass, isParamInit, parts.Push(part, env.scopeResolution))
  }

  function ReadNamedPart(env: Env, i: nat, isClass: bool, isParamInit: bool): (r: Reading<Part>)
    requires env.Valid() && i < |env.name|
    ensures r.Got? ==> i < r.next <= |env.name|
    decreases |env.name| - i, 6
  {
    match ReadNestedName(env.name, i)
    case Failed => Failed
    case Got(di, j) =>
      if j == |env.name| then Got(Part(di.GetFullName(env.scopeResolution), COMMON_DECL, "", true), j)
      else
        match CounterEnd(env.name, j)
        case None => Failed
        case Some(counted) =>
          match ReadSignature(env, di, counted, isClass)
          case Failed => Failed
          case Got((full, kind), k) =>
            Got(Part(ShownPart(env, full, k, isParamInit), kind, full.functionParameterTypes, false), k)
  }

  /** What one round of reading nested names does. */
  lemma NestedStep(env: Env, i: nat, isClass: bool, isParamInit: bool, parts: Parts)
    requires env.Valid() && parts.Valid()
    ensures EndsAt(env.name, i) ==> ReadNestedFrom(env, i, isClass, isParamInit, parts) == Got(parts, i)
    ensures !EndsAt(env.name, i) && env.name[i] == MANGLE_LAMBDA_PREFIX ==>
      var r := ReadNumber(env.name, i + 1);
      ReadNestedFrom(env, i, isClass, isParamInit, parts) ==
      if r.Failed? then Failed
      else
        ReadNestedFrom(env, r.next, isClass, isParamInit,
                       parts.Put("lambda." + UIntToString(r.value), LAMBDA_FUNCTION))
    ensures !EndsAt(env.name, i) && env.name[i] == MANGLE_EXTEND_PREFIX ==>
      var r := ReadExtension(env, i);
      ReadNestedFrom(env, i, isClass, isParamInit, parts) ==
      if r.Failed? then Failed
      else ReadNestedFrom(env, r.next, isClass, isParamInit, parts.Put(r.value, COMMON_DECL))
    ensures !EndsAt(env.name, i) && env.name[i] !in {MANGLE_LAMBDA_PREFIX, MANGLE_EXTEND_PREFIX} ==>
      var r := ReadNamedPart(env, i, isClass, isParamInit);
      ReadNestedFrom(env, i, isClass, isParamInit, parts) ==
      if r.Failed? then Failed
      else if r.value.isLast then Got(parts.Put(r.value.shown, r.value.kind), r.next)
      else ReadNestedFrom(env, r.next, isClass, isParamInit, parts.Push(r.value, env.scopeResolution))
  {
    hide ReadNumber, ReadExtension, ReadNamedPart, Parts.Put, Parts.Push;
  }

  /** The type that an extension is for, and maybe its file and a number. */
  function ReadExtension(env: Env, i: nat): (r: Reading<string>)
    requires env.Valid() && i < |env.name|
    ensures r.Got? ==> i < r.next <= |env.name|
    decreases |env.name| - i, 5
  {
    var s := env.name;
    if !QualifiedTypeAt(s, i + 1) then Failed
    else
      match ReadUnit(env, i + 1)
      case Failed => Failed
      case Got(extended, j) =>
        var file := if FileNameAt(s, j) then FileNameEnd(s, j) else Some(j);
        match file
        case None => Failed
        case Some(k) =>
          match CounterEnd(s, k)
          case None => Failed
          case Some(end) => Got(extended.GetIdentifier(), end)
  }

  function ReadNested(env: Env, i: nat, isClass: bool, isParamInit: bool): (r: Reading<DemangleInfo>)
    requires env.Valid()
    ensures r.Got? ==> i <= r.next && (i <= |env.name| ==> r.next <= |env.name|) && r.value.isValid
    decreases |env.name| - i, 8
  {
    match ReadNestedFrom(env, i, isClass, isParamInit, NoParts())
    case Failed => Failed
    case Got(parts, j) => Got(parts.Shows(env.scopeResolution), j)
  }

  lemma NestedShown(env: Env, i: nat, isClass: bool, isParamInit: bool)
    requires env.Valid()
    ensures var r := ReadNestedFrom(env, i, isClass, isParamInit, NoParts());
      ReadNested(env, i, isClass, isParamInit) ==
      if r.Failed? then Failed else Got(r.value.Shows(env.scopeResolution), r.next)
  {
    hide ReadNestedFrom, Parts.Shows;
  }

  // ----- declarations -----

  /** A package and nested names make a declaration; without a name there is none. */
  function DeclInfo(pkg: DemangleInfo, nested: DemangleInfo): DemangleInfo {
    Info(nested.demangled, nested.kind)
    .(pkgName := pkg.pkgName, isPrivateDeclaration := pkg.isPrivateDeclaration,
      args := if nested.kind == FUNCTION_DECL then nested.functionParameterTypes else nested.args)
  }

  function ReadPackageAndNested(env: Env, i: nat, isClass: bool, isParamInit: bool): (r: Reading<DemangleInfo>)
    requires env.Valid()
    ensures r.Got? ==> i < r.next <= |env.name| && r.value.isValid
    decreases |env.name| - i, 9
  {
    match ReadPackage(env, i)
    case Failed => Failed
    case Got(pkg, j) =>
      match ReadNested(env, j, isClass, isParamInit)
      case Failed => Failed
      case Got(nested, k) => if nested.demangled == "" then Failed else Got(DeclInfo(pkg, nested), k)
  }

  /** A declaration, or the variable that a global initialiser is for. */
  function ReadCommonDecl(env: Env, i: nat, isClass: bool): (r: Reading<DemangleInfo>)
    requires env.Valid()
    ensures r.Got? ==> i < r.next <= |env.name| && r.value.isValid
    decreases |env.name| - i, 10
  {
    var s := env.name;
    if CharAt(s, i) == 'N' then ReadPackageAndNested(env, i + 1, isClass, false)
    else if CharAt(s, i) == 'G' && CharAt(s, i + 1) == 'V' then
      match ReadPackageAndNested(env, i + 2, isClass, false)
      case Failed => Failed
      case Got(di, j) => Got(di.(kind := COMMON_DECL), j)
    else Failed
  }

  /** A parameter's default function: an identifier up to an underscore, the parameter's number, and arguments. */
  function ReadDefaultParam(env: Env, i: nat): (r: Reading<DemangleInfo>)
    requires env.Valid() && i < |env.name| && env.name[i] == '$'
    ensures r.Got? ==> i < r.next <= |env.name|
  {
    var s := env.name;
    var pos := Find(s, "_", i);
    if pos == -1 || pos == |s| - 1 || !IsDigit(s[pos + 1]) then Failed
    else
      assert s[pos..pos + 1][0] == '_';
      var identifier := s[i + 1..pos];
      // A null character in the identifier cuts it short, and no underscore stands there.
      if '\0' in identifier then Failed else ReadDefaultArgs(env, identifier, pos + 1)
  }

  function ReadDefaultArgs(env: Env, identifier: string, i: nat): (r: Reading<DemangleInfo>)
    requires env.Valid()
    ensures r.Got? ==> i < r.next <= |env.name|
  {
    match ReadLength(env.name, i)
    case Failed => Failed
    case Got(_, j) =>
      if EndsAt(env.name, j) then Failed
      else
        match ReadArgs(env, j, UINT32_MAX)
        case Failed => Failed
        case Got(args, k) => Got(Info(identifier, FUNCTION_DECL).(args := Joined(args, ARGS_DELIMITER)), k)
  }

  /** Reading the identifier up to a null character leads to its underscore just when there is no null character. */
  lemma IdentifierOfDefault(env: Env, i: nat, pos: int)
    requires env.Valid() && i < |env.name| && env.name[i] == '$' && Find(env.name, "_", i) == pos
    ensures pos == -1 || pos == |env.name| - 1 || !IsDigit(env.name[pos + 1]) ==> ReadDefaultParam(env, i) == Failed
    ensures pos != -1 ==>
      i < pos < |env.name| &&
      var s, identifier := env.name, env.name[i + 1..pos];
      && StandsAt(s, i + 1, CStr(identifier)) && i + 1 + |CStr(identifier)| < |s|
      && (s[i + 1 + |CStr(identifier)|] == '_' <==> CStr(identifier) == identifier)
      && (pos < |s| - 1 && IsDigit(s[pos + 1]) ==>
            ReadDefaultParam(env, i) ==
            if CStr(identifier) == identifier then ReadDefaultArgs(env, identifier, pos + 1) else Failed)
  {
    hide CStr, ReadDefaultArgs;
    if pos != -1 {
      assert env.name[pos..pos + 1][0] == '_' && i < pos;
      var s, identifier := env.name, env.name[i + 1..pos];
      FirstUnderscore(s, i, pos);
      PartStandsAt(s, i + 1, pos, CStr(identifier));
    }
  }

  lemma PartStandsAt(s: string, i: nat, j: nat, part: string)
    requires i <= j <= |s| && part <= s[i..j]
    ensures StandsAt(s, i, part)
  {
    assert part == s[i..j][..|part|] == s[i..][..|part|];
  }

  lemma {:induction false} FirstUnderscore(s: string, i: nat, pos: nat)
    requires Find(s, "_", i) == pos
    ensures forall k :: i <= k < pos ==> k < |s| && s[k] != '_'
    decreases pos - i
  {
    FindStep(s, '_', i);
    if i < pos {
      FirstUnderscore(s, i + 1, pos);
    }
  }

  /** A whole declared name: what is declared, its arguments, and maybe a default function of one of them. */
  function ReadDecl(env: Env): (r: Reading<DemangleInfo>)
    requires env.Valid()
    ensures r.Got? ==> r.next <= |env.name| && r.value.isValid
  {
    var s := env.name;
    if !StandsAt(s, 0, "_C") then Failed
    else
      match ReadCommonDecl(env, 2, false)
      case Failed => Failed
      case Got(di, i) =>
        if di.kind == LAMBDA_FUNCTION || EndsAt(s, i) then Got(di, i)
        else
          match ReadArgs(env, i, UINT32_MAX)
          case Failed => Failed
          case Got(args, j) =>
            var decl := di.(kind := FUNCTION_DECL, args := Joined(args, ARGS_DELIMITER));
            if CharAt(s, j) != '$' then Got(decl, j)
            else
              match ReadDefaultParam(env, j)
              case Failed => Failed
              case Got(dpf, k) =>
                var shown := decl.GetFullName(env.scopeResolution) + env.scopeResolution + dpf.demangled;
                Got(decl.(demangled := shown, args := dpf.args), k)
  }

  // ----- whole names -----

  /** What the initialiser of a package or file does, by the ending of its name. */
  function GlobalInitSuffix(s: string): Option<string> {
    if EndsWith(s, "irHv") then Some("_global_reset")
    else if EndsWith(s, "ifHv") then Some("_global_flag_reset")
    else if EndsWith(s, "ilHv") then Some("_global_init_literal")
    else if EndsWith(s, "fiHv") then Some("_global_init_imports")
    else if EndsWith(s, "flHv") then Some("_global_init_import_literal")
    else if EndsWith(s, "iiHv") then Some("_global_init")
    else None
  }

  function ReadGlobalInit(env: Env): (r: Reading<DemangleInfo>)
    requires env.Valid()
    ensures r.Got? ==> r.value.isValid
  {
    if !(StandsAt(env.name, 0, "_CGP") || StandsAt(env.name, 0, "_CGF")) then Failed
    else
      match ReadPackage(env, 4)
      case Failed => Failed
      case Got(pkg, i) =>
        match GlobalInitSuffix(env.name)
        case None => Failed
        case Some(suffix) =>
          Got(Info(pkg.pkgName + (if env.name[3] == 'P' then "::package" else "::file") + suffix, NAME), i)
  }

  /** A name whose references are expanded: an initialiser, an inner function, a wrapper, or a declaration. */
  function ReadWhole(env: Env): (r: Reading<DemangleInfo>)
    requires env.Valid()
    ensures r.Got? ==> r.value.isValid
  {
    var s := env.name;
    var lambda := Find(s, "$lambda.", 0);
    if StandsAt(s, 0, "_CGP") || StandsAt(s, 0, "_CGF") then ReadGlobalInit(env)
    else if StandsAt(s, 0, "_CPI") then ReadPackageAndNested(env, 4, false, true)
    else if |s| > 9 && lambda > -1 then Got(Info(s[lambda + 1..], LAMBDA_FUNCTION).(pkgName := s[..lambda]), |s|)
    else if |s| > 5 && Find(s, "$real", 0) > -1 then Got(Info(s[..|s| - 5], NAME), 0)
    else if StandsAt(s, 0, "_CV") then WrappedInfo(ReadDecl(env.(name := Unwrapped(s))))
    else ReadDecl(env)
  }

  function WrappedInfo(r: Reading<DemangleInfo>): Reading<DemangleInfo> {
    match r
    case Failed => Failed
    case Got(di, i) => Got(di.(demangled := di.demangled + "<compiler generated>", kind := WRAPPED_FUNCTION), i)
  }

  /** The declaration inside a wrapper: between its prefix and the end mark, with no end mark all that is left. */
  function Unwrapped(s: string): string
    requires StandsAt(s, 0, "_CV")
  {
    var end := Find(s, "$", 0);
    assert end >= 0 ==> s[end..end + 1][0] == '$';
    "_C" + (if end == -1 then s[3..] else s[3..end])
  }
}
