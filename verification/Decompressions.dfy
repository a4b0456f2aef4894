/**
 * Back references in compressed mangled names.
 *
 * While a name is read, stretches of it are entered in a table by start and length. Later on, `Y<number>_` stands for
 * the text of an entry. Expanding rewrites the string in place while scanning it. It is specified on tokens: the unread
 * text is split into literal characters and references once, and each reference is replaced by text already written.
 */
module Decompressions {
  import opened MangledTexts
  import opened Wrappers

  const MANGLE_COMPRESS_PREFIX := 'Y'

  datatype Entry = Entry(start: nat, len: nat)

  // ----- numbers -----

  predicate IsAlnum(c: char) {
    Base62Digit(c) >= 0
  }

  /** Where the letters and digits from `idx` on end. */
  function AlnumEnd(s: string, idx: nat): (end: nat)
    ensures idx <= end && (idx <= |s| ==> end <= |s|)
    ensures forall k :: idx <= k < end ==> k < |s| && IsAlnum(s[k])
    ensures end < |s| ==> !IsAlnum(s[end])
    decreases |s| - idx
  {
    if idx < |s| && IsAlnum(s[idx]) then AlnumEnd(s, idx + 1) else idx
  }

  /** The place after a number and its underscore, or `idx` where no number stands. */
  function NumberEnd(s: string, idx: nat): (end: nat)
    ensures idx <= end && (idx <= |s| ==> end <= |s|)
    ensures end != idx ==> end <= |s| && s[end - 1] == '_' && IsBase62(s[idx..end - 1])
  {
    var end := AlnumEnd(s, idx);
    if end < |s| && s[end] == '_' then end + 1 else idx
  }

  method ForwardNumber(mangled: string, idx: nat) returns (end: nat)
    ensures end == NumberEnd(mangled, idx)
  {
    var curIdx := idx;
    while curIdx < |mangled| && IsAlnum(mangled[curIdx])
      invariant idx <= curIdx && AlnumEnd(mangled, idx) == AlnumEnd(mangled, curIdx)
    {
      curIdx := curIdx + 1;
    }
    if curIdx < |mangled| && mangled[curIdx] == '_' {
      return curIdx + 1;
    }
    return idx;
  }

  /** A number as it stands in a name: letters and digits, and an underscore that closes it. */
  predicate IsNumber(base62: string) {
    base62 != "" && IsBase62(base62[..|base62| - 1])
  }

  function NumberOf(base62: string): nat
    requires IsNumber(base62)
  {
    ManglingNumber(base62[..|base62| - 1])
  }

  /** The number that letters and digits before a closing underscore stand for: the same as in the demangler. */
  method GetNumber(base62: string) returns (n: nat)
    requires IsNumber(base62)
    ensures n == NumberOf(base62)
  {
    if |base62| == 1 {
      return 0;
    }
    var _, value := ReadBase62(base62[..|base62| - 1]);
    PlusOne(Base62Value(base62[..|base62| - 1]));
    n := (value + 1) % SIZE_RANGE;
  }

  // ----- tokens -----

  /** `Tail` is text that is not looked at any more. */
  datatype Token = Lit(c: char) | Ref(entry: nat, text: string) | Tail(text: string)

  /** What stands at the front of unread text. A reference to an entry the table does not have ends the reading. */
  function Front(rest: string, entries: seq<Entry>): (t: Token)
    requires rest != ""
    ensures t.Ref? ==> t.entry < |entries| && entries[t.entry].len > 0 && 2 <= |t.text| && t.text <= rest
    ensures t.Lit? ==> t.c == rest[0]
    ensures t.Tail? ==> t.text == rest
  {
    if rest[0] != MANGLE_COMPRESS_PREFIX || entries == [] then Lit(rest[0])
    else
      var k := NumberEnd(rest, 1);
      if k == 1 then Lit(rest[0])
      else
        var n := ManglingNumber(rest[1..k - 1]);
        if n >= |entries| then Tail(rest)
        else if entries[n].len == 0 then Lit(rest[0])
        else Ref(n, rest[..k])
  }

  function TextOf(t: Token): string {
    match t
    case Lit(c) => [c]
    case Ref(_, text) => text
    case Tail(text) => text
  }

  /** The tokens of unread text of which `limit` characters are to be looked at; a reference lifts the limit. */
  function Tokens(rest: string, limit: nat, entries: seq<Entry>): seq<Token>
    decreases |rest|
  {
    if rest == "" then []
    else if limit == 0 then [Tail(rest)]
    else
      var t := Front(rest, entries);
      var k := |TextOf(t)|;
      [t] + Tokens(rest[k..], if t.Lit? then limit - 1 else |rest| - k, entries)
  }

  /** Writes tokens after what is written so far; a reference repeats what the entry covers of that. */
  function Expansion(written: string, tokens: seq<Token>, entries: seq<Entry>): string
    decreases tokens
  {
    if tokens == [] then written
    else Expansion(written + Meaning(written, tokens[0], entries), tokens[1..], entries)
  }

  predicate EndsBy(e: Entry, place: nat) {
    e.start + e.len <= place
  }

  function Meaning(written: string, t: Token, entries: seq<Entry>): string {
    match t
    case Ref(n, _) =>
      if n < |entries| && EndsBy(entries[n], |written|)
      then written[entries[n].start..entries[n].start + entries[n].len] else ""
    case _ => TextOf(t)
  }

  /** Every reference names an entry that ends before it. */
  predicate PointsBack(written: string, tokens: seq<Token>, entries: seq<Entry>)
    decreases tokens
  {
    tokens == [] ||
    (&& (tokens[0].Ref? ==> tokens[0].entry < |entries| && EndsBy(entries[tokens[0].entry], |written|))
     && PointsBack(written + Meaning(written, tokens[0], entries), tokens[1..], entries))
  }

  function Source(tokens: seq<Token>): string {
    if tokens == [] then "" else TextOf(tokens[0]) + Source(tokens[1..])
  }

  /** Splitting into tokens loses nothing, and no text is read twice. */
  lemma {:induction false} TokensCover(rest: string, limit: nat, entries: seq<Entry>)
    ensures Source(Tokens(rest, limit, entries)) == rest
    decreases |rest|
  {
    hide Front;
    if rest != "" {
      if limit == 0 {
        assert Source([Tail(rest)]) == rest + Source([]);
      } else {
        var t := Front(rest, entries);
        var k := |TextOf(t)|;
        TokensCover(rest[k..], if t.Lit? then limit - 1 else |rest| - k, entries);
        assert rest == rest[..k] + rest[k..];
      }
    }
  }

  /** What was written before stays. */
  lemma {:induction false} PrefixIsUntouched(written: string, tokens: seq<Token>, entries: seq<Entry>)
    ensures written <= Expansion(written, tokens, entries)
    decreases tokens
  {
    if tokens != [] {
      PrefixIsUntouched(written + Meaning(written, tokens[0], entries), tokens[1..], entries);
    }
  }

  // ----- expansion in place -----

  lemma {:induction false} AlnumEndOfRest(s: string, idx: nat, j: nat)
    requires idx <= j <= |s|
    ensures AlnumEnd(s, j) == idx + AlnumEnd(s[idx..], j - idx)
    decreases |s| - j
  {
    if j < |s| && IsAlnum(s[j]) {
      AlnumEndOfRest(s, idx, j + 1);
    }
  }

  lemma SliceOfRest(s: string, idx: nat, i: nat, j: nat)
    requires i <= j && idx + j <= |s|
    ensures s[idx..][i..j] == s[idx + i..idx + j]
  {
  }

  lemma SliceOfSlice(s: string, i: nat, j: nat, m: nat)
    requires i <= i + m <= j <= |s|
    ensures s[i..j][..m] == s[i..i + m]
  {
  }

  lemma NumberEndOfRest(s: string, idx: nat, j: nat)
    requires idx <= j <= |s|
    ensures NumberEnd(s, j) == idx + NumberEnd(s[idx..], j - idx)
  {
    hide AlnumEnd, IsAlnum, IsBase62;
    AlnumEndOfRest(s, idx, j);
    var end := AlnumEnd(s, j);
    assert end < |s| ==> s[idx..][end - idx] == s[end];
  }

  /** The tokens that are still to be read at `idx`, up to `end`. */
  ghost function Unread(r: string, idx: nat, end: nat, entries: seq<Entry>): seq<Token>
    requires idx <= |r|
  {
    Tokens(r[idx..], if idx < end then end - idx else 0, entries)
  }

  /** Expanding what is unread leads to `goal`, and every reference in it points back. */
  ghost predicate LeadsTo(r: string, idx: nat, end: nat, entries: seq<Entry>, goal: string) {
    && idx <= |r|
    && PointsBack(r[..idx], Unread(r, idx, end, entries), entries)
    && Expansion(r[..idx], Unread(r, idx, end, entries), entries) == goal
  }

  lemma FirstOf(written: string, t: Token, tokens: seq<Token>, entries: seq<Entry>)
    ensures Source([t] + tokens) == TextOf(t) + Source(tokens)
    ensures var written' := written + Meaning(written, t, entries);
      && Expansion(written, [t] + tokens, entries) == Expansion(written', tokens, entries)
      && (PointsBack(written, [t] + tokens, entries) <==>
            (t.Ref? ==> t.entry < |entries| && EndsBy(entries[t.entry], |written|)) &&
              PointsBack(written', tokens, entries))
  {
    hide Meaning, EndsBy;
    assert ([t] + tokens)[1..] == tokens;
  }

  lemma ReadNothing(r: string, idx: nat, end: nat, entries: seq<Entry>, goal: string)
    requires LeadsTo(r, idx, end, entries, goal)
    requires idx >= end || idx == |r| || Front(r[idx..], entries).Tail?
    ensures goal == r
  {
    hide Front;
    var rest := r[idx..];
    assert r == r[..idx] + rest;
    if rest == "" {
      assert Unread(r, idx, end, entries) == [];
    } else {
      var tokens := Unread(r, idx, end, entries);
      assert rest[|rest|..] == "" && Tokens("", 0, entries) == [];
      assert tokens == [Tail(rest)];
      assert Expansion(r[..idx], tokens, entries) == Expansion(r[..idx] + rest, [], entries);
    }
  }

  lemma ReadLiteral(r: string, idx: nat, end: nat, entries: seq<Entry>, goal: string)
    requires LeadsTo(r, idx, end, entries, goal) && idx < end && idx < |r|
    requires Front(r[idx..], entries).Lit?
    ensures LeadsTo(r, idx + 1, end, entries, goal)
  {
    var tokens := Unread(r, idx, end, entries);
    assert r[idx..][1..] == r[idx + 1..] && r[..idx + 1] == r[..idx] + [r[idx]];
    assert tokens[1..] == Unread(r, idx + 1, end, entries);
  }

  lemma ReadReference(r: string, idx: nat, end: nat, entries: seq<Entry>, goal: string, n: nat, text: string)
    requires LeadsTo(r, idx, end, entries, goal) && idx < end && idx < |r|
    requires Front(r[idx..], entries) == Ref(n, text)
    ensures EndsBy(entries[n], idx) && idx + |text| <= |r|
    ensures var e := entries[n];
            var r' := r[..idx] + SubStr(r, e.start, e.len) + r[idx + |text|..];
            LeadsTo(r', idx + e.len, |r'|, entries, goal)
  {
    hide Front, Expansion, PointsBack, Tokens, Meaning, SubStr;
    var e, written, rest := entries[n], r[..idx], r[idx..];
    var tokens' := Tokens(rest[|text|..], |rest| - |text|, entries);
    assert Unread(r, idx, end, entries) == [Ref(n, text)] + tokens' by {
      TokensStartWith(rest, end - idx, entries);
    }
    FirstOf(written, Ref(n, text), tokens', entries);
    ReferenceMeans(r, idx, entries, n, text);
    Rewritten(r, idx, |text|, SubStr(r, e.start, e.len));
  }

  lemma TokensStartWith(rest: string, limit: nat, entries: seq<Entry>)
    requires rest != "" && limit > 0
    ensures var t := Front(rest, entries);
      var k := |TextOf(t)|;
      k <= |rest| &&
        Tokens(rest, limit, entries) == [t] + Tokens(rest[k..], if t.Lit? then limit - 1 else |rest| - k, entries)
  {
    hide Front;
  }

  lemma ReferenceMeans(r: string, idx: nat, entries: seq<Entry>, n: nat, text: string)
    requires idx <= |r| && n < |entries| && EndsBy(entries[n], idx)
    ensures Meaning(r[..idx], Ref(n, text), entries) == SubStr(r, entries[n].start, entries[n].len)
    ensures |SubStr(r, entries[n].start, entries[n].len)| == entries[n].len
  {
    var e := entries[n];
    SliceOfPrefix(r, idx, e.start, e.start + e.len);
  }

  lemma SliceOfPrefix(r: string, idx: nat, i: nat, j: nat)
    requires i <= j <= idx <= |r|
    ensures r[..idx][i..j] == r[i..j]
  {
  }

  /** Where `k` characters at `idx` are replaced by `copy`, the text before and after them stays. */
  lemma Rewritten(r: string, idx: nat, k: nat, copy: string)
    requires idx + k <= |r|
    ensures var r' := r[..idx] + copy + r[idx + k..];
      && r'[..idx + |copy|] == r[..idx] + copy
      && r'[idx + |copy|..] == r[idx..][k..] == r[idx + k..]
      && |r'| - (idx + |copy|) == |r| - (idx + k)
  {
  }

  /** What the scan decides at a place, in terms of the unread text. */
  lemma FrontAt(r: string, idx: nat, entries: seq<Entry>)
    requires idx < |r|
    ensures var end, t := NumberEnd(r, idx + 1), Front(r[idx..], entries);
      if r[idx] != MANGLE_COMPRESS_PREFIX || entries == [] || idx + 1 >= |r| || end == idx + 1 then t.Lit?
      else
        && idx + 1 < end <= |r|
        && IsNumber(r[idx + 1..end])
        && (var n := NumberOf(r[idx + 1..end]);
            if n >= |entries| then t.Tail? else if entries[n].len == 0 then t.Lit? else t == Ref(n, r[idx..end]))
  {
    hide AlnumEnd, ManglingNumber;
    NumberEndOfRest(r, idx, idx + 1);
    var end := NumberEnd(r, idx + 1);
    if end != idx + 1 {
      var rest, k := r[idx..], end - idx;
      SliceOfRest(r, idx, 1, k - 1);
      SliceOfRest(r, idx, 0, k);
      SliceOfSlice(r, idx + 1, end, k - 2);
      assert rest[..k] == rest[0..k];
      assert k == NumberEnd(rest, 1) && rest[1..k - 1] == r[idx + 1..end][..k - 2];
    }
  }

  // ----- references that follow each other -----

  /** The references at the front of unread text, up to the first thing that is not one. */
  function LeadingRefs(rest: string, entries: seq<Entry>): (run: seq<Token>)
    ensures |Source(run)| <= |rest| && Source(run) == rest[..|Source(run)|]
    ensures forall k :: 0 <= k < |run| ==> run[k].Ref?
    decreases |rest|
  {
    if rest == "" then []
    else
      var t := Front(rest, entries);
      if !t.Ref? then []
      else
        var run := LeadingRefs(rest[|t.text|..], entries);
        assert Source([t] + run) == t.text + Source(run);
        [t] + run
  }

  /** They are the first of the tokens that a whole expansion reads. */
  lemma {:induction false} LeadingRefsComeFirst(rest: string, limit: nat, entries: seq<Entry>)
    requires limit >= |rest|
    ensures LeadingRefs(rest, entries) <= Tokens(rest, limit, entries)
    decreases |rest|
  {
    if rest != "" {
      var t := Front(rest, entries);
      if t.Ref? {
        LeadingRefsComeFirst(rest[|t.text|..], |rest| - |t.text|, entries);
      }
    }
  }

  datatype Leading = Leading(r: string, change: nat, end: nat)

  /** What expanding the leading references of `rest` after `written` ends in. */
  ghost function Goal(written: string, rest: string, entries: seq<Entry>): Leading {
    var run := LeadingRefs(rest, entries);
    var all := Expansion(written, run, entries);
    Leading(all + rest[|Source(run)|..], |run|, |all|)
  }

  ghost predicate LeadsBy(r: string, end: nat, entries: seq<Entry>, change: nat, goal: Leading) {
    && end <= |r|
    && PointsBack(r[..end], LeadingRefs(r[end..], entries), entries)
    && (var g := Goal(r[..end], r[end..], entries); goal == g.(change := change + g.change))
  }

  lemma StartLeading(r: string, idx: nat, entries: seq<Entry>)
    requires idx <= |r|
    ensures PointsBack(r[..idx], LeadingRefs(r[idx..], entries), entries) ==>
      LeadsBy(r, idx, entries, 0, Goal(r[..idx], r[idx..], entries))
  {
  }

  lemma NoneLeading(r: string, end: nat, entries: seq<Entry>, change: nat, goal: Leading)
    requires LeadsBy(r, end, entries, change, goal) && (end == |r| || !Front(r[end..], entries).Ref?)
    ensures goal == Leading(r, change, end)
  {
    assert LeadingRefs(r[end..], entries) == [];
    assert r == r[..end] + r[end..] && r[end..][0..] == r[end..];
  }

  lemma LeadStep(written: string, rest: string, entries: seq<Entry>, n: nat, text: string)
    requires rest != "" && Front(rest, entries) == Ref(n, text)
    requires PointsBack(written, LeadingRefs(rest, entries), entries)
    ensures EndsBy(entries[n], |written|)
    ensures var e, rest' := entries[n], rest[|text|..];
      var written' := written + written[e.start..e.start + e.len];
      var g := Goal(written', rest', entries);
      PointsBack(written', LeadingRefs(rest', entries), entries)
      && Goal(written, rest, entries) == g.(change := g.change + 1)
  {
    hide Front, Expansion, PointsBack, Source;
    var run, run' := LeadingRefs(rest, entries), LeadingRefs(rest[|text|..], entries);
    assert run == [Ref(n, text)] + run';
    FirstOf(written, Ref(n, text), run', entries);
    assert Meaning(written, Ref(n, text), entries) == written[entries[n].start..entries[n].start + entries[n].len];
    assert rest[|text|..][|Source(run')|..] == rest[|Source(run)|..];
  }

  lemma LeadOn(r: string, end: nat, entries: seq<Entry>, change: nat, goal: Leading, n: nat, text: string)
    requires LeadsBy(r, end, entries, change, goal) && end < |r| && Front(r[end..], entries) == Ref(n, text)
    ensures EndsBy(entries[n], end) && end + |text| <= |r|
    ensures var e := entries[n];
            LeadsBy(r[..end] + SubStr(r, e.start, e.len) + r[end + |text|..], end + e.len, entries, change + 1, goal)
  {
    hide Front, LeadingRefs, PointsBack, Goal;
    var rest, written, e := r[end..], r[..end], entries[n];
    LeadStep(written, rest, entries, n, text);
    assert written[e.start..e.start + e.len] == SubStr(r, e.start, e.len);
    Rewritten(r, end, |text|, SubStr(r, e.start, e.len));
  }

  // ----- rewriting, whatever the entries are -----

  /** The string with a reference of `k` characters at `idx` replaced by what its entry covers of the string. */
  function Replaced(r: string, idx: nat, k: nat, e: Entry): string
    requires idx + k <= |r| && e.start <= |r|
  {
    r[..idx] + SubStr(r, e.start, e.len) + r[idx + k..]
  }

  lemma ReplacedIs(r: string, idx: nat, end: nat, e: Entry)
    requires idx <= end <= |r| && e.start <= |r|
    ensures Replaced(r, idx, end - idx, e) == r[..idx] + SubStr(r, e.start, e.len) + r[end..]
    ensures |r| - end >= |Replaced(r, idx, end - idx, e)| - (idx + e.len)
  {
  }

  /**
   * What rewriting from `idx` on ends in. An entry may cover unread text, or the reference itself; one that is cut off
   * at the end of the string makes the reading skip unread text. An entry outside the string is an error.
   */
  function ExpandedFrom(r: string, idx: nat, end: nat, entries: seq<Entry>): Option<string>
    decreases if idx <= |r| then |r| - idx + 1 else 0
  {
    if idx >= end || idx >= |r| then Some(r)
    else
      match Front(r[idx..], entries)
      case Lit(_) => ExpandedFrom(r, idx + 1, end, entries)
      case Tail(_) => Some(r)
      case Ref(n, text) =>
        if entries[n].start > |r| then None
        else
          var r' := Replaced(r, idx, |text|, entries[n]);
          ExpandedFrom(r', idx + entries[n].len, |r'|, entries)
  }

  /** The same for the references that follow each other at `end`. */
  function LeadingExpandedFrom(r: string, end: nat, change: nat, entries: seq<Entry>): Option<Leading>
    decreases if end <= |r| then |r| - end + 1 else 0
  {
    if end >= |r| || !Front(r[end..], entries).Ref? then Some(Leading(r, change, end))
    else
      var t := Front(r[end..], entries);
      var e := entries[t.entry];
      if e.start > |r| then None
      else LeadingExpandedFrom(Replaced(r, end, |t.text|, e), end + e.len, change + 1, entries)
  }

  /** One round of rewriting, in terms of what the scan looks at. */
  lemma ExpandedAt(r: string, idx: nat, end: nat, entries: seq<Entry>)
    requires idx < end && idx < |r|
    ensures var k := NumberEnd(r, idx + 1);
      if r[idx] != MANGLE_COMPRESS_PREFIX || entries == [] || idx + 1 >= |r| || k == idx + 1
      then ExpandedFrom(r, idx, end, entries) == ExpandedFrom(r, idx + 1, end, entries)
      else
        && idx + 1 < k <= |r| && IsNumber(r[idx + 1..k])
        && var n := NumberOf(r[idx + 1..k]);
        if n >= |entries| then ExpandedFrom(r, idx, end, entries) == Some(r)
        else if entries[n].len == 0 then ExpandedFrom(r, idx, end, entries) == ExpandedFrom(r, idx + 1, end, entries)
        else if entries[n].start > |r| then ExpandedFrom(r, idx, end, entries) == None
        else
          var r' := Replaced(r, idx, k - idx, entries[n]);
          ExpandedFrom(r, idx, end, entries) == ExpandedFrom(r', idx + entries[n].len, |r'|, entries)
  {
    hide Front, NumberEnd, NumberOf, IsNumber, Replaced;
    FrontAt(r, idx, entries);
  }

  lemma LeadingExpandedAt(r: string, end: nat, change: nat, entries: seq<Entry>)
    requires end < |r|
    ensures var k := NumberEnd(r, end + 1);
      if r[end] != MANGLE_COMPRESS_PREFIX || entries == [] || k == end + 1
      then LeadingExpandedFrom(r, end, change, entries) == Some(Leading(r, change, end))
      else
        && end + 1 < k <= |r| && IsNumber(r[end + 1..k])
        && var n := NumberOf(r[end + 1..k]);
        if n >= |entries| || entries[n].len == 0
        then LeadingExpandedFrom(r, end, change, entries) == Some(Leading(r, change, end))
        else if entries[n].start > |r| then LeadingExpandedFrom(r, end, change, entries) == None
        else
          LeadingExpandedFrom(r, end, change, entries) ==
          LeadingExpandedFrom(Replaced(r, end, k - end, entries[n]), end + entries[n].len, change + 1, entries)
  {
    hide Front, NumberEnd, NumberOf, IsNumber, Replaced;
    FrontAt(r, end, entries);
    if end + 1 >= |r| {
      NumberEndAtEnd(r, end + 1);
    }
  }

  lemma NumberEndAtEnd(s: string, idx: nat)
    requires idx >= |s|
    ensures NumberEnd(s, idx) == idx
  {
  }

  lemma LeadingExpandedEnds(r: string, end: nat, change: nat, entries: seq<Entry>)
    requires end >= |r|
    ensures LeadingExpandedFrom(r, end, change, entries) == Some(Leading(r, change, end))
  {
  }

  lemma ExpandedEnds(r: string, idx: nat, end: nat, entries: seq<Entry>)
    requires idx >= end || idx >= |r|
    ensures ExpandedFrom(r, idx, end, entries) == Some(r)
  {
  }

  lemma {:induction false} Expands(r: string, idx: nat, end: nat, entries: seq<Entry>, goal: string)
    requires LeadsTo(r, idx, end, entries, goal)
    ensures ExpandedFrom(r, idx, end, entries) == Some(goal)
    decreases |r| - idx
  {
    hide LeadsTo, Front;
    if idx >= end || idx >= |r| {
      EndReading(r, idx, end, entries, goal);
    } else {
      match Front(r[idx..], entries)
      case Lit(_) =>
        ReadLiteral(r, idx, end, entries, goal);
        Expands(r, idx + 1, end, entries, goal);
      case Tail(_) => ReadNothing(r, idx, end, entries, goal);
      case Ref(n, text) =>
        ReadReference(r, idx, end, entries, goal, n, text);
        var r' := Replaced(r, idx, |text|, entries[n]);
        Expands(r', idx + entries[n].len, |r'|, entries, goal);
    }
  }

  /** Where every referenced entry ends before its reference, rewriting is the expansion of the tokens. */
  lemma RewritingExpands(r: string, idx: nat, end: nat, entries: seq<Entry>)
    requires idx <= |r| && PointsBack(r[..idx], Unread(r, idx, end, entries), entries)
    ensures ExpandedFrom(r, idx, end, entries) == Some(Expansion(r[..idx], Unread(r, idx, end, entries), entries))
  {
    hide LeadsTo, Expansion, PointsBack, Tokens;
    var goal := Expansion(r[..idx], Unread(r, idx, end, entries), entries);
    StartReading(r, idx, end, entries, goal);
    Expands(r, idx, end, entries, goal);
  }

  lemma {:induction false} LeadingExpands(r: string, end: nat, entries: seq<Entry>, change: nat, goal: Leading)
    requires LeadsBy(r, end, entries, change, goal)
    ensures LeadingExpandedFrom(r, end, change, entries) == Some(goal)
    decreases |r| - end
  {
    hide LeadsBy, Front;
    LeadingInRange(r, end, entries, change, goal);
    if end >= |r| || !Front(r[end..], entries).Ref? {
      NoneLeading(r, end, entries, change, goal);
    } else {
      var t := Front(r[end..], entries);
      LeadOn(r, end, entries, change, goal, t.entry, t.text);
      LeadingExpands(Replaced(r, end, |t.text|, entries[t.entry]), end + entries[t.entry].len, entries, change + 1,
        goal);
    }
  }

  lemma LeadingInRange(r: string, end: nat, entries: seq<Entry>, change: nat, goal: Leading)
    requires LeadsBy(r, end, entries, change, goal)
    ensures end <= |r|
  {
  }

  /** And the references at a place are expanded, counted, and the place behind them named. */
  lemma RewritingExpandsLeading(r: string, idx: nat, entries: seq<Entry>)
    requires idx <= |r| && PointsBack(r[..idx], LeadingRefs(r[idx..], entries), entries)
    ensures LeadingExpandedFrom(r, idx, 0, entries) == Some(Goal(r[..idx], r[idx..], entries))
  {
    hide LeadsBy, Goal, LeadingRefs, PointsBack;
    StartLeading(r, idx, entries);
    LeadingExpands(r, idx, entries, 0, Goal(r[..idx], r[idx..], entries));
  }

  class DeCompression {
    var treeIdMap: seq<Entry>

    /**
     * Expands from `sid` on; reading stops at `eid` unless a reference was expanded. `ok` is false where the entry lies
     * outside the string, which the original reports by an exception.
     */
    method UpdateCompressedNames(compressed: string, sid: nat, eid: nat) returns (ok: bool, r: string)
      ensures (if ok then Some(r) else None) == ExpandedFrom(compressed, sid, eid, treeIdMap)
    {
      hide ExpandedFrom, NumberEnd, NumberOf, IsNumber, Replaced;
      var idx: nat, end: nat := sid, eid;
      ok, r := true, compressed;
      while idx < end
        invariant ExpandedFrom(r, idx, end, treeIdMap) == ExpandedFrom(compressed, sid, eid, treeIdMap)
        decreases if idx <= |r| then |r| - idx + 1 else 0
      {
        if idx >= |r| {
          break;
        }
        ExpandedAt(r, idx, end, treeIdMap);
        if r[idx] == MANGLE_COMPRESS_PREFIX && treeIdMap != [] && idx + 1 < |r| {
          var curIdx := ForwardNumber(r, idx + 1);
          if curIdx == idx + 1 {
            idx := idx + 1;
            continue;
          }
          var mapIdx := GetNumber(r[idx + 1..curIdx]);
          if mapIdx >= |treeIdMap| {
            return;
          }
          var e := treeIdMap[mapIdx];
          if e.len == 0 {
            idx := idx + 1;
            continue;
          }
          if e.start > |r| {
            ok := false;
            return;
          }
          ReplacedIs(r, idx, curIdx, e);
          r := r[..idx] + SubStr(r, e.start, e.len) + r[curIdx..];
          end := |r|;
          idx := idx + e.len;
        } else {
          idx := idx + 1;
        }
      }
      ExpandedEnds(r, idx, end, treeIdMap);
    }

    /**
     * Expands the references that follow each other at `idx`; `change` counts them, and the answer names the place
     * behind what was written for them.
     */
    method UpdateCompressedName(compressed: string, idx: nat) returns (ok: bool, r: string, change: nat, end: nat)
      requires idx <= |compressed|
      ensures (if ok then Some(Leading(r, change, end)) else None) == LeadingExpandedFrom(compressed, idx, 0, treeIdMap)
    {
      hide LeadingExpandedFrom, NumberEnd, NumberOf, IsNumber, Replaced;
      ok, r, change, end := true, compressed, 0, idx;
      if idx == |compressed| {
        LeadingExpandedEnds(r, end, change, treeIdMap);
        return;
      }
      while r[end] == MANGLE_COMPRESS_PREFIX && treeIdMap != []
        invariant end < |r|
        invariant LeadingExpandedFrom(r, end, change, treeIdMap) == LeadingExpandedFrom(compressed, idx, 0, treeIdMap)
        decreases |r| - end
      {
        LeadingExpandedAt(r, end, change, treeIdMap);
        var curIdx := ForwardNumber(r, end + 1);
        if curIdx == end + 1 {
          break;
        }
        var mapIdx := GetNumber(r[end + 1..curIdx]);
        if mapIdx >= |treeIdMap| || treeIdMap[mapIdx].len == 0 {
          break;
        }
        var e := treeIdMap[mapIdx];
        if e.start > |r| {
          ok := false;
          return;
        }
        ReplacedIs(r, end, curIdx, e);
        r := r[..end] + SubStr(r, e.start, e.len) + r[curIdx..];
        change := change + 1;
        end := end + e.len;
        if end >= |r| {
          LeadingExpandedEnds(r, end, change, treeIdMap);
          return;
        }
      }
      LeadingExpandedAt(r, end, change, treeIdMap);
    }
  }

  lemma StartReading(r: string, idx: nat, end: nat, entries: seq<Entry>, goal: string)
    requires idx <= |r| && goal == Expansion(r[..idx], Unread(r, idx, end, entries), entries)
    ensures PointsBack(r[..idx], Unread(r, idx, end, entries), entries) ==> LeadsTo(r, idx, end, entries, goal)
  {
  }

  lemma EndReading(r: string, idx: nat, end: nat, entries: seq<Entry>, goal: string)
    requires LeadsTo(r, idx, end, entries, goal) && (idx >= end || idx >= |r|)
    ensures goal == r
  {
    ReadNothing(r, idx, end, entries, goal);
  }

  // ----- names without references, and names with references put in -----

  /** Whether a reference stands anywhere in a name. */
  predicate HasReference(s: string) {
    exists i :: 0 <= i < |s| && s[i] == MANGLE_COMPRESS_PREFIX && NumberEnd(s, i + 1) != i + 1
  }

  method IsCompressed(mangled: string) returns (b: bool)
    ensures b == HasReference(mangled)
  {
    hide NumberEnd;
    var pos := 0;
    while pos < |mangled|
      invariant 0 <= pos <= |mangled|
      invariant forall i :: 0 <= i < pos && mangled[i] == MANGLE_COMPRESS_PREFIX ==> NumberEnd(mangled, i + 1) == i + 1
    {
      if mangled[pos] == MANGLE_COMPRESS_PREFIX {
        var nextIdx := ForwardNumber(mangled, pos + 1);
        if nextIdx != pos + 1 {
          return true;
        }
      }
      pos := pos + 1;
    }
    return false;
  }

  /** A name without references starts with a literal, and there is no reference behind it. */
  lemma NoReferenceAtFront(rest: string, entries: seq<Entry>)
    requires rest != "" && !HasReference(rest)
    ensures Front(rest, entries) == Lit(rest[0]) && !HasReference(rest[1..])
  {
    hide AlnumEnd, NumberEnd, ManglingNumber;
    forall i | 0 <= i < |rest[1..]| && rest[1..][i] == MANGLE_COMPRESS_PREFIX
      ensures NumberEnd(rest[1..], i + 1) == i + 1
    {
      NumberEndOfRest(rest, 1, i + 2);
      assert rest[i + 1] == MANGLE_COMPRESS_PREFIX;
    }
    assert NumberEnd(rest, 1) == 1 || rest[0] != MANGLE_COMPRESS_PREFIX;
  }

  lemma NothingRead(written: string, rest: string, entries: seq<Entry>)
    ensures var tokens := Tokens(rest, 0, entries);
      Expansion(written, tokens, entries) == written + rest && PointsBack(written, tokens, entries)
  {
    if rest == "" {
      assert written + rest == written;
    } else {
      var tokens := Tokens(rest, 0, entries);
      assert tokens == [Tail(rest)];
      assert Expansion(written, tokens, entries) == Expansion(written + rest, [], entries);
    }
  }

  /** A name without references is not changed, whatever the table. */
  lemma {:induction false} WithoutReferencesNothingChanges(written: string, rest: string, limit: nat,
                                                           entries: seq<Entry>)
    requires !HasReference(rest)
    ensures Expansion(written, Tokens(rest, limit, entries), entries) == written + rest
    ensures PointsBack(written, Tokens(rest, limit, entries), entries)
    decreases |rest|
  {
    hide Front, Tokens, Expansion, PointsBack, HasReference;
    if rest == "" || limit == 0 {
      assert Tokens(rest, limit, entries) == Tokens(rest, 0, entries) by {
        NoTokens(limit, entries);
        NoTokens(0, entries);
      }
      NothingRead(written, rest, entries);
    } else {
      NoReferenceAtFront(rest, entries);
      TokensStartWith(rest, limit, entries);
      WithoutReferencesNothingChanges(written + [rest[0]], rest[1..], limit - 1, entries);
      FirstOf(written, Lit(rest[0]), Tokens(rest[1..], limit - 1, entries), entries);
      assert written + [rest[0]] + rest[1..] == written + rest;
    }
  }

  lemma NoTokens(limit: nat, entries: seq<Entry>)
    ensures Tokens("", limit, entries) == []
  {
  }

  /** A token as a compressor writes it. */
  function Rendered(t: Token): string {
    match t
    case Lit(c) => [c]
    case Ref(n, _) => "Y" + (if n == 0 then "" else Base62(n - 1)) + "_"
    case Tail(text) => text
  }

  /** Literals that cannot be taken for references, and references to entries that are not empty. */
  predicate CanRender(tokens: seq<Token>, entries: seq<Entry>) {
    forall k :: 0 <= k < |tokens| ==>
      match tokens[k]
      case Lit(c) => c != MANGLE_COMPRESS_PREFIX
      case Ref(n, text) => n < |entries| && n < SIZE_RANGE && entries[n].len > 0 && text == Rendered(tokens[k])
      case Tail(_) => false
  }

  lemma {:induction false} AlnumEndIs(s: string, i: nat, j: nat)
    requires i <= j <= |s| && (forall k :: i <= k < j ==> IsAlnum(s[k])) && (j < |s| ==> !IsAlnum(s[j]))
    ensures AlnumEnd(s, i) == j
    decreases j - i
  {
    if i < j {
      AlnumEndIs(s, i + 1, j);
    }
  }

  lemma FrontOfRendered(t: Token, rest: string, entries: seq<Entry>)
    requires CanRender([t], entries)
    ensures var s := Rendered(t) + rest; s != "" && Front(s, entries) == t && Rendered(t) == TextOf(t)
  {
    assert [t][0] == t;
    if t.Ref? {
      var number := if t.entry == 0 then "" else Base62(t.entry - 1);
      MangledNumbersAreRead(t.entry);
      FrontOfNumber(number, rest, entries);
    }
  }

  lemma FrontOfNumber(number: string, rest: string, entries: seq<Entry>)
    requires IsBase62(number) && ManglingNumber(number) < |entries| && entries[ManglingNumber(number)].len > 0
    ensures Front("Y" + number + "_" + rest, entries) == Ref(ManglingNumber(number), "Y" + number + "_")
  {
    hide ManglingNumber, Base62Digit;
    var s, end := "Y" + number + "_" + rest, 1 + |number|;
    NumberIsAlnum(number, rest);
    AlnumEndIs(s, 1, end);
    assert NumberEnd(s, 1) == end + 1;
    assert s[1..end] == number && s[..end + 1] == "Y" + number + "_";
  }

  lemma NumberIsAlnum(number: string, rest: string)
    requires IsBase62(number)
    ensures var s := "Y" + number + "_" + rest;
      (forall k :: 1 <= k < 1 + |number| ==> IsAlnum(s[k])) && s[1 + |number|] == '_' && !IsAlnum('_')
  {
    var s := "Y" + number + "_" + rest;
    assert forall k :: 1 <= k < 1 + |number| ==> s[k] == number[k - 1];
  }

  /**
   * Expanding undoes compressing: a name in which stretches were replaced by references reads back as those references
   * and literals, so that expanding it gives what the references stand for.
   */
  lemma {:induction false} RenderedReadsBack(tokens: seq<Token>, limit: nat, entries: seq<Entry>)
    requires CanRender(tokens, entries) && limit >= |Source(tokens)|
    ensures Tokens(Source(tokens), limit, entries) == tokens
    decreases tokens
  {
    if tokens != [] {
      var t, rest := tokens[0], Source(tokens[1..]);
      assert CanRender([t], entries);
      FrontOfRendered(t, rest, entries);
      var s := Source(tokens);
      assert s == TextOf(t) + rest && s[|TextOf(t)|..] == rest;
      RenderedReadsBack(tokens[1..], if t.Lit? then limit - 1 else |s| - |TextOf(t)|, entries);
    }
  }
}
