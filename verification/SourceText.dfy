/**
 * Source texts: the offsets of their lines, the splitting into lines, and the way from positions to offsets and text.
 *
 * Two scanners find the lines of a text independently of each other; both treat a line feed, alone or after a carriage
 * return, as the end of a line.
 */
module SourceText {
  // ----- the lines of a text -----

  /** The length of the line terminator at a place, or 0. The text is followed by a null character. */
  function TerminatorLength(s: string, i: nat): (n: nat)
    ensures n <= 2 && (n > 0 ==> i + n <= |s| && s[i + n - 1] == '\n')
  {
    if i < |s| && s[i] == '\n' then 1
    else if i + 1 < |s| && s[i] == '\r' && s[i + 1] == '\n' then 2
    else 0
  }

  /** Where the line that `i` lies in ends: at its terminator, or at the end of the text. */
  function LineEnd(s: string, i: nat): (end: nat)
    requires i <= |s|
    ensures i <= end <= |s| && (end < |s| ==> TerminatorLength(s, end) > 0)
    ensures forall k :: i <= k < end ==> TerminatorLength(s, k) == 0
    decreases |s| - i
  {
    if i == |s| || TerminatorLength(s, i) > 0 then i else LineEnd(s, i + 1)
  }

  /** Where the next line starts, or the end of the text. */
  function NextLine(s: string, i: nat): (next: nat)
    requires i <= |s|
    ensures i <= next <= |s| && (i < |s| ==> i < next)
  {
    LineEnd(s, i) + TerminatorLength(s, LineEnd(s, i))
  }

  /** The starts of all lines after the one at `i`. */
  function LaterLines(s: string, i: nat): seq<nat>
    requires i <= |s|
    decreases |s| - i
  {
    if LineEnd(s, i) == |s| then [] else [NextLine(s, i)] + LaterLines(s, NextLine(s, i))
  }

  function LineOffsets(s: string): seq<nat> {
    [0] + LaterLines(s, 0)
  }

  /** The lines from `i` on, without their terminators. */
  function Lines(s: string, i: nat): seq<string>
    requires i <= |s|
    decreases |s| - i
  {
    var end := LineEnd(s, i);
    [s[i..end]] + if end == |s| then [] else Lines(s, NextLine(s, i))
  }

  /**
   * Both scanners find the same lines: there is a line text for every offset, and it is the text up to the line's end.
   */
  lemma {:induction false} LinesMatchOffsets(s: string, i: nat)
    requires i <= |s|
    ensures var offsets := [i] + LaterLines(s, i);
      && |Lines(s, i)| == |offsets|
      && forall k :: 0 <= k < |offsets| ==> offsets[k] <= |s| && Lines(s, i)[k] == s[offsets[k]..LineEnd(s, offsets[k])]
    decreases |s| - i
  {
    hide LineEnd;
    if LineEnd(s, i) < |s| {
      LinesMatchOffsets(s, NextLine(s, i));
    }
  }

  /** Line starts increase, and each but the last is followed by its line and terminator. */
  lemma {:induction false} OffsetsIncrease(s: string, i: nat)
    requires i <= |s|
    ensures var offsets := [i] + LaterLines(s, i);
      && (forall k :: 0 <= k < |offsets| ==> i <= offsets[k] <= |s|)
      && (forall k :: 0 <= k < |offsets| - 1 ==> offsets[k] < offsets[k + 1] == NextLine(s, offsets[k]))
      && LineEnd(s, offsets[|offsets| - 1]) == |s|
    decreases |s| - i
  {
    if LineEnd(s, i) < |s| {
      OffsetsIncrease(s, NextLine(s, i));
    }
  }

  /** A line starts at the beginning of the text and behind every line feed, and nowhere else. */
  lemma {:induction false} LinesStartBehindLineFeeds(s: string, i: nat, j: nat)
    requires i < j <= |s|
    ensures j in LaterLines(s, i) <==> s[j - 1] == '\n'
    decreases |s| - i
  {
    var end, next := LineEnd(s, i), NextLine(s, i);
    if end == |s| {
      assert TerminatorLength(s, j - 1) == 0;
    } else if j < next {
      OffsetsIncrease(s, next);
      assert j !in [next] + LaterLines(s, next);
      if j - 1 < end {
        assert TerminatorLength(s, j - 1) == 0;
      }
    } else if j > next {
      LinesStartBehindLineFeeds(s, next, j);
    }
  }

  /** Where in the text a line and column lie: columns behind the end of a line lie at the start of the next. */
  function InLine(s: string, start: nat, column: nat): (offset: nat)
    requires start <= |s| && column >= 1
    ensures start <= offset <= |s|
  {
    if column - 1 <= LineEnd(s, start) - start then start + column - 1 else NextLine(s, start)
  }

  /**
   * A column is counted from the start of its line as long as no terminator starts before it; else it lies behind the
   * first line feed from there on, or at the end of the text if there is none.
   */
  lemma ColumnsOfLine(s: string, start: nat, column: nat)
    requires start <= |s| && column >= 1
    ensures var o, place := InLine(s, start, column), start + column - 1;
      if place <= |s| && (forall k :: start <= k < place ==>
           s[k] != '\n' && !(s[k] == '\r' && k + 1 < |s| && s[k + 1] == '\n')) then o == place
      else if exists k :: start <= k < |s| && s[k] == '\n'
      then o > start && s[o - 1] == '\n' && forall k :: start <= k < o - 1 ==> s[k] != '\n'
      else o == |s|
  {
    hide TerminatorLength, LineEnd;
    var end := LineEnd(s, start);
    forall k | start <= k < end
      ensures s[k] != '\n' && !(s[k] == '\r' && k + 1 < |s| && s[k + 1] == '\n')
    {
      assert TerminatorLength(s, k) == 0;
      TerminatorStarts(s, k);
    }
    var o, place := InLine(s, start, column), start + column - 1;
    if place > end {
      if end < |s| {
        TerminatorStarts(s, end);
        assert start <= o - 1 < |s| && s[o - 1] == '\n';
      }
    } else {
      assert o == place <= |s|;
    }
  }

  lemma TerminatorStarts(s: string, k: nat)
    requires k < |s|
    ensures TerminatorLength(s, k) ==
      if s[k] == '\n' then 1 else if s[k] == '\r' && k + 1 < |s| && s[k + 1] == '\n' then 2 else 0
  {
  }

  // ----- sources -----

  /** A line and column, both counted from 1; the pairs the compiler marks as invalid are lower. */
  datatype Position = Position(line: int, column: int)
  {
    predicate Before(other: Position) {
      line < other.line || (line == other.line && column < other.column)
    }

    predicate AtMost(other: Position) {
      this == other || Before(other)
    }
  }

  const INVALID_POSITION := Position(0, 0)

  /** Where a line feed stands, alone or behind a carriage return, `n` leads just behind it; elsewhere `n` is 0. */
  predicate LeadsBehindLineFeed(s: string, i: nat, n: nat) {
    && i + n <= |s| && n <= 2
    && (n > 0 <==> "\n" <= s[i..] || "\r\n" <= s[i..])
    && (n > 0 ==> s[i + n - 1] == '\n' && '\n' !in s[i..i + n - 1])
  }

  method GetLineTerminatorLength(s: string, i: nat) returns (n: nat)
    requires i <= |s|
    ensures LeadsBehindLineFeed(s, i, n) && n == TerminatorLength(s, i)
  {
    if i < |s| && s[i] == '\n' {
      return 1;
    } else if i < |s| && s[i] == '\r' && i + 1 <= |s| && i + 1 < |s| && s[i + 1] == '\n' {
      return 2;
    } else {
      return 0;
    }
  }

  /** Only one length leads just behind the line feed. */
  lemma IsTerminatorLength(s: string, i: nat, n: nat)
    requires LeadsBehindLineFeed(s, i, n)
    ensures n == TerminatorLength(s, i)
  {
    if n == 2 {
      assert s[i..i + 1][0] == s[i];
    }
    if i < |s| && s[i] == '\n' {
      assert "\n" <= s[i..];
    } else if i + 1 < |s| && s[i] == '\r' && s[i + 1] == '\n' {
      assert "\r\n" <= s[i..];
    }
  }

  method SplitLines(str: string) returns (res: seq<string>)
    ensures str == "" ==> res == []
    ensures str != "" ==> res == Lines(str, 0)
  {
    hide Lines;
    res := [];
    if str == "" {
      return;
    }
    LastLine(str);
    var curIndex, newLineStartPos: nat := 0, 0;
    while curIndex < |str|
      invariant curIndex == newLineStartPos <= |str|
      invariant curIndex < |str| || EndsInLineFeed(str) ==> res + Lines(str, curIndex) == Lines(str, 0)
      invariant curIndex == |str| && !EndsInLineFeed(str) ==> res == Lines(str, 0)
    {
      LinesStep(str, curIndex);
      while curIndex < |str| && !(str[curIndex] == '\r' && curIndex + 1 < |str| && str[curIndex + 1] == '\n')
            && str[curIndex] != '\n'
        invariant newLineStartPos <= curIndex <= |str|
        invariant LineEnd(str, newLineStartPos) == LineEnd(str, curIndex)
      {
        curIndex := curIndex + 1;
      }
      var lineTerminatorPos := curIndex;
      if curIndex < |str| {
        if str[curIndex] == '\r' && curIndex + 1 < |str| && str[curIndex + 1] == '\n' {
          curIndex := curIndex + 2;
        } else {
          curIndex := curIndex + 1;
        }
      }
      res := res + [str[newLineStartPos..lineTerminatorPos]];
      newLineStartPos := curIndex;
    }
    if str[|str| - 1] == '\n' {
      res := res + [""];
    }
  }

  predicate EndsInLineFeed(s: string) {
    s != "" && s[|s| - 1] == '\n'
  }

  lemma LastLine(s: string)
    ensures Lines(s, |s|) == [""]
  {
    assert s[|s|..|s|] == "";
  }

  lemma LinesStep(s: string, i: nat)
    requires i < |s|
    ensures var end, next := LineEnd(s, i), NextLine(s, i);
      if end == |s| then Lines(s, i) == [s[i..end]] && !EndsInLineFeed(s)
      else Lines(s, i) == [s[i..end]] + Lines(s, next) && (next == |s| ==> EndsInLineFeed(s))
  {
    assert LineEnd(s, i) == |s| ==> TerminatorLength(s, |s| - 1) == 0;
  }

  /** The offset of a position in a text with these line starts. */
  function Offset(s: string, offsets: seq<nat>, pos: Position): (offset: nat)
    requires forall k :: 0 <= k < |offsets| ==> offsets[k] <= |s|
    ensures offset <= |s|
  {
    if pos.line > |offsets| then |s|
    else if pos.line < 1 || pos.column < 1 then 0
    else InLine(s, offsets[pos.line - 1], pos.column)
  }

  class Source {
    const buffer: string
    var lineOffsets: seq<nat>

    /** The line starts are those of the text; an empty text keeps the one line it starts with. */
    predicate Valid()
      reads this
    {
      lineOffsets == LineOffsets(buffer)
    }

    constructor (buffer: string)
      ensures Valid() && this.buffer == buffer
    {
      hide LaterLines, LineEnd, LeadsBehindLineFeed, TerminatorLength, AreCollected;
      this.buffer := buffer;
      lineOffsets := [0];
      new;
      CollectingStarts(buffer);
      if buffer == "" {
        OneMoreCollected(buffer, lineOffsets, 0);
        return;
      }
      var ptr: nat := 0;
      while ptr < |buffer|
        invariant ptr <= |buffer| && AreCollected(buffer, lineOffsets, ptr)
      {
        ghost var start, found := ptr, lineOffsets;
        OneMoreCollected(buffer, found, start);
        var n := GetLineTerminatorLength(buffer, ptr);
        while n == 0 && ptr < |buffer|
          invariant start <= ptr <= |buffer| && n == TerminatorLength(buffer, ptr)
          invariant LineEnd(buffer, start) == LineEnd(buffer, ptr) && lineOffsets == found
        {
          AtLineEnd(buffer, ptr);
          ptr := ptr + 1;
          n := GetLineTerminatorLength(buffer, ptr);
        }
        AtLineEnd(buffer, ptr);
        if ptr >= |buffer| {
          break;
        }
        ptr := ptr + n;
        lineOffsets := lineOffsets + [ptr];
      }
      OneMoreCollected(buffer, lineOffsets, |buffer|);
    }

    method PosToOffset(pos: Position) returns (offset: nat)
      requires Valid()
      ensures offset <= |buffer|
      ensures (forall k :: 0 <= k < |lineOffsets| ==> lineOffsets[k] <= |buffer|)
           && offset == Offset(buffer, lineOffsets, pos)
    {
      hide LineOffsets, LineEnd, LeadsBehindLineFeed, LaterLines, TerminatorLength, InLine, Offset;
      OffsetsInText(buffer);
      OffsetInLine(buffer, lineOffsets, pos);
      if pos.line > |lineOffsets| {
        return |buffer|;
      }
      if pos.line < 1 || pos.column < 1 {
        return 0;
      }
      var start := lineOffsets[pos.line - 1];
      var columnOffset := 0;
      ghost var place := start;
      var n := GetLineTerminatorLength(buffer, start);
      while n == 0 && columnOffset < pos.column - 1 && start + columnOffset < |buffer|
        invariant 0 <= columnOffset <= pos.column - 1 && start + columnOffset == place <= |buffer|
        invariant n == TerminatorLength(buffer, place) && LineEnd(buffer, start) == LineEnd(buffer, place)
        decreases |buffer| - place
      {
        AtLineEnd(buffer, place);
        columnOffset, place := columnOffset + 1, place + 1;
        n := GetLineTerminatorLength(buffer, start + columnOffset);
      }
      PlaceInLine(buffer, start, columnOffset, pos.column);
      if columnOffset < pos.column - 1 && start + columnOffset < |buffer| {
        columnOffset := columnOffset + n;
      }
      offset := if start + columnOffset < |buffer| then start + columnOffset else |buffer|;
    }
  }

  /** The line starts up to a place are collected. */
  predicate AreCollected(s: string, offsets: seq<nat>, ptr: nat) {
    ptr <= |s| && offsets + LaterLines(s, ptr) == LineOffsets(s)
  }

  lemma CollectingStarts(s: string)
    ensures AreCollected(s, [0], 0)
  {
  }

  lemma OneMoreCollected(s: string, found: seq<nat>, start: nat)
    requires AreCollected(s, found, start)
    ensures LineEnd(s, start) == |s| ==> found == LineOffsets(s) && AreCollected(s, found, |s|)
    ensures LineEnd(s, start) < |s| ==> AreCollected(s, found + [NextLine(s, start)], NextLine(s, start))
  {
    hide LaterLines, LineEnd, LineOffsets, TerminatorLength, NextLine;
    LaterStep(s, start);
    if LineEnd(s, start) == |s| {
      assert found + [] == found;
    } else {
      var next := NextLine(s, start);
      assert found + [next] + LaterLines(s, next) == found + ([next] + LaterLines(s, next));
    }
  }

  lemma LaterStep(s: string, i: nat)
    requires i <= |s|
    ensures LaterLines(s, i) == if LineEnd(s, i) == |s| then [] else [NextLine(s, i)] + LaterLines(s, NextLine(s, i))
    ensures LaterLines(s, |s|) == []
  {
  }

  lemma OffsetsInText(s: string)
    ensures var offsets := LineOffsets(s);
      offsets != [] && forall k :: 0 <= k < |offsets| ==> offsets[k] <= |s|
  {
    OffsetsIncrease(s, 0);
  }

  /** A scan stops at the end of its line, and otherwise goes on in it. */
  lemma AtLineEnd(s: string, i: nat)
    requires i <= |s|
    ensures TerminatorLength(s, i) > 0 || i == |s| ==> LineEnd(s, i) == i
    ensures TerminatorLength(s, i) == 0 && i < |s| ==> LineEnd(s, i) == LineEnd(s, i + 1)
  {
  }

  /** Where a scan for a column in a line has come to when it stops. */
  lemma OffsetInLine(s: string, offsets: seq<nat>, pos: Position)
    requires forall k :: 0 <= k < |offsets| ==> offsets[k] <= |s|
    ensures Offset(s, offsets, pos) ==
            if pos.line > |offsets| then |s|
            else if pos.line < 1 || pos.column < 1 then 0 else InLine(s, offsets[pos.line - 1], pos.column)
  {
  }

  lemma PlaceInLine(s: string, start: nat, c: nat, column: nat)
    requires start + c <= |s| && c < column && LineEnd(s, start) == LineEnd(s, start + c)
    requires TerminatorLength(s, start + c) > 0 || c == column - 1 || start + c == |s|
    ensures InLine(s, start, column) ==
            start + c + if c < column - 1 && start + c < |s| then TerminatorLength(s, start + c) else 0
  {
    AtLineEnd(s, start + c);
  }

  // ----- order -----

  /** Whether the column of a position counts: it does for lines of the text. */
  predicate HasColumn(offsets: seq<nat>, pos: Position) {
    1 <= pos.line <= |offsets| ==> pos.column >= 1
  }

  lemma {:induction false} OffsetsAreOrdered(s: string, a: nat, b: nat)
    requires a < b < |LineOffsets(s)|
    ensures var offsets := LineOffsets(s);
      offsets[a] <= |s| && offsets[b] <= |s| && NextLine(s, offsets[a]) <= offsets[b]
    decreases b - a
  {
    OffsetsIncrease(s, 0);
    if a + 1 < b {
      OffsetsAreOrdered(s, a + 1, b);
    }
  }

  lemma InLineIsMonotone(s: string, start: nat, c: nat, d: nat)
    requires start <= |s| && 1 <= c <= d
    ensures InLine(s, start, c) <= InLine(s, start, d) <= NextLine(s, start)
  {
  }

  /** Positions that can only lie at the start of a text. */
  predicate AtStart(s: string, p: Position) {
    s == "" || p.line < 1 || p.column < 1 || (p.line == 1 && p.column == 1)
  }

  lemma StartHasOffsetZero(s: string, p: Position)
    requires p.line <= |LineOffsets(s)|
    ensures forall k :: 0 <= k < |LineOffsets(s)| ==> LineOffsets(s)[k] <= |s|
    ensures Offset(s, LineOffsets(s), p) == 0 <==> AtStart(s, p)
  {
    OffsetsInText(s);
    if p.line > 1 && p.column >= 1 {
      OffsetsAreOrdered(s, 0, p.line - 1);
    }
  }

  /**
   * Offsets follow the order of positions, exactly as long as no column below 1 sends a later position to the start of
   * the text, behind one that does not lie there.
   */
  lemma OffsetsFollowPositions(s: string, p: Position, q: Position)
    requires p.AtMost(q)
    ensures forall k :: 0 <= k < |LineOffsets(s)| ==> LineOffsets(s)[k] <= |s|
    ensures Offset(s, LineOffsets(s), p) <= Offset(s, LineOffsets(s), q) <==>
      HasColumn(LineOffsets(s), q) || AtStart(s, p)
  {
    OffsetsInText(s);
    var offsets := LineOffsets(s);
    if p.line <= |offsets| {
      StartHasOffsetZero(s, p);
    }
    if 1 <= p.line <= q.line <= |offsets| && p.column >= 1 && q.column >= 1 {
      if p.line == q.line {
        InLineIsMonotone(s, offsets[p.line - 1], p.column, q.column);
      } else {
        OffsetsAreOrdered(s, p.line - 1, q.line - 1);
        InLineIsMonotone(s, offsets[p.line - 1], p.column, p.column);
      }
    }
  }

  /** The text from one place to another, or all the rest where the end lies before the start. */
  function Cut(s: string, from: nat, to: nat): (text: string)
    requires from <= |s| && to <= |s|
    ensures |text| == if from <= to then to - from else |s| - from
  {
    if from <= to then s[from..to] else s[from..]
  }

  /**
   * The text between two positions of a source that is not empty; where the end lies before the start, all the rest.
   */
  function Between(s: string, begin: Position, end: Position): string {
    if begin.AtMost(INVALID_POSITION) || end.AtMost(INVALID_POSITION) || end.Before(begin) || s == "" then ""
    else
      OffsetsInText(s);
      var from, to := Offset(s, LineOffsets(s), begin), Offset(s, LineOffsets(s), end);
      Cut(s, from, to)
  }

  /** Where a position without a column lies, and where one that does not lie at the start does. */
  lemma PlacesOf(s: string, p: Position)
    requires s != "" && INVALID_POSITION.Before(p)
    ensures forall k :: 0 <= k < |LineOffsets(s)| ==> LineOffsets(s)[k] <= |s|
    ensures !HasColumn(LineOffsets(s), p) ==> Offset(s, LineOffsets(s), p) == 0
    ensures !AtStart(s, p) ==> Offset(s, LineOffsets(s), p) > 0
  {
    hide LineOffsets;
    OffsetsInText(s);
    if p.line <= |LineOffsets(s)| {
      StartHasOffsetZero(s, p);
    }
  }

  lemma CutsJoinIff(s: string, i: nat, j: nat, k: nat)
    requires i <= |s| && j <= |s| && k <= |s|
    ensures Cut(s, i, j) + Cut(s, j, k) == Cut(s, i, k) <==> if i <= j then j <= k || i > k else j == k
  {
    if i <= j <= k {
      assert s[i..j] + s[j..k] == s[i..k];
    } else if i <= j && i > k {
      assert s[i..j] + s[j..] == s[i..];
    } else {
      assert |Cut(s, i, j) + Cut(s, j, k)| == |Cut(s, i, j)| + |Cut(s, j, k)|;
      if i > j == k {
        assert s[j..k] == [] && s[i..] + [] == s[i..];
      }
    }
  }

  /**
   * Text up to a position and text from it on join to the whole: if the position has a column, as long as the end has
   * one too or lies at the start only where the position does or where the beginning does not; and if it has none, as
   * long as the end has none or the beginning lies at the start.
   */
  lemma TextsJoin(s: string, a: Position, b: Position, c: Position)
    requires INVALID_POSITION.Before(a) && a.AtMost(b) && b.AtMost(c)
    ensures Between(s, a, b) + Between(s, b, c) == Between(s, a, c) <==>
            if HasColumn(LineOffsets(s), b)
            then HasColumn(LineOffsets(s), c) || AtStart(s, b) || !AtStart(s, a)
            else !HasColumn(LineOffsets(s), c) || AtStart(s, a)
  {
    hide LineOffsets, Offset, Cut;
    if s != "" {
      OffsetsInText(s);
      OffsetsFollowPositions(s, a, b);
      OffsetsFollowPositions(s, b, c);
      OffsetsFollowPositions(s, a, c);
      PlacesOf(s, a);
      PlacesOf(s, b);
      PlacesOf(s, c);
      var i, j, k := Offset(s, LineOffsets(s), a), Offset(s, LineOffsets(s), b), Offset(s, LineOffsets(s), c);
      CutsJoinIff(s, i, j, k);
    }
  }

  /** A column below 1 in a later line breaks this: the text up to there is the whole rest, which then comes again. */
  lemma ColumnZeroTakesTheRest(s: string, a: Position, b: Position)
    requires INVALID_POSITION.Before(a) && INVALID_POSITION.Before(b) && a.AtMost(b)
    requires !HasColumn(LineOffsets(s), b) && s != ""
    ensures forall k :: 0 <= k < |LineOffsets(s)| ==> LineOffsets(s)[k] <= |s|
    ensures Offset(s, LineOffsets(s), a) > 0 ==> Between(s, a, b) == s[Offset(s, LineOffsets(s), a)..]
  {
    OffsetsInText(s);
  }

  class SourceManager {
    var sources: map<nat, Source>

    /** `importGenericContent` stands in for a source without text; a file that is not known is taken for file 0. */
    method GetContentBetween(fileID: nat, begin: Position, end: Position, importGenericContent: string)
      returns (content: string)
      requires 0 in sources && forall id :: id in sources ==> sources[id].Valid()
      ensures var source := if fileID in sources then sources[fileID] else sources[0];
        var text := if source.buffer == "" then importGenericContent else source.buffer;
        content == if fileID == 0 then "" else Between(text, begin, end)
    {
      if fileID == 0 || begin.AtMost(INVALID_POSITION) || end.AtMost(INVALID_POSITION) || end.Before(begin) {
        return "";
      }
      var source := if fileID in sources then sources[fileID] else sources[0];
      if source.buffer == "" && importGenericContent != "" {
        source := new Source(importGenericContent);
      }
      if source.buffer == "" {
        return "";
      }
      var startOffset := source.PosToOffset(begin);
      var endOffset := source.PosToOffset(end);
      // The length wraps around where the end lies before the start, and then covers all the rest.
      content :=
        if startOffset <= endOffset then source.buffer[startOffset..endOffset] else source.buffer[startOffset..];
    }
  }
}
