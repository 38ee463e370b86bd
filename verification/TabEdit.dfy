/**
 The editor's Tab key as a text edit: whole touched lines move by two spaces, Shift moves
 them back by up to two.

 Main results, for every text and selection: indenting a multi-line selection and then
 dedenting restores the text, and restores the selection exactly when it did not start at
 the very beginning of a text that begins with a newline (`DedentUndoesIndent`); every
 edit stays inside the text and leaves a selection inside the new one (`EditStaysInside`).
 */
module TabEdit {
  import opened Text
  import opened Wrappers

  const NEWLINE: char := '\n'
  const INDENT: string := "  "

  datatype Edit = Edit(replaceStart: nat, replaceEnd: nat, insert: string, selStart: nat, selEnd: nat)

  function Max(a: int, b: int): int {
    if a < b then b else a
  }

  /** The last newline at or before `from`, or -1. */
  function LastNewline(value: string, from: int): (i: int)
    requires -1 <= from
    ensures -1 <= i <= from && i < |value|
    ensures i >= 0 ==> value[i] == NEWLINE
    ensures forall k :: i < k <= from && k < |value| ==> value[k] != NEWLINE
    decreases from
  {
    if from == -1 then -1
    else if from < |value| && value[from] == NEWLINE then from
    else LastNewline(value, from - 1)
  }

  /** Where the line holding `selStart` begins; a negative search position counts as 0, as in `String.prototype.lastIndexOf`. */
  function LineStart(value: string, selStart: nat): (n: nat)
    ensures n <= |value|
    ensures n > 0 ==> value[n - 1] == NEWLINE
    ensures forall k :: n <= k < selStart && k < |value| ==> value[k] != NEWLINE
    ensures n <= selStart || (n == 1 && selStart == 0)
    ensures selStart == 0 ==> n == if value != "" && value[0] == NEWLINE then 1 else 0
  {
    LastNewline(value, Max(selStart - 1, 0)) + 1
  }

  function LineEnd(value: string, selEnd: nat): (n: nat)
    requires selEnd <= |value|
    ensures selEnd <= n <= |value| && (forall k :: selEnd <= k < n ==> value[k] != NEWLINE) && (n < |value| ==> value[n] == NEWLINE)
  {
    Find(value, NEWLINE, selEnd)
  }

  /** `slice`: empty when the bounds cross. */
  function Slice(value: string, from: nat, to: nat): string
    requires to <= |value|
  {
    if from <= to then value[from..to] else ""
  }

  function Indented(lines: seq<string>): (r: seq<string>)
    ensures |r| == |lines| && forall i :: 0 <= i < |r| ==> r[i] == INDENT + lines[i]
  {
    if lines == [] then [] else [INDENT + lines[0]] + Indented(lines[1..])
  }

  /** How many of the leading spaces a dedent takes. */
  function Removed(line: string): (n: nat)
    ensures n <= 2 && n <= |line| && forall i :: 0 <= i < n ==> line[i] == ' '
    ensures n < 2 && n < |line| ==> line[n] != ' '
  {
    if line == "" || line[0] != ' ' then 0
    else if |line| == 1 || line[1] != ' ' then 1
    else 2
  }

  function TotalRemoved(lines: seq<string>): nat {
    if lines == [] then 0 else Removed(lines[0]) + TotalRemoved(lines[1..])
  }

  predicate NoneIndented(lines: seq<string>) {
    forall i :: 0 <= i < |lines| ==> lines[i] == "" || lines[i][0] != ' '
  }

  function Dedented(lines: seq<string>): (r: seq<string>)
    ensures |r| == |lines| && forall i :: 0 <= i < |r| ==> r[i] == lines[i][Removed(lines[i])..]
  {
    if lines == [] then [] else [lines[0][Removed(lines[0])..]] + Dedented(lines[1..])
  }

  /** The edit that replaces a region by a version shorter by `total`, `first` of it on the first line. */
  function Shortened(lineStart: nat, lineEnd: nat, insert: string, first: nat, total: nat, selStart: nat, selEnd: nat): Option<Edit> {
    if total == 0 then None
    else
      var nextStart := Max(lineStart, selStart - first);
      Some(Edit(lineStart, lineEnd, insert, nextStart, Max(nextStart, selEnd - total)))
  }

  /** `computeTabEdit`; None when a dedent finds nothing to remove. */
  function ComputeTabEdit(value: string, selStart: nat, selEnd: nat, shift: bool): Option<Edit>
    requires selStart <= selEnd <= |value|
  {
    if !shift && NEWLINE !in value[selStart..selEnd] then
      Some(Edit(selStart, selEnd, INDENT, selStart + 2, selStart + 2))
    else
      var lineStart, lineEnd := LineStart(value, selStart), LineEnd(value, selEnd);
      var lines := Split(Slice(value, lineStart, lineEnd), NEWLINE);
      if shift then
        Shortened(lineStart, lineEnd, Join(Dedented(lines), NEWLINE), Removed(lines[0]), TotalRemoved(lines), selStart, selEnd)
      else
        Some(Edit(lineStart, lineEnd, Join(Indented(lines), NEWLINE), selStart + 2, selEnd + 2 * |lines|))
  }

  function Applied(value: string, e: Edit): string
    requires e.replaceStart <= e.replaceEnd <= |value|
  {
    value[..e.replaceStart] + e.insert + value[e.replaceEnd..]
  }

  // ----- lines

  lemma {:induction false} JoinEnds(lines: seq<string>)
    requires lines != []
    ensures var j, last := Join(lines, NEWLINE), lines[|lines| - 1];
            && |lines[0]| <= |j| && j[..|lines[0]|] == lines[0]
            && |last| <= |j| && j[|j| - |last|..] == last
            && (|lines| > 1 ==> |last| < |j| && j[|j| - |last| - 1] == NEWLINE && |lines[0]| < |j| && j[|lines[0]|] == NEWLINE)
    decreases |lines|
  {
    if |lines| > 1 {
      JoinEnds(lines[1..]);
    }
  }

  lemma {:induction false} IndentGrows(lines: seq<string>)
    requires lines != []
    ensures |Join(Indented(lines), NEWLINE)| == |Join(lines, NEWLINE)| + 2 * |lines|
    decreases |lines|
  {
    if |lines| > 1 {
      IndentGrows(lines[1..]);
      assert Indented(lines)[1..] == Indented(lines[1..]);
    }
  }

  lemma {:induction false} DedentShrinks(lines: seq<string>)
    requires lines != []
    ensures |Join(Dedented(lines), NEWLINE)| == |Join(lines, NEWLINE)| - TotalRemoved(lines)
    ensures Removed(lines[0]) <= TotalRemoved(lines) && |lines[0]| + TotalRemoved(lines) - Removed(lines[0]) <= |Join(lines, NEWLINE)|
    decreases |lines|
  {
    if |lines| > 1 {
      DedentShrinks(lines[1..]);
      assert Dedented(lines)[1..] == Dedented(lines[1..]);
    } else {
      assert lines[1..] == [];
    }
  }

  /** Line by line, removing takes back exactly what indenting put there. */
  lemma {:induction false} DedentedIndented(lines: seq<string>)
    ensures Dedented(Indented(lines)) == lines && TotalRemoved(Indented(lines)) == 2 * |lines|
    decreases |lines|
  {
    assert forall i :: 0 <= i < |lines| ==> Indented(lines)[i] == INDENT + lines[i] && Removed(INDENT + lines[i]) == 2;
    if lines != [] {
      DedentedIndented(lines[1..]);
      assert Indented(lines)[1..] == Indented(lines[1..]);
    }
  }

  lemma {:induction false} NothingRemoved(lines: seq<string>)
    ensures TotalRemoved(lines) == 0 <==> NoneIndented(lines)
  {
    if lines != [] {
      NothingRemoved(lines[1..]);
      assert forall i :: 1 <= i < |lines| ==> lines[i] == lines[1..][i - 1];
    }
  }

  lemma {:induction false} LineStartUnique(value: string, selStart: nat, n: nat)
    requires 0 < selStart && n <= selStart <= |value| && (n > 0 ==> value[n - 1] == NEWLINE)
    requires forall k :: n <= k < selStart ==> value[k] != NEWLINE
    ensures LineStart(value, selStart) == n
  {
  }

  // ----- the edits

  /** Within one line, at a caret or over a selection, Tab types two spaces and leaves the caret behind them. */
  lemma TabTypesSpaces(value: string, selStart: nat, selEnd: nat)
    requires selStart <= selEnd <= |value| && forall k :: selStart <= k < selEnd ==> value[k] != '\n'
    ensures var edit := ComputeTabEdit(value, selStart, selEnd, false);
            && edit.Some? && edit.value.replaceStart == selStart && edit.value.replaceEnd == selEnd
            && Applied(value, edit.value) == value[..selStart] + "  " + value[selEnd..]
            && edit.value.selStart == edit.value.selEnd == selStart + 2
  {
    assert NEWLINE !in value[selStart..selEnd];
  }

  /** Across lines, Tab puts two spaces before every touched line, and the selection moves with its text. */
  lemma {:induction false} TabIndentsLines(value: string, selStart: nat, selEnd: nat)
    requires selStart <= selEnd <= |value| && exists k :: selStart <= k < selEnd && value[k] == '\n'
    ensures var edit, lineStart, lineEnd := ComputeTabEdit(value, selStart, selEnd, false), LineStart(value, selStart), LineEnd(value, selEnd);
            && edit.Some? && edit.value.replaceStart == lineStart && edit.value.replaceEnd == lineEnd
            && var lines, indented := Split(Slice(value, lineStart, lineEnd), '\n'), Split(edit.value.insert, '\n');
               && |indented| == |lines| && (forall i :: 0 <= i < |lines| ==> indented[i] == "  " + lines[i])
               && edit.value.selStart == selStart + 2 && edit.value.selEnd == selEnd + 2 * |lines|
  {
    hide Slice, LineStart, LineEnd;
    var k :| selStart <= k < selEnd && value[k] == '\n';
    assert value[selStart..selEnd][k - selStart] == NEWLINE;
    var lines := Split(Slice(value, LineStart(value, selStart), LineEnd(value, selEnd)), NEWLINE);
    forall i | 0 <= i < |lines|
      ensures NEWLINE !in Indented(lines)[i]
    {
      IndentAddsNoBreak(lines, i);
    }
    SplitJoins(Indented(lines), NEWLINE);
  }

  /** Shift takes up to two leading spaces off every touched line; the selection moves back, not past the first of them. */
  lemma {:induction false} ShiftDedentsLines(value: string, selStart: nat, selEnd: nat)
    requires selStart <= selEnd <= |value| && ComputeTabEdit(value, selStart, selEnd, true).Some?
    ensures var e, lineStart, lineEnd := ComputeTabEdit(value, selStart, selEnd, true).value, LineStart(value, selStart), LineEnd(value, selEnd);
            && e.replaceStart == lineStart && e.replaceEnd == lineEnd
            && var lines, dedented := Split(Slice(value, lineStart, lineEnd), '\n'), Split(e.insert, '\n');
               && |dedented| == |lines|
               && (forall i :: 0 <= i < |lines| ==>
                     dedented[i] == lines[i][(if "  " <= lines[i] then 2 else if " " <= lines[i] then 1 else 0)..])
               && var start, end := selStart - (|lines[0]| - |dedented[0]|), selEnd - (|Slice(value, lineStart, lineEnd)| - |e.insert|);
                  && e.selStart == (if start > lineStart then start else lineStart)
                  && e.selEnd == (if end > e.selStart then end else e.selStart)
  {
    hide Slice, LineStart, LineEnd, Split, Join, Dedented, Removed, TotalRemoved;
    var s := Slice(value, LineStart(value, selStart), LineEnd(value, selEnd));
    var lines := Split(s, NEWLINE);
    JoinSplits(s, NEWLINE);
    DedentShrinks(lines);
    DedentedBack(lines);
    forall i | 0 <= i < |lines|
      ensures Removed(lines[i]) == if "  " <= lines[i] then 2 else if " " <= lines[i] then 1 else 0
    {
      RemovedSpaces(lines[i]);
    }
  }

  lemma RemovedSpaces(line: string)
    ensures Removed(line) == if "  " <= line then 2 else if " " <= line then 1 else 0
  {
  }

  lemma DedentedBack(lines: seq<string>)
    requires lines != [] && forall i :: 0 <= i < |lines| ==> NEWLINE !in lines[i]
    ensures Split(Join(Dedented(lines), NEWLINE), NEWLINE) == Dedented(lines)
  {
    SplitJoins(Dedented(lines), NEWLINE);
  }

  /** A dedent does nothing exactly when no touched line begins with a space. */
  lemma {:induction false} DedentsWhenIndented(value: string, selStart: nat, selEnd: nat)
    requires selStart <= selEnd <= |value|
    ensures var lines := Split(Slice(value, LineStart(value, selStart), LineEnd(value, selEnd)), NEWLINE);
            ComputeTabEdit(value, selStart, selEnd, true).None? <==> NoneIndented(lines)
  {
    var lines := Split(Slice(value, LineStart(value, selStart), LineEnd(value, selEnd)), NEWLINE);
    NothingRemoved(lines);
    assert ComputeTabEdit(value, selStart, selEnd, true).None? <==> TotalRemoved(lines) == 0;
  }

  /** Every edit replaces a part of the text and selects a part of the result. */
  lemma {:induction false} EditStaysInside(value: string, selStart: nat, selEnd: nat, shift: bool)
    requires selStart <= selEnd <= |value|
    ensures var edit := ComputeTabEdit(value, selStart, selEnd, shift);
            edit.Some? ==>
              var e := edit.value;
              && e.replaceStart <= e.replaceEnd <= |value|
              && e.selStart <= e.selEnd <= |Applied(value, e)|
  {
    hide Split, Join, LineStart, LineEnd, Indented, Dedented;
    var lineStart, lineEnd := LineStart(value, selStart), LineEnd(value, selEnd);
    var s := Slice(value, lineStart, lineEnd);
    var lines := Split(s, NEWLINE);
    JoinSplits(s, NEWLINE);
    if shift {
      DedentShrinks(lines);
      if lineStart <= selStart {
        FirstLineReaches(s, selStart - lineStart);
      }
    } else if NEWLINE in value[selStart..selEnd] {
      assert lineStart <= lineEnd;
      IndentGrows(lines);
    }
  }

  lemma {:induction false} FirstLineReaches(s: string, n: nat)
    requires n <= |s| && forall k :: 0 <= k < n ==> s[k] != NEWLINE
    ensures |Split(s, NEWLINE)[0]| >= n
  {
    if n > 0 {
      assert forall k :: 0 <= k < n - 1 ==> s[1..][k] == s[k + 1];
      FirstLineReaches(s[1..], n - 1);
    }
  }

  lemma {:induction false} IndentAddsNoBreak(lines: seq<string>, i: nat)
    requires i < |lines| && NEWLINE !in lines[i]
    ensures NEWLINE !in Indented(lines)[i] && |Indented(lines)[i]| == |lines[i]| + 2 && Indented(lines)[i][0] == ' '
  {
  }

  lemma {:induction false} WithinFirstLine(lines: seq<string>, n: nat, t: string)
    requires lines != [] && t == Join(lines, NEWLINE) && NEWLINE !in lines[0] && n <= |lines[0]|
    ensures n <= |t| && (forall k :: 0 <= k < n ==> t[k] != NEWLINE) && (n > 0 ==> t[0] == lines[0][0])
  {
  }

  lemma {:induction false} WithinLastLine(lines: seq<string>, n: nat, t: string)
    requires lines != [] && t == Join(lines, NEWLINE) && NEWLINE !in lines[|lines| - 1] && n <= |lines[|lines| - 1]|
    ensures n <= |t| && forall k :: |t| - n <= k < |t| ==> t[k] != NEWLINE
  {
    JoinEnds(lines);
    var last := lines[|lines| - 1];
    var from := |t| - |last|;
    assert forall k :: |t| - n <= k < |t| ==> t[k] == t[from..][k - from] == last[k - from];
  }

  lemma {:induction false} LastLineReaches(lines: seq<string>, n: nat, s: string)
    requires lines != [] && s == Join(lines, NEWLINE)
    requires n <= |s| && forall k :: |s| - n <= k < |s| ==> s[k] != NEWLINE
    ensures |lines[|lines| - 1]| >= n
  {
    JoinEnds(lines);
    if |lines| == 1 {
      assert Join(lines, NEWLINE) == lines[0];
    }
  }

  /** The part of a region before its first newline is on the first line, the part behind its last one on the last. */
  lemma {:induction false} RegionLines(s: string, head: nat, tail: nat, lines: seq<string>)
    requires lines == Split(s, NEWLINE)
    requires head <= |s| && forall k :: 0 <= k < head ==> s[k] != NEWLINE
    requires tail <= |s| && forall k :: |s| - tail <= k < |s| ==> s[k] != NEWLINE
    ensures Join(lines, NEWLINE) == s && head <= |lines[0]| && tail <= |lines[|lines| - 1]|
  {
    JoinSplits(s, NEWLINE);
    FirstLineReaches(s, head);
    LastLineReaches(lines, tail, s);
  }

  /** Indented lines: as many, each longer by two, free of newlines as far from either end as before. */
  lemma {:induction false} IndentedLines(lines: seq<string>, head: nat, tail: nat, t: string)
    requires lines != [] && t == Join(Indented(lines), NEWLINE)
    requires forall i :: 0 <= i < |lines| ==> NEWLINE !in lines[i]
    requires head <= |lines[0]| && tail <= |lines[|lines| - 1]|
    ensures Split(t, NEWLINE) == Indented(lines) && |t| == |Join(lines, NEWLINE)| + 2 * |lines|
    ensures head + 2 <= |t| && forall k :: 0 <= k < head + 2 ==> t[k] != NEWLINE
    ensures tail + 2 <= |t| && forall k :: |t| - tail - 2 <= k < |t| ==> t[k] != NEWLINE
  {
    IndentGrows(lines);
    forall i | 0 <= i < |lines|
      ensures NEWLINE !in Indented(lines)[i]
    {
      IndentAddsNoBreak(lines, i);
    }
    SplitJoins(Indented(lines), NEWLINE);
    IndentAddsNoBreak(lines, 0);
    WithinFirstLine(Indented(lines), head + 2, t);
    IndentAddsNoBreak(lines, |lines| - 1);
    WithinLastLine(Indented(lines), tail + 2, t);
  }

  /** Where the region lies in the indented text. */
  lemma {:induction false} SameRegion(value: string, a: nat, b: nat, ls: nat, le: nat, t: string, value': string)
    requires a < b <= |value| && ls == LineStart(value, a) && le == LineEnd(value, b)
    requires |t| >= le - ls && a + 2 <= ls + |t| && value' == value[..ls] + t + value[le..]
    requires forall k :: 0 <= k < a + 2 - ls ==> k < |t| && t[k] != NEWLINE
    requires forall k :: |t| - (le - b) <= k < |t| ==> 0 <= k && t[k] != NEWLINE
    ensures b + |t| - (le - ls) <= |value'|
    ensures LineStart(value', a + 2) == ls
    ensures LineEnd(value', b + |t| - (le - ls)) == ls + |t|
  {
    assert forall k :: ls <= k < ls + |t| ==> value'[k] == t[k - ls];
    LineStartUnique(value', a + 2, ls);
    FindUnique(value', NEWLINE, b + |t| - (le - ls), ls + |t|);
  }

  lemma {:induction false} TouchedLines(value: string, a: nat, b: nat, ls: nat, le: nat, lines: seq<string>)
    requires a < b <= |value| && ls == LineStart(value, a) && le == LineEnd(value, b)
    requires lines == Split(value[ls..le], NEWLINE)
    ensures Join(lines, NEWLINE) == value[ls..le]
    ensures a - ls <= |lines[0]| && le - b <= |lines[|lines| - 1]|
  {
    var s := value[ls..le];
    assert forall k :: 0 <= k < |s| ==> s[k] == value[ls + k];
    RegionLines(s, Max(a - ls, 0), le - b, lines);
  }

  lemma {:induction false} IndentedText(value: string, a: nat, b: nat, ls: nat, le: nat, lines: seq<string>, t: string, value': string)
    requires a < b <= |value| && ls == LineStart(value, a) && le == LineEnd(value, b)
    requires lines != [] && forall i :: 0 <= i < |lines| ==> NEWLINE !in lines[i]
    requires |Join(lines, NEWLINE)| == le - ls && a - ls <= |lines[0]| && le - b <= |lines[|lines| - 1]|
    requires t == Join(Indented(lines), NEWLINE) && value' == value[..ls] + t + value[le..]
    ensures Split(t, NEWLINE) == Indented(lines) && |t| == le - ls + 2 * |lines|
    ensures b + 2 * |lines| <= |value'|
    ensures LineStart(value', a + 2) == ls && LineEnd(value', b + 2 * |lines|) == ls + |t|
  {
    IndentedLines(lines, Max(a - ls, 0), le - b, t);
    SameRegion(value, a, b, ls, le, t, value');
  }

  lemma {:induction false} RegionOf(pre: string, t: string, post: string, value': string)
    requires value' == pre + t + post
    ensures value'[|pre|..|pre| + |t|] == t
  {
  }

  lemma {:induction false} Restored(value: string, ls: nat, le: nat, t: string, value': string)
    requires ls <= le <= |value| && value' == value[..ls] + t + value[le..]
    ensures value'[..ls] + value[ls..le] + value'[ls + |t|..] == value
  {
  }

  lemma {:induction false} Dedents(value: string, a: nat, b: nat, ls: nat, le: nat, lines: seq<string>, n: nat, s: string, dedent: Edit)
    requires a <= b <= |value| && ls == LineStart(value, a) && le == LineEnd(value, b) && ls <= le
    requires lines == Split(value[ls..le], NEWLINE) && s == Join(Dedented(lines), NEWLINE)
    requires n == TotalRemoved(lines) > 0 && Removed(lines[0]) == 2
    requires dedent == Edit(ls, le, s, Max(ls, a - 2), Max(Max(ls, a - 2), b - n))
    ensures ComputeTabEdit(value, a, b, true) == Some(dedent)
  {
  }

  /** A dedent that finds two spaces on every line of its region. */
  lemma {:induction false} DedentsRegion(value: string, a: nat, b: nat, a': nat, b': nat, ls: nat, le: nat, lines: seq<string>, s: string, dedent: Edit)
    requires a' <= b' <= |value| && ls == LineStart(value, a') && le == LineEnd(value, b') && ls <= le
    requires lines != [] && Split(value[ls..le], NEWLINE) == Indented(lines) && s == Join(lines, NEWLINE)
    requires a' == a + 2 && b' == b + 2 * |lines| && ls <= b && a <= b
    requires dedent == Edit(ls, le, s, Max(ls, a), b)
    ensures ComputeTabEdit(value, a', b', true) == Some(dedent)
  {
    DedentedIndented(lines);
    assert Indented(lines)[0] == INDENT + lines[0];
    Dedents(value, a', b', ls, le, Indented(lines), b' - b, s, dedent);
  }

  lemma {:induction false} IndentsRegion(value: string, a: nat, b: nat, ls: nat, le: nat, lines: seq<string>, indent: Edit)
    requires a <= b <= |value| && NEWLINE in value[a..b] && ls == LineStart(value, a) && le == LineEnd(value, b) && ls <= le
    requires lines == Split(value[ls..le], NEWLINE)
    requires indent == Edit(ls, le, Join(Indented(lines), NEWLINE), a + 2, b + 2 * |lines|)
    ensures ComputeTabEdit(value, a, b, false) == Some(indent)
  {
  }

  lemma {:induction false} RegionMoves(value: string, a: nat, b: nat, ls: nat, le: nat, lines: seq<string>, t: string, value': string, a': nat, b': nat, le': nat)
    requires a < b <= |value| && ls == LineStart(value, a) && le == LineEnd(value, b)
    requires lines == Split(value[ls..le], NEWLINE)
    requires t == Join(Indented(lines), NEWLINE) && value' == value[..ls] + t + value[le..]
    requires a' == a + 2 && b' == b + 2 * |lines| && le' == ls + |t|
    ensures a' <= b' <= |value'| && ls == LineStart(value', a') && le' == LineEnd(value', b')
    ensures Split(value'[ls..le'], NEWLINE) == Indented(lines) && Join(lines, NEWLINE) == value[ls..le]
  {
    hide Split, Join, LineStart, LineEnd, Indented;
    TouchedLines(value, a, b, ls, le, lines);
    IndentedText(value, a, b, ls, le, lines, t, value');
    RegionOf(value[..ls], t, value[le..], value');
  }

  /**
   Tab and then Shift+Tab on a multi-line selection: the text always comes back, and the
   selection does exactly when it did not begin at 0 in a text beginning with a newline
   (there it comes back beginning at 1).
   */
  lemma {:induction false} DedentUndoesIndent(value: string, selStart: nat, selEnd: nat) returns (indent: Edit, value': string, dedent: Edit)
    requires selStart <= selEnd <= |value| && NEWLINE in value[selStart..selEnd]
    ensures ComputeTabEdit(value, selStart, selEnd, false) == Some(indent)
    ensures indent.replaceStart <= indent.replaceEnd <= |value| && value' == Applied(value, indent)
    ensures indent.selStart <= indent.selEnd <= |value'|
    ensures ComputeTabEdit(value', indent.selStart, indent.selEnd, true) == Some(dedent)
    ensures dedent.replaceStart <= dedent.replaceEnd <= |value'| && Applied(value', dedent) == value
    ensures dedent.selEnd == selEnd
    ensures dedent.selStart == if selStart == 0 && value[0] == NEWLINE then 1 else selStart
  {
    var ls, le := LineStart(value, selStart), LineEnd(value, selEnd);
    var lines := Split(value[ls..le], NEWLINE);
    var t := Join(Indented(lines), NEWLINE);
    indent := Edit(ls, le, t, selStart + 2, selEnd + 2 * |lines|);
    IndentsRegion(value, selStart, selEnd, ls, le, lines, indent);
    value' := value[..ls] + t + value[le..];
    dedent := Edit(ls, ls + |t|, value[ls..le], Max(ls, selStart), selEnd);
    RegionMoves(value, selStart, selEnd, ls, le, lines, t, value', indent.selStart, indent.selEnd, ls + |t|);
    DedentsRegion(value', selStart, selEnd, indent.selStart, indent.selEnd, ls, ls + |t|, lines, value[ls..le], dedent);
    Restored(value, ls, le, t, value');
  }
}
