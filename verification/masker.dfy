/**
 * The lexical line masker of lua_text_bound.py: before any keyword is
 * looked for, block comments, line comments and string literals are
 * overwritten with blanks so that their text cannot be mistaken for code.
 * The backward and the forward scanner treat block comments in mirror
 * image: walking up, a closing mark `]=*]--` is where a comment begins and
 * an opening mark `--[=*[` is where it ends; walking down, the reverse.
 */
module Masker {
  import opened Chars
  import opened Patterns

  /** The line as the scanners see it, or `Hidden` when all of it lies inside a block comment. */
  datatype View = Hidden | Shown(text: string, inComment: bool)

  /** `' '*end + line[end:]`: blank everything up to the end of a closing mark. */
  function HideThrough(line: string, end: nat): (r: string)
    requires end <= |line|
    ensures |r| == |line|
    ensures forall i :: 0 <= i < |line| ==> r[i] == if i < end then ' ' else line[i]
  {
    Spaces(end) + line[end..]
  }

  /**
   * `line[:start] + ' '*(len(line) - start + 1)`: blank everything from the
   * start of an opening mark. The padding is one blank longer than the text
   * it replaces, so the result is one character longer than the line.
   */
  function HideFrom(line: string, start: nat): (r: string)
    requires start <= |line|
    ensures |r| == |line| + 1
    ensures forall i :: 0 <= i < |r| ==> r[i] == if i < start then line[i] else ' '
  {
    line[..start] + Spaces(|line| - start + 1)
  }

  /** `' '*col + line[col:]`: blank the text before the cursor column. */
  function HidePrefix(line: string, col: nat): (r: string)
    ensures |r| == if col <= |line| then |line| else col
    ensures forall i :: 0 <= i < |r| ==> r[i] == if i < col then ' ' else line[i]
  {
    Spaces(col) + (if col <= |line| then line[col..] else [])
  }

  /**
   * Line comment first, then single-quoted, then double-quoted strings.
   * Because the line comment goes first, a `--` inside a string literal
   * blanks the rest of the line, closing quote included.
   */
  function MaskLiterals(line: string): (r: string)
    ensures |r| == |line|
  {
    Blank(DoubleQuote, Blank(SingleQuote, Blank(LineComment, line)))
  }

  /** Masking literals only ever turns characters into blanks; every other character keeps its column. */
  lemma MaskLiteralsKeeps(line: string)
    ensures forall i :: 0 <= i < |line| ==> MaskLiterals(line)[i] == line[i] || MaskLiterals(line)[i] == ' '
  {
    var a := Blank(LineComment, line);
    var b := Blank(SingleQuote, a);
    forall i | 0 <= i < |line|
      ensures MaskLiterals(line)[i] == line[i] || MaskLiterals(line)[i] == ' '
    {
      BlankAt(LineComment, line, i);
      BlankAt(SingleQuote, a, i);
      BlankAt(DoubleQuote, b, i);
    }
  }

  /** The masking that find_start_bound_per_line applies to a line above (or at) the cursor. */
  function MaskBackward(line: string, inComment: bool): (v: View)
    ensures v.Hidden? <==> inComment && Search(CommentOpen, line, 0).None?
    ensures v.Shown? ==> (v.inComment <==> !inComment && Search(CommentClose, line, 0).Some?)
    ensures v.Shown? ==> |v.text| == if inComment then |line| + 1 else |line|
    ensures v.Shown? ==> forall i :: 0 <= i < |line| ==> v.text[i] == line[i] || v.text[i] == ' '
  {
    if inComment then
      match Search(CommentOpen, line, 0)
      case None => Hidden
      case Some(mark) =>
        var cut := HideFrom(line, mark.start);
        MaskLiteralsKeeps(cut);
        Shown(MaskLiterals(cut), false)
    else
      match Search(CommentClose, line, 0)
      case Some(mark) =>
        var cut := HideThrough(line, mark.end);
        MaskLiteralsKeeps(cut);
        Shown(MaskLiterals(cut), true)
      case None =>
        MaskLiteralsKeeps(line);
        Shown(MaskLiterals(line), false)
  }

  /**
   * The masking that find_end_bound_per_line applies to a line at or below
   * the cursor; on the cursor line `col` is the cursor column and the first
   * `col` characters are blanked last, so only text from `col` on is seen.
   */
  function MaskForward(line: string, inComment: bool, col: nat): (v: View)
    ensures v.Hidden? <==> inComment && Search(CommentClose, line, 0).None?
    ensures v.Shown? ==> (v.inComment <==> !inComment && Search(CommentOpen, line, 0).Some?)
    ensures v.Shown? ==> |v.text| >= |line|
    ensures v.Shown? ==> |v.text| == (var n := if !inComment && Search(CommentOpen, line, 0).Some? then |line| + 1 else |line|;
                                      if col <= n then n else col)
    ensures v.Shown? ==> forall i :: 0 <= i < col && i < |v.text| ==> v.text[i] == ' '
    ensures v.Shown? ==> forall i :: col <= i < |line| ==> v.text[i] == line[i] || v.text[i] == ' '
  {
    if inComment then
      match Search(CommentClose, line, 0)
      case None => Hidden
      case Some(mark) =>
        var cut := HideThrough(line, mark.end);
        MaskLiteralsKeeps(cut);
        AfterCursorKeeps(line, MaskLiterals(cut), col);
        Shown(AfterCursor(MaskLiterals(cut), col), false)
    else
      match Search(CommentOpen, line, 0)
      case Some(mark) =>
        var cut := HideFrom(line, mark.start);
        MaskLiteralsKeeps(cut);
        AfterCursorKeeps(line, MaskLiterals(cut), col);
        Shown(AfterCursor(MaskLiterals(cut), col), true)
      case None =>
        MaskLiteralsKeeps(line);
        AfterCursorKeeps(line, MaskLiterals(line), col);
        Shown(AfterCursor(MaskLiterals(line), col), false)
  }

  /**
   * Walking up, the part of a line that lies inside a block comment is
   * blank: outside a comment, everything through the end of the first
   * closing mark; inside one, everything from the start of the first
   * opening mark to the end of the padded line.
   */
  lemma MaskBackwardBlanksComment(line: string, inComment: bool)
    ensures var v := MaskBackward(line, inComment);
            var mark := Search(CommentClose, line, 0);
            !inComment && mark.Some? ==> v.Shown? && forall i :: 0 <= i < mark.value.end ==> v.text[i] == ' '
    ensures var v := MaskBackward(line, inComment);
            var mark := Search(CommentOpen, line, 0);
            inComment && mark.Some? ==> v.Shown? && forall i :: mark.value.start <= i < |v.text| ==> v.text[i] == ' '
  {
    if !inComment {
      match Search(CommentClose, line, 0)
      case None =>
      case Some(mark) =>
        MaskLiteralsKeeps(HideThrough(line, mark.end));
    } else {
      match Search(CommentOpen, line, 0)
      case None =>
      case Some(mark) =>
        MaskLiteralsKeeps(HideFrom(line, mark.start));
    }
  }

  /**
   * Walking down, the mirror image: inside a comment, everything through the
   * end of the first closing mark is blank; outside one, everything from the
   * start of the first opening mark to the end of the padded line.
   */
  lemma MaskForwardBlanksComment(line: string, inComment: bool, col: nat)
    ensures var v := MaskForward(line, inComment, col);
            var mark := Search(CommentClose, line, 0);
            inComment && mark.Some? ==> v.Shown? && forall i :: 0 <= i < mark.value.end ==> v.text[i] == ' '
    ensures var v := MaskForward(line, inComment, col);
            var mark := Search(CommentOpen, line, 0);
            !inComment && mark.Some? ==> v.Shown? && forall i :: mark.value.start <= i < |v.text| ==> v.text[i] == ' '
  {
    if inComment {
      match Search(CommentClose, line, 0)
      case None =>
      case Some(mark) =>
        MaskLiteralsKeeps(HideThrough(line, mark.end));
    } else {
      match Search(CommentOpen, line, 0)
      case None =>
      case Some(mark) =>
        MaskLiteralsKeeps(HideFrom(line, mark.start));
    }
  }

  /** Blanking the text before the cursor keeps what masking kept from `col` on. */
  lemma AfterCursorKeeps(line: string, masked: string, col: nat)
    requires |masked| >= |line|
    requires forall i :: 0 <= i < |line| ==> masked[i] == line[i] || masked[i] == ' '
    ensures |AfterCursor(masked, col)| >= |line|
    ensures forall i :: 0 <= i < col && i < |AfterCursor(masked, col)| ==> AfterCursor(masked, col)[i] == ' '
    ensures forall i :: col <= i < |line| ==> AfterCursor(masked, col)[i] == line[i] || AfterCursor(masked, col)[i] == ' '
  {
  }

  /** `if start_col != 0: line = ' '*start_col + line[start_col:]` */
  function AfterCursor(line: string, col: nat): (r: string)
    ensures |r| == if col <= |line| then |line| else col
    ensures forall i :: 0 <= i < |r| ==> r[i] == if i < col then ' ' else line[i]
  {
    if col != 0 then HidePrefix(line, col) else line
  }

  /** The line holds no character that can begin a comment mark or a string literal. */
  predicate Unmarked(line: string)
  {
    forall i :: 0 <= i < |line| ==> line[i] != '-' && line[i] != ']' && line[i] != '\'' && line[i] != '"'
  }

  /** None of the masking patterns matches anywhere in an unmarked line. */
  lemma UnmarkedHasNoMarks(line: string, p: nat)
    requires Unmarked(line) && p <= |line|
    ensures MatchAt(LineComment, line, p).None? && MatchAt(SingleQuote, line, p).None?
    ensures MatchAt(DoubleQuote, line, p).None? && MatchAt(CommentOpen, line, p).None?
    ensures MatchAt(CommentClose, line, p).None?
  {
    if p + 2 <= |line| {
      assert line[p..p + 2][0] == line[p];
    }
    if p + 3 <= |line| {
      assert line[p..p + 3][0] == line[p];
    }
  }

  /** Blanking by a pattern that never matches changes nothing. */
  lemma NoMatchKeepsLine(pat: Pattern, line: string)
    requires forall p :: 0 <= p < |line| ==> MatchAt(pat, line, p).None?
    ensures Blank(pat, line) == line
  {
    FindAllSkips(pat, line, 0, |line|);
  }

  /** A line without comment marks or quotes reaches the keyword search unchanged, in both directions. */
  lemma UnmarkedLineIsShownAsIs(line: string, col: nat)
    requires Unmarked(line)
    ensures MaskBackward(line, false) == Shown(line, false)
    ensures MaskForward(line, false, col) == Shown(AfterCursor(line, col), false)
  {
    forall p | 0 <= p <= |line|
      ensures MatchAt(LineComment, line, p).None? && MatchAt(SingleQuote, line, p).None?
      ensures MatchAt(DoubleQuote, line, p).None? && MatchAt(CommentOpen, line, p).None?
      ensures MatchAt(CommentClose, line, p).None?
    {
      UnmarkedHasNoMarks(line, p);
    }
    NoMatchKeepsLine(LineComment, line);
    NoMatchKeepsLine(SingleQuote, line);
    NoMatchKeepsLine(DoubleQuote, line);
    assert MaskLiterals(line) == line;
  }
}
