/**
 * Whole-buffer cases worked through to the bound the two searches report:
 * a condition on one line, a `repeat ... until` block, two nested blocks,
 * a function whose header is found, and an `end` inside a block comment.
 */
module Scenarios {
  import opened Chars
  import opened Patterns
  import opened Masker
  import opened LineFold
  import opened Bounds
  import opened Examples

  /** A condition start begins with the first letter of `if`, `for` or `while`. */
  lemma NoCondStartAt(s: string, p: nat)
    requires p < |s| && s[p] != 'i' && s[p] != 'f' && s[p] != 'w'
    ensures CondStartAt(s, p).None?
  {
    NotAt(s, p, "if"); NotAt(s, p, "for"); NotAt(s, p, "while");
  }

  /** A condition end begins with the first letter of `then` or `do`. */
  lemma NoCondEndAt(s: string, p: nat)
    requires p < |s| && s[p] != 't' && s[p] != 'd'
    ensures CondEndAt(s, p).None?
  {
    NotAt(s, p, "then"); NotAt(s, p, "do");
  }

  /** Walking up, a cursor line whose text left of the cursor is `y` leaves the level at 1. */
  lemma UpFromPlainLine(buf: seq<string>, line: int)
    requires 1 <= line <= |buf| && buf[line - 1] == "y"
    ensures StartScan(buf, line, 1, Block) == ScanUp(buf, line - 1, Block, LineResult(None, false, 1))
  {
    BackStepOverPlainLine();
    assert LeftOf("y", 1) == "y";
    StartScanFirst(buf, line, 1, Block, LineResult(None, false, 1));
  }

  /** An opener at the start of the first line puts the exclusive start at line 1, column 1. */
  lemma StartsAtFirstColumn(buf: seq<string>, line: int, col: nat, kind: Kind, t: Token)
    requires 1 <= line <= |buf| && t.start == 0
    requires var s := StartScan(buf, line, col, kind); s.Hit? && s.lnum == 0 && s.tok == t
    ensures StartBound(buf, line, col, false, kind) == Found(1, 1)
  {
    StartBoundHit(buf, line, col, false, kind, 0, t);
  }

  // ---------------------------------------------------------------------
  // `if xxxx == 2 then`, cursor column 6 (after the sixth character), kind Condition
  // ---------------------------------------------------------------------

  /** Left of the cursor only `if xxx` is read; its `if` and the blank after it are the condition start. */
  lemma CondLineStart()
    ensures FindAll(CondStart, "if xxx", 0) == [Token(0, 3)]
  {
    CondStartOfLine();
    FindAllResumes(CondStart, "if xxx", 0);
    CondLineRest();
  }

  lemma CondStartOfLine()
    ensures CondStartAt("if xxx", 0) == Some(3)
  {
    assert HasAt("if xxx", 0, "if");
  }

  lemma CondLineRest()
    ensures FindAll(CondStart, "if xxx", 3) == []
  {
    var s := "if xxx";
    forall p | 3 <= p < 6 ensures MatchAt(CondStart, s, p).None? {
      NoCondStartAt(s, p);
    }
    FindAllSkips(CondStart, s, 3, 6);
  }

  lemma CondBackStep()
    ensures BackStep("if xxx", Condition, false, 1) == LineResult(Some(Token(0, 3)), false, 0)
  {
    UnmarkedLineIsShownAsIs("if xxx", 0);
    CondLineStart();
  }

  lemma CondStartScan()
    ensures var s := StartScan(["if xxxx == 2 then"], 1, 6, Condition); s.Hit? && s.lnum == 0 && s.tok == Token(0, 3)
  {
    var buf := ["if xxxx == 2 then"];
    assert LeftOf(buf[0], 6) == "if xxx";
    CondBackStep();
    StartScanFirst(buf, 1, 6, Condition, LineResult(Some(Token(0, 3)), false, 0));
    ScanUpStop(buf, 0, Condition, LineResult(Some(Token(0, 3)), false, 0));
  }

  /**
   * The condition starts at the `if`; included, it starts after `if ` and
   * its blank, on the fourth column.
   */
  lemma ConditionStart()
    ensures StartBound(["if xxxx == 2 then"], 1, 6, false, Condition) == Found(1, 1)
    ensures StartBound(["if xxxx == 2 then"], 1, 6, true, Condition) == Found(1, 4)
  {
    var buf := ["if xxxx == 2 then"];
    CondStartScan();
    StartBoundHit(buf, 1, 6, false, Condition, 0, Token(0, 3));
    StartBoundHit(buf, 1, 6, true, Condition, 0, Token(0, 3));
    assert |buf[0]| == 17;
  }

  /**
   * Right of the cursor (the text before it blanked) the first condition
   * end is the `then` that ends the line.
   */
  lemma CondLineEnd()
    ensures Search(CondEnd, AfterCursor("if xxxx == 2 then", 6), 0) == Some(Token(13, 17))
  {
    var line := "if xxxx == 2 then";
    var t := AfterCursor(line, 6);
    assert |t| == 17;
    forall q | 0 <= q < 13 ensures MatchAt(CondEnd, t, q).None? {
      assert t[q] == if q < 6 then ' ' else line[q];
      NoCondEndAt(t, q);
    }
    assert t[12] == ' ';
    Spelled(t, 13, "then");
    assert CondEndAt(t, 13) == Some(17);
    SearchFindsFirst(CondEnd, t, 0, 13);
  }

  lemma CondForwardStep()
    ensures ForwardStep("if xxxx == 2 then", Condition, false, 6, 1) == LineResult(Some(Token(13, 17)), false, 0)
  {
    var line := "if xxxx == 2 then";
    assert Unmarked(line);
    UnmarkedLineIsShownAsIs(line, 6);
    CondLineEnd();
  }

  lemma CondEndScan()
    ensures var s := EndScan(["if xxxx == 2 then"], 1, 6, Condition); s.Hit? && s.lnum == 0 && s.tok == Token(13, 17)
  {
    var buf := ["if xxxx == 2 then"];
    CondForwardStep();
    EndScanFirst(buf, 1, 6, Condition, LineResult(Some(Token(13, 17)), false, 0));
    ScanDownStop(buf, 0, Condition, LineResult(Some(Token(13, 17)), false, 0));
  }

  /**
   * The condition ends after `then`, past the end of the line; included,
   * it ends at the column before `then`.
   */
  lemma ConditionEnd()
    ensures EndBound(["if xxxx == 2 then"], 1, 6, false, Condition) == Found(1, 18)
    ensures EndBound(["if xxxx == 2 then"], 1, 6, true, Condition) == Found(1, 13)
  {
    var buf := ["if xxxx == 2 then"];
    CondEndScan();
    EndBoundHit(buf, 1, 6, false, Condition, 0, Token(13, 17));
    EndBoundHit(buf, 1, 6, true, Condition, 0, Token(13, 17));
  }

  // ---------------------------------------------------------------------
  // `if x then` / `if x then` / `end` / `y` / `end`, cursor just after `y`, kind Block
  // ---------------------------------------------------------------------

  /** Walking up, a line holding only `end` raises the level by one. */
  lemma BackStepOverEndLine()
    ensures BackStep("end", Block, false, 1) == LineResult(None, false, 2)
  {
    UnmarkedLineIsShownAsIs("end", 0);
    EndLineTokens();
    BackFoldCounts(Block, "end", [], [Token(0, 3)], false, 1);
  }

  /** At level 2 an opener only brings the level back to 1. */
  lemma BackStepOverInnerIfLine()
    ensures BackStep("if x then", Block, false, 2) == LineResult(None, false, 1)
  {
    UnmarkedLineIsShownAsIs("if x then", 0);
    IfLineOpeners();
    IfLineClosers();
    InnerIfLowersLevel();
  }

  lemma InnerIfLowersLevel()
    ensures BackFold(Block, "if x then", [Token(0, 9)], [], false, 2) == LineResult(None, false, 1)
  {
    BackFoldCounts(Block, "if x then", [Token(0, 9)], [], false, 2);
  }

  /** The buffer of the nested case: an inner block closed before the cursor line. */
  const Nested: seq<string> := ["if x then", "if x then", "end", "y", "end"]

  lemma NestUpFromCursor()
    ensures StartScan(Nested, 4, 1, Block) == ScanUp(Nested, 3, Block, LineResult(None, false, 1))
  {
    assert Nested[3] == "y";
    UpFromPlainLine(Nested, 4);
  }

  lemma NestUpOverEnd()
    ensures ScanUp(Nested, 3, Block, LineResult(None, false, 1)) == ScanUp(Nested, 2, Block, LineResult(None, false, 2))
  {
    assert Nested[2] == "end";
    BackStepOverEndLine();
    ScanUpStep(Nested, 3, Block, LineResult(None, false, 1));
  }

  lemma NestUpOverInnerIf()
    ensures ScanUp(Nested, 2, Block, LineResult(None, false, 2)) == ScanUp(Nested, 1, Block, LineResult(None, false, 1))
  {
    assert Nested[1] == "if x then";
    BackStepOverInnerIfLine();
    ScanUpStep(Nested, 2, Block, LineResult(None, false, 2));
  }

  lemma NestUpToOuterIf()
    ensures ScanUp(Nested, 1, Block, LineResult(None, false, 1)) == ScanUp(Nested, 0, Block, LineResult(Some(Token(0, 9)), false, 0))
  {
    assert Nested[0] == "if x then";
    BackStepOverIfLine();
    ScanUpStep(Nested, 1, Block, LineResult(None, false, 1));
  }

  /**
   * The `end` on line 3 closes the inner `if`, so walking up from `y` the
   * block starts at the outer `if` on line 1, not at the inner one.
   */
  lemma NestedBlockStart()
    ensures StartBound(Nested, 4, 1, false, Block) == Found(1, 1)
  {
    NestStartScan();
    StartsAtFirstColumn(Nested, 4, 1, Block, Token(0, 9));
  }

  lemma NestStartScan()
    ensures var s := StartScan(Nested, 4, 1, Block); s.Hit? && s.lnum == 0 && s.tok == Token(0, 9)
  {
    NestUpFromCursor();
    NestUpOverEnd();
    NestUpOverInnerIf();
    NestUpToOuterIf();
    ScanUpStop(Nested, 0, Block, LineResult(Some(Token(0, 9)), false, 0));
  }

  lemma NestDownToEnd()
    ensures var s := EndScan(Nested, 4, 1, Block); s.Hit? && s.lnum == 4 && s.tok == Token(0, 3)
  {
    assert Nested[3] == "y" && Nested[4] == "end";
    ForwardStepOverCursorLine();
    EndScanFirst(Nested, 4, 1, Block, LineResult(None, false, 1));
    ForwardStepOverEndLine();
    ScanDownStep(Nested, 3, Block, LineResult(None, false, 1));
    ScanDownStop(Nested, 4, Block, LineResult(Some(Token(0, 3)), false, 0));
  }

  /** Walking down from `y`, the outer block ends after the `end` on line 5. */
  lemma NestedBlockEnd()
    ensures EndBound(Nested, 4, 1, false, Block) == Found(5, 4)
  {
    NestDownToEnd();
    EndBoundHit(Nested, 4, 1, false, Block, 4, Token(0, 3));
  }

  // ---------------------------------------------------------------------
  // `repeat` / `y` / `until a > 20`, cursor just after `y`, kind Block
  // ---------------------------------------------------------------------

  /** The buffer of the `repeat ... until` case. */
  const Repeated: seq<string> := ["repeat", "y", "until a > 20"]

  /** A bare `repeat` ending the line is an opener running to the end of the line. */
  lemma RepeatLineOpeners()
    ensures FindAll(BlockStart, "repeat", 0) == [Token(0, 6)]
  {
    var s := "repeat";
    NotAt(s, 0, "local"); NotAt(s, 0, "function"); NotAt(s, 0, "if");
    NotAt(s, 0, "for"); NotAt(s, 0, "while");
    assert HasAt(s, 0, "repeat");
    assert OpenerAt(s, 0) == Some(6);
    FindAllResumes(BlockStart, s, 0);
  }

  lemma RepeatLineClosers()
    ensures FindAll(BlockEnd, "repeat", 0) == []
  {
    var s := "repeat";
    forall p | 0 <= p < 6 ensures MatchAt(BlockEnd, s, p).None? {
      if p == 0 { CloserInitial(s, p); } else { assert IsWord(s[p - 1]); }
    }
    FindAllSkips(BlockEnd, s, 0, 6);
  }

  lemma BackStepOverRepeatLine()
    ensures BackStep("repeat", Block, false, 1) == LineResult(Some(Token(0, 6)), false, 0)
  {
    UnmarkedLineIsShownAsIs("repeat", 0);
    RepeatLineOpeners();
    RepeatLineClosers();
    BackFoldCounts(Block, "repeat", [Token(0, 6)], [], false, 1);
  }

  lemma RepeatStartScan()
    ensures var s := StartScan(Repeated, 2, 1, Block); s.Hit? && s.lnum == 0 && s.tok == Token(0, 6)
  {
    assert Repeated[1] == "y" && Repeated[0] == "repeat";
    UpFromPlainLine(Repeated, 2);
    BackStepOverRepeatLine();
    ScanUpStep(Repeated, 1, Block, LineResult(None, false, 1));
    ScanUpStop(Repeated, 0, Block, LineResult(Some(Token(0, 6)), false, 0));
  }

  /**
   * The block starts at `repeat`; included, it starts on the next line,
   * because the opener runs to the end of its line.
   */
  lemma RepeatBlockStart()
    ensures StartBound(Repeated, 2, 1, false, Block) == Found(1, 1)
    ensures StartBound(Repeated, 2, 1, true, Block) == Found(2, 1)
  {
    RepeatStartScan();
    StartsAtFirstColumn(Repeated, 2, 1, Block, Token(0, 6));
    StartBoundHit(Repeated, 2, 1, true, Block, 0, Token(0, 6));
    assert |Repeated[0]| == 6;
  }

  /** In `until a > 20` the only opener candidate letters sit inside words or are not opener initials. */
  lemma UntilLineOpeners()
    ensures FindAll(BlockStart, "until a > 20", 0) == []
  {
    var s := "until a > 20";
    forall p | 0 <= p < 12 ensures MatchAt(BlockStart, s, p).None? {
      if 1 <= p <= 4 { assert IsWord(s[p - 1]); } else { OpenerInitial(s, p); }
    }
    FindAllSkips(BlockStart, s, 0, 12);
  }

  /** `until` followed by a blank is a closer that runs to the end of the line. */
  lemma UntilLineClosers()
    ensures FindAll(BlockEnd, "until a > 20", 0) == [Token(0, 12)]
  {
    var s := "until a > 20";
    assert HasAt(s, 0, "until");
    assert CloserAt(s, 0) == Some(12);
    FindAllResumes(BlockEnd, s, 0);
  }

  lemma ForwardStepOverUntilLine()
    ensures ForwardStep("until a > 20", Block, false, 0, 1) == LineResult(Some(Token(0, 12)), false, 0)
  {
    var s := "until a > 20";
    UnmarkedLineIsShownAsIs(s, 0);
    UntilLineOpeners();
    UntilLineClosers();
    UntilClosesBlock();
  }

  lemma UntilClosesBlock()
    ensures ForwardFold(Block, "until a > 20", [], [Token(0, 12)], false, 1) == LineResult(Some(Token(0, 12)), false, 0)
  {
    ForwardFoldCounts(Block, "until a > 20", [], [Token(0, 12)], false, 1);
  }

  lemma RepeatEndScan()
    ensures var s := EndScan(Repeated, 2, 1, Block); s.Hit? && s.lnum == 2 && s.tok == Token(0, 12)
  {
    assert Repeated[1] == "y" && Repeated[2] == "until a > 20";
    ForwardStepOverCursorLine();
    EndScanFirst(Repeated, 2, 1, Block, LineResult(None, false, 1));
    ForwardStepOverUntilLine();
    ScanDownStep(Repeated, 1, Block, LineResult(None, false, 1));
    ScanDownStop(Repeated, 2, Block, LineResult(Some(Token(0, 12)), false, 0));
  }

  /**
   * The block ends after the whole `until` line; included, it ends one past
   * the end of the line above, because the closer starts its line.
   */
  lemma RepeatBlockEnd()
    ensures EndBound(Repeated, 2, 1, false, Block) == Found(3, 13)
    ensures EndBound(Repeated, 2, 1, true, Block) == Found(2, 2)
  {
    RepeatEndScan();
    EndBoundHit(Repeated, 2, 1, false, Block, 2, Token(0, 12));
    EndBoundHit(Repeated, 2, 1, true, Block, 2, Token(0, 12));
    UntilStartsItsLine();
  }

  lemma UntilStartsItsLine()
    ensures EndPosition(Repeated, 2, Token(0, 12), true) == Found(2, 2)
  {
    assert PyLine(Repeated, 1) == "y";
  }

  // ---------------------------------------------------------------------
  // `function f(x)` / `y` / `end`, cursor just after `y`, kind Function
  // ---------------------------------------------------------------------

  /** The buffer of the function case. */
  const Headed: seq<string> := ["function f(x)", "y", "end"]

  /** `function f(x)` is a header: keyword, a blank, the name `f`, and `(x)`. */
  lemma HeaderLineOpeners()
    ensures FindAll(BlockStart, "function f(x)", 0) == [Token(0, 13)]
  {
    var s := "function f(x)";
    assert HasAt(s, 0, "function");
    assert NamePart(s, 8, 9, 10);
    assert ParenPart(s, 10, 13);
    PartsMakeHeader(s, 0, 0, 9, 10, 13);
    assert OpenerAt(s, 0) == Some(13);
    FindAllResumes(BlockStart, s, 0);
  }

  lemma HeaderLineClosers()
    ensures FindAll(BlockEnd, "function f(x)", 0) == []
  {
    var s := "function f(x)";
    forall p | 0 <= p < 13 ensures MatchAt(BlockEnd, s, p).None? {
      if p == 0 || p == 9 || p == 11 { CloserInitial(s, p); } else { assert IsWord(s[p - 1]); }
    }
    FindAllSkips(BlockEnd, s, 0, 13);
  }

  /** For kind Function the header is accepted: its text ends with `)`. */
  lemma BackStepOverHeaderLine()
    ensures BackStep("function f(x)", Function, false, 1) == LineResult(Some(Token(0, 13)), false, 0)
  {
    var s := "function f(x)";
    UnmarkedLineIsShownAsIs(s, 0);
    HeaderLineOpeners();
    HeaderLineClosers();
    HeaderIsAccepted();
  }

  lemma HeaderIsAccepted()
    ensures BackFold(Function, "function f(x)", [Token(0, 13)], [], false, 1) == LineResult(Some(Token(0, 13)), false, 0)
  {
    assert AcceptsOpener(Function, "function f(x)", Token(0, 13));
  }

  lemma HeaderStartScan()
    ensures var s := StartScan(Headed, 2, 1, Function); s.Hit? && s.lnum == 0 && s.tok == Token(0, 13)
  {
    FunctionKindOverPlainLine();
    assert Headed[1] == "y" && Headed[0] == "function f(x)";
    assert LeftOf("y", 1) == "y";
    StartScanFirst(Headed, 2, 1, Function, LineResult(None, false, 1));
    BackStepOverHeaderLine();
    assert Demote(Function, 1) == Function;
    ScanUpStep(Headed, 1, Function, LineResult(None, false, 1));
    ScanUpStop(Headed, 0, Function, LineResult(Some(Token(0, 13)), false, 0));
  }

  /** The function starts at its header. */
  lemma FunctionStart()
    ensures StartBound(Headed, 2, 1, false, Function) == Found(1, 1)
  {
    HeaderStartScan();
    StartsAtFirstColumn(Headed, 2, 1, Function, Token(0, 13));
  }

  lemma FunctionForwardOverCursorLine()
    ensures ForwardStep("y", Function, false, 1, 1) == LineResult(None, false, 1)
  {
    UnmarkedLineIsShownAsIs("y", 1);
    assert AfterCursor("y", 1) == " ";
    NoTokensInWord();
  }

  /** For kind Function an `end` closer is accepted: it is not an `until`. */
  lemma FunctionForwardOverEndLine()
    ensures ForwardStep("end", Function, false, 0, 1) == LineResult(Some(Token(0, 3)), false, 0)
  {
    UnmarkedLineIsShownAsIs("end", 0);
    EndLineTokens();
    EndIsNoUntil();
  }

  lemma EndIsNoUntil()
    ensures !IsUntilText("end", Token(0, 3))
  {
    assert "end"[0..3] == "end";
  }

  lemma FunctionEndScan()
    ensures var s := EndScan(Headed, 2, 1, Function); s.Hit? && s.lnum == 2 && s.tok == Token(0, 3)
  {
    assert Headed[1] == "y" && Headed[2] == "end";
    FunctionForwardOverCursorLine();
    EndScanFirst(Headed, 2, 1, Function, LineResult(None, false, 1));
    FunctionForwardOverEndLine();
    assert Demote(Function, 1) == Function;
    ScanDownStep(Headed, 1, Function, LineResult(None, false, 1));
    ScanDownStop(Headed, 2, Function, LineResult(Some(Token(0, 3)), false, 0));
  }

  /** The function ends after its `end`. */
  lemma FunctionEnd()
    ensures EndBound(Headed, 2, 1, false, Function) == Found(3, 4)
  {
    FunctionEndScan();
    EndBoundHit(Headed, 2, 1, false, Function, 2, Token(0, 3));
  }

  // ---------------------------------------------------------------------
  // `if x then` / `--[[` / `end` / `]]--` / `y` / `end`, cursor just after `y`, kind Block
  // ---------------------------------------------------------------------

  /** The buffer of the block-comment case: an `end` commented out between the opener and the cursor. */
  const Commented: seq<string> := ["if x then", "--[[", "end", "]]--", "y", "end"]

  /** A line of blanks survives masking unchanged and holds no opener and no closer. */
  lemma BlankLineHasNothing(s: string)
    requires forall i :: 0 <= i < |s| ==> s[i] == ' '
    ensures MaskLiterals(s) == s
    ensures FindAll(BlockStart, s, 0) == [] && FindAll(BlockEnd, s, 0) == []
  {
    assert Unmarked(s);
    forall p | 0 <= p <= |s|
      ensures MatchAt(LineComment, s, p).None? && MatchAt(SingleQuote, s, p).None?
      ensures MatchAt(DoubleQuote, s, p).None?
    {
      UnmarkedHasNoMarks(s, p);
    }
    NoMatchKeepsLine(LineComment, s);
    NoMatchKeepsLine(SingleQuote, s);
    NoMatchKeepsLine(DoubleQuote, s);
    forall p | 0 <= p < |s| ensures MatchAt(BlockStart, s, p).None? && MatchAt(BlockEnd, s, p).None? {
      OpenerInitial(s, p);
      CloserInitial(s, p);
    }
    FindAllSkips(BlockStart, s, 0, |s|);
    FindAllSkips(BlockEnd, s, 0, |s|);
  }

  /** `]]--` is a closing mark spanning the whole line. */
  lemma CloseMarkLine()
    ensures Search(CommentClose, "]]--", 0) == Some(Token(0, 4))
  {
    var s := "]]--";
    assert HasAt(s, 1, "]--");
    CommentCloseMatches(s, 0, 4);
    SearchFindsFirst(CommentClose, s, 0, 0);
  }

  /** `--[[` is an opening mark spanning the whole line. */
  lemma OpenMarkLine()
    ensures Search(CommentOpen, "--[[", 0) == Some(Token(0, 4))
  {
    var s := "--[[";
    assert HasAt(s, 0, "--[");
    CommentOpenMatches(s, 0, 4);
    SearchFindsFirst(CommentOpen, s, 0, 0);
  }

  /** Walking up, the closing mark is where the comment begins: the line is blanked and the walk enters the comment. */
  lemma BackStepOverCloseMark()
    ensures BackStep("]]--", Block, false, 1) == LineResult(None, true, 1)
  {
    CloseMarkLine();
    var cut := HideThrough("]]--", 4);
    BlankLineHasNothing(cut);
    assert MaskBackward("]]--", false) == Shown(cut, true);
  }

  /** Inside the comment, a line without an opening mark is hidden: its `end` is not counted. */
  lemma BackStepOverCommentedEnd()
    ensures BackStep("end", Block, true, 1) == LineResult(None, true, 1)
  {
    NoOpenMarkInEnd();
    assert MaskBackward("end", true) == Hidden;
  }

  lemma NoOpenMarkInEnd()
    ensures Search(CommentOpen, "end", 0).None?
  {
    var s := "end";
    forall p | 0 <= p < |s| ensures MatchAt(CommentOpen, s, p).None? {
      UnmarkedHasNoMarks(s, p);
    }
    FindAllSkips(CommentOpen, s, 0, 3);
    SearchIsFirstMatch(CommentOpen, s, 0);
  }

  /** Walking up, the opening mark is where the comment ends: what remains is blank and the walk leaves the comment. */
  lemma BackStepOverOpenMark()
    ensures BackStep("--[[", Block, true, 1) == LineResult(None, false, 1)
  {
    OpenMarkLine();
    var cut := HideFrom("--[[", 0);
    BlankLineHasNothing(cut);
    assert MaskBackward("--[[", true) == Shown(cut, false);
  }

  lemma CommentedUpFromCursor()
    ensures StartScan(Commented, 5, 1, Block) == ScanUp(Commented, 3, Block, LineResult(None, true, 1))
  {
    assert Commented[4] == "y" && Commented[3] == "]]--";
    UpFromPlainLine(Commented, 5);
    BackStepOverCloseMark();
    ScanUpStep(Commented, 4, Block, LineResult(None, false, 1));
  }

  lemma CommentedUpThroughComment()
    ensures ScanUp(Commented, 3, Block, LineResult(None, true, 1)) == ScanUp(Commented, 1, Block, LineResult(None, false, 1))
  {
    assert Commented[2] == "end" && Commented[1] == "--[[";
    BackStepOverCommentedEnd();
    ScanUpStep(Commented, 3, Block, LineResult(None, true, 1));
    BackStepOverOpenMark();
    ScanUpStep(Commented, 2, Block, LineResult(None, true, 1));
  }

  lemma CommentedStartScan()
    ensures var s := StartScan(Commented, 5, 1, Block); s.Hit? && s.lnum == 0 && s.tok == Token(0, 9)
  {
    CommentedUpFromCursor();
    CommentedUpThroughComment();
    assert Commented[0] == "if x then";
    BackStepOverIfLine();
    ScanUpStep(Commented, 1, Block, LineResult(None, false, 1));
    ScanUpStop(Commented, 0, Block, LineResult(Some(Token(0, 9)), false, 0));
  }

  /**
   * The `end` between `--[[` and `]]--` is commented out, so it does not
   * close the `if`: walking up from `y`, the block starts at the `if`.
   */
  lemma CommentedBlockStart()
    ensures StartBound(Commented, 5, 1, false, Block) == Found(1, 1)
  {
    CommentedStartScan();
    StartsAtFirstColumn(Commented, 5, 1, Block, Token(0, 9));
  }
}
