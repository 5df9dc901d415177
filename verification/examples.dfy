module Examples {
  import opened Chars
  import opened Patterns
  import opened Masker
  import opened LineFold
  import opened Bounds

  /** A keyword cannot occur where the line holds a different first letter. */
  lemma NotAt(s: string, p: nat, w: string)
    requires p < |s| && w != [] && s[p] != w[0]
    ensures !HasAt(s, p, w)
  {
    if p + |w| <= |s| {
      assert s[p..p + |w|][0] == s[p];
    }
  }

  /** A keyword occurs at `p` when the characters there spell it. */
  lemma Spelled(s: string, p: nat, w: string)
    requires p + |w| <= |s| && forall i :: 0 <= i < |w| ==> s[p + i] == w[i]
    ensures HasAt(s, p, w)
  {
    assert s[p..p + |w|] == w;
  }

  /** An opener starts with the first letter of `local`, `function`, `if`, `for`, `while` or `repeat`. */
  lemma OpenerInitial(s: string, p: nat)
    requires p < |s| && !(s[p] in "lfiwr")
    ensures OpenerAt(s, p).None?
  {
    NotAt(s, p, "local"); NotAt(s, p, "function"); NotAt(s, p, "if");
    NotAt(s, p, "for"); NotAt(s, p, "while"); NotAt(s, p, "repeat");
  }

  lemma IfLineOpeners()
    ensures FindAll(BlockStart, "if x then", 0) == [Token(0, 9)]
  {
    var s := "if x then";
    NotAt(s, 0, "local"); NotAt(s, 0, "function");
    assert HasAt(s, 0, "if");
    assert TailAt(s, 5, "then");
    assert OpenerAt(s, 0) == Some(9);
    FindAllResumes(BlockStart, s, 0);
  }

  /** A closer starts, after its leading blanks, with the first letter of `until` or `end`. */
  lemma CloserInitial(s: string, p: nat)
    requires p <= |s|
    requires var q := SkipSpaces(s, p); q == |s| || (s[q] != 'u' && s[q] != 'e')
    ensures CloserAt(s, p).None?
  {
    var q := SkipSpaces(s, p);
    if q < |s| {
      NotAt(s, q, "until"); NotAt(s, q, "end");
    }
  }

  lemma IfLineClosers()
    ensures FindAll(BlockEnd, "if x then", 0) == []
  {
    forall p | 0 <= p < 9 ensures MatchAt(BlockEnd, "if x then", p).None? {
      IfLineNoCloserAt(p);
    }
    FindAllSkips(BlockEnd, "if x then", 0, 9);
  }

  lemma IfLineNoCloserAt(p: nat)
    requires p < 9
    ensures CloserAt("if x then", p).None?
  {
    var s := "if x then";
    if p == 0 || p == 3 || p == 5 {
      CloserInitial(s, p);
    } else {
      assert IsWord(s[p - 1]);
    }
  }

  lemma EndLineTokens()
    ensures FindAll(BlockStart, "end", 0) == []
    ensures FindAll(BlockEnd, "end", 0) == [Token(0, 3)]
  {
    var s := "end";
    forall p | 0 <= p < |s| ensures MatchAt(BlockStart, s, p).None? {
      OpenerInitial(s, p);
    }
    FindAllSkips(BlockStart, s, 0, 3);
    assert HasAt(s, 0, "end");
    NotAt(s, 0, "until");
    assert CloserAt(s, 0) == Some(3);
    FindAllResumes(BlockEnd, s, 0);
  }

  lemma NoTokensInWord()
    ensures FindAll(BlockStart, "y", 0) == [] && FindAll(BlockEnd, "y", 0) == []
    ensures FindAll(BlockStart, " ", 0) == [] && FindAll(BlockEnd, " ", 0) == []
  {
    OpenerInitial("y", 0); CloserInitial("y", 0);
    OpenerInitial(" ", 0); CloserInitial(" ", 0);
    FindAllSkips(BlockStart, "y", 0, 1); FindAllSkips(BlockEnd, "y", 0, 1);
    FindAllSkips(BlockStart, " ", 0, 1); FindAllSkips(BlockEnd, " ", 0, 1);
  }

  lemma BackStepOverPlainLine()
    ensures BackStep("y", Block, false, 1) == LineResult(None, false, 1)
  {
    UnmarkedLineIsShownAsIs("y", 0);
    NoTokensInWord();
    BackFoldCounts(Block, "y", [], [], false, 1);
  }

  lemma BackStepOverIfLine()
    ensures BackStep("if x then", Block, false, 1) == LineResult(Some(Token(0, 9)), false, 0)
  {
    UnmarkedLineIsShownAsIs("if x then", 0);
    IfLineOpeners();
    IfLineClosers();
    BackFoldCounts(Block, "if x then", [Token(0, 9)], [], false, 1);
  }

  lemma IfThenUpFromCursor()
    ensures StartScan(["if x then", "y", "end"], 2, 1, Block) == ScanUp(["if x then", "y", "end"], 1, Block, LineResult(None, false, 1))
  {
    var buf := ["if x then", "y", "end"];
    BackStepOverPlainLine();
    assert buf[1] == "y";
    assert LeftOf("y", 1) == "y";
    StartScanFirst(buf, 2, 1, Block, LineResult(None, false, 1));
  }

  lemma IfThenUpToOpener()
    ensures ScanUp(["if x then", "y", "end"], 1, Block, LineResult(None, false, 1))
         == ScanUp(["if x then", "y", "end"], 0, Block, LineResult(Some(Token(0, 9)), false, 0))
  {
    var buf := ["if x then", "y", "end"];
    BackStepOverIfLine();
    ScanUpStep(buf, 1, Block, LineResult(None, false, 1));
  }

  lemma IfThenScanUpHits()
    ensures var s := StartScan(["if x then", "y", "end"], 2, 1, Block); s.Hit? && s.lnum == 0 && s.tok == Token(0, 9)
  {
    IfThenUpFromCursor();
    IfThenUpToOpener();
    ScanUpStop(["if x then", "y", "end"], 0, Block, LineResult(Some(Token(0, 9)), false, 0));
  }

  /**
   * Cursor just after `y` in the buffer `if x then` / `y` / `end`: walking up, the
   * `if ... then` opener on line 1 is the start of the block. Excluding it,
   * the bound is its first column; including it, the opener ends its line,
   * so the bound moves to the start of the next line.
   */
  lemma BlockStartOfIfThen()
    ensures StartBound(["if x then", "y", "end"], 2, 1, false, Block) == Found(1, 1)
  {
    var buf := ["if x then", "y", "end"];
    IfThenScanUpHits();
    StartBoundHit(buf, 2, 1, false, Block, 0, Token(0, 9));
    assert StartPosition(buf, 0, Token(0, 9), false) == Found(1, 1);
  }

  lemma BlockStartOfIfThenIncluded()
    ensures StartBound(["if x then", "y", "end"], 2, 1, true, Block) == Found(2, 1)
  {
    IfThenScanUpHits();
    StartBoundHit(["if x then", "y", "end"], 2, 1, true, Block, 0, Token(0, 9));
  }

  lemma ForwardStepOverCursorLine()
    ensures ForwardStep("y", Block, false, 1, 1) == LineResult(None, false, 1)
  {
    UnmarkedLineIsShownAsIs("y", 1);
    assert AfterCursor("y", 1) == " ";
    NoTokensInWord();
    ForwardFoldCounts(Block, " ", [], [], false, 1);
  }

  lemma ForwardStepOverEndLine()
    ensures ForwardStep("end", Block, false, 0, 1) == LineResult(Some(Token(0, 3)), false, 0)
  {
    UnmarkedLineIsShownAsIs("end", 0);
    EndLineTokens();
    ForwardFoldCounts(Block, "end", [], [Token(0, 3)], false, 1);
  }

  lemma IfThenDownFromCursor()
    ensures EndScan(["if x then", "y", "end"], 2, 1, Block) == ScanDown(["if x then", "y", "end"], 1, Block, LineResult(None, false, 1))
  {
    ForwardStepOverCursorLine();
    EndScanFirst(["if x then", "y", "end"], 2, 1, Block, LineResult(None, false, 1));
  }

  lemma IfThenDownToCloser()
    ensures ScanDown(["if x then", "y", "end"], 1, Block, LineResult(None, false, 1))
         == ScanDown(["if x then", "y", "end"], 2, Block, LineResult(Some(Token(0, 3)), false, 0))
  {
    ForwardStepOverEndLine();
    ScanDownStep(["if x then", "y", "end"], 1, Block, LineResult(None, false, 1));
  }

  lemma IfThenScanDownHits()
    ensures var s := EndScan(["if x then", "y", "end"], 2, 1, Block); s.Hit? && s.lnum == 2 && s.tok == Token(0, 3)
  {
    IfThenDownFromCursor();
    IfThenDownToCloser();
    ScanDownStop(["if x then", "y", "end"], 2, Block, LineResult(Some(Token(0, 3)), false, 0));
  }

  /**
   * The same buffer walked down from the cursor: the `end` on line 3 closes
   * the block. Excluding it, the bound is the column after `end`; including
   * it, `end` starts its line, so the bound is the end of the line above.
   */
  lemma BlockEndOfIfThen()
    ensures EndBound(["if x then", "y", "end"], 2, 1, false, Block) == Found(3, 4)
  {
    IfThenScanDownHits();
    EndBoundHit(["if x then", "y", "end"], 2, 1, false, Block, 2, Token(0, 3));
  }

  lemma BlockEndOfIfThenIncluded()
    ensures EndBound(["if x then", "y", "end"], 2, 1, true, Block) == Found(2, 2)
  {
    IfThenScanDownHits();
    EndBoundHit(["if x then", "y", "end"], 2, 1, true, Block, 2, Token(0, 3));
    CloserStartsItsLine();
  }

  /** A closer at column 0 is bounded by the end of the line above it. */
  lemma CloserStartsItsLine()
    ensures EndPosition(["if x then", "y", "end"], 2, Token(0, 3), true) == Found(2, 2)
  {
    assert PyLine(["if x then", "y", "end"], 1) == "y";
  }

  lemma FunctionKindOverPlainLine()
    ensures BackStep("y", Function, false, 1) == LineResult(None, false, 1)
  {
    UnmarkedLineIsShownAsIs("y", 0);
    NoTokensInWord();
  }

  lemma FunctionKindSkipsIfLine()
    ensures BackStep("if x then", Function, false, 1) == LineResult(None, false, 0)
  {
    var s := "if x then";
    UnmarkedLineIsShownAsIs(s, 0);
    IfLineOpeners();
    IfLineClosers();
    IfOpenerIsNoHeader();
  }

  lemma IfOpenerIsNoHeader()
    ensures BackFold(Function, "if x then", [Token(0, 9)], [], false, 1) == LineResult(None, false, 0)
  {
    assert !AcceptsOpener(Function, "if x then", Token(0, 9));
  }

  /**
   * Kind `Function` with no function header above the cursor: the `if`
   * opener uses up the level without being accepted, the search stops with
   * nothing found, and the bound is `Unmatched`, where the source fails.
   */
  lemma FunctionKindWithoutHeader()
    ensures StartBound(["if x then", "y"], 2, 1, false, Function) == Unmatched
  {
    FunctionScanFindsNothing();
    StartBoundNoMatch(["if x then", "y"], 2, 1, false, Function);
  }

  lemma FunctionScanFindsNothing()
    ensures StartScan(["if x then", "y"], 2, 1, Function).NoMatch?
  {
    var buf := ["if x then", "y"];
    FunctionScanFirstLine();
    FunctionScanSecondLine();
    ScanUpStop(buf, 0, Function, LineResult(None, false, 0));
  }

  lemma FunctionScanFirstLine()
    ensures StartScan(["if x then", "y"], 2, 1, Function) == ScanUp(["if x then", "y"], 1, Function, LineResult(None, false, 1))
  {
    var buf := ["if x then", "y"];
    FunctionKindOverPlainLine();
    assert LeftOf(buf[1], 1) == "y";
    StartScanFirst(buf, 2, 1, Function, LineResult(None, false, 1));
  }

  lemma FunctionScanSecondLine()
    ensures ScanUp(["if x then", "y"], 1, Function, LineResult(None, false, 1))
         == ScanUp(["if x then", "y"], 0, Function, LineResult(None, false, 0))
  {
    var buf := ["if x then", "y"];
    FunctionKindSkipsIfLine();
    assert Demote(Function, 1) == Function;
    ScanUpStep(buf, 1, Function, LineResult(None, false, 1));
  }

  lemma GreedyTail()
    ensures LastTail("if a then if b then x", "then", 4, 17) == Some(15)
  {
    var s := "if a then if b then x";
    assert TailAt(s, 15, "then");
    NotAt(s, 16, "then"); NotAt(s, 17, "then");
  }

  lemma GreedyIfThen()
    ensures GreedyBlockAt("if a then if b then x", 0, "if", "then") == Some(20)
  {
    var s := "if a then if b then x";
    assert HasAt(s, 0, "if");
    GreedyTail();
  }

  lemma GreedyOpener()
    ensures OpenerAt("if a then if b then x", 0) == Some(20)
  {
    var s := "if a then if b then x";
    NotAt(s, 0, "local"); NotAt(s, 0, "function");
    assert FuncHeaderAt(s, 0).None?;
    GreedyIfThen();
  }

  /**
   * Two `if ... then` on one line make a single opener: the greedy `.*`
   * runs to the last `then`, so the inner `if` is never seen on its own.
   */
  lemma GreedyOpenerSwallowsInnerIf()
    ensures FindAll(BlockStart, "if a then if b then x", 0) == [Token(0, 20)]
  {
    var s := "if a then if b then x";
    GreedyOpener();
    FindAllResumes(BlockStart, s, 0);
    OpenerInitial(s, 20);
    FindAllSkips(BlockStart, s, 20, 21);
  }

  /**
   * Keywords glued to a preceding word character are not tokens, while the
   * blanks in front of an `end` belong to its match.
   */
  lemma GluedKeywords()
    ensures OpenerAt("afunction f()", 1).None?
    ensures CloserAt("bend", 1).None?
    ensures CloserAt("b  end", 2) == Some(6)
  {
    var s := "b  end";
    assert SkipSpaces(s, 2) == 3;
    assert HasAt(s, 3, "end");
    NotAt(s, 3, "until");
  }

  lemma NoDashesBeforeString()
    ensures forall p :: 0 <= p < 5 ==> MatchAt(LineComment, "s = '--' end", p).None?
  {
    forall p | 0 <= p < 5 ensures MatchAt(LineComment, "s = '--' end", p).None? {
      NotAt("s = '--' end", p, "--");
    }
  }

  lemma DashesInString()
    ensures MatchAt(LineComment, "s = '--' end", 5) == Some(12)
  {
    var s := "s = '--' end";
    assert s[4] != '\\' && s[5] == '-' && s[6] == '-';
    Spelled(s, 5, "--");
  }

  lemma LineCommentInString()
    ensures FindAll(LineComment, "s = '--' end", 0) == [Token(5, 12)]
  {
    var s := "s = '--' end";
    NoDashesBeforeString();
    FindAllSkips(LineComment, s, 0, 5);
    DashesInString();
    FindAllResumes(LineComment, s, 5);
  }

  lemma QuoteAfterComment()
    ensures Blank(LineComment, "s = '--' end") == "s = '       "
  {
    var s := "s = '--' end";
    LineCommentInString();
    assert Blank(LineComment, s) == Sub(s, [Token(5, 12)], 0);
    assert Sub(s, [Token(5, 12)], 0) == s[0..5] + Spaces(7) + Sub(s, [], 12);
    assert Sub(s, [], 12) == [];
    assert s[0..5] == "s = '";
    assert Spaces(7) == "       ";
  }

  lemma UnclosedQuote()
    ensures Blank(SingleQuote, "s = '       ") == "s = '       "
  {
    var s := "s = '       ";
    assert QuoteEnd(s, '\'', 5).None?;
    forall p | 0 <= p < |s| ensures MatchAt(SingleQuote, s, p).None? {
      if p != 4 {
        assert s[p] != '\'';
      }
    }
    NoMatchKeepsLine(SingleQuote, s);
  }

  /**
   * Line comments are masked before string literals, so a `--` inside a
   * string blanks the rest of the line, the closing quote and the `end`
   * after it included; the opening quote is then left unpaired.
   */
  lemma CommentMaskedBeforeQuote()
    ensures MaskLiterals("s = '--' end") == "s = '       "
  {
    QuoteAfterComment();
    UnclosedQuote();
    NoDoubleQuote();
  }

  lemma NoDoubleQuote()
    ensures Blank(DoubleQuote, "s = '       ") == "s = '       "
  {
    var t := "s = '       ";
    forall p | 0 <= p < |t| ensures MatchAt(DoubleQuote, t, p).None? {
      assert t[p] != '"';
    }
    NoMatchKeepsLine(DoubleQuote, t);
  }
}
