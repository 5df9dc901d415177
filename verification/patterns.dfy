/**
 * The pattern table of lua_text_bound.py (its lines 7-26), written as
 * explicit scanners instead of regular expressions.
 *
 * Every recogniser answers one question: does its pattern match at offset
 * `p` of `s`, and if so where does the match end? `FindAll` then plays the
 * part of `finditer` (left-to-right, non-overlapping matches), `Search` the
 * part of `search` (the leftmost match) and `Sub` the part of `sub` with a
 * replacement that returns as many spaces as the match is long.
 */
module Patterns {
  import opened Chars

  /** A match: the half-open span `[start, end)` of a line. */
  datatype Token = Token(start: nat, end: nat)

  /** The compiled patterns of the source, one constructor each. */
  datatype Pattern =
    | LineComment   // (?<=[^\\])--.*$
    | SingleQuote   // (?<=[^\\])'(?:\\.|[^'\\])*'
    | DoubleQuote   // (?<=[^\\])"(?:\\.|[^"\\])*"
    | CommentOpen   // --\[=*\[
    | CommentClose  // \]=*\]--
    | BlockStart    // (^|(?<=\W))(function header|if ... then|for/while ... do|repeat)
    | BlockEnd      // (^|(?<=\W))(\s*until\s.*$|\s*end(?=($|\W)))
    | CondStart     // (^|(?<=\W))(if|for|while)(\s|$|(?=\W))
    | CondEnd       // (^|(?<=\W))(then|do)(?=\W|$)

  /** `(^|(?<=\W))`: offset `p` is the start of the line or follows a non-word character. */
  predicate Boundary(s: string, p: nat)
    requires p <= |s|
  {
    p == 0 || !IsWord(s[p - 1])
  }

  /** `(?<=[^\\])`: offset `p` follows a character that is not a backslash. */
  predicate NotEscaped(s: string, p: nat)
    requires p <= |s|
  {
    p >= 1 && s[p - 1] != '\\'
  }

  // ---------------------------------------------------------------------
  // Masking patterns
  // ---------------------------------------------------------------------

  /** `(?<=[^\\])--.*$`: a line comment runs to the end of the line. */
  function LineCommentAt(s: string, p: nat): (r: Option<nat>)
    requires p <= |s|
    ensures r.Some? <==> NotEscaped(s, p) && HasAt(s, p, "--")
    ensures r.Some? ==> r.value == |s|
  {
    if NotEscaped(s, p) && HasAt(s, p, "--") then Some(|s|) else None
  }

  /**
   * The body and closing quote of a string literal whose body starts at `i`:
   * `(?:\\.|[^q\\])*q`. A backslash always takes the next character with it.
   */
  function QuoteEnd(s: string, q: char, i: nat): (r: Option<nat>)
    requires i <= |s|
    requires q != '\\'
    ensures r.Some? ==> i < r.value <= |s| && s[r.value - 1] == q
    decreases |s| - i
  {
    if i == |s| then None
    else if s[i] == q then Some(i + 1)
    else if s[i] == '\\' then (if i + 1 < |s| then QuoteEnd(s, q, i + 2) else None)
    else QuoteEnd(s, q, i + 1)
  }

  /** A string literal quoted by `q`, opened at `p` by an unescaped quote. */
  function QuoteAt(s: string, p: nat, q: char): (r: Option<nat>)
    requires p <= |s|
    requires q != '\\'
    ensures r.Some? ==> NotEscaped(s, p) && p < |s| && s[p] == q && p + 1 < r.value <= |s| && s[r.value - 1] == q
  {
    if NotEscaped(s, p) && p < |s| && s[p] == q then QuoteEnd(s, q, p + 1) else None
  }

  /**
   * `s[i..e]` reads as the rest of a literal quoted by `q`, closing quote
   * included: the quote itself, or an ordinary character or an escape pair
   * followed by the rest of the literal.
   */
  predicate ClosedBody(s: string, q: char, i: nat, e: nat)
    decreases e - i
  {
    i < e <= |s| &&
    ((e == i + 1 && s[i] == q)
     || (s[i] != q && s[i] != '\\' && ClosedBody(s, q, i + 1, e))
     || (s[i] == '\\' && i + 2 < e && ClosedBody(s, q, i + 2, e)))
  }

  /**
   * The body scanner stops right after the first closing quote that is not
   * escaped, and finds nothing when the line has no such quote.
   */
  lemma {:induction false} QuoteEndMatches(s: string, q: char, i: nat, e: nat)
    requires i <= |s| && q != '\\'
    ensures QuoteEnd(s, q, i) == Some(e) <==> ClosedBody(s, q, i, e)
    decreases |s| - i
  {
    if i < |s| && s[i] != q {
      if s[i] == '\\' {
        if i + 1 < |s| {
          QuoteEndMatches(s, q, i + 2, e);
        }
      } else {
        QuoteEndMatches(s, q, i + 1, e);
      }
    }
  }

  /** A string literal is an unescaped opening quote followed by the rest of a literal. */
  lemma QuoteAtMatches(s: string, p: nat, q: char, e: nat)
    requires p <= |s| && q != '\\'
    ensures QuoteAt(s, p, q) == Some(e) <==> NotEscaped(s, p) && p < |s| && s[p] == q && ClosedBody(s, q, p + 1, e)
  {
    if NotEscaped(s, p) && p < |s| && s[p] == q {
      QuoteEndMatches(s, q, p + 1, e);
    }
  }

  /** `--\[=*\[`: the opening mark of a block comment, any number of `=`. */
  function CommentOpenAt(s: string, p: nat): (r: Option<nat>)
    requires p <= |s|
    ensures r.Some? ==> HasAt(s, p, "--[") && p + 4 <= r.value <= |s| && s[r.value - 1] == '['
  {
    if HasAt(s, p, "--[") then
      var e := SkipEquals(s, p + 3);
      if e < |s| && s[e] == '[' then Some(e + 1) else None
    else None
  }

  /** `s[p..e]` is `--[`, a run of `=`, and `[`. */
  predicate OpenMark(s: string, p: nat, e: nat)
  {
    p + 4 <= e <= |s| && HasAt(s, p, "--[") && s[e - 1] == '[' && forall i :: p + 3 <= i < e - 1 ==> s[i] == '='
  }

  /** Every opening mark matches, and nothing else does. */
  lemma CommentOpenMatches(s: string, p: nat, e: nat)
    requires p <= |s|
    ensures CommentOpenAt(s, p) == Some(e) <==> OpenMark(s, p, e)
  {
    if OpenMark(s, p, e) {
      assert s[e - 1] != '=';
    }
  }

  /** `\]=*\]--`: the closing mark of a block comment, any number of `=`. */
  function CommentCloseAt(s: string, p: nat): (r: Option<nat>)
    requires p <= |s|
    ensures r.Some? ==> p < |s| && s[p] == ']' && p + 4 <= r.value <= |s| && HasAt(s, r.value - 3, "]--")
  {
    if p < |s| && s[p] == ']' then
      var e := SkipEquals(s, p + 1);
      if HasAt(s, e, "]--") then Some(e + 3) else None
    else None
  }

  /** `s[p..e]` is `]`, a run of `=`, and `]--`. */
  predicate CloseMark(s: string, p: nat, e: nat)
  {
    p + 4 <= e <= |s| && s[p] == ']' && HasAt(s, e - 3, "]--") && forall i :: p + 1 <= i < e - 3 ==> s[i] == '='
  }

  /** Every closing mark matches, and nothing else does. */
  lemma CommentCloseMatches(s: string, p: nat, e: nat)
    requires p <= |s|
    ensures CommentCloseAt(s, p) == Some(e) <==> CloseMark(s, p, e)
  {
    if CloseMark(s, p, e) {
      InitialOf(s, e - 3, "]--");
    }
  }

  // ---------------------------------------------------------------------
  // Block openers
  // ---------------------------------------------------------------------

  /** Offset of the first `)` at or after `p`: the end of `[^)]*\)`. */
  function CloseParen(s: string, p: nat): (r: Option<nat>)
    requires p <= |s|
    ensures r.Some? ==> p <= r.value < |s| && s[r.value] == ')'
    ensures forall i :: p <= i < |s| && (r.Some? ==> i < r.value) ==> s[i] != ')'
    decreases |s| - p
  {
    if p == |s| then None
    else if s[p] == ')' then Some(p)
    else CloseParen(s, p + 1)
  }

  /**
   * `(local\s+)?function(\s+\w+)?\([^)]*\)`. The name, when there is one,
   * is a single run of word characters, so `function a.b()` and
   * `function a:b()` are no headers, and neither is `function ()`, whose
   * blanks are not followed by a name.
   */
  function FuncHeaderAt(s: string, p: nat): (r: Option<nat>)
    requires p <= |s|
    ensures r.Some? ==> p + 10 <= r.value <= |s| && s[r.value - 1] == ')'
  {
    var q := KeywordStart(s, p);
    if !HasAt(s, q, "function") then None
    else
      match NameEnd(s, q + 8)
      case None => None
      case Some(b) =>
        if b < |s| && s[b] == '(' then
          match CloseParen(s, b + 1)
          case Some(c) => Some(c + 1)
          case None => None
        else None
  }

  /** Where `function` must start: after `local\s+` when the line has it there, else at `p`. */
  function KeywordStart(s: string, p: nat): (q: nat)
    requires p <= |s|
    ensures p <= q <= |s|
  {
    if HasAt(s, p, "local") && p + 5 < |s| && IsSpace(s[p + 5]) then SkipSpaces(s, p + 5) else p
  }

  /**
   * Where `(` must be after the keyword ending at `a`: after `\s+\w+` when
   * a blank follows the keyword, else right at `a`; `None` when the blanks
   * are not followed by a name.
   */
  function NameEnd(s: string, a: nat): (b: Option<nat>)
    requires a <= |s|
    ensures b.Some? ==> a <= b.value <= |s|
  {
    if a < |s| && IsSpace(s[a]) then
      var w := SkipSpaces(s, a);
      var e := SkipWord(s, w);
      if w < e then Some(e) else None
    else Some(a)
  }

  /** `(local\s+)?` before the keyword at `q`: nothing, or `local` and at least one blank. */
  predicate LocalPrefix(s: string, p: nat, q: nat)
  {
    q == p || (HasAt(s, p, "local") && p + 5 < q <= |s| && forall i :: p + 5 <= i < q ==> IsSpace(s[i]))
  }

  /** `(\s+\w+)?` from `a` to `b`: nothing, or blanks up to `w` and then a name. */
  predicate NamePart(s: string, a: nat, w: nat, b: nat)
  {
    a <= w <= b <= |s| &&
    (w == b == a || (a < w < b && (forall i :: a <= i < w ==> IsSpace(s[i])) && forall i :: w <= i < b ==> IsWord(s[i])))
  }

  /** `\([^)]*\)` from `b` to `e`: `(`, then everything up to the first `)`. */
  predicate ParenPart(s: string, b: nat, e: nat)
  {
    b < e <= |s| && s[b] == '(' && s[e - 1] == ')' && forall i :: b < i < e - 1 ==> s[i] != ')'
  }

  /**
   * `s[p..e]` is a function header whose keyword `function` starts at `q`
   * and whose parameter list starts at `b`, the name (if any) at `w`.
   */
  predicate HeaderParts(s: string, p: nat, q: nat, w: nat, b: nat, e: nat)
  {
    LocalPrefix(s, p, q) && HasAt(s, q, "function") && NamePart(s, q + 8, w, b) && ParenPart(s, b, e)
  }

  /** The steps the header scanner takes to a header give the parts of the grammar. */
  lemma StepsGiveParts(s: string, p: nat, q: nat, b: nat, c: nat) returns (w: nat)
    requires p <= |s| && q == KeywordStart(s, p) && HasAt(s, q, "function")
    requires NameEnd(s, q + 8) == Some(b) && b < |s| && s[b] == '(' && CloseParen(s, b + 1) == Some(c)
    ensures HeaderParts(s, p, q, w, b, c + 1)
  {
    KeywordStartIsAfterLocal(s, p);
    w := NameEndHasName(s, q + 8);
  }

  /** The steps the header scanner took to find a header. */
  lemma HeaderSteps(s: string, p: nat)
    requires p <= |s| && FuncHeaderAt(s, p).Some?
    ensures var q := KeywordStart(s, p);
            HasAt(s, q, "function") && q + 8 <= |s| && NameEnd(s, q + 8).Some? &&
            var b := NameEnd(s, q + 8).value;
            b < |s| && s[b] == '(' && CloseParen(s, b + 1).Some? && FuncHeaderAt(s, p).value == CloseParen(s, b + 1).value + 1
  {
  }

  /** The keyword is looked for at `p`, or after `local` and at least one blank. */
  lemma KeywordStartIsAfterLocal(s: string, p: nat)
    requires p <= |s|
    ensures LocalPrefix(s, p, KeywordStart(s, p))
  {
  }

  /** When the scanner finds where `(` must be, the text before it is blanks and a name, or nothing. */
  lemma NameEndHasName(s: string, a: nat) returns (w: nat)
    requires a <= |s| && NameEnd(s, a).Some?
    ensures NamePart(s, a, w, NameEnd(s, a).value)
  {
    w := if a < |s| && IsSpace(s[a]) then SkipSpaces(s, a) else a;
  }

  /** The keyword `function` of a header is found where the grammar puts it, after `local` and blanks if any. */
  lemma HeaderKeywordAt(s: string, p: nat, q: nat)
    requires p <= q && LocalPrefix(s, p, q) && HasAt(s, q, "function")
    ensures KeywordStart(s, p) == q
  {
    InitialOf(s, q, "function");
    if q == p {
      assert !HasAt(s, p, "local") by {
        if p + 5 <= |s| {
          assert s[p..p + 5][0] == s[p];
        }
      }
    } else {
      assert IsSpace(s[p + 5]);
      assert !IsSpace(s[q]);
    }
  }

  /** The optional name after `function` ends where the grammar says, at the `(`. */
  lemma HeaderNameEnds(s: string, a: nat, w: nat, b: nat)
    requires NamePart(s, a, w, b) && b < |s| && s[b] == '('
    ensures NameEnd(s, a) == Some(b)
  {
    if w == a {
      assert !IsSpace(s[a]);
    } else {
      assert IsSpace(s[a]);
      SpaceIsNotWord(s[w]);
      assert SkipSpaces(s, a) == w;
      assert !IsWord(s[b]);
    }
  }

  /** The parameter list ends at the first `)`. */
  lemma FirstCloseParen(s: string, b: nat, e: nat)
    requires ParenPart(s, b, e)
    ensures CloseParen(s, b + 1) == Some(e - 1)
  {
    assert s[e - 1] == ')';
  }

  /** Text with the parts of the grammar is a header, and the scanner finds it with the same end. */
  lemma PartsMakeHeader(s: string, p: nat, q: nat, w: nat, b: nat, e: nat)
    requires HeaderParts(s, p, q, w, b, e)
    ensures FuncHeaderAt(s, p) == Some(e)
  {
    if q != p {
      assert p <= q;
    }
    HeaderKeywordAt(s, p, q);
    HeaderNameEnds(s, q + 8, w, b);
    FirstCloseParen(s, b, e);
    HeaderAssembled(s, p, q, b, e);
  }

  /** The steps of the header scanner put together. */
  lemma HeaderAssembled(s: string, p: nat, q: nat, b: nat, e: nat)
    requires p <= q && q + 8 <= b < e <= |s|
    requires KeywordStart(s, p) == q && HasAt(s, q, "function") && NameEnd(s, q + 8) == Some(b)
    requires s[b] == '(' && CloseParen(s, b + 1) == Some(e - 1)
    ensures FuncHeaderAt(s, p) == Some(e)
  {
  }

  /** `FuncHeaderAt` finds exactly the headers of the grammar, with their ends. */
  lemma FuncHeaderMatches(s: string, p: nat, e: nat)
    requires p <= |s|
    ensures FuncHeaderAt(s, p) == Some(e) <==> exists q, w, b :: HeaderParts(s, p, q, w, b, e)
  {
    if FuncHeaderAt(s, p) == Some(e) {
      HeaderSteps(s, p);
      var q := KeywordStart(s, p);
      var b := NameEnd(s, q + 8).value;
      var w := StepsGiveParts(s, p, q, b, CloseParen(s, b + 1).value);
    }
    if exists q, w, b :: HeaderParts(s, p, q, w, b, e) {
      var q, w, b :| HeaderParts(s, p, q, w, b, e);
      PartsMakeHeader(s, p, q, w, b, e);
    }
  }

  /**
   * Offset `t` can end the greedy part of `.*\W+kw(\s|$)`: a non-word
   * character right before `kw`, and `kw` followed by whitespace or the end
   * of the line.
   */
  predicate TailAt(s: string, t: nat, kw: string)
  {
    1 <= t && HasAt(s, t, kw) && !IsWord(s[t - 1]) && (t + |kw| == |s| || IsSpace(s[t + |kw|]))
  }

  /** The largest `t` in `[lo, hi]` with `TailAt(s, t, kw)`. */
  function LastTail(s: string, kw: string, lo: nat, hi: int): (r: Option<nat>)
    ensures r.Some? ==> lo <= r.value <= hi && TailAt(s, r.value, kw)
    ensures forall u :: lo <= u <= hi && (r.Some? ==> r.value < u) ==> !TailAt(s, u, kw)
    decreases hi + 1 - lo
  {
    if hi < lo then None
    else if TailAt(s, hi, kw) then Some(hi)
    else LastTail(s, kw, lo, hi - 1)
  }

  /**
   * `head\W+.*\W+tail(\s|$)` (for `if ... then`, `for ... do`,
   * `while ... do`). Because `.*` is greedy the match runs to the LAST
   * admissible `tail` on the line, so two `if ... then` on one line make a
   * single match.
   */
  function GreedyBlockAt(s: string, p: nat, head: string, tail: string): (r: Option<nat>)
    requires p <= |s|
    requires head != [] && tail != []
    ensures r.Some? ==> HasAt(s, p, head) && p < r.value <= |s|
    ensures r.Some? ==> IsSpace(s[r.value - 1]) || s[r.value - 1] == tail[|tail| - 1]
  {
    if !(HasAt(s, p, head) && p + |head| < |s| && !IsWord(s[p + |head|])) then None
    else
      match LastTail(s, tail, p + |head| + 2, |s| - |tail|)
      case None => None
      case Some(t) =>
        assert s[t..t + |tail|] == tail && s[t + |tail| - 1] == s[t..t + |tail|][|tail| - 1];
        Some(if t + |tail| < |s| then t + |tail| + 1 else t + |tail|)
  }

  /**
   * The opener matches exactly when the head keyword is followed by a
   * non-word character and a tail keyword occurs at least two characters
   * further on; the match then ends at the last such tail.
   */
  lemma GreedyBlockMatches(s: string, p: nat, head: string, tail: string)
    requires p <= |s| && head != [] && tail != []
    ensures var r := GreedyBlockAt(s, p, head, tail);
            r.Some? <==> HasAt(s, p, head) && p + |head| < |s| && !IsWord(s[p + |head|])
                         && exists t :: p + |head| + 2 <= t <= |s| && TailAt(s, t, tail)
  {
    var r := GreedyBlockAt(s, p, head, tail);
    if HasAt(s, p, head) && p + |head| < |s| && !IsWord(s[p + |head|]) {
      var lt := LastTail(s, tail, p + |head| + 2, |s| - |tail|);
      if lt.Some? {
        assert TailAt(s, lt.value, tail);
      } else {
        forall t | p + |head| + 2 <= t <= |s| ensures !TailAt(s, t, tail) {
          if t <= |s| - |tail| {
            assert !TailAt(s, t, tail);
          }
        }
      }
    }
  }

  /**
   * When it matches, the opener runs through the last admissible tail on
   * the line, together with the blank that follows it, if any.
   */
  lemma GreedyBlockEndsAtLastTail(s: string, p: nat, head: string, tail: string, t: nat)
    requires p <= |s| && head != [] && tail != []
    requires GreedyBlockAt(s, p, head, tail).Some?
    requires p + |head| + 2 <= t && TailAt(s, t, tail)
    requires forall u :: t < u <= |s| ==> !TailAt(s, u, tail)
    ensures GreedyBlockAt(s, p, head, tail).value == if t + |tail| < |s| then t + |tail| + 1 else t + |tail|
  {
    var last := LastTail(s, tail, p + |head| + 2, |s| - |tail|);
    assert last.Some? && last.value == t;
  }

  /** `repeat(\s|$)` */
  function RepeatAt(s: string, p: nat): (r: Option<nat>)
    requires p <= |s|
    ensures r.Some? ==> HasAt(s, p, "repeat") && p < r.value <= |s|
    ensures r.Some? ==> IsSpace(s[r.value - 1]) || s[r.value - 1] == 't'
  {
    if !HasAt(s, p, "repeat") then None
    else if p + 6 == |s| then
      assert s[p + 5] == s[p..p + 6][5];
      Some(p + 6)
    else if IsSpace(s[p + 6]) then Some(p + 7)
    else None
  }

  /** `repeat` matches exactly when a blank, which it takes in, or the end of the line follows it. */
  lemma RepeatMatches(s: string, p: nat, e: nat)
    requires p <= |s|
    ensures RepeatAt(s, p) == Some(e) <==>
            HasAt(s, p, "repeat") && ((e == p + 6 == |s|) || (e == p + 7 <= |s| && IsSpace(s[p + 6])))
  {
  }

  /** The alternatives of `block_start`, tried in the source's order: the function header first. */
  function OpenerAt(s: string, p: nat): (r: Option<nat>)
    requires p <= |s|
    ensures r.Some? ==> Boundary(s, p) && p < r.value <= |s|
  {
    if !Boundary(s, p) then None
    else if FuncHeaderAt(s, p).Some? then FuncHeaderAt(s, p)
    else KeywordOpenerAt(s, p)
  }

  /**
   * The alternatives after the function header: `if ... then`,
   * `for ... do`, `while ... do` and `repeat`, in that order. Each ends in
   * a blank or in the last letter of its keyword, never in `)`.
   */
  function KeywordOpenerAt(s: string, p: nat): (r: Option<nat>)
    requires p <= |s|
    ensures r.Some? ==> p < r.value <= |s| && s[r.value - 1] != ')'
  {
    var i := GreedyBlockAt(s, p, "if", "then");
    if i.Some? then i
    else
      var d := GreedyBlockAt(s, p, "for", "do");
      if d.Some? then d
      else
        var w := GreedyBlockAt(s, p, "while", "do");
        if w.Some? then w else RepeatAt(s, p)
  }


  /**
   * The alternatives of `block_start` in the source's order: at a boundary
   * the first of header, `if`, `for`, `while` and `repeat` that matches is
   * the opener, and there is none when no alternative matches.
   */
  lemma OpenerAlternatives(s: string, p: nat)
    requires p <= |s|
    ensures !Boundary(s, p) ==> OpenerAt(s, p).None?
    ensures Boundary(s, p) && FuncHeaderAt(s, p).Some? ==> OpenerAt(s, p) == FuncHeaderAt(s, p)
    ensures Boundary(s, p) && FuncHeaderAt(s, p).None? && GreedyBlockAt(s, p, "if", "then").Some?
            ==> OpenerAt(s, p) == GreedyBlockAt(s, p, "if", "then")
    ensures Boundary(s, p) && FuncHeaderAt(s, p).None? && GreedyBlockAt(s, p, "if", "then").None?
            && GreedyBlockAt(s, p, "for", "do").Some?
            ==> OpenerAt(s, p) == GreedyBlockAt(s, p, "for", "do")
    ensures Boundary(s, p) && FuncHeaderAt(s, p).None? && GreedyBlockAt(s, p, "if", "then").None?
            && GreedyBlockAt(s, p, "for", "do").None? && GreedyBlockAt(s, p, "while", "do").Some?
            ==> OpenerAt(s, p) == GreedyBlockAt(s, p, "while", "do")
    ensures Boundary(s, p) && FuncHeaderAt(s, p).None? && GreedyBlockAt(s, p, "if", "then").None?
            && GreedyBlockAt(s, p, "for", "do").None? && GreedyBlockAt(s, p, "while", "do").None?
            ==> OpenerAt(s, p) == RepeatAt(s, p)
  {
  }

  // ---------------------------------------------------------------------
  // Block closers and condition keywords
  // ---------------------------------------------------------------------

  /** The `\s*until\s.*$` alternative of `block_end` starts at `p`. */
  predicate UntilAt(s: string, p: nat)
    requires p <= |s|
  {
    var q := SkipSpaces(s, p);
    HasAt(s, q, "until") && q + 5 < |s| && IsSpace(s[q + 5])
  }

  /**
   * `block_end`: `\s*until\s.*$`, which runs to the end of the line, or
   * `\s*end(?=($|\W))`. Both may start on blanks before the keyword.
   */
  function CloserAt(s: string, p: nat): (r: Option<nat>)
    requires p <= |s|
    ensures r.Some? ==> Boundary(s, p) && p < r.value <= |s|
    ensures r.Some? && UntilAt(s, p) ==> r.value == |s|
  {
    if !Boundary(s, p) then None
    else
      var q := SkipSpaces(s, p);
      if HasAt(s, q, "until") && q + 5 < |s| && IsSpace(s[q + 5]) then Some(|s|)
      else if HasAt(s, q, "end") && (q + 3 == |s| || !IsWord(s[q + 3])) then Some(q + 3)
      else None
  }

  /** `s[p..e]` is blanks, then `end` not followed by a word character: `\s*end(?=($|\W))`. */
  predicate EndSpan(s: string, p: nat, e: nat)
  {
    p + 3 <= e <= |s| && (forall i :: p <= i < e - 3 ==> IsSpace(s[i])) && HasAt(s, e - 3, "end")
    && (e == |s| || !IsWord(s[e]))
  }

  /**
   * At a boundary, an `until` (after blanks, and followed by a blank)
   * matches through the end of the line; otherwise blanks and a free-standing
   * `end` match, through the `end`; nothing else matches.
   */
  lemma CloserMatches(s: string, p: nat, e: nat)
    requires p <= |s|
    ensures CloserAt(s, p) == Some(e) <==> Boundary(s, p) && if UntilAt(s, p) then e == |s| else EndSpan(s, p, e)
  {
    if EndSpan(s, p, e) {
      InitialOf(s, e - 3, "end");
      assert !IsSpace(s[e - 3]);
      assert SkipSpaces(s, p) == e - 3;
    }
  }

  /** `cond_start`: a bare `if`, `for` or `while`; a following blank is part of the match. */
  function CondStartAt(s: string, p: nat): (r: Option<nat>)
    requires p <= |s|
    ensures r.Some? ==> Boundary(s, p) && p + 2 <= r.value <= |s|
    ensures r.Some? ==> HasAt(s, p, "if") || HasAt(s, p, "for") || HasAt(s, p, "while")
  {
    if !Boundary(s, p) then None
    else
      var e := if HasAt(s, p, "if") then p + 2
               else if HasAt(s, p, "for") then p + 3
               else if HasAt(s, p, "while") then p + 5
               else p;
      if e == p then None
      else if e < |s| && IsSpace(s[e]) then Some(e + 1)
      else if e == |s| || !IsWord(s[e]) then Some(e)
      else None
  }

  /** Two words with different initials never occur at the same offset. */
  lemma DistinctInitials(s: string, p: nat, v: string, w: string)
    requires v != [] && w != [] && v[0] != w[0]
    ensures !HasAt(s, p, v) || !HasAt(s, p, w)
  {
    if p + |v| <= |s| && p + |w| <= |s| {
      assert s[p..p + |v|][0] == s[p] == s[p..p + |w|][0];
    }
  }

  /**
   * `kw` at `p`, then `(\s|$|(?=\W))`: a blank, which the match takes in,
   * or the end of the line or another non-word character, which it does
   * not; the match ends at `e`.
   */
  predicate KeywordBreak(s: string, p: nat, kw: string, e: nat)
  {
    HasAt(s, p, kw) &&
    var k := p + |kw|;
    if k < |s| && IsSpace(s[k]) then e == k + 1 else e == k && (k == |s| || !IsWord(s[k]))
  }

  /** A condition start is exactly `if`, `for` or `while` at a boundary, ending as `KeywordBreak` says. */
  lemma CondStartMatches(s: string, p: nat, e: nat)
    requires p <= |s|
    ensures CondStartAt(s, p) == Some(e) <==>
            Boundary(s, p) && (KeywordBreak(s, p, "if", e) || KeywordBreak(s, p, "for", e) || KeywordBreak(s, p, "while", e))
  {
    DistinctInitials(s, p, "if", "for");
    DistinctInitials(s, p, "if", "while");
    DistinctInitials(s, p, "for", "while");
  }

  /** `cond_end`: a bare `then` or `do`. */
  function CondEndAt(s: string, p: nat): (r: Option<nat>)
    requires p <= |s|
    ensures r.Some? ==> Boundary(s, p) && (HasAt(s, p, "then") || HasAt(s, p, "do"))
    ensures r.Some? ==> p + 2 <= r.value <= |s| && (r.value == |s| || !IsWord(s[r.value]))
  {
    if !Boundary(s, p) then None
    else
      var e := if HasAt(s, p, "then") then p + 4 else if HasAt(s, p, "do") then p + 2 else p;
      if e != p && (e == |s| || !IsWord(s[e])) then Some(e) else None
  }

  /** `kw` at `p`, ending at `e`, and not followed by a word character. */
  predicate KeywordAlone(s: string, p: nat, kw: string, e: nat)
  {
    HasAt(s, p, kw) && e == p + |kw| && (e == |s| || !IsWord(s[e]))
  }

  /** A condition end is exactly a free-standing `then` or `do` at a boundary, and the match is the keyword. */
  lemma CondEndMatches(s: string, p: nat, e: nat)
    requires p <= |s|
    ensures CondEndAt(s, p) == Some(e) <==> Boundary(s, p) && (KeywordAlone(s, p, "then", e) || KeywordAlone(s, p, "do", e))
  {
    DistinctInitials(s, p, "then", "do");
  }

  /** Where the match of `pat` that starts at `p` ends, if there is one. */
  function MatchAt(pat: Pattern, s: string, p: nat): (r: Option<nat>)
    requires p <= |s|
    ensures r.Some? ==> p < r.value <= |s|
  {
    match pat
    case LineComment => LineCommentAt(s, p)
    case SingleQuote => QuoteAt(s, p, '\'')
    case DoubleQuote => QuoteAt(s, p, '"')
    case CommentOpen => CommentOpenAt(s, p)
    case CommentClose => CommentCloseAt(s, p)
    case BlockStart => OpenerAt(s, p)
    case BlockEnd => CloserAt(s, p)
    case CondStart => CondStartAt(s, p)
    case CondEnd => CondEndAt(s, p)
  }

  /**
   * An opener's text ends in `)` exactly when it is a function header: the
   * other alternatives end in a blank or in the last letter of their keyword.
   */
  lemma OpenerEndsInParen(s: string, p: nat)
    requires p <= |s| && OpenerAt(s, p).Some?
    ensures var e := OpenerAt(s, p).value; s[e - 1] == ')' <==> FuncHeaderAt(s, p).Some?
    ensures FuncHeaderAt(s, p).Some? ==> FuncHeaderAt(s, p).value == OpenerAt(s, p).value
  {
  }

  /** A closer is an `until` exactly when its stripped text starts with `u`. */
  lemma CloserIsUntil(s: string, p: nat)
    requires p <= |s| && CloserAt(s, p).Some?
    ensures var e := CloserAt(s, p).value; var w := LStrip(s[p..e]);
            w != [] && (w[0] == 'u' <==> UntilAt(s, p))
  {
    if UntilAt(s, p) {
      StrippedCloser(s, p, "until");
    } else {
      StrippedCloser(s, p, "end");
    }
  }

  /** The stripped text of a closer starts with the initial of its keyword `kw`. */
  lemma StrippedCloser(s: string, p: nat, kw: string)
    requires p <= |s| && CloserAt(s, p).Some?
    requires kw == if UntilAt(s, p) then "until" else "end"
    ensures var w := LStrip(s[p..CloserAt(s, p).value]); w != [] && w[0] == kw[0]
  {
    var e, q := CloserAt(s, p).value, SkipSpaces(s, p);
    assert HasAt(s, q, kw);
    InitialOf(s, q, kw);
    var x := s[p..e];
    forall i | 0 <= i < q - p ensures IsSpace(x[i]) {
      assert x[i] == s[p + i];
    }
    assert x[q - p] == s[q];
    LStripStartsAt(x, q - p);
  }

  /** A word found at `q` begins with the character at `q`. */
  lemma InitialOf(s: string, q: nat, w: string)
    requires HasAt(s, q, w) && w != []
    ensures q < |s| && s[q] == w[0]
  {
    assert s[q..q + |w|][0] == s[q];
  }

  // ---------------------------------------------------------------------
  // finditer, search, sub
  // ---------------------------------------------------------------------

  /** Non-empty spans, left to right, that do not overlap, inside `[lo, hi]`. */
  predicate Ordered(ts: seq<Token>, lo: nat, hi: nat)
    decreases |ts|
  {
    ts == [] || (lo <= ts[0].start < ts[0].end <= hi && Ordered(ts[1..], ts[0].end, hi))
  }

  /** The end of the match of `pat` that starts at each offset of `s`, if there is one. */
  function MatchTable(pat: Pattern, s: string): (tbl: seq<Option<nat>>)
    ensures |tbl| == |s| && Spans(tbl)
  {
    seq(|s|, p => if 0 <= p < |s| then MatchAt(pat, s, p) else None)
  }

  /** Every entry of a match table is a non-empty span that ends inside the line. */
  predicate Spans(tbl: seq<Option<nat>>)
  {
    forall p :: 0 <= p < |tbl| && tbl[p].Some? ==> p < tbl[p].value <= |tbl|
  }

  /** Left-to-right scan of a match table that resumes at the end of each match. */
  function Scan(tbl: seq<Option<nat>>, from: nat): (r: seq<Token>)
    requires Spans(tbl) && from <= |tbl|
    ensures Ordered(r, from, |tbl|)
    ensures forall k :: 0 <= k < |r| ==> from <= r[k].start < r[k].end <= |tbl| && tbl[r[k].start] == Some(r[k].end)
    ensures r == [] <==> forall p :: from <= p < |tbl| ==> tbl[p].None?
    decreases |tbl| - from
  {
    if from == |tbl| then []
    else
      match tbl[from]
      case Some(e) => [Token(from, e)] + Scan(tbl, e)
      case None => Scan(tbl, from + 1)
  }

  /** The first entry of a match table at or after `from`. */
  function First(tbl: seq<Option<nat>>, from: nat): (r: Option<Token>)
    requires Spans(tbl) && from <= |tbl|
    ensures r.Some? ==> from <= r.value.start < r.value.end <= |tbl| && tbl[r.value.start] == Some(r.value.end)
    ensures forall p :: from <= p < |tbl| && (r.Some? ==> p < r.value.start) ==> tbl[p].None?
    decreases |tbl| - from
  {
    if from == |tbl| then None
    else
      match tbl[from]
      case Some(e) => Some(Token(from, e))
      case None => First(tbl, from + 1)
  }

  /** `finditer` from offset `from`: after a match the scan resumes where it ended. */
  function FindAll(pat: Pattern, s: string, from: nat): (r: seq<Token>)
    requires from <= |s|
    ensures Ordered(r, from, |s|)
    ensures forall k :: 0 <= k < |r| ==> from <= r[k].start < r[k].end <= |s|
  {
    Scan(MatchTable(pat, s), from)
  }

  /** Every span `finditer` yields is a match, and it yields none exactly when no match starts at or after `from`. */
  lemma FindAllYieldsMatches(pat: Pattern, s: string, from: nat)
    requires from <= |s|
    ensures var r := FindAll(pat, s, from);
            (forall k :: 0 <= k < |r| ==> MatchAt(pat, s, r[k].start) == Some(r[k].end)) &&
            (r == [] <==> forall p :: from <= p < |s| ==> MatchAt(pat, s, p).None?)
  {
    var tbl := MatchTable(pat, s);
    assert forall p :: 0 <= p < |s| ==> tbl[p] == MatchAt(pat, s, p);
  }

  /** `finditer` passes over offsets where no match starts. */
  lemma FindAllSkips(pat: Pattern, s: string, from: nat, to: nat)
    requires from <= to <= |s|
    requires forall p :: from <= p < to ==> MatchAt(pat, s, p).None?
    ensures FindAll(pat, s, from) == FindAll(pat, s, to)
  {
    var tbl := MatchTable(pat, s);
    forall p | from <= p < to
      ensures tbl[p].None?
    {
      assert tbl[p] == MatchAt(pat, s, p);
    }
    ScanSkips(tbl, from, to);
  }

  /** The scan passes over entries of the table that hold no match. */
  lemma {:induction false} ScanSkips(tbl: seq<Option<nat>>, from: nat, to: nat)
    requires Spans(tbl) && from <= to <= |tbl|
    requires forall p :: from <= p < to ==> tbl[p].None?
    ensures Scan(tbl, from) == Scan(tbl, to)
    decreases |tbl| - from
  {
    if from < to {
      assert tbl[from].None?;
      assert Scan(tbl, from) == Scan(tbl, from + 1);
      ScanSkips(tbl, from + 1, to);
    }
  }

  /** After a match, `finditer` resumes where the match ended. */
  lemma FindAllResumes(pat: Pattern, s: string, from: nat)
    requires from < |s| && MatchAt(pat, s, from).Some?
    ensures var e := MatchAt(pat, s, from).value; FindAll(pat, s, from) == [Token(from, e)] + FindAll(pat, s, e)
  {
    assert MatchTable(pat, s)[from] == MatchAt(pat, s, from);
  }

  /** `search` from offset `from`: the leftmost match. */
  function Search(pat: Pattern, s: string, from: nat): (r: Option<Token>)
    requires from <= |s|
    ensures r.Some? ==> from <= r.value.start < r.value.end <= |s|
  {
    First(MatchTable(pat, s), from)
  }

  /** What `search` finds is a match, and no match starts between `from` and it. */
  lemma SearchYieldsLeftmost(pat: Pattern, s: string, from: nat)
    requires from <= |s|
    ensures var r := Search(pat, s, from);
            (r.Some? ==> MatchAt(pat, s, r.value.start) == Some(r.value.end)) &&
            (forall p :: from <= p < |s| && (r.Some? ==> p < r.value.start) ==> MatchAt(pat, s, p).None?)
  {
    var tbl := MatchTable(pat, s);
    assert forall p :: 0 <= p < |s| ==> tbl[p] == MatchAt(pat, s, p);
  }

  /** `search` returns the match at `p` when no match starts between `from` and `p`. */
  lemma SearchFindsFirst(pat: Pattern, s: string, from: nat, p: nat)
    requires from <= p < |s| && MatchAt(pat, s, p).Some?
    requires forall q :: from <= q < p ==> MatchAt(pat, s, q).None?
    ensures Search(pat, s, from) == Some(Token(p, MatchAt(pat, s, p).value))
  {
    SearchYieldsLeftmost(pat, s, from);
  }

  /** The leftmost match is the first match `finditer` yields. */
  lemma SearchIsFirstMatch(pat: Pattern, s: string, from: nat)
    requires from <= |s|
    ensures var all := FindAll(pat, s, from);
            Search(pat, s, from) == if all == [] then None else Some(all[0])
  {
    FirstIsHeadOfScan(MatchTable(pat, s), from);
  }

  lemma {:induction false} FirstIsHeadOfScan(tbl: seq<Option<nat>>, from: nat)
    requires Spans(tbl) && from <= |tbl|
    ensures var all := Scan(tbl, from); First(tbl, from) == if all == [] then None else Some(all[0])
    decreases |tbl| - from
  {
    if from < |tbl| && tbl[from].None? {
      FirstIsHeadOfScan(tbl, from + 1);
    }
  }

  /** After the last match of a scan, no further entry of the table is a match. */
  lemma ScanLastIsRightmost(tbl: seq<Option<nat>>, from: nat)
    requires Spans(tbl) && from <= |tbl| && Scan(tbl, from) != []
    ensures var all := Scan(tbl, from); forall p :: all[|all| - 1].end <= p < |tbl| ==> tbl[p].None?
  {
    ScanEndsAtLast(tbl, from);
  }

  /** A scan resumed after its last match finds nothing more. */
  lemma {:induction false} ScanEndsAtLast(tbl: seq<Option<nat>>, from: nat)
    requires Spans(tbl) && from <= |tbl| && Scan(tbl, from) != []
    ensures var all := Scan(tbl, from); all[|all| - 1].end <= |tbl| && Scan(tbl, all[|all| - 1].end) == []
    decreases |tbl| - from
  {
    if tbl[from].None? {
      ScanEndsAtLast(tbl, from + 1);
    } else if Scan(tbl, tbl[from].value) != [] {
      ScanEndsAtLast(tbl, tbl[from].value);
    }
  }

  /** Offset `i` lies inside one of the spans. */
  predicate Covers(ts: seq<Token>, i: int)
  {
    exists k :: 0 <= k < |ts| && ts[k].start <= i < ts[k].end
  }

  /**
   * `pattern.sub(sub_matched_with_space, s)` restricted to `s[from..]`: the
   * text between matches is copied and every match is replaced by as many
   * spaces as it is long.
   */
  function Sub(s: string, ts: seq<Token>, from: nat): (r: string)
    requires from <= |s| && Ordered(ts, from, |s|)
    ensures |r| == |s| - from
    decreases |ts|
  {
    if ts == [] then s[from..]
    else s[from..ts[0].start] + Spaces(ts[0].end - ts[0].start) + Sub(s, ts[1..], ts[0].end)
  }

  /** Substitution blanks exactly the characters inside a match and keeps every other one in its column. */
  lemma {:induction false} SubAt(s: string, ts: seq<Token>, from: nat, i: nat)
    requires from <= |s| && Ordered(ts, from, |s|)
    requires from <= i < |s|
    ensures Sub(s, ts, from)[i - from] == if Covers(ts, i) then ' ' else s[i]
    decreases |ts|
  {
    if ts != [] {
      var t := ts[0];
      var head := s[from..t.start] + Spaces(t.end - t.start);
      assert Sub(s, ts, from) == head + Sub(s, ts[1..], t.end);
      if i < t.start {
        NotCoveredBefore(ts, from, |s|, i);
      } else if i < t.end {
        assert ts[0].start <= i < ts[0].end;
      } else {
        SubAt(s, ts[1..], t.end, i);
        CoversPastHead(ts, i);
      }
    }
  }

  /** An offset before the first span of an ordered list lies in no span. */
  lemma NotCoveredBefore(ts: seq<Token>, lo: nat, hi: nat, i: nat)
    requires ts != [] && Ordered(ts, lo, hi) && i < ts[0].start
    ensures !Covers(ts, i)
  {
    OrderedAfter(ts[1..], ts[0].end, hi, i);
    forall k | 0 <= k < |ts| ensures !(ts[k].start <= i < ts[k].end) {
      if k > 0 { assert ts[k] == ts[1..][k - 1]; }
    }
  }

  /** Past the end of the first span, coverage is decided by the remaining spans. */
  lemma CoversPastHead(ts: seq<Token>, i: nat)
    requires ts != [] && ts[0].end <= i
    ensures Covers(ts, i) <==> Covers(ts[1..], i)
  {
    if Covers(ts[1..], i) {
      var k :| 0 <= k < |ts[1..]| && ts[1..][k].start <= i < ts[1..][k].end;
      assert ts[k + 1] == ts[1..][k];
    }
    if Covers(ts, i) {
      var k :| 0 <= k < |ts| && ts[k].start <= i < ts[k].end;
      assert k != 0;
      assert ts[1..][k - 1] == ts[k];
    }
  }

  /** Every span of an ordered list starts at or after its lower bound. */
  lemma {:induction false} OrderedAfter(ts: seq<Token>, lo: nat, hi: nat, i: int)
    requires Ordered(ts, lo, hi)
    requires i < lo
    ensures forall k :: 0 <= k < |ts| ==> i < ts[k].start
    decreases |ts|
  {
    if ts != [] {
      OrderedAfter(ts[1..], ts[0].end, hi, i);
      forall k | 0 < k < |ts| ensures i < ts[k].start {
        assert ts[k] == ts[1..][k - 1];
      }
    }
  }

  /** `s` with every match of `pat` blanked out, as the masking steps of the source do. */
  function Blank(pat: Pattern, s: string): (r: string)
    ensures |r| == |s|
  {
    Sub(s, FindAll(pat, s, 0), 0)
  }

  /** Blanking keeps the line's length and every unmatched character in its column, and only ever writes spaces. */
  lemma BlankAt(pat: Pattern, s: string, i: nat)
    requires i < |s|
    ensures Blank(pat, s)[i] == if Covers(FindAll(pat, s, 0), i) then ' ' else s[i]
  {
    SubAt(s, FindAll(pat, s, 0), 0, i);
  }
}
