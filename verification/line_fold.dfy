/**
 * One line of the boundary search: find_start_bound_per_line and
 * find_end_bound_per_line of lua_text_bound.py.
 *
 * Each masks the line, then either looks for a condition keyword (kind
 * `Condition`) or walks the line's openers and closers pairwise, as
 * `izip_longest` does: pairs that hold both an opener and a closer cancel,
 * and only the surplus tokens move the nesting level. The walk is written as
 * the source's loop; the functions `BackFold` and `ForwardFold` say in
 * closed form, from the two counts alone, what that loop computes.
 */
module LineFold {
  import opened Chars
  import opened Patterns
  import opened Masker

  /** The `obj_type` argument: `'function'`, `'block'` or `'condition'`. */
  datatype Kind = Function | Block | Condition

  /** The triple `(match, in_block_comment, level)` a per-line step returns. */
  datatype LineResult = LineResult(found: Option<Token>, inComment: bool, level: int)

  /**
   * The surplus step at which the level first reaches zero or less: the
   * level itself, or the very first step when the level is already <= 0.
   */
  function Reach(level: int): (r: nat)
    ensures r >= 1 && r >= level
    ensures level >= 1 ==> r == level
  {
    if level < 1 then 1 else level
  }

  /**
   * Backward, an opener that brings the level to zero ends the search,
   * except that for kind `Function` its text must end with `)`.
   */
  predicate AcceptsOpener(kind: Kind, text: string, t: Token)
  {
    kind != Function || (0 < t.end <= |text| && text[t.end - 1] == ')')
  }

  /** The closer's text, stripped of leading blanks, starts with `u`: it is an `until`. */
  predicate IsUntilText(text: string, t: Token)
  {
    t.start <= t.end <= |text| && var w := LStrip(text[t.start..t.end]); w != [] && w[0] == 'u'
  }

  /** Forward, a closer that brings the level to zero ends the search, except an `until` for kind `Function`. */
  predicate AcceptsCloser(kind: Kind, text: string, t: Token)
  {
    !(kind == Function && IsUntilText(text, t))
  }

  /** The largest index `j <= hi` whose opener is accepted. */
  function LastAccepted(kind: Kind, text: string, starts: seq<Token>, hi: int): (r: Option<nat>)
    requires hi < |starts|
    ensures r.Some? ==> r.value <= hi && AcceptsOpener(kind, text, starts[r.value])
    ensures forall j :: 0 <= j <= hi && (r.Some? ==> r.value < j) ==> !AcceptsOpener(kind, text, starts[j])
    decreases hi + 1
  {
    if hi < 0 then None
    else if AcceptsOpener(kind, text, starts[hi]) then Some(hi)
    else LastAccepted(kind, text, starts, hi - 1)
  }

  /** The smallest index `j >= lo` whose closer is accepted. */
  function FirstAccepted(kind: Kind, text: string, ends: seq<Token>, lo: nat): (r: Option<nat>)
    ensures r.Some? ==> lo <= r.value < |ends| && AcceptsCloser(kind, text, ends[r.value])
    ensures forall j :: lo <= j < |ends| && (r.Some? ==> j < r.value) ==> !AcceptsCloser(kind, text, ends[j])
    decreases |ends| - lo
  {
    if lo >= |ends| then None
    else if AcceptsCloser(kind, text, ends[lo]) then Some(lo)
    else FirstAccepted(kind, text, ends, lo + 1)
  }

  /**
   * What the backward pairing loop computes. With `n` openers and `m`
   * closers, surplus closers raise the level by `m - n`; surplus openers
   * are the leftmost `n - m`, taken right to left, one level each, and the
   * result is the first of them, at or after the step that brings the
   * level to zero, that is accepted.
   */
  function BackFold(kind: Kind, text: string, starts: seq<Token>, ends: seq<Token>, inComment: bool, level: int): (r: LineResult)
    ensures r.inComment == inComment
    ensures r.found.Some? ==> r.level == 0 && r.found.value in starts
    ensures level >= 1 && kind != Function ==> r.level >= 1 || r.found.Some?
  {
    var n, m := |starts|, |ends|;
    if m >= n then LineResult(None, inComment, level + (m - n))
    else
      match LastAccepted(kind, text, starts, n - m - Reach(level))
      case Some(j) => LineResult(Some(starts[j]), inComment, 0)
      case None => LineResult(None, inComment, level - (n - m))
  }

  /**
   * What the forward pairing loop computes: surplus openers raise the level
   * by `n - m`; surplus closers are the rightmost `m - n`, taken left to
   * right, one level each, and the result is the first of them, at or after
   * the step that brings the level to zero, that is accepted.
   */
  function ForwardFold(kind: Kind, text: string, starts: seq<Token>, ends: seq<Token>, inComment: bool, level: int): (r: LineResult)
    ensures r.inComment == inComment
    ensures r.found.Some? ==> r.level == 0 && r.found.value in ends
    ensures level >= 1 && kind != Function ==> r.level >= 1 || r.found.Some?
  {
    var n, m := |starts|, |ends|;
    if n >= m then LineResult(None, inComment, level + (n - m))
    else
      match FirstAccepted(kind, text, ends, n + Reach(level) - 1)
      case Some(j) => LineResult(Some(ends[j]), inComment, 0)
      case None => LineResult(None, inComment, level - (m - n))
  }

  /** Specification of find_start_bound_per_line. */
  function BackStep(line: string, kind: Kind, inComment: bool, level: int): (r: LineResult)
    ensures r.found.Some? ==> r.level == 0 && r.found.value.start < r.found.value.end
    ensures level >= 1 && kind != Function ==> r.level >= 1 || r.found.Some?
  {
    match MaskBackward(line, inComment)
    case Hidden => LineResult(None, true, level)
    case Shown(text, c) =>
      if kind == Condition then
        var conds := FindAll(CondStart, text, 0);
        if conds == [] then LineResult(None, c, level) else LineResult(Some(conds[|conds| - 1]), c, 0)
      else BackFold(kind, text, FindAll(BlockStart, text, 0), FindAll(BlockEnd, text, 0), c, level)
  }

  /** Specification of find_end_bound_per_line; `col` is `start_col`. */
  function ForwardStep(line: string, kind: Kind, inComment: bool, col: nat, level: int): (r: LineResult)
    ensures r.found.Some? ==> r.level == 0 && r.found.value.start < r.found.value.end
    ensures level >= 1 && kind != Function ==> r.level >= 1 || r.found.Some?
  {
    match MaskForward(line, inComment, col)
    case Hidden => LineResult(None, true, level)
    case Shown(text, c) =>
      if kind == Condition then
        var found := Search(CondEnd, text, 0);
        LineResult(found, c, if found.None? then level else 0)
      else ForwardFold(kind, text, FindAll(BlockStart, text, 0), FindAll(BlockEnd, text, 0), c, level)
  }

  /**
   * For kinds other than `Function` every opener is accepted, so the
   * backward fold depends on the two counts alone: surplus closers raise
   * the level; of `n - m` surplus openers, the one `level` places from the
   * right of them is the match.
   */
  lemma BackFoldCounts(kind: Kind, text: string, starts: seq<Token>, ends: seq<Token>, c: bool, level: int)
    requires kind != Function
    ensures var n, m, r := |starts|, |ends|, BackFold(kind, text, starts, ends, c, level);
            (m >= n ==> r.found.None? && r.level == level + (m - n)) &&
            (m < n && level <= n - m ==> r.found == Some(starts[n - m - Reach(level)]) && r.level == 0) &&
            (m < n && level > n - m ==> r.found.None? && r.level == level - (n - m)) &&
            r.inComment == c
  {
  }

  /**
   * Mirror image: surplus openers raise the level; of `m - n` surplus
   * closers, the one `level` places from the left of them is the match.
   */
  lemma ForwardFoldCounts(kind: Kind, text: string, starts: seq<Token>, ends: seq<Token>, c: bool, level: int)
    requires kind != Function
    ensures var n, m, r := |starts|, |ends|, ForwardFold(kind, text, starts, ends, c, level);
            (n >= m ==> r.found.None? && r.level == level + (n - m)) &&
            (n < m && level <= m - n ==> r.found == Some(ends[n + Reach(level) - 1]) && r.level == 0) &&
            (n < m && level > m - n ==> r.found.None? && r.level == level - (m - n)) &&
            r.inComment == c
  {
  }

  /**
   * For kind `Function` the backward fold only ever stops at a function
   * header: of the openers `finditer` yields, it returns one whose text ends
   * in `)`, which no other kind of opener does.
   */
  lemma FunctionFoldFindsHeader(text: string, starts: seq<Token>, ends: seq<Token>, c: bool, level: int)
    requires forall k :: 0 <= k < |starts| ==> starts[k].start <= |text| && OpenerAt(text, starts[k].start) == Some(starts[k].end)
    ensures var r := BackFold(Function, text, starts, ends, c, level);
            r.found.Some? ==> r.found.value.start <= |text| && FuncHeaderAt(text, r.found.value.start) == Some(r.found.value.end)
  {
    var r := BackFold(Function, text, starts, ends, c, level);
    if r.found.Some? {
      var j := FunctionFoldAccepts(text, starts, ends, c, level);
      AcceptedOpenerIsHeader(text, starts[j]);
    }
  }

  /** What the backward fold finds is one of the openers, and one it accepts. */
  lemma FunctionFoldAccepts(text: string, starts: seq<Token>, ends: seq<Token>, c: bool, level: int) returns (j: nat)
    requires BackFold(Function, text, starts, ends, c, level).found.Some?
    ensures j < |starts| && starts[j] == BackFold(Function, text, starts, ends, c, level).found.value
    ensures AcceptsOpener(Function, text, starts[j])
  {
    j := LastAccepted(Function, text, starts, |starts| - |ends| - Reach(level)).value;
  }

  /** An opener accepted for kind `Function` is a function header. */
  lemma AcceptedOpenerIsHeader(text: string, t: Token)
    requires t.start <= |text| && OpenerAt(text, t.start) == Some(t.end)
    requires AcceptsOpener(Function, text, t)
    ensures FuncHeaderAt(text, t.start) == Some(t.end)
  {
    OpenerEndsInParen(text, t.start);
  }

  /**
   * For kind `Function` the forward fold never stops at an `until`: of the
   * closers `finditer` yields, it returns an `end`.
   */
  lemma FunctionFoldSkipsUntil(text: string, starts: seq<Token>, ends: seq<Token>, c: bool, level: int)
    requires forall k :: 0 <= k < |ends| ==> ends[k].start <= |text| && CloserAt(text, ends[k].start) == Some(ends[k].end)
    ensures var r := ForwardFold(Function, text, starts, ends, c, level);
            r.found.Some? ==> r.found.value.start <= |text| && CloserAt(text, r.found.value.start).Some? &&
                              !UntilAt(text, r.found.value.start)
  {
    var r := ForwardFold(Function, text, starts, ends, c, level);
    if r.found.Some? {
      var j := FirstAccepted(Function, text, ends, |starts| + Reach(level) - 1).value;
      assert r.found.value == ends[j];
      CloserIsUntil(text, ends[j].start);
    }
  }

  /**
   * Kind `Condition` ignores nesting; backward it takes the last
   * `if`/`for`/`while` that `finditer` yields on the visible text, after
   * which no further keyword starts.
   */
  lemma LastCondStartIsRightmost(text: string)
    ensures var conds := FindAll(CondStart, text, 0);
            (conds == [] ==> forall p :: 0 <= p < |text| ==> CondStartAt(text, p).None?) &&
            (conds != [] ==> var t := conds[|conds| - 1];
                               t.start <= |text| && CondStartAt(text, t.start) == Some(t.end) &&
                               forall p :: t.end <= p < |text| ==> CondStartAt(text, p).None?)
  {
    if FindAll(CondStart, text, 0) == [] {
      NoCondStart(text);
    } else {
      LastCondStart(text);
    }
  }

  lemma CondTableAt(text: string, p: nat)
    requires p < |text|
    ensures MatchTable(CondStart, text)[p] == CondStartAt(text, p)
  {
  }

  lemma NoCondStart(text: string)
    requires FindAll(CondStart, text, 0) == []
    ensures forall p :: 0 <= p < |text| ==> CondStartAt(text, p).None?
  {
    forall p | 0 <= p < |text| ensures CondStartAt(text, p).None? {
      CondTableAt(text, p);
    }
  }

  lemma LastCondStart(text: string)
    requires FindAll(CondStart, text, 0) != []
    ensures var conds := FindAll(CondStart, text, 0); var t := conds[|conds| - 1];
            t.start <= |text| && CondStartAt(text, t.start) == Some(t.end) &&
            forall p :: t.end <= p < |text| ==> CondStartAt(text, p).None?
  {
    var tbl := MatchTable(CondStart, text);
    var conds := Scan(tbl, 0);
    assert conds == FindAll(CondStart, text, 0);
    ScanLastIsRightmost(tbl, 0);
    var t := conds[|conds| - 1];
    assert tbl[t.start] == Some(t.end);
    CondTableAt(text, t.start);
    forall p | t.end <= p < |text| ensures CondStartAt(text, p).None? {
      CondTableAt(text, p);
    }
  }

  /** find_start_bound_per_line */
  method StartBoundPerLine(line: string, kind: Kind, inComment: bool, level: int) returns (r: LineResult)
    ensures r == BackStep(line, kind, inComment, level)
    ensures inComment && Search(CommentOpen, line, 0).None? ==> r == LineResult(None, true, level)
  {
    var view := MaskBackward(line, inComment);
    if view.Hidden? {
      // still in block comment, ignore anything
      return LineResult(None, true, level);
    }
    var text, c := view.text, view.inComment;
    if kind == Condition {
      var conds := FindAll(CondStart, text, 0);
      if conds == [] {
        return LineResult(None, c, level);
      }
      return LineResult(Some(conds[|conds| - 1]), c, 0);
    }
    r := PairBackward(kind, text, FindAll(BlockStart, text, 0), FindAll(BlockEnd, text, 0), c, level);
  }

  /** The `izip_longest` loop of find_start_bound_per_line over the reversed opener and closer lists. */
  method PairBackward(kind: Kind, text: string, starts: seq<Token>, ends: seq<Token>, c: bool, level: int)
    returns (r: LineResult)
    ensures r == BackFold(kind, text, starts, ends, c, level)
  {
    var n, m := |starts|, |ends|;
    var lvl := level;
    var i := 0;
    // pairs are taken from the right: step i sees starts[n-1-i] and ends[m-1-i]
    while i < n || i < m
      invariant i <= n || i <= m
      decreases n + m - i
      invariant lvl == level + (if i > n then i - n else 0) - (if i > m then i - m else 0)
      invariant forall j :: n - i <= j <= n - m - Reach(level) && 0 <= j ==> !AcceptsOpener(kind, text, starts[j])
    {
      if i >= n {
        lvl := lvl + 1;
      } else if i >= m {
        var opener := starts[n - 1 - i];
        lvl := lvl - 1;
        if lvl <= 0 && AcceptsOpener(kind, text, opener) {
          assert n - 1 - i <= n - m - Reach(level);
          return LineResult(Some(opener), c, 0);
        }
      }
      i := i + 1;
    }
    return LineResult(None, c, lvl);
  }

  /** find_end_bound_per_line; `col` is `start_col`. */
  method EndBoundPerLine(line: string, kind: Kind, inComment: bool, col: nat, level: int) returns (r: LineResult)
    ensures r == ForwardStep(line, kind, inComment, col, level)
    ensures inComment && Search(CommentClose, line, 0).None? ==> r == LineResult(None, true, level)
  {
    var view := MaskForward(line, inComment, col);
    if view.Hidden? {
      return LineResult(None, true, level);
    }
    var text, c := view.text, view.inComment;
    if kind == Condition {
      var found := Search(CondEnd, text, 0);
      return LineResult(found, c, if found.None? then level else 0);
    }
    r := PairForward(kind, text, FindAll(BlockStart, text, 0), FindAll(BlockEnd, text, 0), c, level);
  }

  /** The `izip_longest` loop of find_end_bound_per_line over the opener and closer lists in order. */
  method PairForward(kind: Kind, text: string, starts: seq<Token>, ends: seq<Token>, c: bool, level: int)
    returns (r: LineResult)
    ensures r == ForwardFold(kind, text, starts, ends, c, level)
  {
    var n, m := |starts|, |ends|;
    var lvl := level;
    var i := 0;
    // pairs are taken from the left: step i sees starts[i] and ends[i]
    while i < n || i < m
      invariant i <= n || i <= m
      decreases n + m - i
      invariant lvl == level + (if i > m then i - m else 0) - (if i > n then i - n else 0)
      invariant forall j :: n + Reach(level) - 1 <= j < i && j < m ==> !AcceptsCloser(kind, text, ends[j])
    {
      if i >= n {
        var closer := ends[i];
        lvl := lvl - 1;
        // for kind `Function` an `until` closes a repeat, never the function: keep going
        if lvl <= 0 && AcceptsCloser(kind, text, closer) {
          FirstAcceptedAt(kind, text, ends, n + Reach(level) - 1, i);
          return LineResult(Some(closer), c, 0);
        }
      } else if i >= m {
        lvl := lvl + 1;
      }
      i := i + 1;
    }
    if n < m {
      FirstAcceptedNone(kind, text, ends, n + Reach(level) - 1);
    }
    return LineResult(None, c, lvl);
  }

  /** The first accepted closer at or after `lo` is the one at `j` when every closer in between is skipped. */
  lemma FirstAcceptedAt(kind: Kind, text: string, ends: seq<Token>, lo: nat, j: nat)
    requires lo <= j < |ends| && AcceptsCloser(kind, text, ends[j])
    requires forall k :: lo <= k < j ==> !AcceptsCloser(kind, text, ends[k])
    ensures FirstAccepted(kind, text, ends, lo) == Some(j)
  {
  }

  /** No closer at or after `lo` is accepted. */
  lemma FirstAcceptedNone(kind: Kind, text: string, ends: seq<Token>, lo: nat)
    requires forall k :: lo <= k < |ends| ==> !AcceptsCloser(kind, text, ends[k])
    ensures FirstAccepted(kind, text, ends, lo) == None
  {
  }
}
