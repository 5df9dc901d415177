/**
 * The two entry points of lua_text_bound.py: find_start_bound walks up from
 * the cursor and find_end_bound walks down, one line at a time, carrying
 * the nesting level (which starts at 1) and the block-comment flag from
 * line to line until the level falls to zero or the buffer runs out.
 *
 * The buffer is a sequence of lines; the cursor is 1-based. `Bound` is the
 * result: a 1-based position, `NotFound` for the source's `None`, or
 * `Unmatched` for the case where the level fell to zero without a match,
 * on which the source dereferences `None` and raises.
 */
module Bounds {
  import opened Chars
  import opened Patterns
  import opened Masker
  import opened LineFold

  datatype Bound = Found(line: int, col: int) | NotFound | Unmatched

  /** Where a scan stops: at a token of line `lnum`, off the buffer, or at level <= 0 with no token. */
  datatype Stop = Hit(lnum: nat, tok: Token) | OffBuffer | NoMatch

  /** Position `a` comes strictly before position `b`. */
  predicate Before(a: Bound, b: Bound)
    requires a.Found? && b.Found?
  {
    a.line < b.line || (a.line == b.line && a.col < b.col)
  }

  /**
   * `if obj_type == 'function' and level > 1: obj_type = 'block'`, done
   * before every further line is read: once the search is nested inside
   * another block, openers and closers of every kind are balanced.
   */
  function Demote(kind: Kind, level: int): (k: Kind)
    ensures k == Function <==> kind == Function && level <= 1
    ensures k == kind || k == Block
  {
    if kind == Function && level > 1 then Block else kind
  }

  /** `buf[i]` with Python's reading of a negative index as counted from the end. */
  function PyLine(buf: seq<string>, i: int): (line: string)
    requires -|buf| <= i < |buf|
    ensures line == buf[if i < 0 then |buf| + i else i]
  {
    if i < 0 then buf[|buf| + i] else buf[i]
  }

  // ---------------------------------------------------------------------
  // Backward
  // ---------------------------------------------------------------------

  /**
   * The `while level > 0` loop of find_start_bound, entered at line `lnum`
   * whose step gave `r`. It stops where the level falls to zero or less,
   * and runs off the buffer when it would step above the first line.
   */
  function ScanUp(buf: seq<string>, lnum: nat, kind: Kind, r: LineResult): (s: Stop)
    requires lnum < |buf|
    requires r.found.Some? ==> r.found.value.start < r.found.value.end
    ensures s.Hit? ==> s.lnum <= lnum && s.tok.start < s.tok.end
    ensures s.OffBuffer? ==> r.level > 0
    ensures kind != Function && (r.level <= 0 ==> r.found.Some?) ==> !s.NoMatch?
    decreases lnum
  {
    if r.level <= 0 then (if r.found.Some? then Hit(lnum, r.found.value) else NoMatch)
    else if lnum == 0 then OffBuffer
    else
      var k := Demote(kind, r.level);
      ScanUp(buf, lnum - 1, k, BackStep(buf[lnum - 1], k, r.inComment, r.level))
  }

  /** One more line upward: the scan continues from the line above with the demoted kind. */
  lemma ScanUpStep(buf: seq<string>, lnum: nat, kind: Kind, r: LineResult)
    requires 0 < lnum < |buf| && r.level > 0
    requires r.found.Some? ==> r.found.value.start < r.found.value.end
    ensures ScanUp(buf, lnum, kind, r)
         == ScanUp(buf, lnum - 1, Demote(kind, r.level), BackStep(buf[lnum - 1], Demote(kind, r.level), r.inComment, r.level))
  {
  }

  /** The upward scan ends at a line whose level is zero or less. */
  lemma ScanUpStop(buf: seq<string>, lnum: nat, kind: Kind, r: LineResult)
    requires lnum < |buf| && r.level <= 0
    requires r.found.Some? ==> r.found.value.start < r.found.value.end
    ensures var s := ScanUp(buf, lnum, kind, r); s.Hit? == r.found.Some? && s.NoMatch? == r.found.None?
    ensures var s := ScanUp(buf, lnum, kind, r); s.Hit? ==> s.lnum == lnum && s.tok == r.found.value
  {
  }

  /** `line[:col]`: the part of the cursor line that find_start_bound reads. */
  function LeftOf(line: string, col: nat): (s: string)
    ensures |s| == if col <= |line| then col else |line|
    ensures s == line[..|s|]
  {
    line[..if col <= |line| then col else |line|]
  }

  function StartScan(buf: seq<string>, line: int, col: nat, kind: Kind): Stop
    requires 1 <= line <= |buf|
  {
    ScanUp(buf, line - 1, kind, BackStep(LeftOf(buf[line - 1], col), kind, false, 1))
  }

  /** The upward scan starts from the cursor line's step. */
  lemma StartScanFirst(buf: seq<string>, line: int, col: nat, kind: Kind, r: LineResult)
    requires 1 <= line <= |buf|
    requires r == BackStep(LeftOf(buf[line - 1], col), kind, false, 1)
    ensures StartScan(buf, line, col, kind) == ScanUp(buf, line - 1, kind, r)
  {
  }

  /**
   * The position find_start_bound reports for opener `t` of line `lnum`:
   * exclusive, the opener's first column; inclusive, the column after it,
   * or the first column of the next line when the opener ends the line.
   */
  function StartPosition(buf: seq<string>, lnum: nat, t: Token, inclusive: bool): (b: Bound)
    requires lnum < |buf|
    ensures b.Found? && lnum + 1 <= b.line <= lnum + 2
    ensures !inclusive ==> b == Found(lnum + 1, t.start + 1)
    ensures inclusive && b.line == lnum + 2 ==> b.col == 1 && t.end == |buf[lnum]|
    ensures inclusive && b.line == lnum + 1 ==> b.col == t.end + 1 && t.end != |buf[lnum]|
  {
    if inclusive then
      if t.end == |buf[lnum]| then Found(lnum + 2, 1) else Found(lnum + 1, t.end + 1)
    else Found(lnum + 1, t.start + 1)
  }

  /** Specification of find_start_bound. */
  function StartBound(buf: seq<string>, line: int, col: nat, inclusive: bool, kind: Kind): (b: Bound)
    requires 1 <= line <= |buf|
    ensures b.Found? ==> 1 <= b.line <= line + 1 && b.col >= 1
    ensures !inclusive && b.Found? ==> b.line <= line
  {
    match StartScan(buf, line, col, kind)
    case OffBuffer => NotFound
    case NoMatch => Unmatched
    case Hit(lnum, t) => StartPosition(buf, lnum, t, inclusive)
  }

  /** A scan that stops at token `t` of line `lnum` reports that token's position. */
  lemma StartBoundHit(buf: seq<string>, line: int, col: nat, inclusive: bool, kind: Kind, lnum: nat, t: Token)
    requires 1 <= line <= |buf|
    requires var s := StartScan(buf, line, col, kind); s.Hit? && s.lnum == lnum && s.tok == t
    ensures lnum < |buf| && StartBound(buf, line, col, inclusive, kind) == StartPosition(buf, lnum, t, inclusive)
  {
  }

  /** A scan that stops without a token is the unmatched outcome. */
  lemma StartBoundNoMatch(buf: seq<string>, line: int, col: nat, inclusive: bool, kind: Kind)
    requires 1 <= line <= |buf|
    requires StartScan(buf, line, col, kind).NoMatch?
    ensures StartBound(buf, line, col, inclusive, kind) == Unmatched
  {
  }

  /** find_start_bound */
  method FindStartBound(buf: seq<string>, line: int, col: nat, inclusive: bool, kind: Kind) returns (b: Bound)
    requires 1 <= line <= |buf|
    ensures b == StartBound(buf, line, col, inclusive, kind)
  {
    var lnum: int := line - 1;
    var objType := kind;
    var r := StartBoundPerLine(LeftOf(buf[line - 1], col), objType, false, 1);
    StartScanFirst(buf, line, col, kind, r);
    while r.level > 0
      invariant 0 <= lnum < |buf|
      invariant r.found.Some? ==> r.found.value.start < r.found.value.end
      invariant ScanUp(buf, lnum, objType, r) == StartScan(buf, line, col, kind)
      decreases lnum
    {
      lnum := lnum - 1;
      if lnum < 0 {
        assert StartScan(buf, line, col, kind) == OffBuffer;
        return NotFound;
      }
      ScanUpStep(buf, lnum + 1, objType, r);
      if objType == Function && r.level > 1 {
        objType := Block;
      }
      r := StartBoundPerLine(buf[lnum], objType, r.inComment, r.level);
    }
    ScanUpStop(buf, lnum, objType, r);
    if r.found.None? {
      StartBoundNoMatch(buf, line, col, inclusive, kind);
      // the source reads `match.end(0)` / `match.start(0)` of `None` here and raises
      return Unmatched;
    }
    StartBoundHit(buf, line, col, inclusive, kind, lnum, r.found.value);
    b := StartPosition(buf, lnum, r.found.value, inclusive);
  }

  // ---------------------------------------------------------------------
  // Forward
  // ---------------------------------------------------------------------

  /**
   * The `while level > 0` loop of find_end_bound, entered at line `lnum`
   * whose step gave `r`. It stops where the level falls to zero or less,
   * and runs off the buffer when it would step past the last line.
   */
  function ScanDown(buf: seq<string>, lnum: nat, kind: Kind, r: LineResult): (s: Stop)
    requires lnum < |buf|
    requires r.found.Some? ==> r.found.value.start < r.found.value.end
    ensures s.Hit? ==> lnum <= s.lnum < |buf| && s.tok.start < s.tok.end
    ensures s.OffBuffer? ==> r.level > 0
    ensures kind != Function && (r.level <= 0 ==> r.found.Some?) ==> !s.NoMatch?
    decreases |buf| - lnum
  {
    if r.level <= 0 then (if r.found.Some? then Hit(lnum, r.found.value) else NoMatch)
    else if lnum + 1 >= |buf| then OffBuffer
    else
      var k := Demote(kind, r.level);
      ScanDown(buf, lnum + 1, k, ForwardStep(buf[lnum + 1], k, r.inComment, 0, r.level))
  }

  /** One more line downward: the scan continues from the line below with the demoted kind. */
  lemma ScanDownStep(buf: seq<string>, lnum: nat, kind: Kind, r: LineResult)
    requires lnum + 1 < |buf| && r.level > 0
    requires r.found.Some? ==> r.found.value.start < r.found.value.end
    ensures ScanDown(buf, lnum, kind, r)
         == ScanDown(buf, lnum + 1, Demote(kind, r.level), ForwardStep(buf[lnum + 1], Demote(kind, r.level), r.inComment, 0, r.level))
  {
  }

  /** The downward scan ends at a line whose level is zero or less. */
  lemma ScanDownStop(buf: seq<string>, lnum: nat, kind: Kind, r: LineResult)
    requires lnum < |buf| && r.level <= 0
    requires r.found.Some? ==> r.found.value.start < r.found.value.end
    ensures var s := ScanDown(buf, lnum, kind, r); s.Hit? == r.found.Some? && s.NoMatch? == r.found.None?
    ensures var s := ScanDown(buf, lnum, kind, r); s.Hit? ==> s.lnum == lnum && s.tok == r.found.value
  {
  }

  function EndScan(buf: seq<string>, line: int, col: nat, kind: Kind): Stop
    requires 1 <= line <= |buf|
  {
    ScanDown(buf, line - 1, kind, ForwardStep(buf[line - 1], kind, false, col, 1))
  }

  /** The downward scan starts from the cursor line's step. */
  lemma EndScanFirst(buf: seq<string>, line: int, col: nat, kind: Kind, r: LineResult)
    requires 1 <= line <= |buf|
    requires r == ForwardStep(buf[line - 1], kind, false, col, 1)
    ensures EndScan(buf, line, col, kind) == ScanDown(buf, line - 1, kind, r)
  {
  }

  /**
   * The position find_end_bound reports for closer `t` of line `lnum`:
   * exclusive, the column after the closer; inclusive, the closer's first
   * column, or one past the end of the previous line when the closer starts
   * the line. On the first line of the buffer that previous line is, as in
   * Python, `buf[-1]`: the last line.
   */
  function EndPosition(buf: seq<string>, lnum: nat, t: Token, inclusive: bool): (b: Bound)
    requires lnum < |buf|
    ensures b.Found? && lnum <= b.line <= lnum + 1
    ensures !inclusive ==> b == Found(lnum + 1, t.end + 1)
    ensures inclusive && b.line == lnum ==> t.start == 0 && b.col == |PyLine(buf, lnum - 1)| + 1
    ensures inclusive && b.line == lnum + 1 ==> t.start != 0 && b.col == t.start
  {
    if inclusive then
      if t.start == 0 then Found(lnum, |PyLine(buf, lnum - 1)| + 1) else Found(lnum + 1, t.start)
    else Found(lnum + 1, t.end + 1)
  }

  /** Specification of find_end_bound. */
  function EndBound(buf: seq<string>, line: int, col: nat, inclusive: bool, kind: Kind): (b: Bound)
    requires 1 <= line <= |buf|
    ensures b.Found? ==> line - 1 <= b.line <= |buf| && b.col >= 1
    ensures !inclusive && b.Found? ==> line <= b.line
  {
    match EndScan(buf, line, col, kind)
    case OffBuffer => NotFound
    case NoMatch => Unmatched
    case Hit(lnum, t) => EndPosition(buf, lnum, t, inclusive)
  }

  /** A scan that stops at token `t` of line `lnum` reports that token's position. */
  lemma EndBoundHit(buf: seq<string>, line: int, col: nat, inclusive: bool, kind: Kind, lnum: nat, t: Token)
    requires 1 <= line <= |buf|
    requires var s := EndScan(buf, line, col, kind); s.Hit? && s.lnum == lnum && s.tok == t
    ensures lnum < |buf| && EndBound(buf, line, col, inclusive, kind) == EndPosition(buf, lnum, t, inclusive)
  {
  }

  /** A scan that stops without a token is the unmatched outcome. */
  lemma EndBoundNoMatch(buf: seq<string>, line: int, col: nat, inclusive: bool, kind: Kind)
    requires 1 <= line <= |buf|
    requires EndScan(buf, line, col, kind).NoMatch?
    ensures EndBound(buf, line, col, inclusive, kind) == Unmatched
  {
  }

  /** find_end_bound */
  method FindEndBound(buf: seq<string>, line: int, col: nat, inclusive: bool, kind: Kind) returns (b: Bound)
    requires 1 <= line <= |buf|
    ensures b == EndBound(buf, line, col, inclusive, kind)
  {
    var eof := |buf|;
    var lnum: int := line - 1;
    var objType := kind;
    var r := EndBoundPerLine(buf[lnum], objType, false, col, 1);
    EndScanFirst(buf, line, col, kind, r);
    while r.level > 0
      invariant 0 <= lnum < |buf|
      invariant r.found.Some? ==> r.found.value.start < r.found.value.end
      invariant ScanDown(buf, lnum, objType, r) == EndScan(buf, line, col, kind)
      decreases |buf| - lnum
    {
      lnum := lnum + 1;
      if lnum >= eof {
        assert EndScan(buf, line, col, kind) == OffBuffer;
        return NotFound;
      }
      ScanDownStep(buf, lnum - 1, objType, r);
      if objType == Function && r.level > 1 {
        objType := Block;
      }
      r := EndBoundPerLine(buf[lnum], objType, r.inComment, 0, r.level);
    }
    ScanDownStop(buf, lnum, objType, r);
    if r.found.None? {
      EndBoundNoMatch(buf, line, col, inclusive, kind);
      // the source reads `match.start(0)` / `match.end(0)` of `None` here and raises
      return Unmatched;
    }
    EndBoundHit(buf, line, col, inclusive, kind, lnum, r.found.value);
    b := EndPosition(buf, lnum, r.found.value, inclusive);
  }

  // ---------------------------------------------------------------------
  // Properties of the two searches
  // ---------------------------------------------------------------------

  /**
   * The `inclusive` flag only changes where a found boundary is reported:
   * whether anything is found does not depend on it, and the inclusive
   * start never comes before the exclusive one. The exclusive start lies on
   * the cursor line or above it.
   */
  lemma StartInclusiveAfterExclusive(buf: seq<string>, line: int, col: nat, kind: Kind)
    requires 1 <= line <= |buf|
    ensures var ex, inc := StartBound(buf, line, col, false, kind), StartBound(buf, line, col, true, kind);
            ex.Found? == inc.Found? && ex.NotFound? == inc.NotFound? &&
            (ex.Found? ==> 1 <= ex.line <= line && Before(ex, inc))
  {
  }

  /**
   * Mirror image for the end: the inclusive end never comes after the
   * exclusive one, and the exclusive end lies on the cursor line or below.
   */
  lemma EndInclusiveBeforeExclusive(buf: seq<string>, line: int, col: nat, kind: Kind)
    requires 1 <= line <= |buf|
    ensures var ex, inc := EndBound(buf, line, col, false, kind), EndBound(buf, line, col, true, kind);
            ex.Found? == inc.Found? && ex.NotFound? == inc.NotFound? &&
            (ex.Found? ==> line <= ex.line <= |buf| && Before(inc, ex))
  {
  }

  /**
   * Only kind `Function` can let the level fall to zero without a token
   * (an opener not ending in `)`, or an `until`): for the other kinds the
   * source never dereferences `None`.
   */
  lemma OnlyFunctionKindIsUnmatched(buf: seq<string>, line: int, col: nat, inclusive: bool, kind: Kind)
    requires 1 <= line <= |buf|
    requires kind != Function
    ensures StartBound(buf, line, col, inclusive, kind) != Unmatched
    ensures EndBound(buf, line, col, inclusive, kind) != Unmatched
  {
  }
}
