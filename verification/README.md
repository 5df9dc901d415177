# Lua text-object bounds, modelled in Dafny

This project models `autoload/textobj/lua_text_bound.py` of vim-textobj-lua.
That file finds where the Lua construct around the cursor starts and ends.
The construct is a `function`, a generic block (`if … then`, `for`/`while … do`, `repeat`) or a bare condition.

`find_start_bound` walks up from the cursor, one line at a time. `find_end_bound` walks down. Both carry two things from line to line:
- a nesting level, which starts at 1;
- a flag saying whether the walk is inside a `--[[ … ]]--` block comment.

On each line, the per-line step does two things:
- It blanks out block comments, line comments and string literals, so that their text is never read as code.
- It pairs the openers and closers found on the line, as `itertools.izip_longest` does.

Only the unpaired tokens move the level. The search stops when the level falls to zero.

The model is split into seven modules:

- `Chars`: character classes `\w` and `\s`, runs of blanks, words and `=`, and Python's `lstrip`.
- `Patterns`: the patterns the source uses, written as explicit scanners.
  - The source compiles eleven patterns. Two of them, `func_start` (line 8) and `func_end` (line 11), are never used, so the model has the other nine.
  - `FindAll` plays `finditer`, `Search` plays `search`, and `Blank` plays `sub` with the spaces-for-match replacement.
  - For each scanner, a `…Matches` lemma states exactly which spans it accepts, in terms of the parts of the pattern: the `(^|(?<=\W))` boundary, greedy `.*` in `if … then`, the `\s*` before `end`, and so on.
  - `finditer` resuming at a match's end and `search` returning the leftmost match are proved about `FindAll` and `Search`.
  - That these scanners agree with Python's `re` engine is how the model reads the patterns. It is not itself proved.
- `Masker`: the masking chain of the two per-line functions.
- `LineFold`: the two per-line functions, written as methods with the source's loops.
  - Each method is proved equal to a closed-form specification (`BackStep`/`BackFold`, `ForwardStep`/`ForwardFold`).
  - The properties of those specifications are proved as lemmas.
- `Bounds`: the two entry points, written as methods with the source's `while level > 0` loops.
  - Each is proved equal to a recursive specification (`StartBound`, `EndBound`).
  - Lemmas relate the inclusive and exclusive results.
- `Examples`: worked cases on single lines and on the buffer `if x then / y / end`, proved from the definitions.
- `Scenarios`: five whole buffers worked through to the bounds both searches report:
  - the `if_condition` case of test_lua_text_bound.py, with its own buffer and cursor;
  - a `repeat / y / until a > 20` buffer, with the structure of the `repeat` case;
  - two nested `if` blocks, where the inner `end` raises the level and the outer `if` is found;
  - a `function f(x) / y / end` buffer for kind `function`, where the header is found;
  - an `if` block whose `end` inside `--[[ … ]]--` is not counted.

The source has two failure outcomes, and the model keeps them apart:
- The source returns `None` when the walk runs off the buffer. The model calls this `NotFound`.
- For kind `function`, the level can fall to zero with no accepted token. The source then reads `match.start(0)` of `None` and raises. The model returns `Unmatched` there, and `OnlyFunctionKindIsUnmatched` proves that the other kinds never reach it.

The source takes Python's negative indexing at face value. In `find_end_bound`, an inclusive bound for an `end` at column 0 of the first line reads `buf[-1]`, which is the last line. `PyLine` models exactly that.

## Model

| member | source | states |
|---|---|---|
| Chars.SkipSpaces | autoload/textobj/lua_text_bound.py:10 | `\s*` from `p`: every skipped character is whitespace and the first one not skipped is not |
| Chars.IsWord | autoload/textobj/lua_text_bound.py:20 | `\w`: ASCII letters, digits and `_`, one byte per character |
| Chars.IsSpace | autoload/textobj/lua_text_bound.py:10 | `\s`: blank, tab, line feed, vertical tab, form feed and carriage return |
| Chars.SpaceIsNotWord | autoload/textobj/lua_text_bound.py:7 | no character is both whitespace and a word character, so `\s+\w+` splits where the name begins |
| Chars.SkipWord | autoload/textobj/lua_text_bound.py:7 | `\w*` from `p`: every skipped character is a word character and the next one is not |
| Chars.SkipEquals | autoload/textobj/lua_text_bound.py:15-16 | `=*` from `p`: every skipped character is `=` and the next one is not |
| Chars.Spaces | autoload/textobj/lua_text_bound.py:28-29 | `' ' * n` has length `n` and holds only blanks |
| Chars.LStripStartsAt | autoload/textobj/lua_text_bound.py:191 | `lstrip` of a string whose first non-blank is at `k` is non-empty and starts with that character |
| Chars.LStrip | autoload/textobj/lua_text_bound.py:191 | `lstrip` returns a string no longer than its input that does not start with whitespace |
| Chars.LStripDropsBlanks | autoload/textobj/lua_text_bound.py:191 | `lstrip` removes a prefix made only of whitespace and keeps the rest of the string unchanged |
| Patterns.LineCommentAt | autoload/textobj/lua_text_bound.py:14 | a line comment matches exactly where an unescaped `--` starts (a non-backslash character before it), and runs to the end of the line |
| Patterns.Boundary | autoload/textobj/lua_text_bound.py:20-26 | `(^|(?<=\W))`: the start of the line, or a position after a non-word character |
| Patterns.NotEscaped | autoload/textobj/lua_text_bound.py:12-14 | `(?<=[^\\])`: a position after a character that is not a backslash, so never the start of the line |
| Patterns.QuoteEnd | autoload/textobj/lua_text_bound.py:12-13 | a literal's body, with backslash escapes, ends just after a closing quote |
| Patterns.QuoteEndMatches | autoload/textobj/lua_text_bound.py:12-13 | the body scanner ends at `e` exactly when the text up to `e` reads as ordinary characters and escape pairs followed by the closing quote |
| Patterns.QuoteAt | autoload/textobj/lua_text_bound.py:12-13 | a string literal opens at a quote preceded by a non-backslash character, and ends at a matching quote at least one character further on |
| Patterns.QuoteAtMatches | autoload/textobj/lua_text_bound.py:12-13 | a literal spans `p..e` exactly when `p` is unescaped, holds the quote, and a closed body follows |
| Patterns.CommentOpenAt | autoload/textobj/lua_text_bound.py:15 | a block-comment opening mark starts with `--[`, is at least four characters long and ends with `[` |
| Patterns.CommentOpenMatches | autoload/textobj/lua_text_bound.py:15 | the opening-mark scanner accepts `p..e` exactly when it spells `--[`, a run of `=`, and `[` |
| Patterns.CommentCloseAt | autoload/textobj/lua_text_bound.py:16 | a block-comment closing mark starts with `]`, is at least four characters long and ends with `]--` |
| Patterns.CommentCloseMatches | autoload/textobj/lua_text_bound.py:16 | the closing-mark scanner accepts `p..e` exactly when it spells `]`, a run of `=`, and `]--` |
| Patterns.CloseParen | autoload/textobj/lua_text_bound.py:7 | `[^)]*\)` stops at the first `)` at or after `p`; no `)` lies before it |
| Patterns.FuncHeaderAt | autoload/textobj/lua_text_bound.py:7 | a function header is at least `function()` long and ends with `)` |
| Patterns.FuncHeaderMatches | autoload/textobj/lua_text_bound.py:7 | the header scanner accepts `p..e` exactly when it reads as an optional `local` and blanks, `function`, an optional blanks-and-name, and a parenthesised list without `)` inside |
| Patterns.PartsMakeHeader | autoload/textobj/lua_text_bound.py:7 | any span made of the header's parts is the header the scanner returns |
| Patterns.LastTail | autoload/textobj/lua_text_bound.py:17-18 | the largest admissible position of the closing keyword; none lies beyond it (greedy `.*`) |
| Patterns.GreedyBlockAt | autoload/textobj/lua_text_bound.py:17-18 | an `if … then` / `for … do` / `while … do` match begins with its head keyword and ends with a blank or the last letter of its tail keyword |
| Patterns.GreedyBlockMatches | autoload/textobj/lua_text_bound.py:17-18 | the opener matches exactly when the head is followed by a non-word character and an admissible tail occurs at least two characters further on |
| Patterns.GreedyBlockEndsAtLastTail | autoload/textobj/lua_text_bound.py:17-18 | a matching opener ends at the last admissible tail keyword on the line, plus the blank after it when there is one |
| Patterns.RepeatAt | autoload/textobj/lua_text_bound.py:19 | `repeat` matches only when followed by a blank or the end of the line |
| Patterns.RepeatMatches | autoload/textobj/lua_text_bound.py:19 | `repeat` matches exactly when a blank (taken into the match) or the end of the line follows it |
| Patterns.OpenerAt | autoload/textobj/lua_text_bound.py:20-21 | a block opener only starts at the start of the line or after a non-word character, and is non-empty |
| Patterns.KeywordOpenerAt | autoload/textobj/lua_text_bound.py:17-21 | the `if`, `for`, `while` and `repeat` alternatives never produce a match ending in `)` |
| Patterns.OpenerAlternatives | autoload/textobj/lua_text_bound.py:20-21 | at a boundary the opener is the first of header, `if`, `for`, `while`, `repeat` that matches, in that order, and there is none off a boundary |
| Patterns.OpenerEndsInParen | autoload/textobj/lua_text_bound.py:20-21 | an opener's text ends with `)` exactly when it is a function header, and the two matches then coincide |
| Patterns.CloserAt | autoload/textobj/lua_text_bound.py:22-23 | a closer starts only at a boundary; an `until` closer runs to the end of the line |
| Patterns.UntilAt | autoload/textobj/lua_text_bound.py:22 | `\s*until\s`: blanks, `until`, and a blank after it |
| Patterns.CloserMatches | autoload/textobj/lua_text_bound.py:22-23 | at a boundary a closer is `until` running to the end of the line, or else blanks and a free-standing `end`; nothing else matches |
| Patterns.CloserIsUntil | autoload/textobj/lua_text_bound.py:22-23 | a closer's text, stripped of leading blanks, is non-empty, and starts with `u` exactly when the closer is an `until` |
| Patterns.CondStartAt | autoload/textobj/lua_text_bound.py:25 | a condition start is `if`, `for` or `while` at a boundary, at least two characters long |
| Patterns.CondStartMatches | autoload/textobj/lua_text_bound.py:25 | a condition start is exactly `if`, `for` or `while` at a boundary, taking in one following blank, and otherwise followed by a non-word character or the end of the line |
| Patterns.CondEndAt | autoload/textobj/lua_text_bound.py:26 | a condition end is `then` or `do` at a boundary, followed by a non-word character or the end of the line |
| Patterns.CondEndMatches | autoload/textobj/lua_text_bound.py:26 | a condition end is exactly a free-standing `then` or `do` at a boundary, and the match is the keyword alone |
| Patterns.MatchAt | autoload/textobj/lua_text_bound.py:7-26 | every match of every pattern is a non-empty span of the line |
| Patterns.FindAll | autoload/textobj/lua_text_bound.py:102-103 | `finditer` yields non-empty, non-overlapping matches, left to right, inside the line |
| Patterns.FindAllYieldsMatches | autoload/textobj/lua_text_bound.py:102-103 | every token `finditer` yields is a match of its pattern; none is yielded exactly when no position matches |
| Patterns.FindAllSkips | autoload/textobj/lua_text_bound.py:183-184 | `finditer` passes over positions where the pattern does not match |
| Patterns.FindAllResumes | autoload/textobj/lua_text_bound.py:183-184 | after a match, `finditer` resumes at the match's end |
| Patterns.ScanSkips | autoload/textobj/lua_text_bound.py:102-103 | `finditer` yields the same tokens from any position up to the next match |
| Patterns.Search | autoload/textobj/lua_text_bound.py:180 | `search` returns a non-empty span inside the line |
| Patterns.SearchYieldsLeftmost | autoload/textobj/lua_text_bound.py:72 | `search` returns a match of its pattern, and no position before it matches |
| Patterns.SearchFindsFirst | autoload/textobj/lua_text_bound.py:72 | when position `p` matches and nothing before it does, `search` returns the match at `p` |
| Patterns.SearchIsFirstMatch | autoload/textobj/lua_text_bound.py:82 | `search` returns the first token of `finditer`, or nothing when `finditer` yields none |
| Patterns.Sub | autoload/textobj/lua_text_bound.py:28-29 | substituting matches with spaces keeps the text's length |
| Patterns.SubAt | autoload/textobj/lua_text_bound.py:28-29 | after substitution each character is a blank when a match covers it and is the original character otherwise |
| Patterns.Blank | autoload/textobj/lua_text_bound.py:88 | blanking a pattern keeps the line's length |
| Patterns.BlankAt | autoload/textobj/lua_text_bound.py:88-90 | blanking turns exactly the characters inside matches into spaces, and keeps every other character in its column |
| Masker.HideThrough | autoload/textobj/lua_text_bound.py:85 | blanking through the end of a closing mark keeps the length; characters before the cut become blanks, the rest are kept |
| Masker.HideFrom | autoload/textobj/lua_text_bound.py:78-79 | blanking from an opening mark keeps the text before it and makes the line one character longer |
| Masker.HidePrefix | autoload/textobj/lua_text_bound.py:177 | blanking before the cursor column blanks the first `col` characters and keeps the rest |
| Masker.AfterCursor | autoload/textobj/lua_text_bound.py:176-177 | with a non-zero cursor column the text before it is blank; with column 0 the line is unchanged |
| Masker.MaskLiterals | autoload/textobj/lua_text_bound.py:173-175 | masking comments and literals keeps the line's length |
| Masker.MaskLiteralsKeeps | autoload/textobj/lua_text_bound.py:88-90 | masking comments and literals only ever turns characters into blanks |
| Masker.MaskBackward | autoload/textobj/lua_text_bound.py:71-90 | the line is hidden exactly when it lies inside a block comment with no opening mark; it enters a comment exactly when it was outside one and holds a closing mark; only blanks are written |
| Masker.MaskForward | autoload/textobj/lua_text_bound.py:160-177 | mirror image with the roles of the marks swapped; the text is exactly `max(col, n)` long, where n is the line length plus one after an opening mark (the `len+1` padding) and the line length otherwise; nothing before the cursor column is visible, and from it on only blanks are written |
| Masker.MaskBackwardBlanksComment | autoload/textobj/lua_text_bound.py:71-86 | walking up outside a comment, everything through the end of the first closing mark is blank; inside one, everything from the first opening mark to the end of the padded line |
| Masker.MaskForwardBlanksComment | autoload/textobj/lua_text_bound.py:160-172 | walking down inside a comment, everything through the end of the first closing mark is blank; outside one, everything from the first opening mark to the end of the padded line |
| Masker.UnmarkedLineIsShownAsIs | autoload/textobj/lua_text_bound.py:160-177 | a line without `-`, `]` and quotes reaches the keyword search unchanged (forward: only the part from the cursor on) |
| LineFold.LastAccepted | autoload/textobj/lua_text_bound.py:110-113 | the rightmost accepted opener at or below an index; none to its right is accepted |
| LineFold.AcceptsOpener | autoload/textobj/lua_text_bound.py:112 | backward, any opener is accepted except, for kind `function`, one whose text does not end with `)` |
| LineFold.FirstAccepted | autoload/textobj/lua_text_bound.py:189-195 | the leftmost accepted closer at or above an index; none to its left is accepted |
| LineFold.IsUntilText | autoload/textobj/lua_text_bound.py:190-193 | the closer's text, stripped of leading blanks, starts with `u` |
| LineFold.AcceptsCloser | autoload/textobj/lua_text_bound.py:189-195 | forward, any closer is accepted except an `until` for kind `function` |
| LineFold.BackFold | autoload/textobj/lua_text_bound.py:101-114 | the comment flag is passed through; a found token is one of the openers and sets the level to 0; for kinds other than `function`, a level of at least 1 either stays at least 1 or finds a token |
| LineFold.ForwardFold | autoload/textobj/lua_text_bound.py:183-198 | mirror image: a found token is one of the closers |
| LineFold.BackStep | autoload/textobj/lua_text_bound.py:70-114 | a found token is a non-empty span and sets the level to 0; for kinds other than `function` the level never drops to 0 without one |
| LineFold.ForwardStep | autoload/textobj/lua_text_bound.py:158-198 | mirror image for the forward step |
| LineFold.BackFoldCounts | autoload/textobj/lua_text_bound.py:104-114 | for kinds other than `function`, the backward pairing depends on the two counts alone: surplus closers raise the level by their number; of the surplus openers, the one `level` places from the right is the match |
| LineFold.ForwardFoldCounts | autoload/textobj/lua_text_bound.py:185-198 | for kinds other than `function`: surplus openers raise the level; of the surplus closers, the one `level` places from the left is the match |
| LineFold.FunctionFoldFindsHeader | autoload/textobj/lua_text_bound.py:110-113 | for kind `function`, the backward pairing only ever stops at a function header |
| LineFold.AcceptedOpenerIsHeader | autoload/textobj/lua_text_bound.py:112 | an opener accepted for kind `function` (text ending in `)`) is a function header spanning the same text |
| LineFold.FunctionFoldSkipsUntil | autoload/textobj/lua_text_bound.py:189-195 | for kind `function`, the forward pairing only ever stops at an `end`, never at an `until` |
| LineFold.LastCondStartIsRightmost | autoload/textobj/lua_text_bound.py:92-99 | backward, kind `condition` takes the last condition keyword on the visible text; no keyword starts after it, and there is none at all when nothing is found |
| LineFold.StartBoundPerLine | autoload/textobj/lua_text_bound.py:70-114 | the method computes `BackStep`; a line inside a block comment with no opening mark leaves the state unchanged |
| LineFold.PairBackward | autoload/textobj/lua_text_bound.py:101-114 | the right-to-left `izip_longest` loop computes `BackFold` |
| LineFold.EndBoundPerLine | autoload/textobj/lua_text_bound.py:158-198 | the method computes `ForwardStep`; a line inside a block comment with no closing mark leaves the state unchanged |
| LineFold.PairForward | autoload/textobj/lua_text_bound.py:183-198 | the left-to-right `izip_longest` loop, including its `continue` on `until`, computes `ForwardFold` |
| Bounds.Demote | autoload/textobj/lua_text_bound.py:54-55 | kind `function` becomes `block` once the level exceeds 1, and no other kind changes |
| Bounds.PyLine | autoload/textobj/lua_text_bound.py:149 | Python indexing of the buffer: a negative index counts from the end |
| Bounds.LeftOf | autoload/textobj/lua_text_bound.py:41 | `line[:col]` is the prefix of the line of length `min(col, len(line))` |
| Bounds.ScanUp | autoload/textobj/lua_text_bound.py:50-57 | the upward walk stops at or above the line it starts from; it runs off the buffer only while a level is owed; for kinds other than `function` it never stops without a token |
| Bounds.ScanDown | autoload/textobj/lua_text_bound.py:136-144 | mirror image: it stops at or below the start line, inside the buffer |
| Bounds.StartBound | autoload/textobj/lua_text_bound.py:31-68 | a start found lies at column 1 or later, on a line no further down than the one after the cursor line; exclusive, on or above the cursor line |
| Bounds.EndBound | autoload/textobj/lua_text_bound.py:117-155 | an end found lies at column 1 or later, on a line no further up than the one before the cursor line; exclusive, on or below the cursor line |
| Bounds.StartPosition | autoload/textobj/lua_text_bound.py:58-68 | exclusive: the opener's first column; inclusive: the column after the opener, or column 1 of the next line exactly when the opener ends its line |
| Bounds.EndPosition | autoload/textobj/lua_text_bound.py:145-155 | exclusive: the column after the closer; inclusive: the closer's column, or one past the end of the previous line exactly when the closer starts its line |
| Bounds.FindStartBound | autoload/textobj/lua_text_bound.py:31-68 | the method with the source's loop computes `StartBound` |
| Bounds.FindEndBound | autoload/textobj/lua_text_bound.py:117-155 | the method with the source's loop computes `EndBound` |
| Bounds.StartInclusiveAfterExclusive | autoload/textobj/lua_text_bound.py:58-68 | the inclusive flag does not change whether a start is found; the exclusive start lies on or above the cursor line, and the inclusive start comes strictly after it |
| Bounds.EndInclusiveBeforeExclusive | autoload/textobj/lua_text_bound.py:145-155 | the inclusive flag does not change whether an end is found; the exclusive end lies on or below the cursor line, and the inclusive end comes strictly before it |
| Bounds.OnlyFunctionKindIsUnmatched | autoload/textobj/lua_text_bound.py:49-57 | for kinds `block` and `condition` neither search ever ends without a token, so the source's dereference of `None` cannot happen |
| Examples.IfLineOpeners | autoload/textobj/lua_text_bound.py:20-21 | `if x then` yields exactly one opener, spanning the whole line |
| Examples.IfLineClosers | autoload/textobj/lua_text_bound.py:22-23 | `if x then` holds no closer |
| Examples.EndLineTokens | autoload/textobj/lua_text_bound.py:10 | `end` is one closer and no opener |
| Examples.BackStepOverIfLine | autoload/textobj/lua_text_bound.py:101-114 | walking up, the opener on `if x then` brings level 1 to 0 |
| Examples.BlockStartOfIfThen | autoload/textobj/lua_text_bound.py:31-68 | for `if x then / y / end` with the cursor just after `y` (column 1), the exclusive block start is (1, 1) |
| Examples.BlockStartOfIfThenIncluded | autoload/textobj/lua_text_bound.py:58-62 | the inclusive block start is (2, 1), because the opener ends its line |
| Examples.BlockEndOfIfThen | autoload/textobj/lua_text_bound.py:117-155 | the exclusive block end is (3, 4), the column after `end` |
| Examples.BlockEndOfIfThenIncluded | autoload/textobj/lua_text_bound.py:145-149 | the inclusive block end is (2, 2), one past the end of `y`, because `end` starts its line |
| Examples.FunctionKindSkipsIfLine | autoload/textobj/lua_text_bound.py:110-113 | for kind `function`, an `if … then` opener brings the level to 0 but is not accepted |
| Examples.FunctionKindWithoutHeader | autoload/textobj/lua_text_bound.py:58-68 | for kind `function` inside a bare `if` block, the level falls to 0 with no token: the outcome on which the source raises |
| Examples.GreedyOpenerSwallowsInnerIf | autoload/textobj/lua_text_bound.py:17 | `if a then if b then x` is one opener up to the last `then`, so the inner `if` is never counted |
| Examples.GluedKeywords | autoload/textobj/test_lua_text_bound.py:62-75 | `afunction` and `bend` are no tokens, while `end` after blanks is one |
| Examples.LineCommentInString | autoload/textobj/lua_text_bound.py:14 | in `s = '--' end`, the `--` inside the string is taken as a line comment running to the end of the line |
| Examples.CommentMaskedBeforeQuote | autoload/textobj/lua_text_bound.py:88-90 | because the line comment is masked first, the string's closing quote and the `end` after it are blanked |
| Scenarios.ConditionStart | autoload/textobj/test_lua_text_bound.py:373-386 | `if xxxx == 2 then`, cursor (1, 6), kind `condition`: the start is (1, 1), included (1, 4), as the test expects |
| Scenarios.ConditionEnd | autoload/textobj/test_lua_text_bound.py:373-386 | the same case: the end is (1, 18), included (1, 13), as the test expects |
| Scenarios.CondLineEnd | autoload/textobj/lua_text_bound.py:176-181 | right of the cursor, with the text before it blanked, the first condition end is the `then` closing the line |
| Scenarios.NestedBlockStart | autoload/textobj/lua_text_bound.py:47-57 | for `if x then / if x then / end / y / end` with the cursor just after `y` (column 1), the `end` raises the level to 2, the inner `if` brings it back to 1, and the block starts at the outer `if`, (1, 1) |
| Scenarios.NestedBlockEnd | autoload/textobj/lua_text_bound.py:134-155 | the same buffer: walking down, the block ends after the `end` on line 5, (5, 4) |
| Scenarios.BackStepOverEndLine | autoload/textobj/lua_text_bound.py:104-107 | walking up, a line holding only `end` raises the level by one |
| Scenarios.BackStepOverInnerIfLine | autoload/textobj/lua_text_bound.py:108-114 | walking up at level 2, an opener only lowers the level to 1 and finds nothing |
| Scenarios.RepeatBlockStart | autoload/textobj/test_lua_text_bound.py:285-300 | for `repeat / y / until a > 20` with the cursor just after `y` (column 1), the block starts at (1, 1), included (2, 1) because `repeat` ends its line, as in the `repeat` test |
| Scenarios.RepeatBlockEnd | autoload/textobj/test_lua_text_bound.py:285-300 | the same buffer: the block ends at (3, 13) after the whole `until` line, included one past the end of the line above, as in the `repeat` test |
| Scenarios.UntilLineClosers | autoload/textobj/lua_text_bound.py:22 | `until a > 20` is one closer running to the end of the line |
| Scenarios.RepeatLineOpeners | autoload/textobj/lua_text_bound.py:19 | a bare `repeat` is one opener |
| Scenarios.HeaderLineOpeners | autoload/textobj/lua_text_bound.py:7 | `function f(x)` is one opener, the function header |
| Scenarios.BackStepOverHeaderLine | autoload/textobj/lua_text_bound.py:110-113 | for kind `function`, the header is accepted because its text ends with `)` |
| Scenarios.FunctionStart | autoload/textobj/lua_text_bound.py:31-68 | for `function f(x) / y / end` with the cursor just after `y` (column 1) and kind `function`, the start is the header, (1, 1) |
| Scenarios.FunctionForwardOverEndLine | autoload/textobj/lua_text_bound.py:189-195 | for kind `function`, `end` is accepted because it is not an `until` |
| Scenarios.FunctionEnd | autoload/textobj/lua_text_bound.py:117-155 | the same buffer: the function ends after its `end`, (3, 4) |
| Scenarios.BackStepOverCloseMark | autoload/textobj/lua_text_bound.py:82-90 | walking up outside a comment, the line `]]--` is blanked and the walk enters the comment |
| Scenarios.BackStepOverCommentedEnd | autoload/textobj/lua_text_bound.py:71-75 | walking up inside a comment, a line with no opening mark is hidden, so its `end` leaves the level unchanged |
| Scenarios.BackStepOverOpenMark | autoload/textobj/lua_text_bound.py:71-80 | walking up inside a comment, the line `--[[` is blanked from the mark on and the walk leaves the comment |
| Scenarios.CommentedBlockStart | autoload/textobj/lua_text_bound.py:31-68 | for `if x then / --[[ / end / ]]-- / y / end` with the cursor just after `y` (column 1), the commented-out `end` does not close the `if`, and the block starts at (1, 1) |

## Left out

- Vim's buffer and cursor objects: the buffer is a sequence of lines, and the cursor is a 1-based line plus the column the source receives.
- Lines are byte strings, one `char` per byte. A line is assumed to hold no line break, so the newline behaviour of `.` and `$` is not modelled.
- The general regular-expression engine and match objects: each pattern is written as its own scanner, and a match is a `Token` span.
- The Python exception raised when the level falls to zero with no match (kind `function` only) becomes the `Unmatched` result.
- `obj_type` strings other than `'function'`, `'block'` and `'condition'` become the three constructors of `Kind`. The source treats any other string like `'block'`.
- A cursor line outside `1..len(buf)` is excluded by `requires 1 <= line <= |buf|`, since Vim only passes lines of the buffer. The source would not always raise there: a line past the end raises `IndexError`, while a line of 0 or less makes Python read a line counted from the end of the buffer, and it raises only when `line - 1` is below `-len(buf)`, that is, for a line at or below `-len(buf)`.
- The unittest suite in test_lua_text_bound.py is not part of this model. Only the `if_condition` case is worked through with its own buffer, in `Scenarios`. `Scenarios` and `Examples` also work through shorter buffers with the structure of the `if`, `repeat` and `nest` cases and a function header, listed above. The one block-comment buffer is walked upwards only; in general, the blanking of comments is stated by `Masker.MaskBackwardBlanksComment` and `Masker.MaskForwardBlanksComment`.
- In test_lua_text_bound.py, the `normal` and `keep_indent` cases (lines 10-44) name their functions `ip.to_number` and `ip:to_number`. The header pattern at line 7 only admits a plain `\w+` name, so the model, like the code, does not see those lines as function headers.
- QuoteEnd (Patterns.QuoteEnd): its own ensures only bound the match it returns; exactly which spans it accepts is stated by Patterns.QuoteEndMatches.
- QuoteAt (Patterns.QuoteAt): its own ensures only bound the match it returns; exactly which spans it accepts is stated by Patterns.QuoteAtMatches.
- CommentOpenAt (Patterns.CommentOpenAt): its own ensures only bound the match it returns; exactly which spans it accepts is stated by Patterns.CommentOpenMatches.
- CommentCloseAt (Patterns.CommentCloseAt): its own ensures only bound the match it returns; exactly which spans it accepts is stated by Patterns.CommentCloseMatches.
- FuncHeaderAt (Patterns.FuncHeaderAt): its own ensures only bound the match it returns; exactly which spans it accepts is stated by Patterns.FuncHeaderMatches.
- GreedyBlockAt (Patterns.GreedyBlockAt): its own ensures only bound the match it returns; exactly which spans it accepts is stated by Patterns.GreedyBlockMatches and Patterns.GreedyBlockEndsAtLastTail.
- RepeatAt (Patterns.RepeatAt): its own ensures only bound the match it returns; exactly which spans it accepts is stated by Patterns.RepeatMatches.
- OpenerAt (Patterns.OpenerAt): its own ensures only bound the match it returns; exactly which spans it accepts is stated by Patterns.OpenerAlternatives.
- CloserAt (Patterns.CloserAt): its own ensures only bound the match it returns; exactly which spans it accepts is stated by Patterns.CloserMatches.
- CondStartAt (Patterns.CondStartAt): its own ensures only bound the match it returns; exactly which spans it accepts is stated by Patterns.CondStartMatches.
- CondEndAt (Patterns.CondEndAt): its own ensures only bound the match it returns; exactly which spans it accepts is stated by Patterns.CondEndMatches.
- MaskBackward (Masker.MaskBackward): its own ensures state when the line is hidden, the new comment flag, the length, and that only blanks are written; which part of the line is blanked is stated by Masker.MaskBackwardBlanksComment.
- MaskForward (Masker.MaskForward): its own ensures state when the line is hidden, the new comment flag, the exact length (the line, one more after an opening mark, or the cursor column when that is longer), that the part before the cursor is blank and that only blanks are written; which part of the line is blanked is stated by Masker.MaskForwardBlanksComment.
