/**
 * Character classes and small string helpers shared by the scanners.
 *
 * A buffer line is a byte string: every `char` of a line stands for one byte,
 * and columns count bytes. The classes below are those of a byte-string
 * regular expression compiled without locale or Unicode flags.
 */
module Chars {

  datatype Option<+T> = None | Some(value: T)

  /** `\w`: ASCII letters, digits and the underscore. */
  predicate IsWord(c: char)
  {
    ('a' <= c <= 'z') || ('A' <= c <= 'Z') || ('0' <= c <= '9') || c == '_'
  }

  /** `\s`: space, tab, line feed, vertical tab, form feed, carriage return. */
  predicate IsSpace(c: char)
  {
    c == ' ' || ('\t' <= c <= '\r')
  }

  /** Every whitespace character is a non-word character. */
  lemma SpaceIsNotWord(c: char)
    ensures IsSpace(c) ==> !IsWord(c)
  {
  }

  /** `' ' * n` */
  function Spaces(n: nat): (r: string)
    ensures |r| == n
    ensures forall i :: 0 <= i < n ==> r[i] == ' '
  {
    seq(n, _ => ' ')
  }

  /** `w` occurs in `s` starting at offset `p`. */
  predicate HasAt(s: string, p: nat, w: string)
  {
    p + |w| <= |s| && s[p..p + |w|] == w
  }

  /** End of the run of `\s` characters that starts at `p` (`\s*`). */
  function SkipSpaces(s: string, p: nat): (q: nat)
    requires p <= |s|
    ensures p <= q <= |s|
    ensures forall i :: p <= i < q ==> IsSpace(s[i])
    ensures q == |s| || !IsSpace(s[q])
    decreases |s| - p
  {
    if p < |s| && IsSpace(s[p]) then SkipSpaces(s, p + 1) else p
  }

  /** End of the run of `\w` characters that starts at `p` (`\w*`). */
  function SkipWord(s: string, p: nat): (q: nat)
    requires p <= |s|
    ensures p <= q <= |s|
    ensures forall i :: p <= i < q ==> IsWord(s[i])
    ensures q == |s| || !IsWord(s[q])
    decreases |s| - p
  {
    if p < |s| && IsWord(s[p]) then SkipWord(s, p + 1) else p
  }

  /** End of the run of `=` characters that starts at `p` (`=*`). */
  function SkipEquals(s: string, p: nat): (q: nat)
    requires p <= |s|
    ensures p <= q <= |s|
    ensures forall i :: p <= i < q ==> s[i] == '='
    ensures q == |s| || s[q] != '='
    decreases |s| - p
  {
    if p < |s| && s[p] == '=' then SkipEquals(s, p + 1) else p
  }

  /** Python's `s.lstrip()`: `s` without its leading whitespace. */
  function LStrip(s: string): (r: string)
    ensures |r| <= |s|
    ensures r == [] || !IsSpace(r[0])
  {
    if s != [] && IsSpace(s[0]) then LStrip(s[1..]) else s
  }

  /** `lstrip` drops a prefix of blanks and keeps the rest of the string as it is. */
  lemma {:induction false} LStripDropsBlanks(s: string)
    ensures var r := LStrip(s); r == s[|s| - |r|..] && forall i :: 0 <= i < |s| - |r| ==> IsSpace(s[i])
    decreases |s|
  {
    if s != [] && IsSpace(s[0]) {
      LStripDropsBlanks(s[1..]);
    }
  }

  /** `lstrip` keeps a string from its first non-blank character on. */
  lemma {:induction false} LStripStartsAt(x: string, k: nat)
    requires k < |x| && !IsSpace(x[k])
    requires forall i :: 0 <= i < k ==> IsSpace(x[i])
    ensures LStrip(x) != [] && LStrip(x)[0] == x[k]
    decreases k
  {
    if k > 0 {
      LStripStartsAt(x[1..], k - 1);
    }
  }
}
