/** The regular expressions of the command table, as string predicates.
    Every one is an alternation of three kinds of branch: `^text` (the line
    starts with text), `text` (the line contains text) and `[0-9]` (the line
    contains an ASCII digit). */
module Regex {
  import opened Text

  /** A line as Readline hands it over: it holds no newline, so Ruby's `^`
      (start of any line) can only match at position 0. */
  type Line = s: string | '\n' !in s witness ""

  datatype Branch = AtStart(text: string) | Anywhere(text: string) | AnyDigit

  /** `a|b|...`: matches when one of its branches does. */
  datatype Pattern = Pattern(branches: seq<Branch>)

  predicate IsDigit(c: char) {
    '0' <= c <= '9'
  }

  predicate BranchMatches(b: Branch, line: Line) {
    match b
    case AtStart(t) => HasPrefix(line, t)
    case Anywhere(t) => Contains(line, t)
    case AnyDigit => exists i :: 0 <= i < |line| && IsDigit(line[i])
  }

  /** `pattern === line`. */
  predicate Matches(p: Pattern, line: Line) {
    exists k :: 0 <= k < |p.branches| && BranchMatches(p.branches[k], line)
  }

  /** A line that starts with `p` does not start with a `q` that differs
      from `p` at position `k`. */
  lemma StartsDiffer(line: string, p: string, q: string, k: nat)
    requires HasPrefix(line, p) && k < |p| && k < |q| && p[k] != q[k]
    ensures !HasPrefix(line, q)
  {
    assert line[..|p|][k] == line[k];
  }

  /** Every character of a contained string occurs in the line. */
  lemma ContainsHasChars(s: string, t: string, k: nat)
    requires Contains(s, t) && k < |t|
    ensures t[k] in s
  {
    var i :| 0 <= i <= |s| && HasPrefix(s[i..], t);
    assert s[i..][..|t|][k] == s[i + k];
  }

  /** A line lacking one of a string's characters does not contain it. */
  lemma MissingCharNotContained(s: string, t: string, k: nat)
    requires k < |t| && t[k] !in s
    ensures !Contains(s, t)
  {
    forall i | 0 <= i <= |s|
      ensures !HasPrefix(s[i..], t)
    {
      if |t| <= |s[i..]| {
        assert s[i..][..|t|][k] == s[i + k];
      }
    }
  }
}
