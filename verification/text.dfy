/** The few Ruby `String` operations the trainer relies on: `strip`,
    `split(',')`, `downcase`, and prefix removal with an anchored `gsub`. */
module Text {

  /** Ruby's whitespace for `strip`: NUL, tab, line feed, vertical tab,
      form feed, carriage return and space. */
  predicate IsSpace(c: char) {
    c == '\0' || c == '\t' || c == '\n' || c == '\U{000B}' || c == '\U{000C}' || c == '\r' || c == ' '
  }

  /** Every character of `s` from `lo` up to `hi` is whitespace. */
  predicate SpaceBetween(s: string, lo: int, hi: int) {
    forall k :: lo <= k < hi && 0 <= k < |s| ==> IsSpace(s[k])
  }

  /** Every character of `s` is whitespace. */
  predicate AllSpace(s: string) {
    SpaceBetween(s, 0, |s|)
  }

  /** Neither end of `s` is whitespace: what `strip` leaves behind. */
  predicate Trimmed(s: string) {
    |s| > 0 ==> !IsSpace(s[0]) && !IsSpace(s[|s| - 1])
  }

  /** Where the leading whitespace of `s[i..]` ends: the first position at
      or after `i` that is not whitespace, or `|s|`. */
  function SkipSpace(s: string, i: nat): (e: nat)
    requires i <= |s|
    ensures i <= e <= |s| && SpaceBetween(s, i, e)
    ensures e < |s| ==> !IsSpace(s[e])
    decreases |s| - i
  {
    if i < |s| && IsSpace(s[i]) then SkipSpace(s, i + 1) else i
  }

  /** Where the trailing whitespace of `s[lo..j]` starts: the last position
      at or before `j`, and not before `lo`, that follows a non-space. */
  function SkipSpaceBack(s: string, lo: nat, j: nat): (e: nat)
    requires lo <= j <= |s|
    ensures lo <= e <= j && SpaceBetween(s, e, j)
    ensures e > lo ==> !IsSpace(s[e - 1])
    decreases j
  {
    if j > lo && IsSpace(s[j - 1]) then SkipSpaceBack(s, lo, j - 1) else j
  }

  /** `strip`: what is left between the leading and the trailing whitespace. */
  function Strip(s: string): (r: string)
    ensures Trimmed(r) && |r| <= |s|
  {
    var b := SkipSpace(s, 0);
    var e := SkipSpaceBack(s, b, |s|);
    s[b..e]
  }

  /** `strip` removes whitespace from both ends and nothing else: `s` is
      some whitespace, then its strip, then some whitespace. */
  lemma StripShape(s: string)
    ensures exists i :: 0 <= i <= |s| - |Strip(s)| && s[i..i + |Strip(s)|] == Strip(s) && AllSpace(s[..i]) && AllSpace(s[i + |Strip(s)|..])
  {
    var b := SkipSpace(s, 0);
    var e := SkipSpaceBack(s, b, |s|);
    assert Strip(s) == s[b..e];
    assert AllSpace(s[..b]) by {
      forall k | 0 <= k < b
        ensures IsSpace(s[..b][k])
      {
        assert s[..b][k] == s[k];
      }
    }
    assert AllSpace(s[e..]) by {
      forall k | 0 <= k < |s| - e
        ensures IsSpace(s[e..][k])
      {
        assert s[e..][k] == s[e + k];
      }
    }
  }

  /** Skipping from `i` over a whitespace run that ends in a non-space, or
      at the end, stops where the run ends. */
  lemma {:induction false} SkipSpaceOver(s: string, i: nat, j: nat)
    requires i <= j <= |s| && SpaceBetween(s, i, j)
    requires j < |s| ==> !IsSpace(s[j])
    ensures SkipSpace(s, i) == j
    decreases j - i
  {
    if i < j {
      SkipSpaceOver(s, i + 1, j);
    }
  }

  /** Skipping back from `j` over a whitespace run that follows a non-space,
      or starts at `lo`, stops where the run starts. */
  lemma {:induction false} SkipSpaceBackOver(s: string, lo: nat, i: nat, j: nat)
    requires lo <= i <= j <= |s| && SpaceBetween(s, i, j)
    requires i > lo ==> !IsSpace(s[i - 1])
    ensures SkipSpaceBack(s, lo, j) == i
    decreases j - i
  {
    if i < j {
      SkipSpaceBackOver(s, lo, i, j - 1);
    }
  }

  /** `strip` removes exactly the surrounding whitespace: together with
      Strip's own contract this pins the result down uniquely. */
  lemma StripUnpads(pre: string, t: string, post: string)
    requires AllSpace(pre) && AllSpace(post) && Trimmed(t)
    ensures Strip(pre + t + post) == t
  {
    var s := pre + t + post;
    forall k | 0 <= k < |pre|
      ensures s[k] == pre[k]
    {
    }
    forall k | |pre| + |t| <= k < |s|
      ensures s[k] == post[k - |pre| - |t|]
    {
    }
    if |t| > 0 {
      assert s[|pre|] == t[0] && s[|pre| + |t| - 1] == t[|t| - 1];
      SkipSpaceOver(s, 0, |pre|);
      SkipSpaceBackOver(s, |pre|, |pre| + |t|, |s|);
      assert s[|pre|..|pre| + |t|] == t;
    } else {
      SkipSpaceOver(s, 0, |s|);
    }
  }

  /** A trimmed string is its own strip. */
  lemma StripOfTrimmed(t: string)
    requires Trimmed(t)
    ensures Strip(t) == t
  {
    SkipSpaceOver(t, 0, 0);
    SkipSpaceBackOver(t, 0, |t|, |t|);
    assert t[0..|t|] == t;
  }

  /** Stripping twice is stripping once (`goto!` strips an already stripped argument). */
  lemma StripIdempotent(s: string)
    ensures Strip(Strip(s)) == Strip(s)
  {
    StripOfTrimmed(Strip(s));
  }

  /** `strip` only removes characters: one absent from `s` is absent
      from its strip. */
  lemma StripKeepsOut(s: string, c: char)
    requires c !in s
    ensures c !in Strip(s)
  {
    var b := SkipSpace(s, 0);
    var e := SkipSpaceBack(s, b, |s|);
    forall k | 0 <= k < e - b
      ensures s[b..e][k] != c
    {
      assert s[b..e][k] == s[b + k];
    }
  }

  /** `s.start_with?(p)`, and what `/^p/` tests on a line without newlines. */
  predicate HasPrefix(s: string, p: string) {
    |p| <= |s| && s[..|p|] == p
  }

  /** `s.include?(t)`, and what an unanchored `/t/` tests. */
  predicate Contains(s: string, t: string) {
    exists i :: 0 <= i <= |s| && HasPrefix(s[i..], t)
  }

  /** `s.gsub(/^p/, '')` on a line without newlines: the prefix is dropped once. */
  function RemovePrefix(s: string, p: string): (r: string)
    ensures HasPrefix(s, p) ==> p + r == s
    ensures !HasPrefix(s, p) ==> r == s
  {
    if HasPrefix(s, p) then s[|p|..] else s
  }

  /** `fields.join(sep)`. */
  function Join(fields: seq<string>, sep: char): string {
    if |fields| == 0 then ""
    else if |fields| == 1 then fields[0]
    else fields[0] + [sep] + Join(fields[1..], sep)
  }

  /** Every field of `s` between separators, empty ones included. */
  function SplitAll(s: string, sep: char): (r: seq<string>)
    ensures |r| >= 1
    ensures forall i :: 0 <= i < |r| ==> sep !in r[i]
    ensures Join(r, sep) == s
  {
    if |s| == 0 then [""]
    else
      var rest := SplitAll(s[1..], sep);
      if s[0] == sep then
        assert s == [sep] + s[1..];
        [""] + rest
      else
        var r := [[s[0]] + rest[0]] + rest[1..];
        assert r[1..] == rest[1..];
        assert s == [s[0]] + s[1..];
        r
  }

  /** The fields left after Ruby drops the trailing empty ones. */
  function DropTrailingEmpty(fields: seq<string>): (r: seq<string>)
    ensures |r| <= |fields| && r == fields[..|r|]
    ensures forall i :: |r| <= i < |fields| ==> fields[i] == ""
    ensures |r| > 0 ==> r[|r| - 1] != ""
  {
    if |fields| > 0 && fields[|fields| - 1] == "" then DropTrailingEmpty(fields[..|fields| - 1])
    else fields
  }

  /** Ruby's `s.split(sep)` with a one-character separator: the fields of
      `s`, trailing empty fields removed (so `"".split(',')` is empty). */
  function Split(s: string, sep: char): (r: seq<string>)
    ensures forall i :: 0 <= i < |r| ==> sep !in r[i]
    ensures |r| > 0 ==> r[|r| - 1] != ""
    ensures |r| <= |SplitAll(s, sep)|
    ensures r == SplitAll(s, sep)[..|r|]
    ensures forall i :: |r| <= i < |SplitAll(s, sep)| ==> SplitAll(s, sep)[i] == ""
  {
    DropTrailingEmpty(SplitAll(s, sep))
  }

  lemma {:induction false} SplitAllField(f: string, sep: char, rest: string)
    requires sep !in f
    ensures SplitAll(f + [sep] + rest, sep) == [f] + SplitAll(rest, sep)
    decreases |f|
  {
    if |f| == 0 {
      assert f + [sep] + rest == [sep] + rest;
      assert ([sep] + rest)[1..] == rest;
    } else {
      assert (f + [sep] + rest)[1..] == f[1..] + [sep] + rest;
      SplitAllField(f[1..], sep, rest);
      assert [f[0]] + f[1..] == f;
    }
  }

  /** Splitting a join of separator-free fields gives the fields back. */
  lemma {:induction false} SplitAllJoin(fields: seq<string>, sep: char)
    requires |fields| >= 1
    requires forall i :: 0 <= i < |fields| ==> sep !in fields[i]
    ensures SplitAll(Join(fields, sep), sep) == fields
    decreases |fields|
  {
    if |fields| == 1 {
      SplitAllNoSep(fields[0], sep);
    } else {
      SplitAllJoin(fields[1..], sep);
      SplitAllField(fields[0], sep, Join(fields[1..], sep));
      assert fields == [fields[0]] + fields[1..];
    }
  }

  lemma {:induction false} SplitAllNoSep(f: string, sep: char)
    requires sep !in f
    ensures SplitAll(f, sep) == [f]
    decreases |f|
  {
    if |f| > 0 {
      assert sep !in f[1..];
      SplitAllNoSep(f[1..], sep);
      assert [f[0]] + f[1..] == f;
    }
  }

  /** `split` undoes `join` whenever the last field is not empty. */
  lemma SplitJoin(fields: seq<string>, sep: char)
    requires |fields| >= 1 && fields[|fields| - 1] != ""
    requires forall i :: 0 <= i < |fields| ==> sep !in fields[i]
    ensures Split(Join(fields, sep), sep) == fields
  {
    SplitAllJoin(fields, sep);
  }

  /** `map(&:strip)`. */
  function StripEach(fields: seq<string>): (r: seq<string>)
    ensures |r| == |fields|
    ensures forall i :: 0 <= i < |r| ==> r[i] == Strip(fields[i])
  {
    seq(|fields|, i requires 0 <= i < |fields| => Strip(fields[i]))
  }

  /** Stripping each of a list of trimmed strings changes nothing. */
  lemma StripEachOfTrimmed(fields: seq<string>)
    requires forall i :: 0 <= i < |fields| ==> Trimmed(fields[i])
    ensures StripEach(fields) == fields
  {
    forall i | 0 <= i < |fields|
      ensures StripEach(fields)[i] == fields[i]
    {
      StripOfTrimmed(fields[i]);
    }
  }

  predicate IsUpper(c: char) {
    'A' <= c <= 'Z'
  }

  /** No ASCII capital letter occurs in `s`. */
  predicate IsLower(s: string) {
    forall i :: 0 <= i < |s| ==> !IsUpper(s[i])
  }

  function LowerChar(c: char): char {
    if IsUpper(c) then (c as int + 32) as char else c
  }

  /** `downcase`, for ASCII letters. */
  function Lower(s: string): (r: string)
    ensures |r| == |s| && IsLower(r)
    ensures forall i :: 0 <= i < |s| ==> (r[i] == s[i] || (IsUpper(s[i]) && r[i] as int == s[i] as int + 32))
  {
    seq(|s|, i requires 0 <= i < |s| => LowerChar(s[i]))
  }

  /** A lower-case string is left alone by `downcase`. */
  lemma LowerOfLower(s: string)
    requires IsLower(s)
    ensures Lower(s) == s
  {
  }
}
