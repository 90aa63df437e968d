/** String operations the scripts rely on, written out so their edge cases are explicit:
    prefix/suffix tests, substring search, splitting on a separator, stripping a set of
    characters, and ASCII lower-casing. */
module Text {
  import opened Wrappers

  /** `s.endswith(suffix)` in Python, `s.endsWith(suffix)` in JavaScript. (A prefix test
      is Dafny's own `p <= s`.) */
  predicate EndsWith(s: string, suffix: string) {
    |suffix| <= |s| && s[|s| - |suffix|..] == suffix
  }

  /** `sub` occurs in `s` starting at index `i`. */
  predicate OccursAt(s: string, sub: string, i: int) {
    0 <= i && i + |sub| <= |s| && s[i..i + |sub|] == sub
  }

  /** `sub in s` in Python, `s.includes(sub)` in JavaScript. */
  predicate Contains(s: string, sub: string) {
    exists i :: 0 <= i <= |s| - |sub| && OccursAt(s, sub, i)
  }

  /** `sub in s`, decided by scanning left to right. */
  predicate HasSubstring(s: string, sub: string)
    decreases |s|
  {
    sub <= s || (s != [] && HasSubstring(s[1..], sub))
  }

  /** The scan agrees with the definition of containment. */
  lemma {:induction false} HasSubstringIffContains(s: string, sub: string)
    ensures HasSubstring(s, sub) <==> Contains(s, sub)
    decreases |s|
  {
    if s == [] {
      assert Contains(s, sub) ==> sub == [];
      assert sub == [] ==> OccursAt(s, sub, 0);
    } else {
      HasSubstringIffContains(s[1..], sub);
      ContainsStep(s, sub);
    }
  }

  /** `sub` occurs in a non-empty `s` exactly when it is a prefix of `s` or occurs in its
      tail. */
  lemma ContainsStep(s: string, sub: string)
    requires s != []
    ensures Contains(s, sub) <==> sub <= s || Contains(s[1..], sub)
  {
    if sub <= s {
      assert OccursAt(s, sub, 0);
    }
    if Contains(s[1..], sub) {
      var i :| 0 <= i <= |s[1..]| - |sub| && OccursAt(s[1..], sub, i);
      TailSlice(s, i, |sub|);
      assert OccursAt(s, sub, i + 1);
    }
    if Contains(s, sub) {
      var i :| 0 <= i <= |s| - |sub| && OccursAt(s, sub, i);
      if i > 0 {
        TailSlice(s, i - 1, |sub|);
        assert OccursAt(s[1..], sub, i - 1);
      } else {
        assert s[..|sub|] == sub;
      }
    }
  }

  lemma TailSlice(s: string, i: nat, n: nat)
    requires s != [] && i + n <= |s| - 1
    ensures s[1..][i..i + n] == s[i + 1..i + 1 + n]
  {
    var a, b := s[1..][i..i + n], s[i + 1..i + 1 + n];
    forall k | 0 <= k < n ensures a[k] == b[k] {
      assert a[k] == s[1..][i + k] == s[i + 1 + k];
    }
  }

  function IndexFrom(s: string, sub: string, from: nat): (r: Option<nat>)
    requires from <= |s|
    ensures r.Some? ==> from <= r.value && OccursAt(s, sub, r.value)
    ensures forall j :: from <= j && (r.None? || j < r.value) ==> !OccursAt(s, sub, j)
    decreases |s| - from
  {
    if OccursAt(s, sub, from) then Some(from)
    else if from == |s| then None
    else IndexFrom(s, sub, from + 1)
  }

  /** The index of the first (leftmost) occurrence of `sub` in `s`, if any. */
  function IndexOf(s: string, sub: string): (r: Option<nat>)
    ensures r.Some? ==> OccursAt(s, sub, r.value)
    ensures r.Some? ==> forall j :: 0 <= j < r.value ==> !OccursAt(s, sub, j)
    ensures r.None? <==> !Contains(s, sub)
  {
    IndexFrom(s, sub, 0)
  }

  /** The index of the last occurrence of `c` in `s`, if any (`s.rfind(c)`). */
  function LastIndexOf(s: string, c: char): (r: Option<nat>)
    ensures r.Some? ==> r.value < |s| && s[r.value] == c
    ensures forall j :: (if r.Some? then r.value + 1 else 0) <= j < |s| ==> s[j] != c
    decreases |s|
  {
    if s == [] then None
    else if s[|s| - 1] == c then Some(|s| - 1)
    else LastIndexOf(s[..|s| - 1], c)
  }

  /** An occurrence of `c` with none after it is the last one. */
  lemma LastIndexOfAt(s: string, c: char, i: nat)
    requires i < |s| && s[i] == c && forall k :: i < k < |s| ==> s[k] != c
    ensures LastIndexOf(s, c) == Some(i)
  {
  }

  /** The inverse of splitting: the pieces with `sep` between consecutive ones. */
  function JoinWith(pieces: seq<string>, sep: string): string
  {
    if |pieces| == 0 then ""
    else if |pieces| == 1 then pieces[0]
    else pieces[0] + sep + JoinWith(pieces[1..], sep)
  }

  /** Python's `s.split(sep)` for a non-empty separator: cut at every occurrence of `sep`,
      scanning left to right, occurrences not overlapping. */
  function SplitOn(s: string, sep: string): (pieces: seq<string>)
    requires sep != ""
    ensures |pieces| >= 1
    ensures JoinWith(pieces, sep) == s
    ensures forall k :: 0 <= k < |pieces| ==> !Contains(pieces[k], sep)
    decreases |s|
  {
    match IndexOf(s, sep)
    case None => [s]
    case Some(i) =>
      var head, rest := s[..i], SplitOn(s[i + |sep|..], sep);
      assert !Contains(head, sep) by {
        forall j | 0 <= j <= |head| - |sep| ensures !OccursAt(head, sep, j) {
          if OccursAt(head, sep, j) {
            assert head[j..j + |sep|] == s[j..j + |sep|];
            assert OccursAt(s, sep, j);
            assert false;
          }
        }
      }
      assert ([head] + rest)[1..] == rest;
      assert s == head + sep + s[i + |sep|..];
      [head] + rest
  }

  /** A string without the separator is not cut at all. */
  lemma SplitWithoutSeparator(s: string, sep: string)
    requires sep != "" && !Contains(s, sep)
    ensures SplitOn(s, sep) == [s]
  {
  }

  predicate AllIn(s: string, cs: set<char>) {
    forall i :: 0 <= i < |s| ==> s[i] in cs
  }

  /** A slice of a prefix is the same slice of the whole. */
  lemma SliceOfPrefix(s: string, n: nat, a: nat, b: nat)
    requires a <= b <= n <= |s|
    ensures s[..n][a..b] == s[a..b]
  {
    var x, y := s[..n][a..b], s[a..b];
    forall k | 0 <= k < b - a ensures x[k] == y[k] {
      assert x[k] == s[..n][a + k];
    }
  }

  /** `s.lstrip(cs)`: drop leading characters that belong to `cs`. */
  function StripLeft(s: string, cs: set<char>): string
    decreases |s|
  {
    if s != [] && s[0] in cs then StripLeft(s[1..], cs) else s
  }

  /** `s.rstrip(cs)`: drop trailing characters that belong to `cs`. */
  function StripRight(s: string, cs: set<char>): string
    decreases |s|
  {
    if s != [] && s[|s| - 1] in cs then StripRight(s[..|s| - 1], cs) else s
  }

  /** `lstrip` leaves a suffix of `s`: what it drops is all in `cs`, what it keeps does
      not start with a `cs` character, and it keeps nothing exactly when all of `s` is in
      `cs`. */
  lemma {:induction false} StripLeftDrops(s: string, cs: set<char>)
    ensures var r := StripLeft(s, cs);
      && |r| <= |s| && r == s[|s| - |r|..]
      && AllIn(s[..|s| - |r|], cs)
      && (r != [] ==> r[0] !in cs)
      && (r == [] <==> AllIn(s, cs))
    decreases |s|
  {
    if s != [] && s[0] in cs {
      var r := StripLeft(s[1..], cs);
      StripLeftDrops(s[1..], cs);
      var dropped := s[..|s| - |r|];
      assert AllIn(dropped, cs) by {
        var tail := s[1..][..|s| - 1 - |r|];
        forall i | 0 <= i < |dropped| ensures dropped[i] in cs {
          if i > 0 { assert dropped[i] == tail[i - 1]; }
        }
      }
      assert AllIn(s[1..], cs) ==> AllIn(s, cs) by {
        if AllIn(s[1..], cs) {
          forall i | 0 <= i < |s| ensures s[i] in cs {
            if i > 0 { assert s[i] == s[1..][i - 1]; }
          }
        }
      }
    } else if s != [] {
      assert !AllIn(s, cs) by {
        assert s[0] !in cs;
      }
    }
  }

  /** `rstrip` leaves a prefix of `s`: what it drops is all in `cs`, what it keeps does
      not end with a `cs` character, and it keeps nothing exactly when all of `s` is in
      `cs`. */
  lemma {:induction false} StripRightDrops(s: string, cs: set<char>)
    ensures var r := StripRight(s, cs);
      && r <= s
      && AllIn(s[|r|..], cs)
      && (r != [] ==> r[|r| - 1] !in cs)
      && (r == [] <==> AllIn(s, cs))
    decreases |s|
  {
    if s != [] && s[|s| - 1] in cs {
      var front := s[..|s| - 1];
      var r := StripRight(front, cs);
      StripRightDrops(front, cs);
      assert s[|r|..] == front[|r|..] + [s[|s| - 1]];
      assert AllIn(front, cs) ==> AllIn(s, cs) by {
        if AllIn(front, cs) {
          forall i | 0 <= i < |s| ensures s[i] in cs {
            if i < |s| - 1 { assert s[i] == front[i]; }
          }
        }
      }
    } else if s != [] {
      assert !AllIn(s, cs) by {
        assert s[|s| - 1] !in cs;
      }
    }
  }

  /** `s.strip(cs)`: what is left after removing `cs` characters from both ends. */
  function Strip(s: string, cs: set<char>): string {
    StripRight(StripLeft(s, cs), cs)
  }

  /** What `Strip` leaves is a prefix of `s` with its leading `cs` run removed, it neither
      starts nor ends with a `cs` character, and it is empty exactly when all of `s` is in
      `cs`. */
  lemma StripTrims(s: string, cs: set<char>)
    ensures var r := Strip(s, cs);
      && |r| <= |s|
      && r <= StripLeft(s, cs)
      && (r != [] ==> r[0] !in cs && r[|r| - 1] !in cs)
      && (r == [] <==> AllIn(s, cs))
  {
    var left := StripLeft(s, cs);
    StripLeftDrops(s, cs);
    StripRightDrops(left, cs);
    assert left != [] ==> !AllIn(left, cs) by {
      if left != [] { assert left[0] !in cs; }
    }
  }

  /** The characters Python's `str.strip()` removes (those for which `str.isspace()` holds). */
  const PyWhitespace: set<char> := {
    '\t', '\n', '\U{000B}', '\U{000C}', '\r', '\U{001C}', '\U{001D}', '\U{001E}', '\U{001F}',
    ' ', '\U{0085}', '\U{00A0}', '\U{1680}',
    '\U{2000}', '\U{2001}', '\U{2002}', '\U{2003}', '\U{2004}', '\U{2005}', '\U{2006}',
    '\U{2007}', '\U{2008}', '\U{2009}', '\U{200A}',
    '\U{2028}', '\U{2029}', '\U{202F}', '\U{205F}', '\U{3000}'
  }

  /** The characters JavaScript's `String.prototype.trim` removes (WhiteSpace and
      LineTerminator of the ECMAScript grammar). */
  const JsWhitespace: set<char> := {
    '\t', '\n', '\U{000B}', '\U{000C}', '\r', ' ', '\U{00A0}', '\U{1680}',
    '\U{2000}', '\U{2001}', '\U{2002}', '\U{2003}', '\U{2004}', '\U{2005}', '\U{2006}',
    '\U{2007}', '\U{2008}', '\U{2009}', '\U{200A}',
    '\U{2028}', '\U{2029}', '\U{202F}', '\U{205F}', '\U{3000}', '\U{FEFF}'
  }

  /** The characters a JavaScript regular-expression `.` does not match. */
  const JsLineTerminators: set<char> := {'\n', '\r', '\U{2028}', '\U{2029}'}

  function LowerChar(c: char): char {
    if 'A' <= c <= 'Z' then (c as int + 32) as char else c
  }

  predicate IsLower(s: string) {
    forall i :: 0 <= i < |s| ==> !('A' <= s[i] <= 'Z')
  }

  /** `s.lower()` restricted to ASCII letters: the result has the same length, each
      upper-case ASCII letter becomes its lower-case letter, and no other character
      changes. */
  function Lower(s: string): (r: string)
    ensures |r| == |s| && IsLower(r)
    ensures forall i :: 0 <= i < |s| && !('A' <= s[i] <= 'Z') ==> r[i] == s[i]
    ensures forall i :: 0 <= i < |s| && 'A' <= s[i] <= 'Z' ==> r[i] as int == s[i] as int + 32
  {
    seq(|s|, i requires 0 <= i < |s| => LowerChar(s[i]))
  }
}
