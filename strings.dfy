/**
 * The JavaScript string operations the analysers rely on: `indexOf`,
 * `includes`, `split` with a string separator, `Array.prototype.join`,
 * `trim`, and the whitespace and line-terminator classes of regular
 * expressions. Strings are sequences of characters.
 */
module Strings {
  import opened Results

  /** `pat` occurs in `s` starting at index `i`. */
  predicate OccursAt(s: string, pat: string, i: nat) {
    i + |pat| <= |s| && s[i..i + |pat|] == pat
  }

  /** `s.startsWith(pat)`. */
  predicate StartsWith(s: string, pat: string) {
    OccursAt(s, pat, 0)
  }

  /** `s.endsWith(pat)`. */
  predicate EndsWith(s: string, pat: string) {
    |pat| <= |s| && OccursAt(s, pat, |s| - |pat|)
  }

  /** `s.includes(pat)`. */
  predicate Contains(s: string, pat: string) {
    exists i: nat :: i <= |s| && OccursAt(s, pat, i)
  }

  /** `s.indexOf(pat, from)`: the first occurrence at or after `from`. */
  function FindFrom(s: string, pat: string, from: nat): (r: Option<nat>)
    ensures r.Some? ==> from <= r.value && OccursAt(s, pat, r.value)
    ensures forall j: nat :: from <= j && (r.None? || j < r.value) ==> !OccursAt(s, pat, j)
    decreases |s| - from
  {
    if from + |pat| > |s| then None
    else if s[from..from + |pat|] == pat then Some(from)
    else FindFrom(s, pat, from + 1)
  }

  /** `s.indexOf(pat)`. */
  function Find(s: string, pat: string): (r: Option<nat>)
    ensures r.Some? ==> OccursAt(s, pat, r.value)
    ensures forall j: nat :: (r.None? || j < r.value) ==> !OccursAt(s, pat, j)
  {
    FindFrom(s, pat, 0)
  }

  /** An occurrence with none before it is the one `Find` reports. */
  lemma FindIs(s: string, pat: string, i: nat)
    requires OccursAt(s, pat, i)
    requires forall j: nat :: j < i ==> !OccursAt(s, pat, j)
    ensures Find(s, pat) == Some(i)
  {
  }

  /** Appending text after an occurrence does not change where the first one is. */
  lemma {:induction false} FindInPrefix(a: string, b: string, pat: string, i: nat)
    requires Find(a, pat) == Some(i) && i + |pat| <= |a|
    ensures Find(a + b, pat) == Some(i)
  {
    var s := a + b;
    assert s[i..i + |pat|] == a[i..i + |pat|];
    forall j: nat | j < i
      ensures !OccursAt(s, pat, j)
    {
      assert !OccursAt(a, pat, j);
      assert s[j..j + |pat|] == a[j..j + |pat|];
    }
    FindIs(s, pat, i);
  }

  /** No occurrence lies inside the text before the first one. */
  lemma BeforeFirstHasNone(s: string, pat: string, i: nat)
    requires pat != "" && Find(s, pat) == Some(i)
    ensures !Contains(s[..i], pat)
  {
    forall j: nat | j <= i
      ensures !OccursAt(s[..i], pat, j)
    {
      if j + |pat| <= i {
        assert j < i && !OccursAt(s, pat, j);
        assert s[..i][j..j + |pat|] == s[j..j + |pat|];
      }
    }
  }

  /** `s.split(sep)` for a non-empty separator string. */
  function Split(s: string, sep: string): (parts: seq<string>)
    requires sep != ""
    ensures |parts| >= 1
    decreases |s|
  {
    match Find(s, sep)
    case None => [s]
    case Some(i) => [s[..i]] + Split(s[i + |sep|..], sep)
  }

  /** No piece of a split holds the separator. */
  lemma {:induction false} SplitPiecesLackSeparator(s: string, sep: string)
    requires sep != ""
    ensures forall k :: 0 <= k < |Split(s, sep)| ==> !Contains(Split(s, sep)[k], sep)
    decreases |s|
  {
    match Find(s, sep)
    case None =>
    case Some(i) =>
      BeforeFirstHasNone(s, sep, i);
      SplitPiecesLackSeparator(s[i + |sep|..], sep);
  }

  /** `xs.join(sep)`. */
  function Join(xs: seq<string>, sep: string): string {
    if |xs| == 0 then ""
    else if |xs| == 1 then xs[0]
    else xs[0] + sep + Join(xs[1..], sep)
  }

  lemma JoinCons(x: string, xs: seq<string>, sep: string)
    requires xs != []
    ensures Join([x] + xs, sep) == x + sep + Join(xs, sep)
  {
    assert ([x] + xs)[1..] == xs;
  }

  /** Joining the pieces of a split gives back the string that was split. */
  lemma {:induction false} JoinOfSplit(s: string, sep: string)
    requires sep != ""
    ensures Join(Split(s, sep), sep) == s
    decreases |s|
  {
    var f := Find(s, sep);
    if f.Some? {
      var i := f.value;
      var rest := s[i + |sep|..];
      var pieces := Split(rest, sep);
      assert Split(s, sep) == [s[..i]] + pieces;
      JoinOfSplit(rest, sep);
      JoinCons(s[..i], pieces, sep);
      assert s[i..i + |sep|] == sep;
      assert s == s[..i] + sep + rest;
    }
  }

  /**
   * Splitting a join gives back the pieces, provided no piece holds the
   * separator's first character (so no occurrence starts inside a piece).
   */
  lemma {:induction false} SplitOfJoin(xs: seq<string>, sep: string)
    requires xs != [] && sep != ""
    requires forall k :: 0 <= k < |xs| ==> sep[0] !in xs[k]
    ensures Split(Join(xs, sep), sep) == xs
  {
    var x := xs[0];
    if |xs| == 1 {
      forall j: nat | j < |x|
        ensures !OccursAt(x, sep, j)
      {
        assert x[j] in x;
      }
      assert Find(x, sep).None?;
    } else {
      var s := Join(xs, sep);
      var rest := Join(xs[1..], sep);
      assert s == x + sep + rest;
      forall j: nat | j < |x|
        ensures !OccursAt(s, sep, j)
      {
        assert s[j] == x[j];
        assert x[j] in x;
      }
      assert s[|x|..|x| + |sep|] == sep;
      FindIs(s, sep, |x|);
      assert s[|x| + |sep|..] == rest;
      SplitOfJoin(xs[1..], sep);
      assert s[..|x|] == x;
    }
  }

  /** WhiteSpace and LineTerminator code points: what `\s` matches and `trim` removes. */
  predicate IsSpace(c: char) {
    c in SpaceChars
  }

  const SpaceChars: set<char> := {'\t', '\n', '\U{000B}', '\U{000C}', '\r', ' ', '\U{00A0}', '\U{1680}',
          '\U{2000}', '\U{2001}', '\U{2002}', '\U{2003}', '\U{2004}', '\U{2005}',
          '\U{2006}', '\U{2007}', '\U{2008}', '\U{2009}', '\U{200A}', '\U{2028}',
          '\U{2029}', '\U{202F}', '\U{205F}', '\U{3000}', '\U{FEFF}'}

  /** LineTerminator code points: the characters `.` does not match. */
  predicate IsLineTerminator(c: char) {
    c in {'\n', '\r', '\U{2028}', '\U{2029}'}
  }

  predicate AllSpace(s: string) {
    forall k :: 0 <= k < |s| ==> IsSpace(s[k])
  }

  predicate NoSpace(s: string) {
    forall k :: 0 <= k < |s| ==> !IsSpace(s[k])
  }

  lemma SpaceAt(s: string, k: nat)
    requires AllSpace(s) && k < |s|
    ensures IsSpace(s[k])
  {
  }

  lemma SpacePrefix(s: string, n: nat)
    requires 0 < n <= |s| && IsSpace(s[0]) && AllSpace(s[1..][..n - 1])
    ensures AllSpace(s[..n])
  {
    forall k | 0 <= k < n ensures IsSpace(s[..n][k]) {
      if k > 0 {
        assert s[..n][k] == s[1..][..n - 1][k - 1];
      }
    }
  }

  lemma SpaceSuffix(s: string, n: nat)
    requires n < |s| && IsSpace(s[|s| - 1]) && AllSpace(s[..|s| - 1][n..])
    ensures AllSpace(s[n..])
  {
    forall k | 0 <= k < |s| - n ensures IsSpace(s[n..][k]) {
      if k < |s| - 1 - n {
        assert s[n..][k] == s[..|s| - 1][n..][k];
      }
    }
  }

  /** `s.trimStart()`: the suffix left after dropping leading whitespace. */
  function TrimStart(s: string): (r: string)
    ensures |r| <= |s| && r == s[|s| - |r|..]
    ensures AllSpace(s[..|s| - |r|])
    ensures r == "" || !IsSpace(r[0])
  {
    if |s| > 0 && IsSpace(s[0]) then
      var r := TrimStart(s[1..]);
      var t := s[1..];
      assert r == t[|t| - |r|..];
      assert t[|t| - |r|..] == s[|s| - |r|..];
      SpacePrefix(s, |s| - |r|);
      r
    else s
  }

  /** `s.trimEnd()`: the prefix left after dropping trailing whitespace. */
  function TrimEnd(s: string): (r: string)
    ensures |r| <= |s| && r == s[..|r|]
    ensures AllSpace(s[|r|..])
    ensures r == "" || !IsSpace(r[|r| - 1])
  {
    if |s| > 0 && IsSpace(s[|s| - 1]) then
      var r := TrimEnd(s[..|s| - 1]);
      SpaceSuffix(s, |r|);
      r
    else s
  }

  /** `s.trim()`. */
  function Trim(s: string): string {
    TrimEnd(TrimStart(s))
  }

  /** Trimming the start removes exactly a whitespace prefix in front of a text that does not start with whitespace. */
  lemma {:induction false} TrimStartPadded(pre: string, y: string)
    requires AllSpace(pre) && (y == "" || !IsSpace(y[0]))
    ensures TrimStart(pre + y) == y
    decreases |pre|
  {
    if pre == [] {
      assert pre + y == y;
    } else {
      assert (pre + y)[0] == pre[0] && (pre + y)[1..] == pre[1..] + y;
      TrimStartPadded(pre[1..], y);
    }
  }

  /** Trimming the end removes exactly a whitespace suffix behind a text that does not end with whitespace. */
  lemma {:induction false} TrimEndPadded(x: string, post: string)
    requires AllSpace(post) && (x == "" || !IsSpace(x[|x| - 1]))
    ensures TrimEnd(x + post) == x
    decreases |post|
  {
    if post == [] {
      assert x + post == x;
    } else {
      var s := x + post;
      assert s[|s| - 1] == post[|post| - 1];
      assert s[..|s| - 1] == x + post[..|post| - 1];
      TrimEndPadded(x, post[..|post| - 1]);
    }
  }

  /** Trimming removes exactly the whitespace padding around a text that neither starts nor ends with whitespace. */
  lemma TrimPadded(pre: string, x: string, post: string)
    requires AllSpace(pre) && AllSpace(post)
    requires x == "" || (!IsSpace(x[0]) && !IsSpace(x[|x| - 1]))
    ensures Trim(pre + x + post) == x
  {
    if x == "" {
      assert pre + x + post == (pre + post) + "";
      assert AllSpace(pre + post) by {
        forall k | 0 <= k < |pre + post| ensures IsSpace((pre + post)[k]) {
          if k < |pre| { SpaceAt(pre, k); } else { SpaceAt(post, k - |pre|); }
        }
      }
      TrimStartPadded(pre + post, "");
    } else {
      assert pre + x + post == pre + (x + post);
      TrimStartPadded(pre, x + post);
      TrimEndPadded(x, post);
    }
  }
}
