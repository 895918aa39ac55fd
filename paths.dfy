/**
 * POSIX path arithmetic on absolute paths held as segment sequences:
 * `path.dirname`, `path.basename`, `path.resolve` and `path.relative`,
 * with `/` as the separator. A `Path` lists the segments below the root,
 * so `/src/feature-a` is ["src", "feature-a"] and the root is [].
 */
module Paths {
  import opened Strings

  type Path = seq<string>

  /** A directory entry name: what a listing can return and a normal path is made of. */
  predicate IsSegment(s: string) {
    s != "" && s != "." && s != ".." && '/' !in s
  }

  predicate IsNormal(p: Path) {
    forall k :: 0 <= k < |p| ==> IsSegment(p[k])
  }

  /** `path.dirname`: the root is its own parent. */
  function Dirname(p: Path): Path {
    if p == [] then [] else p[..|p| - 1]
  }

  /** `path.basename`: the root has the empty name. */
  function Basename(p: Path): string {
    if p == [] then "" else p[|p| - 1]
  }

  /** The text of an absolute path, as `path.resolve` prints it. */
  function AbsoluteText(p: Path): string {
    "/" + Join(p, "/")
  }

  /** One step of normalisation: "" and "." stay, ".." goes up (never above the root), a name goes down. */
  function Step(base: Path, seg: string): Path {
    if seg == "" || seg == "." then base
    else if seg == ".." then Dirname(base)
    else base + [seg]
  }

  /** Apply the raw segments of a path text to `base`, left to right. */
  function Walk(base: Path, segs: seq<string>): (r: Path)
    ensures IsNormal(base) && (forall k :: 0 <= k < |segs| ==> '/' !in segs[k]) ==> IsNormal(r)
    decreases |segs|
  {
    if segs == [] then base else Walk(Step(base, segs[0]), segs[1..])
  }

  lemma NoSlashInPieces(s: string)
    ensures forall k :: 0 <= k < |Split(s, "/")| ==> '/' !in Split(s, "/")[k]
  {
    SplitPiecesLackSeparator(s, "/");
    forall k | 0 <= k < |Split(s, "/")|
      ensures '/' !in Split(s, "/")[k]
    {
      var x := Split(s, "/")[k];
      if '/' in x {
        var j :| 0 <= j < |x| && x[j] == '/';
        assert x[j..j + 1] == "/";
        assert OccursAt(x, "/", j);
      }
    }
  }

  /** `path.resolve(base, text)`: an absolute text starts again from the root. */
  function Resolve(base: Path, text: string): (r: Path)
    ensures IsNormal(base) ==> IsNormal(r)
  {
    NoSlashInPieces(text);
    if |text| > 0 && text[0] == '/' then Walk([], Split(text, "/"))
    else Walk(base, Split(text, "/"))
  }

  /** Length of the longest common prefix of two paths. */
  function CommonPrefixLength(a: Path, b: Path): (n: nat)
    ensures n <= |a| && n <= |b| && a[..n] == b[..n]
    ensures n < |a| && n < |b| ==> a[n] != b[n]
  {
    if a == [] || b == [] || a[0] != b[0] then 0
    else 1 + CommonPrefixLength(a[1..], b[1..])
  }

  function Ups(n: nat): (r: seq<string>)
    ensures |r| == n && forall k :: 0 <= k < n ==> r[k] == ".."
  {
    if n == 0 then [] else Ups(n - 1) + [".."]
  }

  /** `path.relative(from, to)` as segments: ".." for each segment of `from` below the common prefix, then the rest of `to`. */
  function Relative(from: Path, to: Path): seq<string> {
    var n := CommonPrefixLength(from, to);
    Ups(|from| - n) + to[n..]
  }

  /** The text `path.relative` returns. */
  function RelativeText(from: Path, to: Path): string {
    Join(Relative(from, to), "/")
  }

  lemma {:induction false} WalkAppend(base: Path, a: seq<string>, b: seq<string>)
    ensures Walk(base, a + b) == Walk(Walk(base, a), b)
    decreases |a|
  {
    if a != [] {
      assert (a + b)[1..] == a[1..] + b;
      WalkAppend(Step(base, a[0]), a[1..], b);
    } else {
      assert a + b == b;
    }
  }

  lemma {:induction false} WalkUps(base: Path, n: nat)
    requires n <= |base|
    ensures Walk(base, Ups(n)) == base[..|base| - n]
  {
    if n > 0 {
      WalkAppend(base, Ups(n - 1), [".."]);
      WalkUps(base, n - 1);
    }
  }

  lemma {:induction false} WalkNames(base: Path, names: seq<string>)
    requires IsNormal(names)
    ensures Walk(base, names) == base + names
    decreases |names|
  {
    if names != [] {
      WalkNames(base + [names[0]], names[1..]);
      assert base + [names[0]] + names[1..] == base + names;
    }
  }

  /** Walking the relative segments from `from` arrives at `to`. */
  lemma WalkRelative(from: Path, to: Path)
    requires IsNormal(to)
    ensures Walk(from, Relative(from, to)) == to
  {
    var n := CommonPrefixLength(from, to);
    var rest := to[n..];
    assert IsNormal(rest);
    calc {
      Walk(from, Relative(from, to));
      Walk(from, Ups(|from| - n) + rest);
      { WalkAppend(from, Ups(|from| - n), rest); }
      Walk(Walk(from, Ups(|from| - n)), rest);
      { WalkUps(from, |from| - n); }
      Walk(from[..n], rest);
      { WalkNames(from[..n], rest); }
      from[..n] + rest;
      to[..n] + to[n..];
      { assert to[..n] + to[n..] == to; }
      to;
    }
  }

  /** Every segment of a relative path is ".." or a name of `to`. */
  lemma RelativeSegments(from: Path, to: Path)
    requires IsNormal(to)
    ensures forall k :: 0 <= k < |Relative(from, to)| ==>
      Relative(from, to)[k] != "" && '/' !in Relative(from, to)[k]
  {
    var n := CommonPrefixLength(from, to);
    var rel := Relative(from, to);
    forall k | 0 <= k < |rel|
      ensures rel[k] != "" && '/' !in rel[k]
    {
      if k >= |from| - n {
        assert rel[k] == to[n + k - (|from| - n)];
      }
    }
  }

  /** Resolving the text of segments that hold no "/" walks exactly those segments. */
  lemma ResolveJoined(base: Path, segs: seq<string>)
    requires forall k :: 0 <= k < |segs| ==> segs[k] != "" && '/' !in segs[k]
    ensures Resolve(base, Join(segs, "/")) == Walk(base, segs)
  {
    var text := Join(segs, "/");
    if segs == [] {
      assert Split("", "/") == [""];
      assert Walk(base, [""]) == Walk(Step(base, ""), []);
    } else {
      SplitOfJoin(segs, "/");
    }
  }

  /** `path.resolve(from, path.relative(from, to))` is `to`. */
  lemma ResolveRelative(from: Path, to: Path)
    requires IsNormal(to)
    ensures Resolve(from, RelativeText(from, to)) == to
  {
    RelativeSegments(from, to);
    ResolveJoined(from, Relative(from, to));
    WalkRelative(from, to);
  }

  /** `text.split("/")[0]`: the first segment of a relative path text. */
  function FirstSegment(text: string): string {
    Split(text, "/")[0]
  }

  /**
   * The first segment of `path.relative(parent, p)` is the name `s` exactly
   * when `p` is the directory `parent/s` or lies below it.
   */
  lemma RelativeHead(parent: Path, p: Path, s: string)
    requires IsNormal(parent) && IsNormal(p) && IsSegment(s)
    ensures FirstSegment(RelativeText(parent, p)) == s
        <==> |p| > |parent| && p[..|parent|] == parent && p[|parent|] == s
  {
    var n := CommonPrefixLength(parent, p);
    var rel := Relative(parent, p);
    if rel == [] {
      assert Split("", "/") == [""];
      assert |p| == n == |parent|;
    } else {
      assert forall k :: 0 <= k < |rel| ==> '/' !in rel[k] by {
        forall k | 0 <= k < |rel| ensures '/' !in rel[k] {
          if k >= |parent| - n {
            assert rel[k] == p[n + k - (|parent| - n)];
          }
        }
      }
      SplitOfJoin(rel, "/");
      assert FirstSegment(RelativeText(parent, p)) == rel[0];
      if n < |parent| {
        assert rel[0] == "..";
      } else {
        assert rel == p[n..];
        assert parent == p[..n];
      }
    }
  }
}
