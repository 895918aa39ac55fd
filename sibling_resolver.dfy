/**
 * Which sibling directory of the analysed directory an import specifier
 * points into. The siblings are the directories next to the target (same
 * parent), the target itself excluded. A relative specifier is resolved
 * against the importing file's directory and classified by the first
 * segment of its path relative to the parent; any other specifier is
 * matched textually against the sibling names.
 */
module SiblingResolver {
  import opened Results
  import opened Strings
  import opened Paths

  /** One entry of the parent directory's listing. */
  datatype DirEntry = DirEntry(name: string, isDirectory: bool)

  /** The sibling directories, in listing order: the directories of the listing other than the target's own name. */
  function Siblings(listing: seq<DirEntry>, dirName: string): (sibs: seq<string>)
    ensures dirName !in sibs
    ensures forall s :: s in sibs <==> exists e :: e in listing && e.isDirectory && e.name == s && s != dirName
  {
    if listing == [] then []
    else
      var e := listing[0];
      (if e.isDirectory && e.name != dirName then [e.name] else []) + Siblings(listing[1..], dirName)
  }

  /**
   * The sibling filter keeps listing order and multiplicity: the siblings
   * of two listings one after the other are those of the first, then those
   * of the second, and a single entry gives its own name once or nothing.
   */
  lemma {:induction false} SiblingsAppend(a: seq<DirEntry>, b: seq<DirEntry>, dirName: string)
    ensures Siblings(a + b, dirName) == Siblings(a, dirName) + Siblings(b, dirName)
    ensures |a| == 1 ==> Siblings(a, dirName) == (if a[0].isDirectory && a[0].name != dirName then [a[0].name] else [])
    decreases a
  {
    if a == [] {
      assert a + b == b;
    } else {
      var head := if a[0].isDirectory && a[0].name != dirName then [a[0].name] else [];
      assert (a + b)[0] == a[0] && (a + b)[1..] == a[1..] + b;
      calc {
        Siblings(a + b, dirName);
        head + Siblings(a[1..] + b, dirName);
        { SiblingsAppend(a[1..], b, dirName); }
        head + (Siblings(a[1..], dirName) + Siblings(b, dirName));
        (head + Siblings(a[1..], dirName)) + Siblings(b, dirName);
        Siblings(a, dirName) + Siblings(b, dirName);
      }
      if |a| == 1 {
        assert a[1..] == [];
      }
    }
  }

  /** Everything one run classifies against: the target's parent directory and its siblings. */
  datatype Scope = Scope(parentDir: Path, siblings: seq<string>)

  /** The scope of a run on directory `target`, whose parent lists `listing`. */
  function ScopeOf(target: Path, listing: seq<DirEntry>): Scope {
    Scope(Dirname(target), Siblings(listing, Basename(target)))
  }

  /** A non-relative specifier names sibling `s` when it holds "/s/" or is exactly `s`. */
  predicate NamesSibling(spec: string, s: string) {
    Contains(spec, "/" + s + "/") || spec == s
  }

  /** The first sibling, in listing order, that the specifier names. */
  function FirstNamed(sibs: seq<string>, spec: string): (r: Option<string>)
    ensures r.None? <==> forall k :: 0 <= k < |sibs| ==> !NamesSibling(spec, sibs[k])
    ensures r.Some? ==> exists i :: (0 <= i < |sibs| && sibs[i] == r.value && NamesSibling(spec, r.value)
      && forall j :: 0 <= j < i ==> !NamesSibling(spec, sibs[j]))
  {
    if sibs == [] then None
    else if NamesSibling(spec, sibs[0]) then Some(sibs[0])
    else
      var r := FirstNamed(sibs[1..], spec);
      assert forall k :: 1 <= k < |sibs| ==> sibs[k] == sibs[1..][k - 1];
      r
  }

  predicate IsRelativeSpecifier(spec: string) {
    |spec| > 0 && spec[0] == '.'
  }

  /** The sibling directory an import of `spec` from a file in `fileDir` is reported under, if any. */
  function SiblingOf(scope: Scope, fileDir: Path, spec: string): Option<string> {
    if IsRelativeSpecifier(spec) then
      var head := FirstSegment(RelativeText(scope.parentDir, Resolve(fileDir, spec)));
      if head in scope.siblings then Some(head) else None
    else
      FirstNamed(scope.siblings, spec)
  }

  predicate AllSegments(names: seq<string>) {
    forall k :: 0 <= k < |names| ==> IsSegment(names[k])
  }

  /** `p` is the directory `dir/s` or lies below it. */
  predicate Inside(p: Path, dir: Path, s: string) {
    |p| > |dir| && p[..|dir|] == dir && p[|dir|] == s
  }

  /**
   * A relative import is reported under sibling `s` exactly when `s` is a
   * sibling and the imported path is that sibling or lies below it; it is
   * reported under no sibling exactly when it is at or below none of them.
   */
  lemma RelativeClassification(scope: Scope, fileDir: Path, spec: string)
    requires IsNormal(scope.parentDir) && IsNormal(fileDir) && AllSegments(scope.siblings)
    requires IsRelativeSpecifier(spec)
    ensures forall s :: SiblingOf(scope, fileDir, spec) == Some(s) <==>
      s in scope.siblings && Inside(Resolve(fileDir, spec), scope.parentDir, s)
    ensures SiblingOf(scope, fileDir, spec).None? <==>
      forall s :: s in scope.siblings ==> !Inside(Resolve(fileDir, spec), scope.parentDir, s)
  {
    var p := Resolve(fileDir, spec);
    var head := FirstSegment(RelativeText(scope.parentDir, p));
    forall s | s in scope.siblings
      ensures head == s <==> Inside(p, scope.parentDir, s)
    {
      var k :| 0 <= k < |scope.siblings| && scope.siblings[k] == s;
      RelativeHead(scope.parentDir, p, s);
    }
  }

  /** A relative import that resolves outside the parent directory, or to the parent itself, is never reported. */
  lemma RelativeOutsideParent(scope: Scope, fileDir: Path, spec: string)
    requires IsNormal(scope.parentDir) && IsNormal(fileDir) && AllSegments(scope.siblings)
    requires IsRelativeSpecifier(spec)
    requires |Resolve(fileDir, spec)| <= |scope.parentDir| || Resolve(fileDir, spec)[..|scope.parentDir|] != scope.parentDir
    ensures SiblingOf(scope, fileDir, spec) == None
  {
    RelativeClassification(scope, fileDir, spec);
  }

  /** A non-relative import is reported under the first sibling it names, and under none when it names none. */
  lemma BareClassification(scope: Scope, fileDir: Path, spec: string)
    requires !IsRelativeSpecifier(spec)
    ensures SiblingOf(scope, fileDir, spec).None? <==> forall s :: s in scope.siblings ==> !NamesSibling(spec, s)
    ensures SiblingOf(scope, fileDir, spec).Some? ==>
      exists i :: (0 <= i < |scope.siblings| && scope.siblings[i] == SiblingOf(scope, fileDir, spec).value
        && NamesSibling(spec, scope.siblings[i]) && forall j :: 0 <= j < i ==> !NamesSibling(spec, scope.siblings[j]))
  {
  }

  /** Whatever the specifier, the analysed directory itself is never reported as a sibling, and only listed directories are. */
  lemma NeverTheTarget(target: Path, listing: seq<DirEntry>, fileDir: Path, spec: string)
    ensures SiblingOf(ScopeOf(target, listing), fileDir, spec) != Some(Basename(target))
    ensures forall s :: SiblingOf(ScopeOf(target, listing), fileDir, spec) == Some(s) ==>
      exists e :: e in listing && e.isDirectory && e.name == s
  {
    var scope := ScopeOf(target, listing);
    if !IsRelativeSpecifier(spec) {
      match FirstNamed(scope.siblings, spec)
      case None =>
      case Some(s) =>
        var i :| 0 <= i < |scope.siblings| && scope.siblings[i] == s;
        assert s in scope.siblings;
    }
  }

  /** A package path that merely starts with a sibling's name, without a leading "/", is not a sibling import. */
  lemma PrefixWithoutSlashNotSibling(fileDir: Path)
    ensures SiblingOf(Scope(["src"], ["feature-b"]), fileDir, "feature-b/x") == None
  {
    var spec := "feature-b/x";
    var pat := "/feature-b/";
    forall i: nat | i <= |spec|
      ensures !OccursAt(spec, pat, i)
    {
      if i + |pat| <= |spec| {
        assert spec[i] != pat[0];
      }
    }
  }

  /** An aliased path holding "/feature-b/" is reported under that sibling. */
  lemma AliasedPathIsSibling(fileDir: Path)
    ensures SiblingOf(Scope(["src"], ["feature-b"]), fileDir, "@/feature-b/x") == Some("feature-b")
  {
    assert "/" + "feature-b" + "/" == "/feature-b/";
    assert OccursAt("@/feature-b/x", "/feature-b/", 1);
    assert NamesSibling("@/feature-b/x", "feature-b");
  }
}
