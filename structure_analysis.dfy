/**
 * `analyzeStructure`: every directory below the target is visited once,
 * depth first in listing order. A directory holding more than one
 * component file (a `.tsx` or `.jsx` file whose name does not start with
 * "index.") is a violation unless its name is one of the skipped names.
 * The result lists the violations in visiting order and mirrors the
 * directory tree with one statistics record per visited directory.
 *
 * The file system is an input: the target's entry, with the entries of
 * each directory in the order the listing returns them.
 */
module StructureAnalysis {
  import opened Results
  import opened Strings
  import opened Paths

  /** A directory entry as `statSync` sees it: a file, a directory with its own listing, or neither. */
  datatype Entry =
    | FileEntry(name: string)
    | DirectoryEntry(name: string, entries: seq<Entry>)
    | OtherEntry(name: string)

  /** A component file: a `.tsx` or `.jsx` file that is not an index file. */
  predicate IsComponentFile(e: Entry) {
    e.FileEntry? && (EndsWith(e.name, ".tsx") || EndsWith(e.name, ".jsx")) && !StartsWith(e.name, "index.")
  }

  /** The names of the component files of a listing, in listing order. */
  function ComponentFiles(entries: seq<Entry>): (files: seq<string>)
    ensures |files| <= |entries|
    ensures forall f :: f in files <==> exists e :: e in entries && IsComponentFile(e) && e.name == f
  {
    if entries == [] then []
    else
      assert forall e :: e in entries <==> e == entries[0] || e in entries[1..];
      (if IsComponentFile(entries[0]) then [entries[0].name] else []) + ComponentFiles(entries[1..])
  }

  const MultipleComponents := "multiple-components"
  const ViolationPrefix := "Directory contains multiple component files: "

  /** One violation; `kind` is the record's `type` property. */
  datatype Violation = Violation(kind: string, directory: string, files: seq<string>, message: string)

  /** The statistics of one directory; a subdirectory skipped by the guard is `None` (`undefined`). */
  datatype DirStats = DirStats(
    directory: string,
    componentFiles: seq<string>,
    subDirectories: seq<Option<DirStats>>,
    hasViolation: bool,
    violationType: Option<string>)

  /** What the walk keeps across directories: the directories visited and the violations found. */
  datatype State = State(processed: set<Path>, violations: seq<Violation>)

  /** A directory with `files` as component files is a violation unless its name is skipped. */
  predicate IsViolation(skip: seq<string>, dir: Path, files: seq<string>) {
    |files| > 1 && Basename(dir) !in skip
  }

  function ViolationAt(cwd: Path, dir: Path, files: seq<string>): Violation {
    Violation(MultipleComponents, RelativeText(cwd, dir), files, ViolationPrefix + Join(files, ", "))
  }

  function StatsAt(cwd: Path, skip: seq<string>, dir: Path, files: seq<string>, subs: seq<Option<DirStats>>): DirStats {
    var flagged := IsViolation(skip, dir, files);
    DirStats(RelativeText(cwd, dir), if flagged then files else [], subs, flagged,
      if flagged then Some(MultipleComponents) else None)
  }

  /** `processDirectory(dir)` for directory entry `e` at path `dir`, from state `st`. */
  function ProcessDir(cwd: Path, skip: seq<string>, dir: Path, e: Entry, st: State): (Option<DirStats>, State)
    requires e.DirectoryEntry?
    decreases e
  {
    if dir in st.processed then (None, st)
    else
      var files := ComponentFiles(e.entries);
      var found := if IsViolation(skip, dir, files) then st.violations + [ViolationAt(cwd, dir, files)] else st.violations;
      var (subs, st') := ProcessSubdirs(cwd, skip, dir, e.entries, State(st.processed + {dir}, found));
      (Some(StatsAt(cwd, skip, dir, files, subs)), st')
  }

  /** The loop over a listing: each directory entry is processed in turn and its result collected. */
  function ProcessSubdirs(cwd: Path, skip: seq<string>, dir: Path, entries: seq<Entry>, st: State): (seq<Option<DirStats>>, State)
    decreases entries
  {
    if entries == [] then ([], st)
    else if entries[0].DirectoryEntry? then
      var (s, st1) := ProcessDir(cwd, skip, dir + [entries[0].name], entries[0], st);
      var (rest, st2) := ProcessSubdirs(cwd, skip, dir, entries[1..], st1);
      ([s] + rest, st2)
    else
      ProcessSubdirs(cwd, skip, dir, entries[1..], st)
  }

  /** The analyser's state while it walks one target. */
  class StructureAnalyzer {
    const cwd: Path
    const skipDirs: seq<string>
    var violations: seq<Violation>
    var processedDirs: set<Path>

    constructor(cwd: Path, skipDirs: seq<string>)
      ensures this.cwd == cwd && this.skipDirs == skipDirs && violations == [] && processedDirs == {}
    {
      this.cwd := cwd;
      this.skipDirs := skipDirs;
      violations := [];
      processedDirs := {};
    }

    /** `processDirectory(dir)`. */
    method ProcessDirectory(dir: Path, e: Entry) returns (stats: Option<DirStats>)
      requires e.DirectoryEntry?
      modifies this
      decreases e
      ensures (stats, State(processedDirs, violations)) == ProcessDir(cwd, skipDirs, dir, e, State(old(processedDirs), old(violations)))
    {
      if dir in processedDirs {
        return None;
      }
      processedDirs := processedDirs + {dir};
      var items := e.entries;
      var componentFiles := ComponentFiles(items);
      if |componentFiles| > 1 {
        var dirName := Basename(dir);
        if dirName !in skipDirs {
          violations := violations + [ViolationAt(cwd, dir, componentFiles)];
        }
      }
      var subDirectories := ProcessEntries(dir, items);
      stats := Some(StatsAt(cwd, skipDirs, dir, componentFiles, subDirectories));
    }

    /** `items.forEach(...)`: each directory entry of a listing is processed in turn and its result collected. */
    method ProcessEntries(dir: Path, items: seq<Entry>) returns (subDirectories: seq<Option<DirStats>>)
      modifies this
      decreases items
      ensures (subDirectories, State(processedDirs, violations)) ==
        ProcessSubdirs(cwd, skipDirs, dir, items, State(old(processedDirs), old(violations)))
    {
      ghost var start := State(processedDirs, violations);
      subDirectories := [];
      var i := 0;
      assert items[0..] == items;
      assert [] + ProcessSubdirs(cwd, skipDirs, dir, items, start).0 == ProcessSubdirs(cwd, skipDirs, dir, items, start).0;
      while i < |items|
        invariant 0 <= i <= |items|
        invariant ProcessSubdirs(cwd, skipDirs, dir, items, start).0 ==
          subDirectories + ProcessSubdirs(cwd, skipDirs, dir, items[i..], State(processedDirs, violations)).0
        invariant ProcessSubdirs(cwd, skipDirs, dir, items, start).1 ==
          ProcessSubdirs(cwd, skipDirs, dir, items[i..], State(processedDirs, violations)).1
      {
        var item := items[i];
        assert items[i..][0] == item && items[i..][1..] == items[i + 1..];
        ghost var before := State(processedDirs, violations);
        if item.DirectoryEntry? {
          var sub := ProcessDirectory(dir + [item.name], item);
          var rest := ProcessSubdirs(cwd, skipDirs, dir, items[i + 1..], State(processedDirs, violations));
          assert ProcessSubdirs(cwd, skipDirs, dir, items[i..], before) == ([sub] + rest.0, rest.1);
          assert subDirectories + ([sub] + rest.0) == (subDirectories + [sub]) + rest.0;
          subDirectories := subDirectories + [sub];
        }
        i := i + 1;
      }
      assert items[|items|..] == [];
      assert subDirectories + [] == subDirectories;
    }
  }

  const DefaultSkipDirectories: seq<string> := ["components"]

  /** What `analyzeStructure` returns. */
  datatype StructureReport = StructureReport(
    targetDirectory: string,
    analyzedAt: string,
    skipDirectories: seq<string>,
    violations: seq<Violation>,
    structure: DirStats)

  /**
   * `analyzeStructure(target, { skipDirectories })`: a missing target is an
   * error, and so is a target that cannot be listed; otherwise the whole
   * tree is walked from a fresh state. No skip list means the default one;
   * any list given, even an empty one, is used as it is.
   */
  method AnalyzeStructure(target: Path, root: Option<Entry>, skipDirectories: Option<seq<string>>,
                          cwd: Path, analyzedAt: string)
    returns (r: Result<StructureReport>)
    ensures root.None? ==> r == Err("Directory not found: " + AbsoluteText(target))
    ensures root.Some? && !root.value.DirectoryEntry? ==>
      r == Err("ENOTDIR: not a directory, scandir '" + AbsoluteText(target) + "'")
    ensures root.Some? && root.value.DirectoryEntry? ==>
      var skip := if skipDirectories.Some? then skipDirectories.value else DefaultSkipDirectories;
      var walk := ProcessDir(cwd, skip, target, root.value, State({}, []));
      walk.0.Some? && r == Ok(StructureReport(AbsoluteText(target), analyzedAt, skip, walk.1.violations, walk.0.value))
  {
    if root.None? {
      return Err("Directory not found: " + AbsoluteText(target));
    }
    if !root.value.DirectoryEntry? {
      return Err("ENOTDIR: not a directory, scandir '" + AbsoluteText(target) + "'");
    }
    var skipDirs := if skipDirectories.Some? then skipDirectories.value else DefaultSkipDirectories;
    var analyzer := new StructureAnalyzer(cwd, skipDirs);
    var structure := analyzer.ProcessDirectory(target, root.value);
    r := Ok(StructureReport(AbsoluteText(target), analyzedAt, skipDirs, analyzer.violations, structure.value));
  }

  /** Names in one listing are distinct. */
  predicate DistinctNames(es: seq<Entry>) {
    forall i, j :: 0 <= i < j < |es| ==> es[i].name != es[j].name
  }

  /** A directory tree as a file system has it: every listing has distinct names. */
  predicate WellFormed(e: Entry)
    decreases e
  {
    match e
    case DirectoryEntry(_, es) => DistinctNames(es) && forall k :: 0 <= k < |es| ==> WellFormed(es[k])
    case _ => true
  }

  /** The statistics of a tree, read off the tree alone: every subdirectory present, none skipped by the guard. */
  function Stats(cwd: Path, skip: seq<string>, dir: Path, e: Entry): DirStats
    requires e.DirectoryEntry?
    decreases e
  {
    StatsAt(cwd, skip, dir, ComponentFiles(e.entries), StatsAll(cwd, skip, dir, e.entries))
  }

  function StatsAll(cwd: Path, skip: seq<string>, dir: Path, es: seq<Entry>): seq<Option<DirStats>>
    decreases es
  {
    if es == [] then []
    else
      (if es[0].DirectoryEntry? then [Some(Stats(cwd, skip, dir + [es[0].name], es[0]))] else [])
      + StatsAll(cwd, skip, dir, es[1..])
  }

  /** The violations of a tree, read off the tree alone: the flagged directories in pre-order. */
  function Flagged(cwd: Path, skip: seq<string>, dir: Path, e: Entry): seq<Violation>
    requires e.DirectoryEntry?
    decreases e
  {
    var files := ComponentFiles(e.entries);
    (if IsViolation(skip, dir, files) then [ViolationAt(cwd, dir, files)] else [])
    + FlaggedAll(cwd, skip, dir, e.entries)
  }

  function FlaggedAll(cwd: Path, skip: seq<string>, dir: Path, es: seq<Entry>): seq<Violation>
    decreases es
  {
    if es == [] then []
    else
      (if es[0].DirectoryEntry? then Flagged(cwd, skip, dir + [es[0].name], es[0]) else [])
      + FlaggedAll(cwd, skip, dir, es[1..])
  }

  /** The paths of the directories of a tree. */
  function DirPaths(dir: Path, e: Entry): set<Path>
    requires e.DirectoryEntry?
    decreases e
  {
    {dir} + DirPathsAll(dir, e.entries)
  }

  function DirPathsAll(dir: Path, es: seq<Entry>): set<Path>
    decreases es
  {
    if es == [] then {}
    else (if es[0].DirectoryEntry? then DirPaths(dir + [es[0].name], es[0]) else {}) + DirPathsAll(dir, es[1..])
  }

  /** `p` is `dir` or lies below it. */
  predicate Under(p: Path, dir: Path) {
    |dir| <= |p| && p[..|dir|] == dir
  }

  predicate NothingUnder(processed: set<Path>, dir: Path) {
    forall p :: p in processed ==> !Under(p, dir)
  }

  lemma {:induction false} DirPathsUnder(dir: Path, e: Entry)
    requires e.DirectoryEntry?
    ensures forall p :: p in DirPaths(dir, e) ==> Under(p, dir)
    decreases e
  {
    DirPathsAllUnder(dir, e.entries);
  }

  /** Every directory below a listing lies under one of the listing's directory entries. */
  lemma {:induction false} DirPathsAllUnder(dir: Path, es: seq<Entry>)
    ensures forall p :: p in DirPathsAll(dir, es) ==>
      exists k :: 0 <= k < |es| && es[k].DirectoryEntry? && Under(p, dir + [es[k].name])
    decreases es
  {
    if es != [] {
      if es[0].DirectoryEntry? {
        DirPathsUnder(dir + [es[0].name], es[0]);
      }
      DirPathsAllUnder(dir, es[1..]);
      forall p | p in DirPathsAll(dir, es[1..])
        ensures exists k :: 0 <= k < |es| && es[k].DirectoryEntry? && Under(p, dir + [es[k].name])
      {
        var k :| 0 <= k < |es[1..]| && es[1..][k].DirectoryEntry? && Under(p, dir + [es[1..][k].name]);
        assert es[k + 1] == es[1..][k];
      }
    }
  }

  /** Paths under two differently named children of one directory are different. */
  lemma UnderDistinct(p: Path, dir: Path, a: string, b: string)
    requires Under(p, dir + [a]) && Under(p, dir + [b])
    ensures a == b
  {
    assert p[|dir|] == (dir + [a])[|dir|] == (dir + [b])[|dir|];
  }

  /**
   * On a real tree the guard never fires: from any state that has visited
   * nothing under `dir`, processing `dir` yields the statistics and
   * violations read off the tree, and marks exactly the tree's directories
   * as visited.
   */
  lemma {:induction false} ProcessDirTree(cwd: Path, skip: seq<string>, dir: Path, e: Entry, st: State)
    requires e.DirectoryEntry? && WellFormed(e) && NothingUnder(st.processed, dir)
    ensures ProcessDir(cwd, skip, dir, e, st) ==
      (Some(Stats(cwd, skip, dir, e)),
       State(st.processed + DirPaths(dir, e), st.violations + Flagged(cwd, skip, dir, e)))
    decreases e
  {
    assert Under(dir, dir);
    var files := ComponentFiles(e.entries);
    var flagged := if IsViolation(skip, dir, files) then [ViolationAt(cwd, dir, files)] else [];
    var st1 := State(st.processed + {dir}, st.violations + flagged);
    assert st.violations + [] == st.violations;
    forall k | 0 <= k < |e.entries|
      ensures NothingUnder(st1.processed, dir + [e.entries[k].name])
    {
      assert !Under(dir, dir + [e.entries[k].name]);
    }
    ProcessSubdirsTree(cwd, skip, dir, e.entries, st1);
    assert st.processed + {dir} + DirPathsAll(dir, e.entries) == st.processed + DirPaths(dir, e);
    assert st.violations + flagged + FlaggedAll(cwd, skip, dir, e.entries)
      == st.violations + Flagged(cwd, skip, dir, e);
  }

  lemma {:induction false} ProcessSubdirsTree(cwd: Path, skip: seq<string>, dir: Path, es: seq<Entry>, st: State)
    requires DistinctNames(es) && forall k :: 0 <= k < |es| ==> WellFormed(es[k])
    requires forall k :: 0 <= k < |es| ==> NothingUnder(st.processed, dir + [es[k].name])
    ensures ProcessSubdirs(cwd, skip, dir, es, st) ==
      (StatsAll(cwd, skip, dir, es),
       State(st.processed + DirPathsAll(dir, es), st.violations + FlaggedAll(cwd, skip, dir, es)))
    decreases es, 1
  {
    if es != [] {
      if es[0].DirectoryEntry? {
        ProcessSubdirsTreeFirst(cwd, skip, dir, es, st);
      } else {
        var rest := es[1..];
        assert forall k :: 0 <= k < |rest| ==> rest[k] == es[k + 1];
        ProcessSubdirsTree(cwd, skip, dir, rest, st);
        assert StatsAll(cwd, skip, dir, es) == [] + StatsAll(cwd, skip, dir, rest) == StatsAll(cwd, skip, dir, rest);
        assert FlaggedAll(cwd, skip, dir, es) == [] + FlaggedAll(cwd, skip, dir, rest) == FlaggedAll(cwd, skip, dir, rest);
        assert DirPathsAll(dir, es) == DirPathsAll(dir, rest);
      }
    } else {
      assert st.processed + {} == st.processed && st.violations + [] == st.violations;
    }
  }

  /** The step of `ProcessSubdirsTree` for a listing that starts with a directory. */
  lemma {:induction false} ProcessSubdirsTreeFirst(cwd: Path, skip: seq<string>, dir: Path, es: seq<Entry>, st: State)
    requires es != [] && es[0].DirectoryEntry?
    requires DistinctNames(es) && forall k :: 0 <= k < |es| ==> WellFormed(es[k])
    requires forall k :: 0 <= k < |es| ==> NothingUnder(st.processed, dir + [es[k].name])
    ensures ProcessSubdirs(cwd, skip, dir, es, st) ==
      (StatsAll(cwd, skip, dir, es),
       State(st.processed + DirPathsAll(dir, es), st.violations + FlaggedAll(cwd, skip, dir, es)))
    decreases es, 0
  {
    var rest := es[1..];
    var sub := dir + [es[0].name];
    assert forall k :: 0 <= k < |rest| ==> rest[k] == es[k + 1];
    ProcessDirTree(cwd, skip, sub, es[0], st);
    var st1 := State(st.processed + DirPaths(sub, es[0]), st.violations + Flagged(cwd, skip, sub, es[0]));
    FreshAfterFirst(dir, es, st.processed);
    assert DistinctNames(rest);
    ProcessSubdirsTree(cwd, skip, dir, rest, st1);
    SubdirsStartingWithDirectory(cwd, skip, dir, es, st);
    ListingStartingWithDirectory(cwd, skip, dir, es);
    var fl := Flagged(cwd, skip, sub, es[0]);
    var fr := FlaggedAll(cwd, skip, dir, rest);
    assert st.violations + fl + fr == st.violations + (fl + fr);
    var pd := DirPaths(sub, es[0]);
    var pr := DirPathsAll(dir, rest);
    assert st.processed + pd + pr == st.processed + (pd + pr);
    var r1 := ProcessSubdirs(cwd, skip, dir, rest, st1);
    assert ProcessSubdirs(cwd, skip, dir, es, st) == ([Some(Stats(cwd, skip, sub, es[0]))] + r1.0, r1.1);
  }

  /** `ProcessSubdirs` on a listing whose first entry is a directory: that directory first, then the rest. */
  lemma SubdirsStartingWithDirectory(cwd: Path, skip: seq<string>, dir: Path, es: seq<Entry>, st: State)
    requires es != [] && es[0].DirectoryEntry?
    ensures var (s, st1) := ProcessDir(cwd, skip, dir + [es[0].name], es[0], st);
      ProcessSubdirs(cwd, skip, dir, es, st) ==
        ([s] + ProcessSubdirs(cwd, skip, dir, es[1..], st1).0, ProcessSubdirs(cwd, skip, dir, es[1..], st1).1)
  {
  }

  /** The tree functions on a listing whose first entry is a directory. */
  lemma ListingStartingWithDirectory(cwd: Path, skip: seq<string>, dir: Path, es: seq<Entry>)
    requires es != [] && es[0].DirectoryEntry?
    ensures StatsAll(cwd, skip, dir, es) == [Some(Stats(cwd, skip, dir + [es[0].name], es[0]))] + StatsAll(cwd, skip, dir, es[1..])
    ensures DirPathsAll(dir, es) == DirPaths(dir + [es[0].name], es[0]) + DirPathsAll(dir, es[1..])
    ensures FlaggedAll(cwd, skip, dir, es) == Flagged(cwd, skip, dir + [es[0].name], es[0]) + FlaggedAll(cwd, skip, dir, es[1..])
  {
  }

  /** Once the first directory of a listing is processed, nothing under its siblings has been visited yet. */
  lemma FreshAfterFirst(dir: Path, es: seq<Entry>, processed: set<Path>)
    requires |es| > 0 && es[0].DirectoryEntry? && DistinctNames(es)
    requires forall k :: 0 <= k < |es| ==> NothingUnder(processed, dir + [es[k].name])
    ensures forall k :: 1 <= k < |es| ==> NothingUnder(processed + DirPaths(dir + [es[0].name], es[0]), dir + [es[k].name])
  {
    DirPathsUnder(dir + [es[0].name], es[0]);
    forall k, p | 1 <= k < |es| && p in DirPaths(dir + [es[0].name], es[0])
      ensures !Under(p, dir + [es[k].name])
    {
      if Under(p, dir + [es[k].name]) {
        UnderDistinct(p, dir, es[0].name, es[k].name);
      }
    }
  }

  /** A walk from a fresh state over a real tree gives the tree's statistics and violations. */
  lemma FreshWalk(cwd: Path, skip: seq<string>, target: Path, e: Entry)
    requires e.DirectoryEntry? && WellFormed(e)
    ensures ProcessDir(cwd, skip, target, e, State({}, [])) ==
      (Some(Stats(cwd, skip, target, e)), State(DirPaths(target, e), Flagged(cwd, skip, target, e)))
  {
    ProcessDirTree(cwd, skip, target, e, State({}, []));
    assert {} + DirPaths(target, e) == DirPaths(target, e);
    assert [] + Flagged(cwd, skip, target, e) == Flagged(cwd, skip, target, e);
  }

  /** The walk only adds: visited directories stay visited and violations found stay, in order. */
  lemma {:induction false} ProcessDirGrows(cwd: Path, skip: seq<string>, dir: Path, e: Entry, st: State)
    requires e.DirectoryEntry?
    ensures st.processed <= ProcessDir(cwd, skip, dir, e, st).1.processed
    ensures st.violations <= ProcessDir(cwd, skip, dir, e, st).1.violations
    decreases e
  {
    if dir !in st.processed {
      var files := ComponentFiles(e.entries);
      var found := if IsViolation(skip, dir, files) then st.violations + [ViolationAt(cwd, dir, files)] else st.violations;
      ProcessSubdirsGrows(cwd, skip, dir, e.entries, State(st.processed + {dir}, found));
    }
  }

  lemma {:induction false} ProcessSubdirsGrows(cwd: Path, skip: seq<string>, dir: Path, es: seq<Entry>, st: State)
    ensures st.processed <= ProcessSubdirs(cwd, skip, dir, es, st).1.processed
    ensures st.violations <= ProcessSubdirs(cwd, skip, dir, es, st).1.violations
    decreases es
  {
    if es != [] {
      if es[0].DirectoryEntry? {
        ProcessDirGrows(cwd, skip, dir + [es[0].name], es[0], st);
        ProcessSubdirsGrows(cwd, skip, dir, es[1..], ProcessDir(cwd, skip, dir + [es[0].name], es[0], st).1);
      } else {
        ProcessSubdirsGrows(cwd, skip, dir, es[1..], st);
      }
    }
  }

  /**
   * The violation rule for a directory met for the first time: it is
   * flagged exactly when it holds more than one component file and its
   * name is not skipped; a flagged directory lists its component files
   * and its violation comes next in the violations; an unflagged one
   * lists none, whatever it holds.
   */
  lemma ViolationRule(cwd: Path, skip: seq<string>, dir: Path, e: Entry, st: State)
    requires e.DirectoryEntry? && dir !in st.processed
    ensures var r := ProcessDir(cwd, skip, dir, e, st);
      var files := ComponentFiles(e.entries);
      r.0.Some?
      && r.0.value.directory == RelativeText(cwd, dir)
      && (r.0.value.hasViolation <==> |files| > 1 && Basename(dir) !in skip)
      && (r.0.value.hasViolation ==>
            r.0.value.componentFiles == files && r.0.value.violationType == Some(MultipleComponents)
            && |st.violations| < |r.1.violations| && r.1.violations[|st.violations|] == ViolationAt(cwd, dir, files))
      && (!r.0.value.hasViolation ==> r.0.value.componentFiles == [] && r.0.value.violationType == None)
      && dir in r.1.processed
  {
    var files := ComponentFiles(e.entries);
    var found := if IsViolation(skip, dir, files) then st.violations + [ViolationAt(cwd, dir, files)] else st.violations;
    ProcessSubdirsGrows(cwd, skip, dir, e.entries, State(st.processed + {dir}, found));
    if IsViolation(skip, dir, files) {
      var fin := ProcessSubdirs(cwd, skip, dir, e.entries, State(st.processed + {dir}, found)).1.violations;
      assert found <= fin;
      assert fin[|st.violations|] == found[|st.violations|];
    }
  }

  /** A directory already visited is not visited again: the result is `undefined` and nothing changes. */
  lemma GuardSkipsVisited(cwd: Path, skip: seq<string>, dir: Path, e: Entry, st: State)
    requires e.DirectoryEntry? && dir in st.processed
    ensures ProcessDir(cwd, skip, dir, e, st) == (None, st)
  {
  }

  /** The number of directory entries of a listing. */
  function CountDirectories(es: seq<Entry>): nat {
    if es == [] then 0 else (if es[0].DirectoryEntry? then 1 else 0) + CountDirectories(es[1..])
  }

  /** Every directory entry gets a slot in `subDirectories`, even one the guard skips. */
  lemma {:induction false} SubdirectorySlots(cwd: Path, skip: seq<string>, dir: Path, es: seq<Entry>, st: State)
    ensures |ProcessSubdirs(cwd, skip, dir, es, st).0| == CountDirectories(es)
    decreases es
  {
    if es != [] {
      if es[0].DirectoryEntry? {
        SubdirectorySlots(cwd, skip, dir, es[1..], ProcessDir(cwd, skip, dir + [es[0].name], es[0], st).1);
      } else {
        SubdirectorySlots(cwd, skip, dir, es[1..], st);
      }
    }
  }

  /**
   * Every violation of a tree is a "multiple-components" record naming at
   * least two component files, with the message listing them.
   */
  lemma {:induction false} FlaggedShape(cwd: Path, skip: seq<string>, dir: Path, e: Entry)
    requires e.DirectoryEntry?
    ensures forall v :: v in Flagged(cwd, skip, dir, e) ==>
      v.kind == MultipleComponents && |v.files| >= 2 && v.message == ViolationPrefix + Join(v.files, ", ")
      && forall f :: f in v.files ==> (EndsWith(f, ".tsx") || EndsWith(f, ".jsx")) && !StartsWith(f, "index.")
    decreases e
  {
    FlaggedAllShape(cwd, skip, dir, e.entries);
  }

  lemma {:induction false} FlaggedAllShape(cwd: Path, skip: seq<string>, dir: Path, es: seq<Entry>)
    ensures forall v :: v in FlaggedAll(cwd, skip, dir, es) ==>
      v.kind == MultipleComponents && |v.files| >= 2 && v.message == ViolationPrefix + Join(v.files, ", ")
      && forall f :: f in v.files ==> (EndsWith(f, ".tsx") || EndsWith(f, ".jsx")) && !StartsWith(f, "index.")
    decreases es
  {
    if es != [] {
      if es[0].DirectoryEntry? {
        FlaggedShape(cwd, skip, dir + [es[0].name], es[0]);
      }
      FlaggedAllShape(cwd, skip, dir, es[1..]);
    }
  }

  /** Which entries of the example listing are component files. */
  lemma ExampleComponentFlags()
    ensures IsComponentFile(FileEntry("B.jsx")) && IsComponentFile(FileEntry("A.tsx"))
    ensures !IsComponentFile(FileEntry("index.tsx")) && !IsComponentFile(FileEntry("b.ts"))
  {
    var bj, index, a, b := FileEntry("B.jsx"), FileEntry("index.tsx"), FileEntry("A.tsx"), FileEntry("b.ts");
    assert OccursAt(bj.name, ".jsx", 1);
    assert OccursAt(index.name, "index.", 0);
    assert OccursAt(a.name, ".tsx", 1);
    assert b.name[0..4][0] == 'b';
  }

  /** Index files, other extensions and directories are not component files; listing order is kept. */
  lemma ComponentFilesExample()
    ensures ComponentFiles([FileEntry("B.jsx"), FileEntry("index.tsx"), FileEntry("A.tsx"), FileEntry("b.ts"), DirectoryEntry("C.jsx", [])])
      == ["B.jsx", "A.tsx"]
  {
    var bj, index, a, b, c := FileEntry("B.jsx"), FileEntry("index.tsx"), FileEntry("A.tsx"), FileEntry("b.ts"), DirectoryEntry("C.jsx", []);
    ExampleComponentFlags();
    ComponentFilesFirst(c, []);
    ComponentFilesFirst(b, [c]);
    ComponentFilesFirst(a, [b, c]);
    ComponentFilesFirst(index, [a, b, c]);
    ComponentFilesFirst(bj, [index, a, b, c]);
  }

  /** The component files of a listing: those of its first entry, then those of the rest. */
  lemma ComponentFilesFirst(e: Entry, rest: seq<Entry>)
    ensures ComponentFiles([e] + rest) == (if IsComponentFile(e) then [e.name] else []) + ComponentFiles(rest)
  {
    assert ([e] + rest)[0] == e && ([e] + rest)[1..] == rest;
  }

  /**
   * The filter keeps listing order and multiplicity: the component files of
   * two listings one after the other are those of the first, then those of
   * the second, and a single entry gives its own name once or nothing.
   */
  lemma {:induction false} ComponentFilesAppend(a: seq<Entry>, b: seq<Entry>)
    ensures ComponentFiles(a + b) == ComponentFiles(a) + ComponentFiles(b)
    ensures |a| == 1 ==> ComponentFiles(a) == (if IsComponentFile(a[0]) then [a[0].name] else [])
    decreases a
  {
    if a == [] {
      assert a + b == b;
    } else {
      var head := if IsComponentFile(a[0]) then [a[0].name] else [];
      assert (a + b)[0] == a[0] && (a + b)[1..] == a[1..] + b;
      calc {
        ComponentFiles(a + b);
        head + ComponentFiles(a[1..] + b);
        { ComponentFilesAppend(a[1..], b); }
        head + (ComponentFiles(a[1..]) + ComponentFiles(b));
        (head + ComponentFiles(a[1..])) + ComponentFiles(b);
        ComponentFiles(a) + ComponentFiles(b);
      }
      if |a| == 1 {
        assert a[1..] == [];
      }
    }
  }

  /** A listing that names a directory twice: the second is skipped by the guard and reported as `undefined`. */
  lemma RepeatedDirectoryVisitedOnce(cwd: Path, skip: seq<string>)
    ensures ProcessDir(cwd, skip, ["src"], DirectoryEntry("src", [DirectoryEntry("a", []), DirectoryEntry("a", [])]), State({}, [])).0.value.subDirectories
      == [Some(DirStats(RelativeText(cwd, ["src", "a"]), [], [], false, None)), None]
  {
    var a := DirectoryEntry("a", []);
    var sa: Path := ["src", "a"];
    var st0 := State({["src"]}, []);
    var st1 := State(st0.processed + {sa}, []);
    assert ComponentFiles([a, a]) == [];
    assert {} + {["src"]} == st0.processed;
    assert ["src"] + [a.name] == sa;
    EmptyDirectoryFirstVisit(cwd, skip, sa, "a", st0);
    var first := Some(DirStats(RelativeText(cwd, sa), [], [], false, None));
    assert ProcessDir(cwd, skip, sa, a, st0) == (first, st1);
    assert ProcessDir(cwd, skip, sa, a, st1) == (None, st1);
    assert [a][0] == a && [a][1..] == [];
    SubdirsStartingWithDirectory(cwd, skip, ["src"], [a], st1);
    assert ProcessSubdirs(cwd, skip, ["src"], [], st1) == ([], st1);
    assert ProcessSubdirs(cwd, skip, ["src"], [a], st1) == ([None] + [], st1);
    var aa := [a, a];
    assert aa[0] == a && aa[1..] == [a];
    assert ["src"] + [aa[0].name] == sa;
    SubdirsStartingWithDirectory(cwd, skip, ["src"], aa, st0);
    var head := ProcessDir(cwd, skip, ["src"] + [aa[0].name], aa[0], st0);
    assert head == (first, st1);
    var tail := ProcessSubdirs(cwd, skip, ["src"], aa[1..], head.1);
    assert tail == ([None] + [], st1);
    assert [first] + ([None] + []) == [first, None];
    assert ProcessSubdirs(cwd, skip, ["src"], aa, st0) == ([first, None], st1);
    assert ProcessDir(cwd, skip, ["src"], DirectoryEntry("src", aa), State({}, [])).0
      == Some(StatsAt(cwd, skip, ["src"], [], [first, None]));
  }

  /** An empty directory met for the first time has no files, no subdirectories and no violation, and is marked processed. */
  lemma EmptyDirectoryFirstVisit(cwd: Path, skip: seq<string>, dir: Path, name: string, st: State)
    requires dir !in st.processed
    ensures ProcessDir(cwd, skip, dir, DirectoryEntry(name, []), st)
      == (Some(DirStats(RelativeText(cwd, dir), [], [], false, None)), State(st.processed + {dir}, st.violations))
  {
    assert ComponentFiles([]) == [];
  }

  /** The directories of the statistics nodes that carry a violation, in pre-order. */
  function ViolatingDirs(stats: DirStats): seq<string>
    decreases stats
  {
    (if stats.hasViolation then [stats.directory] else []) + ViolatingDirsAll(stats.subDirectories)
  }

  function ViolatingDirsOf(sub: Option<DirStats>): seq<string>
    decreases sub
  {
    match sub
    case None => []
    case Some(stats) => ViolatingDirs(stats)
  }

  function ViolatingDirsAll(subs: seq<Option<DirStats>>): seq<string>
    decreases subs
  {
    if subs == [] then [] else ViolatingDirsOf(subs[0]) + ViolatingDirsAll(subs[1..])
  }

  function Directories(vs: seq<Violation>): (ds: seq<string>)
    ensures |ds| == |vs| && forall k :: 0 <= k < |vs| ==> ds[k] == vs[k].directory
  {
    if vs == [] then [] else [vs[0].directory] + Directories(vs[1..])
  }

  lemma DirectoriesAppend(a: seq<Violation>, b: seq<Violation>)
    ensures Directories(a + b) == Directories(a) + Directories(b)
  {
  }

  /**
   * The violations and the statistics agree: the violations name, in
   * order, exactly the directories whose statistics carry a violation, so
   * there are as many violations as flagged statistics nodes.
   */
  lemma {:induction false} ViolationsMatchStats(cwd: Path, skip: seq<string>, dir: Path, e: Entry)
    requires e.DirectoryEntry?
    ensures Directories(Flagged(cwd, skip, dir, e)) == ViolatingDirs(Stats(cwd, skip, dir, e))
    decreases e
  {
    var files := ComponentFiles(e.entries);
    var own := if IsViolation(skip, dir, files) then [ViolationAt(cwd, dir, files)] else [];
    ViolationsMatchStatsAll(cwd, skip, dir, e.entries);
    DirectoriesAppend(own, FlaggedAll(cwd, skip, dir, e.entries));
  }

  lemma {:induction false} ViolationsMatchStatsAll(cwd: Path, skip: seq<string>, dir: Path, es: seq<Entry>)
    ensures Directories(FlaggedAll(cwd, skip, dir, es)) == ViolatingDirsAll(StatsAll(cwd, skip, dir, es))
    decreases es
  {
    if es != [] {
      ViolationsMatchStatsAll(cwd, skip, dir, es[1..]);
      if es[0].DirectoryEntry? {
        var sub := dir + [es[0].name];
        ViolationsMatchStats(cwd, skip, sub, es[0]);
        DirectoriesAppend(Flagged(cwd, skip, sub, es[0]), FlaggedAll(cwd, skip, dir, es[1..]));
        var one := [Some(Stats(cwd, skip, sub, es[0]))];
        assert (one + StatsAll(cwd, skip, dir, es[1..]))[1..] == StatsAll(cwd, skip, dir, es[1..]);
      } else {
        assert [] + StatsAll(cwd, skip, dir, es[1..]) == StatsAll(cwd, skip, dir, es[1..]);
        assert [] + FlaggedAll(cwd, skip, dir, es[1..]) == FlaggedAll(cwd, skip, dir, es[1..]);
      }
    }
  }

  /** The directory entries of a listing, in listing order. */
  function DirectoryEntries(es: seq<Entry>): (ds: seq<Entry>)
    ensures |ds| == CountDirectories(es)
    ensures forall k :: 0 <= k < |ds| ==> ds[k].DirectoryEntry? && ds[k] in es
  {
    if es == [] then []
    else (if es[0].DirectoryEntry? then [es[0]] else []) + DirectoryEntries(es[1..])
  }

  /**
   * Recursion does not depend on the violation rule: on a real tree the
   * k-th slot of a listing holds the statistics of its k-th directory
   * entry, skipped or flagged or not.
   */
  lemma {:induction false} StatsAllPresent(cwd: Path, skip: seq<string>, dir: Path, es: seq<Entry>)
    ensures |StatsAll(cwd, skip, dir, es)| == CountDirectories(es)
    ensures forall k :: 0 <= k < |StatsAll(cwd, skip, dir, es)| ==>
      StatsAll(cwd, skip, dir, es)[k] == Some(Stats(cwd, skip, dir + [DirectoryEntries(es)[k].name], DirectoryEntries(es)[k]))
    decreases es
  {
    if es != [] {
      StatsAllPresent(cwd, skip, dir, es[1..]);
      if es[0].DirectoryEntry? {
        var rest := StatsAll(cwd, skip, dir, es[1..]);
        var ds := DirectoryEntries(es[1..]);
        assert StatsAll(cwd, skip, dir, es) == [Some(Stats(cwd, skip, dir + [es[0].name], es[0]))] + rest;
        assert DirectoryEntries(es) == [es[0]] + ds;
      } else {
        assert StatsAll(cwd, skip, dir, es) == [] + StatsAll(cwd, skip, dir, es[1..]);
        assert DirectoryEntries(es) == [] + DirectoryEntries(es[1..]);
      }
    }
  }
}
