/**
 * `analyzeImports`: every source file under the target directory is
 * parsed, its syntax tree is walked, and each import declaration that
 * reaches into a sibling directory is recorded once, as a message, in the
 * order first met. The messages then make up the JSON report.
 *
 * Reading the file system, globbing and parsing are inputs: whether the
 * target exists, the parent's listing, the list of matched files, and a
 * parse function from a file to its syntax tree or to the parser's error.
 */
module ImportAnalysis {
  import opened Results
  import opened Strings
  import opened Paths
  import opened ImportAst
  import opened SiblingResolver
  import opened Messages
  import opened ReportTree

  datatype ParseResult = Parsed(ast: Node) | ParseError(message: string)

  /** What one run classifies with: the working directory and the sibling scope of the target. */
  datatype Run = Run(cwd: Path, scope: Scope)

  /** The message recorded for declaration `d` in `file`, when it is a sibling import. */
  function DeclMessage(run: Run, file: Path, d: ImportDeclaration): Option<string> {
    match SiblingOf(run.scope, Dirname(file), d.source)
    case None => None
    case Some(s) => Some(Message(RelativeText(run.cwd, file), s, d.source, ImportedItems(d.specifiers)))
  }

  /**
   * The messages a walk records for declarations `ds`, in order, given the
   * message (if any) that each declaration yields.
   */
  function Collect(msg: ImportDeclaration -> Option<string>, ds: seq<ImportDeclaration>): seq<string>
    decreases |ds|
  {
    if ds == [] then []
    else
      var m := msg(ds[0]);
      (if m.Some? then [m.value] else []) + Collect(msg, ds[1..])
  }

  lemma {:induction false} CollectAppend(msg: ImportDeclaration -> Option<string>, a: seq<ImportDeclaration>, b: seq<ImportDeclaration>)
    ensures Collect(msg, a + b) == Collect(msg, a) + Collect(msg, b)
    decreases |a|
  {
    if a == [] {
      assert a + b == b;
    } else {
      var m := msg(a[0]);
      var h := if m.Some? then [m.value] else [];
      assert (a + b)[0] == a[0];
      assert (a + b)[1..] == a[1..] + b;
      CollectAppend(msg, a[1..], b);
      calc {
        Collect(msg, a + b);
        h + Collect(msg, a[1..] + b);
        h + (Collect(msg, a[1..]) + Collect(msg, b));
        (h + Collect(msg, a[1..])) + Collect(msg, b);
      }
    }
  }

  lemma {:induction false} CollectMembership(msg: ImportDeclaration -> Option<string>, ds: seq<ImportDeclaration>, m: string)
    ensures m in Collect(msg, ds) <==> exists k :: 0 <= k < |ds| && msg(ds[k]) == Some(m)
    decreases |ds|
  {
    if ds != [] {
      CollectMembership(msg, ds[1..], m);
      forall k | 1 <= k < |ds| ensures ds[1..][k - 1] == ds[k] { }
    }
  }

  /** The message function of one file. */
  function MessageOf(run: Run, file: Path): ImportDeclaration -> Option<string> {
    d => DeclMessage(run, file, d)
  }

  /** The messages of a sequence of declarations of `file`, in order. */
  function DeclMessages(run: Run, file: Path, ds: seq<ImportDeclaration>): seq<string> {
    Collect(MessageOf(run, file), ds)
  }

  /** A single declaration yields its message, if it has one. */
  lemma DeclMessagesSingle(run: Run, file: Path, d: ImportDeclaration)
    ensures DeclMessages(run, file, [d]) ==
      if DeclMessage(run, file, d).Some? then [DeclMessage(run, file, d).value] else []
  {
    var msg := MessageOf(run, file);
    assert [d][1..] == [] && [d][0] == d;
    assert msg(d) == DeclMessage(run, file, d);
    assert Collect(msg, []) == [];
    assert Collect(msg, [d]) == (if msg(d).Some? then [msg(d).value] else []) + Collect(msg, []);
  }

  /** A message comes from a declaration exactly when that declaration is a sibling import. */
  lemma DeclMessagesMembership(run: Run, file: Path, ds: seq<ImportDeclaration>, m: string)
    ensures m in DeclMessages(run, file, ds) <==> exists d :: d in ds && DeclMessage(run, file, d) == Some(m)
  {
    CollectMembership(MessageOf(run, file), ds, m);
    forall k | 0 <= k < |ds| ensures MessageOf(run, file)(ds[k]) == DeclMessage(run, file, ds[k]) { }
  }

  /** Adding to the insertion-ordered `Set` of messages. */
  function Add(found: seq<string>, m: string): seq<string> {
    if m in found then found else found + [m]
  }

  function AddAll(found: seq<string>, ms: seq<string>): seq<string>
    decreases |ms|
  {
    if ms == [] then found else AddAll(Add(found, ms[0]), ms[1..])
  }

  predicate NoDuplicates(xs: seq<string>) {
    forall i, j :: 0 <= i < j < |xs| ==> xs[i] != xs[j]
  }

  lemma {:induction false} AddAllAppend(found: seq<string>, a: seq<string>, b: seq<string>)
    ensures AddAll(found, a + b) == AddAll(AddAll(found, a), b)
    decreases |a|
  {
    if a == [] {
      assert a + b == b;
    } else {
      assert (a + b)[1..] == a[1..] + b;
      AddAllAppend(Add(found, a[0]), a[1..], b);
    }
  }

  /** Adding keeps the earlier messages in place, adds each new one once, and never adds a duplicate. */
  lemma {:induction false} AddAllProperties(found: seq<string>, ms: seq<string>)
    ensures var r := AddAll(found, ms);
      found <= r
      && (forall m :: m in r <==> m in found || m in ms)
      && (NoDuplicates(found) ==> NoDuplicates(r))
    decreases |ms|
  {
    if ms != [] {
      AddAllProperties(Add(found, ms[0]), ms[1..]);
      forall m ensures m in ms <==> m == ms[0] || m in ms[1..] {
        assert ms == [ms[0]] + ms[1..];
      }
    }
  }

  /** Adding messages that are all present already changes nothing. */
  lemma {:induction false} AddAllPresent(found: seq<string>, ms: seq<string>)
    requires forall m :: m in ms ==> m in found
    ensures AddAll(found, ms) == found
    decreases |ms|
  {
    if ms != [] {
      assert ms[0] in ms;
      assert forall m :: m in ms[1..] ==> m in ms;
      AddAllPresent(found, ms[1..]);
    }
  }

  /** The messages of one file: none when it does not parse. */
  function FileMessages(run: Run, file: Path, parse: Path -> ParseResult): seq<string> {
    match parse(file)
    case ParseError(_) => []
    case Parsed(ast) => DeclMessages(run, file, ImportsOf(ast))
  }

  /** The messages of each file of one run. */
  function ScanOf(run: Run, parse: Path -> ParseResult): Path -> seq<string> {
    f => FileMessages(run, f, parse)
  }

  /** The messages of all files, in file order, duplicates included, given the messages of each file. */
  function AllMessages(scan: Path -> seq<string>, files: seq<Path>): seq<string>
    decreases |files|
  {
    if files == [] then []
    else AllMessages(scan, files[..|files| - 1]) + scan(files[|files| - 1])
  }

  lemma {:induction false} AllMessagesAppend(scan: Path -> seq<string>, a: seq<Path>, b: seq<Path>)
    ensures AllMessages(scan, a + b) == AllMessages(scan, a) + AllMessages(scan, b)
    decreases |b|
  {
    if b == [] {
      assert a + b == a;
    } else {
      var ab := a + b;
      var b' := b[..|b| - 1];
      var last := scan(b[|b| - 1]);
      assert ab[..|ab| - 1] == a + b';
      assert ab[|ab| - 1] == b[|b| - 1];
      AllMessagesAppend(scan, a, b');
      calc {
        AllMessages(scan, ab);
        AllMessages(scan, a + b') + last;
        (AllMessages(scan, a) + AllMessages(scan, b')) + last;
        AllMessages(scan, a) + (AllMessages(scan, b') + last);
      }
    }
  }

  /** The recorded messages: every file's messages added in turn to an empty set. */
  function Findings(scan: Path -> seq<string>, files: seq<Path>): seq<string> {
    AddAll([], AllMessages(scan, files))
  }

  /** The source's `imports` hold every message once. */
  lemma FindingsDistinct(scan: Path -> seq<string>, files: seq<Path>)
    ensures NoDuplicates(Findings(scan, files))
  {
    AddAllProperties([], AllMessages(scan, files));
  }

  lemma {:induction false} AllMessagesMembership(scan: Path -> seq<string>, files: seq<Path>, m: string)
    ensures m in AllMessages(scan, files) <==> exists i :: 0 <= i < |files| && m in scan(files[i])
    decreases |files|
  {
    if files != [] {
      var init := files[..|files| - 1];
      AllMessagesMembership(scan, init, m);
      forall i | 0 <= i < |init| ensures init[i] == files[i] { }
    }
  }

  /**
   * A message is recorded exactly when some file parses and one of its
   * import declarations is a sibling import that yields that message.
   */
  lemma FindingsMembership(run: Run, files: seq<Path>, parse: Path -> ParseResult, m: string)
    ensures m in Findings(ScanOf(run, parse), files) <==>
      exists i, d :: 0 <= i < |files| && parse(files[i]).Parsed? && d in ImportsOf(parse(files[i]).ast)
        && DeclMessage(run, files[i], d) == Some(m)
  {
    var scan := ScanOf(run, parse);
    AddAllProperties([], AllMessages(scan, files));
    AllMessagesMembership(scan, files, m);
    forall i | 0 <= i < |files|
      ensures m in scan(files[i]) <==> (parse(files[i]).Parsed? &&
        exists d :: d in ImportsOf(parse(files[i]).ast) && DeclMessage(run, files[i], d) == Some(m))
    {
      if parse(files[i]).Parsed? {
        DeclMessagesMembership(run, files[i], ImportsOf(parse(files[i]).ast), m);
      }
    }
  }

  /** The first index of `x` in `xs`. */
  function IndexOf(xs: seq<string>, x: string): (i: nat)
    requires x in xs
    ensures i < |xs| && xs[i] == x && x !in xs[..i]
  {
    if xs[0] == x then 0
    else
      var i := 1 + IndexOf(xs[1..], x);
      assert xs[..i] == [xs[0]] + xs[1..][..i - 1];
      i
  }

  lemma IndexOfExtend(xs: seq<string>, y: string, x: string)
    requires x in xs
    ensures IndexOf(xs + [y], x) == IndexOf(xs, x)
  {
    var i := IndexOf(xs, x);
    var j := IndexOf(xs + [y], x);
    assert (xs + [y])[..i] == xs[..i];
    assert xs[i] == (xs + [y])[i];
  }

  /** `r` lists messages of `ms` in the order of their first occurrence in `ms`. */
  predicate InFirstOccurrenceOrder(r: seq<string>, ms: seq<string>) {
    forall i, j :: 0 <= i < j < |r| ==> r[i] in ms && r[j] in ms && IndexOf(ms, r[i]) < IndexOf(ms, r[j])
  }

  /** Recording one more message keeps the order of first occurrence. */
  lemma OrderSnoc(r: seq<string>, ms: seq<string>, x: string)
    requires InFirstOccurrenceOrder(r, ms)
    requires forall y :: y in r <==> y in ms
    ensures InFirstOccurrenceOrder(Add(r, x), ms + [x])
  {
    var ms' := ms + [x];
    forall y | y in ms ensures IndexOf(ms', y) == IndexOf(ms, y) {
      IndexOfExtend(ms, x, y);
    }
    if x !in r {
      var r' := r + [x];
      assert IndexOf(ms', x) == |ms| by {
        assert x !in ms && ms'[..|ms|] == ms;
      }
      forall i, j | 0 <= i < j < |r'|
        ensures r'[i] in ms' && r'[j] in ms' && IndexOf(ms', r'[i]) < IndexOf(ms', r'[j])
      {
        assert r'[i] == r[i] && r[i] in ms;
        if j < |r| {
          assert r'[j] == r[j];
        }
      }
    }
  }

  /** Messages are recorded in the order of their first occurrence. */
  lemma {:induction false} AddAllFirstOccurrenceOrder(ms: seq<string>)
    ensures InFirstOccurrenceOrder(AddAll([], ms), ms)
    decreases |ms|
  {
    if ms != [] {
      var init := ms[..|ms| - 1];
      var x := ms[|ms| - 1];
      assert ms == init + [x];
      AddAllAppend([], init, [x]);
      AddAllFirstOccurrenceOrder(init);
      AddAllProperties([], init);
      OrderSnoc(AddAll([], init), init, x);
    }
  }

  /** Walking one more child node records that child's messages after those of the earlier ones. */
  lemma ChildrenStep(run: Run, file: Path, found: seq<string>, cs: seq<Node>, i: nat)
    requires i < |cs|
    ensures AddAll(found, DeclMessages(run, file, ImportsOfAll(cs[..i + 1]))) ==
      AddAll(AddAll(found, DeclMessages(run, file, ImportsOfAll(cs[..i]))), DeclMessages(run, file, ImportsOf(cs[i])))
  {
    assert cs[..i + 1][..i] == cs[..i];
    CollectAppend(MessageOf(run, file), ImportsOfAll(cs[..i]), ImportsOf(cs[i]));
    AddAllAppend(found, DeclMessages(run, file, ImportsOfAll(cs[..i])), DeclMessages(run, file, ImportsOf(cs[i])));
  }

  /** The source's `imports` list messages in the order they were first met, file by file and within a file in walk order. */
  lemma FindingsOrder(scan: Path -> seq<string>, files: seq<Path>)
    ensures InFirstOccurrenceOrder(Findings(scan, files), AllMessages(scan, files))
  {
    AddAllFirstOccurrenceOrder(AllMessages(scan, files));
  }

  lemma AllMessagesSingle(scan: Path -> seq<string>, f: Path)
    ensures AllMessages(scan, [f]) == scan(f)
  {
    assert [f][..0] == [];
  }

  /** One more file appends its messages. */
  lemma AllMessagesSnoc(scan: Path -> seq<string>, a: seq<Path>, f: Path)
    ensures AllMessages(scan, a + [f]) == AllMessages(scan, a) + scan(f)
  {
    var af := a + [f];
    assert af[..|af| - 1] == a && af[|af| - 1] == f;
  }

  /** Leaving out a file without messages leaves the messages of the others unchanged. */
  lemma {:induction false} AllMessagesSkip(scan: Path -> seq<string>, files: seq<Path>, i: nat)
    requires i < |files| && scan(files[i]) == []
    ensures AllMessages(scan, files) == AllMessages(scan, files[..i] + files[i + 1..])
    decreases |files|
  {
    var n := |files|;
    var init := files[..n - 1];
    var left := files[..i] + files[i + 1..];
    if i == n - 1 {
      assert left == init;
      assert AllMessages(scan, init) + [] == AllMessages(scan, init);
    } else {
      AllMessagesSkip(scan, init, i);
      var leftInit := init[..i] + init[i + 1..];
      assert left == leftInit + [files[n - 1]];
      AllMessagesSnoc(scan, leftInit, files[n - 1]);
    }
  }

  /** A file that fails to parse contributes nothing: the run gives what it gives without that file. */
  lemma ParseFailureContributesNothing(run: Run, files: seq<Path>, parse: Path -> ParseResult, i: nat)
    requires i < |files| && parse(files[i]).ParseError?
    ensures Findings(ScanOf(run, parse), files) == Findings(ScanOf(run, parse), files[..i] + files[i + 1..])
  {
    assert ScanOf(run, parse)(files[i]) == [];
    AllMessagesSkip(ScanOf(run, parse), files, i);
  }

  /** A file listed again contributes nothing new. */
  lemma RepeatedFileContributesNothing(scan: Path -> seq<string>, files: seq<Path>, i: nat, j: nat)
    requires i < j < |files| && files[i] == files[j]
    ensures Findings(scan, files) == Findings(scan, files[..j] + files[j + 1..])
  {
    var a := files[..j];
    var b := files[j + 1..];
    var fm := scan(files[j]);
    assert files == a + [files[j]] + b;
    AllMessagesAppend(scan, a + [files[j]], b);
    AllMessagesAppend(scan, a, [files[j]]);
    AllMessagesAppend(scan, a, b);
    AllMessagesSingle(scan, files[j]);
    var before := AddAll([], AllMessages(scan, a));
    forall m | m in fm ensures m in before {
      AllMessagesMembership(scan, a, m);
      assert a[i] == files[j];
      AddAllProperties([], AllMessages(scan, a));
    }
    AddAllAppend([], AllMessages(scan, a) + fm, AllMessages(scan, b));
    AddAllAppend([], AllMessages(scan, a), fm);
    AddAllPresent(before, fm);
    AddAllAppend([], AllMessages(scan, a), AllMessages(scan, b));
  }

  /** A sibling import written twice in one file is recorded once. */
  lemma SameImportTwiceInOneFile(run: Run, file: Path, d: ImportDeclaration)
    requires DeclMessage(run, file, d).Some?
    ensures AddAll([], DeclMessages(run, file, [d, d])) == [DeclMessage(run, file, d).value]
  {
    var m := DeclMessage(run, file, d).value;
    DeclMessagesSingle(run, file, d);
    assert [d] + [d] == [d, d];
    CollectAppend(MessageOf(run, file), [d], [d]);
    assert DeclMessages(run, file, [d, d]) == [m, m];
    AddTwice(m);
  }

  /** A message met twice is recorded once. */
  lemma AddTwice(m: string)
    ensures AddAll([], [m, m]) == [m]
  {
    assert [m, m][0] == m && [m, m][1..] == [m];
    assert Add([], m) == [m];
    assert AddAll([], [m, m]) == AddAll([m], [m]);
    assert [m][0] == m && [m][1..] == [];
    assert Add([m], m) == [m];
    assert AddAll([m], [m]) == AddAll([m], []);
  }

  /** Relative paths from one directory name files apart. */
  lemma RelativeTextInjective(cwd: Path, f1: Path, f2: Path)
    requires IsNormal(f1) && IsNormal(f2) && RelativeText(cwd, f1) == RelativeText(cwd, f2)
    ensures f1 == f2
  {
    ResolveRelative(cwd, f1);
    ResolveRelative(cwd, f2);
  }

  /** The same sibling import in two different files is recorded twice, once per file. */
  lemma SameImportInTwoFiles(run: Run, f1: Path, f2: Path, d: ImportDeclaration)
    requires IsNormal(f1) && IsNormal(f2) && f1 != f2
    requires DeclMessage(run, f1, d).Some?
    requires SiblingOf(run.scope, Dirname(f1), d.source) == SiblingOf(run.scope, Dirname(f2), d.source)
    ensures DeclMessage(run, f1, d) != DeclMessage(run, f2, d)
  {
    if DeclMessage(run, f1, d) == DeclMessage(run, f2, d) {
      var s := SiblingOf(run.scope, Dirname(f1), d.source).value;
      MessageSourceInjective(RelativeText(run.cwd, f1), RelativeText(run.cwd, f2), s, d.source, ImportedItems(d.specifiers));
      RelativeTextInjective(run.cwd, f1, f2);
    }
  }

  /** One run's state: the insertion-ordered set of messages found so far and the files already handled. */
  class ImportCollector {
    const run: Run
    var foundImports: seq<string>
    var processedFiles: set<Path>

    constructor(run: Run)
      ensures this.run == run && foundImports == [] && processedFiles == {}
    {
      this.run := run;
      foundImports := [];
      processedFiles := {};
    }

    /**
     * `visitNode`: an import declaration that reaches into a sibling is
     * added as a message; then the child nodes are walked in order.
     */
    method VisitNode(file: Path, node: Node)
      modifies this
      decreases node
      ensures foundImports == AddAll(old(foundImports), DeclMessages(run, file, ImportsOf(node)))
      ensures processedFiles == old(processedFiles)
    {
      match node
      case Import(d) =>
        VisitImport(file, d);
        DeclMessagesSingle(run, file, d);
      case Other(cs) =>
        VisitChildren(file, cs);
    }

    /** The child nodes of a node, walked in order. */
    method VisitChildren(file: Path, cs: seq<Node>)
      modifies this
      decreases cs
      ensures foundImports == AddAll(old(foundImports), DeclMessages(run, file, ImportsOfAll(cs)))
      ensures processedFiles == old(processedFiles)
    {
      var i := 0;
      while i < |cs|
        invariant 0 <= i <= |cs|
        invariant foundImports == AddAll(old(foundImports), DeclMessages(run, file, ImportsOfAll(cs[..i])))
        invariant processedFiles == old(processedFiles)
      {
        ChildrenStep(run, file, old(foundImports), cs, i);
        VisitNode(file, cs[i]);
        i := i + 1;
      }
      assert cs[..|cs|] == cs;
    }

    /**
     * An import declaration: its message, when it reaches into a sibling,
     * is recorded unless it already was.
     */
    method VisitImport(file: Path, d: ImportDeclaration)
      modifies this
      ensures DeclMessage(run, file, d).Some? ==> foundImports == Add(old(foundImports), DeclMessage(run, file, d).value)
      ensures DeclMessage(run, file, d).None? ==> foundImports == old(foundImports)
      ensures processedFiles == old(processedFiles)
    {
      var importPath := d.source;
      var relativePath := RelativeText(run.cwd, file);
      var importedItems := ImportedItems(d.specifiers);
      var sibling := SiblingOf(run.scope, Dirname(file), importPath);
      if sibling.Some? {
        var m := Message(relativePath, sibling.value, importPath, importedItems);
        if m !in foundImports {
          foundImports := foundImports + [m];
        }
      }
    }

    /**
     * `files.forEach(...)`: every file is handled in turn, starting from an
     * empty set of messages; `scan` gives the messages of each file.
     */
    method ProcessFiles(files: seq<Path>, parse: Path -> ParseResult, ghost scan: Path -> seq<string>)
      requires foundImports == [] && processedFiles == {}
      requires forall f {:trigger FileMessages(run, f, parse)} :: scan(f) == FileMessages(run, f, parse)
      modifies this
      ensures foundImports == Findings(scan, files)
      ensures processedFiles == Elements(files)
    {
      var i := 0;
      while i < |files|
        invariant 0 <= i <= |files|
        invariant foundImports == Findings(scan, files[..i])
        invariant processedFiles == Elements(files[..i])
      {
        var file := files[i];
        FindingsStep(scan, files, i);
        ElementsStep(files, i);
        assert scan(file) == FileMessages(run, file, parse);
        ProcessFile(file, parse);
        i := i + 1;
      }
      assert files[..|files|] == files;
    }

    /** The body of the loop over files: a file is handled once; one that fails to parse adds nothing. */
    method ProcessFile(file: Path, parse: Path -> ParseResult)
      modifies this
      ensures processedFiles == old(processedFiles) + {file}
      ensures foundImports ==
        if file in old(processedFiles) then old(foundImports)
        else AddAll(old(foundImports), FileMessages(run, file, parse))
    {
      if file in processedFiles {
        return;
      }
      processedFiles := processedFiles + {file};
      match parse(file)
      case ParseError(_) =>
      case Parsed(ast) =>
        VisitNode(file, ast);
    }
  }

  /** What `analyzeImports` returns, with the JSON report it writes. */
  datatype Analysis = Analysis(imports: seq<string>, report: JsonReport)

  /** The outcome for recorded messages `found`: the report built from them, or the error building it raised. */
  function AnalysisOf(found: seq<string>, targetDir: string, analyzedAt: string, cwd: Path): Result<Analysis> {
    match Structure(found, cwd)
    case Err(e) => Err(e)
    case Ok(tree) => Ok(Analysis(found, JsonReport(targetDir, analyzedAt, |found|, tree)))
  }

  /** A successful analysis returns the messages it reports, and its total is both their number and the tree's count. */
  lemma AnalysisTotals(found: seq<string>, targetDir: string, analyzedAt: string, cwd: Path)
    requires AnalysisOf(found, targetDir, analyzedAt, cwd).Ok?
    ensures var a := AnalysisOf(found, targetDir, analyzedAt, cwd).value;
      a.imports == found && a.report.totalImports == |found| && SumCounts(a.report.structure) == |found|
  {
    StructureCountsMessages(found, cwd);
  }

  /**
   * `analyzeImports` on directory `target`: the parent's listing gives the
   * siblings, every matched file is handled in turn, and the recorded
   * messages make up the JSON report. A missing target is an error, and so
   * is a message the report cannot place.
   */
  method AnalyzeImports(target: Path, targetExists: bool, listing: seq<DirEntry>, cwd: Path,
                        files: seq<Path>, parse: Path -> ParseResult, analyzedAt: string)
    returns (r: Result<Analysis>)
    ensures !targetExists ==> r == Err("Directory not found: " + AbsoluteText(target))
    ensures targetExists ==>
      r == AnalysisOf(Findings(ScanOf(Run(cwd, ScopeOf(target, listing)), parse), files), AbsoluteText(target), analyzedAt, cwd)
  {
    if !targetExists {
      return Err("Directory not found: " + AbsoluteText(target));
    }
    var run := Run(cwd, ScopeOf(target, listing));
    var collector := new ImportCollector(run);
    collector.ProcessFiles(files, parse, ScanOf(run, parse));
    var imports := collector.foundImports;
    var report := GenerateJsonReport(imports, AbsoluteText(target), analyzedAt, cwd);
    match report
    case Err(e) => r := Err(e);
    case Ok(json) => r := Ok(Analysis(imports, json));
    assert r == AnalysisOf(imports, AbsoluteText(target), analyzedAt, cwd);
  }

  /** The set of the files of a list. */
  function Elements(files: seq<Path>): set<Path>
    decreases |files|
  {
    if files == [] then {} else Elements(files[..|files| - 1]) + {files[|files| - 1]}
  }

  lemma {:induction false} ElementsMembership(files: seq<Path>, f: Path)
    ensures f in Elements(files) <==> f in files
    decreases |files|
  {
    if files != [] {
      var init := files[..|files| - 1];
      ElementsMembership(init, f);
      assert files == init + [files[|files| - 1]];
    }
  }

  lemma ElementsSnoc(files: seq<Path>, f: Path)
    ensures Elements(files + [f]) == Elements(files) + {f}
  {
    assert (files + [f])[..|files|] == files;
  }

  /** One more file of a list, and whether it was met before. */
  lemma ElementsStep(files: seq<Path>, i: nat)
    requires i < |files|
    ensures Elements(files[..i + 1]) == Elements(files[..i]) + {files[i]}
    ensures files[i] in Elements(files[..i]) <==> files[i] in files[..i]
  {
    ElementsMembership(files[..i], files[i]);
    ElementsSnoc(files[..i], files[i]);
    assert files[..i + 1] == files[..i] + [files[i]];
  }

  /**
   * One more file: a file met before changes nothing, any other adds its
   * messages to those recorded so far.
   */
  lemma FindingsStep(scan: Path -> seq<string>, files: seq<Path>, i: nat)
    requires i < |files|
    ensures Findings(scan, files[..i + 1]) ==
      if files[i] in files[..i] then Findings(scan, files[..i])
      else AddAll(Findings(scan, files[..i]), scan(files[i]))
  {
    var file := files[i];
    var init := files[..i];
    assert files[..i + 1] == init + [file];
    AllMessagesAppend(scan, init, [file]);
    AllMessagesSingle(scan, file);
    AddAllAppend([], AllMessages(scan, init), scan(file));
    if file in init {
      var k :| 0 <= k < i && init[k] == file;
      ProcessedFileMessagesFound(scan, init, k);
      AddAllPresent(Findings(scan, init), scan(file));
    }
  }

  /** Every message of an already handled file is among the recorded ones. */
  lemma ProcessedFileMessagesFound(scan: Path -> seq<string>, files: seq<Path>, k: nat)
    requires k < |files|
    ensures forall m :: m in scan(files[k]) ==> m in Findings(scan, files)
  {
    forall m | m in scan(files[k])
      ensures m in Findings(scan, files)
    {
      AllMessagesMembership(scan, files, m);
      AddAllProperties([], AllMessages(scan, files));
    }
  }
}
