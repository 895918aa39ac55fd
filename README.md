# Import and structure checks for a front-end source tree, in Dafny

This project models the two analysers of a small command-line tool for
JavaScript/TypeScript projects.

- **Cross-sibling import analysis** (`lib/import-analyzer.js`). Given a
  target directory, `analyzeImports` finds the sibling directories (the
  other directories of its parent). It parses every source file under the
  target and walks each syntax tree. Each import declaration that reaches
  into a sibling is recorded once, as a message
  `<file> imports from sibling directory '<sib>': <path>  (importing: <items>)`.
  The recorded messages are kept in first-seen order. `generateJsonReport`
  then reads every message back and files it in a tree of directory and
  file nodes. `countTotalImports` counts the imports of that tree.
- **Component-folder structure check** (`lib/structure-analyzer.js`).
  `analyzeStructure` walks the directory tree below the target, visiting
  each directory once. A directory that holds more than one component file
  is a violation, unless its name is skipped. A component file is a `.tsx`
  or `.jsx` file whose name does not start with `index.`. The result lists
  the violations and mirrors the tree with one statistics record per
  directory.

The modules, one per file:

- `results.dfy` (`Results`): `Option`, `Result` and the text of the
  `TypeError` a property read on `undefined` throws.
- `strings.dfy` (`Strings`): `indexOf`, `includes`, `startsWith`,
  `endsWith`, `split`, `join` and `trim`, with their laws.
- `paths.dfy` (`Paths`): POSIX `dirname`, `basename`, `resolve` and
  `relative` on absolute paths held as segment sequences.
- `import_ast.dfy` (`ImportAst`): import declarations (section 16.2.2 of
  ECMA-262, "Imports") inside a syntax tree, and `getImportedItems`.
- `sibling_resolver.dfy` (`SiblingResolver`): the sibling list and how a
  specifier is classified.
- `messages.dfy` (`Messages`): building a message and reading it back with
  the report's `split` and regular expressions.
- `report_tree.dfy` (`ReportTree`): the report tree, `countTotalImports`
  and `generateJsonReport`.
- `import_analysis.dfy` (`ImportAnalysis`): `visitNode`, the loop over
  files, the two de-duplicating sets and `analyzeImports`.
- `structure_analysis.dfy` (`StructureAnalysis`): `processDirectory` and
  `analyzeStructure`.

State that the source changes in place is a class whose methods are proved
against specification functions. `ImportCollector` holds `foundImports`
and `processedFiles`. `StructureAnalyzer` holds `violations` and
`processedDirs`. The properties are lemmas about those functions.

## Model

| member | source | states |
|---|---|---|
| ImportAst.NamedRendering | lib/import-analyzer.js:437-440 | a named specifier renders as "imported as local" exactly when the names differ, and as the local name exactly when they are equal |
| ImportAst.ImportedItemsShape | lib/import-analyzer.js:419-454 | one item per selected specifier: at most one default item, and it comes first; after the default item and before the namespace item come exactly the named specifiers, in declaration order; at most one namespace item, and it comes last; a default (namespace) item is present exactly when the declaration has a default (namespace) specifier; only the declaration's own specifiers are rendered |
| ImportAst.ImportClauseItems | lib/import-analyzer.js:419-454 | for every specifier list an import clause can have, every specifier is rendered once, in declaration order |
| ImportAst.RenderAll | lib/import-analyzer.js:429-450 | the rendered list has one item per specifier, item k being the rendering of specifier k |
| SiblingResolver.Siblings | lib/import-analyzer.js:401-411 | a name is a sibling exactly when the parent lists it as a directory and it is not the target's own name |
| SiblingResolver.SiblingsAppend | lib/import-analyzer.js:404-411 | the sibling filter keeps listing order and multiplicity: the siblings of two listings in sequence are those of the first followed by those of the second, and one entry yields its name once or nothing |
| SiblingResolver.FirstNamed | lib/import-analyzer.js:502-511 | no sibling is chosen exactly when no sibling's name appears as "/s/" in the specifier or equals it; otherwise the chosen one is the first in listing order that does |
| SiblingResolver.RelativeClassification | lib/import-analyzer.js:486-499 | a relative import is reported under sibling s exactly when s is a sibling and the resolved path is parent/s or lies below it; it is reported under none exactly when it is at or below no sibling |
| SiblingResolver.RelativeOutsideParent | lib/import-analyzer.js:486-499 | a relative import resolving outside the parent directory, or to the parent itself, is never reported |
| SiblingResolver.BareClassification | lib/import-analyzer.js:500-516 | a non-relative import is reported under the first sibling it names and under none when it names none |
| SiblingResolver.NeverTheTarget | lib/import-analyzer.js:486-516 | whatever the specifier, the target directory itself is never reported, and only directories of the parent's listing are |
| SiblingResolver.PrefixWithoutSlashNotSibling | lib/import-analyzer.js:502-505 | "feature-b/x" is not an import from sibling "feature-b" |
| SiblingResolver.AliasedPathIsSibling | lib/import-analyzer.js:502-511 | "@/feature-b/x" is an import from sibling "feature-b" |
| Paths.RelativeHead | lib/import-analyzer.js:487-492 | the first segment of the path relative to the parent is s exactly when the path is parent/s or lies below it |
| Paths.ResolveRelative | lib/import-analyzer.js:461 | resolving the relative path of a file against the directory it was taken from gives the file back |
| Messages.MessageSourceInjective | lib/import-analyzer.js:496-514 | two messages for the same import that differ only in the source path are different |
| Messages.ParseWithoutSeparator | lib/import-analyzer.js:342-348 | a text without the separator does not read back (the report throws on it) |
| Messages.ParseMessageRoundTrip | lib/import-analyzer.js:341-354 | reading a message back gives the source path, sibling name, trimmed import path and item list it was built from, the empty list included, under the conditions listed under "Left out" |
| Messages.BodySiblingMatch | lib/import-analyzer.js:348-350 | the sibling pattern, applied to the text after the separator, gives back the sibling name and the import path |
| ReportTree.InsertFailsIffBlocked | lib/import-analyzer.js:357-378 | filing an entry fails exactly when its path runs into a file node where it needs a directory, or ends on a directory node |
| ReportTree.InsertAppends | lib/import-analyzer.js:357-383 | after filing, the file at the entry's path has the entry appended, and every other file keeps its imports |
| ReportTree.InsertCounts | lib/import-analyzer.js:378-383 | each filed entry adds exactly one to the tree's count |
| ReportTree.ConstructorDirectoryCrashes | lib/import-analyzer.js:360-368 | a directory segment named "constructor" makes the insertion as written throw, while the own-key insertion files the entry |
| ReportTree.AsWrittenAgrees | lib/import-analyzer.js:360-376 | when no segment is a name every object inherits, the insertion as written and the own-key insertion agree |
| ReportTree.StructureFailureSticks | lib/import-analyzer.js:340-384 | once a message fails to be read back or filed, the report fails with that first error |
| ReportTree.StructurePlacesEntries | lib/import-analyzer.js:340-384 | each file of the report lists exactly the entries of the messages whose source path has its segments, in message order |
| ReportTree.StructureCountsMessages | lib/import-analyzer.js:321-336 | the tree holds exactly one import per message |
| ReportTree.GenerateJsonReport | lib/import-analyzer.js:332-387 | the report fails exactly when filing fails, with its error; otherwise it holds the target, the time, the number of messages as totalImports and the filed tree, whose count equals totalImports |
| ImportAnalysis.DeclMessagesMembership | lib/import-analyzer.js:476-517 | a message comes from a file's declarations exactly when one of them is a sibling import yielding that message |
| ImportAnalysis.AddAllProperties | lib/import-analyzer.js:496-514 | adding to the insertion-ordered set keeps earlier members in place, holds exactly the old and the added members, and never holds a duplicate |
| ImportAnalysis.ImportCollector.VisitNode | lib/import-analyzer.js:476-534 | the walk adds to foundImports the messages of the node's import declarations in walk order, each only if not already present |
| ImportAnalysis.ImportCollector.VisitChildren | lib/import-analyzer.js:519-532 | walking the child nodes in order adds the messages of their import declarations in walk order, each only if not already present |
| ImportAnalysis.ImportCollector.VisitImport | lib/import-analyzer.js:477-517 | an import declaration that reaches into a sibling adds its message unless already present; any other declaration changes nothing |
| ImportAnalysis.ImportCollector.ProcessFile | lib/import-analyzer.js:456-540 | a file already handled changes nothing; otherwise it is marked and its messages are added, none when it fails to parse |
| ImportAnalysis.ImportCollector.ProcessFiles | lib/import-analyzer.js:456-540 | after the loop over files, the recorded messages are the findings of the file list and the handled set is exactly the set of listed files |
| ImportAnalysis.AnalyzeImports | lib/import-analyzer.js:389-563 | a missing target gives "Directory not found: <target>"; otherwise the recorded messages are the findings of all files and the JSON report is built from them, or its error is returned |
| ImportAnalysis.AnalysisTotals | lib/import-analyzer.js:542-545 | a successful analysis returns the recorded messages, and its totalImports is both their number and the count of its tree |
| ImportAnalysis.FindingsStep | lib/import-analyzer.js:456-459 | a file met again adds nothing; any other file adds its messages to those recorded so far |
| ImportAnalysis.FindingsDistinct | lib/import-analyzer.js:542 | the recorded messages hold no duplicate |
| ImportAnalysis.FindingsMembership | lib/import-analyzer.js:456-540 | a message is recorded exactly when some file parses and one of its declarations is a sibling import yielding that message |
| ImportAnalysis.FindingsOrder | lib/import-analyzer.js:496-514 | the recorded messages are in the order of their first occurrence, file by file and in walk order within a file |
| ImportAnalysis.ParseFailureContributesNothing | lib/import-analyzer.js:537-539 | a file that fails to parse contributes nothing: the findings are those of the other files, in the same order |
| ImportAnalysis.RepeatedFileContributesNothing | lib/import-analyzer.js:457-458 | a file listed a second time contributes nothing |
| ImportAnalysis.SameImportTwiceInOneFile | lib/import-analyzer.js:496-514 | a sibling import written twice in one file is recorded once |
| ImportAnalysis.SameImportInTwoFiles | lib/import-analyzer.js:461-513 | the same import in two different files gives two different messages |
| StructureAnalysis.ComponentFiles | lib/structure-analyzer.js:37-44 | a name is a component file exactly when the listing holds it as a file ending in ".tsx" or ".jsx" and not starting with "index." |
| StructureAnalysis.ComponentFilesExample | lib/structure-analyzer.js:37-44 | index files, ".ts" files and directories are not component files, and the two component files keep their listing order |
| StructureAnalysis.ComponentFilesAppend | lib/structure-analyzer.js:37-44 | the filter keeps listing order and multiplicity: the component files of two listings in sequence are those of the first followed by those of the second, and one entry yields its name once or nothing |
| StructureAnalysis.StructureAnalyzer.ProcessDirectory | lib/structure-analyzer.js:21-71 | the method's result, visited set and violations are those of the walk specification, guard included |
| StructureAnalysis.StructureAnalyzer.ProcessEntries | lib/structure-analyzer.js:61-67 | the loop over a listing collects one result per directory entry, in order, and leaves the visited set and violations as the walk specification does |
| StructureAnalysis.AnalyzeStructure | lib/structure-analyzer.js:5-79 | a missing target gives "Directory not found: <target>", a target that cannot be listed gives the listing error; otherwise the skip list is the option or ["components"] when absent, and the report holds the statistics and violations of a walk from a fresh state |
| StructureAnalysis.ViolationRule | lib/structure-analyzer.js:25-59 | a directory met for the first time is flagged exactly when it has more than one component file and its name is not skipped; a flagged one lists its component files, has type "multiple-components" and its violation comes next; an unflagged one lists no files and has no type |
| StructureAnalysis.GuardSkipsVisited | lib/structure-analyzer.js:22-23 | a directory already visited yields undefined and changes nothing |
| StructureAnalysis.RepeatedDirectoryVisitedOnce | lib/structure-analyzer.js:22-67 | a listing naming a directory twice gets statistics for the first and undefined for the second |
| StructureAnalysis.ProcessDirGrows | lib/structure-analyzer.js:17-67 | the walk never forgets a visited directory or a violation already found |
| StructureAnalysis.SubdirectorySlots | lib/structure-analyzer.js:61-67 | every subdirectory entry gets a slot in subDirectories, whether or not the directory was skipped or flagged |
| StructureAnalysis.ProcessDirTree | lib/structure-analyzer.js:18-67 | on a real tree, from a state that visited nothing below the directory, the walk yields the tree's statistics with every subdirectory present, appends the tree's violations in pre-order, and visits exactly the tree's directories |
| StructureAnalysis.FreshWalk | lib/structure-analyzer.js:73-79 | the walk the analysis starts on a real tree gives the tree's statistics and violations |
| StructureAnalysis.StatsAllPresent | lib/structure-analyzer.js:61-67 | on a real tree there is one slot per directory entry, and the k-th slot holds the statistics of the k-th directory entry, so none is undefined |
| StructureAnalysis.FlaggedShape | lib/structure-analyzer.js:46-58 | every violation has type "multiple-components", at least two component files, and the message "Directory contains multiple component files: " followed by the files joined with ", " |
| StructureAnalysis.ViolationsMatchStats | lib/structure-analyzer.js:46-67 | the violations name, in order, exactly the directories whose statistics are flagged, so there are as many violations as flagged statistics |

## Left out

- The HTML reports, the tree view and the browser scripts are not modelled (presentation only). `prepareGraphData` and `prepareImportDetails` are left out too; the first only feeds the graph view and the second is never called.
- `bin/import-checker.js` is not part of this model (command-line plumbing and report writing).
- File-system access, globbing and parsing are inputs. These are whether the target exists, the parent's listing, the list of matched files, a parse function from file to syntax tree or error, and a directory tree of entries. Writing the report files is not modelled.
- The clock reading (`analyzedAt`) is a parameter, and the parse-error log line is not modelled.
- Paths are absolute, with `/` as the separator. The working directory is a parameter. The target is taken to be a resolved path whose last segment is a directory name, as the command line passes it. A target typed as `.` or ending in `..` is not modelled: there the source takes `dirname` and `basename` of the text itself, so its siblings and its skip test differ. `AbsoluteText` of the path stands for the target text, in the error message and in `targetDirectory`.
- ImportCollector.VisitNode: the walk covers the child nodes of non-import nodes only. The children of an import declaration (its source literal and specifiers) hold no import declaration, so skipping them changes no result. The syntax tree's own key order is taken as the order of `children`.
- Messages.ParseMessageRoundTrip: proved under stronger conditions than "the source path does not contain the separator". The separator must first occur where the message adds it. "(importing: " must not occur in the source path followed by the separator. The sibling name must be non-empty, without quotes or whitespace. The import path must be non-empty, without whitespace or "(". No item may hold ",", ")" or a line terminator.
- ImportAnalysis.ImportCollector.ProcessFile: every matched path is taken to be a readable file. In the source, `readFileSync` runs before the `try`, so a matched path that cannot be read, such as a directory named like a source file, aborts the whole analysis with that error; the model has no such outcome.
- StructureAnalysis.StructureAnalyzer.ProcessDirectory: every directory of the entry tree is taken to be listable. In the source, a `readdirSync` failure below the target aborts the whole analysis; the entry tree cannot express it.
- ReportTree.GenerateJsonReport: files entries with the own-key insertion `Insert`, the behaviour the "## Findings" row gives as intended. The source's lookup also sees inherited names and throws on a directory segment such as `constructor`; `InsertAsWritten` models that, and `AsWrittenAgrees` shows the two agree when no segment is an inherited name. `Structure`, and through it `ImportAnalysis.AnalyzeImports`, inherit this.
- StructureAnalysis.ProcessDirTree: stated for trees whose listings have distinct names, as a file system's do. On other inputs `GuardSkipsVisited` and `RepeatedDirectoryVisitedOnce` describe what the guard does.
- Symbolic links, and entries that `statSync` cannot read, are not modelled. The entry tree is finite and each entry is a file, a directory or neither.
- Listing names are taken to be path segments, so `path.join(dir, item)` is the directory's path with the name appended.
- Unicode is characters, with no normalisation. Object keys that look like integers, which JavaScript enumerates first, are kept in insertion order.

## Findings

| source | as written | input that shows it | evidently intended | confidence | as-written member | corrected member |
|---|---|---|---|---|---|---|
| lib/import-analyzer.js:360-368 | `if (!current[part])` looks the segment up on a plain object, so it also sees names every object inherits | a recorded message whose source path is `src/constructor/Button.tsx`: `current["constructor"]` is the `Object` function, no node is created, `.children` is `undefined` and the next lookup throws "Cannot read properties of undefined (reading 'Button.tsx')" | a directory named like an inherited member is filed like any other directory | not executed | ReportTree.ConstructorDirectoryCrashes | ReportTree.InsertAppends |
