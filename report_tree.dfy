/**
 * The JSON report of the import analyser: every recorded message is read
 * back and filed under its source path in a tree of directory and file
 * nodes, and the imports of a subtree are counted.
 *
 * The tree's children are JavaScript plain objects keyed by segment name.
 * A lookup on such an object also sees the members every object inherits
 * (`constructor`, `toString`, ...). `InsertWith` takes the set of names a
 * lookup inherits: the source's behaviour is `InsertAsWritten`, which
 * inherits the members of `Object.prototype`; `Insert`, which inherits
 * nothing, is the behaviour the report evidently intends and the one the
 * rest of the model uses.
 */
module ReportTree {
  import opened Results
  import opened Strings
  import opened Paths
  import opened Messages

  /** One import as the report lists it under its file. */
  datatype ImportEntry = ImportEntry(importPath: string, siblingDirectory: string, importedItems: seq<string>, absolutePath: Path)

  /** A file with its imports, or a directory whose children are keyed by name in insertion order. */
  datatype TreeNode =
    | FileNode(imports: seq<ImportEntry>)
    | DirectoryNode(children: seq<Child>)

  /** One property of a children object. */
  datatype Child = Child(name: string, node: TreeNode)

  type Children = seq<Child>

  /** The own property `key` of a children object. */
  function Lookup(cs: Children, key: string): Option<TreeNode> {
    if cs == [] then None
    else if cs[0].name == key then Some(cs[0].node)
    else Lookup(cs[1..], key)
  }

  /** Assigning property `key`: an existing key keeps its place, a new one goes last. */
  function Put(cs: Children, key: string, node: TreeNode): (r: Children)
    ensures Lookup(r, key) == Some(node)
    ensures forall k :: k != key ==> Lookup(r, k) == Lookup(cs, k)
  {
    if cs == [] then [Child(key, node)]
    else if cs[0].name == key then [Child(key, node)] + cs[1..]
    else [cs[0]] + Put(cs[1..], key, node)
  }

  /** `countTotalImports(node)`. */
  function CountTotalImports(node: TreeNode): nat
    decreases node
  {
    match node
    case FileNode(imports) => |imports|
    case DirectoryNode(cs) => SumCounts(cs)
  }

  /** The sum of `countTotalImports` over the values of a children object. */
  function SumCounts(cs: Children): nat
    decreases cs
  {
    if cs == [] then 0 else CountTotalImports(cs[0].node) + SumCounts(cs[1..])
  }

  /** The members of `Object.prototype`: a lookup of one of these names on a plain object finds a value that is not a node. */
  const ObjectPrototypeKeys: set<string> := {
    "constructor", "hasOwnProperty", "isPrototypeOf", "propertyIsEnumerable",
    "toLocaleString", "toString", "valueOf", "__proto__", "__defineGetter__",
    "__defineSetter__", "__lookupGetter__", "__lookupSetter__"}

  /**
   * Filing `entry` at the file `parts` below `cs`: a missing directory or
   * file node is created, the entry is appended to the file's imports. A
   * directory step onto a file node, or onto an inherited value, leaves
   * the walk at `undefined` and the next lookup throws; a file step onto a
   * directory node, or onto an inherited value, throws at `push`.
   */
  function InsertWith(cs: Children, parts: seq<string>, entry: ImportEntry, inherited: set<string>): Result<Children>
    requires |parts| >= 1
    decreases |parts|
  {
    var name := parts[0];
    var own := Lookup(cs, name);
    if |parts| == 1 then
      if own.Some? then
        if own.value.FileNode? then Ok(Put(cs, name, FileNode(own.value.imports + [entry])))
        else Err(UndefinedProperty("push"))
      else if name in inherited then Err(UndefinedProperty("push"))
      else Ok(Put(cs, name, FileNode([entry])))
    else if (own.Some? && own.value.FileNode?) || (own.None? && name in inherited) then
      Err(UndefinedProperty(parts[1]))
    else
      var sub := if own.Some? then own.value.children else [];
      match InsertWith(sub, parts[1..], entry, inherited)
      case Err(e) => Err(e)
      case Ok(sub') => Ok(Put(cs, name, DirectoryNode(sub')))
  }

  /** The insertion the source performs, on plain objects. */
  function InsertAsWritten(cs: Children, parts: seq<string>, entry: ImportEntry): Result<Children>
    requires |parts| >= 1
  {
    InsertWith(cs, parts, entry, ObjectPrototypeKeys)
  }

  /** The insertion on objects that only hold their own keys. */
  function Insert(cs: Children, parts: seq<string>, entry: ImportEntry): Result<Children>
    requires |parts| >= 1
  {
    InsertWith(cs, parts, entry, {})
  }

  /** The imports filed at the file `parts`; empty when no file node is there. */
  function ImportsAt(cs: Children, parts: seq<string>): seq<ImportEntry>
    requires |parts| >= 1
    decreases |parts|
  {
    match Lookup(cs, parts[0])
    case None => []
    case Some(FileNode(imports)) => if |parts| == 1 then imports else []
    case Some(DirectoryNode(sub)) => if |parts| == 1 then [] else ImportsAt(sub, parts[1..])
  }

  /** The path `parts` runs into a file where it needs a directory, or ends on a directory. */
  predicate Blocked(cs: Children, parts: seq<string>)
    requires |parts| >= 1
    decreases |parts|
  {
    match Lookup(cs, parts[0])
    case None => false
    case Some(FileNode(_)) => |parts| > 1
    case Some(DirectoryNode(sub)) => |parts| == 1 || Blocked(sub, parts[1..])
  }

  /** Filing fails exactly when the path is blocked by a node of the other kind. */
  lemma {:induction false} InsertFailsIffBlocked(cs: Children, parts: seq<string>, entry: ImportEntry)
    requires |parts| >= 1
    ensures Insert(cs, parts, entry).Err? <==> Blocked(cs, parts)
    decreases |parts|
  {
    var own := Lookup(cs, parts[0]);
    if |parts| > 1 {
      var sub := if own.Some? && own.value.DirectoryNode? then own.value.children else [];
      InsertFailsIffBlocked(sub, parts[1..], entry);
      if own.None? {
        EmptyNeverBlocked(parts[1..]);
      }
    }
  }

  lemma EmptyNeverBlocked(parts: seq<string>)
    requires |parts| >= 1
    ensures !Blocked([], parts)
  {
  }

  /** After filing, the file `parts` has the entry appended, and every other file keeps its imports. */
  lemma {:induction false} InsertAppends(cs: Children, parts: seq<string>, entry: ImportEntry, q: seq<string>)
    requires |parts| >= 1 && |q| >= 1 && Insert(cs, parts, entry).Ok?
    ensures ImportsAt(Insert(cs, parts, entry).value, q) == ImportsAt(cs, q) + (if q == parts then [entry] else [])
    decreases |parts|
  {
    var name := parts[0];
    var own := Lookup(cs, name);
    var r := Insert(cs, parts, entry).value;
    if q[0] != name {
      assert Lookup(r, q[0]) == Lookup(cs, q[0]);
    } else if |parts| > 1 {
      var sub := if own.Some? then own.value.children else [];
      var sub' := Insert(sub, parts[1..], entry).value;
      assert Lookup(r, name) == Some(DirectoryNode(sub'));
      if |q| > 1 {
        InsertAppends(sub, parts[1..], entry, q[1..]);
        assert q == parts <==> q[1..] == parts[1..];
        if own.None? {
          assert ImportsAt([], q[1..]) == [];
        }
      }
    }
  }

  /** The total of a tree's counts grows by one with each filed entry. */
  lemma {:induction false} InsertCounts(cs: Children, parts: seq<string>, entry: ImportEntry)
    requires |parts| >= 1 && Insert(cs, parts, entry).Ok?
    ensures SumCounts(Insert(cs, parts, entry).value) == SumCounts(cs) + 1
    decreases |parts|
  {
    var name := parts[0];
    var own := Lookup(cs, name);
    var r := Insert(cs, parts, entry).value;
    if |parts| == 1 {
      SumPut(cs, name, if own.Some? then FileNode(own.value.imports + [entry]) else FileNode([entry]));
    } else {
      var sub := if own.Some? then own.value.children else [];
      var sub' := Insert(sub, parts[1..], entry).value;
      InsertCounts(sub, parts[1..], entry);
      SumPut(cs, name, DirectoryNode(sub'));
    }
  }

  lemma {:induction false} SumPut(cs: Children, key: string, node: TreeNode)
    ensures SumCounts(Put(cs, key, node)) + (if Lookup(cs, key).Some? then CountTotalImports(Lookup(cs, key).value) else 0)
      == SumCounts(cs) + CountTotalImports(node)
  {
    if cs != [] && cs[0].name != key {
      SumPut(cs[1..], key, node);
    }
  }

  /** A directory named like an inherited member crashes the report as written; the own-key insertion files the entry. */
  lemma ConstructorDirectoryCrashes(entry: ImportEntry)
    ensures InsertAsWritten([], ["src", "constructor", "Button.tsx"], entry) == Err(UndefinedProperty("Button.tsx"))
    ensures Insert([], ["src", "constructor", "Button.tsx"], entry).Ok?
    ensures ImportsAt(Insert([], ["src", "constructor", "Button.tsx"], entry).value, ["src", "constructor", "Button.tsx"]) == [entry]
  {
    var parts := ["src", "constructor", "Button.tsx"];
    assert parts[1..] == ["constructor", "Button.tsx"];
    assert parts[1..][1..] == ["Button.tsx"];
    InsertAppends([], parts, entry, parts);
  }

  /** Where no segment is an inherited name, the source's insertion is the own-key one. */
  lemma {:induction false} AsWrittenAgrees(cs: Children, parts: seq<string>, entry: ImportEntry)
    requires |parts| >= 1
    requires forall k :: 0 <= k < |parts| ==> parts[k] !in ObjectPrototypeKeys
    ensures InsertAsWritten(cs, parts, entry) == Insert(cs, parts, entry)
    decreases |parts|
  {
    if |parts| > 1 {
      var own := Lookup(cs, parts[0]);
      var sub := if own.Some? && own.value.DirectoryNode? then own.value.children else [];
      assert forall k :: 0 <= k < |parts[1..]| ==> parts[1..][k] == parts[k + 1];
      AsWrittenAgrees(sub, parts[1..], entry);
    }
  }

  /** The entry the report files for a message read back. */
  function EntryOf(p: ParsedMessage, cwd: Path): ImportEntry {
    ImportEntry(p.importPath, p.siblingDirectory, p.importedItems, Resolve(cwd, p.sourcePath))
  }

  /** The segments of a source path, split at the POSIX separator. */
  function PathParts(sourcePath: string): seq<string> {
    Split(sourcePath, "/")
  }

  /** Reading back one message and filing its entry. */
  function FileMessage(cs: Children, m: string, cwd: Path): Result<Children> {
    match ParseMessage(m)
    case Err(e) => Err(e)
    case Ok(p) => Insert(cs, PathParts(p.sourcePath), EntryOf(p, cwd))
  }

  /** The report's structure after filing the messages in order; the first failure is the result. */
  function Structure(msgs: seq<string>, cwd: Path): Result<Children>
    decreases |msgs|
  {
    if msgs == [] then Ok([])
    else
      match Structure(msgs[..|msgs| - 1], cwd)
      case Err(e) => Err(e)
      case Ok(cs) => FileMessage(cs, msgs[|msgs| - 1], cwd)
  }

  /** Once filing fails, later messages do not change the failure. */
  lemma {:induction false} StructureFailureSticks(msgs: seq<string>, i: nat, cwd: Path)
    requires i <= |msgs| && Structure(msgs[..i], cwd).Err?
    ensures Structure(msgs, cwd) == Structure(msgs[..i], cwd)
    decreases |msgs| - i
  {
    if i < |msgs| {
      assert msgs[..i + 1][..i] == msgs[..i];
      StructureFailureSticks(msgs, i + 1, cwd);
    } else {
      assert msgs[..i] == msgs;
    }
  }

  /** The entries of the messages whose source path has the segments `q`, in message order. */
  function EntriesFor(msgs: seq<string>, q: seq<string>, cwd: Path): seq<ImportEntry>
    decreases |msgs|
  {
    if msgs == [] then []
    else
      var rest := EntriesFor(msgs[..|msgs| - 1], q, cwd);
      match ParseMessage(msgs[|msgs| - 1])
      case Err(_) => rest
      case Ok(p) => rest + (if PathParts(p.sourcePath) == q then [EntryOf(p, cwd)] else [])
  }

  /** Each file of the report lists exactly the entries of the messages from its path, in order. */
  lemma {:induction false} StructurePlacesEntries(msgs: seq<string>, q: seq<string>, cwd: Path)
    requires |q| >= 1 && Structure(msgs, cwd).Ok?
    ensures ImportsAt(Structure(msgs, cwd).value, q) == EntriesFor(msgs, q, cwd)
    decreases |msgs|
  {
    if msgs != [] {
      var init := msgs[..|msgs| - 1];
      StructurePlacesEntries(init, q, cwd);
      var p := ParseMessage(msgs[|msgs| - 1]).value;
      InsertAppends(Structure(init, cwd).value, PathParts(p.sourcePath), EntryOf(p, cwd), q);
    } else {
      assert Lookup([], q[0]) == None;
    }
  }

  /** The tree holds one import per message. */
  lemma {:induction false} StructureCountsMessages(msgs: seq<string>, cwd: Path)
    requires Structure(msgs, cwd).Ok?
    ensures SumCounts(Structure(msgs, cwd).value) == |msgs|
    decreases |msgs|
  {
    if msgs != [] {
      var init := msgs[..|msgs| - 1];
      StructureCountsMessages(init, cwd);
      var p := ParseMessage(msgs[|msgs| - 1]).value;
      InsertCounts(Structure(init, cwd).value, PathParts(p.sourcePath), EntryOf(p, cwd));
    }
  }

  /** The JSON report: the target as given, the time of the run, the number of messages and the tree. */
  datatype JsonReport = JsonReport(targetDirectory: string, analyzedAt: string, totalImports: nat, structure: Children)

  /**
   * `generateJsonReport(imports, targetDir)`, with the clock reading passed
   * in. It fails with the first message that cannot be read back or filed;
   * otherwise `totalImports` is the number of messages, which the tree's
   * count agrees with.
   */
  method GenerateJsonReport(imports: seq<string>, targetDir: string, analyzedAt: string, cwd: Path)
    returns (r: Result<JsonReport>)
    ensures r.Err? <==> Structure(imports, cwd).Err?
    ensures r.Err? ==> r.error == Structure(imports, cwd).error
    ensures r.Ok? ==> r.value == JsonReport(targetDir, analyzedAt, |imports|, Structure(imports, cwd).value)
    ensures r.Ok? ==> SumCounts(r.value.structure) == r.value.totalImports
  {
    var structure: Children := [];
    for i := 0 to |imports|
      invariant Structure(imports[..i], cwd) == Ok(structure)
    {
      assert imports[..i + 1][..i] == imports[..i];
      var parsed := ParseMessage(imports[i]);
      if parsed.Err? {
        StructureFailureSticks(imports, i + 1, cwd);
        return Err(parsed.error);
      }
      var parts := PathParts(parsed.value.sourcePath);
      var filed := Insert(structure, parts, EntryOf(parsed.value, cwd));
      if filed.Err? {
        StructureFailureSticks(imports, i + 1, cwd);
        return Err(filed.error);
      }
      structure := filed.value;
    }
    assert imports[..|imports|] == imports;
    StructureCountsMessages(imports, cwd);
    r := Ok(JsonReport(targetDir, analyzedAt, |imports|, structure));
  }
}
