/**
 * The part of a parsed module the import analyser looks at: import
 * declarations (section 16.2.2 of ECMA-262, "Imports") with their
 * specifiers, inside a tree of other nodes, and how `getImportedItems`
 * renders a declaration's bindings as text.
 */
module ImportAst {
  import opened Results

  datatype Specifier =
    | DefaultSpecifier(local: string)                  // import D from "m"
    | NamedSpecifier(imported: string, local: string)  // import { a as b } from "m"
    | NamespaceSpecifier(local: string)                // import * as ns from "m"

  datatype ImportDeclaration = ImportDeclaration(source: string, specifiers: seq<Specifier>)

  /** A syntax-tree node: an import declaration, or any other node with its child nodes in key order. */
  datatype Node =
    | Import(decl: ImportDeclaration)
    | Other(children: seq<Node>)

  /** The import declarations of a tree in the order a depth-first walk meets them. */
  function ImportsOf(n: Node): seq<ImportDeclaration>
    decreases n
  {
    match n
    case Import(d) => [d]
    case Other(cs) => ImportsOfAll(cs)
  }

  function ImportsOfAll(ns: seq<Node>): seq<ImportDeclaration>
    decreases ns
  {
    if ns == [] then [] else ImportsOfAll(ns[..|ns| - 1]) + ImportsOf(ns[|ns| - 1])
  }

  /** The text one specifier contributes to the imported-items list. */
  function Render(s: Specifier): string {
    match s
    case DefaultSpecifier(l) => "default as " + l
    case NamedSpecifier(i, l) => if l != i then i + " as " + l else l
    case NamespaceSpecifier(l) => "* as " + l
  }

  /** A named specifier shows its imported name exactly when it renames the binding. */
  lemma NamedRendering(imported: string, local: string)
    ensures Render(NamedSpecifier(imported, local)) == imported + " as " + local <==> imported != local
    ensures Render(NamedSpecifier(imported, local)) == local <==> imported == local
  {
    if imported == local {
      assert |imported + " as " + local| > |local|;
    }
  }

  /** `specifiers.find(...)`: the first specifier of the given kind. */
  function FirstDefault(specs: seq<Specifier>): Option<Specifier> {
    if specs == [] then None
    else if specs[0].DefaultSpecifier? then Some(specs[0])
    else FirstDefault(specs[1..])
  }

  function FirstNamespace(specs: seq<Specifier>): Option<Specifier> {
    if specs == [] then None
    else if specs[0].NamespaceSpecifier? then Some(specs[0])
    else FirstNamespace(specs[1..])
  }

  /** `specifiers.filter(...)`: the named specifiers, in declaration order. */
  function Named(specs: seq<Specifier>): seq<Specifier> {
    if specs == [] then []
    else (if specs[0].NamedSpecifier? then [specs[0]] else []) + Named(specs[1..])
  }

  function OptionalList(o: Option<Specifier>): seq<Specifier> {
    if o.Some? then [o.value] else []
  }

  /** The specifiers `getImportedItems` renders: the default one, then the named ones, then the namespace one. */
  function Selected(specs: seq<Specifier>): seq<Specifier> {
    OptionalList(FirstDefault(specs)) + Named(specs) + OptionalList(FirstNamespace(specs))
  }

  function RenderAll(specs: seq<Specifier>): (items: seq<string>)
    ensures |items| == |specs| && forall k :: 0 <= k < |specs| ==> items[k] == Render(specs[k])
  {
    if specs == [] then [] else [Render(specs[0])] + RenderAll(specs[1..])
  }

  /** `getImportedItems(node)`. */
  function ImportedItems(specs: seq<Specifier>): seq<string> {
    RenderAll(Selected(specs))
  }

  function CountDefaults(specs: seq<Specifier>): nat {
    if specs == [] then 0 else (if specs[0].DefaultSpecifier? then 1 else 0) + CountDefaults(specs[1..])
  }

  function CountNamespaces(specs: seq<Specifier>): nat {
    if specs == [] then 0 else (if specs[0].NamespaceSpecifier? then 1 else 0) + CountNamespaces(specs[1..])
  }

  lemma {:induction false} NamedOnlyNamed(specs: seq<Specifier>)
    ensures forall k :: 0 <= k < |Named(specs)| ==> Named(specs)[k].NamedSpecifier?
    ensures CountDefaults(Named(specs)) == 0 && CountNamespaces(Named(specs)) == 0
    ensures Named(specs) == [] <==> forall k :: 0 <= k < |specs| ==> !specs[k].NamedSpecifier?
  {
    if specs != [] {
      NamedOnlyNamed(specs[1..]);
      var head := if specs[0].NamedSpecifier? then [specs[0]] else [];
      CountsAppend(head, Named(specs[1..]));
      assert forall k :: 1 <= k < |specs| ==> specs[k] == specs[1..][k - 1];
    }
  }

  lemma {:induction false} CountsAppend(a: seq<Specifier>, b: seq<Specifier>)
    ensures CountDefaults(a + b) == CountDefaults(a) + CountDefaults(b)
    ensures CountNamespaces(a + b) == CountNamespaces(a) + CountNamespaces(b)
  {
    if a != [] {
      assert (a + b)[1..] == a[1..] + b;
      CountsAppend(a[1..], b);
    } else {
      assert a + b == b;
    }
  }

  lemma {:induction false} FirstDefaultIsFirst(specs: seq<Specifier>)
    ensures FirstDefault(specs).Some? <==> CountDefaults(specs) > 0
    ensures FirstDefault(specs).Some? ==> FirstDefault(specs).value.DefaultSpecifier? && FirstDefault(specs).value in specs
  {
    if specs != [] {
      FirstDefaultIsFirst(specs[1..]);
    }
  }

  lemma {:induction false} FirstNamespaceIsFirst(specs: seq<Specifier>)
    ensures FirstNamespace(specs).Some? <==> CountNamespaces(specs) > 0
    ensures FirstNamespace(specs).Some? ==> FirstNamespace(specs).value.NamespaceSpecifier? && FirstNamespace(specs).value in specs
  {
    if specs != [] {
      FirstNamespaceIsFirst(specs[1..]);
    }
  }

  /**
   * The rendered list is one item per selected specifier: at most one from
   * a default specifier, and it comes first; every named specifier in
   * declaration order; at most one from a namespace specifier, and it comes
   * last. A default or namespace item is there exactly when the declaration
   * has such a specifier.
   */
  lemma ImportedItemsShape(specs: seq<Specifier>)
    ensures |ImportedItems(specs)| == |Selected(specs)|
    ensures forall k :: 0 <= k < |Selected(specs)| ==> ImportedItems(specs)[k] == Render(Selected(specs)[k])
    ensures CountDefaults(Selected(specs)) == (if CountDefaults(specs) > 0 then 1 else 0)
    ensures CountNamespaces(Selected(specs)) == (if CountNamespaces(specs) > 0 then 1 else 0)
    ensures CountDefaults(specs) > 0 ==> Selected(specs)[0].DefaultSpecifier?
    ensures CountNamespaces(specs) > 0 ==> Selected(specs)[|Selected(specs)| - 1].NamespaceSpecifier?
    ensures forall sp :: sp in Selected(specs) ==> sp in specs
    ensures var first := if CountDefaults(specs) > 0 then 1 else 0;
      var last := if CountNamespaces(specs) > 0 then 1 else 0;
      first + last <= |Selected(specs)| && Selected(specs)[first..|Selected(specs)| - last] == Named(specs)
  {
    FirstDefaultIsFirst(specs);
    FirstNamespaceIsFirst(specs);
    SelectedCounts(specs);
    SelectedEnds(specs);
    SelectedMiddle(specs);
    NamedInSpecs(specs);
  }

  /** The selection holds one default (namespace) specifier exactly when the declaration has one. */
  lemma SelectedCounts(specs: seq<Specifier>)
    ensures CountDefaults(Selected(specs)) == (if CountDefaults(specs) > 0 then 1 else 0)
    ensures CountNamespaces(Selected(specs)) == (if CountNamespaces(specs) > 0 then 1 else 0)
  {
    var d := OptionalList(FirstDefault(specs));
    var ns := OptionalList(FirstNamespace(specs));
    FirstDefaultIsFirst(specs);
    FirstNamespaceIsFirst(specs);
    NamedOnlyNamed(specs);
    CountsAppend(d, Named(specs));
    CountsAppend(d + Named(specs), ns);
  }

  /** A selected default specifier comes first, a selected namespace specifier last. */
  lemma SelectedEnds(specs: seq<Specifier>)
    ensures FirstDefault(specs).Some? ==> Selected(specs)[0] == FirstDefault(specs).value
    ensures FirstNamespace(specs).Some? ==> Selected(specs)[|Selected(specs)| - 1] == FirstNamespace(specs).value
  {
    var d := OptionalList(FirstDefault(specs));
    var ns := OptionalList(FirstNamespace(specs));
    var sel := Selected(specs);
    assert sel == d + Named(specs) + ns;
    if d != [] {
      assert sel[0] == d[0];
    }
    if ns != [] {
      assert sel[|sel| - 1] == ns[0];
    }
  }

  /** Between the optional default and the optional namespace specifier, the selection is the named specifiers. */
  lemma SelectedMiddle(specs: seq<Specifier>)
    ensures var first := |OptionalList(FirstDefault(specs))|;
      var last := |OptionalList(FirstNamespace(specs))|;
      first + last <= |Selected(specs)| && Selected(specs)[first..|Selected(specs)| - last] == Named(specs)
  {
    var d := OptionalList(FirstDefault(specs));
    var ns := OptionalList(FirstNamespace(specs));
    var sel := Selected(specs);
    assert sel == d + Named(specs) + ns;
    assert sel[|d|..|sel| - |ns|] == Named(specs);
  }

  lemma {:induction false} NamedInSpecs(specs: seq<Specifier>)
    ensures forall sp :: sp in Named(specs) ==> sp in specs
  {
    if specs != [] {
      NamedInSpecs(specs[1..]);
    }
  }

  /**
   * The specifier lists an import clause can have: an optional default
   * binding, followed by either one namespace import or named imports.
   */
  predicate IsImportClause(specs: seq<Specifier>) {
    var rest := if |specs| > 0 && specs[0].DefaultSpecifier? then specs[1..] else specs;
    (|rest| == 1 && rest[0].NamespaceSpecifier?)
    || (forall k :: 0 <= k < |rest| ==> rest[k].NamedSpecifier?)
  }

  lemma {:induction false} NamedOfAllNamed(specs: seq<Specifier>)
    requires forall k :: 0 <= k < |specs| ==> specs[k].NamedSpecifier?
    ensures Named(specs) == specs && FirstDefault(specs) == None && FirstNamespace(specs) == None
  {
    if specs != [] {
      NamedOfAllNamed(specs[1..]);
    }
  }

  /** A leading default specifier is selected first; the rest is selected as if it stood alone. */
  lemma SelectedAfterDefault(d: Specifier, rest: seq<Specifier>)
    requires d.DefaultSpecifier? && FirstDefault(rest) == None
    ensures Selected([d] + rest) == [d] + Selected(rest)
  {
    var specs := [d] + rest;
    assert specs[0] == d && specs[1..] == rest;
    assert FirstDefault(specs) == Some(d);
    assert Named(specs) == Named(rest);
    assert FirstNamespace(specs) == FirstNamespace(rest);
  }

  /** Without a default specifier, a clause that is one namespace import or only named imports is selected as written. */
  lemma SelectedWithoutDefault(rest: seq<Specifier>)
    requires (|rest| == 1 && rest[0].NamespaceSpecifier?) || (forall k :: 0 <= k < |rest| ==> rest[k].NamedSpecifier?)
    ensures FirstDefault(rest) == None && Selected(rest) == rest
  {
    if |rest| == 1 && rest[0].NamespaceSpecifier? {
      assert rest[1..] == [];
      assert Named(rest) == [] && FirstDefault(rest) == None && FirstNamespace(rest) == Some(rest[0]);
    } else {
      NamedOfAllNamed(rest);
    }
  }

  /** For a declaration the grammar allows, every specifier is rendered once, in declaration order. */
  lemma ImportClauseItems(specs: seq<Specifier>)
    requires IsImportClause(specs)
    ensures ImportedItems(specs) == RenderAll(specs)
  {
    if |specs| > 0 && specs[0].DefaultSpecifier? {
      var rest := specs[1..];
      SelectedWithoutDefault(rest);
      assert specs == [specs[0]] + rest;
      SelectedAfterDefault(specs[0], rest);
    } else {
      SelectedWithoutDefault(specs);
    }
  }
}
