/**
 * The text of one recorded sibling import, and how the JSON report reads
 * it back: the message is split at the first separator, the sibling name
 * and import path are taken with the regular expression
 * `'([^']+)':\s*([^(]+)` from the text after it, and the imported items
 * with `\(importing: (.*?)\)` from the whole message. The two regular
 * expressions are modelled with the leftmost, backtracking semantics of
 * section 22.2 of ECMA-262.
 */
module Messages {
  import opened Results
  import opened Strings

  const Separator := " imports from sibling directory "
  const ItemsOpen := "(importing: "

  /** The list after the import path: "(importing: a, b)". */
  function ItemsList(items: seq<string>): string {
    ItemsOpen + Join(items, ", ") + ")"
  }

  /** The part after the import path: empty, or " (importing: a, b)". */
  function ItemsSuffix(items: seq<string>): string {
    if |items| > 0 then " " + ItemsList(items) else ""
  }

  /** The quoted sibling name and the import path: "'feature-b': ../feature-b/x". */
  function Quote(siblingDir: string, importPath: string): string {
    "'" + siblingDir + "': " + importPath
  }

  /** Everything after the separator. */
  function Body(siblingDir: string, importPath: string, items: seq<string>): string {
    Quote(siblingDir, importPath) + " " + ItemsSuffix(items)
  }

  /** The entry recorded for an import of `importPath` from sibling `siblingDir` in the file at `sourcePath`. */
  function Message(sourcePath: string, siblingDir: string, importPath: string, items: seq<string>): string {
    sourcePath + Separator + Body(siblingDir, importPath, items)
  }

  /** Messages for different source paths differ, all else being equal. */
  lemma MessageSourceInjective(p1: string, p2: string, siblingDir: string, importPath: string, items: seq<string>)
    requires Message(p1, siblingDir, importPath, items) == Message(p2, siblingDir, importPath, items)
    ensures p1 == p2
  {
    var m := Message(p1, siblingDir, importPath, items);
    assert |p1| == |p2|;
    assert p1 == m[..|p1|] == p2;
  }

  /** The character classes the two regular expressions repeat. */
  datatype CharClass =
    | NotQuote       // [^']
    | Space          // \s
    | NotOpenParen   // [^(]
    | ItemChar       // . that can precede the closing ")" of a lazy (.*?)\)

  predicate InClass(c: char, cls: CharClass) {
    match cls
    case NotQuote => c != '\''
    case Space => IsSpace(c)
    case NotOpenParen => c != '('
    case ItemChar => c != ')' && !IsLineTerminator(c)
  }

  /** End of the longest run of `cls` characters that starts at `i`. */
  function RunEnd(s: string, i: nat, cls: CharClass): (e: nat)
    requires i <= |s|
    ensures i <= e <= |s|
    ensures forall k {:trigger InClass(s[k], cls)} :: i <= k < e ==> InClass(s[k], cls)
    ensures e == |s| || !InClass(s[e], cls)
    decreases |s| - i
  {
    if i < |s| && InClass(s[i], cls) then RunEnd(s, i + 1, cls) else i
  }

  /**
   * A match of `'([^']+)':\s*([^(]+)` starting at `p`, as its two groups.
   * `[^']+` cannot give anything back; when `[^(]+` finds nothing after the
   * longest `\s*`, the engine backtracks one whitespace character, which
   * then is the whole second group.
   */
  function SiblingMatchAt(s: string, p: nat): Option<(string, string)>
    requires p <= |s|
  {
    if p < |s| && s[p] == '\'' then
      var e1 := RunEnd(s, p + 1, NotQuote);
      if e1 > p + 1 && e1 + 1 < |s| && s[e1 + 1] == ':' then
        var w := RunEnd(s, e1 + 2, Space);
        var e2 := RunEnd(s, w, NotOpenParen);
        if e2 > w then Some((s[p + 1..e1], s[w..e2]))
        else if w > e1 + 2 then Some((s[p + 1..e1], s[w - 1..w]))
        else None
      else None
    else None
  }

  /** The leftmost match at or after `p`. */
  function SiblingMatchFrom(s: string, p: nat): Option<(string, string)>
    requires p <= |s|
    decreases |s| - p
  {
    var here := SiblingMatchAt(s, p);
    if here.Some? || p == |s| then here else SiblingMatchFrom(s, p + 1)
  }

  /** `s.match(/'([^']+)':\s*([^(]+)/)`. */
  function SiblingMatch(s: string): Option<(string, string)> {
    SiblingMatchFrom(s, 0)
  }

  /** A match of `\(importing: (.*?)\)` starting at `p`: the shortest group closed by ")" on the same line. */
  function ItemsMatchAt(s: string, p: nat): Option<string>
    requires p <= |s|
  {
    if OccursAt(s, ItemsOpen, p) then
      var e := RunEnd(s, p + |ItemsOpen|, ItemChar);
      if e < |s| && s[e] == ')' then Some(s[p + |ItemsOpen|..e]) else None
    else None
  }

  function ItemsMatchFrom(s: string, p: nat): Option<string>
    requires p <= |s|
    decreases |s| - p
  {
    var here := ItemsMatchAt(s, p);
    if here.Some? || p == |s| then here else ItemsMatchFrom(s, p + 1)
  }

  /** `s.match(/\(importing: (.*?)\)/)`. */
  function ItemsMatch(s: string): Option<string> {
    ItemsMatchFrom(s, 0)
  }

  /** What the JSON report reads back from one message. */
  datatype ParsedMessage = ParsedMessage(sourcePath: string, siblingDirectory: string, importPath: string, importedItems: seq<string>)

  /**
   * Reading a message back. Without the separator there is no second
   * piece, and matching on the missing piece throws a `TypeError`; an
   * unmatched pattern yields empty fields.
   */
  function ParseMessage(m: string): Result<ParsedMessage> {
    var pieces := Split(m, Separator);
    if |pieces| < 2 then Err(UndefinedProperty("match"))
    else
      var sm := SiblingMatch(pieces[1]);
      var siblingDir := if sm.Some? then sm.value.0 else "";
      var importPath := if sm.Some? then Trim(sm.value.1) else "";
      var im := ItemsMatch(m);
      var items := if im.Some? then Split(im.value, ", ") else [];
      Ok(ParsedMessage(pieces[0], siblingDir, importPath, items))
  }

  /** A text without the separator never reads back. */
  lemma ParseWithoutSeparator(m: string)
    requires !Contains(m, Separator)
    ensures ParseMessage(m).Err?
  {
  }

  /** `pat` does not occur at `j` because the two differ at offset `d`. */
  lemma NotAt(s: string, pat: string, j: nat, d: nat)
    requires d < |pat|
    requires j + |pat| <= |s| ==> s[j + d] != pat[d]
    ensures !OccursAt(s, pat, j)
  {
    if j + |pat| <= |s| {
      assert s[j..j + |pat|][d] == s[j + d];
    }
  }

  /** The characters of a text that starts with `Quote(sib, importPath)`. */
  lemma QuoteChars(t: string, sib: string, importPath: string)
    requires |sib| + 4 + |importPath| <= |t| && t[..|sib| + 4 + |importPath|] == Quote(sib, importPath)
    ensures t[0] == '\'' && t[|sib| + 1] == '\'' && t[|sib| + 2] == ':' && t[|sib| + 3] == ' '
    ensures forall i :: 1 <= i <= |sib| ==> t[i] == sib[i - 1]
    ensures forall i :: 0 <= i < |importPath| ==> t[|sib| + 4 + i] == importPath[i]
  {
    var q := Quote(sib, importPath);
    assert forall i :: 0 <= i < |q| ==> t[i] == q[i];
  }

  /**
   * The text after the separator: the first piece of its split reaches at
   * least to the end of the import path, because neither the quoted
   * sibling name nor the import path can start a separator.
   */
  lemma TailFirstPiece(tail: string, sib: string, importPath: string) returns (k: nat)
    requires NoSpace(sib) && NoSpace(importPath) && importPath != ""
    requires |sib| + 4 + |importPath| < |tail| && tail[..|sib| + 4 + |importPath|] == Quote(sib, importPath)
    requires tail[|sib| + 4 + |importPath|] == ' '
    requires |sib| + 5 + |importPath| < |tail| ==> tail[|sib| + 5 + |importPath|] == ' '
    ensures |sib| + 4 + |importPath| <= k <= |tail| && Split(tail, Separator)[0] == tail[..k]
  {
    var b := |sib| + 4 + |importPath|;
    QuoteChars(tail, sib, importPath);
    assert Separator[0] == ' ' && Separator[8] == ' ' && Separator[9] == 'f';
    forall j: nat | j < b
      ensures !OccursAt(tail, Separator, j)
    {
      var q := |sib| + 3;
      if j == q {
        if |importPath| >= 8 {
          assert tail[j + 8] == importPath[7];
          NotAt(tail, Separator, j, 8);
        } else if |importPath| <= 6 {
          assert Separator[2] == 'm' && Separator[3] == 'p' && Separator[4] == 'o' && Separator[5] == 'r';
          assert Separator[6] == 't' && Separator[7] == 's';
          NotAt(tail, Separator, j, |importPath| + 1);
        } else {
          NotAt(tail, Separator, j, 9);
        }
      } else {
        assert tail[j] != ' ' by {
          if 1 <= j <= |sib| {
            assert tail[j] == sib[j - 1];
          } else if j >= |sib| + 4 {
            assert tail[j] == importPath[j - |sib| - 4];
          }
        }
        NotAt(tail, Separator, j, 0);
      }
    }
    match Find(tail, Separator)
    case None =>
      k := |tail|;
    case Some(i) =>
      k := i;
  }

  /**
   * Where the runs of the sibling pattern end on a quoted name of `n`
   * characters followed by an import path of `m` characters.
   */
  lemma InfoSiblingRuns(info: string, n: nat, m: nat)
    requires 0 < n && 0 < m && n + 4 + m <= |info|
    requires forall k :: 1 <= k <= n ==> info[k] != '\''
    requires info[n + 1] == '\'' && info[n + 3] == ' ' && !IsSpace(info[n + 4])
    requires forall k :: n + 4 <= k < n + 4 + m ==> info[k] != '('
    requires n + 6 + m < |info| ==> info[n + 6 + m] == '('
    ensures RunEnd(info, 1, NotQuote) == n + 1
    ensures RunEnd(info, n + 3, Space) == n + 4
    ensures n + 4 + m <= RunEnd(info, n + 4, NotOpenParen) <= n + 6 + m
  {
    forall k | 1 <= k < n + 1 ensures InClass(info[k], NotQuote) { }
    RunEndAt(info, 1, n + 1, NotQuote);
    SpaceRun(info, n + 3);
    ImportPathRun(info, n + 4, n + 4 + m, n + 6 + m);
  }

  /** The characters of a quoted name hold no quote. */
  lemma NameChars(info: string, sib: string)
    requires '\'' !in sib && |sib| + 1 <= |info| && info[1..|sib| + 1] == sib
    ensures forall k :: 1 <= k <= |sib| ==> info[k] != '\''
  {
    forall k | 1 <= k <= |sib|
      ensures info[k] != '\''
    {
      assert info[k] == info[1..|sib| + 1][k - 1];
    }
  }

  /** The characters of an import path hold no "(", and the first one is not whitespace. */
  lemma PathChars(info: string, w: nat, importPath: string)
    requires '(' !in importPath && importPath != "" && !IsSpace(importPath[0])
    requires w + |importPath| <= |info| && info[w..w + |importPath|] == importPath
    ensures forall k :: w <= k < w + |importPath| ==> info[k] != '('
    ensures !IsSpace(info[w])
  {
    forall k | w <= k < w + |importPath|
      ensures info[k] != '('
    {
      assert info[k] == info[w..w + |importPath|][k - w];
    }
    assert info[w] == info[w..w + |importPath|][0];
  }

  /** The quotes, the colon, the space, the sibling name and the import path of a text that starts with `Quote(sib, importPath)`. */
  lemma QuoteParts(t: string, sib: string, importPath: string)
    requires |sib| + 4 + |importPath| <= |t| && t[..|sib| + 4 + |importPath|] == Quote(sib, importPath)
    ensures t[0] == '\'' && t[|sib| + 1] == '\'' && t[|sib| + 2] == ':' && t[|sib| + 3] == ' '
    ensures t[1..|sib| + 1] == sib && t[|sib| + 4..|sib| + 4 + |importPath|] == importPath
  {
    var b := |sib| + 4 + |importPath|;
    var q := Quote(sib, importPath);
    assert q == "'" + sib + "': " + importPath;
    assert q[1..|sib| + 1] == sib;
    assert q[|sib| + 4..b] == importPath;
    assert t[1..|sib| + 1] == t[..b][1..|sib| + 1];
    assert t[|sib| + 4..b] == t[..b][|sib| + 4..b];
    assert t[0] == q[0] && t[|sib| + 1] == q[|sib| + 1] && t[|sib| + 2] == q[|sib| + 2] && t[|sib| + 3] == q[|sib| + 3];
  }

  /** A run of whitespace one character long. */
  lemma SpaceRun(s: string, i: nat)
    requires i + 1 < |s| && IsSpace(s[i]) && !IsSpace(s[i + 1])
    ensures RunEnd(s, i, Space) == i + 1
  {
    RunEndAt(s, i, i + 1, Space);
  }

  /** The run of non-"(" characters from `w` covers up to `b` and stops at a "(" two characters after it. */
  lemma ImportPathRun(info: string, w: nat, b: nat, c: nat)
    requires w <= b <= |info| && c == b + 2
    requires forall k :: w <= k < b ==> info[k] != '('
    requires c < |info| ==> info[c] == '('
    ensures b <= RunEnd(info, w, NotOpenParen) <= c
  {
    RunEndAtLeast(info, w, b, NotOpenParen);
    if c < |info| {
      RunEndAtMost(info, w, c, NotOpenParen);
    }
  }

  /** The sibling pattern matches the quoted name and the import path, padded with at most the whitespace after it. */
  lemma InfoSiblingMatch(info: string, sib: string, importPath: string) returns (pad: string)
    requires sib != "" && '\'' !in sib && NoSpace(importPath) && importPath != "" && '(' !in importPath
    requires |sib| + 4 + |importPath| <= |info| && info[..|sib| + 4 + |importPath|] == Quote(sib, importPath)
    requires |sib| + 4 + |importPath| < |info| ==> info[|sib| + 4 + |importPath|] == ' '
    requires |sib| + 5 + |importPath| < |info| ==> info[|sib| + 5 + |importPath|] == ' '
    requires |sib| + 6 + |importPath| < |info| ==> info[|sib| + 6 + |importPath|] == '('
    ensures AllSpace(pad)
    ensures SiblingMatch(info) == Some((sib, importPath + pad))
  {
    QuoteParts(info, sib, importPath);
    NameChars(info, sib);
    PathChars(info, |sib| + 4, importPath);
    InfoSiblingRuns(info, |sib|, |importPath|);
    pad := SiblingMatchOfRuns(info, sib, importPath);
  }

  /** The sibling pattern on a text whose runs end where the quoted `sib` and `importPath` put them. */
  lemma SiblingMatchOfRuns(info: string, sib: string, importPath: string) returns (pad: string)
    requires sib != "" && importPath != "" && |sib| + 4 + |importPath| <= |info|
    requires info[0] == '\'' && info[|sib| + 2] == ':'
    requires info[1..|sib| + 1] == sib && info[|sib| + 4..|sib| + 4 + |importPath|] == importPath
    requires RunEnd(info, 1, NotQuote) == |sib| + 1
    requires RunEnd(info, |sib| + 3, Space) == |sib| + 4
    requires |sib| + 4 + |importPath| <= RunEnd(info, |sib| + 4, NotOpenParen) <= |sib| + 6 + |importPath|
    requires |sib| + 4 + |importPath| < |info| ==> info[|sib| + 4 + |importPath|] == ' '
    requires |sib| + 5 + |importPath| < |info| ==> info[|sib| + 5 + |importPath|] == ' '
    ensures AllSpace(pad)
    ensures SiblingMatch(info) == Some((sib, importPath + pad))
  {
    var w := |sib| + 4;
    var b := w + |importPath|;
    var e2 := RunEnd(info, w, NotOpenParen);
    pad := info[b..e2];
    SpacePad(info, b, e2);
    assert info[w..e2] == info[w..b] + pad;
    SiblingMatchAtStart(info, |sib| + 1, w, e2);
  }

  /** The sibling pattern at the start of a text, given where its three runs end. */
  lemma SiblingMatchAtStart(s: string, e1: nat, w: nat, e2: nat)
    requires 1 < e1 && e1 + 1 < |s| && s[0] == '\'' && s[e1 + 1] == ':'
    requires e1 == RunEnd(s, 1, NotQuote) && w == RunEnd(s, e1 + 2, Space) && e2 == RunEnd(s, w, NotOpenParen)
    requires w < e2
    ensures SiblingMatch(s) == Some((s[1..e1], s[w..e2]))
  {
    assert SiblingMatchAt(s, 0) == Some((s[1..e1], s[w..e2]));
  }

  /** At most two characters after `b`, each a space, are all whitespace. */
  lemma SpacePad(s: string, b: nat, e: nat)
    requires b <= e <= |s| && e <= b + 2
    requires b < |s| ==> s[b] == ' '
    requires b + 1 < |s| ==> s[b + 1] == ' '
    ensures AllSpace(s[b..e])
  {
    forall k | 0 <= k < e - b
      ensures IsSpace(s[b..e][k])
    {
      assert s[b..e][k] == s[b + k] == ' ';
    }
  }

  lemma {:induction false} ItemsSearchSkips(s: string, from: nat, p: nat)
    requires from <= p <= |s|
    requires forall j :: from <= j < p ==> ItemsMatchAt(s, j).None?
    ensures ItemsMatchFrom(s, from) == ItemsMatchFrom(s, p)
    decreases p - from
  {
    if from < p {
      ItemsSearchSkips(s, from + 1, p);
    }
  }

  /** A text that may appear between the parentheses of an items list and be split back on ", ". */
  predicate IsItem(x: string) {
    forall i :: 0 <= i < |x| ==> x[i] != ',' && InClass(x[i], ItemChar)
  }

  predicate AllItemChars(s: string) {
    forall i :: 0 <= i < |s| ==> InClass(s[i], ItemChar)
  }

  lemma {:induction false} JoinItemChars(xs: seq<string>)
    requires forall k :: 0 <= k < |xs| ==> IsItem(xs[k])
    ensures AllItemChars(Join(xs, ", "))
  {
    if |xs| > 1 {
      JoinItemChars(xs[1..]);
      var rest := Join(xs[1..], ", ");
      assert Join(xs, ", ") == xs[0] + ", " + rest;
      assert IsItem(xs[0]);
    } else if |xs| == 1 {
      assert IsItem(xs[0]);
    }
  }

  lemma {:induction false} RunEndShift(x: string, y: string, i: nat, cls: CharClass)
    requires i <= |y|
    ensures RunEnd(x + y, |x| + i, cls) == |x| + RunEnd(y, i, cls)
    decreases |y| - i
  {
    if i < |y| && InClass(y[i], cls) {
      RunEndShift(x, y, i + 1, cls);
    }
  }

  lemma {:induction false} ItemsSearchShift(x: string, y: string, i: nat)
    requires i <= |y|
    ensures ItemsMatchFrom(x + y, |x| + i) == ItemsMatchFrom(y, i)
    decreases |y| - i
  {
    ItemsMatchAtShift(x, y, i);
    if i < |y| {
      ItemsSearchShift(x, y, i + 1);
    }
  }

  /** Text in front does not change whether, and what, the items pattern matches at a position. */
  lemma ItemsMatchAtShift(x: string, y: string, i: nat)
    requires i <= |y|
    ensures ItemsMatchAt(x + y, |x| + i) == ItemsMatchAt(y, i)
  {
    var s := x + y;
    assert OccursAt(s, ItemsOpen, |x| + i) <==> OccursAt(y, ItemsOpen, i) by {
      if i + |ItemsOpen| <= |y| {
        assert s[|x| + i..|x| + i + |ItemsOpen|] == y[i..i + |ItemsOpen|];
      }
    }
    if OccursAt(y, ItemsOpen, i) {
      RunEndShift(x, y, i + |ItemsOpen|, ItemChar);
      var e := RunEnd(y, i + |ItemsOpen|, ItemChar);
      if e < |y| {
        assert s[|x| + e] == y[e];
        assert s[|x| + i + |ItemsOpen|..|x| + e] == y[i + |ItemsOpen|..e];
      }
    }
  }

  /** Text in front of a string, in which no items list starts, does not change where the items list is found. */
  lemma ItemsMatchAfter(x: string, y: string)
    requires forall j :: 0 <= j < |x| ==> !OccursAt(x + y, ItemsOpen, j)
    ensures ItemsMatch(x + y) == ItemsMatch(y)
  {
    ItemsSearchSkips(x + y, 0, |x|);
    ItemsSearchShift(x, y, 0);
  }

  /** No items list starts in text without "(". */
  lemma NoItemsOpenInParenFree(x: string, y: string)
    requires '(' !in x
    ensures forall j :: 0 <= j < |x| ==> !OccursAt(x + y, ItemsOpen, j)
  {
    forall j | 0 <= j < |x|
      ensures !OccursAt(x + y, ItemsOpen, j)
    {
      assert (x + y)[j] == x[j];
      NotAt(x + y, ItemsOpen, j, 0);
    }
  }

  /**
   * No items list starts in the source path and separator of a message
   * unless "(importing: " occurs in them: one that started in the source
   * path and ran past it would start with a character of the separator,
   * and none of them is "(".
   */
  lemma NoItemsOpenInHead(head: string, sourcePath: string, y: string)
    requires head == sourcePath + Separator && !Contains(head, ItemsOpen)
    ensures forall j :: 0 <= j < |head| ==> !OccursAt(head + y, ItemsOpen, j)
  {
    forall j | 0 <= j < |head|
      ensures !OccursAt(head + y, ItemsOpen, j)
    {
      if j + |ItemsOpen| <= |head| {
        assert (head + y)[j..j + |ItemsOpen|] == head[j..j + |ItemsOpen|];
        assert !OccursAt(head, ItemsOpen, j);
      } else {
        assert (head + y)[j] == Separator[j - |sourcePath|] by {
          assert forall k :: 0 <= k < |Separator| ==> head[|sourcePath| + k] == Separator[k];
        }
        assert forall k :: 0 <= k < |Separator| ==> Separator[k] != '(';
        NotAt(head + y, ItemsOpen, j, 0);
      }
    }
  }

  /**
   * No items list starts in the quoted sibling name and import path: the
   * name has no whitespace, so a list inside it would miss the space of
   * "(importing: ", and one running past it would meet the closing quote.
   */
  lemma NoItemsOpenInQuote(sib: string, importPath: string, y: string)
    requires NoSpace(sib) && '(' !in importPath
    ensures forall j :: 0 <= j < |Quote(sib, importPath) + " "| ==> !OccursAt(Quote(sib, importPath) + " " + y, ItemsOpen, j)
  {
    var x := Quote(sib, importPath) + " ";
    var s := x + y;
    assert x == "'" + sib + "': " + importPath + " ";
    assert ItemsOpen[11] == ' ';
    assert forall d :: 0 <= d < |ItemsOpen| ==> ItemsOpen[d] != '\'';
    forall j | 0 <= j < |x|
      ensures !OccursAt(s, ItemsOpen, j)
    {
      if 1 <= j <= |sib| {
        if j + 11 <= |sib| {
          assert s[j + 11] == sib[j + 10];
          NotAt(s, ItemsOpen, j, 11);
        } else {
          assert s[|sib| + 1] == '\'';
          NotAt(s, ItemsOpen, j, |sib| + 1 - j);
        }
      } else {
        assert s[j] != '(' by {
          if |sib| + 4 <= j < |sib| + 4 + |importPath| {
            assert s[j] == importPath[j - |sib| - 4];
          }
        }
        NotAt(s, ItemsOpen, j, 0);
      }
    }
  }

  /** The run of `cls` characters from `i` ends at `e`. */
  lemma RunEndAt(s: string, i: nat, e: nat, cls: CharClass)
    requires i <= e < |s| && !InClass(s[e], cls)
    requires forall k :: i <= k < e ==> InClass(s[k], cls)
    ensures RunEnd(s, i, cls) == e
  {
  }

  /** A run of `cls` characters from `i` to `j` makes the run from `i` reach at least `j`. */
  lemma {:induction false} RunEndAtLeast(s: string, i: nat, j: nat, cls: CharClass)
    requires i <= j <= |s|
    requires forall k :: i <= k < j ==> InClass(s[k], cls)
    ensures RunEnd(s, i, cls) >= j
    decreases j - i
  {
    if i < j {
      RunEndAtLeast(s, i + 1, j, cls);
    }
  }

  /** A character outside `cls` at `j` stops the run from `i` at `j` or before. */
  lemma {:induction false} RunEndAtMost(s: string, i: nat, j: nat, cls: CharClass)
    requires i <= j < |s| && !InClass(s[j], cls)
    ensures RunEnd(s, i, cls) <= j
    decreases j - i
  {
    if i < j && InClass(s[i], cls) {
      RunEndAtMost(s, i + 1, j, cls);
    }
  }

  /** A run over `x`, all of whose characters are in `cls`, stops where a character outside `cls` follows. */
  lemma RunEndOverPrefix(x: string, y: string, cls: CharClass)
    requires forall k :: 0 <= k < |x| ==> InClass(x[k], cls)
    requires y != [] && !InClass(y[0], cls)
    ensures RunEnd(x + y, 0, cls) == |x|
  {
    var s := x + y;
    forall k | 0 <= k < |x|
      ensures InClass(s[k], cls)
    {
      assert s[k] == x[k];
    }
    assert s[|x|] == y[0];
    RunEndAt(s, 0, |x|, cls);
  }

  /** After any opener, the run of item characters covers the joined items exactly. */
  lemma ItemsOpenRun(opener: string, joined: string)
    requires AllItemChars(joined)
    ensures RunEnd(opener + joined + ")", |opener|, ItemChar) == |opener| + |joined|
  {
    assert opener + joined + ")" == opener + (joined + ")");
    RunEndShift(opener, joined + ")", 0, ItemChar);
    RunEndOverPrefix(joined, ")", ItemChar);
  }

  lemma ItemsOpenMatch(joined: string)
    requires AllItemChars(joined)
    ensures ItemsMatch(ItemsOpen + joined + ")") == Some(joined)
  {
    var s := ItemsOpen + joined + ")";
    ItemsOpenRun(ItemsOpen, joined);
    assert s[..|ItemsOpen|] == ItemsOpen;
    assert s[|ItemsOpen|..|ItemsOpen| + |joined|] == joined;
    assert ItemsMatchAt(s, 0) == Some(joined);
  }

  /** The items list reads back the joined items. */
  lemma ItemsListMatch(items: seq<string>)
    requires forall k :: 0 <= k < |items| ==> IsItem(items[k])
    ensures ItemsMatch(ItemsList(items)) == Some(Join(items, ", "))
  {
    JoinItemChars(items);
    ItemsOpenMatch(Join(items, ", "));
  }

  /** The items list is looked for in the items suffix only: no items list starts before it. */
  lemma ItemsInSuffix(sourcePath: string, sib: string, importPath: string, items: seq<string>)
    requires !Contains(sourcePath + Separator, ItemsOpen)
    requires NoSpace(sib) && '(' !in importPath
    ensures ItemsMatch(Message(sourcePath, sib, importPath, items)) == ItemsMatch(ItemsSuffix(items))
  {
    var head := sourcePath + Separator;
    NoItemsOpenInHead(head, sourcePath, Body(sib, importPath, items));
    ItemsMatchAfter(head, Body(sib, importPath, items));
    NoItemsOpenInQuote(sib, importPath, ItemsSuffix(items));
    ItemsMatchAfter(Quote(sib, importPath) + " ", ItemsSuffix(items));
  }

  lemma SuffixItems(items: seq<string>)
    requires forall k :: 0 <= k < |items| ==> IsItem(items[k])
    ensures ItemsMatch(ItemsSuffix(items)) == if items == [] then None else Some(Join(items, ", "))
  {
    if items == [] {
      assert ItemsMatchAt("", 0) == None;
    } else {
      NoItemsOpenInParenFree(" ", ItemsList(items));
      ItemsMatchAfter(" ", ItemsList(items));
      ItemsListMatch(items);
    }
  }

  /** The items list of a message is read back from the parenthesised suffix, and only from there. */
  lemma MessageItems(sourcePath: string, sib: string, importPath: string, items: seq<string>)
    requires !Contains(sourcePath + Separator, ItemsOpen)
    requires NoSpace(sib) && '(' !in importPath
    requires forall k :: 0 <= k < |items| ==> IsItem(items[k])
    ensures ItemsMatch(Message(sourcePath, sib, importPath, items))
      == if items == [] then None else Some(Join(items, ", "))
  {
    ItemsInSuffix(sourcePath, sib, importPath, items);
    SuffixItems(items);
  }

  /** A message splits into its source path and the pieces of the text after its first separator. */
  lemma SplitAfterFirst(sourcePath: string, tail: string)
    requires Find(sourcePath + Separator + tail, Separator) == Some(|sourcePath|)
    ensures Split(sourcePath + Separator + tail, Separator) == [sourcePath] + Split(tail, Separator)
  {
    var m := sourcePath + Separator + tail;
    assert m[..|sourcePath|] == sourcePath;
    assert m[|sourcePath| + |Separator|..] == tail;
  }

  /**
   * Reading back a message gives the fields it was built from, provided the
   * source path's first separator is the one the message adds, no items
   * list "(importing: " starts in the source path or the separator, the
   * sibling name has no quote or whitespace, the import path is non-empty
   * without whitespace or "(", and no item holds ",", ")" or a line
   * terminator.
   */
  lemma ParseMessageRoundTrip(sourcePath: string, sib: string, importPath: string, items: seq<string>)
    requires Find(sourcePath + Separator, Separator) == Some(|sourcePath|) && !Contains(sourcePath + Separator, ItemsOpen)
    requires sib != "" && '\'' !in sib && NoSpace(sib)
    requires importPath != "" && '(' !in importPath && NoSpace(importPath)
    requires forall k :: 0 <= k < |items| ==> IsItem(items[k])
    ensures ParseMessage(Message(sourcePath, sib, importPath, items))
      == Ok(ParsedMessage(sourcePath, sib, importPath, items))
  {
    var m := Message(sourcePath, sib, importPath, items);
    var body := Body(sib, importPath, items);
    FindInPrefix(sourcePath + Separator, body, Separator, |sourcePath|);
    SplitAfterFirst(sourcePath, body);
    BodySiblingMatch(sib, importPath, items);
    MessageItems(sourcePath, sib, importPath, items);
    if items != [] {
      forall j | 0 <= j < |items|
        ensures ", "[0] !in items[j]
      {
        assert IsItem(items[j]);
      }
      SplitOfJoin(items, ", ");
    }
  }

  /** The sibling pattern, applied to the text between the separator and the next one, gives back the sibling name and import path. */
  lemma BodySiblingMatch(sib: string, importPath: string, items: seq<string>)
    requires sib != "" && '\'' !in sib && NoSpace(sib)
    requires importPath != "" && '(' !in importPath && NoSpace(importPath)
    ensures var sm := SiblingMatch(Split(Body(sib, importPath, items), Separator)[0]);
      sm.Some? && sm.value.0 == sib && Trim(sm.value.1) == importPath
  {
    var suffix := ItemsSuffix(items);
    var q := Quote(sib, importPath);
    var tail := Body(sib, importPath, items);
    var b := |q|;
    assert tail[..b] == q && tail[b] == ' ';
    assert b + 1 < |tail| ==> tail[b + 1] == suffix[0] == ' ';
    assert b + 2 < |tail| ==> tail[b + 2] == suffix[1] == '(';
    var k := TailFirstPiece(tail, sib, importPath);
    var info := tail[..k];
    assert info[..b] == q;
    var pad := InfoSiblingMatch(info, sib, importPath);
    TrimPadded("", importPath, pad);
    assert "" + importPath + pad == importPath + pad;
  }
}
