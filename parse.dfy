/** The KMonad configuration grammar and its `ast` semantics (src/parse.ts).

    The grammar is a PEG. Its syntactic rules (capitalised names) skip any
    run of `space` before each of their elements, and `space` is whitespace, a
    newline or a comment. Each rule becomes a function here that takes the text
    and the position at which the rule is tried and returns what the rule
    matched, ordered choice and all. The rules are:
      KmonadConfig = TopLevelSexpr*          (then only space up to the end)
      Sexpr        = "(" ListOf<(Sexpr | Token), space*> ")"
      Token        = TapMacro | string | escaped | word
      TapMacro     = "#" Sexpr
      escaped      = "\" (~space any)*
      word         = (~(space | ")") any)+
      string       = '"' (~'"' any)* '"'
      comment      = "#|" (~"|#" any)* "|#"  |  ";;" (~newline any)*
    Positions are indices into the text, one per character. */
module Parser {
  import opened Strings

  // ---------------------------------------------------------------------------
  // Lexical rules
  // ---------------------------------------------------------------------------

  /** `whitespace`: tab, vertical tab, form feed, space, no-break space, BOM */
  predicate IsWhitespace(c: char)
  {
    c == '\t' || c == '\U{000B}' || c == '\U{000C}' || c == ' ' || c == '\U{00A0}' || c == '\U{FEFF}'
  }

  /** `newline`: LF, CR, line separator, paragraph separator */
  predicate IsNewline(c: char)
  {
    c == '\n' || c == '\r' || c == '\U{2028}' || c == '\U{2029}'
  }

  /** The end of the block comment whose body starts at `j`: just past the
      first `|#` at or after `j`, or None when there is none. */
  function CloseBlockComment(s: string, j: nat): (r: Option<nat>)
    requires j <= |s|
    ensures r.Some? ==> j + 2 <= r.value <= |s| && s[r.value - 2] == '|' && s[r.value - 1] == '#'
    ensures r.Some? ==> forall k :: j <= k < r.value - 2 ==> !(s[k] == '|' && s[k + 1] == '#')
    ensures r.None? ==> forall k :: j <= k < |s| - 1 ==> !(s[k] == '|' && s[k + 1] == '#')
    decreases |s| - j
  {
    if j + 1 >= |s| then None
    else if s[j] == '|' && s[j + 1] == '#' then Some(j + 2)
    else CloseBlockComment(s, j + 1)
  }

  /** `multiLineComment` tried at `i` */
  function BlockComment(s: string, i: nat): Option<nat>
    requires i <= |s|
  {
    if i + 1 < |s| && s[i] == '#' && s[i + 1] == '|' then CloseBlockComment(s, i + 2) else None
  }

  /** `(~newline any)*` from `j`: the first newline at or after `j`, or the end. */
  function LineEnd(s: string, j: nat): (r: nat)
    requires j <= |s|
    ensures j <= r <= |s|
    ensures r < |s| ==> IsNewline(s[r])
    ensures forall k :: j <= k < r ==> !IsNewline(s[k])
    decreases |s| - j
  {
    if j == |s| || IsNewline(s[j]) then j else LineEnd(s, j + 1)
  }

  /** One application of `space` at `i`: where it ends, or None when no
      whitespace, newline or comment starts at `i`. */
  function SpaceAt(s: string, i: nat): (r: Option<nat>)
    requires i <= |s|
    ensures r.Some? ==> i < r.value <= |s|
  {
    if i < |s| && (IsWhitespace(s[i]) || IsNewline(s[i])) then Some(i + 1)
    else if BlockComment(s, i).Some? then BlockComment(s, i)
    else if i + 1 < |s| && s[i] == ';' && s[i + 1] == ';' then Some(LineEnd(s, i + 2))
    else None
  }

  /** No `space` starts at `k`: no whitespace, no newline, no `;;` and no
      block comment that is closed further on. */
  lemma NoSpaceAt(s: string, k: nat)
    requires k < |s| && SpaceAt(s, k).None?
    ensures !IsWhitespace(s[k]) && !IsNewline(s[k])
    ensures !(k + 1 < |s| && s[k] == ';' && s[k + 1] == ';')
    ensures k + 1 < |s| && s[k] == '#' && s[k + 1] == '|' ==> CloseBlockComment(s, k + 2).None?
  {
  }

  /** Spaces applied one after another lead from `i` exactly to `r`. */
  predicate SpaceRun(s: string, i: nat, r: nat)
    requires i <= r <= |s|
    decreases r - i
  {
    i == r || (SpaceAt(s, i).Some? && SpaceAt(s, i).value <= r && SpaceRun(s, SpaceAt(s, i).value, r))
  }

  /** Character `k` lies inside a `space` that starts at `a`. */
  predicate InsideSpace(s: string, a: nat, k: nat)
  {
    a <= k < |s| && SpaceAt(s, a).Some? && k < SpaceAt(s, a).value
  }

  /** Character `k` lies inside a `space` that starts at `i` or later. */
  ghost predicate Covered(s: string, i: nat, k: nat)
  {
    exists a :: i <= a && InsideSpace(s, a, k)
  }

  /** Every character of a run of spaces lies inside one of them. */
  lemma {:induction false} SpaceRunCovers(s: string, i: nat, r: nat)
    requires i <= r <= |s| && SpaceRun(s, i, r)
    ensures forall k :: i <= k < r ==> Covered(s, i, k)
    decreases r - i
  {
    if i < r {
      var j := SpaceAt(s, i).value;
      SpaceRunCovers(s, j, r);
      forall k | i <= k < r
        ensures Covered(s, i, k)
      {
        if k < j {
          assert InsideSpace(s, i, k);
        } else {
          assert Covered(s, j, k);
          var a :| j <= a && InsideSpace(s, a, k);
          assert i <= a;
        }
      }
    }
  }

  /** A run of spaces from `i` that stops where no space starts ends where
      `space*` ends: `SkipSpaces` stops at the first such position. */
  lemma {:induction false} SkipSpacesUnique(s: string, i: nat, r: nat)
    requires i <= r <= |s| && SpaceRun(s, i, r) && SpaceAt(s, r).None?
    ensures SkipSpaces(s, i) == r
    decreases r - i
  {
    if i < r {
      SkipSpacesUnique(s, SpaceAt(s, i).value, r);
    }
  }

  /** `SkipSpaces` skips only space. */
  lemma SkipSpacesCovers(s: string, i: nat)
    requires i <= |s|
    ensures forall k :: i <= k < SkipSpaces(s, i) ==> Covered(s, i, k)
  {
    SpaceRunCovers(s, i, SkipSpaces(s, i));
  }

  /** The implicit `space*` that syntactic rules skip before each element. */
  function SkipSpaces(s: string, i: nat): (r: nat)
    requires i <= |s|
    ensures i <= r <= |s|
    ensures SpaceAt(s, r).None?
    ensures SpaceRun(s, i, r)
    decreases |s| - i
  {
    match SpaceAt(s, i)
    case None => i
    case Some(j) => SkipSpaces(s, j)
  }

  /** `word` from `j`: the longest run of characters at which neither `space`
      nor ")" starts. */
  function WordEnd(s: string, j: nat): (r: nat)
    requires j <= |s|
    ensures j <= r <= |s|
    ensures forall k :: j <= k < r ==> SpaceAt(s, k).None? && s[k] != ')'
    ensures r < |s| ==> SpaceAt(s, r).Some? || s[r] == ')'
    decreases |s| - j
  {
    if j < |s| && SpaceAt(s, j).None? && s[j] != ')' then WordEnd(s, j + 1) else j
  }

  /** `(~space any)*` after the backslash of `escaped`: ")" is allowed. */
  function EscapedEnd(s: string, j: nat): (r: nat)
    requires j <= |s|
    ensures j <= r <= |s|
    ensures forall k :: j <= k < r ==> SpaceAt(s, k).None?
    ensures r < |s| ==> SpaceAt(s, r).Some?
    decreases |s| - j
  {
    if j < |s| && SpaceAt(s, j).None? then EscapedEnd(s, j + 1) else j
  }

  /** `(~'"' any)* '"'` from `j`: just past the next double quote. */
  function CloseString(s: string, j: nat): (r: Option<nat>)
    requires j <= |s|
    ensures r.Some? ==> j < r.value <= |s| && s[r.value - 1] == '"'
    ensures r.Some? ==> forall k :: j <= k < r.value - 1 ==> s[k] != '"'
    ensures r.None? ==> forall k :: j <= k < |s| ==> s[k] != '"'
    decreases |s| - j
  {
    if j == |s| then None
    else if s[j] == '"' then Some(j + 1)
    else CloseString(s, j + 1)
  }

  /** `string` tried at `i` */
  function StringEnd(s: string, i: nat): Option<nat>
    requires i <= |s|
  {
    if i < |s| && s[i] == '"' then CloseString(s, i + 1) else None
  }

  // ---------------------------------------------------------------------------
  // The concrete parse tree
  // ---------------------------------------------------------------------------

  datatype Kind = TapMacro | Str | Escaped | Word

  /** A matched `Sexpr` remembers where its "(" is, its elements, the span
      of its `ListOf` child and the position just past its ")". A matched
      `Token` remembers which alternative matched and its span. */
  datatype Tree =
    | Sexpr(open: nat, items: seq<Tree>, listStart: nat, listEnd: nat, close: nat)
    | Token(kind: Kind, start: nat, end: nat)
  {
    function Start(): nat
    {
      if Sexpr? then open else start
    }

    function End(): nat
    {
      if Sexpr? then close else end
    }
  }

  /** What each token alternative's text looks like. */
  predicate TokenShape(s: string, kind: Kind, a: nat, b: nat)
    requires a < b <= |s|
  {
    match kind
    case Word =>
      forall k :: a <= k < b ==> SpaceAt(s, k).None? && s[k] != ')'
    case Escaped =>
      s[a] == '\\' && forall k :: a < k < b ==> SpaceAt(s, k).None?
    case Str =>
      a + 2 <= b && s[a] == '"' && s[b - 1] == '"' && forall k :: a < k < b - 1 ==> s[k] != '"'
    case TapMacro =>
      a + 3 <= b && s[a] == '#' && s[b - 1] == ')'
  }

  /** The elements of a list lie in order between `ls` and `le`, each one
      preceded only by skippable space. */
  predicate ItemsTiled(s: string, items: seq<Tree>, ls: nat, le: nat)
  {
    && (|items| == 0 ==> ls == le)
    && (|items| > 0 ==> items[0].Start() == ls && items[|items| - 1].End() == le)
    && (forall k :: 0 <= k < |items| ==> ls <= items[k].Start() < items[k].End() <= le <= |s|)
    && (forall k :: 0 < k < |items| ==>
          items[k - 1].End() <= items[k].Start() && SkipSpaces(s, items[k - 1].End()) == items[k].Start())
  }

  /** Putting an element in front of the elements that follow it, after spaces. */
  lemma TiledCons(s: string, t: Tree, rest: seq<Tree>, e: nat)
    requires t.Start() < t.End() <= |s|
    requires ItemsTiled(s, rest, if |rest| == 0 then t.End() else SkipSpaces(s, t.End()), e)
    ensures ItemsTiled(s, [t] + rest, t.Start(), e)
  {
    var items := [t] + rest;
    assert forall k :: 0 < k < |items| ==> items[k] == rest[k - 1];
  }

  /** A tree that the grammar could have produced from `s`. */
  predicate WellFormed(s: string, t: Tree)
    decreases t
  {
    match t
    case Token(kind, a, b) =>
      a < b <= |s| && TokenShape(s, kind, a, b)
    case Sexpr(o, items, ls, le, c) =>
      && o < ls <= le < c <= |s|
      && s[o] == '(' && s[c - 1] == ')'
      && ls == SkipSpaces(s, o + 1)
      && SkipSpaces(s, le) == c - 1
      && ItemsTiled(s, items, ls, le)
      && (forall k :: 0 <= k < |items| ==> WellFormed(s, items[k]))
  }

  // ---------------------------------------------------------------------------
  // Syntactic rules
  // ---------------------------------------------------------------------------

  /** `Sexpr` tried at `i` (spaces already skipped). */
  function ParseSexpr(s: string, i: nat): (r: Option<Tree>)
    requires i <= |s|
    ensures r.Some? ==> r.value.Sexpr? && r.value.Start() == i && WellFormed(s, r.value)
    decreases |s| - i, 0
  {
    if i < |s| && s[i] == '(' then
      var ls := SkipSpaces(s, i + 1);
      var (items, le) := ParseList(s, ls);
      var q := SkipSpaces(s, le);
      if q < |s| && s[q] == ')' then
        SexprWellFormed(s, i, items, ls, le, q);
        Some(Sexpr(i, items, ls, le, q + 1))
      else None
    else None
  }

  /** An expression closed by the ")" at `q` after its list is well formed. */
  lemma SexprWellFormed(s: string, i: nat, items: seq<Tree>, ls: nat, le: nat, q: nat)
    requires i < |s| && s[i] == '(' && ls == SkipSpaces(s, i + 1) && ls <= le
    requires ItemsTiled(s, items, ls, le) && forall k :: 0 <= k < |items| ==> WellFormed(s, items[k])
    requires q < |s| && s[q] == ')' && SkipSpaces(s, le) == q
    ensures WellFormed(s, Sexpr(i, items, ls, le, q + 1))
  {
  }

  /** `ListOf<(Sexpr | Token), space*>` from `j`: the elements and the end of
      the last one (`j` itself when there are none). A list never fails; it
      stops at the first position where no element matches. */
  function ParseList(s: string, j: nat): (r: (seq<Tree>, nat))
    requires j <= |s|
    ensures j <= r.1 <= |s|
    ensures |r.0| > 0 ==> r.0[0].Start() == SkipSpaces(s, j)
    ensures ItemsTiled(s, r.0, if |r.0| == 0 then j else SkipSpaces(s, j), r.1)
    ensures forall k :: 0 <= k < |r.0| ==> WellFormed(s, r.0[k])
    decreases |s| - j, 3
  {
    var p := SkipSpaces(s, j);
    match ParseElement(s, p)
    case None => ([], j)
    case Some(t) =>
      var (rest, e) := ParseList(s, t.End());
      TiledCons(s, t, rest, e);
      ItemsCons(s, t, rest);
      ([t] + rest, e)
  }

  /** `Sexpr | Token` tried at `p`. */
  function ParseElement(s: string, p: nat): (r: Option<Tree>)
    requires p <= |s|
    ensures r.Some? ==> r.value.Start() == p && p < r.value.End() <= |s| && WellFormed(s, r.value)
    decreases |s| - p, 2
  {
    match ParseSexpr(s, p)
    case Some(t) => Some(t)
    case None => ParseToken(s, p)
  }

  /** `Token` tried at `p`: TapMacro, then string, then escaped, then word. */
  function ParseToken(s: string, p: nat): (r: Option<Tree>)
    requires p <= |s|
    ensures r.Some? ==> r.value.Token? && r.value.start == p && WellFormed(s, r.value)
    decreases |s| - p, 1
  {
    if p < |s| && s[p] == '#' && ParseSexpr(s, SkipSpaces(s, p + 1)).Some? then
      var t := ParseSexpr(s, SkipSpaces(s, p + 1)).value;
      MacroWellFormed(s, p, t);
      Some(Token(TapMacro, p, t.End()))
    else if StringEnd(s, p).Some? then
      Some(Token(Str, p, StringEnd(s, p).value))
    else if p < |s| && s[p] == '\\' then
      Some(Token(Escaped, p, EscapedEnd(s, p + 1)))
    else if WordEnd(s, p) > p then
      Some(Token(Word, p, WordEnd(s, p)))
    else None
  }

  /** A "#" followed by an expression is a well-formed tap-macro token. */
  lemma MacroWellFormed(s: string, p: nat, t: Tree)
    requires p < |s| && s[p] == '#'
    requires t.Sexpr? && t.Start() == SkipSpaces(s, p + 1) && WellFormed(s, t)
    ensures WellFormed(s, Token(TapMacro, p, t.End()))
  {
  }

  /** `TopLevelSexpr*` from `j`: the expressions and the end of the last one. */
  function ParseTopLevel(s: string, j: nat): (r: (seq<Tree>, nat))
    requires j <= |s|
    ensures j <= r.1 <= |s|
    ensures |r.0| > 0 ==> r.0[0].Start() == SkipSpaces(s, j)
    ensures ItemsTiled(s, r.0, if |r.0| == 0 then j else SkipSpaces(s, j), r.1)
    ensures forall k :: 0 <= k < |r.0| ==> r.0[k].Sexpr? && WellFormed(s, r.0[k])
    ensures ParseSexpr(s, SkipSpaces(s, r.1)).None?
    decreases |s| - j
  {
    var p := SkipSpaces(s, j);
    match ParseSexpr(s, p)
    case None => ([], j)
    case Some(t) =>
      var (rest, e) := ParseTopLevel(s, t.End());
      TiledCons(s, t, rest, e);
      ExprsCons(s, t, rest);
      ([t] + rest, e)
  }

  /** One more well-formed element in front of well-formed elements. */
  lemma ItemsCons(s: string, t: Tree, rest: seq<Tree>)
    requires WellFormed(s, t)
    requires forall k :: 0 <= k < |rest| ==> WellFormed(s, rest[k])
    ensures forall k :: 0 <= k < |[t] + rest| ==> WellFormed(s, ([t] + rest)[k])
  {
    var items := [t] + rest;
    assert forall k :: 0 < k < |items| ==> items[k] == rest[k - 1];
  }

  /** One more well-formed expression in front of well-formed expressions. */
  lemma ExprsCons(s: string, t: Tree, rest: seq<Tree>)
    requires t.Sexpr? && WellFormed(s, t)
    requires forall k :: 0 <= k < |rest| ==> rest[k].Sexpr? && WellFormed(s, rest[k])
    ensures forall k :: 0 <= k < |[t] + rest| ==> ([t] + rest)[k].Sexpr? && WellFormed(s, ([t] + rest)[k])
  {
    var items := [t] + rest;
    assert forall k :: 0 < k < |items| ==> items[k] == rest[k - 1];
  }

  /** `grammar.match(text)` for `KmonadConfig`: the top-level expressions,
      provided only space follows the last of them. */
  function Match(s: string): (r: Option<seq<Tree>>)
    ensures r.Some? ==> forall k :: 0 <= k < |r.value| ==> r.value[k].Sexpr? && WellFormed(s, r.value[k])
    ensures r.Some? ==> ItemsTiled(s, r.value, SkipSpaces(s, 0),
                                   if |r.value| == 0 then SkipSpaces(s, 0) else r.value[|r.value| - 1].End())
    ensures r.Some? && |r.value| > 0 ==> SkipSpaces(s, r.value[|r.value| - 1].End()) == |s|
    ensures r.Some? && |r.value| == 0 ==> SkipSpaces(s, 0) == |s|
  {
    var (ts, e) := ParseTopLevel(s, 0);
    if SkipSpaces(s, e) == |s| then Some(ts) else None
  }

  // ---------------------------------------------------------------------------
  // The `ast` semantics
  // ---------------------------------------------------------------------------

  datatype Node = Node(contents: string, startIdx: nat, endIdx: nat)

  /** The node of an element: its contents are the source it spans. This is
      what the `Token` action builds, and what the `Sexpr` action is meant to
      build for a nested expression: its whole span, parentheses included. */
  function NodeOf(s: string, t: Tree): (n: Node)
    requires WellFormed(s, t)
    ensures n.startIdx == t.Start() && n.endIdx == t.End()
    ensures n.startIdx < n.endIdx <= |s| && n.contents == s[n.startIdx..n.endIdx]
  {
    Node(s[t.Start()..t.End()], t.Start(), t.End())
  }

  /** The `Sexpr` action as written: it takes the source of its second child,
      the `ListOf`, so a nested expression's node is its interior without the
      parentheses. */
  function NodeAsWritten(s: string, t: Tree): (n: Node)
    requires WellFormed(s, t)
    ensures n.startIdx <= n.endIdx <= |s| && n.contents == s[n.startIdx..n.endIdx]
    ensures t.Start() <= n.startIdx < t.End() && n.endIdx <= t.End()
    ensures t.Token? ==> n == NodeOf(s, t)
    ensures t.Sexpr? ==> t.Start() < n.startIdx && n.endIdx < t.End()
  {
    if t.Sexpr? then Node(s[t.listStart..t.listEnd], t.listStart, t.listEnd) else NodeOf(s, t)
  }

  /** Nodes that are pieces of `s`, in source order, none overlapping, with
      nothing but skippable space (whitespace, newlines, comments) between
      one node and the next. */
  predicate NodesFromText(s: string, nodes: seq<Node>)
  {
    && (forall k :: 0 <= k < |nodes| ==>
          nodes[k].startIdx < nodes[k].endIdx <= |s| && nodes[k].contents == s[nodes[k].startIdx..nodes[k].endIdx])
    && (forall k :: 0 < k < |nodes| ==>
          nodes[k - 1].endIdx <= nodes[k].startIdx && SkipSpaces(s, nodes[k - 1].endIdx) == nodes[k].startIdx)
  }

  /** Nodes that are pieces of `s`: each one's contents is the text between
      its offsets. A node may be empty here, as the interior of `()` is. */
  predicate NodesAreSlices(s: string, nodes: seq<Node>)
  {
    forall k :: 0 <= k < |nodes| ==>
      nodes[k].startIdx <= nodes[k].endIdx <= |s| && nodes[k].contents == s[nodes[k].startIdx..nodes[k].endIdx]
  }

  /** Nodes whose start offsets strictly increase. */
  predicate StartsIncrease(nodes: seq<Node>)
  {
    forall k :: 0 < k < |nodes| ==> nodes[k - 1].startIdx < nodes[k].startIdx
  }

  /** Either node of an element starts inside the element's span. */
  lemma NodeStartsInside(s: string, t: Tree, asWritten: bool)
    requires WellFormed(s, t)
    ensures var n := if asWritten then NodeAsWritten(s, t) else NodeOf(s, t);
      t.Start() <= n.startIdx < t.End()
  {
  }

  /** The `TopLevelSexpr` action: one node per element of a top-level
      expression (corrected nodes, or as-written ones when `asWritten`). */
  function ExprNodes(s: string, t: Tree, asWritten: bool): (nodes: seq<Node>)
    requires t.Sexpr? && WellFormed(s, t)
    ensures |nodes| == |t.items|
    ensures NodesAreSlices(s, nodes)
    ensures !asWritten ==> NodesFromText(s, nodes)
    ensures !asWritten ==> forall k :: 0 <= k < |nodes| ==> t.open < nodes[k].startIdx && nodes[k].endIdx < t.close
    ensures StartsIncrease(nodes)
  {
    var nodes := seq(|t.items|, k requires 0 <= k < |t.items| =>
      if asWritten then NodeAsWritten(s, t.items[k]) else NodeOf(s, t.items[k]));
    ItemsStartsIncrease(s, t, asWritten, nodes);
    nodes
  }

  lemma ItemsStartsIncrease(s: string, t: Tree, asWritten: bool, nodes: seq<Node>)
    requires t.Sexpr? && WellFormed(s, t)
    requires |nodes| == |t.items|
    requires forall k :: 0 <= k < |nodes| ==>
      nodes[k] == if asWritten then NodeAsWritten(s, t.items[k]) else NodeOf(s, t.items[k])
    ensures StartsIncrease(nodes)
  {
    forall k | 0 < k < |nodes|
      ensures nodes[k - 1].startIdx < nodes[k].startIdx
    {
      NodeStartsInside(s, t.items[k - 1], asWritten);
      NodeStartsInside(s, t.items[k], asWritten);
    }
  }

  /** The `KmonadConfig` action. */
  function Ast(s: string, ts: seq<Tree>, asWritten: bool): (top: seq<seq<Node>>)
    requires forall k :: 0 <= k < |ts| ==> ts[k].Sexpr? && WellFormed(s, ts[k])
    ensures |top| == |ts|
    ensures forall k :: 0 <= k < |ts| ==> top[k] == ExprNodes(s, ts[k], asWritten)
    ensures !asWritten ==> forall x :: x in top ==> NodesFromText(s, x)
    ensures forall x :: x in top ==> NodesAreSlices(s, x) && StartsIncrease(x)
  {
    seq(|ts|, k requires 0 <= k < |ts| => ExprNodes(s, ts[k], asWritten))
  }

  // ---------------------------------------------------------------------------
  // parse
  // ---------------------------------------------------------------------------

  datatype Failure = SyntaxError | MissingDefsrc

  datatype ParseResult = Failed(failure: Failure) | Parsed(defsrc: seq<Node>, deflayers: seq<seq<Node>>)

  const MissingDefsrcMessage := "Kmonad config must contain exactly one (defsrc) block"

  /** `sexpr[0]?.contents === name`: an empty expression has no head. */
  predicate HeadIs(sexpr: seq<Node>, name: string)
    ensures HeadIs(sexpr, name) ==> |sexpr| > 0 && sexpr[0].contents == name
  {
    |sexpr| > 0 && sexpr[0].contents == name
  }

  /** An expression has at most one head, so no block is picked under two
      names: a `defsrc` block is never also a layer. */
  lemma OneHead(sexpr: seq<Node>, name: string, other: string)
    requires HeadIs(sexpr, name) && HeadIs(sexpr, other)
    ensures name == other
  {
  }

  /** `topLevel.find(...)`: the first expression headed `name`. */
  function FindHead(top: seq<seq<Node>>, name: string): (r: Option<seq<Node>>)
    ensures r.Some? ==> exists k :: 0 <= k < |top| && top[k] == r.value && HeadIs(top[k], name)
                                    && forall j :: 0 <= j < k ==> !HeadIs(top[j], name)
    ensures r.None? <==> forall k :: 0 <= k < |top| ==> !HeadIs(top[k], name)
  {
    if |top| == 0 then None
    else if HeadIs(top[0], name) then Some(top[0])
    else
      var r := FindHead(top[1..], name);
      assert forall k :: 1 <= k < |top| ==> top[k] == top[1..][k - 1];
      r
  }

  /** `topLevel.filter(...)`: every expression headed `name`, in order. */
  function FilterHead(top: seq<seq<Node>>, name: string): (r: seq<seq<Node>>)
    ensures forall x :: x in r ==> x in top && HeadIs(x, name)
    ensures forall k :: 0 <= k < |r| ==> HeadIs(r[k], name)
    ensures forall k :: 0 <= k < |top| && HeadIs(top[k], name) ==> top[k] in r
  {
    if |top| == 0 then []
    else
      var rest := FilterHead(top[1..], name);
      assert forall k :: 1 <= k < |top| ==> top[k] == top[1..][k - 1];
      if HeadIs(top[0], name) then [top[0]] + rest else rest
  }

  /** Filtering keeps document order: it distributes over concatenation. */
  lemma {:induction false} FilterHeadAppend(a: seq<seq<Node>>, b: seq<seq<Node>>, name: string)
    ensures FilterHead(a + b, name) == FilterHead(a, name) + FilterHead(b, name)
  {
    if |a| > 0 {
      assert (a + b)[0] == a[0] && (a + b)[1..] == a[1..] + b;
      FilterHeadAppend(a[1..], b, name);
    } else {
      assert a + b == b;
    }
  }

  /** `semantics(match).ast()` when the match succeeds. */
  function TopLevel(text: string, asWritten: bool): (r: Option<seq<seq<Node>>>)
    ensures r.None? <==> Match(text).None?
    ensures r.Some? && !asWritten ==> forall x :: x in r.value ==> NodesFromText(text, x)
    ensures r.Some? ==> forall x :: x in r.value ==> NodesAreSlices(text, x) && StartsIncrease(x)
  {
    match Match(text)
    case None => None
    case Some(ts) => Some(Ast(text, ts, asWritten))
  }

  lemma EachFromText(text: string, top: seq<seq<Node>>, picked: seq<seq<Node>>)
    requires forall x :: x in top ==> NodesFromText(text, x)
    requires forall x :: x in picked ==> x in top
    ensures forall k :: 0 <= k < |picked| ==> NodesFromText(text, picked[k])
  {
    forall k | 0 <= k < |picked|
      ensures NodesFromText(text, picked[k])
    {
      assert picked[k] in picked;
    }
  }

  /** `parse`, with the node built for a nested expression chosen by
      `asWritten`: the first expression headed "defsrc" and every expression
      headed "deflayer". */
  function ParseWith(text: string, asWritten: bool): (r: ParseResult)
    ensures r == Failed(SyntaxError) <==> Match(text).None?
    ensures r.Parsed? ==> HeadIs(r.defsrc, "defsrc")
    ensures r.Parsed? ==> forall k :: 0 <= k < |r.deflayers| ==> HeadIs(r.deflayers[k], "deflayer")
    ensures r.Parsed? && !asWritten ==> NodesFromText(text, r.defsrc)
    ensures r.Parsed? && !asWritten ==> forall k :: 0 <= k < |r.deflayers| ==> NodesFromText(text, r.deflayers[k])
    ensures r.Parsed? ==> TopLevel(text, asWritten).Some? && r.deflayers == FilterHead(TopLevel(text, asWritten).value, "deflayer")
    ensures r.Parsed? ==> NodesAreSlices(text, r.defsrc) && forall k :: 0 <= k < |r.deflayers| ==> NodesAreSlices(text, r.deflayers[k])
    ensures r.Parsed? ==> StartsIncrease(r.defsrc) && forall k :: 0 <= k < |r.deflayers| ==> StartsIncrease(r.deflayers[k])
  {
    match TopLevel(text, asWritten)
    case None => Failed(SyntaxError)
    case Some(top) =>
      match FindHead(top, "defsrc")
      case None => Failed(MissingDefsrc)
      case Some(defsrc) =>
        var deflayers := FilterHead(top, "deflayer");
        EachPicked(text, top, defsrc, deflayers);
        if asWritten then Parsed(defsrc, deflayers)
        else
          EachFromText(text, top, deflayers);
          Parsed(defsrc, deflayers)
  }

  /** The expressions picked from the top level are still slices of the
      text with increasing starts. */
  lemma EachPicked(text: string, top: seq<seq<Node>>, first: seq<Node>, picked: seq<seq<Node>>)
    requires forall x :: x in top ==> NodesAreSlices(text, x) && StartsIncrease(x)
    requires exists k :: 0 <= k < |top| && top[k] == first
    requires forall x :: x in picked ==> x in top
    ensures NodesAreSlices(text, first) && StartsIncrease(first)
    ensures forall k :: 0 <= k < |picked| ==> NodesAreSlices(text, picked[k]) && StartsIncrease(picked[k])
  {
    var j :| 0 <= j < |top| && top[j] == first;
    assert top[j] in top;
    forall k | 0 <= k < |picked|
      ensures NodesAreSlices(text, picked[k]) && StartsIncrease(picked[k])
    {
      assert picked[k] in picked;
    }
  }

  /** `parse(text)`, nested expressions as whole-span nodes: every node of
      the result is the exact text it spans, and the nodes of one
      expression follow each other with only space between them. */
  function Parse(text: string): (r: ParseResult)
    ensures r.Parsed? ==> NodesFromText(text, r.defsrc)
    ensures r.Parsed? ==> forall k :: 0 <= k < |r.deflayers| ==> NodesFromText(text, r.deflayers[k])
    ensures r.Parsed? ==> TopLevel(text, false).Some? && r.deflayers == FilterHead(TopLevel(text, false).value, "deflayer")
  {
    ParseWith(text, false)
  }

  /** `parse(text)` exactly as written: it fails on the same texts with a
      syntax error, heads its blocks the same way, and its nodes still
      start in order, but a nested expression's node is its interior. */
  function ParseAsWritten(text: string): (r: ParseResult)
    ensures r == Failed(SyntaxError) <==> Parse(text) == Failed(SyntaxError)
    ensures r.Parsed? ==> HeadIs(r.defsrc, "defsrc")
    ensures r.Parsed? ==> TopLevel(text, true).Some? && r.deflayers == FilterHead(TopLevel(text, true).value, "deflayer")
    ensures r.Parsed? ==> NodesAreSlices(text, r.defsrc) && forall k :: 0 <= k < |r.deflayers| ==> NodesAreSlices(text, r.deflayers[k])
    ensures r.Parsed? ==> StartsIncrease(r.defsrc) && forall k :: 0 <= k < |r.deflayers| ==> StartsIncrease(r.deflayers[k])
  {
    ParseWith(text, true)
  }

  // ---------------------------------------------------------------------------
  // Properties
  // ---------------------------------------------------------------------------

  /** After skipped space, an element matches at any character but ")": at
      worst as a word. */
  lemma ElementMatches(s: string, p: nat)
    requires p < |s| && SpaceAt(s, p).None? && s[p] != ')'
    ensures ParseElement(s, p).Some?
  {
    assert WordEnd(s, p) > p;
  }

  /** A list stops only at a ")" or at the end of the text. */
  lemma {:induction false} ListStops(s: string, j: nat)
    requires j <= |s|
    ensures var p := SkipSpaces(s, ParseList(s, j).1); p == |s| || s[p] == ')'
    decreases |s| - j
  {
    var p := SkipSpaces(s, j);
    if p < |s| && s[p] != ')' {
      ElementMatches(s, p);
      ListStops(s, ParseElement(s, p).value.End());
    } else if p < |s| {
      CloseNoElement(s, p);
    }
  }

  /** No element starts at a ")". */
  lemma CloseNoElement(s: string, p: nat)
    requires p < |s| && s[p] == ')'
    ensures ParseElement(s, p).None?
  {
    assert WordEnd(s, p) == p;
  }

  /** An expression fails to match only when its list runs to the end of
      the text: the expression is never closed. */
  lemma UnclosedExpression(s: string, i: nat)
    requires i < |s| && s[i] == '(' && ParseSexpr(s, i).None?
    ensures SkipSpaces(s, ParseList(s, SkipSpaces(s, i + 1)).1) == |s|
  {
    ListStops(s, SkipSpaces(s, i + 1));
  }

  /** The text fails to parse exactly when space does not run from the end
      of its complete top-level expressions to the end of the text. */
  lemma RemainderFails(s: string)
    ensures Parse(s) == Failed(SyntaxError) <==> SkipSpaces(s, ParseTopLevel(s, 0).1) < |s|
  {
  }

  /** What stops the match at `p`, where the complete top-level expressions
      end: a character that does not open an expression, or an expression
      left open to the end of the text. */
  predicate Unmatched(s: string, p: nat)
    requires p <= |s|
  {
    p < |s| && (s[p] != '(' || SkipSpaces(s, ParseList(s, SkipSpaces(s, p + 1)).1) == |s|)
  }

  /** Where no expression starts, the character is unmatched. */
  lemma SexprFailsUnmatched(s: string, p: nat)
    requires p < |s| && ParseSexpr(s, p).None?
    ensures Unmatched(s, p)
  {
    if s[p] == '(' {
      UnclosedExpression(s, p);
    }
  }

  /** The whole text fails to parse exactly when something other than space
      follows its complete top-level expressions, and then it is a character
      that does not open an expression or an expression never closed. */
  lemma SyntaxErrorIff(s: string)
    ensures Parse(s) == Failed(SyntaxError) <==> Unmatched(s, SkipSpaces(s, ParseTopLevel(s, 0).1))
  {
    var p := SkipSpaces(s, ParseTopLevel(s, 0).1);
    RemainderFails(s);
    if p < |s| {
      SexprFailsUnmatched(s, p);
    }
  }

  /** Inside an expression, a "#|" that is never closed is not a comment:
      it starts a word. */
  lemma UnclosedBlockCommentIsWord(s: string, p: nat)
    requires p + 1 < |s| && s[p] == '#' && s[p + 1] == '|' && CloseBlockComment(s, p + 2).None?
    ensures ParseElement(s, p) == Some(Token(Word, p, WordEnd(s, p)))
    ensures WordEnd(s, p) >= p + 2
  {
    assert SpaceAt(s, p + 1).None?;
    assert SkipSpaces(s, p + 1) == p + 1;
    assert WordEnd(s, p) == WordEnd(s, p + 1) == WordEnd(s, p + 2);
  }

  /** Inside an expression, a double quote that is never closed is not a
      string: it starts a word. */
  lemma UnclosedStringIsWord(s: string, p: nat)
    requires p < |s| && s[p] == '"' && CloseString(s, p + 1).None?
    ensures ParseElement(s, p) == Some(Token(Word, p, WordEnd(s, p)))
    ensures WordEnd(s, p) > p
  {
    assert WordEnd(s, p) == WordEnd(s, p + 1);
  }

  /** A word holds no whitespace, no newline, no ")", no ";;" and no "#|"
      that opens a comment closed further on. */
  lemma WordText(s: string, t: Tree)
    requires WellFormed(s, t) && t.Token? && t.kind == Word
    ensures forall k :: t.start <= k < t.end ==>
      && !IsWhitespace(s[k]) && !IsNewline(s[k]) && s[k] != ')'
      && !(k + 1 < |s| && s[k] == ';' && s[k + 1] == ';')
      && !(k + 1 < |s| && s[k] == '#' && s[k + 1] == '|' && CloseBlockComment(s, k + 2).Some?)
  {
    forall k | t.start <= k < t.end
      ensures !IsWhitespace(s[k]) && !IsNewline(s[k]) && !(k + 1 < |s| && s[k] == ';' && s[k + 1] == ';')
      ensures !(k + 1 < |s| && s[k] == '#' && s[k + 1] == '|' && CloseBlockComment(s, k + 2).Some?)
    {
      NoSpaceAt(s, k);
    }
  }

  /** With either node rule, the block is the first top-level expression
      headed "defsrc"; a later one is ignored. */
  lemma DefsrcIsFirst(text: string, asWritten: bool)
    requires ParseWith(text, asWritten).Parsed?
    ensures TopLevel(text, asWritten).Some?
    ensures var top := TopLevel(text, asWritten).value;
      exists k :: 0 <= k < |top| && top[k] == ParseWith(text, asWritten).defsrc
                  && forall j :: 0 <= j < k ==> !HeadIs(top[j], "defsrc")
  {
    var found := FindHead(TopLevel(text, asWritten).value, "defsrc");
    assert found.Some? && ParseWith(text, asWritten).defsrc == found.value;
  }

  /** With either node rule, parsing fails for want of a block exactly when
      the text matches and no top-level expression is headed "defsrc". */
  lemma MissingDefsrcIff(text: string, asWritten: bool)
    ensures ParseWith(text, asWritten) == Failed(MissingDefsrc) <==>
      TopLevel(text, asWritten).Some? && forall x :: x in TopLevel(text, asWritten).value ==> !HeadIs(x, "defsrc")
  {
  }

  // ---------------------------------------------------------------------------
  // A nested expression as the `Sexpr` action builds it
  // ---------------------------------------------------------------------------

  // A step-by-step reading of one small config, from facts about its
  // characters alone.

  predicate Lower(c: char)
  {
    'a' <= c <= 'z'
  }

  /** At `i` no space starts: the end, a parenthesis or a lower-case letter. */
  predicate Solid(s: string, i: nat)
    requires i <= |s|
  {
    i == |s| || s[i] == '(' || s[i] == ')' || Lower(s[i])
  }

  lemma SkipNothing(s: string, i: nat)
    requires i <= |s| && Solid(s, i)
    ensures SkipSpaces(s, i) == i
  {
  }

  lemma SkipOneSpace(s: string, i: nat)
    requires i < |s| && s[i] == ' ' && Solid(s, i + 1)
    ensures SkipSpaces(s, i) == i + 1
  {
  }

  lemma {:induction false} LowerRun(s: string, a: nat, b: nat)
    requires a <= b <= |s|
    requires forall k :: a <= k < b ==> Lower(s[k])
    requires b < |s| ==> s[b] == ' ' || s[b] == ')'
    ensures WordEnd(s, a) == b
    decreases b - a
  {
    if a < b {
      LowerRun(s, a + 1, b);
    }
  }

  /** A run of letters ended by a space or ")" is a word. */
  lemma LowerWord(s: string, a: nat, b: nat)
    requires a < b <= |s|
    requires forall k :: a <= k < b ==> Lower(s[k])
    requires b < |s| ==> s[b] == ' ' || s[b] == ')'
    ensures ParseElement(s, a) == Some(Token(Word, a, b))
  {
    LowerRun(s, a, b);
  }

  lemma ListNext(s: string, j: nat, t: Tree, rest: seq<Tree>, e: nat)
    requires j <= |s|
    requires ParseElement(s, SkipSpaces(s, j)) == Some(t)
    requires ParseList(s, t.End()) == (rest, e)
    ensures ParseList(s, j) == ([t] + rest, e)
  {
  }

  lemma ListAtClose(s: string, j: nat)
    requires j < |s| && s[j] == ')'
    ensures ParseList(s, j) == ([], j)
  {
    SkipNothing(s, j);
    LowerRun(s, j, j);
  }

  lemma ListLast(s: string, j: nat, t: Tree)
    requires j <= |s|
    requires ParseElement(s, SkipSpaces(s, j)) == Some(t)
    requires t.End() < |s| && s[t.End()] == ')'
    ensures ParseList(s, j) == ([t], t.End())
  {
    ListAtClose(s, t.End());
    assert [t] + [] == [t];
  }

  lemma SexprAt(s: string, i: nat, items: seq<Tree>, le: nat)
    requires i < |s| && s[i] == '(' && Solid(s, i + 1)
    requires ParseList(s, i + 1) == (items, le)
    requires le < |s| && s[le] == ')'
    ensures ParseSexpr(s, i) == Some(Sexpr(i, items, i + 1, le, le + 1))
  {
    SkipNothing(s, i + 1);
    SkipNothing(s, le);
    SexprUnfold(s, i);
  }

  /** One step of `ParseSexpr` at an opening parenthesis. */
  lemma SexprUnfold(s: string, i: nat)
    requires i < |s| && s[i] == '('
    ensures var ls := SkipSpaces(s, i + 1);
            var q := SkipSpaces(s, ParseList(s, ls).1);
            ParseSexpr(s, i) == if q < |s| && s[q] == ')' then Some(Sexpr(i, ParseList(s, ls).0, ls, ParseList(s, ls).1, q + 1)) else None
  {
  }

  /** A `(defsrc)` whose first key is a nested expression. */
  const NestedKeyConfig := "(defsrc (x) b)"

  /** The characters of `NestedKeyConfig`, one by one. */
  predicate NestedKeyShape(s: string)
  {
    && |s| == 14
    && s[0] == '(' && s[1] == 'd' && s[2] == 'e' && s[3] == 'f' && s[4] == 's' && s[5] == 'r' && s[6] == 'c'
    && s[7] == ' ' && s[8] == '(' && s[9] == 'x' && s[10] == ')' && s[11] == ' ' && s[12] == 'b' && s[13] == ')'
  }

  lemma NestedKeyConfigShape()
    ensures NestedKeyShape(NestedKeyConfig)
  {
  }

  const InnerTree := Sexpr(8, [Token(Word, 9, 10)], 9, 10, 11)
  const SrcTree := Sexpr(0, [Token(Word, 1, 7), InnerTree, Token(Word, 12, 13)], 1, 13, 14)

  lemma InnerParsed(s: string)
    requires NestedKeyShape(s)
    ensures ParseSexpr(s, 8) == Some(InnerTree)
  {
    LowerWord(s, 9, 10);
    SkipNothing(s, 9);
    ListLast(s, 9, Token(Word, 9, 10));
    SexprAt(s, 8, [Token(Word, 9, 10)], 10);
  }

  lemma KeysParsed(s: string)
    requires NestedKeyShape(s)
    ensures ParseList(s, 7) == ([InnerTree, Token(Word, 12, 13)], 13)
  {
    LowerWord(s, 12, 13);
    SkipOneSpace(s, 11);
    SkipOneSpace(s, 7);
    InnerParsed(s);
    ListLast(s, 11, Token(Word, 12, 13));
    ListNext(s, 7, InnerTree, [Token(Word, 12, 13)], 13);
    ConsPair(InnerTree, Token(Word, 12, 13));
  }

  lemma HeadParsed(s: string)
    requires NestedKeyShape(s)
    ensures ParseElement(s, SkipSpaces(s, 1)) == Some(Token(Word, 1, 7))
  {
    LowerWord(s, 1, 7);
    SkipNothing(s, 1);
  }

  lemma SrcListParsed(s: string)
    requires NestedKeyShape(s)
    ensures ParseList(s, 1) == (SrcTree.items, 13)
  {
    HeadParsed(s);
    KeysParsed(s);
    ListNext(s, 1, Token(Word, 1, 7), [InnerTree, Token(Word, 12, 13)], 13);
    ConsTriple(Token(Word, 1, 7), InnerTree, Token(Word, 12, 13));
  }

  lemma SrcParsed(s: string)
    requires NestedKeyShape(s)
    ensures ParseSexpr(s, 0) == Some(SrcTree)
  {
    SrcListParsed(s);
    SexprAt(s, 0, SrcTree.items, 13);
  }

  lemma NestedKeyMatch(s: string)
    requires NestedKeyShape(s)
    ensures Match(s) == Some([SrcTree])
  {
    SrcParsed(s);
    SkipNothing(s, 0);
    SkipNothing(s, 14);
    assert ParseTopLevel(s, 14) == ([], 14);
    assert [SrcTree] + [] == [SrcTree];
  }

  /** The nodes of the block as written, and as intended. */
  const AsWrittenKeys := [Node("defsrc", 1, 7), Node("x", 9, 10), Node("b", 12, 13)]
  const IntendedKeys := [Node("defsrc", 1, 7), Node("(x)", 8, 11), Node("b", 12, 13)]

  lemma NestedKeyNodes(s: string)
    requires NestedKeyShape(s)
    ensures WellFormed(s, SrcTree)
    ensures ExprNodes(s, SrcTree, true) == AsWrittenKeys
    ensures ExprNodes(s, SrcTree, false) == IntendedKeys
  {
    SrcParsed(s);
    NestedKeysAsWritten(s);
    NestedKeysIntended(s);
  }

  lemma NestedKeysAsWritten(s: string)
    requires NestedKeyShape(s) && WellFormed(s, SrcTree)
    ensures ExprNodes(s, SrcTree, true) == AsWrittenKeys
  {
    var w := ExprNodes(s, SrcTree, true);
    assert SrcTree.items[1] == InnerTree;
    assert s[1..7] == "defsrc" && w[0] == AsWrittenKeys[0];
    assert s[9..10] == "x" && w[1] == AsWrittenKeys[1];
    assert s[12..13] == "b" && w[2] == AsWrittenKeys[2];
  }

  lemma NestedKeysIntended(s: string)
    requires NestedKeyShape(s) && WellFormed(s, SrcTree)
    ensures ExprNodes(s, SrcTree, false) == IntendedKeys
  {
    var w := ExprNodes(s, SrcTree, false);
    assert SrcTree.items[1] == InnerTree;
    assert s[1..7] == "defsrc" && w[0] == IntendedKeys[0];
    assert s[8..11] == "(x)" && w[1] == IntendedKeys[1];
    assert s[12..13] == "b" && w[2] == IntendedKeys[2];
  }

  lemma NestedKeyTop(s: string, asWritten: bool)
    requires NestedKeyShape(s)
    ensures TopLevel(s, asWritten) == Some([if asWritten then AsWrittenKeys else IntendedKeys])
  {
    NestedKeyMatch(s);
    NestedKeyNodes(s);
    var top := Ast(s, [SrcTree], asWritten);
    assert top[0] == ExprNodes(s, SrcTree, asWritten);
    assert top == [top[0]];
  }

  lemma NestedKeyParse(s: string, asWritten: bool)
    requires NestedKeyShape(s)
    ensures ParseWith(s, asWritten) == Parsed(if asWritten then AsWrittenKeys else IntendedKeys, [])
  {
    NestedKeyTop(s, asWritten);
    var top: seq<seq<Node>> := [if asWritten then AsWrittenKeys else IntendedKeys];
    assert HeadIs(top[0], "defsrc");
    assert FindHead(top, "defsrc") == Some(top[0]);
    assert !HeadIs(top[0], "deflayer");
    assert FilterHead(top, "deflayer") == [] by {
      assert FilterHead(top[1..], "deflayer") == [];
    }
  }

  /** As written, the node of the nested key `(x)` is `x` alone, starting
      after "(" and ending before ")": the ")" is left between two keys of
      the block, where only space belongs, and a command that replaces the
      text from the first key to the last drops it. Parsed as intended, the
      node is `(x)`. */
  lemma NestedKeyAsWritten()
    ensures ParseAsWritten(NestedKeyConfig) == Parsed(AsWrittenKeys, [])
    ensures !NodesFromText(NestedKeyConfig, AsWrittenKeys)
    ensures Parse(NestedKeyConfig) == Parsed(IntendedKeys, [])
  {
    var s := NestedKeyConfig;
    NestedKeyConfigShape();
    NestedKeyParse(s, true);
    NestedKeyParse(s, false);
    SkipNothing(s, 10);
    assert SkipSpaces(s, AsWrittenKeys[1].endIdx) != AsWrittenKeys[2].startIdx;
  }
}
