/** The alignment engine (src/main.ts): the column template taken from the
    `(defsrc)` keys, the realignment of every `(deflayer)` whose key count
    matches, fixed-width columns for `(defsrc)` and the placeholder row of a
    new layer.

    The editor's `doc.positionAt` is a parameter: a total map from character
    offsets to (line, character) positions. Each command also takes
    `asWritten`, which picks the parser: `true` for `parse` as the program
    has it, `false` for `parse` with whole nested expressions as nodes. */
module Format {
  import opened Strings
  import opened Parser

  // ---------------------------------------------------------------------------
  // Positions
  // ---------------------------------------------------------------------------

  datatype Position = Position(line: nat, character: nat)

  /** What `positionForNode` returns: where a node starts, and its text. */
  datatype Located = Located(position: Position, contents: string)

  datatype Range = Range(start: Position, end: Position)

  datatype TextEdit = TextEdit(range: Range, newText: string)

  /** Offsets further on are never on an earlier line: true of any editor's
      offset-to-position service. */
  ghost predicate LinesMonotone(positionAt: nat -> Position)
  {
    forall a: nat, b: nat :: a <= b ==> positionAt(a).line <= positionAt(b).line
  }

  /** `positionForNode(doc, node)` */
  function PositionForNode(positionAt: nat -> Position, node: Node): (r: Located)
    ensures r.position == positionAt(node.startIdx)
    ensures r.contents == node.contents
  {
    Located(positionAt(node.startIdx), node.contents)
  }

  /** `nodes.map((e) => positionForNode(doc, e))` */
  function Locate(positionAt: nat -> Position, nodes: seq<Node>): (r: seq<Located>)
    ensures |r| == |nodes|
    ensures forall k :: 0 <= k < |r| ==> r[k] == PositionForNode(positionAt, nodes[k])
  {
    seq(|nodes|, k requires 0 <= k < |nodes| => PositionForNode(positionAt, nodes[k]))
  }

  /** Tokens whose lines never go back. */
  predicate LinesAscending(toks: seq<Located>)
  {
    forall i, j :: 0 <= i < j < |toks| ==> toks[i].position.line <= toks[j].position.line
  }

  /** Nodes whose starts increase, located by a monotone service, are on
      ascending lines. */
  lemma LocatedInOrder(positionAt: nat -> Position, nodes: seq<Node>)
    requires LinesMonotone(positionAt) && StartsIncrease(nodes)
    ensures LinesAscending(Locate(positionAt, nodes))
  {
    forall i, j | 0 <= i < j < |nodes|
      ensures nodes[i].startIdx <= nodes[j].startIdx
    {
      NodesOrdered(nodes, i, j);
    }
  }

  /** Starts that increase from each node to the next increase from any
      node to any later one. */
  lemma {:induction false} NodesOrdered(nodes: seq<Node>, i: nat, j: nat)
    requires StartsIncrease(nodes) && i < j < |nodes|
    ensures nodes[i].startIdx < nodes[j].startIdx
    decreases j - i
  {
    if i + 1 < j {
      NodesOrdered(nodes, i + 1, j);
    }
  }

  /** `getContentPositionsRange`: from the first token's position to the
      end of the last token, read as if the last token held no line break. */
  function GetContentPositionsRange(toks: seq<Located>): (r: Range)
    requires |toks| > 0
    ensures r.start == toks[0].position
    ensures r.end.line == toks[|toks| - 1].position.line
    ensures r.end.character == toks[|toks| - 1].position.character + |toks[|toks| - 1].contents|
  {
    var last := toks[|toks| - 1];
    Range(toks[0].position, Position(last.position.line, last.position.character + |last.contents|))
  }

  // ---------------------------------------------------------------------------
  // Grouping tokens by line
  // ---------------------------------------------------------------------------

  /** The reduce step: a token joins the last group when it is on that
      group's line, and starts a new group otherwise. */
  function AddToken(r: seq<seq<Located>>, t: Located): (a: seq<seq<Located>>)
    requires forall n :: 0 <= n < |r| ==> |r[n]| > 0
    ensures 0 < |a| && |r| <= |a| <= |r| + 1
  {
    if |r| > 0 && r[|r| - 1][0].position.line == t.position.line then
      r[..|r| - 1] + [r[|r| - 1] + [t]]
    else
      r + [[t]]
  }

  /** The runs of consecutive tokens on one line, in order. */
  function LineGroups(toks: seq<Located>): (r: seq<seq<Located>>)
    ensures forall n :: 0 <= n < |r| ==> |r[n]| > 0
    ensures |toks| > 0 <==> |r| > 0
    ensures |toks| > 0 ==> r[|r| - 1][0].position.line == toks[|toks| - 1].position.line
    decreases |toks|
  {
    if |toks| == 0 then [] else AddToken(LineGroups(toks[..|toks| - 1]), toks[|toks| - 1])
  }

  /** Which groups the reduce step keeps, extends or adds. */
  lemma AddTokenShape(r: seq<seq<Located>>, t: Located)
    requires forall n :: 0 <= n < |r| ==> |r[n]| > 0
    ensures var a := AddToken(r, t);
      if |r| > 0 && r[|r| - 1][0].position.line == t.position.line then
        |a| == |r| && (forall n :: 0 <= n < |r| - 1 ==> a[n] == r[n]) && a[|r| - 1] == r[|r| - 1] + [t]
      else
        |a| == |r| + 1 && (forall n :: 0 <= n < |r| ==> a[n] == r[n]) && a[|r|] == [t]
  {
  }

  lemma AddTokenFlatten(r: seq<seq<Located>>, t: Located)
    requires forall n :: 0 <= n < |r| ==> |r[n]| > 0
    ensures Concat(AddToken(r, t)) == Concat(r) + [t]
  {
    if |r| > 0 && r[|r| - 1][0].position.line == t.position.line {
      var front := r[..|r| - 1];
      var last := r[|r| - 1];
      assert front + [last] == r;
      ConcatAppend(front, last);
      ConcatAppend(front, last + [t]);
    } else {
      ConcatAppend(r, [t]);
    }
  }

  /** Grouping only cuts the tokens into runs: flattening gives them back. */
  lemma {:induction false} GroupsFlatten(toks: seq<Located>)
    ensures Concat(LineGroups(toks)) == toks
    decreases |toks|
  {
    if |toks| > 0 {
      var init := toks[..|toks| - 1];
      GroupsFlatten(init);
      AddTokenFlatten(LineGroups(init), toks[|toks| - 1]);
      assert init + [toks[|toks| - 1]] == toks;
    }
  }

  /** All tokens of a group are on the group's line. */
  predicate OneLine(group: seq<Located>)
  {
    forall j :: 0 <= j < |group| ==> group[j].position.line == group[0].position.line
  }

  /** Groups each on one line, neighbours on different lines. */
  predicate ByLine(r: seq<seq<Located>>)
  {
    && (forall n :: 0 <= n < |r| ==> |r[n]| > 0 && OneLine(r[n]))
    && (forall n :: 0 < n < |r| ==> r[n - 1][0].position.line != r[n][0].position.line)
  }

  lemma AddTokenByLine(r: seq<seq<Located>>, t: Located)
    requires ByLine(r)
    ensures ByLine(AddToken(r, t))
  {
    var a := AddToken(r, t);
    if |r| > 0 && r[|r| - 1][0].position.line == t.position.line {
      assert forall n :: 0 <= n < |r| - 1 ==> a[n] == r[n];
      assert a[|r| - 1][0] == r[|r| - 1][0];
    } else {
      assert forall n :: 0 <= n < |r| ==> a[n] == r[n];
    }
  }

  /** Each group is on one line, and neighbouring groups are on different
      lines. */
  lemma {:induction false} GroupsByLine(toks: seq<Located>)
    ensures ByLine(LineGroups(toks))
    decreases |toks|
  {
    if |toks| > 0 {
      GroupsByLine(toks[..|toks| - 1]);
      AddTokenByLine(LineGroups(toks[..|toks| - 1]), toks[|toks| - 1]);
    }
  }

  /** On ascending lines the groups' lines strictly increase: every line's
      tokens form a single group. */
  lemma {:induction false} GroupLinesIncrease(toks: seq<Located>)
    requires LinesAscending(toks)
    ensures var r := LineGroups(toks);
      forall m, n :: 0 <= m < n < |r| ==> r[m][0].position.line < r[n][0].position.line
    decreases |toks|
  {
    if |toks| > 0 {
      var init := toks[..|toks| - 1];
      GroupLinesIncrease(init);
      var g: seq<seq<Located>> := LineGroups(init);
      forall n | 0 <= n < |g|
        ensures g[n][0].position.line <= toks[|toks| - 1].position.line
      {
        GroupMember(init, n, 0);
      }
      AddTokenIncrease(g, toks[|toks| - 1]);
    }
  }

  /** The reduce step keeps the groups' lines increasing when the token is
      on the last group's line or below. */
  lemma AddTokenIncrease(r: seq<seq<Located>>, t: Located)
    requires forall n :: 0 <= n < |r| ==> |r[n]| > 0
    requires forall m, n :: 0 <= m < n < |r| ==> r[m][0].position.line < r[n][0].position.line
    requires forall n :: 0 <= n < |r| ==> r[n][0].position.line <= t.position.line
    ensures var a := AddToken(r, t);
      && (forall n :: 0 <= n < |a| ==> |a[n]| > 0)
      && (forall m, n :: 0 <= m < n < |a| ==> a[m][0].position.line < a[n][0].position.line)
  {
    AddTokenShape(r, t);
  }

  /** Every grouped token is one of the tokens. */
  lemma GroupMember(toks: seq<Located>, n: nat, j: nat)
    requires var r := LineGroups(toks); n < |r| && j < |r[n]|
    ensures LineGroups(toks)[n][j] in toks
  {
    GroupsFlatten(toks);
    ConcatMember(LineGroups(toks), n, j);
  }

  /** The template's columns: each key's character relative to `origin`'s. */
  function Relative(group: seq<Located>, origin: Located): (r: seq<int>)
    ensures |r| == |group|
    ensures forall j :: 0 <= j < |r| ==> r[j] + origin.position.character == group[j].position.character
  {
    seq(|group|, j requires 0 <= j < |group| => group[j].position.character - origin.position.character)
  }

  lemma RelativeAppend(group: seq<Located>, t: Located, origin: Located)
    ensures Relative(group + [t], origin) == Relative(group, origin) + [t.position.character - origin.position.character]
  {
  }

  /** Each group's columns relative to `origin`. */
  function ColumnsOf(g: seq<seq<Located>>, origin: Located): (cols: seq<seq<int>>)
    ensures |cols| == |g|
    ensures forall n :: 0 <= n < |g| ==> cols[n] == Relative(g[n], origin)
  {
    seq(|g|, n requires 0 <= n < |g| => Relative(g[n], origin))
  }

  /** How the columns grow when the reduce step adds a token. */
  lemma ColumnsStep(g: seq<seq<Located>>, t: Located, origin: Located)
    requires forall n :: 0 <= n < |g| ==> |g[n]| > 0
    ensures var before := ColumnsOf(g, origin);
      var column := t.position.character - origin.position.character;
      ColumnsOf(AddToken(g, t), origin) ==
        if |g| > 0 && g[|g| - 1][0].position.line == t.position.line
        then before[..|before| - 1] + [before[|before| - 1] + [column]]
        else before + [[column]]
  {
    var a := AddToken(g, t);
    var before := ColumnsOf(g, origin);
    var column := t.position.character - origin.position.character;
    AddTokenShape(g, t);
    if |g| > 0 && g[|g| - 1][0].position.line == t.position.line {
      RelativeAppend(g[|g| - 1], t, origin);
      var after := before[..|before| - 1] + [before[|before| - 1] + [column]];
      assert forall n :: 0 <= n < |a| ==> ColumnsOf(a, origin)[n] == after[n];
    } else {
      assert Relative([t], origin) == [column];
      var after := before + [[column]];
      assert forall n :: 0 <= n < |a| ==> ColumnsOf(a, origin)[n] == after[n];
    }
  }

  /** The column template of the `(defsrc)` keys: one list of columns per
      source line, holding for each key of the line its character minus the
      first key's. */
  function Template(src: seq<Located>): (cols: seq<seq<int>>)
    ensures |cols| == |LineGroups(src)|
    ensures forall n :: 0 <= n < |cols| ==> |cols[n]| == |LineGroups(src)[n]|
    ensures |src| > 0 ==> forall n, j :: 0 <= n < |cols| && 0 <= j < |cols[n]| ==>
      cols[n][j] + src[0].position.character == LineGroups(src)[n][j].position.character
  {
    if |src| == 0 then [] else ColumnsOf(LineGroups(src), src[0])
  }

  lemma {:induction false} TotalColumns(g: seq<seq<Located>>, origin: Located)
    ensures Total(ColumnsOf(g, origin)) == |Concat(g)|
  {
    if |g| > 0 {
      var front := g[..|g| - 1];
      TotalColumns(front, origin);
      assert ColumnsOf(g, origin)[..|g| - 1] == ColumnsOf(front, origin);
      assert g == front + [g[|g| - 1]];
      ConcatAppend(front, g[|g| - 1]);
    }
  }

  lemma TemplateTotal(src: seq<Located>)
    ensures Total(Template(src)) == |src|
  {
    if |src| > 0 {
      TemplateShape(src);
    }
  }

  /** The template has a column per `(defsrc)` key, no empty line, and
      puts the first key at column 0. */
  lemma TemplateShape(src: seq<Located>)
    requires |src| > 0
    ensures var cols := Template(src);
      && |cols| > 0
      && (forall n :: 0 <= n < |cols| ==> |cols[n]| > 0)
      && Total(cols) == |src|
      && cols[0][0] == 0
  {
    var g := LineGroups(src);
    GroupsFlatten(src);
    TotalColumns(g, src[0]);
    assert Concat(g)[0] == g[0][0];
  }

  /** The record being reduced holds `vals[n]` under the line of group
      `g[n]`, and its keys, listed in `lines`, ascend. */
  ghost predicate Tracks<V>(m: map<nat, V>, lines: seq<nat>, g: seq<seq<Located>>, vals: seq<V>)
  {
    && |lines| == |g| == |vals|
    && (forall n :: 0 <= n < |g| ==> |g[n]| > 0 && lines[n] == g[n][0].position.line)
    && (forall l :: l in m <==> l in lines)
    && (forall a, b :: 0 <= a < b < |lines| ==> lines[a] < lines[b])
    && (forall n :: 0 <= n < |lines| ==> m[lines[n]] == vals[n])
  }

  /** On ascending lines, a key whose line is already recorded is on the
      last recorded line. */
  lemma RecordedIsLast<V>(m: map<nat, V>, lines: seq<nat>, g: seq<seq<Located>>, vals: seq<V>, line: nat)
    requires Tracks(m, lines, g, vals)
    requires |lines| > 0 ==> lines[|lines| - 1] <= line
    ensures line in m ==> lines[|lines| - 1] == line
  {
    if line in m {
      var i :| 0 <= i < |lines| && lines[i] == line;
    }
  }

  /** A key on a line after every recorded one starts a new entry. */
  lemma TracksNewLine<V>(m: map<nat, V>, lines: seq<nat>, g: seq<seq<Located>>, vals: seq<V>, t: Located, v: V)
    requires Tracks(m, lines, g, vals)
    requires |lines| > 0 ==> lines[|lines| - 1] < t.position.line
    ensures Tracks(m[t.position.line := v], lines + [t.position.line], AddToken(g, t), vals + [v])
  {
    AddTokenShape(g, t);
  }

  /** A key on the last recorded line replaces that line's entry. */
  lemma TracksSameLine<V>(m: map<nat, V>, lines: seq<nat>, g: seq<seq<Located>>, vals: seq<V>, t: Located, v: V)
    requires Tracks(m, lines, g, vals)
    requires |lines| > 0 && lines[|lines| - 1] == t.position.line
    ensures Tracks(m[t.position.line := v], lines, AddToken(g, t), vals[..|vals| - 1] + [v])
  {
    AddTokenShape(g, t);
  }

  /** Grouping one more key is one reduce step. */
  lemma GroupsStep(src: seq<Located>, k: nat)
    requires k < |src|
    ensures LineGroups(src[..k + 1]) == AddToken(LineGroups(src[..k]), src[k])
  {
    assert src[..k + 1][..k] == src[..k];
  }

  /** The reduce of `srcLineColumns` after `k` keys. */
  ghost predicate ColumnsSoFar(src: seq<Located>, k: nat, m: map<nat, seq<int>>, lines: seq<nat>)
  {
    && k <= |src|
    && (k == 0 ==> m == map[] && lines == [])
    && (k > 0 ==> var g := LineGroups(src[..k]);
          Tracks(m, lines, g, ColumnsOf(g, src[0])) && lines[|lines| - 1] == src[k - 1].position.line)
  }

  /** One key added to the record keeps it tracking the columns. */
  lemma ColumnsTracksStep(m: map<nat, seq<int>>, lines: seq<nat>, g: seq<seq<Located>>, t: Located, origin: Located,
                          entry: seq<int>, column: int)
    requires Tracks(m, lines, g, ColumnsOf(g, origin))
    requires |lines| > 0 ==> lines[|lines| - 1] <= t.position.line
    requires entry == if t.position.line in m then m[t.position.line] else []
    requires column == t.position.character - origin.position.character
    ensures var line := t.position.line;
      var m', lines' := m[line := entry + [column]], if line in m then lines else lines + [line];
      && Tracks(m', lines', AddToken(g, t), ColumnsOf(AddToken(g, t), origin))
      && |lines'| > 0 && lines'[|lines'| - 1] == line
  {
    var before := ColumnsOf(g, origin);
    RecordedIsLast(m, lines, g, before, t.position.line);
    ColumnsStep(g, t, origin);
    if t.position.line !in m {
      var empty: seq<int> := [];
      assert empty + [column] == [column];
      TracksNewLine(m, lines, g, before, t, [column]);
    } else {
      TracksSameLine(m, lines, g, before, t, m[t.position.line] + [column]);
    }
  }

  lemma ColumnsSoFarStep(src: seq<Located>, k: nat, m: map<nat, seq<int>>, lines: seq<nat>,
                          entry: seq<int>, column: int)
    requires LinesAscending(src) && k < |src| && ColumnsSoFar(src, k, m, lines)
    requires entry == if src[k].position.line in m then m[src[k].position.line] else []
    requires column == src[k].position.character - src[0].position.character
    ensures var line := src[k].position.line;
      ColumnsSoFar(src, k + 1, m[line := entry + [column]], if line in m then lines else lines + [line])
  {
    var g := LineGroups(src[..k]);
    GroupsStep(src, k);
    if k == 0 {
      assert Tracks(m, lines, g, ColumnsOf(g, src[0]));
    } else {
      assert src[k - 1].position.line <= src[k].position.line;
    }
    ColumnsTracksStep(m, lines, g, src[k], src[0], entry, column);
  }

  /** Reading the finished record back in ascending key order gives the
      template. */
  lemma ColumnsSoFarDone(src: seq<Located>, m: map<nat, seq<int>>, lines: seq<nat>)
    requires ColumnsSoFar(src, |src|, m, lines)
    ensures seq(|lines|, n requires 0 <= n < |lines| => m[lines[n]]) == Template(src)
  {
    assert src[..|src|] == src;
  }

  /** `srcLineColumns` in `format`: a record from line number to columns,
      filled key by key, then read back with `Object.values`, which lists
      integer keys in ascending order. `lines` records the keys in the order
      they were added; on ascending lines that order is the ascending one. */
  method SrcLineColumns(src: seq<Located>) returns (columns: seq<seq<int>>)
    requires LinesAscending(src)
    ensures columns == Template(src)
  {
    var m: map<nat, seq<int>> := map[];
    var lines: seq<nat> := [];
    for k := 0 to |src|
      invariant ColumnsSoFar(src, k, m, lines)
    {
      var p := src[k].position;
      var column := p.character - src[0].position.character;
      // `if (!m[line]) m[line] = []`, then push
      var entry := if p.line in m then m[p.line] else [];
      ColumnsSoFarStep(src, k, m, lines, entry, column);
      if p.line !in m {
        lines := lines + [p.line];
      }
      m := m[p.line := entry + [column]];
    }
    ColumnsSoFarDone(src, m, lines);
    columns := seq(|lines|, n requires 0 <= n < |lines| => m[lines[n]]);
  }

  /** The keys' texts. */
  function Contents(toks: seq<Located>): (r: seq<string>)
    ensures |r| == |toks|
    ensures forall k :: 0 <= k < |toks| ==> r[k] == toks[k].contents
  {
    seq(|toks|, k requires 0 <= k < |toks| => toks[k].contents)
  }

  /** A line of `(defsrc)` keys as `setSrcColumnWidth` records it: where its
      first key is, and the keys' texts. */
  datatype LineItems = LineItems(startPosition: Position, items: seq<string>)

  /** Each group's start and texts. */
  function ItemsOf(g: seq<seq<Located>>): (r: seq<LineItems>)
    requires forall n :: 0 <= n < |g| ==> |g[n]| > 0
    ensures |r| == |g|
    ensures forall n :: 0 <= n < |g| ==> r[n] == LineItems(g[n][0].position, Contents(g[n]))
  {
    seq(|g|, n requires 0 <= n < |g| => LineItems(g[n][0].position, Contents(g[n])))
  }

  /** The `(defsrc)` keys line by line. */
  function SrcLines(src: seq<Located>): (r: seq<LineItems>)
    ensures |src| > 0 <==> |r| > 0
    ensures forall n :: 0 <= n < |r| ==> |r[n].items| > 0
    ensures |src| > 0 ==> r[0].startPosition == src[0].position && r[0].items[0] == src[0].contents
  {
    var g := LineGroups(src);
    if |src| > 0 then
      GroupsFlatten(src);
      assert Concat(g) == g[0] + Concat(g[1..]);
      ItemsOf(g)
    else
      ItemsOf(g)
  }

  /** How the line items grow when the reduce step adds a token. */
  lemma ItemsStep(g: seq<seq<Located>>, t: Located)
    requires forall n :: 0 <= n < |g| ==> |g[n]| > 0
    ensures var before := ItemsOf(g);
      ItemsOf(AddToken(g, t)) ==
        if |g| > 0 && g[|g| - 1][0].position.line == t.position.line
        then before[..|before| - 1] + [before[|before| - 1].(items := before[|before| - 1].items + [t.contents])]
        else before + [LineItems(t.position, [t.contents])]
  {
    var a := AddToken(g, t);
    var before := ItemsOf(g);
    AddTokenShape(g, t);
    if |g| > 0 && g[|g| - 1][0].position.line == t.position.line {
      assert Contents(g[|g| - 1] + [t]) == Contents(g[|g| - 1]) + [t.contents];
      var after := before[..|before| - 1] + [before[|before| - 1].(items := before[|before| - 1].items + [t.contents])];
      assert forall n :: 0 <= n < |a| ==> ItemsOf(a)[n] == after[n];
    } else {
      assert Contents([t]) == [t.contents];
      var after := before + [LineItems(t.position, [t.contents])];
      assert forall n :: 0 <= n < |a| ==> ItemsOf(a)[n] == after[n];
    }
  }

  /** One key added to the record keeps it tracking the line items. */
  lemma ItemsTracksStep(m: map<nat, LineItems>, lines: seq<nat>, g: seq<seq<Located>>, t: Located,
                        m': map<nat, LineItems>, lines': seq<nat>)
    requires forall n :: 0 <= n < |g| ==> |g[n]| > 0
    requires Tracks(m, lines, g, ItemsOf(g))
    requires |lines| > 0 ==> lines[|lines| - 1] <= t.position.line
    requires var entry := if t.position.line in m then m[t.position.line] else LineItems(t.position, []);
      && m' == m[t.position.line := entry.(items := entry.items + [t.contents])]
      && lines' == if t.position.line in m then lines else lines + [t.position.line]
    ensures Tracks(m', lines', AddToken(g, t), ItemsOf(AddToken(g, t)))
    ensures |lines'| > 0 && lines'[|lines'| - 1] == t.position.line
  {
    var before := ItemsOf(g);
    RecordedIsLast(m, lines, g, before, t.position.line);
    ItemsStep(g, t);
    if t.position.line !in m {
      var empty: seq<string> := [];
      assert empty + [t.contents] == [t.contents];
      TracksNewLine(m, lines, g, before, t, LineItems(t.position, [t.contents]));
    } else {
      var entry := m[t.position.line];
      TracksSameLine(m, lines, g, before, t, entry.(items := entry.items + [t.contents]));
    }
  }

  /** The reduce of `srcLineColumns` in `setSrcColumnWidth` after `k` keys. */
  ghost predicate ItemsSoFar(src: seq<Located>, k: nat, m: map<nat, LineItems>, lines: seq<nat>)
  {
    && k <= |src|
    && (k == 0 ==> m == map[] && lines == [])
    && (k > 0 ==> var g := LineGroups(src[..k]);
          Tracks(m, lines, g, ItemsOf(g)) && lines[|lines| - 1] == src[k - 1].position.line)
  }

  lemma ItemsSoFarStep(src: seq<Located>, k: nat, m: map<nat, LineItems>, lines: seq<nat>,
                       m': map<nat, LineItems>, lines': seq<nat>)
    requires LinesAscending(src) && k < |src| && ItemsSoFar(src, k, m, lines)
    requires var p := src[k].position;
      var entry := if p.line in m then m[p.line] else LineItems(p, []);
      && m' == m[p.line := entry.(items := entry.items + [src[k].contents])]
      && lines' == if p.line in m then lines else lines + [p.line]
    ensures ItemsSoFar(src, k + 1, m', lines')
  {
    var g := LineGroups(src[..k]);
    GroupsStep(src, k);
    if k == 0 {
      assert Tracks(m, lines, g, ItemsOf(g));
    } else {
      assert src[k - 1].position.line <= src[k].position.line;
    }
    ItemsTracksStep(m, lines, g, src[k], m', lines');
  }

  lemma ItemsSoFarDone(src: seq<Located>, m: map<nat, LineItems>, lines: seq<nat>)
    requires ItemsSoFar(src, |src|, m, lines)
    ensures seq(|lines|, n requires 0 <= n < |lines| => m[lines[n]]) == SrcLines(src)
  {
    assert src[..|src|] == src;
  }

  /** `srcLineColumns` in `setSrcColumnWidth`: a record from line number to
      the line's start and key texts, read back in ascending key order. */
  method SrcLineItems(src: seq<Located>) returns (lineItems: seq<LineItems>)
    requires LinesAscending(src)
    ensures lineItems == SrcLines(src)
  {
    var m: map<nat, LineItems> := map[];
    var lines: seq<nat> := [];
    for k := 0 to |src|
      invariant ItemsSoFar(src, k, m, lines)
    {
      var p := src[k].position;
      ghost var m0, lines0 := m, lines;
      // `if (!m[line]) m[line] = { startPosition, items: [] }`, then push
      var entry := if p.line in m then m[p.line] else LineItems(p, []);
      if p.line !in m {
        lines := lines + [p.line];
      }
      m := m[p.line := entry.(items := entry.items + [src[k].contents])];
      ItemsSoFarStep(src, k, m0, lines0, m, lines);
    }
    ItemsSoFarDone(src, m, lines);
    lineItems := seq(|lines|, n requires 0 <= n < |lines| => m[lines[n]]);
  }

  // ---------------------------------------------------------------------------
  // Realigning a layer
  // ---------------------------------------------------------------------------

  /** The number of keys the template holds. */
  function Total(cols: seq<seq<int>>): nat
  {
    if |cols| == 0 then 0 else Total(cols[..|cols| - 1]) + |cols[|cols| - 1]|
  }

  /** The template lines before line `n` hold `Total(cols[..n])` keys. */
  lemma {:induction false} TotalPrefix(cols: seq<seq<int>>, n: nat)
    requires n < |cols|
    ensures Total(cols[..n + 1]) == Total(cols[..n]) + |cols[n]|
    ensures Total(cols[..n]) + |cols[n]| <= Total(cols)
    decreases |cols| - n
  {
    assert cols[..n + 1][..n] == cols[..n];
    if n + 1 == |cols| {
      assert cols[..n + 1] == cols;
    } else {
      TotalPrefix(cols, n + 1);
    }
  }

  /** Where the column rule puts a token whose template column is `col`
      when the line is `i` wide so far: at its column, but at least one
      space after the previous token, and never before the line start. */
  function Place(col: int, i: nat): (q: nat)
    ensures q >= col && q >= i
    ensures i > 0 ==> q > i
    ensures q == col || (i == 0 && q == 0) || (i > 0 && q == i + 1)
  {
    if i == 0 then (if col > 0 then col else 0)
    else if col > i + 1 then col else i + 1
  }

  /** `padding` in `format`: `max(0, col - i)`, raised to one space when
      the line already holds something. */
  function Padding(col: int, i: nat): (p: nat)
    ensures i + p == Place(col, i)
  {
    var p := if col - i > 0 then col - i else 0;
    if p == 0 && i > 0 then p + 1 else p
  }

  /** A realigned token: the spaces in front of it and its text. */
  datatype Cell = Cell(padding: nat, contents: string)

  /** The text of a run of cells: padding and text, cell after cell. The
      padding adds no line break. */
  function CellsText(cells: seq<Cell>): (r: string)
    ensures (forall k :: 0 <= k < |cells| ==> '\n' !in cells[k].contents) ==> '\n' !in r
  {
    if |cells| == 0 then ""
    else
      var pad := Spaces(cells[0].padding);
      assert forall k :: 0 <= k < |pad| ==> pad[k] == ' ';
      pad + cells[0].contents + CellsText(cells[1..])
  }

  lemma {:induction false} CellsTextAppend(cells: seq<Cell>, c: Cell)
    ensures CellsText(cells + [c]) == CellsText(cells) + Spaces(c.padding) + c.contents
  {
    if |cells| == 0 {
      assert cells + [c] == [c];
    } else {
      assert (cells + [c])[1..] == cells[1..] + [c];
      CellsTextAppend(cells[1..], c);
    }
  }

  /** The texts of a run of cells. */
  function CellWords(cells: seq<Cell>): (r: seq<string>)
    ensures |r| == |cells|
    ensures forall k :: 0 <= k < |cells| ==> r[k] == cells[k].contents
  {
    seq(|cells|, k requires 0 <= k < |cells| => cells[k].contents)
  }

  /** One template line filled with `words`, the line being `i` wide so far. */
  function LineCells(cols: seq<int>, words: seq<string>, i: nat): (r: seq<Cell>)
    requires |cols| == |words|
    ensures |r| == |cols|
    decreases |cols|
  {
    if |cols| == 0 then []
    else
      var p := Padding(cols[0], i);
      [Cell(p, words[0])] + LineCells(cols[1..], words[1..], i + p + |words[0]|)
  }

  /** A line's cells hold the words given to it, in order. */
  lemma {:induction false} LineCellsWords(cols: seq<int>, words: seq<string>, i: nat)
    requires |cols| == |words|
    ensures CellWords(LineCells(cols, words, i)) == words
    decreases |cols|
  {
    if |cols| > 0 {
      var p := Padding(cols[0], i);
      var tail := LineCells(cols[1..], words[1..], i + p + |words[0]|);
      LineCellsWords(cols[1..], words[1..], i + p + |words[0]|);
      var r := LineCells(cols, words, i);
      assert r == [Cell(p, words[0])] + tail;
      forall k | 0 < k < |r|
        ensures r[k].contents == words[k]
      {
        assert r[k] == tail[k - 1];
        assert CellWords(tail)[k - 1] == words[1..][k - 1];
      }
    }
  }

  lemma {:induction false} CellsTextConcat(a: seq<Cell>, b: seq<Cell>)
    ensures CellsText(a + b) == CellsText(a) + CellsText(b)
  {
    if |a| > 0 {
      assert (a + b)[1..] == a[1..] + b;
      CellsTextConcat(a[1..], b);
    } else {
      assert a + b == b;
    }
  }

  /** The cells from `j` on are the rest of the line written from the width
      the first `j` cells take. */
  lemma {:induction false} LineCellsSuffix(cols: seq<int>, words: seq<string>, i: nat, j: nat)
    requires |cols| == |words| && j <= |cols|
    ensures var r := LineCells(cols, words, i);
      r[j..] == LineCells(cols[j..], words[j..], i + |CellsText(r[..j])|)
    decreases j
  {
    if j > 0 {
      var r := LineCells(cols, words, i);
      var p := Padding(cols[0], i);
      var i1 := i + p + |words[0]|;
      LineCellsSuffix(cols[1..], words[1..], i1, j - 1);
      var r1 := LineCells(cols[1..], words[1..], i1);
      assert r == [Cell(p, words[0])] + r1;
      assert r[..j][1..] == r1[..j - 1];
      assert |CellsText(r[..j])| == p + |words[0]| + |CellsText(r1[..j - 1])|;
      assert cols[1..][j - 1..] == cols[j..] && words[1..][j - 1..] == words[j..];
      assert r[j..] == r1[j - 1..];
    }
  }

  /** Column rule: on a line, token `j` starts where `Place` puts it given
      the width written before it, preceded by spaces only, and the width
      written after it ends with it. */
  lemma ColumnRule(cols: seq<int>, words: seq<string>, j: nat)
    requires |cols| == |words| && j < |cols|
    ensures var r := LineCells(cols, words, 0);
      var line := CellsText(r);
      var before := |CellsText(r[..j])|;
      var start := before + r[j].padding;
      && start == Place(cols[j], before)
      && start + |words[j]| == |CellsText(r[..j + 1])| <= |line|
      && line[start..start + |words[j]|] == words[j]
      && (forall k :: before <= k < start ==> line[k] == ' ')
  {
    var r := LineCells(cols, words, 0);
    LineCellsSuffix(cols, words, 0, j);
    var before := |CellsText(r[..j])|;
    assert r[j..][0] == r[j];
    assert r[j] == Cell(Padding(cols[j], before), words[j]);
    assert r[..j + 1] == r[..j] + [r[j]];
    CellsTextAppend(r[..j], r[j]);
    assert r == r[..j + 1] + r[j + 1..];
    CellsTextConcat(r[..j + 1], r[j + 1..]);
  }

  /** Two tokens on one line are at least one space apart. */
  lemma Separated(cols: seq<int>, words: seq<string>, j: nat)
    requires |cols| == |words| && 0 < j < |cols|
    requires forall k :: 0 <= k < |words| ==> |words[k]| > 0
    ensures LineCells(cols, words, 0)[j].padding >= 1
  {
    var r := LineCells(cols, words, 0);
    LineCellsSuffix(cols, words, 0, j);
    assert r[j..][0] == r[j];
    assert r[..j] == r[..j - 1] + [r[j - 1]];
    CellsTextAppend(r[..j - 1], r[j - 1]);
    LineCellsWords(cols, words, 0);
    assert CellWords(r)[j - 1] == words[j - 1];
  }

  /** The words of template line `n`: those after the earlier lines' words. */
  function LineWords(cols: seq<seq<int>>, words: seq<string>, n: nat): (r: seq<string>)
    requires |words| == Total(cols) && n < |cols|
    ensures |r| == |cols[n]|
  {
    TotalPrefix(cols, n);
    words[Total(cols[..n])..Total(cols[..n]) + |cols[n]|]
  }

  /** The layer's words laid out on the template, line by line. */
  function Layout(cols: seq<seq<int>>, words: seq<string>): (r: seq<seq<Cell>>)
    requires |words| == Total(cols)
    ensures |r| == |cols|
    ensures forall n :: 0 <= n < |cols| ==> |r[n]| == |cols[n]|
  {
    seq(|cols|, n requires 0 <= n < |cols| => LineCells(cols[n], LineWords(cols, words, n), 0))
  }

  /** The texts of the laid-out lines. */
  function LayoutLines(layout: seq<seq<Cell>>): (r: seq<string>)
    ensures |r| == |layout|
    ensures forall n :: 0 <= n < |layout| ==> r[n] == CellsText(layout[n])
  {
    seq(|layout|, n requires 0 <= n < |layout| => CellsText(layout[n]))
  }

  /** No laid-out line holds a line break. */
  predicate NoBreakLines(layout: seq<seq<Cell>>)
  {
    forall n :: 0 <= n < |layout| ==> '\n' !in CellsText(layout[n])
  }

  /** `text` split at line breaks is the laid-out lines, every line after
      the first behind `indent` spaces. */
  predicate SplitsIntoLines(text: string, layout: seq<seq<Cell>>, indent: nat)
    requires |layout| > 0
  {
    var lines := Split(text, '\n');
    && |lines| == |layout|
    && lines[0] == CellsText(layout[0])
    && (forall n :: 0 < n < |layout| ==> lines[n] == Spaces(indent) + CellsText(layout[n]))
  }

  /** The replacement text: lines joined by a line break and the layer's
      indentation. */
  function Render(layout: seq<seq<Cell>>, indent: nat): string
  {
    Join(LayoutLines(layout), "\n" + Spaces(indent))
  }

  /** When no laid-out line holds a line break, splitting the replacement
      at line breaks gives one line per laid-out line: the first line's
      text, then each later line's text after the indentation. */
  lemma RenderSplit(layout: seq<seq<Cell>>, indent: nat)
    requires |layout| > 0 && NoBreakLines(layout)
    ensures SplitsIntoLines(Render(layout, indent), layout, indent)
  {
    var pad := Spaces(indent);
    assert forall k :: 0 <= k < |pad| ==> pad[k] == ' ';
    SplitPrefixedLines(LayoutLines(layout), '\n', pad);
  }

  /** The words of the first `n` laid-out lines, in order. */
  function WordsUpTo(layout: seq<seq<Cell>>, n: nat): seq<string>
    requires n <= |layout|
  {
    if n == 0 then [] else WordsUpTo(layout, n - 1) + CellWords(layout[n - 1])
  }

  /** Laid-out line `n` holds the words of template line `n`. */
  lemma LayoutLineWords(cols: seq<seq<int>>, words: seq<string>, n: nat)
    requires |words| == Total(cols) && n < |cols|
    ensures CellWords(Layout(cols, words)[n]) == LineWords(cols, words, n)
  {
    LineCellsWords(cols[n], LineWords(cols, words, n), 0);
  }

  /** Token preservation: reading the laid-out lines in order gives the
      layer's words back, none lost, none added, none reordered. */
  lemma LayoutKeepsWords(cols: seq<seq<int>>, words: seq<string>)
    requires |words| == Total(cols)
    ensures WordsUpTo(Layout(cols, words), |cols|) == words
  {
    WordsPrefix(cols, words, |cols|);
    assert cols[..|cols|] == cols;
  }

  lemma {:induction false} WordsPrefix(cols: seq<seq<int>>, words: seq<string>, n: nat)
    requires |words| == Total(cols) && n <= |cols|
    ensures Total(cols[..n]) <= |words|
    ensures WordsUpTo(Layout(cols, words), n) == words[..Total(cols[..n])]
  {
    if n > 0 {
      WordsPrefix(cols, words, n - 1);
      TotalPrefix(cols, n - 1);
      WordsPrefixStep(cols, words, n - 1, Total(cols[..n - 1]), Total(cols[..n]));
    }
  }

  lemma WordsPrefixStep(cols: seq<seq<int>>, words: seq<string>, m: nat, a: nat, b: nat)
    requires |words| == Total(cols) && m < |cols|
    requires a == Total(cols[..m]) && b == a + |cols[m]| <= |words|
    requires WordsUpTo(Layout(cols, words), m) == words[..a]
    ensures WordsUpTo(Layout(cols, words), m + 1) == words[..b]
  {
    var layout := Layout(cols, words);
    var line := CellWords(layout[m]);
    assert WordsUpTo(layout, m + 1) == words[..a] + line;
    LayoutLineWords(cols, words, m);
    assert line == words[a..b];
    PrefixSlices(words, a, b);
  }

  /** A laid-out line holds no line break when no word does. */
  lemma LayoutLineNoBreak(cols: seq<seq<int>>, words: seq<string>, n: nat)
    requires |words| == Total(cols) && n < |cols|
    requires forall k :: 0 <= k < |words| ==> '\n' !in words[k]
    ensures '\n' !in CellsText(Layout(cols, words)[n])
  {
    LayoutLineWords(cols, words, n);
    TotalPrefix(cols, n);
    var layout: seq<seq<Cell>> := Layout(cols, words);
    forall k | 0 <= k < |layout[n]|
      ensures '\n' !in layout[n][k].contents
    {
      assert layout[n][k].contents == CellWords(layout[n])[k];
    }
  }

  /** Line structure: the replacement has one line per template line, line
      `n` being the text of laid-out line `n`, and every line after the
      first starts with the layer's indentation. */
  lemma RenderLines(cols: seq<seq<int>>, words: seq<string>, indent: nat)
    requires |words| == Total(cols) && |cols| > 0
    requires forall k :: 0 <= k < |words| ==> '\n' !in words[k]
    ensures var layout := Layout(cols, words);
      var lines := Split(Render(layout, indent), '\n');
      && |lines| == |cols|
      && lines[0] == CellsText(layout[0])
      && (forall n :: 0 < n < |cols| ==> lines[n] == Spaces(indent) + CellsText(layout[n]))
  {
    var layout := Layout(cols, words);
    forall n | 0 <= n < |layout|
      ensures '\n' !in CellsText(layout[n])
    {
      LayoutLineNoBreak(cols, words, n);
    }
    RenderSplit(layout, indent);
  }

  lemma LayoutStarts(cols: seq<seq<int>>, words: seq<string>)
    requires |words| == Total(cols) && |words| > 0 && |cols| > 0 && |cols[0]| > 0 && cols[0][0] == 0
    ensures var text := CellsText(Layout(cols, words)[0]);
      |words[0]| <= |text| && text[..|words[0]|] == words[0]
  {
    var ws := LineWords(cols, words, 0);
    var line := LineCells(cols[0], ws, 0);
    assert Layout(cols, words)[0] == line;
    TotalPrefix(cols, 0);
    assert cols[..0] == [];
    assert ws[0] == words[0];
    assert line[0] == Cell(0, words[0]);
    assert Spaces(0) == "";
    assert CellsText(line) == Spaces(0) + words[0] + CellsText(line[1..]);
  }

  lemma LayoutEnds(cols: seq<seq<int>>, words: seq<string>)
    requires |words| == Total(cols) && |words| > 0 && |cols| > 0 && |cols[|cols| - 1]| > 0
    ensures var text := CellsText(Layout(cols, words)[|cols| - 1]);
      var last := words[|words| - 1];
      |last| <= |text| && text[|text| - |last|..] == last
  {
    var n := |cols| - 1;
    var cells := Layout(cols, words)[n];
    TotalPrefix(cols, n);
    assert cols[..n + 1] == cols;
    LayoutLineWords(cols, words, n);
    assert cells[|cells| - 1].contents == CellWords(cells)[|cells| - 1];
    assert cells == cells[..|cells| - 1] + [cells[|cells| - 1]];
    CellsTextAppend(cells[..|cells| - 1], cells[|cells| - 1]);
  }

  /** When the template puts the first key at column 0, the replacement
      starts with the layer's first token and ends with its last, so the
      replaced range begins and ends on a token again. */
  lemma RenderEnds(cols: seq<seq<int>>, words: seq<string>, indent: nat)
    requires |words| == Total(cols) && |words| > 0 && |cols| > 0
    requires forall n :: 0 <= n < |cols| ==> |cols[n]| > 0
    requires cols[0][0] == 0
    ensures var out := Render(Layout(cols, words), indent);
      var first, last := words[0], words[|words| - 1];
      && |first| <= |out| && out[..|first|] == first
      && |last| <= |out| && out[|out| - |last|..] == last
  {
    var texts := LayoutLines(Layout(cols, words));
    JoinEnds(texts, "\n" + Spaces(indent));
    LayoutStarts(cols, words);
    LayoutEnds(cols, words);
  }

  /** The position just after `text` once an editor has written it at
      `start`. */
  function EndOf(start: Position, text: string): Position
  {
    var lines := Split(text, '\n');
    if |lines| == 1 then Position(start.line, start.character + |text|)
    else Position(start.line + |lines| - 1, |lines[|lines| - 1]|)
  }

  /** Where a laid-out line's tokens are once written from `origin`: each
      after the cells before it and its own padding. */
  function RowTokens(cells: seq<Cell>, origin: Position): (r: seq<Located>)
    ensures |r| == |cells|
    ensures Contents(r) == CellWords(cells)
  {
    seq(|cells|, j requires 0 <= j < |cells| =>
      Located(Position(origin.line, origin.character + |CellsText(cells[..j])| + cells[j].padding), cells[j].contents))
  }

  /** The layer's tokens after its edit is applied at `start`: laid-out line
      `n` on line `start.line + n`, each line (the first by the range's
      start, the others by the indentation the replacement writes) from
      column `start.character`. */
  function Relocated(layout: seq<seq<Cell>>, start: Position, n: nat): seq<Located>
    requires n <= |layout|
  {
    if n == 0 then []
    else Relocated(layout, start, n - 1) + RowTokens(layout[n - 1], Position(start.line + n - 1, start.character))
  }

  lemma {:induction false} RelocatedContents(layout: seq<seq<Cell>>, start: Position, n: nat)
    requires n <= |layout|
    ensures Contents(Relocated(layout, start, n)) == WordsUpTo(layout, n)
  {
    if n > 0 {
      RelocatedContents(layout, start, n - 1);
      var a, b := Relocated(layout, start, n - 1), RowTokens(layout[n - 1], Position(start.line + n - 1, start.character));
      assert Contents(a + b) == Contents(a) + Contents(b);
    }
  }

  lemma {:induction false} RelocatedFirst(layout: seq<seq<Cell>>, start: Position, n: nat)
    requires 0 < n <= |layout| && |layout[0]| > 0
    ensures |Relocated(layout, start, n)| > 0
    ensures Relocated(layout, start, n)[0] == RowTokens(layout[0], start)[0]
  {
    if n > 1 {
      RelocatedFirst(layout, start, n - 1);
    }
  }

  /** The first laid-out cell has no padding when its column is 0. */
  lemma LayoutFirstPadding(cols: seq<seq<int>>, words: seq<string>)
    requires |words| == Total(cols) && |cols| > 0 && |cols[0]| > 0 && cols[0][0] == 0
    ensures Layout(cols, words)[0][0].padding == 0
  {
    assert Layout(cols, words)[0] == LineCells(cols[0], LineWords(cols, words, 0), 0);
  }

  /** The relocated layer ends where the last laid-out line's text ends. */
  lemma RelocatedLast(layout: seq<seq<Cell>>, start: Position)
    requires |layout| > 0 && |layout[|layout| - 1]| > 0
    ensures var again := Relocated(layout, start, |layout|);
      && |again| > 0
      && again[|again| - 1].position.line == start.line + |layout| - 1
      && again[|again| - 1].position.character + |again[|again| - 1].contents|
         == start.character + |CellsText(layout[|layout| - 1])|
  {
    var n := |layout|;
    var cells := layout[n - 1];
    var m := |cells|;
    var row := RowTokens(cells, Position(start.line + n - 1, start.character));
    var again := Relocated(layout, start, n);
    assert again == Relocated(layout, start, n - 1) + row;
    assert again[|again| - 1] == row[m - 1];
    assert cells == cells[..m - 1] + [cells[m - 1]];
    CellsTextAppend(cells[..m - 1], cells[m - 1]);
  }

  /** The replacement ends on the last template line, after that line's
      text. */
  lemma RenderEnd(cols: seq<seq<int>>, words: seq<string>, start: Position)
    requires |words| == Total(cols) && |cols| > 0
    requires forall k :: 0 <= k < |words| ==> '\n' !in words[k]
    ensures var layout := Layout(cols, words);
      EndOf(start, Render(layout, start.character))
      == Position(start.line + |cols| - 1, start.character + |CellsText(layout[|cols| - 1])|)
  {
    var layout := Layout(cols, words);
    RenderLines(cols, words, start.character);
    if |cols| == 1 {
      assert Render(layout, start.character) == CellsText(layout[0]);
    }
  }

  /** The relocated layer ends where the replacement text ends. */
  lemma AgainEnd(cols: seq<seq<int>>, words: seq<string>, start: Position)
    requires |words| == Total(cols) > 0
    requires forall n :: 0 <= n < |cols| ==> |cols[n]| > 0
    requires forall k :: 0 <= k < |words| ==> '\n' !in words[k]
    ensures var layout := Layout(cols, words);
      var again := Relocated(layout, start, |cols|);
      |again| > 0 && GetContentPositionsRange(again).end == EndOf(start, Render(layout, start.character))
  {
    var layout := Layout(cols, words);
    RelocatedLast(layout, start);
    RenderEnd(cols, words, start);
  }

  /** Formatting is idempotent: once a layer's edit is applied, its tokens
      are where `Relocated` puts them, and formatting that layer again with
      the same template writes the same text over exactly the span the
      first edit wrote, so the document does not change. */
  lemma FormatAgainSame(cols: seq<seq<int>>, layer: seq<Located>)
    requires |layer| == Total(cols) > 0
    requires forall n :: 0 <= n < |cols| ==> |cols[n]| > 0
    requires cols[0][0] == 0
    requires forall k :: 0 <= k < |layer| ==> '\n' !in layer[k].contents
    ensures var e := LayerEdit(cols, layer);
      var again := Relocated(Layout(cols, Contents(layer)), layer[0].position, |cols|);
      && Contents(again) == Contents(layer)
      && LayerEdit(cols, again) == TextEdit(Range(e.range.start, EndOf(e.range.start, e.newText)), e.newText)
  {
    var words := Contents(layer);
    var layout := Layout(cols, words);
    var start := layer[0].position;
    var again := Relocated(layout, start, |cols|);
    RelocatedContents(layout, start, |cols|);
    LayoutKeepsWords(cols, words);
    assert Contents(again) == words;
    RelocatedFirst(layout, start, |cols|);
    LayoutFirstPadding(cols, words);
    assert layout[0][..0] == [];
    assert again[0].position == start;
    var text := Render(layout, start.character);
    AgainEnd(cols, words, start);
    var r := GetContentPositionsRange(again);
    assert r.start == start && r.end == EndOf(start, text);
    var e := LayerEdit(cols, layer);
    assert e.range.start == start && e.newText == text;
    assert LayerEdit(cols, again) == TextEdit(r, text);
  }

  /** One more token written on a template line. */
  lemma LineCellsStep(lineCols: seq<int>, words: seq<string>, c: nat, done: seq<Cell>, i: nat,
                      done': seq<Cell>, i': nat)
    requires c < |lineCols| == |words|
    requires LineCells(lineCols, words, 0) == done + LineCells(lineCols[c..], words[c..], i)
    requires var p := Padding(lineCols[c], i);
      done' == done + [Cell(p, words[c])] && i' == i + p + |words[c]|
    ensures LineCells(lineCols, words, 0) == done' + LineCells(lineCols[c + 1..], words[c + 1..], i')
  {
    var p := Padding(lineCols[c], i);
    var next := LineCells(lineCols[c + 1..], words[c + 1..], i');
    assert LineCells(lineCols[c..], words[c..], i) == [Cell(p, words[c])] + next by {
      assert lineCols[c..][1..] == lineCols[c + 1..] && words[c..][1..] == words[c + 1..];
    }
    calc {
      LineCells(lineCols, words, 0);
      done + LineCells(lineCols[c..], words[c..], i);
      done + ([Cell(p, words[c])] + next);
      done' + next;
    }
  }

  /** One template line in `format`: each column takes the token at the
      front of `layerPositions` (`shift()`), and the cursor `i` is the width
      written on the line so far. Returns the line and what is left of the
      queue. */
  method RealignLine(lineCols: seq<int>, queue: seq<Located>) returns (line: string, rest: seq<Located>)
    requires |lineCols| <= |queue|
    ensures rest == queue[|lineCols|..]
    ensures line == CellsText(LineCells(lineCols, Contents(queue[..|lineCols|]), 0))
  {
    ghost var words := Contents(queue[..|lineCols|]);
    rest := queue;
    var i := 0;
    line := "";
    ghost var done: seq<Cell> := [];
    for c := 0 to |lineCols|
      invariant rest == queue[c..]
      invariant i == |line| && line == CellsText(done)
      invariant LineCells(lineCols, words, 0) == done + LineCells(lineCols[c..], words[c..], i)
    {
      var contents := rest[0].contents;
      rest := rest[1..];
      var padding := if lineCols[c] - i > 0 then lineCols[c] - i else 0;
      if padding == 0 && i > 0 {
        padding := padding + 1;
      }
      ghost var done0, i0 := done, i;
      CellsTextAppend(done, Cell(padding, contents));
      done := done + [Cell(padding, contents)];
      i := i + padding + |contents|;
      line := line + Spaces(padding) + contents;
      LineCellsStep(lineCols, words, c, done0, i0, done, i);
    }
    assert LineCells(lineCols[|lineCols|..], words[|lineCols|..], i) == [];
    assert LineCells(lineCols, words, 0) == done;
  }

  /** One more template line written. */
  lemma RealignStep(cols: seq<seq<int>>, layer: seq<Located>, n: nat, queue: seq<Located>, lines: seq<string>, line: string)
    requires |layer| == Total(cols) && n < |cols|
    requires |layer| - |queue| == Total(cols[..n]) && queue == layer[|layer| - |queue|..]
    requires |lines| == n && forall j :: 0 <= j < n ==> lines[j] == CellsText(Layout(cols, Contents(layer))[j])
    requires |cols[n]| <= |queue|
    requires line == CellsText(LineCells(cols[n], Contents(queue[..|cols[n]|]), 0))
    ensures var lines' := lines + [line];
      |lines'| == n + 1 && forall j :: 0 <= j < n + 1 ==> lines'[j] == CellsText(Layout(cols, Contents(layer))[j])
    ensures |layer| - |queue[|cols[n]|..]| == Total(cols[..n + 1])
    ensures queue[|cols[n]|..] == layer[|layer| - |queue[|cols[n]|..]|..]
  {
    TotalPrefix(cols, n);
    var words := Contents(layer);
    assert Contents(queue[..|cols[n]|]) == LineWords(cols, words, n);
  }

  /** The realignment of one layer in `format`: the template's lines, each
      filled by `RealignLine`, joined by a line break and the indentation of
      the layer's first token. */
  method Realign(cols: seq<seq<int>>, layer: seq<Located>) returns (formatted: string)
    requires |layer| == Total(cols) && |layer| > 0
    ensures formatted == Render(Layout(cols, Contents(layer)), layer[0].position.character)
  {
    var layerIndent := layer[0].position.character;
    var queue := layer;
    var lines: seq<string> := [];
    for n := 0 to |cols|
      invariant |layer| - |queue| == Total(cols[..n])
      invariant queue == layer[|layer| - |queue|..]
      invariant |lines| == n && forall j :: 0 <= j < n ==> lines[j] == CellsText(Layout(cols, Contents(layer))[j])
    {
      TotalPrefix(cols, n);
      ghost var queue0, lines0 := queue, lines;
      var line;
      line, queue := RealignLine(cols[n], queue);
      lines := lines + [line];
      RealignStep(cols, layer, n, queue0, lines0, line);
    }
    assert lines == LayoutLines(Layout(cols, Contents(layer)));
    formatted := Join(lines, "\n" + Spaces(layerIndent));
  }

  // ---------------------------------------------------------------------------
  // The commands
  // ---------------------------------------------------------------------------

  /** Why a command returns `{ error }`. */
  datatype Problem =
    | ParseFailed(failure: Failure)
    | KeysTooWide(width: int, keys: seq<string>)

  /** `CommandResults<T>`: `{ error }` or `{ info?, value }`. */
  datatype CommandResult<T> = Error(problem: Problem) | Success(info: Option<string>, value: T)

  /** The error text of `setSrcColumnWidth` up to the keys: the width,
      then a line break and two spaces of indentation. */
  function TooWideHead(width: int): string
  {
    "Failed: these keys don't fit in a column of size " + IntToString(width) + ":\n  "
  }

  /** The error text of `setSrcColumnWidth`: after the head, the keys
      joined by single spaces, so that keys without a space split back out
      of it in order. */
  function TooWideMessage(width: int, keys: seq<string>): (m: string)
    ensures |TooWideHead(width)| <= |m| && m[..|TooWideHead(width)|] == TooWideHead(width)
    ensures |keys| > 0 && (forall k :: 0 <= k < |keys| ==> ' ' !in keys[k]) ==>
      Split(m[|TooWideHead(width)|..], ' ') == keys
  {
    var head := TooWideHead(width);
    if |keys| > 0 && (forall k :: 0 <= k < |keys| ==> ' ' !in keys[k]) then
      SplitJoin(keys, ' ');
      assert (head + Join(keys, " "))[|head|..] == Join(keys, " ");
      head + Join(keys, " ")
    else
      head + Join(keys, " ")
  }

  /** `deflayer.slice(2)`: the keys after `deflayer` and the layer's name. */
  function LayerKeys(layer: seq<Node>): (r: seq<Node>)
    ensures |layer| >= 2 ==> r == layer[2..]
    ensures |layer| < 2 ==> r == []
  {
    if |layer| >= 2 then layer[2..] else []
  }

  /** `defsrc.slice(1)`: the keys after `defsrc`. */
  function SrcKeys(defsrc: seq<Node>): (r: seq<Node>)
    ensures |defsrc| >= 1 ==> r == defsrc[1..]
    ensures |defsrc| == 0 ==> r == []
  {
    if |defsrc| >= 1 then defsrc[1..] else []
  }

  /** The `(defsrc)` keys, located by a monotone service, are on ascending lines. */
  lemma SrcKeysInOrder(text: string, positionAt: nat -> Position, asWritten: bool)
    requires LinesMonotone(positionAt) && ParseWith(text, asWritten).Parsed?
    ensures LinesAscending(Locate(positionAt, SrcKeys(ParseWith(text, asWritten).defsrc)))
  {
    var defsrc := ParseWith(text, asWritten).defsrc;
    SrcKeysIncrease(defsrc);
    LocatedInOrder(positionAt, SrcKeys(defsrc));
  }

  /** Dropping the head keeps the starts increasing. */
  lemma SrcKeysIncrease(defsrc: seq<Node>)
    requires StartsIncrease(defsrc)
    ensures StartsIncrease(SrcKeys(defsrc))
  {
    var keys := SrcKeys(defsrc);
    assert forall k :: 0 <= k < |keys| ==> keys[k] == defsrc[k + 1];
  }

  /** Dropping the head keeps the nodes taken from the text. */
  lemma SrcKeysFromText(text: string, defsrc: seq<Node>)
    requires NodesFromText(text, defsrc)
    ensures NodesFromText(text, SrcKeys(defsrc))
  {
    var keys := SrcKeys(defsrc);
    assert forall k :: 0 <= k < |keys| ==> keys[k] == defsrc[k + 1];
  }

  /** The located keys of every layer. */
  function LayersPositions(positionAt: nat -> Position, deflayers: seq<seq<Node>>): (r: seq<seq<Located>>)
    ensures |r| == |deflayers|
    ensures forall k :: 0 <= k < |r| ==> r[k] == Locate(positionAt, LayerKeys(deflayers[k]))
  {
    seq(|deflayers|, k requires 0 <= k < |deflayers| => Locate(positionAt, LayerKeys(deflayers[k])))
  }

  /** `layersPositions.filter((l) => l.length === count)` */
  function KeepValid(layers: seq<seq<Located>>, count: nat): (r: seq<seq<Located>>)
    ensures |r| <= |layers|
    ensures forall k :: 0 <= k < |r| ==> |r[k]| == count
    ensures forall x :: x in r ==> x in layers
    ensures forall k :: 0 <= k < |layers| && |layers[k]| == count ==> layers[k] in r
  {
    if |layers| == 0 then []
    else
      var rest := KeepValid(layers[1..], count);
      assert forall k :: 1 <= k < |layers| ==> layers[k] == layers[1..][k - 1];
      if |layers[0]| == count then [layers[0]] + rest else rest
  }

  /** The filter keeps document order: it distributes over concatenation. */
  lemma {:induction false} KeepValidAppend(a: seq<seq<Located>>, b: seq<seq<Located>>, count: nat)
    ensures KeepValid(a + b, count) == KeepValid(a, count) + KeepValid(b, count)
  {
    if |a| == 0 {
      assert a + b == b;
    } else {
      var ab := a + b;
      assert ab[0] == a[0] && ab[1..] == a[1..] + b;
      KeepValidAppend(a[1..], b, count);
      var head := if |a[0]| == count then [a[0]] else [];
      assert KeepValid(ab, count) == head + KeepValid(a[1..] + b, count);
      assert KeepValid(a, count) == head + KeepValid(a[1..], count);
    }
  }

  /** `format` cannot complete when `(defsrc)` has no keys and some layer
      has none either: the layer is kept, and reading the end of its empty
      key list throws. */
  predicate FormatThrows(text: string, asWritten: bool)
    ensures FormatThrows(text, asWritten) ==>
      ParseWith(text, asWritten).Parsed? && |ParseWith(text, asWritten).defsrc| == 1 && |ParseWith(text, asWritten).deflayers| > 0
  {
    && ParseWith(text, asWritten).Parsed?
    && |SrcKeys(ParseWith(text, asWritten).defsrc)| == 0
    && exists k :: 0 <= k < |ParseWith(text, asWritten).deflayers| && |LayerKeys(ParseWith(text, asWritten).deflayers[k])| == 0
  }

  /** A template with no empty line and the first key at column 0, as
      `TemplateShape` shows the `(defsrc)` template to be. */
  predicate WellShaped(cols: seq<seq<int>>)
  {
    && |cols| > 0
    && (forall n :: 0 <= n < |cols| ==> |cols[n]| > 0)
    && cols[0][0] == 0
  }

  /** The edit for one kept layer: its keys' range, replaced by the keys
      laid out on the template. The range starts at the first key, and on
      a well-shaped template the new text starts with the first key's text
      and ends with the last key's. */
  function LayerEdit(cols: seq<seq<int>>, layer: seq<Located>): (e: TextEdit)
    requires |layer| == Total(cols) && |layer| > 0
    ensures e.range.start == layer[0].position
    ensures WellShaped(cols) ==>
      var first, last := layer[0].contents, layer[|layer| - 1].contents;
      && |first| <= |e.newText| && e.newText[..|first|] == first
      && |last| <= |e.newText| && e.newText[|e.newText| - |last|..] == last
  {
    var words := Contents(layer);
    if WellShaped(cols) then
      RenderEnds(cols, words, layer[0].position.character);
      TextEdit(GetContentPositionsRange(layer), Render(Layout(cols, words), layer[0].position.character))
    else
      TextEdit(GetContentPositionsRange(layer), Render(Layout(cols, words), layer[0].position.character))
  }

  /** The `info` line of `format`. Between `Formatted ` and ` layers` it
      holds two decimal numbers around a `/`, and they read back as the
      kept count and the total. */
  function FormatInfo(valid: nat, total: nat): (r: string)
    ensures |r| > 17 && r[..10] == "Formatted " && r[|r| - 7..] == " layers"
    ensures var counts := Split(r[10..|r| - 7], '/');
      && |counts| == 2
      && DecimalValue(counts[0]) == valid
      && DecimalValue(counts[1]) == total
  {
    var a, b := NatToString(valid), NatToString(total);
    assert '/' !in a && '/' !in b by {
      assert forall k :: 0 <= k < |a| ==> a[k] != '/';
      assert forall k :: 0 <= k < |b| ==> b[k] != '/';
    }
    InfoSplit(a, b);
    NatToStringRoundTrip(valid);
    NatToStringRoundTrip(total);
    "Formatted " + a + "/" + b + " layers"
  }

  /** The counts of the `info` line split back at the `/`. */
  lemma InfoSplit(a: string, b: string)
    requires '/' !in a && '/' !in b
    ensures var r := "Formatted " + a + "/" + b + " layers";
      && |r| > 17 && r[..10] == "Formatted " && r[|r| - 7..] == " layers"
      && Split(r[10..|r| - 7], '/') == [a, b]
  {
    var r := "Formatted " + a + "/" + b + " layers";
    assert r[10..|r| - 7] == a + ['/'] + b;
    SplitFirst(a, '/', b);
    SplitNoSeparator(b, '/');
  }

  /** The kept layers are never empty unless `format` would throw. */
  lemma KeptNotEmpty(layers: seq<seq<Located>>, count: nat)
    requires count > 0 || forall k :: 0 <= k < |layers| ==> |layers[k]| > 0
    ensures forall k :: 0 <= k < |KeepValid(layers, count)| ==> |KeepValid(layers, count)[k]| > 0
  {
    var valid := KeepValid(layers, count);
    forall k | 0 <= k < |valid|
      ensures |valid[k]| > 0
    {
      assert valid[k] in layers;
    }
  }

  /** The edits for the kept layers, in order. */
  function LayerEdits(cols: seq<seq<int>>, valid: seq<seq<Located>>): (r: seq<TextEdit>)
    requires forall k :: 0 <= k < |valid| ==> |valid[k]| > 0 && |valid[k]| == Total(cols)
    ensures |r| == |valid|
    ensures forall k :: 0 <= k < |valid| ==> r[k] == LayerEdit(cols, valid[k])
  {
    seq(|valid|, k requires 0 <= k < |valid| => LayerEdit(cols, valid[k]))
  }

  /** What `format` returns for a parsed config: one edit per kept layer, in
      document order, and the count of kept layers against all layers. */
  function FormatParsed(defsrc: seq<Node>, deflayers: seq<seq<Node>>, positionAt: nat -> Position): (r: CommandResult<seq<TextEdit>>)
    requires |SrcKeys(defsrc)| > 0 || forall k :: 0 <= k < |deflayers| ==> |LayerKeys(deflayers[k])| > 0
    ensures var valid := KeepValid(LayersPositions(positionAt, deflayers), |SrcKeys(defsrc)|);
      && r.Success? && |valid| <= |deflayers|
      && r.info == Some(FormatInfo(|valid|, |deflayers|))
      && |r.value| == |valid|
      && forall k :: 0 <= k < |valid| ==> |valid[k]| > 0 && r.value[k].range.start == valid[k][0].position
  {
    var src := Locate(positionAt, SrcKeys(defsrc));
    var valid := KeepValid(LayersPositions(positionAt, deflayers), |src|);
    KeptNotEmpty(LayersPositions(positionAt, deflayers), |src|);
    TemplateTotal(src);
    Success(Some(FormatInfo(|valid|, |deflayers|)), LayerEdits(Template(src), valid))
  }

  /** `validLayerPositions.map(...)`: realign each kept layer in turn. */
  method RealignLayers(cols: seq<seq<int>>, valid: seq<seq<Located>>) returns (edits: seq<TextEdit>)
    requires forall k :: 0 <= k < |valid| ==> |valid[k]| > 0 && |valid[k]| == Total(cols)
    ensures edits == LayerEdits(cols, valid)
  {
    edits := [];
    for k := 0 to |valid|
      invariant |edits| == k
      invariant forall j :: 0 <= j < k ==> edits[j] == LayerEdit(cols, valid[j])
    {
      var range := GetContentPositionsRange(valid[k]);
      var formatted := Realign(cols, valid[k]);
      edits := edits + [TextEdit(range, formatted)];
    }
  }

  /** `format(text, doc)` */
  method Format(text: string, positionAt: nat -> Position, asWritten: bool) returns (r: CommandResult<seq<TextEdit>>)
    requires LinesMonotone(positionAt)
    requires !FormatThrows(text, asWritten)
    ensures ParseWith(text, asWritten).Failed? ==> r == Error(ParseFailed(ParseWith(text, asWritten).failure))
    ensures ParseWith(text, asWritten).Parsed? ==>
      r == FormatParsed(ParseWith(text, asWritten).defsrc, ParseWith(text, asWritten).deflayers, positionAt)
  {
    var parsed := ParseWith(text, asWritten);
    if parsed.Failed? {
      return Error(ParseFailed(parsed.failure));
    }
    var src := Locate(positionAt, SrcKeys(parsed.defsrc));
    SrcKeysInOrder(text, positionAt, asWritten);
    var template := SrcLineColumns(src);
    var valid := KeepValid(LayersPositions(positionAt, parsed.deflayers), |src|);
    KeptNotEmpty(LayersPositions(positionAt, parsed.deflayers), |src|);
    TemplateTotal(src);
    var edits := RealignLayers(template, valid);
    r := Success(Some(FormatInfo(|valid|, |parsed.deflayers|)), edits);
  }

  /** The `error` text a problem is reported with; a syntax error carries
      the grammar library's own message, which is not part of this model. */
  function ProblemMessage(p: Problem): (r: Option<string>)
    ensures p.ParseFailed? ==> (r.None? <==> p.failure == SyntaxError)
  {
    match p
    case ParseFailed(SyntaxError) => None
    case ParseFailed(MissingDefsrc) => Some(MissingDefsrcMessage)
    case KeysTooWide(width, keys) => Some(TooWideMessage(width, keys))
  }

  // ---------------------------------------------------------------------------
  // setSrcColumnWidth
  // ---------------------------------------------------------------------------

  /** `tooBig`: the keys at least `width` long, in order. */
  function TooWide(keys: seq<string>, width: int): (r: seq<string>)
    ensures |r| == 0 <==> forall k :: 0 <= k < |keys| ==> |keys[k]| < width
    ensures forall x :: x in r ==> x in keys && |x| >= width
    ensures forall k :: 0 <= k < |keys| && |keys[k]| >= width ==> keys[k] in r
  {
    if |keys| == 0 then []
    else
      var rest := TooWide(keys[1..], width);
      assert forall k :: 1 <= k < |keys| ==> keys[k] == keys[1..][k - 1];
      if |keys[0]| >= width then [keys[0]] + rest else rest
  }

  /** The keys of one source line, each padded to `width`. */
  function PaddedItems(items: seq<string>, width: int): (r: seq<string>)
    ensures |r| == |items|
    ensures forall j :: 0 <= j < |items| ==> r[j] == PadEnd(items[j], width)
  {
    seq(|items|, j requires 0 <= j < |items| => PadEnd(items[j], width))
  }

  /** One line of the fixed-width `(defsrc)`: every line but the first
      keeps its start column in spaces; the first begins at the replaced
      range. With every key shorter than `width`, the keys then take
      exactly `width` characters each. */
  function ColumnLine(line: LineItems, idx: nat, width: int): (r: string)
    ensures var indent := if idx == 0 then 0 else line.startPosition.character;
      && indent <= |r|
      && (forall k :: 0 <= k < indent ==> r[k] == ' ')
      && ((forall j :: 0 <= j < |line.items| ==> |line.items[j]| < width) ==> |r| == indent + |line.items| * width)
  {
    var prefix := if idx == 0 then "" else Spaces(line.startPosition.character);
    var padded := PaddedItems(line.items, width);
    if |line.items| > 0 && forall j :: 0 <= j < |line.items| ==> |line.items[j]| < width then
      assert |line.items[0]| < width;
      PaddedWidths(line.items, width);
      ConcatLength(padded, width);
      OffsetIsProduct(|line.items|, width);
      prefix + Concat(padded)
    else
      prefix + Concat(padded)
  }

  function ColumnLines(lines: seq<LineItems>, width: int): (r: seq<string>)
    ensures |r| == |lines|
    ensures forall n :: 0 <= n < |lines| ==> r[n] == ColumnLine(lines[n], n, width)
  {
    seq(|lines|, n requires 0 <= n < |lines| => ColumnLine(lines[n], n, width))
  }

  /** `setSrcColumnWidth(doc, width)` */
  method SetSrcColumnWidth(text: string, positionAt: nat -> Position, width: int, asWritten: bool)
    returns (r: CommandResult<TextEdit>)
    requires LinesMonotone(positionAt)
    requires ParseWith(text, asWritten).Parsed? ==> |SrcKeys(ParseWith(text, asWritten).defsrc)| > 0
    ensures ParseWith(text, asWritten).Failed? ==> r == Error(ParseFailed(ParseWith(text, asWritten).failure))
    ensures ParseWith(text, asWritten).Parsed? ==>
      var src := Locate(positionAt, SrcKeys(ParseWith(text, asWritten).defsrc));
      var tooBig := TooWide(Contents(src), width);
      && (|tooBig| > 0 ==> r == Error(KeysTooWide(width, tooBig)))
      && (|tooBig| == 0 ==>
            r == Success(Some("Ok"), TextEdit(GetContentPositionsRange(src), Join(ColumnLines(SrcLines(src), width), "\n"))))
  {
    var parsed := ParseWith(text, asWritten);
    if parsed.Failed? {
      return Error(ParseFailed(parsed.failure));
    }
    var src := Locate(positionAt, SrcKeys(parsed.defsrc));
    var tooBig := TooWide(Contents(src), width);
    if |tooBig| > 0 {
      return Error(KeysTooWide(width, tooBig));
    }
    SrcKeysInOrder(text, positionAt, asWritten);
    var srcLineColumns := SrcLineItems(src);
    r := Success(Some("Ok"), TextEdit(GetContentPositionsRange(src), Join(ColumnLines(srcLineColumns, width), "\n")));
  }

  /** The keys of each line, line by line. */
  function ItemRows(lines: seq<LineItems>): (r: seq<seq<string>>)
    ensures |r| == |lines|
    ensures forall n :: 0 <= n < |lines| ==> r[n] == lines[n].items
  {
    seq(|lines|, n requires 0 <= n < |lines| => lines[n].items)
  }

  lemma {:induction false} ContentsConcat(g: seq<seq<Located>>)
    ensures Contents(Concat(g)) == Concat(seq(|g|, n requires 0 <= n < |g| => Contents(g[n])))
  {
    var rows := seq(|g|, n requires 0 <= n < |g| => Contents(g[n]));
    if |g| > 0 {
      ContentsConcat(g[1..]);
      assert rows[1..] == seq(|g[1..]|, n requires 0 <= n < |g[1..]| => Contents(g[1..][n]));
      assert Contents(g[0] + Concat(g[1..])) == Contents(g[0]) + Contents(Concat(g[1..]));
    }
  }

  /** Grouping by line keeps every `(defsrc)` key, in order: reading the
      lines' keys one line after the other gives the keys back. */
  lemma SrcLinesKeepKeys(src: seq<Located>)
    ensures Concat(ItemRows(SrcLines(src))) == Contents(src)
  {
    var g := LineGroups(src);
    GroupsFlatten(src);
    ContentsConcat(g);
    assert ItemRows(SrcLines(src)) == seq(|g|, n requires 0 <= n < |g| => Contents(g[n]));
  }

  /** With every key shorter than `width`, a line's keys sit in columns
      exactly `width` wide: key `j` begins at `Offset(j, width)`, that is
      `j * width`, after the line's prefix, and the rest of its column is
      spaces. */
  lemma FixedColumns(items: seq<string>, width: nat, j: nat)
    requires j < |items|
    requires forall k :: 0 <= k < |items| ==> |items[k]| < width
    ensures var body := Concat(PaddedItems(items, width));
      var a := Offset(j, width);
      && |body| == Offset(|items|, width)
      && a + width <= |body|
      && body[a..a + |items[j]|] == items[j]
      && (forall k :: a + |items[j]| <= k < a + width ==> body[k] == ' ')
  {
    PaddedSlice(items, width, j);
    PaddedPiece(Concat(PaddedItems(items, width)), Offset(j, width), items[j], width);
  }

  /** Key `j`, padded, is the `j`-th slice of width `width`. */
  lemma PaddedSlice(items: seq<string>, width: nat, j: nat)
    requires j < |items|
    requires forall k :: 0 <= k < |items| ==> |items[k]| < width
    ensures var body := Concat(PaddedItems(items, width));
      && |body| == Offset(|items|, width)
      && Offset(j, width) + width <= |body|
      && body[Offset(j, width)..Offset(j, width) + width] == PadEnd(items[j], width)
  {
    PaddedWidths(items, width);
    ConcatSlice(PaddedItems(items, width), width, j);
  }

  /** Keys shorter than `width` are all padded to exactly `width`. */
  lemma PaddedWidths(items: seq<string>, width: nat)
    requires forall k :: 0 <= k < |items| ==> |items[k]| < width
    ensures forall k :: 0 <= k < |items| ==> |PaddedItems(items, width)[k]| == width
  {
  }

  /** A key padded to `width` inside a longer text: the key, then spaces. */
  lemma PaddedPiece(body: string, a: nat, item: string, width: nat)
    requires |item| < width && a + width <= |body|
    requires body[a..a + width] == PadEnd(item, width)
    ensures body[a..a + |item|] == item
    ensures forall k :: a + |item| <= k < a + width ==> body[k] == ' '
  {
    var piece := body[a..a + width];
    assert body[a..a + |item|] == piece[..|item|];
    forall k | a + |item| <= k < a + width
      ensures body[k] == ' '
    {
      assert body[k] == piece[k - a];
    }
  }

  /** Each line of the result is one source line of `(defsrc)`. */
  lemma ColumnTextLines(lines: seq<LineItems>, width: int)
    requires |lines| > 0
    requires forall n, j :: 0 <= n < |lines| && 0 <= j < |lines[n].items| ==> '\n' !in lines[n].items[j]
    ensures Split(Join(ColumnLines(lines, width), "\n"), '\n') == ColumnLines(lines, width)
  {
    var texts := ColumnLines(lines, width);
    forall n | 0 <= n < |texts|
      ensures '\n' !in texts[n]
    {
      var padded := PaddedItems(lines[n].items, width);
      forall j | 0 <= j < |padded|
        ensures '\n' !in padded[j]
      {
        assert padded[j] == PadEnd(lines[n].items[j], width);
        assert padded[j][..|lines[n].items[j]|] == lines[n].items[j];
      }
      ConcatNoChar(padded, '\n');
      var sp := Spaces(lines[n].startPosition.character);
      assert forall k :: 0 <= k < |sp| ==> sp[k] == ' ';
    }
    SplitJoin(texts, '\n');
  }

  /** A one-line document: offset `p` is character `p` of line 0. */
  function SingleLine(p: nat): (r: Position)
    ensures r.line == 0 && r.character == p
  {
    Position(0, p)
  }

  /** `setSrcColumnWidth` on `(defsrc (x) b)` (`NestedKeyConfig`) in a
      one-line document. As written, the replaced range runs from the `x`
      at offset 9 to the end of `b`: it holds the `)` at offset 10, but the
      keys the new text is built from hold no `)`, and the `(` at offset 8
      stays outside the range, so the edit unbalances the block. Parsed as
      intended, the range starts at `(x)`, offset 8, and the keys carry both
      parentheses. */
  lemma NestedSrcColumnRange(s: string)
    requires NestedKeyShape(s)
    ensures LinesMonotone(SingleLine)
    ensures ParseAsWritten(s).Parsed? && |SrcKeys(ParseAsWritten(s).defsrc)| == 2 &&
      var src := Locate(SingleLine, SrcKeys(ParseAsWritten(s).defsrc));
      && GetContentPositionsRange(src) == Range(SingleLine(9), SingleLine(13))
      && s[9..13] == "x) b"
      && Contents(src) == ["x", "b"]
    ensures Parse(s).Parsed? && |SrcKeys(Parse(s).defsrc)| == 2 &&
      var src := Locate(SingleLine, SrcKeys(Parse(s).defsrc));
      && GetContentPositionsRange(src) == Range(SingleLine(8), SingleLine(13))
      && s[8..13] == "(x) b"
      && Contents(src) == ["(x)", "b"]
  {
    NestedKeyWritten(s);
    NestedKeyIntended(s);
    NestedKeyRanges();
    NestedKeySlices(s);
  }

  /** The text the two ranges cover. */
  lemma NestedKeySlices(s: string)
    requires NestedKeyShape(s)
    ensures s[9..13] == "x) b" && s[8..13] == "(x) b"
  {
  }

  /** The `(defsrc)` block of `NestedKeyConfig`, as written and as intended. */
  lemma NestedKeyWritten(s: string)
    requires NestedKeyShape(s)
    ensures ParseAsWritten(s).Parsed? && ParseAsWritten(s).defsrc == AsWrittenKeys
  {
    NestedKeyParse(s, true);
  }

  lemma NestedKeyIntended(s: string)
    requires NestedKeyShape(s)
    ensures Parse(s).Parsed? && Parse(s).defsrc == IntendedKeys
  {
    NestedKeyParse(s, false);
  }

  /** The range and key texts of both blocks. */
  lemma NestedKeyRanges()
    ensures var src := Locate(SingleLine, SrcKeys(AsWrittenKeys));
      && GetContentPositionsRange(src) == Range(SingleLine(9), SingleLine(13))
      && Contents(src) == ["x", "b"]
    ensures var src := Locate(SingleLine, SrcKeys(IntendedKeys));
      && GetContentPositionsRange(src) == Range(SingleLine(8), SingleLine(13))
      && Contents(src) == ["(x)", "b"]
  {
    TwoKeysRange(AsWrittenKeys);
    TwoKeysRange(IntendedKeys);
  }

  /** A head and two keys in a one-line document: the range from the first
      key to the end of the second, and the keys' texts. */
  lemma TwoKeysRange(defsrc: seq<Node>)
    requires |defsrc| == 3
    ensures var src := Locate(SingleLine, SrcKeys(defsrc));
      && GetContentPositionsRange(src) == Range(SingleLine(defsrc[1].startIdx), SingleLine(defsrc[2].startIdx + |defsrc[2].contents|))
      && Contents(src) == [defsrc[1].contents, defsrc[2].contents]
  {
  }

  // ---------------------------------------------------------------------------
  // newLayerKeys
  // ---------------------------------------------------------------------------

  /** `newLayerKeys(doc, content)`: a row for a new layer, indented like the
      first `(defsrc)` key, holding one item per key separated by single
      spaces; the item is the key itself when `content` is a single space,
      `content` otherwise. */
  function NewLayerKeys(text: string, positionAt: nat -> Position, content: string, asWritten: bool): (r: CommandResult<string>)
    requires ParseWith(text, asWritten).Parsed? ==> |SrcKeys(ParseWith(text, asWritten).defsrc)| > 0
    ensures ParseWith(text, asWritten).Failed? ==> r == Error(ParseFailed(ParseWith(text, asWritten).failure))
    ensures ParseWith(text, asWritten).Parsed? ==> r.Success? && r.info.None?
    ensures ParseWith(text, asWritten).Parsed? ==>
      var keys := SrcKeys(ParseWith(text, asWritten).defsrc);
      var indent := positionAt(keys[0].startIdx).character;
      && indent <= |r.value|
      && (forall k :: 0 <= k < indent ==> r.value[k] == ' ')
      && (content == " " && (forall k :: 0 <= k < |keys| ==> ' ' !in keys[k].contents) ==>
            Split(r.value[indent..], ' ') == Contents(Locate(positionAt, keys)))
      && (' ' !in content ==> Split(r.value[indent..], ' ') == seq(|keys|, _ => content))
  {
    var parsed := ParseWith(text, asWritten);
    if parsed.Failed? then Error(ParseFailed(parsed.failure))
    else
      var items := SrcKeys(parsed.defsrc);
      Success(None, LayerRow(items, positionAt, content))
  }

  /** The row `newLayerKeys` builds from the `(defsrc)` keys: the first
      key's column of spaces, then items that split back at single spaces
      into the keys' texts for a `" "` placeholder, and into the
      placeholder once per key otherwise. */
  function LayerRow(keys: seq<Node>, positionAt: nat -> Position, content: string): (v: string)
    requires |keys| > 0
    ensures var indent := positionAt(keys[0].startIdx).character;
      && indent <= |v|
      && (forall k :: 0 <= k < indent ==> v[k] == ' ')
      && (content == " " && (forall k :: 0 <= k < |keys| ==> ' ' !in keys[k].contents) ==>
            Split(v[indent..], ' ') == Contents(Locate(positionAt, keys)))
      && (' ' !in content ==> Split(v[indent..], ' ') == seq(|keys|, _ => content))
  {
    var indent := PositionForNode(positionAt, keys[0]).position.character;
    var row := if content == " " then Contents(Locate(positionAt, keys)) else seq(|keys|, _ => content);
    ItemsSplit(row, indent);
    Spaces(indent) + Join(row, " ")
  }

  lemma ItemsSplit(row: seq<string>, indent: nat)
    requires |row| > 0
    ensures var v := Spaces(indent) + Join(row, " ");
      && (forall k :: 0 <= k < indent ==> v[k] == ' ')
      && v[indent..] == Join(row, " ")
      && ((forall k :: 0 <= k < |row| ==> ' ' !in row[k]) ==> Split(v[indent..], ' ') == row)
  {
    if forall k :: 0 <= k < |row| ==> ' ' !in row[k] {
      SplitJoin(row, ' ');
    }
  }
}
