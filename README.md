# KMonad config formatter, modelled in Dafny

This project models the core of a VS Code extension that formats KMonad
keyboard configurations. A KMonad config is a sequence of parenthesised
s-expressions. The `(defsrc …)` block lists the physical keys. Each
`(deflayer name …)` block lists, key for key, what those keys do in one layer.
The extension has three commands:

- **format** realigns every layer with as many keys as `(defsrc)` so that
  its keys stand in the same columns, line for line, as the `(defsrc)` keys.
- **setSrcColumnWidth** rewrites `(defsrc)` with every key padded to a fixed
  column width, or fails and lists the keys that are too wide.
- **newLayerKeys** produces a placeholder row of keys for a new layer.

The project has three modules:

- `Strings` (`strings.dfy`): the string helpers the source gets from
  JavaScript: `repeat`, `join`, `padEnd` and number formatting. `Split` is
  not one of them: the source never splits a string. It is the inverse of
  `join`, used to state what a joined text holds, with facts such as split
  undoing join.
- `Parser` (`parse.dfy`): `src/parse.ts`.
  - The grammar is written as a recursive-descent parser over `seq<char>`. It
    follows the PEG rules one for one: ordered choice, greedy repetition, and
    `space*` skipped before every element of a syntactic rule.
  - A parse tree records the spans the grammar matched. `WellFormed` states
    what each kind of tree looks like in the text.
  - The `ast` semantics turn each top-level expression into a list of `Node`s.
  - `Parse` picks out the first `defsrc` expression and every `deflayer`
    expression.
- `Format` (`format.dfy`): `src/main.ts`.
  - The line-grouping reductions are imperative methods over a `map` record.
    They are proved equal to a functional grouping of consecutive same-line
    tokens.
  - The realignment loop is a method that dequeues tokens from a queue with a
    per-line cursor. It is proved equal to a functional layout, and the
    layout's properties are proved as lemmas: column placement, token
    preservation, line structure and idempotence.
  - The three commands are modelled in full, including every error result.
    Each takes a flag `asWritten`: `true` runs it on the program's own
    `parse` (`Parser.ParseAsWritten`), `false` on the corrected `Parse` (see
    "Findings").

The editor's `doc.positionAt` service is a parameter `positionAt: nat ->
Position`. The only assumption made about it is `LinesMonotone`: a later
offset is never on an earlier line. Where the source would throw, the model
states a precondition that excludes the throwing input (see "Left out").

## Model

| member | source | states |
|---|---|---|
| `Parser.CloseBlockComment` | src/parse.ts:25 | a block comment ends just past the first closing bar-hash after it opens; block comments do not nest; with no closer further on there is no comment |
| `Parser.LineEnd` | src/parse.ts:26 | a `;;` comment runs to the first newline or to the end of the text, and holds no newline |
| `Parser.SpaceAt` | src/parse.ts:21-35 | one `space` (whitespace, newline or comment) consumes at least one character |
| `Parser.NoSpaceAt` | src/parse.ts:21-35 | where no `space` starts there is no whitespace, no newline, no `;;`, and no comment opener (hash-bar) closed further on |
| `Parser.SkipSpaces` | src/parse.ts:21 | the implicit `space*` consumes whole `space` matches one after another (`SpaceRun`) and stops at a position where no `space` starts |
| `Parser.SpaceRunCovers` | src/parse.ts:21 | every character of a run of `space` matches lies inside one of the matches |
| `Parser.SkipSpacesCovers` | src/parse.ts:21 | every character `space*` skips lies inside a `space` match that starts at or after the point where skipping began |
| `Parser.SkipSpacesUnique` | src/parse.ts:21 | any run of `space` matches that ends where no `space` starts ends exactly where `space*` stops |
| `Parser.WordEnd` | src/parse.ts:18 | a `word` is the longest run of characters where neither `space` nor `)` starts |
| `Parser.EscapedEnd` | src/parse.ts:17 | after the backslash, an `escaped` token is the longest run where no `space` starts; `)` is allowed |
| `Parser.CloseString` | src/parse.ts:19 | a string ends at the first `"` after its opening quote and contains no other `"` |
| `Parser.TiledCons` | src/parse.ts:8 | putting an element in front of the elements that follow it, after spaces, keeps the list tiled |
| `Parser.ParseSexpr` | src/parse.ts:8 | a matched `Sexpr` starts with `(`, ends with `)`, and its elements lie in order between them, separated only by space |
| `Parser.SexprWellFormed` | src/parse.ts:8 | an expression closed by the `)` that follows its list after space is well formed: `(`, then its elements in order with only space between, then `)` |
| `Parser.ParseList` | src/parse.ts:8 | `ListOf` of elements matches in-order elements, each well formed, separated only by space |
| `Parser.ParseElement` | src/parse.ts:8 | an element tries `Sexpr` before `Token`; a match is well formed and nonempty |
| `Parser.ParseToken` | src/parse.ts:11-19 | `Token` tries TapMacro, string, escaped and word in that order; each match has its alternative's shape, e.g. a TapMacro is `#` up to the `)` of its expression |
| `Parser.MacroWellFormed` | src/parse.ts:16 | `#` followed after space by a matched expression is a TapMacro token that runs from the `#` to that expression's `)` |
| `Parser.ParseTopLevel` | src/parse.ts:6-9 | `TopLevelSexpr*` matches well-formed expressions tiled by space, and stops where no expression starts |
| `Parser.Match` | src/parse.ts:65-66 | the match succeeds only when nothing but space follows the last top-level expression |
| `Parser.NodeOf` | src/parse.ts:54-58 | the intended node of an element (the `Token` action, and the `Sexpr` action as meant): it spans the element exactly, parentheses included, is not empty, and its contents is the text between its offsets |
| `Parser.NodeAsWritten` | src/parse.ts:54-58 | the node the actions as written build: its contents is the text between its offsets and it starts inside its element; a token's node is the intended one, while a nested expression's node lies strictly inside its parentheses |
| `Parser.ExprNodes` | src/parse.ts:48-59 | one node per element of an expression, as written and as intended, each the text between its offsets, at strictly increasing starts; as intended, each node is exactly the text it spans, lies strictly inside the parentheses, and follows the previous node after space only |
| `Parser.NodeStartsInside` | src/parse.ts:54-58 | a node, as written or as intended, starts inside the span of its element |
| `Parser.ItemsStartsIncrease` | src/parse.ts:48-53 | the nodes of an expression's elements start at strictly increasing offsets |
| `Parser.Ast` | src/parse.ts:44-46 | one node list per top-level expression, in order, each with increasing starts; as intended, each is taken from the text |
| `Parser.EachFromText` | src/parse.ts:72-80 | expressions picked from the top level are still taken from the text |
| `Parser.EachPicked` | src/parse.ts:72-80 | the expressions `find` and `filter` pick from the top level are still text slices with increasing starts |
| `Parser.HeadIs` | src/parse.ts:72 | an expression is headed `name` when it has a first node and that node reads `name`; an empty expression has no head |
| `Parser.OneHead` | src/parse.ts:72-80 | an expression has at most one head, so the `defsrc` block is never also a `deflayer` |
| `Parser.FindHead` | src/parse.ts:72 | `find` returns the first expression whose first node is the given name, and returns nothing exactly when no expression has that head |
| `Parser.FilterHead` | src/parse.ts:78-80 | `filter` keeps exactly the expressions with the given head |
| `Parser.FilterHeadAppend` | src/parse.ts:78-80 | filtering keeps document order: it distributes over concatenation |
| `Parser.TopLevel` | src/parse.ts:65-71 | the semantics are applied exactly when the match succeeds; every node list has increasing starts, and as intended comes from the text |
| `Parser.ParseWith` | src/parse.ts:62-85 | a syntax error exactly when the match fails; otherwise `defsrc` is headed `defsrc`, the layers are exactly the top-level expressions headed `deflayer`, in document order, every node, as written or as intended, is the text between its offsets, all node lists have increasing starts, and as intended consecutive nodes have only space between them |
| `Parser.Parse` | src/parse.ts:62-85 | every node of `defsrc` and of every `deflayer` is the exact text between its offsets; nodes follow each other in order with only space between them; the layers are exactly the top-level expressions headed `deflayer`, in order |
| `Parser.ParseAsWritten` | src/parse.ts:62-85 | the program's own `parse`: a syntax error on exactly the texts where `Parse` has one; otherwise `defsrc` is headed `defsrc`, the layers are the top-level expressions headed `deflayer`, every node is the text between its offsets, and node starts increase |
| `Parser.ElementMatches` | src/parse.ts:8-18 | after space, an element matches at any character other than `)`, at worst as a word |
| `Parser.ListStops` | src/parse.ts:8 | an element list stops only at `)` or at the end of the text |
| `Parser.CloseNoElement` | src/parse.ts:8-18 | no element starts at a `)`: it opens no expression and no token, and a word cannot begin with it |
| `Parser.UnclosedExpression` | src/parse.ts:8 | an expression fails only when it is never closed: its list runs to the end of the text |
| `Parser.RemainderFails` | src/parse.ts:65-70 | the parse fails exactly when non-space text follows the complete top-level expressions |
| `Parser.SexprFailsUnmatched` | src/parse.ts:6-9 | where no expression starts, the character either does not open an expression or opens one that is never closed |
| `Parser.SyntaxErrorIff` | src/parse.ts:65-70 | the parse fails with a syntax error iff, after the complete top-level expressions, there is a non-space character that is not `(` or an expression never closed; there is no partial result |
| `Parser.UnclosedBlockCommentIsWord` | src/parse.ts:18-25 | inside an expression, a comment opener (hash-bar) that is never closed starts a word |
| `Parser.UnclosedStringIsWord` | src/parse.ts:18-19 | inside an expression, a `"` that is never closed starts a word |
| `Parser.WordText` | src/parse.ts:17-21 | a word holds no whitespace, no newline, no `)`, no `;;`, and no comment opener (hash-bar) closed further on |
| `Parser.DefsrcIsFirst` | src/parse.ts:72 | with either node rule, `defsrc` is the first top-level expression headed `defsrc`; later ones are ignored |
| `Parser.MissingDefsrcIff` | src/parse.ts:73-77 | with either node rule, the missing-block error is returned exactly when the text matches and no expression is headed `defsrc` |
| `Parser.NestedKeyParse` | src/parse.ts:54-56 | for `(defsrc (x) b)`, the node of `(x)` is `x` at 9-10 as written, and `(x)` at 8-11 as intended |
| `Parser.NestedKeyAsWritten` | src/parse.ts:54-56 | as written, the `(defsrc (x) b)` nodes are not the text they span with space between; as corrected, `Parse` gives `(x)` at 8-11 |
| `Parser.NestedKeyNodes` | src/parse.ts:48-59 | the `(defsrc (x) b)` expression gives nodes `defsrc`, `x`, `b` as written and `defsrc`, `(x)`, `b` as intended |
| `Format.PositionForNode` | src/main.ts:252-257 | a located token keeps the node's contents and sits at the position of its start offset |
| `Format.Locate` | src/main.ts:214-216 | mapping `positionForNode` over nodes, one for one |
| `Format.LocatedInOrder` | src/main.ts:201 | nodes whose starts increase, located by a monotone service, are on ascending lines |
| `Format.NodesOrdered` | src/main.ts:201 | starts that increase from each node to the next increase from any node to any later one |
| `Format.GetContentPositionsRange` | src/main.ts:259-270 | the range runs from the first token's position to the last token's line, at its column plus its length |
| `Format.LineGroups` | src/main.ts:202-212 | groups are nonempty, exist exactly when there are tokens, and the last group is on the last token's line |
| `Format.AddToken` | src/main.ts:203-211 | the reduce step never loses a group and adds at most one, and its result is never empty |
| `Format.AddTokenShape` | src/main.ts:203-211 | the reduce step extends the last group when the token is on its line, and otherwise starts a new group; all other groups are unchanged |
| `Format.AddTokenFlatten` | src/main.ts:203-211 | the reduce step appends the token to the flattened groups |
| `Format.GroupsFlatten` | src/main.ts:202-212 | grouping only cuts the tokens into runs: flattening the groups gives the tokens back |
| `Format.AddTokenByLine` | src/main.ts:203-211 | the reduce step keeps each group on one line and neighbouring groups on different lines |
| `Format.GroupsByLine` | src/main.ts:202-212 | each group is on one line, and neighbouring groups are on different lines |
| `Format.GroupLinesIncrease` | src/main.ts:202-212 | on ascending lines the groups' lines strictly increase, so each line's keys form a single group, as `Object.values` over line keys gives them |
| `Format.AddTokenIncrease` | src/main.ts:203-211 | a key on the last group's line or below keeps the groups' lines strictly increasing |
| `Format.GroupMember` | src/main.ts:202-212 | every grouped token is one of the tokens |
| `Format.Relative` | src/main.ts:207-209 | each column plus the first key's column is the key's own column |
| `Format.ColumnsOf` | src/main.ts:202-212 | one column list per group |
| `Format.ColumnsStep` | src/main.ts:203-211 | how the column template grows when the reduce adds a key |
| `Format.Template` | src/main.ts:202-212 | one column list per source line of `(defsrc)`, as many columns as that line has keys, each the key's character minus the first key's |
| `Format.TotalColumns` | src/main.ts:202-212 | the column lists hold as many columns as the groups hold keys |
| `Format.TemplateTotal` | src/main.ts:202-212 | the template has exactly one column per `(defsrc)` key |
| `Format.TemplateShape` | src/main.ts:202-212 | for a nonempty `(defsrc)`, the template has no empty line, one column per key, and puts the first key at column 0 |
| `Format.RecordedIsLast` | src/main.ts:204-207 | on ascending lines, a key whose line is already in the record is on the last recorded line |
| `Format.TracksNewLine` | src/main.ts:204-207 | a key on a new line adds a record entry and a group, and the record still matches the groups |
| `Format.TracksSameLine` | src/main.ts:207 | a key on the last recorded line replaces that line's entry, and the record still matches the groups |
| `Format.ColumnsTracksStep` | src/main.ts:203-211 | one reduce step of the column record matches one grouping step, and the key's line is the last recorded line |
| `Format.ColumnsSoFarStep` | src/main.ts:203-211 | after k+1 keys the record and its line order describe the columns of the first k+1 keys |
| `Format.ColumnsSoFarDone` | src/main.ts:202 | reading the finished record in ascending line order gives the column template |
| `Format.SrcLineColumns` | src/main.ts:202-212 | the record reduce, read back in ascending line order, is the column template: the keys' columns relative to the first key, grouped by source line |
| `Format.Contents` | src/main.ts:236 | the texts of the tokens, one for one |
| `Format.SrcLines` | src/main.ts:170-178 | the `(defsrc)` keys grouped by line: a line exists exactly when there are keys, no line is empty, and the first line starts at the first key with that key's text |
| `Format.ItemsOf` | src/main.ts:170-178 | each group becomes its first key's position and its keys' texts |
| `Format.ItemsStep` | src/main.ts:171-177 | how the line items grow when the reduce adds a key |
| `Format.SrcLineItems` | src/main.ts:170-178 | the record reduce in `setSrcColumnWidth`, read back in ascending line order, is the `(defsrc)` keys grouped by line, with each line's start position |
| `Format.ItemsTracksStep` | src/main.ts:171-177 | one reduce step of the item record matches one grouping step, and the key's line is the last recorded line |
| `Format.ItemsSoFarStep` | src/main.ts:171-177 | after k+1 keys the record and its line order describe the line items of the first k+1 keys |
| `Format.ItemsSoFarDone` | src/main.ts:170 | reading the finished record in ascending line order gives the keys grouped by line |
| `Format.TotalPrefix` | src/main.ts:231-236 | the template lines before line n hold the keys the queue has given up by then |
| `Format.Place` | src/main.ts:237-241 | where the padding rule puts a token: the smallest position at or after its column, and at least one past the cursor when the line already holds a token |
| `Format.Padding` | src/main.ts:237-240 | the padding puts the token at `max(col, 0)` at the start of a line and at `max(col, i + 1)` after another token |
| `Format.CellsTextAppend` | src/main.ts:242-244 | one more cell adds its padding and its text to the line |
| `Format.CellsText` | src/main.ts:242-244 | a line of cells holds no line break when no cell text does: padding is spaces |
| `Format.CellWords` | src/main.ts:236 | the texts of a line's cells |
| `Format.LineCells` | src/main.ts:233-243 | one cell per column |
| `Format.LineCellsWords` | src/main.ts:233-244 | a line's cells hold exactly the tokens given to it, in order |
| `Format.LineCellsSuffix` | src/main.ts:235-243 | after j cells the rest of the line is laid out the same way, starting from the width written so far |
| `Format.ColumnRule` | src/main.ts:237-242 | token j starts where the column rule puts it given the width before it, only spaces lie between it and the previous token, and the token's text sits there unchanged |
| `Format.Separated` | src/main.ts:238-240 | two tokens on one line are at least one space apart |
| `Format.LineWords` | src/main.ts:231-236 | template line n takes as many tokens as it has columns, the ones after the earlier lines' tokens |
| `Format.Layout` | src/main.ts:231-245 | one laid-out line per template line, holding as many tokens as that template line, whatever the layer's own wrapping |
| `Format.LayoutLines` | src/main.ts:244 | each output line is the text of its cells |
| `Format.LayoutKeepsWords` | src/main.ts:231-246 | token preservation: reading the laid-out lines in order gives the layer's tokens back, none lost, added or reordered |
| `Format.WordsPrefix` | src/main.ts:231-236 | the first n output lines hold exactly the tokens the queue has given up after n template lines |
| `Format.LayoutStarts` | src/main.ts:237-244 | with the first column at 0, the first output line begins with the layer's first token |
| `Format.LayoutEnds` | src/main.ts:242-244 | the last output line ends with the layer's last token |
| `Format.LayoutLineNoBreak` | src/main.ts:242-244 | an output line holds no line break when no token does |
| `Format.RenderLines` | src/main.ts:229-246 | the output has one line per `(defsrc)` line; each line after the first is the layer's indentation followed by that line's cells |
| `Format.RenderSplit` | src/main.ts:246 | with no line break inside the lines, splitting the replacement at line breaks gives the first line's text, then each later line after the layer's indentation |
| `Format.RenderEnds` | src/main.ts:231-246 | with the first column at 0, the output starts with the layer's first token and ends with its last |
| `Format.LayoutFirstPadding` | src/main.ts:237-241 | the first token of the output has no padding |
| `Format.RowTokens` | src/main.ts:242-246 | where each token of an output line is once written: after the cells before it and its own padding |
| `Format.RelocatedContents` | src/main.ts:231-247 | the tokens of the rewritten layer are the laid-out tokens, in order |
| `Format.RelocatedFirst` | src/main.ts:231-247 | the rewritten layer's first token is the first cell of the first output line |
| `Format.RelocatedLast` | src/main.ts:259-270 | the rewritten layer's last token ends on the last output line, where that line's text ends |
| `Format.RenderEnd` | src/main.ts:246-247 | once written at the range's start, the output ends on the last template line, after that line's text |
| `Format.AgainEnd` | src/main.ts:259-270 | the range of the rewritten layer ends where the written replacement ends |
| `Format.FormatAgainSame` | src/main.ts:227-247 | idempotence: formatting the rewritten layer again gives the same text, over exactly the span the first edit wrote |
| `Format.LineCellsStep` | src/main.ts:235-243 | one more dequeued token advances the line's cells and cursor as the column rule says |
| `Format.RealignLine` | src/main.ts:232-245 | the per-line loop with `shift()`, the cursor `i` and the padding rule dequeues one token per column and writes the line the layout defines |
| `Format.RealignStep` | src/main.ts:231-245 | after template line n, the queue holds the keys of the remaining lines |
| `Format.Realign` | src/main.ts:229-246 | the realigned text is the layout of the layer's tokens on the template, lines joined by a newline and the first token's indentation |
| `Format.LayerKeys` | src/main.ts:215 | `slice(2)`: the keys after `deflayer` and the name |
| `Format.SrcKeys` | src/main.ts:201 | `slice(1)`: the keys after `defsrc` |
| `Format.SrcKeysInOrder` | src/main.ts:201 | with either parser, the located `(defsrc)` keys are on ascending lines |
| `Format.SrcKeysIncrease` | src/main.ts:201 | dropping `defsrc` keeps the keys' starts increasing |
| `Format.SrcKeysFromText` | src/main.ts:201 | the keys after `defsrc` are still taken from the text in order, with only space between them |
| `Format.LayersPositions` | src/main.ts:214-216 | one located key list per layer |
| `Format.KeepValid` | src/main.ts:218-220 | exactly the layers with as many keys as `(defsrc)` are kept, so no more layers than there were |
| `Format.KeepValidAppend` | src/main.ts:218-220 | `filter` keeps document order: it distributes over concatenation |
| `Format.KeptNotEmpty` | src/main.ts:218-220 | unless `format` would throw, no kept layer is empty |
| `Format.LayerEdit` | src/main.ts:227-247 | the replaced range starts at the layer's first key; on a template with no empty line and the first key at column 0, the new text starts with the first key's text and ends with the last key's |
| `Format.FormatInfo` | src/main.ts:223 | the info is `Formatted `, two decimal numbers around `/`, then ` layers`; the numbers read back as the kept and the total layer counts |
| `Format.InfoSplit` | src/main.ts:223 | the middle of the info splits at `/` into the two counts |
| `Format.LayerEdits` | src/main.ts:224-248 | one edit per kept layer, in order: its range, replaced by its realignment |
| `Format.RealignLayers` | src/main.ts:224-248 | the loop over kept layers computes each range before realigning, and yields the edits `LayerEdits` defines |
| `Format.FormatParsed` | src/main.ts:222-249 | `format`'s value for a parsed config: a success whose info counts the kept layers against all layers, with one edit per kept layer, in order, each starting at that layer's first key, and no more kept layers than layers |
| `Format.FormatThrows` | src/main.ts:227-229 | `format` can throw only when `(defsrc)` holds nothing but its head and there is at least one layer |
| `Format.Format` | src/main.ts:194-250 | with either parser, a parse failure is returned as an error; otherwise one edit per kept layer, in order, and the info `Formatted valid/total layers` |
| `Format.ProblemMessage` | src/main.ts:164-166 | only a syntax error has no modelled message |
| `Format.TooWideMessage` | src/main.ts:164-166 | the error is the width line, a line break and two spaces, then the too-wide keys, which split back out of it in order when they hold no space |
| `Format.TooWide` | src/main.ts:161-162 | `tooBig` is empty iff every key is shorter than the width, and it holds exactly the keys at least that long |
| `Format.PaddedItems` | src/main.ts:187 | each key padded with `padEnd` |
| `Format.ColumnLine` | src/main.ts:185-187 | every line but the first starts with its start column in spaces; with every key shorter than the width, the line is that indentation plus exactly `width` characters per key |
| `Format.ColumnLines` | src/main.ts:183-188 | one output line per source line of `(defsrc)` |
| `Format.SetSrcColumnWidth` | src/main.ts:152-192 | with either parser, a parse failure is an error; the too-wide error is returned iff some key is at least `width` long, and it lists every such key; otherwise the keys' range is replaced by the padded lines joined by `"\n"`, with info `Ok` |
| `Format.ItemRows` | src/main.ts:175 | the keys of each line |
| `Format.ContentsConcat` | src/main.ts:170-178 | the texts of flattened groups are the flattened texts |
| `Format.SrcLinesKeepKeys` | src/main.ts:170-178 | grouping by line keeps every `(defsrc)` key, in order |
| `Format.FixedColumns` | src/main.ts:187 | with every key shorter than the width, the body is `width` characters per key, key j starts at `Offset(j, width)` (which is `j * width`, by `Strings.OffsetIsProduct`), and the rest of its column is spaces |
| `Format.PaddedSlice` | src/main.ts:187 | the padded key j is the j-th slice of `width` characters of the line's body |
| `Format.PaddedPiece` | src/main.ts:187 | a key padded to `width` is the key followed by spaces up to the width |
| `Format.ColumnTextLines` | src/main.ts:183-189 | splitting the result at newlines gives back the lines: one per source line, each after the first prefixed by its start column |
| `Format.NestedSrcColumnRange` | src/main.ts:159-182 | on `(defsrc (x) b)` in a one-line document, as written, the replaced range runs from offset 9 to 13 while the keys are `x` and `b`, so the `)` at offset 10 is replaced away and the `(` at 8 is left; as intended, the range starts at 8 and the keys are `(x)` and `b` |
| `Format.TwoKeysRange` | src/main.ts:259-270 | in a one-line document, the range of two keys runs from the first key's start to the end of the second, and the keys' texts are kept |
| `Format.NewLayerKeys` | src/main.ts:134-150 | with either parser: indent spaces, then one item per `(defsrc)` key with single spaces between; the item is the key itself when the placeholder is `" "`, and the placeholder otherwise |
| `Format.LayerRow` | src/main.ts:141-148 | the row is the first key's column of spaces, then the items split back at single spaces: the keys' texts for a `" "` placeholder, and the placeholder once per key otherwise |
| `Format.ItemsSplit` | src/main.ts:144-148 | the row begins with the indentation, and the items split back at spaces |
| `Strings.Spaces` | src/main.ts:242 | `" ".repeat(n)` is n spaces |
| `Strings.Join` | src/main.ts:244-246 | joining with the empty separator is concatenation; `SplitJoin` reads a join with a separator back |
| `Strings.PadEnd` | src/main.ts:187 | `padEnd` keeps the text, fills with spaces, and reaches the width when the text is shorter |
| `Strings.OffsetIsProduct` | src/main.ts:187 | the start of the j-th fixed-width column, summed column by column, is `j * width` |
| `Strings.SplitJoin` | src/main.ts:183-189 | joining parts that do not contain the separator, then splitting, gives the parts back |
| `Strings.SplitPrefixed` | src/main.ts:246 | splitting a join with `"\n" + indent` gives the first part, then each later part after the indent |
| `Strings.SplitPrefixedLines` | src/main.ts:246 | the same split, line by line: as many lines as parts, the first part first, and each later part after the indent |
| `Strings.JoinEnds` | src/main.ts:246 | a join begins with its first part and ends with its last |
| `Strings.IntToString` | src/main.ts:164 | `${width}`: a non-negative number as decimal digits that read back as it, a negative one as `-` and the digits of its magnitude |
| `Strings.NatToString` | src/main.ts:223 | a number is written as one or more decimal digits |
| `Strings.NatToStringRoundTrip` | src/main.ts:223 | the decimal digits read back as the number |

## Left out

- Editor I/O is not modelled. This covers `activate`/`deactivate`, command
  registration, `handleCommandResults`, the output channel, `WorkspaceEdit`,
  `insertSnippet` and the format-document call (src/main.ts:14-132). These are
  editor side effects with no logic to prove.
- The `quickPick` helper in `src/util.ts` is not part of this model. It is
  user-interface code that runs on promises.
- `doc.positionAt` is a parameter. Its only modelled property is
  `LinesMonotone`. How it counts line breaks (CRLF as one break) is not
  modelled.
- Offsets and lengths count Dafny characters, not UTF-16 code units. This
  covers `startIdx`, the `contents.length` added at the end of a range
  (src/main.ts:267), the `>= width` test (src/main.ts:161), `padEnd`
  (src/main.ts:187) and the padding cursor (src/main.ts:241). They differ
  only for characters outside the Basic Multilingual Plane.
- The grammar library's own error text (`match.message`) is not modelled. A
  syntax error is the value `SyntaxError`, and `ProblemMessage` gives it no text.
- Applying a `TextEdit` to a document is not modelled. That text outside the
  replaced range survives is therefore not stated as a lemma.
- Comments between a layer's first and last tokens are dropped by `format`,
  as in the source. The source marks this with a TODO at src/main.ts:225.
- Format.Format: requires `!FormatThrows(text, asWritten)`. If `(defsrc)` has no keys
  and some layer has none, the source reads the end of an empty list
  (src/main.ts:262) and throws.
- Format.SetSrcColumnWidth: requires a parsed `(defsrc)` to have at least one
  key. With none, `getContentPositionsRange` throws on the empty list
  (src/main.ts:262).
- Format.NewLayerKeys: requires a parsed `(defsrc)` to have at least one key.
  With none, `items[0]` is undefined and `positionForNode` throws
  (src/main.ts:141).
- Format.GetContentPositionsRange: modelled as written. For a token that spans
  several lines (a string or a tap-macro), the end of the range is the last
  token's start line and start column plus its length, which is not where
  that token ends.
- Format.FormatAgainSame: it states idempotence for a layer whose tokens hold
  no line break, with positions given by the rewritten layout. It does not
  re-parse the rewritten document end to end.
- An unterminated string or an unterminated `#|` comment does not always fail
  the parse. Inside an expression, the PEG word rule reads it as a word
  (`Parser.UnclosedStringIsWord`, `Parser.UnclosedBlockCommentIsWord`). Only
  at the top level does such text fail the whole parse. The model follows the
  grammar, not the looser description that any such text fails.
- The `"\r\n"` alternative of `newline` is not modelled separately. Skipping
  `"\r"` and then `"\n"` consumes the same text.

## Findings

| source | as written | input that shows it | evidently intended | confidence | as-written member | corrected member |
|---|---|---|---|---|---|---|
| src/parse.ts:54-56 | The `Sexpr` action takes the source of its second child, the `ListOf`. A nested expression's node is therefore its interior without the parentheses, starting after `(`. | `(defsrc (x) b)`: the second node is `x` at offsets 9-10, and the `)` at offset 10 lies between it and the next node. Formatting a layer whose last key is nested replaces a range that ends before its `)`. A layer whose first key is nested replaces one that starts after its `(`. `setSrcColumnWidth` on that block replaces offsets 9-13, the text `x) b`, with text built from `x` and `b` alone: the `)` is lost and the `(` stays. | The node covers the whole nested expression, `(x)` at offsets 8-11, so each key of a layer is one node with only space between keys. | not executed | `Parser.NestedKeyAsWritten` (with `Parser.ParseAsWritten`, `Parser.NodeAsWritten`, and `Format.NestedSrcColumnRange` for `setSrcColumnWidth`) | `Parser.Parse` (with `Parser.NodeOf`, `Parser.NestedKeyParse`) |
