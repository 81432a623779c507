# Markdown line renderer: a verified model

This project models the C# Markdown-to-HTML converter in `cs/Markdown`: its tokenizer, its
parsing context and the node parser with its rules, and the rendering of the node tree
to HTML. The pipeline handles one line at a time:

- The **tokenizer** cuts a line into tokens. Each of `\ _ # [ ] ( )` and the space is a
  token of its own kind. Each maximal run of the remaining characters is one `Text`
  token.
- The **node parser** reads the tokens.
  - A line that opens with hashes and a space becomes a header whose level is the
    number of hashes. Every other line becomes a paragraph.
  - The inline content is read by the rules, which are tried in a fixed order:
    - escape;
    - whitespace;
    - text;
    - hashtag;
    - underscore emphasis (`_` for italic, `__` for bold, with a stack of open markers);
    - links (`[label](url)`).
  - Markers still open at the end of the line go back into the nodes as literal
    underscores.
- **ToHtml** renders the tree by string concatenation.

Imperative code is modelled as imperative Dafny:

- `Cursor` and `ParsingContext` are classes whose fields the methods update.
- The scanning loops of `Tokenize`, `FindToken`, `ParseUrl`, `ParseLabel`,
  `ParseHeader`, `ParseInlineContent` and the underscore stack operations are `while`
  loops with invariants.
- Each method is proved against a pure specification function of the old state. For
  example, `ctx.State() == Apply(old(ctx.State()))`, `result == Lex(text)` and
  `nodes == InlineContent(tokens)`.
- The properties that the source promises are proved as lemmas about those functions:
  - the tokenizer round trip;
  - the rule dispatch;
  - the outcomes of the underscore rule;
  - that a link is accepted exactly on the link shape;
  - that links never nest;
  - the HTML of plain lines and headers.

Three behaviours of the code that the model follows as written:

- **Header level.** Any number of leading hashes followed by a space gives a header of
  that level. There is no cap at six (cs/Markdown/Parsing/NodeParser.cs:40-52).
- **Escape before another token.** An escape followed by anything other than `_`, `#` or
  `\` yields a lone backslash. The following token is not consumed and is handled by the
  next rule (cs/Markdown/Parsing/Rules/EscapeRule.cs:37-40).
- **Escape inside a URL.** Inside a link URL, an escape followed by a token other than
  `)` or `\` appends a backslash and that token's `Value`. For every kind but `Text`,
  `Value` is null, so only the backslash is appended
  (cs/Markdown/Parsing/Rules/LinkRule.cs:211-226).

Modules:

| file | module | what |
|---|---|---|
| `tokens.dfy` | `Tokens` | token kinds, tokens, a token's characters |
| `cursor.dfy` | `Cursors` | the `Cursor` class |
| `tokenizer.dfy` | `Tokenizer` | `Lex` (the token list as a function of the line), `Tokenize` |
| `context.dfy` | `Parsing` | the `Context` value, its invariant, marker literals, the `ParsingContext` class |
| `nodes.dfy` | `Nodes` | the node tree and `ToHtml` |
| `escape_rule.dfy`, `text_rule.dfy`, `whitespace_rule.dfy`, `hashtag_rule.dfy` | one per rule | `Apply` on values, `Handle` on the class |
| `underscore_rule.dfy` | `UnderscoreRule` | emphasis with the marker stack |
| `link_rule.dfy` | `LinkRule` | bracket search, URL, label, links |
| `node_parser.dfy` | `NodeParsing` | rule dispatch, inline loop, headers, the `NodeParser` class |
| `line_rendering.dfy` | `LineRendering` | tokenize, parse and render one line |

## Model

| member | source | states |
|---|---|---|
| `Cursors.Cursor.constructor` | cs/Markdown/Cursor.cs:8-11 | the cursor starts at position 0 of the given text |
| `Cursors.Cursor.CurrentChar` | cs/Markdown/Cursor.cs:13 | the character under the cursor, readable only before the end |
| `Cursors.Cursor.IsEndOfText` | cs/Markdown/Cursor.cs:15 | the end is reached exactly when no character is left |
| `Cursors.Cursor.MoveForward` | cs/Markdown/Cursor.cs:17-21 | advances by `count`, or stays put when that would pass the end; the position never passes the end |
| `Cursors.Cursor.IsNextCharSame` | cs/Markdown/Cursor.cs:23-26 | true exactly when a next character exists and equals `c` |
| `Tokenizer.KindOf` | cs/Markdown/Tokenizer.cs:36-69 | each special character has its own non-Text kind, and that kind spells the character back |
| `Tokenizer.TextRun` | cs/Markdown/Tokenizer.cs:10-20 | the length of the longest prefix with no special character |
| `Tokenizer.ParseDefaultText` | cs/Markdown/Tokenizer.cs:10-20 | collects exactly that run into one Text token and leaves the cursor just after it |
| `Tokenizer.Tokenize` | cs/Markdown/Tokenizer.cs:27-78 | the scanning loop returns `Lex(text)` |
| `Tokenizer.LexRoundTrip` | cs/Markdown/Tokenizer.cs:27-78 | the tokens' characters concatenate back to the line |
| `Tokenizer.LexWellFormed` | cs/Markdown/Tokenizer.cs:27-78 | Text values are non-empty and contain no special character, other tokens carry no value, and two Text tokens are never adjacent |
| `Tokenizer.LexUntokenize` | cs/Markdown/Tokenizer.cs:27-78 | every well-formed token list is the tokenization of its own characters (so `Lex` is a bijection onto well-formed lists) |
| `Tokenizer.LexLength` | cs/Markdown/Tokenizer.cs:27-78 | never more tokens than characters |
| `Tokenizer.LexStartsSpecial` | cs/Markdown/Tokenizer.cs:71-73 | a line that starts with a special character does not start with a Text token |
| `Tokenizer.LexAt` | cs/Markdown/Tokenizer.cs:36-73 | one scanning step: a special character gives its own token, and anything else gives the text run |
| `Tokenizer.LexOfText` | cs/Markdown/Tokenizer.cs:71-73 | a run of ordinary characters followed by a special one lexes to one Text token, then the rest |
| `Tokenizer.LexOfSpecial` | cs/Markdown/Tokenizer.cs:36-69 | a special character lexes to its own valueless token, then the rest |
| `Tokens.UntokenizeAppend` | cs/Markdown/Tokenizer.cs:27-78 | the characters of two token lists concatenate |
| `Parsing.Context.CurrentToken` | cs/Markdown/Parsing/ParsingContext.cs:14 | the token under the cursor, readable only before the end |
| `Parsing.Context.PeekToken` | cs/Markdown/Parsing/ParsingContext.cs:15 | the token `offset` places ahead, present exactly when it exists |
| `Parsing.Context.PreviousToken` | cs/Markdown/Parsing/ParsingContext.cs:16 | the token before the cursor, absent exactly at the start |
| `Parsing.Context.MoveForward` | cs/Markdown/Parsing/ParsingContext.cs:17 | the index grows by `count` with no bound check, and nothing else changes |
| `Parsing.ParsingContext.constructor` | cs/Markdown/Parsing/ParsingContext.cs:9-12 | a fresh context has no nodes and no open markers |
| `Parsing.ParsingContext.MoveForward` | cs/Markdown/Parsing/ParsingContext.cs:17 | the state after the call is the old state moved by `count` |
| `Parsing.FreshContextValid` | cs/Markdown/Parsing/ParsingContext.cs:9-12 | a fresh context satisfies the parsing invariant |
| `Parsing.Underscores` | cs/Markdown/ParsingRules/UnderscoreRule.cs:26 | `new string('_', count)` has `count` underscores |
| `Parsing.InsertPlaces` | cs/Markdown/Parsing/NodeParser.cs:99 | `List.Insert` puts the node at the position, keeps the nodes before it and moves the ones after it up by one |
| `Parsing.InsertLiterals` | cs/Markdown/Parsing/NodeParser.cs:96-100 | putting back the marker literals adds one node per marker |
| `Parsing.InsertLiteralsAppend` | cs/Markdown/Parsing/NodeParser.cs:96-100 | inserting at positions inside a prefix leaves the suffix in place |
| `Parsing.InsertLiteralsConcat` | cs/Markdown/Parsing/NodeParser.cs:96-100 | inserting for `xs + ys` is inserting for `xs`, then for `ys` |
| `Nodes.ConcatHtmlAppend` | cs/Markdown/Nodes/ParagraphNode.cs:7 | children render in order: the HTML of `a + b` is the HTML of `a` followed by that of `b` |
| `Nodes.ConcatHtmlOfTexts` | cs/Markdown/Nodes/TextNode.cs:7 | text nodes render as their contents, concatenated, verbatim and without escaping |
| `Nodes.ToHtml` | cs/Markdown/Nodes/TextNode.cs:7 | a text node renders as its content, verbatim; every other node renders as one element, starting with `<` and ending with `>` |
| `Nodes.ConcatHtml` | cs/Markdown/Nodes/ParagraphNode.cs:7 | no children render as the empty string, and a single child renders as its own HTML with nothing around it |
| `Nodes.DecimalString` | cs/Markdown/Nodes/HeaderNode.cs:8-9 | the header level is written as non-empty decimal digits with no leading zero |
| `Nodes.DecimalRoundTrip` | cs/Markdown/Nodes/HeaderNode.cs:8-9 | the printed level reads back as the same number |
| `EscapeRule.CanHandle` | cs/Markdown/Parsing/Rules/EscapeRule.cs:8 | the rule takes exactly the tokens that stand for a backslash |
| `EscapeRule.Apply` | cs/Markdown/Parsing/Rules/EscapeRule.cs:10-43 | exactly one text node is appended. A trailing `\` stays `\`. Before `_`, `#` or `\` the escape yields that character and consumes both tokens. Before anything else it yields `\` and leaves the next token. The invariant is kept |
| `EscapeRule.Handle` | cs/Markdown/Parsing/Rules/EscapeRule.cs:10-43 | the new state is `Apply` of the old |
| `TextRule.CanHandle` | cs/Markdown/Parsing/Rules/TextRule.cs:8 | the rule takes exactly the tokens that stand for none of the special characters; a token it takes spells its own value, and a token it refuses stands for one character |
| `TextRule.Apply` | cs/Markdown/Parsing/Rules/TextRule.cs:10-14 | appends one node with the token's text and moves one token |
| `TextRule.Handle` | cs/Markdown/Parsing/Rules/TextRule.cs:10-14 | the new state is `Apply` of the old |
| `WhiteSpaceRule.CanHandle` | cs/Markdown/Parsing/Rules/WhiteSpaceRule.cs:8 | the rule takes exactly the tokens that stand for a space |
| `WhiteSpaceRule.Apply` | cs/Markdown/Parsing/Rules/WhiteSpaceRule.cs:10-14 | appends one node with a space and moves one token |
| `WhiteSpaceRule.Handle` | cs/Markdown/Parsing/Rules/WhiteSpaceRule.cs:10-14 | the new state is `Apply` of the old |
| `HashtagRule.CanHandle` | cs/Markdown/Parsing/Rules/HashtagRule.cs:8 | the rule takes exactly the tokens that stand for `#` |
| `HashtagRule.Apply` | cs/Markdown/Parsing/Rules/HashtagRule.cs:10-14 | appends one node with `#` and moves one token |
| `HashtagRule.Handle` | cs/Markdown/Parsing/Rules/HashtagRule.cs:10-14 | the new state is `Apply` of the old |
| `UnderscoreRule.CanHandle` | cs/Markdown/ParsingRules/UnderscoreRule.cs:15 | the rule takes exactly the tokens that stand for `_` |
| `UnderscoreRule.IsBetweenDigits` | cs/Markdown/ParsingRules/UnderscoreRule.cs:159-166 | true exactly when both neighbouring tokens exist, the character just before the run is a digit and the character just after it is a digit |
| `UnderscoreRule.RunLength` | cs/Markdown/ParsingRules/UnderscoreRule.cs:45-58 | the length of the maximal run of underscore tokens at the cursor |
| `UnderscoreRule.CountConsecutiveUnderscores` | cs/Markdown/ParsingRules/UnderscoreRule.cs:45-58 | the loop returns that run length |
| `UnderscoreRule.IndexOfCount` | cs/Markdown/ParsingRules/UnderscoreRule.cs:60-63 | the position of the first marker (top first) with that count, or the stack size when there is none |
| `UnderscoreRule.FindOpenedUnderscore` | cs/Markdown/ParsingRules/UnderscoreRule.cs:60-63 | a found marker is on the stack with that count; none is found exactly when no marker has it |
| `UnderscoreRule.OpenUnderscore` | cs/Markdown/ParsingRules/UnderscoreRule.cs:65-83 | the new state is the value-level `Open`: a new marker on top, or a literal when bold would open inside italic |
| `UnderscoreRule.IntersectingMembers` | cs/Markdown/ParsingRules/UnderscoreRule.cs:87-89 | the intersecting markers are exactly those opened after the match with a different count |
| `UnderscoreRule.OrderByNodeIndexDescendingSorts` | cs/Markdown/ParsingRules/UnderscoreRule.cs:95 | `OrderByDescending` sorts by node index and is a permutation |
| `UnderscoreRule.OrderByNodeIndexDescendingIdentity` | cs/Markdown/ParsingRules/UnderscoreRule.cs:95 | an already-descending list is left as it is |
| `UnderscoreRule.Remove` | cs/Markdown/ParsingRules/UnderscoreRule.cs:147-157 | removing an absent marker changes nothing |
| `UnderscoreRule.RemoveOne` | cs/Markdown/ParsingRules/UnderscoreRule.cs:147-157 | removing a marker on the stack takes out exactly one occurrence |
| `UnderscoreRule.RemoveUnderscoreFromStack` | cs/Markdown/ParsingRules/UnderscoreRule.cs:147-157 | the stack is rebuilt without that marker, and nothing else changes |
| `UnderscoreRule.HasWhitespaceBetween` | cs/Markdown/ParsingRules/UnderscoreRule.cs:168-180 | true exactly when a text node from the marker's position onward contains a whitespace character |
| `UnderscoreRule.IsInsideWords` | cs/Markdown/ParsingRules/UnderscoreRule.cs:182-193 | the loop result is the `InsideWords` predicate of the state |
| `UnderscoreRule.InsideWordsMeans` | cs/Markdown/ParsingRules/UnderscoreRule.cs:182-193 | the token after the closing run is always an underscore, so the check reduces to whitespace between and a Text token before the opener |
| `UnderscoreRule.AfterCloseProbeIsUnderscore` | cs/Markdown/ParsingRules/UnderscoreRule.cs:187-188 | the probe `PeekToken(count - 1)` lands on the last underscore of the run, never on text |
| `UnderscoreRule.SingleAfterNeverFires` | cs/Markdown/ParsingRules/UnderscoreRule.cs:112-123 | when a single marker was opened after the match, the intersecting list is not empty, so the branch after it is never reached |
| `UnderscoreRule.MatchShape` | cs/Markdown/ParsingRules/UnderscoreRule.cs:87-110 | on a valid stack, the intersecting markers are the stack above the match, and they are already sorted |
| `UnderscoreRule.InsertIntersectingLiterals` | cs/Markdown/ParsingRules/UnderscoreRule.cs:95-99 | the loop puts back the literals of the given markers in order |
| `UnderscoreRule.RemoveEachFromStack` | cs/Markdown/ParsingRules/UnderscoreRule.cs:104-108 | the loop removes each given marker from the stack |
| `UnderscoreRule.FlattenCrossing` | cs/Markdown/ParsingRules/UnderscoreRule.cs:87-110 | the new state is the value-level `CloseCrossing` |
| `UnderscoreRule.WrapInnerNodes` | cs/Markdown/ParsingRules/UnderscoreRule.cs:131-144 | the new state is the value-level `CloseClean` |
| `UnderscoreRule.CloseUnderscore` | cs/Markdown/ParsingRules/UnderscoreRule.cs:85-145 | the new state is the value-level `Close` |
| `UnderscoreRule.StepValid` | cs/Markdown/ParsingRules/UnderscoreRule.cs:17-43 | every branch of the rule keeps the parsing invariant |
| `UnderscoreRule.Apply` | cs/Markdown/ParsingRules/UnderscoreRule.cs:17-43 | the rule consumes the whole run (at least one token) and keeps the invariant |
| `UnderscoreRule.Handle` | cs/Markdown/ParsingRules/UnderscoreRule.cs:17-43 | the new state is `Apply` of the old |
| `UnderscoreRule.DigitsStayLiteral` | cs/Markdown/ParsingRules/UnderscoreRule.cs:24-29 | a run between digits becomes a literal, and the stack is untouched |
| `UnderscoreRule.UnmatchedRunOpens` | cs/Markdown/ParsingRules/UnderscoreRule.cs:31-42 | a run with no matching marker, and not bold inside italic, pushes a marker and adds no node |
| `UnderscoreRule.BoldInsideItalicStaysLiteral` | cs/Markdown/ParsingRules/UnderscoreRule.cs:65-75 | a double run while a single one is open becomes a literal |
| `UnderscoreRule.CleanClose` | cs/Markdown/ParsingRules/UnderscoreRule.cs:131-144 | closing the top marker wraps every node after it in italic (`_`) or bold (`__`) and pops it |
| `UnderscoreRule.InsideWordsStaysLiteral` | cs/Markdown/ParsingRules/UnderscoreRule.cs:125-129 | a matching run inside words with whitespace between becomes a literal, and the marker stays open |
| `UnderscoreRule.IntersectionFlattens` | cs/Markdown/ParsingRules/UnderscoreRule.cs:87-110 | a match below other markers puts back the literals of the match and of everything above it, appends the closing run as a literal, and drops those markers |
| `UnderscoreRule.CrossingLiterals` | cs/Markdown/ParsingRules/UnderscoreRule.cs:93-102 | inserting the match's literal after the others, with the closer appended, equals inserting all first and then appending |
| `UnderscoreRule.CrossingNodes` | cs/Markdown/ParsingRules/UnderscoreRule.cs:93-102 | the same, for the stack prefix up to the match |
| `UnderscoreRule.ApplyKeepsLinkFree` | cs/Markdown/ParsingRules/UnderscoreRule.cs:17-43 | the rule never introduces a link |
| `UnderscoreRule.InsertLiteralsLinkFree` | cs/Markdown/Parsing/NodeParser.cs:94-101 | putting back literals never introduces a link |
| `LinkRule.CanHandle` | cs/Markdown/Parsing/Rules/LinkRule.cs:9-13 | the rule takes exactly the tokens that stand for `[`, `]`, `(` or `)` |
| `LinkRule.FindFrom` | cs/Markdown/Parsing/Rules/LinkRule.cs:84-135 | the search returns -1 or the position of a target token |
| `LinkRule.FindToken` | cs/Markdown/Parsing/Rules/LinkRule.cs:84-135 | the bracket-depth loop returns `FindFrom` |
| `LinkRule.FindTokenFirstAtDepthZero` | cs/Markdown/Parsing/Rules/LinkRule.cs:84-135 | a result is the first target at bracket depth zero, and -1 means there is none |
| `LinkRule.FindTokenFindsCloser` | cs/Markdown/Parsing/Rules/LinkRule.cs:84-135 | the first closer at depth zero is exactly what the search returns |
| `LinkRule.NoEarlierMatchMeans` | cs/Markdown/Parsing/Rules/LinkRule.cs:84-135 | no earlier target at depth zero means the depth stayed non-negative before each earlier target |
| `LinkRule.UrlPiece` | cs/Markdown/Parsing/Rules/LinkRule.cs:207-250 | one URL step moves forward and resumes at most one position past the end of the range; it goes past the end only after a trailing escape, whose double increment skips the end |
| `LinkRule.ParseUrl` | cs/Markdown/Parsing/Rules/LinkRule.cs:201-255 | the loop returns `Url` of the range |
| `LinkRule.UrlIsSourceText` | cs/Markdown/Parsing/Rules/LinkRule.cs:201-255 | a range with no escapes or brackets gives its own source text as the URL |
| `LinkRule.UrlOfEscapes` | cs/Markdown/Parsing/Rules/LinkRule.cs:211-226 | `\)` gives `)`, `\\` gives `\`, and any other escape keeps its backslash before the next token's value |
| `LinkRule.LabelStep` | cs/Markdown/Parsing/Rules/LinkRule.cs:150-189 | a label step moves forward and keeps the invariant |
| `LinkRule.LabelToken` | cs/Markdown/Parsing/Rules/LinkRule.cs:150-189 | one loop body of the label parser is `LabelStep` |
| `LinkRule.LabelLoop` | cs/Markdown/Parsing/Rules/LinkRule.cs:150-189 | the label loop ends at or past the closing bracket and keeps the invariant |
| `LinkRule.ParseLabel` | cs/Markdown/Parsing/Rules/LinkRule.cs:137-199 | returns `Label`, with leftover markers put back as literals |
| `LinkRule.LabelHasNoLinks` | cs/Markdown/Parsing/Rules/LinkRule.cs:137-199 | links never nest: no node of a label is or contains a link |
| `LinkRule.LinkBounds` | cs/Markdown/Parsing/Rules/LinkRule.cs:47-69 | the settled brackets lie after the `[`, in order, with non-empty label and URL |
| `LinkRule.FindLinkBounds` | cs/Markdown/Parsing/Rules/LinkRule.cs:47-69 | the searches and checks give `LinkBounds` |
| `LinkRule.LinkAccepted` | cs/Markdown/Parsing/Rules/LinkRule.cs:47-69 | on the link shape (a closer at depth zero, `(` right after it, and a `)` at depth zero around a non-empty URL), exactly that `]` and `)` are chosen |
| `LinkRule.LinkOnlyOnShape` | cs/Markdown/Parsing/Rules/LinkRule.cs:47-69 | conversely, any brackets chosen form the link shape |
| `LinkRule.LinkNodeAt` | cs/Markdown/Parsing/Rules/LinkRule.cs:71-81 | the link holds the URL part as its URL and the label part as its children |
| `LinkRule.TryParseLinkAt` | cs/Markdown/Parsing/Rules/LinkRule.cs:47-82 | with no link shape, returns nothing and leaves the cursor; otherwise returns that link and moves past `)` |
| `LinkRule.Apply` | cs/Markdown/Parsing/Rules/LinkRule.cs:15-45 | exactly one node is appended, the stack is untouched, the cursor moves forward, and the invariant is kept |
| `LinkRule.ApplyLiteral` | cs/Markdown/Parsing/Rules/LinkRule.cs:32-44 | a `]`, `(`, `)` or a `[` that starts no link is one literal character |
| `LinkRule.ApplyLink` | cs/Markdown/Parsing/Rules/LinkRule.cs:15-31 | a `[` on the link shape appends that link and moves past `)` |
| `LinkRule.Handle` | cs/Markdown/Parsing/Rules/LinkRule.cs:15-45 | the new state is `Apply` of the old |
| `NodeParsing.FirstOrDefault` | cs/Markdown/Parsing/NodeParser.cs:78 | the chosen rule is the first that can handle the token; none is chosen exactly when no rule can |
| `NodeParsing.DispatchByKind` | cs/Markdown/Parsing/NodeParser.cs:13-21 | exactly one rule handles each token kind, so the first match is that rule |
| `NodeParsing.ApplyRule` | cs/Markdown/Parsing/NodeParser.cs:78-87 | every rule moves the cursor forward and keeps the invariant |
| `NodeParsing.InlineStep` | cs/Markdown/Parsing/NodeParser.cs:75-88 | one loop step moves forward and keeps the invariant |
| `NodeParsing.InlineLoop` | cs/Markdown/Parsing/NodeParser.cs:75-88 | the loop reaches the end of the tokens and keeps the invariant |
| `NodeParsing.NodeParser.HandleRule` | cs/Markdown/Parsing/NodeParser.cs:80-87 | calling the chosen rule's `Handle` gives `ApplyRule` of the old state |
| `NodeParsing.NodeParser.CloseUnclosedUnderscores` | cs/Markdown/Parsing/NodeParser.cs:94-101 | the stack ends empty, with each marker's literal inserted at its position, top first |
| `NodeParsing.NodeParser.ParseInlineContent` | cs/Markdown/Parsing/NodeParser.cs:65-92 | returns `InlineContent(tokens)` |
| `NodeParsing.HashRun` | cs/Markdown/Parsing/NodeParser.cs:40-44 | the count of leading hashes stays within the tokens |
| `NodeParsing.HashRunStops` | cs/Markdown/Parsing/NodeParser.cs:40-44 | the run stops at the first non-hash |
| `NodeParsing.HashRunHashes` | cs/Markdown/Parsing/NodeParser.cs:40-44 | the run is all hashes, followed by a non-hash or the end |
| `NodeParsing.HeaderLevel` | cs/Markdown/Parsing/NodeParser.cs:40-46 | a level is found only when a token follows the hashes |
| `NodeParsing.NodeParser.CountHashes` | cs/Markdown/Parsing/NodeParser.cs:37-44 | the counting loop returns the number of leading hashes |
| `NodeParsing.HeaderDecision` | cs/Markdown/Parsing/NodeParser.cs:46 | there is no header when the hashes run to the end or no space follows them; otherwise the level is the number of hashes |
| `NodeParsing.HeaderOfLevel` | cs/Markdown/Parsing/NodeParser.cs:48-53 | a header of that level holds the inline content of the tokens after the space |
| `NodeParsing.NodeParser.ParseHeader` | cs/Markdown/Parsing/NodeParser.cs:35-54 | returns `Header(tokens)` |
| `NodeParsing.NodeParser.ParseParagraph` | cs/Markdown/Parsing/NodeParser.cs:56-63 | returns a paragraph of the inline content |
| `NodeParsing.NodeParser.ParseLine` | cs/Markdown/Parsing/NodeParser.cs:24-33 | returns `Line(tokens)` |
| `NodeParsing.HeaderShape` | cs/Markdown/Parsing/NodeParser.cs:24-54 | `n` hashes then a space give a header of level `n` over the rest of the line |
| `NodeParsing.ParagraphOtherwise` | cs/Markdown/Parsing/NodeParser.cs:24-33 | every other line is a paragraph of its whole content |
| `NodeParsing.PlainNodes` | cs/Markdown/Parsing/NodeParser.cs:75-88 | one text node per token |
| `NodeParsing.PlainLoop` | cs/Markdown/Parsing/NodeParser.cs:75-88 | over words, spaces and hashes, the loop appends one text node per token |
| `NodeParsing.PlainContent` | cs/Markdown/Parsing/NodeParser.cs:65-92 | the inline content of such tokens is that node list |
| `NodeParsing.PlainHtml` | cs/Markdown/Nodes/TextNode.cs:7 | that node list renders as the tokens' characters |
| `LineRendering.RenderLine` | cs/Markdown/Md.cs:22-24 | every line renders as a single element, a header or a paragraph, starting with `<` and ending with `>` |
| `LineRendering.LexPlain` | cs/Markdown/Tokenizer.cs:27-78 | a line without markup characters lexes to words, spaces and hashes |
| `LineRendering.LeadingHashes` | cs/Markdown/Tokenizer.cs:36-69 | leading hash tokens are leading `#` characters, and the rest lexes separately |
| `LineRendering.HashTail` | cs/Markdown/Tokenizer.cs:36-69 | the hashes and space of a header line lex to hash tokens and a whitespace token |
| `LineRendering.HeaderPrefixOfText` | cs/Markdown/Parsing/NodeParser.cs:40-46 | the token-level header test is exactly "hashes and a space" on the line |
| `LineRendering.HeaderLine` | cs/Markdown/Md.cs:22-23 | a line of hashes and a space parses as a header of that level over the rest of the line |
| `LineRendering.PlainText` | cs/Markdown/Md.cs:22-24 | content without markup renders as itself |
| `LineRendering.PlainHeaderHtml` | cs/Markdown/Md.cs:22-24 | `## text` renders as `<h2>text</h2>`, for any level |
| `LineRendering.PlainParagraphHtml` | cs/Markdown/Md.cs:22-24 | any other line without markup renders as `<p>line</p>` |

## Left out

- **The document driver.** `Md.Render` in cs/Markdown/Md.cs:14-28 splits the input at
  `Environment.NewLine` and appends a newline after each rendered line. Only the
  per-line composition (tokenize, parse, `ToHtml`) is modelled, as
  `LineRendering.RenderLine`.
- **`char.IsDigit` and `char.IsWhiteSpace`.** They are modelled for ASCII only: `0`–`9`,
  and space, tab, newline, vertical tab, form feed and carriage return. Unicode looks
  are not modelled.
- **Reference and value equality.** `List.Remove` in cs/Markdown/ParsingRules/UnderscoreRule.cs:147-157
  compares markers by reference. The model compares them by value. Two markers never share a token position,
  so the two agree.
- **Null values.** The other kinds' null value becomes the empty string; a `Text` token
  keeps its value. The null-checks of `TryParseLink` are merged into `LinkRule.LinkBounds`.
- UnderscoreRule.EndsWithDigit, UnderscoreRule.StartsWithDigit: a `Text` token with an empty
  value gives false here. In the source, `.Last()` and `.First()` throw on it
  (cs/Markdown/ParsingRules/UnderscoreRule.cs:161-164). `Tokenize` never makes such a token
  (`Tokenizer.LexWellFormed`), but `ParseLine` accepts any token list, and the model does not
  capture that exception.
- **The empty-text guard in the label loop.** The guard in
  cs/Markdown/Parsing/Rules/LinkRule.cs:182-183 never fails, because every later kind has
  a one-character spelling. The model appends that character unconditionally.
- **How the methods are split.**
  - LabelToken: the body of the label loop is its own method.
  - FindLinkBounds: the search part of `TryParseLink` is its own method.
  - HandleRule: the dynamic dispatch through `IParsingRule`
    (cs/Markdown/Parsing/Rules/IParsingRule.cs) is a `Rule` datatype with a `match`.
- **Stack helper contracts.**
  - UnderscoreRule.Intersecting: its membership property is stated by
    `IntersectingMembers`.
  - UnderscoreRule.InsertByNodeIndex: its sorting and permutation properties are stated
    by `OrderByNodeIndexDescendingSorts`.
- **Unreachable branches.** UnderscoreRule.Close: the branch at
  cs/Markdown/ParsingRules/UnderscoreRule.cs:112-123 is modelled as written, and
  `SingleAfterNeverFires` shows it is never entered.
  NodeParsing.NodeParser.ParseInlineContent: the `else context.MoveForward()` fallback for
  a token no rule handles (cs/Markdown/Parsing/NodeParser.cs:84-87) is not modelled; the
  loop asserts that branch dead, and `DispatchByKind` shows every token has a rule.
- **Parallel files.** The older parallel files cs/Markdown/NodeParser.cs,
  cs/Markdown/ParsingRules/LinkRule.cs, cs/Markdown/ParsingRules/TextRule.cs,
  cs/Markdown/Nodes/LinkNode.cs, cs/Markdown/Nodes/DocumentNode.cs and
  cs/Markdown/Tokens/TokenType.cs are not part of this model. The pipeline above does not
  use them.
- **The `Token` class.** The model's `Token` holds a kind and a value, as the tokenizer
  and the rules use them.
- **Tests.** The unit tests in cs/Markdown/Tests are not restated one by one as concrete
  strings. Their shapes are covered by these general lemmas and contracts:
  `PlainParagraphHtml`, `PlainHeaderHtml`, `CleanClose`, `DigitsStayLiteral`,
  `IntersectionFlattens`, `EscapeRule.Apply`, `CloseUnclosedUnderscores` and `LinkAccepted`.
