# go-web-viewer in Dafny

go-web-viewer is a terminal web viewer. The user types a URL. The viewer
normalises the URL and fetches the page. It parses the page as HTML and
shows a plain-text rendering. The rendering is a title line, then every
heading and paragraph found after the `<body>` element. A status bar reports
how the load went. A history records each URL that loaded.

This project models that core and proves what it does:

- `strings.dfy` (module `Strings`) holds Go's `unicode.IsSpace` and
  `strings.TrimSpace`. It also holds a subsequence relation, which says where
  trimmed text comes from.
- `url.dfy` (module `Url`) holds `processURL`, the scheme normaliser.
- `dom.dfy` (module `Dom`):
  - the parsed tree as a `Node` datatype (elements, text and other nodes);
  - `extractText` as a method with a loop, specified by the recursive
    function `InnerText`;
  - a reference `RawText` that collects every character of text and trims
    nothing.
- `extract.dfy` (module `Extract`) holds the `traverse` closure of
  `displayContent` and its final formatting.
  - The three variables the closure captures (title, body flag, builder) are
    threaded through as a value, `Extraction`.
  - `VisitNode` is the tag switch, proved equal to the single step `Visit`.
  - `Traverse` is the recursive walk, proved equal to `Run`, a fold of
    `Visit` over the pre-order node list.
  - `Run` is proved equal to a reference stated without any walk: the last
    title wins, the body flag turns on once a body element appears, and the
    output is the segments of the nodes at or after it.
- `extract_properties.dfy` (module `ExtractProperties`) holds lemmas about
  that reference. It also works through documents with symbolic text.
- `viewer.dfy` (module `Viewer`):
  - the `Browser` class with the fields that `loadURL` and `displayContent`
    update;
  - a value-level `View` of the same state;
  - `Load`, the pure next-state function that `LoadURL` is proved against;
  - lemmas about a single load and about a whole sequence of loads.

The network fetch and the HTML parser are parameters of type
`string -> Outcome<...>`. An `Err` carries the message that Go's `%v` would
print. The model works on strings of characters, as the Go code works on
`string`.

One might expect the extracted text to be trimmed once, at the end. The
code instead trims at every level: `extractText` calls
`strings.TrimSpace` on every element it recurses into, before the text is
joined to its siblings. So whitespace at the edge of a nested element
disappears: `<p><b> a </b>b</p>` yields `ab`, not `a b`. The model follows
the code. `Dom.TrimmedAtEveryLevel` and `Dom.TrimmedOnceKeepsInnerSpace`
show the difference.

## Model

| member | source | states |
|---|---|---|
| Url.ProcessURL | main.go:94-99 | the result always names http or https; it equals the input exactly when the input names one, and is "https://" + input exactly when it does not; the input is always a suffix of the result |
| Url.ProcessURLIdempotent | main.go:94-99 | normalising a normalised URL changes nothing |
| Url.ProcessURLInjectiveWithoutScheme | main.go:95-96 | two scheme-less inputs with the same normalised URL are the same input |
| Url.BareHostGetsHttps | main.go:95-96 | a bare host gets "https://" in front |
| Url.SchemeKept | main.go:95-98 | URLs starting with "http://" or "https://" come back unchanged |
| Url.LookalikesPrefixed | main.go:95-96 | "http:/x" and upper-case "HTTP://x" are not schemes and get prefixed: the test is an exact, case-sensitive prefix test |
| Strings.SkipSpace | main.go:174 | the scan for the first non-whitespace index: everything it skips is whitespace, and it stops at the end or at a non-whitespace character |
| Strings.BackSpace | main.go:174 | the scan back from the end: everything it skips is whitespace, and it stops at the lower bound or after a non-whitespace character |
| Strings.TrimSpace | main.go:174 | the result has no whitespace at either edge, is no longer than the input, and is the input itself when the input has none |
| Strings.TrimSpaceInfix | main.go:174 | the trimmed text is a contiguous slice of the input, with only whitespace before and after it |
| Strings.TrimSpaceEmpty | main.go:174 | the trimmed text is empty exactly when the input is all whitespace |
| Strings.TrimSpaceOfMargins | main.go:174 | a core without edge whitespace between whitespace margins is exactly what trimming keeps |
| Strings.TrimSpaceSubsequence | main.go:174 | trimming only deletes characters |
| Dom.Content | main.go:167-173 | the children that can contribute text: a child is kept exactly when it is a text node or an element |
| Dom.InnerText | main.go:165-175 | the text of a node never has whitespace at either edge |
| Dom.ExtractText | main.go:165-175 | the loop over the children computes the inner text: text data appended, elements recursed into, anything else skipped, then trimmed |
| Dom.InnerTextSubsequence | main.go:165-175 | the inner text is a subsequence of all the node's text data in document order: characters are only dropped, never invented or reordered |
| Strings.VisibleConcat | main.go:169-171 | the non-whitespace characters of a concatenation are those of each part, in order |
| Strings.VisibleTrim | main.go:174 | trimming removes whitespace only: the non-whitespace characters survive, in order |
| Dom.InnerTextKeepsVisible | main.go:165-175 | trimming at every level deletes only whitespace: the inner text and all the node's text data hold the same non-whitespace characters in the same order |
| Dom.InnerTextWithoutSpace | main.go:165-175 | when the node's text data has no whitespace, the inner text is exactly all of it: trimming is the only loss |
| Dom.InnerTextIgnoresOther | main.go:167-173 | the inner text depends neither on the element's tag nor on its comment, doctype or other children |
| Dom.InnerTextOfText | main.go:167-174 | an element holding one text node has that text, trimmed |
| Dom.InnerTextOfOnlyElement | main.go:170-174 | an element whose only child is an element has that child's text unchanged |
| Dom.NestedMarkupFlattened | main.go:165-175 | `<h1>Hello <b>World</b></h1>` yields "Hello World" |
| Dom.TrimmedAtEveryLevel | main.go:171-174 | `<p><b> a </b>b</p>` yields "ab": the nested element is trimmed before it is joined |
| Dom.TrimmedOnceKeepsInnerSpace | main.go:174 | trimming that paragraph's raw text once would give "a b" instead |
| Extract.PreOrder | main.go:133-153 | a walk starts at the node itself |
| Extract.VisitNode | main.go:134-149 | the tag switch: title text stored, body flag set, heading and paragraph text written only while the flag is on, other nodes ignored |
| Extract.Traverse | main.go:133-153 | the recursive walk ends in the state of visiting the node and then its subtrees in pre-order |
| Extract.RunAppend | main.go:150-152 | walking two node lists in a row is walking their concatenation |
| Extract.RunIsReference | main.go:127-153 | the walk's title, flag and output equal the reference: last title, body element seen, segments from the first body element on |
| Extract.RenderPage | main.go:127-159 | the page is the title line, an empty line and the body text of the whole document |
| ExtractProperties.BodyEnteredConcat | main.go:138-139 | a concatenated list has entered the body exactly when one of its parts has |
| ExtractProperties.BodyEnteredIff | main.go:138-139 | the body flag reference holds exactly when some node is a body element |
| ExtractProperties.BodyFlagSticky | main.go:138-139 | once set, the body flag stays set for the rest of the walk |
| ExtractProperties.BodyFlagExactly | main.go:129-139 | after a walk the flag is on exactly when it was on before or a body element was visited |
| ExtractProperties.EmittedConcat | main.go:140-147 | the output of two lists in a row is the first's output then the second's, with the flag the first leaves behind |
| ExtractProperties.NothingBeforeBody | main.go:141-146 | until a body element is visited, nothing is written |
| ExtractProperties.EmittedAround | main.go:140-147 | the output, cut at any node: what comes before, that node's segment if the body was entered before it, then what follows; so segments appear in document order, each once |
| ExtractProperties.EmittedOne | main.go:140-147 | a single node writes its segment exactly when the flag is on |
| ExtractProperties.OwnSegmentFirst | main.go:133-152 | a node writes its own segment before anything its descendants write |
| ExtractProperties.NoBodyNoText | main.go:141-159 | a document without a body element shows only the title line |
| ExtractProperties.LastTitleIsLast | main.go:136-137 | the title is the inner text of the last title element in document order |
| ExtractProperties.LastTitleDefault | main.go:128 | without a title element the title stays empty |
| ExtractProperties.VisitNoRole | main.go:134-149 | a node with no role leaves the state unchanged |
| ExtractProperties.VisitBody | main.go:138-139 | a body element only sets the flag |
| ExtractProperties.RunOfTitle | main.go:136-137 | a title element holding text stores that text, trimmed |
| ExtractProperties.RunOfSkipped | main.go:140-147 | a heading or paragraph whose only child is a text node changes nothing outside the body (a nested title or body element inside a heading would still act) |
| ExtractProperties.RunOfHeading | main.go:140-143 | a heading inside the body writes its trimmed text in yellow bold between newlines |
| ExtractProperties.RunOfParagraph | main.go:144-147 | a paragraph inside the body writes its trimmed text between newlines |
| ExtractProperties.RunOfWrapperOne | main.go:150-152 | an element with no role passes the walk on to its only child |
| ExtractProperties.RunOfBodyOne | main.go:138-152 | a body element walks its child with the flag on |
| ExtractProperties.PageOfRun | main.go:156-159 | the page is assembled from the title and output of the walk from the start state |
| ExtractProperties.TitleHeadingParagraph | main.go:127-159 | a document with a title, a heading and a paragraph shows each, trimmed, in that order, with its markup |
| ExtractProperties.ParagraphInHeadSuppressed | main.go:144-147 | a paragraph in the head is not shown |
| ExtractProperties.ParagraphAfterBodyShown | main.go:138-147 | the flag is never reset: a paragraph after the closed body element is shown |
| ExtractProperties.HeadingInParagraphTwice | main.go:140-152 | a heading inside a paragraph is written twice: inside the paragraph's text, then as a heading |
| ExtractProperties.LaterTitleWins | main.go:136-137 | with two title elements, the later one is shown |
| ExtractProperties.EmptyTitle | main.go:136-137 | an empty title element gives an empty title |
| Viewer.Browser.constructor | main.go:27-33 | a new browser has an empty history and shows nothing, and its current URL is the last of its (empty) history |
| Viewer.Browser.DisplayContent | main.go:119-161 | only the page text changes: it becomes the page text of the parsed document, or the parser's message after "Error parsing HTML: " |
| Viewer.Browser.LoadURL | main.go:80-91 | the new state is the next state of the old one under Load |
| Viewer.FailedLoadKeepsPage | main.go:83-86 | a failed fetch changes only the status bar, to "Error: " and the message |
| Viewer.LoadHistory | main.go:87-88 | the history grows by the URL as typed when the fetch succeeds, and not at all otherwise |
| Viewer.LoadKeepsCurrentIsLast | main.go:87-88 | loading keeps the current URL the last entry of the history |
| Viewer.SuccessfulLoad | main.go:82-90 | the fetch is asked for a URL with a scheme; on success the page is the display of the fetched body, the current URL is the URL as typed, and the status says "Loaded: " and that URL even when parsing fails |
| Viewer.DisplayOutcomes | main.go:121-160 | a parsed body is shown as its page text, an unparsable one as the parser's message |
| Viewer.LoadsHistory | main.go:80-91 | over a sequence of loads, the history is the old history followed by exactly the URLs whose fetch succeeded, in order |
| Viewer.LoadsKeepCurrentIsLast | main.go:87-88 | over a sequence of loads, the current URL stays the last entry of the history |

## Left out

- fetchContent (main.go:102-116): the HTTP GET and the body read are I/O. They become the `fetch` parameter, which maps the normalised URL to a body or an error message.
- The HTML parser `html.Parse` is foreign code. It becomes the `parse` parameter. The model does not describe how the parser builds the tree, for example the implied html, head and body elements it inserts.
- Viewer.Browser.LoadURL: the intermediate "Loading..." status is set but is overwritten before the method returns. The state after the call does not show it. loadURL runs inside the URL field's Enter callback (main.go:36-41), on the user interface's event loop, and blocks that loop. Nothing is drawn before it returns, so "Loading..." never reaches the screen either.
- Viewer.Loads: a session of loads uses one `fetch` function throughout. This assumes the network answers each URL the same way every time. The result for a single load, `Load`, does not depend on this assumption.
- Viewer.Browser.DisplayContent: does not model `tview.TranslateANSI` or `ScrollToBeginning`. The stored page text is the string before ANSI translation, and the scroll position is not part of the state. Colour tags inside page text are not interpreted either.
- The scroll keys (main.go:44-66), the colour settings (main.go:69-74), the Enter-key callback (main.go:36-41), the grid layout and `Run` (main.go:178-190) and `main` are user-interface wiring. They compute nothing that the model could state.
- Go's strings are byte strings, and `strings.TrimSpace` decodes UTF-8. The model works on strings of characters, so invalid UTF-8 is not modelled.
- The error values that `fmt.Sprintf("%v", err)` prints are modelled as the message carried by `Err`.
