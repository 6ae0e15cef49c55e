# Code-block extraction for `check-code-block-syntax`

This project is a Dafny model of the code-block extraction engine behind the
`check-code-block-syntax` pre-commit hook. The hook reads a documentation
file, finds the code blocks embedded in it and hands each JSON or Python
block to a syntax checker. It then reports each error at its line in the
document. The model covers:

- `peek_ahead` (`src/hooks/common.py`): the cursor every scanner walks. It
  gives one `(index, line, next line)` triple per line. The last triple has
  no next line, and its index repeats the index of the triple before it.
- The Markdown scanner (`src/hooks/markdown.py`). It handles backtick and
  tilde fences of three or more characters. A fence is closed by a line
  that starts with at least the opener's run. A
  `[//]: # (check-code-block: ...)` comment attaches QA markers to the next
  block.
- The reStructuredText scanner (`src/hooks/restructuredtext.py`). It handles
  `code-block` and `sourcecode` directives and `::` literal blocks, with
  `consume_lines_up_to_content` skipping the options and blank lines. The
  content is the indented run that follows, dedented, with trailing blank
  lines removed. A sticky `highlight` directive supplies the syntax of blocks
  that name none.
- The AsciiDoc scanner (`src/hooks/asciidoc.py`). It handles `[x, lang]`
  headers followed by a dash-delimited listing, or by a paragraph that ends at
  a blank line. It also handles bare `----` listings under a sticky
  `:source-language:` attribute, and `// check-code-block:` markers.
- `check_block` (`src/hooks/check_code_block_syntax.py`). It picks a scanner
  by file suffix and skips blocks marked `syntax`. It routes the `json` and
  `python` labels to their checkers and shifts each reported line by the
  block's start.

Modules:

- `strings.dfy` holds the Python string operations the scanners use
  (`strip`, `lstrip`, `startswith`, `partition`, `split`, `lower`, slicing),
  each with the facts the proofs need.
- `common.dfy` holds the cursor, the block record and the result of a scan.
- `markdown.dfy`, `restructuredtext.dfy` and `asciidoc.dfy` hold one scanner
  each.
- `dispatch.dfy` holds `check_block`.

A document is its sequence of lines. A generator becomes a `Scan`: the
blocks it yields, in order, and whether it then raised. A raise is an
exhausted `next()`, or a string method called on `None`. The blocks yielded
before a raise are kept, because the checker loop consumes the generator
lazily and reports them before the exception escapes. Each scanner's loop is
a chain of turns. A turn starts at a line, yields at most one block and says
where the loop resumes. Each loop's behaviour is also proved against a
reference definition over the document's lines: "the first line that closes
the fence", "the first blank line followed by content", and so on.

## Model

| member | source | states |
|---|---|---|
| `Common.Emit` | src/hooks/common.py:18-22 | The `enumerate` loop plus the final yield: one triple per remaining line, with the line and its successor. The index is the line's own on every triple but the last. The last triple keeps the loop variable's value. |
| `Common.PeekAhead` | src/hooks/common.py:12-22 | One triple per line. Triple `k` holds line `k` as current and line `k + 1` as look-ahead, with index `k`. The last triple has no look-ahead and its index is that of the line before it (0 for a one-line text). An empty text gives no triples. |
| `Common.MarkerSetOfList` | src/hooks/markdown.py:59 | A marker list written as comma-separated items reads back as exactly those items, each stripped (`noqa, syntax` gives `noqa` and `syntax`): no marker is lost and none is invented. The same set comprehension is used at restructuredtext.py:113-116 and asciidoc.py:76-79. |
| `Markdown.MarkerCommentPayload` | src/hooks/markdown.py:57-59 | In a line starting with the marker-comment prefix, the markers come from the text after the prefix's own `check-code-block`, with `:` and `)` stripped from both ends. |
| `Markdown.RunLength` | src/hooks/markdown.py:68 | `len(line) - len(line.lstrip(ch))` is the length of the line's leading run of `ch`: all copies up to it, no copy right after it. |
| `Markdown.FenceCloser` | src/hooks/markdown.py:63-74 | A line opens a fence exactly when it starts with three backticks or three tildes. The closer is the opener's whole leading run of that character: at least three long, not followed by another copy. |
| `Markdown.ClosesIffLeadingRun` | src/hooks/markdown.py:81 | A line closes the fence exactly when it starts with at least as many copies of the fence character as the opener. Trailing whitespace does not matter; indentation or the other fence character prevents the match. |
| `Markdown.FenceClosesIffSameCharAtLeastAsLong` | src/hooks/markdown.py:63-81 | Between two fence lines, the later closes the earlier exactly when both use the same character and its run is at least as long. |
| `Markdown.FenceSyntaxShape` | src/hooks/markdown.py:77 | A fence's syntax label is no longer than the opener, has no ASCII capital, and has no whitespace at either end. |
| `Markdown.FenceSyntaxOfInfo` | src/hooks/markdown.py:77 | The syntax of an opener is its info string stripped and lowercased, whatever run of backticks and tildes precedes it; a mixed run such as two backticks and a tilde is removed whole. |
| `Markdown.CollectFence` | src/hooks/markdown.py:80-83 | The content loop keeps one line per triple it takes. |
| `Markdown.ScanFrom` | src/hooks/markdown.py:55-91 | Every block uses an opener and a closer line, so a scan yields at most half as many blocks as there are lines. |
| `Markdown.GetCodeBlocks` | src/hooks/markdown.py:52-91 | The blocks of a Markdown document come in strictly increasing start order, each starting on a line of the document. |
| `Markdown.ScanOrdered` | src/hooks/markdown.py:55-91 | From any line and any captured markers, the scan yields its blocks in strictly increasing start order, each starting at or after that line. |
| `Markdown.SkipTurn` | src/hooks/markdown.py:56-74 | A marker comment or a line that opens no fence yields nothing; the scan goes on at the next line, with the comment's markers replacing the captured ones. |
| `Markdown.FenceTurn` | src/hooks/markdown.py:62-91 | An opener whose content loop stops before the end of the document yields one block starting on the next line, with the opener's syntax and the captured markers; the scan resumes after the closer, which lies after the opener, with no markers. |
| `Markdown.FenceCollectsUpTo` | src/hooks/markdown.py:80-83 | For an opener whose first closing line is `j`, the content loop stops at `j` with exactly the lines strictly between the two. |
| `Markdown.CollectFenceFindsCloser` | src/hooks/markdown.py:80-83 | The content loop stops at the first later line that closes the fence, or at the end of the document. It collects exactly the lines before that point. |
| `Markdown.FencedBlock` | src/hooks/markdown.py:62-91 | An opener at `k` whose first closing line is `j` yields one block. The block starts at `k + 1` and carries the opener's stripped, lowercased syntax, the lines strictly between the two, and the captured markers. The scan resumes after the closer with no markers. |
| `Markdown.FenceAborts` | src/hooks/markdown.py:80-86 | An opener whose content loop runs to the end of the document yields no block: the `next()` for the closer raises before the yield. |
| `Markdown.UnterminatedFenceAborts` | src/hooks/markdown.py:81-86 | A fence that is never closed yields nothing and the scan raises: the closer is taken with `next()` on an exhausted cursor. |
| `Markdown.QuietLinesSkipped` | src/hooks/markdown.py:72-74 | Lines that are neither marker comments nor fence openers are passed over, and the captured markers are left alone. |
| `Markdown.MarkersReachNextFence` | src/hooks/markdown.py:57-60 | A marker comment's markers replace the captured ones and reach the next fence opener across any number of quiet lines. |
| `Markdown.NoFenceNoBlocks` | src/hooks/markdown.py:55-74 | A document without fence openers yields no blocks and finishes without raising. |
| `RestructuredText.Classify` | src/hooks/restructuredtext.py:101-141 | A `.. ` line never takes the literal-block branch, and a block it opens allows options. A literal block opens exactly on a non-directive line ending in `::` followed by a blank line, with no syntax of its own. A `::` line with no line after it raises. |
| `RestructuredText.DirectivesRecognised` | src/hooks/restructuredtext.py:102-124 | Each directive kind is recognised exactly by its own test, in the source's order: a `.. ` line whose rest starts with `highlight::` is a highlight directive; failing that, one starting with `check-code-block: ` is a marker comment; failing both, one starting with `code-block::` or `sourcecode::` opens a block that allows options. Both directions hold for each. |
| `RestructuredText.OtherLinesPlain` | src/hooks/restructuredtext.py:130-141 | Every other line is ignored: a `.. ` line naming none of the handled directives, a `::` line followed by text, and a line that neither starts with `.. ` nor ends in `::`. |
| `RestructuredText.HighlightDirective` | src/hooks/restructuredtext.py:105-108 | `.. highlight:: X`, with any blank run after the dots, sets the highlight syntax to `X` stripped and lowercased. |
| `RestructuredText.MarkerCommentLine` | src/hooks/restructuredtext.py:112-117 | `.. check-code-block: a, b` captures the comma-separated markers, each stripped. |
| `RestructuredText.CodeBlockDirective` | src/hooks/restructuredtext.py:119-126 | `.. code-block:: X` and `.. sourcecode:: X` open a block that allows options, with syntax `X` stripped and lowercased. |
| `RestructuredText.ConsumeUpToContent` | src/hooks/restructuredtext.py:19-56 | When it returns it has taken at least one triple and reports that triple's index. A non-zero indent is reported only at a blank line followed by a non-blank line indented at least that much. |
| `RestructuredText.ConsumeTurn` | src/hooks/restructuredtext.py:38-56 | One pass of the loop: it returns at the last line or at a blank line before content, with the indent of `BlockIndent`. Otherwise it moves on, and an option line updates the options' indent. |
| `RestructuredText.ConsumeFindsContent` | src/hooks/restructuredtext.py:19-56 | It stops at the first stopping line from where it starts. The indent is 0 at the end of the document or when the content is unindented or indented less than the options. Otherwise it is the last option line's indent, or failing that the content's. |
| `RestructuredText.CollectIndented` | src/hooks/restructuredtext.py:156-161 | The content loop takes at least one line, keeps one dedented line per triple taken, and its first line is the first line taken minus the indent. |
| `RestructuredText.CollectIndentedFindsEnd` | src/hooks/restructuredtext.py:156-161 | The content loop takes exactly the lines through the first line that is last or is followed by a non-blank line indented less than the block. It drops the first `indent` characters of each. |
| `RestructuredText.TrimTrailingBlank` | src/hooks/restructuredtext.py:164-165 | The result is a prefix of the input. Everything removed is blank, and the result is empty or ends in a non-blank line. |
| `RestructuredText.TurnAt` | src/hooks/restructuredtext.py:101-171 | A turn that does not raise moves the loop forward. |
| `RestructuredText.OpenBlock` | src/hooks/restructuredtext.py:143-171 | A block branch yields nothing, or one block. That block starts after the opener and before the resume point, and its content is non-empty with non-blank first and last lines. |
| `RestructuredText.DirectiveOnLastLineAborts` | src/hooks/restructuredtext.py:36-43 | A block opener on the last line raises: `consume_lines_up_to_content` calls `next()` on an exhausted cursor. |
| `RestructuredText.OpenBlockAfterOptions` | src/hooks/restructuredtext.py:143-171 | When `consume_lines_up_to_content` stops at blank line `s` with a non-zero indent and the content ends at `e`, the block branch yields one block at `s + 1` with the directive's syntax or else the highlight syntax, the dedented lines `s + 1` through `e` with trailing blanks removed, and the captured markers; the loop resumes after `e` with the markers reset. |
| `RestructuredText.MalformedBlockSkipped` | src/hooks/restructuredtext.py:143-148 | A block whose indent comes out 0 yields nothing. The scan resumes after the stopping line with the markers reset and the highlight syntax kept. |
| `RestructuredText.IndentedBlockYielded` | src/hooks/restructuredtext.py:150-171 | A well-formed block yields one block starting at the line after the stopping blank line. It takes the directive's syntax or else the highlight syntax, and its content is the dedented lines through the end line with trailing blanks removed. It carries the captured markers. The scan resumes after the end line with the markers reset. |
| `RestructuredText.MalformedBlockDropped` | src/hooks/restructuredtext.py:143-148 | The same as MalformedBlockSkipped, seen from the opener's line. |
| `RestructuredText.IndentedBlock` | src/hooks/restructuredtext.py:119-171 | The same as IndentedBlockYielded, seen from the opener's line, for directives and literal blocks alike. |
| `RestructuredText.IndentedContentShape` | src/hooks/restructuredtext.py:150-165 | A well-formed block's content is never empty, and its first and last lines are not blank. |
| `RestructuredText.ScanFrom` | src/hooks/restructuredtext.py:100-171 | Every block is opened by a line of its own, so a scan yields no more blocks than it has lines left. |
| `RestructuredText.GetCodeBlocks` | src/hooks/restructuredtext.py:100-171 | The blocks of a reStructuredText document come in strictly increasing start order within the document, and each has non-empty content whose first and last lines are not blank. |
| `RestructuredText.FirstBlock` | src/hooks/restructuredtext.py:167 | A turn that yields a block makes that block the first one of the scan from that line. |
| `RestructuredText.ScanOrdered` | src/hooks/restructuredtext.py:101-171 | Every scan yields its blocks in strictly increasing start order, within the lines scanned. Each block has non-empty content whose first and last lines are not blank. |
| `AsciiDoc.Classify` | src/hooks/asciidoc.py:67-106 | A line taken as a dash line closes on its own right-stripped text, which starts with four dashes. |
| `AsciiDoc.HeadersRecognised` | src/hooks/asciidoc.py:82 | A line is a block header exactly when it starts with `[` and contains a comma. |
| `AsciiDoc.DashesRecognised` | src/hooks/asciidoc.py:98-101 | A line is a dash line exactly when, right-stripped, it starts with `----`. |
| `AsciiDoc.SourceLanguageLine` | src/hooks/asciidoc.py:69-72 | `:source-language: X` sets the source language to `X` stripped and lowercased. |
| `AsciiDoc.IsQaComment` | src/hooks/asciidoc.py:75 | A line is a marker comment exactly when it starts with `//` itself and the text after those two characters, left-stripped, starts with `check-code-block:`. An indented comment is never one: the comment test strips the line, but the two characters are dropped from the unstripped line. |
| `AsciiDoc.IndentedCommentIgnored` | src/hooks/asciidoc.py:75 | For a line that starts with whitespace and then `//`, the text after its first two characters, left-stripped, starts with `/`, so it cannot start with `check-code-block:`. A line that starts with text is its own left-stripped form. |
| `AsciiDoc.SlashAfterDrop` | src/hooks/asciidoc.py:75 | When a line's `//` follows at least one whitespace character, `line[2:]` left-stripped starts with the second slash or the first, never with other text. |
| `AsciiDoc.QaCommentLine` | src/hooks/asciidoc.py:75-80 | `//`, a blank run, then `check-code-block:` captures the comma-separated markers after it, each stripped. |
| `AsciiDoc.HeaderLine` | src/hooks/asciidoc.py:82-84 | The syntax of `[a,b,...]` is the field after the first comma, with `]` and spaces stripped from both ends, lowercased. |
| `AsciiDoc.HeaderSyntax` | src/hooks/asciidoc.py:84 | A header's syntax label has no ASCII capital, and neither `]` nor a space at either end. |
| `AsciiDoc.HeaderSyntaxOfFields` | src/hooks/asciidoc.py:84 | For a header `first,second` or `first,second,...`, the syntax is `second` with `]` and spaces stripped and lowercased, whatever the first field and the later fields hold. |
| `AsciiDoc.SkipBlank` | src/hooks/asciidoc.py:85-87 | The blank-skipping loop stops at the first non-blank line from where it starts, or at the end of the document. |
| `AsciiDoc.HeaderSkipsTo` | src/hooks/asciidoc.py:85-87 | Given blank lines up to `q` and a non-blank or dash line at `q`, the loop stops at `q`. |
| `AsciiDoc.CollectContent` | src/hooks/asciidoc.py:109-118 | The content loop takes at least one triple, and keeps at most one line per triple taken. |
| `AsciiDoc.CollectContentFindsEnd` | src/hooks/asciidoc.py:109-118 | The content is exactly the lines before the first line that ends the block, or up to the end of the document. A block ends at the exact closing dash string, or at a blank line when there is none. The scan resumes after the ending line. |
| `AsciiDoc.TurnAt` | src/hooks/asciidoc.py:67-123 | A turn that does not raise moves the loop forward and yields at most one block, which starts within the lines it took. |
| `AsciiDoc.HeaderBlock` | src/hooks/asciidoc.py:82-96 | A header's branch either raises or yields exactly one block, starting no earlier than the header line and before the point where the scan resumes. |
| `AsciiDoc.ContentBlock` | src/hooks/asciidoc.py:108-123 | The content loop and the yield never raise, and they resume after the first content line. They yield exactly one block. Its start is the first content line `pos`, except when `pos` is the document's last line and not its first: then the start is `pos - 1`, the index the cursor repeats on its last triple. |
| `AsciiDoc.ScanFrom` | src/hooks/asciidoc.py:66-123 | Every block is opened by a line of its own, so a scan yields no more blocks than it has lines left. |
| `AsciiDoc.GetCodeBlocks` | src/hooks/asciidoc.py:63-123 | The blocks of an AsciiDoc document come in strictly increasing start order, each starting on a line of the document. |
| `AsciiDoc.ScanOrdered` | src/hooks/asciidoc.py:67-123 | Every scan yields its blocks in strictly increasing start order, within the lines scanned. |
| `AsciiDoc.DashesWithoutLanguageIgnored` | src/hooks/asciidoc.py:98-106 | A dash line with no source language set is ordinary text. |
| `AsciiDoc.BareListing` | src/hooks/asciidoc.py:98-123 | A bare listing under a source language yields the lines up to the exact matching dash line, so dash runs of other lengths are content. The block starts at the first content line and takes the source language. The scan resumes after the closer with the markers reset. |
| `AsciiDoc.BareListingOnLastLineAborts` | src/hooks/asciidoc.py:98-102 | A bare listing opened on the last line raises: `next()` on an exhausted cursor. |
| `AsciiDoc.HeaderWithoutContentAborts` | src/hooks/asciidoc.py:85-92 | A header followed only by blank lines raises: `rstrip` is called on a `None` look-ahead. |
| `AsciiDoc.ListingAfterHeader` | src/hooks/asciidoc.py:85-96 | After blank lines, a dash line that is not last becomes the closer, and the content starts on the line after it. |
| `AsciiDoc.HeaderReachesListing` | src/hooks/asciidoc.py:85-96 | After blank lines, a dash line that is not last makes the header's branch the content loop from the line after it, with the right-stripped dash line as the closer. |
| `AsciiDoc.ContentBlockFindsEnd` | src/hooks/asciidoc.py:108-123 | Given the first line `e` that ends the block, the content loop and the yield give one block of the lines before `e` at the cursor's index, reset the markers, keep the source language and resume after `e`. |
| `AsciiDoc.HeaderWithListing` | src/hooks/asciidoc.py:82-123 | A header, blank lines, then a dash listing yields the lines between the dash line and its exact match. The block starts at the first content line with the header's syntax and markers, and the source language is kept. |
| `AsciiDoc.HeaderWithParagraph` | src/hooks/asciidoc.py:82-123 | A header, blank lines, then text yields the paragraph up to the next blank line, starting at its first line. |
| `AsciiDoc.HeaderWithDashesAtEnd` | src/hooks/asciidoc.py:88-120 | A header whose only following text is a dash line on the last line yields an empty block at the index before that line: the dash line is both opener and closer. |
| `Dispatch.DialectFor` | src/hooks/check_code_block_syntax.py:18-27 | `.rst` selects reStructuredText, `.md` and `.markdown` select Markdown, `.adoc` and `.asciidoc` select AsciiDoc, and every other suffix is unsupported. |
| `Dispatch.Blocks` | src/hooks/check_code_block_syntax.py:19-30 | Whichever scanner the suffix selects, the blocks the checking loop receives come in strictly increasing start order within the document. |
| `Dispatch.Route` | src/hooks/check_code_block_syntax.py:34-39 | Only the exact labels `json` and `python` reach a checker; `json` reaches the JSON checker and `python` the Python checker. |
| `Dispatch.CheckOne` | src/hooks/check_code_block_syntax.py:31-43 | A block is reported exactly when it is not marked `syntax`, its label has a checker, and that checker finds an error in the joined content. The report is the checker's line plus the block's start, and the checker's column. |
| `Dispatch.Diagnose` | src/hooks/check_code_block_syntax.py:30-43 | At most one report per block. |
| `Dispatch.DiagnoseEmpty` | src/hooks/check_code_block_syntax.py:30-43 | There are no reports exactly when no block is reported: every block is either suppressed, unrouted, or passes its checker. |
| `Dispatch.CheckBlock` | src/hooks/check_code_block_syntax.py:18-45 | Unsupported exactly for an unknown suffix. Otherwise every yielded block is examined, and the outcome is a crash exactly when the scanner raises. A finished run returns 1 exactly when some block was reported, and 0 otherwise. |
| `Dispatch.DiagnoseAppend` | src/hooks/check_code_block_syntax.py:30-43 | An error in one block does not stop the loop: the reports for two runs of blocks are those of each, in order. |
| `Dispatch.DiagnoseCons` | src/hooks/check_code_block_syntax.py:30-43 | The reports for a block followed by others are that block's report, if any, then the others' reports. |
| `Dispatch.DiagnoseOne` | src/hooks/check_code_block_syntax.py:30-43 | A single block gives its own report, if any. |
| `Dispatch.OnlySyntaxMarkerSuppresses` | src/hooks/check_code_block_syntax.py:32-33 | The marker `syntax` suppresses a block. No other marker set changes the outcome. |
| `Dispatch.SupportedMarkersDoNotSuppress` | src/hooks/common.py:6-9 | The supported markers `noqa` and `ignore-syntax` do not suppress a block. |
| `Dispatch.OtherLabelsPass` | src/hooks/check_code_block_syntax.py:34-39 | Blocks labelled anything other than exactly `json` or `python` are never reported. |
| `Dispatch.MirroredLine` | src/hooks/check_code_block_syntax.py:42 | When every content line of a block is a document line (moved by a fixed shift, with a fixed indent dropped), a checker line inside the content plus the block's start names the document line holding that content line. |
| `Dispatch.VerbatimReport` | src/hooks/check_code_block_syntax.py:34-43 | For a block whose content lines are document lines verbatim, a report inside the content names the document line that holds the erroneous line. |
| `Dispatch.DedentedReport` | src/hooks/check_code_block_syntax.py:34-43 | The same for a block whose content lines are document lines with the indent dropped. |
| `Dispatch.SliceMirrors` | src/hooks/markdown.py:80-83 | A block whose content is the run of document lines from its start holds each of them verbatim. |
| `Dispatch.DedentedLine` | src/hooks/restructuredtext.py:156-165 | Content line `r` of any prefix of the dedented body from line `s + 1` (the trimmed content is one) is document line `s + 1 + r` with the indent dropped. |
| `Dispatch.MarkdownBlockMirrors` | src/hooks/markdown.py:78-88 | A fenced block's content lines are the document lines after its start, verbatim. |
| `Dispatch.MarkdownReportsDocumentLine` | src/hooks/check_code_block_syntax.py:42-43 | For a closed Markdown fence, an error the checker places inside the block is reported at the document's 1-based number of the line holding the erroneous text. |
| `Dispatch.RstBlockMirrors` | src/hooks/restructuredtext.py:150-167 | A well-formed reStructuredText block's content lines are the document lines after its start, with the block's indent dropped. |
| `Dispatch.DedentedMirrors` | src/hooks/restructuredtext.py:156-165 | A block starting after the stopping blank line whose content is a prefix of the dedented body, as the trimmed content is, holds each body line dedented. |
| `Dispatch.RstReportsDocumentLine` | src/hooks/check_code_block_syntax.py:42-43 | For a well-formed reStructuredText block, an error the checker places inside the block is reported at the document's 1-based number of the line whose dedented text is the erroneous line. |
| `Dispatch.AsciiDocBlockMirrors` | src/hooks/asciidoc.py:98-120 | A bare listing's content lines are the document lines after its start, or after the line after its start when the content starts on the last line. |
| `Dispatch.AsciiDocReportsDocumentLine` | src/hooks/check_code_block_syntax.py:42-43 | For a bare AsciiDoc listing, an error the checker places inside the block is reported at the document's 1-based number of the erroneous line, except when the content starts on the document's last line: then the reported number is one less. |

## Left out

- `main()` and the command-line handling: reading `sys.argv`, checking that
  the file exists, decoding UTF-8, the `.rst`-only suffix gate, printing, and
  the exit status. These are I/O.
- `pathlib` suffix extraction: `check_block` receives the suffix as a string.
- `text.splitlines()`: a document is given as its lines. The line-break
  characters Python splits on are not modelled.
- The JSON and Python syntax checkers (`src/hooks/syntax/`) are parameters of
  `check_block`. Each maps a block's text to the first error's 1-based line
  and column, or to nothing. Their internals call into the standard library
  and are not part of this model.
- The exception types are not kept apart: `StopIteration`, the `RuntimeError`
  it becomes inside a generator, and `AttributeError` on `None` all become
  "the scan raised". `NotImplementedError` for an unknown suffix is the
  `Unsupported` outcome.
- Python's `str.strip` family, and the `strip()` behind every blank-line
  test, remove all Unicode whitespace. The model's whitespace is the space
  and the tab only. `splitlines` removes the line breaks, but other
  whitespace characters survive inside a line: U+00A0 (no-break space),
  U+1680, U+2000 to U+200A, U+202F, U+205F, U+3000, and the control
  character U+001F. The model treats them as text. So a line indented with
  them has a smaller indent (`Strings.Indent`) than Python computes, a line
  holding only them is not blank, and a label surrounded by them keeps them
  after stripping. `str.lower` is modelled for ASCII letters only.
- The `block_syntax_names` sets are declared in each scanner but not used by
  the scanning code, so they are not modelled.
- `src/hooks/verify_consistent_pyproject_toml_python_requirements.py` is a
  separate hook and is not part of this model.
- RestructuredText.CollectIndented: its contract gives only lengths and the
  first line. The exact content it collects is stated separately by
  RestructuredText.CollectIndentedFindsEnd.
- AsciiDoc.Classify: its contract states only the dash-line branch. The
  other branches are stated by the recognition lemmas (HeadersRecognised,
  DashesRecognised, SourceLanguageLine, QaCommentLine, HeaderLine).

Where the code differs from its docstrings or from what its comments describe,
the model follows the code:

- The AsciiDoc docstring gives starts 6, 12 and 19 for its example. The code
  gives 6, 13 and 20. For a header block it takes the dash line and then one
  more triple, so the start is the first content line's index, as
  `AsciiDoc.HeaderWithListing` states.
- An unterminated Markdown fence does not yield its partial content. Taking
  the missing closer with `next()` raises first (`Markdown.UnterminatedFenceAborts`).
- Suppression tests the literal marker `syntax`. The supported markers
  `noqa` and `ignore-syntax` do not suppress a block
  (`Dispatch.SupportedMarkersDoNotSuppress`).
- The reported line is the checker's 1-based line plus the block's 0-based
  start, with no correction. Because every scanner's start is the index of
  the first content line, that sum is the document's 1-based line
  (`Dispatch.MarkdownReportsDocumentLine`, `Dispatch.RstReportsDocumentLine`,
  `Dispatch.AsciiDocReportsDocumentLine`). The exception is an AsciiDoc
  block whose first content line is the document's last line. There the cursor's index lags by
  one (`Common.PeekAhead`), so the start, and the reported line, is one less
  (`AsciiDoc.ContentBlock`, `AsciiDoc.HeaderWithDashesAtEnd`).
- The AsciiDoc comment test strips the line before looking for `//` but
  drops the first two characters of the unstripped line before looking for
  `check-code-block:`. An indented `// check-code-block:` comment therefore
  never captures markers (`AsciiDoc.IsQaComment`).
