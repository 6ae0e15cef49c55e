/** `check_block` (src/hooks/check_code_block_syntax.py): picks the scanner
    by file suffix, runs every block it yields past the QA markers and the
    syntax checkers, and turns the checkers' positions into document lines.

    The JSON and Python checkers are parameters: each maps a block's text
    to the 1-based line and column of its first syntax error, or `None`. */
module Dispatch {
  import opened Strings
  import opened Common
  import RestructuredText
  import Markdown
  import AsciiDoc

  /** The markup languages with a scanner. */
  datatype Dialect = Rst | Md | Adoc

  /** A syntax checker: the position of the first error in a text, if any. */
  type Checker = string -> Option<(int, int)>

  const Success: int := 0
  const Failure: int := 1

  /** The scanner for a file suffix, tried in the source's order. */
  function DialectFor(suffix: string): (d: Option<Dialect>)
    ensures d == Some(Rst) <==> suffix in RestructuredText.FileExtensions
    ensures d == Some(Md) <==> suffix in Markdown.FileExtensions
    ensures d == Some(Adoc) <==> suffix in AsciiDoc.FileExtensions
    ensures d.None? <==> suffix !in RestructuredText.FileExtensions + Markdown.FileExtensions + AsciiDoc.FileExtensions
  {
    if suffix in RestructuredText.FileExtensions then Some(Rst)
    else if suffix in Markdown.FileExtensions then Some(Md)
    else if suffix in AsciiDoc.FileExtensions then Some(Adoc)
    else None
  }

  /** The scan the dialect's `get_code_blocks` performs: whichever scanner
      is chosen, its blocks come in document order. */
  function Blocks(d: Dialect, lines: seq<string>): (scan: Scan)
    ensures InOrderWithin(scan.blocks, 0, |lines|)
  {
    match d
    case Rst => RestructuredText.GetCodeBlocks(lines)
    case Md => Markdown.GetCodeBlocks(lines)
    case Adoc => AsciiDoc.GetCodeBlocks(lines)
  }

  /** The text a checker receives: the content lines joined with newlines. */
  function Text(b: Block): string {
    Join(b.content, "\n")
  }

  /** The checker a syntax label is routed to: only the exact labels
      "json" and "python" have one, and each reaches its own checker. */
  function Route(syntax: string, json: Checker, python: Checker): (c: Option<Checker>)
    ensures c.Some? <==> syntax in {"json", "python"}
    ensures syntax == "json" ==> c == Some(json)
    ensures syntax == "python" ==> c == Some(python)
  {
    if syntax == "json" then Some(json)
    else if syntax == "python" then Some(python)
    else None
  }

  /** A syntax error found in a block, placed in the document: the
      checker's line plus the block's start, the checker's column, and the
      block's syntax label. */
  datatype Diagnostic = Diagnostic(line: int, column: int, syntax: string)

  /** One pass of the loop body. */
  function CheckOne(b: Block, json: Checker, python: Checker): (r: Option<Diagnostic>)
    ensures r.Some? <==> "syntax" !in b.markers && Route(b.syntax, json, python).Some?
                         && Route(b.syntax, json, python).value(Text(b)).Some?
    ensures r.Some? ==> var (line, column) := Route(b.syntax, json, python).value(Text(b)).value;
                        r.value == Diagnostic(line + b.start, column, b.syntax)
  {
    if "syntax" in b.markers then None
    else
      match Route(b.syntax, json, python)
      case None => None
      case Some(check) =>
        match check(Text(b))
        case None => None
        case Some((line, column)) => Some(Diagnostic(line + b.start, column, b.syntax))
  }

  /** The diagnostic one block contributes, if any. */
  function Found(b: Block, json: Checker, python: Checker): seq<Diagnostic> {
    match CheckOne(b, json, python)
    case None => []
    case Some(d) => [d]
  }

  /** The diagnostics for a sequence of blocks, in order. */
  function Diagnose(blocks: seq<Block>, json: Checker, python: Checker): (ds: seq<Diagnostic>)
    ensures |ds| <= |blocks|
  {
    if |blocks| == 0 then []
    else Found(blocks[0], json, python) + Diagnose(blocks[1..], json, python)
  }

  /** There are no diagnostics exactly when no block is reported. */
  lemma {:induction false} DiagnoseEmpty(blocks: seq<Block>, json: Checker, python: Checker)
    decreases |blocks|
    ensures Diagnose(blocks, json, python) == [] <==> forall i :: 0 <= i < |blocks| ==> CheckOne(blocks[i], json, python).None?
  {
    if |blocks| > 0 {
      DiagnoseEmpty(blocks[1..], json, python);
      assert forall i :: 1 <= i < |blocks| ==> blocks[i] == blocks[1..][i - 1];
    }
  }

  /** What `check_block` does: raises for an unsupported suffix; otherwise
      reports the diagnostics of every block the scanner yields and either
      returns the exit code or lets the scanner's exception escape after
      the diagnostics of the blocks yielded before it. */
  datatype Outcome = Unsupported | Crashed(diagnostics: seq<Diagnostic>) | Finished(code: int, diagnostics: seq<Diagnostic>)

  function CheckBlock(suffix: string, lines: seq<string>, json: Checker, python: Checker): (o: Outcome)
    ensures o.Unsupported? <==> DialectFor(suffix).None?
    ensures !o.Unsupported? ==>
              var scan := Blocks(DialectFor(suffix).value, lines);
              && o.diagnostics == Diagnose(scan.blocks, json, python)
              && (o.Crashed? <==> scan.aborted)
    ensures o.Finished? ==>
              var scan := Blocks(DialectFor(suffix).value, lines);
              && (o.code == Success || o.code == Failure)
              && (o.code == Failure <==> exists i :: 0 <= i < |scan.blocks| && CheckOne(scan.blocks[i], json, python).Some?)
  {
    match DialectFor(suffix)
    case None => Unsupported
    case Some(d) =>
      var scan := Blocks(d, lines);
      DiagnoseEmpty(scan.blocks, json, python);
      var ds := Diagnose(scan.blocks, json, python);
      if scan.aborted then Crashed(ds)
      else Finished(if ds == [] then Success else Failure, ds)
  }

  // ---------------------------------------------------------------------
  // Properties of the loop.

  /** Every block is examined: an error in one block does not stop the
      loop, so the diagnostics of two runs of blocks are those of each. */
  lemma {:induction false} DiagnoseAppend(a: seq<Block>, b: seq<Block>, json: Checker, python: Checker)
    decreases |a|
    ensures Diagnose(a + b, json, python) == Diagnose(a, json, python) + Diagnose(b, json, python)
  {
    if |a| > 0 {
      var rest := a[1..];
      DiagnoseAppend(rest, b, json, python);
      assert (a + b)[0] == a[0] && (a + b)[1..] == rest + b;
      Regroup(Found(a[0], json, python), Diagnose(rest, json, python), Diagnose(b, json, python),
              Diagnose(a + b, json, python), Diagnose(a, json, python));
    } else {
      assert a + b == b;
    }
  }

  /** `f + (front + back)` is `(f + front) + back`. */
  lemma Regroup<T>(f: seq<T>, front: seq<T>, back: seq<T>, whole: seq<T>, left: seq<T>)
    requires whole == f + (front + back) && left == f + front
    ensures whole == left + back
  {
  }

  /** The diagnostics of a block followed by others. */
  lemma DiagnoseCons(x: Block, rest: seq<Block>, json: Checker, python: Checker)
    ensures Diagnose([x] + rest, json, python) == Found(x, json, python) + Diagnose(rest, json, python)
  {
    assert ([x] + rest)[0] == x;
    assert ([x] + rest)[1..] == rest;
  }

  /** A single block yields its own diagnostic, if any. */
  lemma DiagnoseOne(b: Block, json: Checker, python: Checker)
    ensures Diagnose([b], json, python) == if CheckOne(b, json, python).Some? then [CheckOne(b, json, python).value] else []
  {
    assert [b][1..] == [];
  }

  /** Only the marker "syntax" suppresses a block: any other marker set,
      "noqa" and "ignore-syntax" included, leaves the block checked. */
  lemma OnlySyntaxMarkerSuppresses(b: Block, json: Checker, python: Checker)
    ensures "syntax" in b.markers ==> CheckOne(b, json, python).None?
    ensures "syntax" !in b.markers ==> CheckOne(b, json, python) == CheckOne(b.(markers := {}), json, python)
  {
  }

  /** The supported QA markers themselves do not suppress a block. */
  lemma SupportedMarkersDoNotSuppress(b: Block, json: Checker, python: Checker)
    requires b.markers <= SupportedQaMarkers
    ensures CheckOne(b, json, python) == CheckOne(b.(markers := {}), json, python)
  {
    assert "syntax" !in SupportedQaMarkers;
  }

  /** Labels other than exactly "json" and "python", such as "py" or
      "json-object", are never checked. */
  lemma OtherLabelsPass(b: Block, json: Checker, python: Checker)
    requires b.syntax != "json" && b.syntax != "python"
    ensures CheckOne(b, json, python).None?
  {
  }

  // ---------------------------------------------------------------------
  // The reported line is the document line holding the error.

  /** The checker's 1-based line falls inside the block's content. */
  predicate WithinContent(b: Block, d: Diagnostic) {
    1 <= d.line - b.start <= |b.content|
  }

  /** Content line `r` of the block is the document line `b.start + shift + r`
      with its first `indent` characters dropped. */
  predicate Mirrors(b: Block, lines: seq<string>, shift: int, indent: nat) {
    forall r :: 0 <= r < |b.content| ==>
      0 <= b.start + shift + r < |lines| && Drop(lines[b.start + shift + r], indent) == b.content[r]
  }

  /** A report on the block that falls inside its content names, once
      moved by `shift`, the 0-based document line that holds the erroneous
      content line verbatim. */
  predicate ReportsVerbatim(b: Block, lines: seq<string>, shift: int, json: Checker, python: Checker) {
    var d := CheckOne(b, json, python);
    d.Some? && WithinContent(b, d.value) ==>
      && 0 <= d.value.line - 1 + shift < |lines|
      && lines[d.value.line - 1 + shift] == b.content[d.value.line - b.start - 1]
  }

  /** The same for a block whose content is the document dedented by `indent`. */
  predicate ReportsDedented(b: Block, lines: seq<string>, indent: nat, json: Checker, python: Checker) {
    var d := CheckOne(b, json, python);
    d.Some? && WithinContent(b, d.value) ==>
      && 0 <= d.value.line - 1 < |lines|
      && Drop(lines[d.value.line - 1], indent) == b.content[d.value.line - b.start - 1]
  }

  /** When a block mirrors the document, a line number inside its content
      names the document line (1-based, moved by `shift`) holding that line. */
  lemma MirroredLine(b: Block, lines: seq<string>, shift: int, indent: nat, line: int)
    requires Mirrors(b, lines, shift, indent)
    requires 1 <= line - b.start <= |b.content|
    ensures 0 <= line - 1 + shift < |lines|
    ensures Drop(lines[line - 1 + shift], indent) == b.content[line - b.start - 1]
  {
    var r := line - b.start - 1;
    assert b.content[r] == b.content[line - b.start - 1];
  }

  /** `s[0:]` is `s`. */
  lemma DropNothing(s: string)
    ensures Drop(s, 0) == s
  {
    if |s| > 0 {
      assert s[0..] == s;
    }
  }

  /** A block that holds document lines verbatim reports the line holding the error. */
  lemma VerbatimReport(b: Block, lines: seq<string>, shift: int, json: Checker, python: Checker)
    requires Mirrors(b, lines, shift, 0)
    ensures ReportsVerbatim(b, lines, shift, json, python)
  {
    var d := CheckOne(b, json, python);
    if d.Some? && WithinContent(b, d.value) {
      MirroredLine(b, lines, shift, 0, d.value.line);
      DropNothing(lines[d.value.line - 1 + shift]);
    }
  }

  /** A block that holds document lines dedented reports the line holding the error. */
  lemma DedentedReport(b: Block, lines: seq<string>, indent: nat, json: Checker, python: Checker)
    requires Mirrors(b, lines, 0, indent)
    ensures ReportsDedented(b, lines, indent, json, python)
  {
    var d := CheckOne(b, json, python);
    if d.Some? && WithinContent(b, d.value) {
      MirroredLine(b, lines, 0, indent, d.value.line);
    }
  }

  /** A block holding the document lines `from..e` verbatim mirrors them. */
  lemma SliceMirrors(lines: seq<string>, b: Block, shift: int, from: nat, e: nat)
    requires from <= e <= |lines|
    requires b.start + shift == from && b.content == lines[from..e]
    ensures Mirrors(b, lines, shift, 0)
  {
    forall r | 0 <= r < |b.content|
      ensures 0 <= b.start + shift + r < |lines| && Drop(lines[b.start + shift + r], 0) == b.content[r]
    {
      DropNothing(lines[b.start + shift + r]);
    }
  }

  /** A Markdown block's content lines are the document lines after its start. */
  lemma MarkdownBlockMirrors(lines: seq<string>, k: nat, j: nat, markers: set<string>)
    requires k < |lines|
    requires !Markdown.IsMarkerComment(lines[k]) && Markdown.FenceCloser(lines[k]).Some?
    requires Markdown.FirstCloserAt(lines, k, Markdown.FenceCloser(lines[k]).value, j)
    ensures |Markdown.ScanFrom(lines, k, markers).blocks| > 0
    ensures Mirrors(Markdown.ScanFrom(lines, k, markers).blocks[0], lines, 0, 0)
  {
    Markdown.FencedBlock(lines, k, j, markers);
    SliceMirrors(lines, Markdown.ScanFrom(lines, k, markers).blocks[0], 0, k + 1, j);
  }

  /** A Markdown block's report names the document line (1-based) that holds
      the erroneous content line. */
  lemma MarkdownReportsDocumentLine(lines: seq<string>, k: nat, j: nat, markers: set<string>,
                                    json: Checker, python: Checker)
    requires k < |lines|
    requires !Markdown.IsMarkerComment(lines[k]) && Markdown.FenceCloser(lines[k]).Some?
    requires Markdown.FirstCloserAt(lines, k, Markdown.FenceCloser(lines[k]).value, j)
    ensures |Markdown.ScanFrom(lines, k, markers).blocks| > 0
    ensures ReportsVerbatim(Markdown.ScanFrom(lines, k, markers).blocks[0], lines, 0, json, python)
  {
    MarkdownBlockMirrors(lines, k, j, markers);
    VerbatimReport(Markdown.ScanFrom(lines, k, markers).blocks[0], lines, 0, json, python);
  }

  /** A reStructuredText block's content lines are the document lines after
      its start, dedented. */
  lemma RstBlockMirrors(lines: seq<string>, kinds: seq<RestructuredText.LineKind>, k: nat, s: nat, e: nat,
                        indent: nat, highlight: string, markers: set<string>)
    requires |kinds| == |lines|
    requires k + 1 <= s < e < |lines|
    requires kinds[k].Opens?
    requires RestructuredText.FirstStopAt(lines, k + 1, s)
    requires indent == RestructuredText.BlockIndent(lines, s, RestructuredText.LastOptionIndent(lines, k + 1, s, kinds[k].allowOptions, 0))
    requires indent != 0 && RestructuredText.FirstEndAt(lines, indent, s + 1, e)
    ensures |RestructuredText.ScanFrom(lines, kinds, k, highlight, markers).blocks| > 0
    ensures Mirrors(RestructuredText.ScanFrom(lines, kinds, k, highlight, markers).blocks[0], lines, 0, indent)
  {
    RestructuredText.IndentedBlock(lines, kinds, k, s, e, highlight, markers);
    RestructuredText.FirstBlock(lines, kinds, k, highlight, markers);
    var b := RestructuredText.ScanFrom(lines, kinds, k, highlight, markers).blocks[0];
    var dedented := RestructuredText.Dedent(lines[s + 1..e + 1], indent);
    assert b.content == RestructuredText.TrimTrailingBlank(dedented);
    assert |b.content| <= e - s && b.content == dedented[..|b.content|];
    DedentedMirrors(lines, s, e, indent, b);
  }

  /** A block starting at line `s + 1` whose content is a prefix of the
      dedented body from that line (trailing blank lines trimmed) mirrors
      the document. */
  lemma DedentedMirrors(lines: seq<string>, s: nat, e: nat, indent: nat, b: Block)
    requires s < e < |lines|
    requires b.start == s + 1
    requires |b.content| <= e - s
    requires b.content == RestructuredText.Dedent(lines[s + 1..e + 1], indent)[..|b.content|]
    ensures Mirrors(b, lines, 0, indent)
  {
    var content := b.content;
    forall r | 0 <= r < |content|
      ensures 0 <= b.start + 0 + r < |lines| && Drop(lines[b.start + 0 + r], indent) == content[r]
    {
      DedentedLine(lines, s, e, indent, content, r);
    }
  }

  /** Content line `r` of a prefix of the dedented body from line `s + 1`
      is document line `s + 1 + r`, dedented. */
  lemma DedentedLine(lines: seq<string>, s: nat, e: nat, indent: nat, content: seq<string>, r: nat)
    requires s < e < |lines|
    requires |content| <= e - s
    requires content == RestructuredText.Dedent(lines[s + 1..e + 1], indent)[..|content|]
    requires r < |content|
    ensures s + 1 + r < |lines|
    ensures Drop(lines[s + 1 + r], indent) == content[r]
  {
    var body := lines[s + 1..e + 1];
    var dedented := RestructuredText.Dedent(body, indent);
    assert content[r] == dedented[r];
    RestructuredText.DedentAt(body, indent, r);
    assert body[r] == lines[s + 1 + r];
  }

  /** A reStructuredText block's report names the document line (1-based)
      whose dedented text is the erroneous content line. */
  lemma RstReportsDocumentLine(lines: seq<string>, kinds: seq<RestructuredText.LineKind>, k: nat, s: nat, e: nat,
                               indent: nat, highlight: string, markers: set<string>, json: Checker, python: Checker)
    requires |kinds| == |lines|
    requires k + 1 <= s < e < |lines|
    requires kinds[k].Opens?
    requires RestructuredText.FirstStopAt(lines, k + 1, s)
    requires indent == RestructuredText.BlockIndent(lines, s, RestructuredText.LastOptionIndent(lines, k + 1, s, kinds[k].allowOptions, 0))
    requires indent != 0 && RestructuredText.FirstEndAt(lines, indent, s + 1, e)
    ensures |RestructuredText.ScanFrom(lines, kinds, k, highlight, markers).blocks| > 0
    ensures ReportsDedented(RestructuredText.ScanFrom(lines, kinds, k, highlight, markers).blocks[0], lines, indent, json, python)
  {
    RstBlockMirrors(lines, kinds, k, s, e, indent, highlight, markers);
    DedentedReport(RestructuredText.ScanFrom(lines, kinds, k, highlight, markers).blocks[0], lines, indent, json, python);
  }

  /** An AsciiDoc listing's content lines are the document lines after its
      start, or, when the content starts on the last line, the lines after
      the line after its start. */
  lemma AsciiDocBlockMirrors(lines: seq<string>, kinds: seq<AsciiDoc.LineKind>, k: nat, e: nat,
                             language: string, markers: set<string>)
    requires |kinds| == |lines| && k + 1 < |lines|
    requires kinds[k].Dashes? && language != ""
    requires AsciiDoc.FirstEndAt(lines, kinds[k].closer, k + 1, e)
    ensures |AsciiDoc.ScanFrom(lines, kinds, k, language, markers).blocks| > 0
    ensures Mirrors(AsciiDoc.ScanFrom(lines, kinds, k, language, markers).blocks[0], lines,
                    if k + 2 < |lines| then 0 else 1, 0)
  {
    AsciiDoc.BareListing(lines, kinds, k, e, language, markers);
    var b := AsciiDoc.ScanFrom(lines, kinds, k, language, markers).blocks[0];
    SliceMirrors(lines, b, if k + 2 < |lines| then 0 else 1, k + 1, e);
  }

  /** An AsciiDoc listing's report names the document line (1-based) that
      holds the erroneous content line, except when the content starts on
      the document's last line: the cursor's last index lags by one, so the
      report names the line before it. */
  lemma AsciiDocReportsDocumentLine(lines: seq<string>, kinds: seq<AsciiDoc.LineKind>, k: nat, e: nat,
                                    language: string, markers: set<string>, json: Checker, python: Checker)
    requires |kinds| == |lines| && k + 1 < |lines|
    requires kinds[k].Dashes? && language != ""
    requires AsciiDoc.FirstEndAt(lines, kinds[k].closer, k + 1, e)
    ensures |AsciiDoc.ScanFrom(lines, kinds, k, language, markers).blocks| > 0
    ensures k + 2 < |lines| ==> ReportsVerbatim(AsciiDoc.ScanFrom(lines, kinds, k, language, markers).blocks[0], lines, 0, json, python)
    ensures k + 2 == |lines| ==> ReportsVerbatim(AsciiDoc.ScanFrom(lines, kinds, k, language, markers).blocks[0], lines, 1, json, python)
  {
    AsciiDocBlockMirrors(lines, kinds, k, e, language, markers);
    VerbatimReport(AsciiDoc.ScanFrom(lines, kinds, k, language, markers).blocks[0], lines,
                   if k + 2 < |lines| then 0 else 1, json, python);
  }
}
