/** The reStructuredText scanner (src/hooks/restructuredtext.py):
    `code-block` / `sourcecode` directives and `::` literal blocks, whose
    content is the indented run after the options and blank lines; a sticky
    `highlight` directive supplies the syntax of blocks that name none. */
module RestructuredText {
  import opened Strings
  import opened Common

  const FileExtensions: set<string> := {".rst"}

  /** What one line means to the scan loop. */
  datatype LineKind =
    | Highlight(syntax: string)                   // `.. highlight:: X`
    | QaComment(markers: set<string>)             // `.. check-code-block: a, b`
    | Opens(allowOptions: bool, syntax: string)   // a code-block directive or a literal block
    | LiteralAtEnd                                // a `::` line with no line after it
    | Plain

  /** The branch the scan loop takes on `line` with look-ahead `next`.
      The source keeps the directive's syntax in a variable that every path
      out of a block resets, so a literal block always sees it empty. */
  function Classify(line: string, next: Option<string>): (kind: LineKind)
    ensures StartsWith(line, ".. ") ==> !kind.LiteralAtEnd? && (kind.Opens? ==> kind.allowOptions)
    ensures kind.Opens? && !kind.allowOptions <==>
              !StartsWith(line, ".. ") && EndsWith(line, "::") && next.Some? && IsBlank(next.value)
    ensures kind.Opens? && !kind.allowOptions ==> kind.syntax == ""
    ensures kind.LiteralAtEnd? <==> !StartsWith(line, ".. ") && EndsWith(line, "::") && next.None?
  {
    if StartsWith(line, ".. ") then
      var rest := LStrip(Drop(line, 3));
      if StartsWith(rest, "highlight::") then
        Highlight(Lower(Strip(PartitionAfter(line, "highlight::"))))
      else if StartsWith(rest, "check-code-block: ") then
        // A comment, not a directive: a single colon.
        QaComment(MarkerSet(PartitionAfter(line, "check-code-block: ")))
      else if StartsWith(rest, "code-block::") || StartsWith(rest, "sourcecode::") then
        Opens(true, Lower(Strip(PartitionAfter(line, "::"))))
      else Plain
    else if EndsWith(line, "::") then
      // `next_line.strip()` is evaluated only for a line ending in "::".
      if next.None? then LiteralAtEnd
      else if IsBlank(next.value) then Opens(false, "")
      else Plain
    else Plain
  }

  /** Each directive kind comes from its own test alone, in the source's
      order: a highlight directive, then a marker comment, then a
      `code-block` or `sourcecode` directive. */
  lemma DirectivesRecognised(line: string, next: Option<string>)
    ensures var rest := LStrip(Drop(line, 3));
            Classify(line, next).Highlight? <==> StartsWith(line, ".. ") && StartsWith(rest, "highlight::")
    ensures var rest := LStrip(Drop(line, 3));
            Classify(line, next).QaComment?
            <==> StartsWith(line, ".. ") && !StartsWith(rest, "highlight::") && StartsWith(rest, "check-code-block: ")
    ensures var rest := LStrip(Drop(line, 3));
            Classify(line, next).Opens? && Classify(line, next).allowOptions
            <==> && StartsWith(line, ".. ") && !StartsWith(rest, "highlight::") && !StartsWith(rest, "check-code-block: ")
                 && (StartsWith(rest, "code-block::") || StartsWith(rest, "sourcecode::"))
  {
  }

  /** Every other line is ignored: a `.. ` line naming none of the handled
      directives (`.. note::`, a comment), a line ending in `::` followed by
      text, and any line that neither starts with `.. ` nor ends in `::`. */
  lemma OtherLinesPlain(line: string, next: Option<string>)
    ensures var rest := LStrip(Drop(line, 3));
            && StartsWith(line, ".. ")
            && !StartsWith(rest, "highlight::") && !StartsWith(rest, "check-code-block: ")
            && !StartsWith(rest, "code-block::") && !StartsWith(rest, "sourcecode::")
            ==> Classify(line, next) == Plain
    ensures !StartsWith(line, ".. ") && EndsWith(line, "::") && next.Some? && !IsBlank(next.value)
            ==> Classify(line, next) == Plain
    ensures !StartsWith(line, ".. ") && !EndsWith(line, "::") ==> Classify(line, next) == Plain
  {
  }

  /** `.. highlight:: X`, with any run of spaces after the dots, sets the
      highlight syntax to X stripped and lowercased. */
  lemma HighlightDirective(sp: string, x: string, next: Option<string>)
    requires IsBlank(sp)
    ensures Classify(".. " + sp + "highlight::" + x, next) == Highlight(Lower(Strip(x)))
  {
    var line := ".. " + sp + "highlight::" + x;
    DirectiveRest(sp, "highlight::" + x);
    assert line == ".. " + sp + ("highlight::" + x);
    BlankRunHasOnly(".. ", sp, 'h');
    PartitionAfterPrefix(".. " + sp, "highlight::", x);
    ClassifyHighlight(line, "highlight::" + x, next);
  }

  lemma ClassifyHighlight(line: string, rest: string, next: Option<string>)
    requires StartsWith(line, ".. ") && LStrip(Drop(line, 3)) == rest && StartsWith(rest, "highlight::")
    ensures Classify(line, next) == Highlight(Lower(Strip(PartitionAfter(line, "highlight::"))))
  {
  }

  /** `.. check-code-block: a, b`, with any run of spaces after the dots,
      captures the comma-separated markers, each stripped. */
  lemma MarkerCommentLine(sp: string, x: string, next: Option<string>)
    requires IsBlank(sp)
    ensures Classify(".. " + sp + "check-code-block: " + x, next) == QaComment(MarkerSet(x))
  {
    var line := ".. " + sp + "check-code-block: " + x;
    var rest := "check-code-block: " + x;
    DirectiveRest(sp, rest);
    assert line == ".. " + sp + rest;
    assert rest[0] == 'c';
    BlankRunHasOnly(".. ", sp, 'c');
    PartitionAfterPrefix(".. " + sp, "check-code-block: ", x);
    ClassifyMarkerComment(line, rest, next);
  }

  lemma ClassifyMarkerComment(line: string, rest: string, next: Option<string>)
    requires StartsWith(line, ".. ") && LStrip(Drop(line, 3)) == rest
    requires StartsWith(rest, "check-code-block: ") && rest[0] == 'c'
    ensures Classify(line, next) == QaComment(MarkerSet(PartitionAfter(line, "check-code-block: ")))
  {
    assert !StartsWith(rest, "highlight::") by {
      assert rest[0] != "highlight::"[0];
    }
  }

  /** After `.. ` and a blank run, the directive text is what `lstrip` leaves. */
  lemma DirectiveRest(sp: string, rest: string)
    requires IsBlank(sp) && |rest| > 0 && rest[0] !in Whitespace
    ensures var line := ".. " + sp + rest;
            StartsWith(line, ".. ") && LStrip(Drop(line, 3)) == rest
  {
    var line := ".. " + sp + rest;
    assert line[..3] == ".. ";
    DropPrefixThenLStrip(".. ", sp, rest);
  }

  /** `.. code-block:: X` and `.. sourcecode:: X` open a block whose
      syntax is X stripped and lowercased, and that may carry options. */
  lemma CodeBlockDirective(sp: string, name: string, x: string, next: Option<string>)
    requires IsBlank(sp)
    requires name == "code-block" || name == "sourcecode"
    ensures Classify(".. " + sp + name + "::" + x, next) == Opens(true, Lower(Strip(x)))
  {
    var line := ".. " + sp + name + "::" + x;
    var rest := name + "::" + x;
    assert line == ".. " + sp + rest;
    DirectiveRest(sp, rest);
    DirectiveName(name, x);
    BlankRunHasOnly(".. ", sp, ':');
    assert line == (".. " + sp + name) + "::" + x;
    PartitionAfterPrefix(".. " + sp + name, "::", x);
    ClassifyDirective(line, rest, next);
  }

  /** The directive names are told apart by their text. */
  lemma DirectiveName(name: string, x: string)
    requires name == "code-block" || name == "sourcecode"
    ensures var rest := name + "::" + x;
            && !StartsWith(rest, "highlight::") && !StartsWith(rest, "check-code-block: ")
            && (StartsWith(rest, "code-block::") || StartsWith(rest, "sourcecode::"))
  {
    var rest := name + "::" + x;
    assert rest[1] == name[1] == 'o';
    assert rest[1] != "highlight::"[1] && rest[1] != "check-code-block: "[1];
    assert rest[..|name| + 2] == name + "::";
  }

  lemma ClassifyDirective(line: string, rest: string, next: Option<string>)
    requires StartsWith(line, ".. ") && LStrip(Drop(line, 3)) == rest
    requires !StartsWith(rest, "highlight::") && !StartsWith(rest, "check-code-block: ")
    requires StartsWith(rest, "code-block::") || StartsWith(rest, "sourcecode::")
    ensures Classify(line, next) == Opens(true, Lower(Strip(PartitionAfter(line, "::"))))
  {
  }

  /** An option line such as `:caption: Example`. */
  predicate IsOption(line: string) {
    StartsWith(LStrip(line), ":")
  }

  /** Where `consume_lines_up_to_content` left the cursor: the position of
      the next triple, the index of the last triple taken, and the block's
      indent (0 when the block is malformed). */
  datatype Consumed = Consumed(pos: nat, start: int, indent: nat)

  /** `consume_lines_up_to_content`: skips option lines (recording their
      indent when options are allowed) and blank lines; returns at the last
      line, or at a blank line followed by a non-blank one. `None` when the
      cursor is already exhausted. */
  function ConsumeUpToContent(lines: seq<string>, pos: nat, allowOptions: bool, optionsIndent: nat)
    : (r: Option<Consumed>)
    requires pos <= |lines|
    decreases |lines| - pos
    ensures r.Some? ==> pos < r.value.pos <= |lines| && r.value.start == Cursor(lines, r.value.pos - 1).index
    ensures r.Some? && r.value.indent != 0 ==>
              var s := r.value.pos - 1;
              s + 1 < |lines| && IsBlank(lines[s]) && !IsBlank(lines[s + 1]) && r.value.indent <= Indent(lines[s + 1])
  {
    if pos == |lines| then None
    else
      var t := Cursor(lines, pos);
      if t.next.None? then Some(Consumed(pos + 1, t.index, 0))
      else if allowOptions && IsOption(t.current) then
        ConsumeUpToContent(lines, pos + 1, allowOptions, Indent(t.current))
      else if IsBlank(t.current) && !IsBlank(t.next.value) then
        var contentIndent := Indent(t.next.value);
        if contentIndent == 0 || contentIndent < optionsIndent then Some(Consumed(pos + 1, t.index, 0))
        else Some(Consumed(pos + 1, t.index, if optionsIndent != 0 then optionsIndent else contentIndent))
      else ConsumeUpToContent(lines, pos + 1, allowOptions, optionsIndent)
  }

  /** The content loop: each line loses its first `indent` characters; the
      loop stops after a line followed by the end of the document or by a
      non-blank line indented less than `indent`. Returns the position after
      the last line taken and the dedented lines. */
  function CollectIndented(lines: seq<string>, pos: nat, indent: nat): (r: Option<(nat, seq<string>)>)
    requires pos <= |lines|
    decreases |lines| - pos
    ensures r.Some? ==> pos < r.value.0 <= |lines| && |r.value.1| == r.value.0 - pos
    ensures r.Some? ==> r.value.1[0] == Drop(lines[pos], indent)
  {
    if pos == |lines| then None
    else
      var t := Cursor(lines, pos);
      var line := Drop(t.current, indent);
      if t.next.None? || (!IsBlank(t.next.value) && Indent(t.next.value) < indent) then Some((pos + 1, [line]))
      else
        var rest := CollectIndented(lines, pos + 1, indent);
        if rest.None? then None else Some((rest.value.0, [line] + rest.value.1))
  }

  /** Pops whitespace-only lines off the end. */
  function TrimTrailingBlank(lines: seq<string>): (r: seq<string>)
    ensures |r| <= |lines| && r == lines[..|r|]
    ensures forall i :: |r| <= i < |lines| ==> IsBlank(lines[i])
    ensures |r| > 0 ==> !IsBlank(r[|r| - 1])
  {
    if |lines| > 0 && IsBlank(lines[|lines| - 1]) then TrimTrailingBlank(lines[..|lines| - 1]) else lines
  }

  /** The branch the scan loop takes at each line, given the line and its
      look-ahead. */
  function Kinds(lines: seq<string>): (kinds: seq<LineKind>)
    ensures |kinds| == |lines|
  {
    seq(|lines|, k requires 0 <= k < |lines| => Classify(lines[k], Cursor(lines, k).next))
  }

  /** One turn of the scan loop at the line `pos`, whose branch is
      `kinds[pos]`, with the sticky highlight syntax and the markers
      captured so far. */
  function TurnAt(lines: seq<string>, kinds: seq<LineKind>, pos: nat, highlight: string, markers: set<string>)
    : (t: Turn)
    requires |kinds| == |lines| && pos < |lines|
    ensures t.Continues? ==> pos < t.resume <= |lines| && |t.yielded| <= 1
  {
    match kinds[pos]
    case Plain => Continues([], pos + 1, highlight, markers)
    case Highlight(h) => Continues([], pos + 1, h, markers)
    case QaComment(m) => Continues([], pos + 1, highlight, m)
    case LiteralAtEnd => Raises
    case Opens(allowOptions, syntax) => OpenBlock(lines, pos + 1, allowOptions, syntax, highlight, markers)
  }

  /** The block branch, entered with the cursor on the line after the
      opener: consume options and blank lines, then collect the indented
      content. A malformed block yields nothing; either way the markers are
      reset and the highlight syntax is kept. */
  function OpenBlock(lines: seq<string>, pos: nat, allowOptions: bool, syntax: string,
                     highlight: string, markers: set<string>): (t: Turn)
    requires pos <= |lines|
    ensures t.Continues? ==> pos < t.resume <= |lines|
    ensures t.Continues? ==> t.yielded == [] || (|t.yielded| == 1 && pos < t.yielded[0].start < t.resume
                                                  && ContentShaped(t.yielded[0].content))
  {
    var c := ConsumeUpToContent(lines, pos, allowOptions, 0);
    if c.None? then Raises
    else if c.value.indent == 0 then Continues([], c.value.pos, highlight, {})
    else
      var body := CollectIndented(lines, c.value.pos, c.value.indent);
      if body.None? then Raises
      else
        var block := Block(c.value.start + 1, if syntax != "" then syntax else highlight,
                           TrimTrailingBlank(body.value.1), markers);
        BodyShape(lines, c.value.pos - 1, c.value.indent, body.value.1);
        Continues([block], body.value.0, highlight, {})
  }

  /** The scan loop from the line `pos` on: the turns chained together. */
  function ScanFrom(lines: seq<string>, kinds: seq<LineKind>, pos: nat, highlight: string, markers: set<string>): (r: Scan)
    requires |kinds| == |lines| && pos <= |lines|
    decreases |lines| - pos
    ensures |r.blocks| <= |lines| - pos
  {
    if pos == |lines| then Scan([], false)
    else
      match TurnAt(lines, kinds, pos, highlight, markers)
      case Raises => Scan([], true)
      case Continues(yielded, resume, h, m) =>
        var rest := ScanFrom(lines, kinds, resume, h, m);
        Scan(yielded + rest.blocks, rest.aborted)
  }

  /** A turn that yields a block puts it first in the scan. */
  lemma FirstBlock(lines: seq<string>, kinds: seq<LineKind>, pos: nat, highlight: string, markers: set<string>)
    requires |kinds| == |lines| && pos < |lines|
    requires TurnAt(lines, kinds, pos, highlight, markers).Continues?
    requires |TurnAt(lines, kinds, pos, highlight, markers).yielded| > 0
    ensures |ScanFrom(lines, kinds, pos, highlight, markers).blocks| > 0
    ensures ScanFrom(lines, kinds, pos, highlight, markers).blocks[0] == TurnAt(lines, kinds, pos, highlight, markers).yielded[0]
  {
  }

  /** `get_code_blocks` over the document's lines. */
  function GetCodeBlocks(lines: seq<string>): (r: Scan)
    ensures OrderedWithin(r.blocks, 0, |lines|)
  {
    ScanOrdered(lines, Kinds(lines), 0, "", {});
    ScanFrom(lines, Kinds(lines), 0, "", {})
  }

  // ---------------------------------------------------------------------
  // The loops against reference definitions over the document's lines.

  /** `consume_lines_up_to_content` returns at line `i`: the last line, or a
      blank line followed by a non-blank one. */
  predicate StopsAt(lines: seq<string>, i: int) {
    0 <= i < |lines| && (i == |lines| - 1 || (IsBlank(lines[i]) && !IsBlank(lines[i + 1])))
  }

  predicate FirstStopAt(lines: seq<string>, from: int, s: int) {
    from <= s && StopsAt(lines, s) && forall i :: from <= i < s ==> !StopsAt(lines, i)
  }

  /** The indent of the last option line in `lines[lo..hi]`, or `init` when
      there is none (or options are not allowed). */
  function LastOptionIndent(lines: seq<string>, lo: nat, hi: nat, allowOptions: bool, init: nat): nat
    requires lo <= hi <= |lines|
    decreases hi - lo
  {
    if hi == lo then init
    else if allowOptions && IsOption(lines[hi - 1]) then Indent(lines[hi - 1])
    else LastOptionIndent(lines, lo, hi - 1, allowOptions, init)
  }

  lemma {:induction false} LastOptionIndentFront(lines: seq<string>, lo: nat, hi: nat, allowOptions: bool, init: nat)
    requires lo < hi <= |lines|
    decreases hi - lo
    ensures LastOptionIndent(lines, lo, hi, allowOptions, init)
            == LastOptionIndent(lines, lo + 1, hi, allowOptions,
                                if allowOptions && IsOption(lines[lo]) then Indent(lines[lo]) else init)
  {
    if hi - 1 > lo {
      LastOptionIndentFront(lines, lo, hi - 1, allowOptions, init);
    }
  }

  /** The indent `consume_lines_up_to_content` reports when it stops at line
      `s` having seen options up to indent `optionsIndent`: 0 at the end of
      the document, or when the content is not indented, or is indented less
      than the options; otherwise the options' indent, or the content's. */
  function BlockIndent(lines: seq<string>, s: nat, optionsIndent: nat): nat
    requires s < |lines|
  {
    if s == |lines| - 1 then 0
    else
      var contentIndent := Indent(lines[s + 1]);
      if contentIndent == 0 || contentIndent < optionsIndent then 0
      else if optionsIndent != 0 then optionsIndent else contentIndent
  }

  /** One step of `consume_lines_up_to_content` over a real cursor. */
  lemma ConsumeTurn(lines: seq<string>, pos: nat, allowOptions: bool, optionsIndent: nat)
    requires pos < |lines|
    ensures ConsumeUpToContent(lines, pos, allowOptions, optionsIndent)
            == if StopsAt(lines, pos) then Some(Consumed(pos + 1, Cursor(lines, pos).index, BlockIndent(lines, pos, optionsIndent)))
               else ConsumeUpToContent(lines, pos + 1, allowOptions,
                                       if allowOptions && IsOption(lines[pos]) then Indent(lines[pos]) else optionsIndent)
  {
    if pos < |lines| - 1 {
      if IsOption(lines[pos]) {
        BlankIffStripsToNothing(lines[pos]);
        LStripCharsSpec(lines[pos], Whitespace);
        assert !IsBlank(lines[pos]);
      }
    }
  }

  /** `consume_lines_up_to_content` stops at the first stopping line `s`
      from `pos` on, having taken the triples up to and including `s`; its
      indent follows the last option line before `s` (when options are
      allowed) and the line after `s`. */
  lemma {:induction false} ConsumeFindsContent(lines: seq<string>, pos: nat, allowOptions: bool, optionsIndent: nat, s: nat)
    requires pos <= s < |lines|
    requires FirstStopAt(lines, pos, s)
    decreases s - pos
    ensures ConsumeUpToContent(lines, pos, allowOptions, optionsIndent)
            == Some(Consumed(s + 1, Cursor(lines, s).index,
                             BlockIndent(lines, s, LastOptionIndent(lines, pos, s, allowOptions, optionsIndent))))
  {
    ConsumeTurn(lines, pos, allowOptions, optionsIndent);
    if pos < s {
      var next := if allowOptions && IsOption(lines[pos]) then Indent(lines[pos]) else optionsIndent;
      ConsumeFindsContent(lines, pos + 1, allowOptions, next, s);
      LastOptionIndentFront(lines, pos, s, allowOptions, optionsIndent);
    }
  }

  /** The content loop stops after line `i`: the last line, or one followed
      by a non-blank line indented less than the block. */
  predicate EndsBlockAt(lines: seq<string>, indent: nat, i: int) {
    0 <= i < |lines| && (i == |lines| - 1 || (!IsBlank(lines[i + 1]) && Indent(lines[i + 1]) < indent))
  }

  predicate FirstEndAt(lines: seq<string>, indent: nat, from: int, e: int) {
    from <= e && EndsBlockAt(lines, indent, e) && forall i :: from <= i < e ==> !EndsBlockAt(lines, indent, i)
  }

  /** Each line with its first `indent` characters dropped. */
  function Dedent(lines: seq<string>, indent: nat): (r: seq<string>)
    ensures |r| == |lines|
  {
    if |lines| == 0 then [] else [Drop(lines[0], indent)] + Dedent(lines[1..], indent)
  }

  lemma {:induction false} DedentAt(lines: seq<string>, indent: nat, i: nat)
    requires i < |lines|
    decreases i
    ensures Dedent(lines, indent)[i] == Drop(lines[i], indent)
  {
    if i > 0 {
      DedentAt(lines[1..], indent, i - 1);
    }
  }

  /** Over a real cursor the content loop takes exactly the lines from `pos`
      through the first line `e` that ends the block. */
  lemma {:induction false} CollectIndentedFindsEnd(lines: seq<string>, pos: nat, indent: nat, e: nat)
    requires pos <= e < |lines|
    requires FirstEndAt(lines, indent, pos, e)
    decreases e - pos
    ensures CollectIndented(lines, pos, indent) == Some((e + 1, Dedent(lines[pos..e + 1], indent)))
  {
    if pos < e {
      assert !EndsBlockAt(lines, indent, pos);
      CollectIndentedFindsEnd(lines, pos + 1, indent, e);
      assert lines[pos..e + 1][1..] == lines[pos + 1..e + 1];
      assert lines[pos..e + 1][0] == lines[pos];
    } else {
      assert Dedent(lines[pos..e + 1], indent) == [Drop(lines[pos], indent)];
    }
  }

  /** A directive on the last line aborts: the option-skipping loop calls
      `next()` on an exhausted cursor. */
  lemma DirectiveOnLastLineAborts(lines: seq<string>, kinds: seq<LineKind>, highlight: string, markers: set<string>)
    requires |kinds| == |lines| > 0
    requires kinds[|lines| - 1].Opens?
    ensures TurnAt(lines, kinds, |lines| - 1, highlight, markers) == Raises
  {
  }

  /** A block opener whose content is missing, not indented, or indented
      less than its options yields nothing: the scan resumes after the
      stopping line with the markers reset and the highlight syntax kept. */
  lemma MalformedBlockSkipped(lines: seq<string>, pos: nat, s: nat, allowOptions: bool, syntax: string,
                              highlight: string, markers: set<string>)
    requires pos <= s < |lines|
    requires FirstStopAt(lines, pos, s)
    requires BlockIndent(lines, s, LastOptionIndent(lines, pos, s, allowOptions, 0)) == 0
    ensures OpenBlock(lines, pos, allowOptions, syntax, highlight, markers) == Continues([], s + 1, highlight, {})
  {
    ConsumeFindsContent(lines, pos, allowOptions, 0, s);
  }

  /** A well-formed block: option and blank lines from `pos` up to the
      stopping line `s`, then content from `s + 1` through the line `e`
      that ends the block, each line dedented by the block's indent and
      trailing blank lines dropped. The block starts at `s + 1`, takes the
      opener's syntax or else the highlight syntax, carries the markers
      captured so far, and the scan resumes after `e` with the markers
      reset and the highlight syntax kept. */
  lemma IndentedBlockYielded(lines: seq<string>, pos: nat, s: nat, e: nat, allowOptions: bool, syntax: string,
                             highlight: string, markers: set<string>)
    requires pos <= s < e < |lines|
    requires FirstStopAt(lines, pos, s)
    requires var indent := BlockIndent(lines, s, LastOptionIndent(lines, pos, s, allowOptions, 0));
             indent != 0 && FirstEndAt(lines, indent, s + 1, e)
    ensures var indent := BlockIndent(lines, s, LastOptionIndent(lines, pos, s, allowOptions, 0));
            OpenBlock(lines, pos, allowOptions, syntax, highlight, markers)
            == Continues([Block(s + 1, if syntax != "" then syntax else highlight,
                                TrimTrailingBlank(Dedent(lines[s + 1..e + 1], indent)), markers)],
                         e + 1, highlight, {})
  {
    var indent := BlockIndent(lines, s, LastOptionIndent(lines, pos, s, allowOptions, 0));
    ConsumeFindsContent(lines, pos, allowOptions, 0, s);
    OpenBlockAfterOptions(lines, pos, s, e, indent, allowOptions, syntax, highlight, markers);
  }

  /** The block branch once the option-skipping loop has stopped at `s`. */
  lemma OpenBlockAfterOptions(lines: seq<string>, pos: nat, s: nat, e: nat, indent: nat, allowOptions: bool,
                              syntax: string, highlight: string, markers: set<string>)
    requires pos <= s < e < |lines|
    requires ConsumeUpToContent(lines, pos, allowOptions, 0) == Some(Consumed(s + 1, s, indent))
    requires indent != 0 && FirstEndAt(lines, indent, s + 1, e)
    ensures OpenBlock(lines, pos, allowOptions, syntax, highlight, markers)
            == Continues([Block(s + 1, if syntax != "" then syntax else highlight,
                                TrimTrailingBlank(Dedent(lines[s + 1..e + 1], indent)), markers)],
                         e + 1, highlight, {})
  {
    var c := Consumed(s + 1, s, indent);
    var body := (e + 1, Dedent(lines[s + 1..e + 1], indent));
    CollectIndentedFindsEnd(lines, s + 1, indent, e);
    assert CollectIndented(lines, c.pos, c.indent) == Some(body);
    OpenBlockYields(lines, pos, allowOptions, syntax, highlight, markers, c, body);
  }

  /** The block branch once both loops have been run. */
  lemma OpenBlockYields(lines: seq<string>, pos: nat, allowOptions: bool, syntax: string,
                        highlight: string, markers: set<string>, c: Consumed, body: (nat, seq<string>))
    requires pos <= |lines|
    requires ConsumeUpToContent(lines, pos, allowOptions, 0) == Some(c) && c.indent != 0
    requires CollectIndented(lines, c.pos, c.indent) == Some(body)
    ensures OpenBlock(lines, pos, allowOptions, syntax, highlight, markers)
            == Continues([Block(c.start + 1, if syntax != "" then syntax else highlight, TrimTrailingBlank(body.1), markers)],
                         body.0, highlight, {})
  {
  }

  /** The two lemmas above, seen from the opener line at `k`. */
  lemma MalformedBlockDropped(lines: seq<string>, kinds: seq<LineKind>, k: nat, s: nat,
                              highlight: string, markers: set<string>)
    requires |kinds| == |lines|
    requires k + 1 <= s < |lines|
    requires kinds[k].Opens?
    requires FirstStopAt(lines, k + 1, s)
    requires BlockIndent(lines, s, LastOptionIndent(lines, k + 1, s, kinds[k].allowOptions, 0)) == 0
    ensures TurnAt(lines, kinds, k, highlight, markers) == Continues([], s + 1, highlight, {})
  {
    MalformedBlockSkipped(lines, k + 1, s, kinds[k].allowOptions, kinds[k].syntax, highlight, markers);
  }

  lemma IndentedBlock(lines: seq<string>, kinds: seq<LineKind>, k: nat, s: nat, e: nat,
                      highlight: string, markers: set<string>)
    requires |kinds| == |lines|
    requires k + 1 <= s < e < |lines|
    requires kinds[k].Opens?
    requires FirstStopAt(lines, k + 1, s)
    requires var indent := BlockIndent(lines, s, LastOptionIndent(lines, k + 1, s, kinds[k].allowOptions, 0));
             indent != 0 && FirstEndAt(lines, indent, s + 1, e)
    ensures var indent := BlockIndent(lines, s, LastOptionIndent(lines, k + 1, s, kinds[k].allowOptions, 0));
            var syntax := kinds[k].syntax;
            TurnAt(lines, kinds, k, highlight, markers)
            == Continues([Block(s + 1, if syntax != "" then syntax else highlight,
                                TrimTrailingBlank(Dedent(lines[s + 1..e + 1], indent)), markers)],
                         e + 1, highlight, {})
  {
    IndentedBlockYielded(lines, k + 1, s, e, kinds[k].allowOptions, kinds[k].syntax, highlight, markers);
  }

  /** The content of a well-formed block is never empty and both its first
      and its last line hold something other than whitespace. */
  lemma IndentedContentShape(lines: seq<string>, s: nat, e: nat, optionsIndent: nat)
    requires s < e < |lines|
    requires StopsAt(lines, s)
    requires BlockIndent(lines, s, optionsIndent) != 0
    ensures var content := TrimTrailingBlank(Dedent(lines[s + 1..e + 1], BlockIndent(lines, s, optionsIndent)));
            |content| > 0 && !IsBlank(content[0]) && !IsBlank(content[|content| - 1])
  {
    var indent := BlockIndent(lines, s, optionsIndent);
    var raw := Dedent(lines[s + 1..e + 1], indent);
    DedentAt(lines[s + 1..e + 1], indent, 0);
    DropWithinIndent(lines[s + 1], indent);
    var content := TrimTrailingBlank(raw);
    assert |content| > 0;
    assert content[0] == raw[0];
  }

  // ---------------------------------------------------------------------
  // What every scan yields.

  /** Non-empty content whose first and last lines are not blank. */
  predicate ContentShaped(content: seq<string>) {
    |content| > 0 && !IsBlank(content[0]) && !IsBlank(content[|content| - 1])
  }

  /** Blocks in document order within `[lo, hi)`, each with shaped content. */
  predicate OrderedWithin(blocks: seq<Block>, lo: int, hi: int) {
    InOrderWithin(blocks, lo, hi) && forall i :: 0 <= i < |blocks| ==> ContentShaped(blocks[i].content)
  }

  /** Content collected after a blank line `s` whose successor is indented
      at least `indent` keeps a non-blank first and last line once
      trimmed. */
  lemma BodyShape(lines: seq<string>, s: nat, indent: nat, raw: seq<string>)
    requires s + 1 < |lines| && !IsBlank(lines[s + 1]) && indent <= Indent(lines[s + 1])
    requires |raw| > 0 && raw[0] == Drop(lines[s + 1], indent)
    ensures ContentShaped(TrimTrailingBlank(raw))
  {
    DropWithinIndent(lines[s + 1], indent);
    var content := TrimTrailingBlank(raw);
    assert |content| > 0 && content[0] == raw[0];
  }

  /** Every scan yields its blocks in document order, each with a
      non-empty content that starts and ends with a non-blank line, found
      after the line the scan started from. */
  lemma {:induction false} ScanOrdered(lines: seq<string>, kinds: seq<LineKind>, pos: nat,
                                       highlight: string, markers: set<string>)
    requires |kinds| == |lines| && pos <= |lines|
    decreases |lines| - pos
    ensures OrderedWithin(ScanFrom(lines, kinds, pos, highlight, markers).blocks, pos, |lines|)
  {
    if pos < |lines| {
      var t := TurnAt(lines, kinds, pos, highlight, markers);
      if t.Continues? {
        assert OrderedWithin(t.yielded, pos, t.resume);
        ScanOrdered(lines, kinds, t.resume, t.defaultSyntax, t.markers);
        var rest := ScanFrom(lines, kinds, t.resume, t.defaultSyntax, t.markers).blocks;
        assert ScanFrom(lines, kinds, pos, highlight, markers).blocks == t.yielded + rest;
        InOrderAppend(t.yielded, rest, pos, t.resume, |lines|);
        assert forall i :: 0 <= i < |t.yielded + rest| ==> ContentShaped((t.yielded + rest)[i].content);
      }
    }
  }
}
