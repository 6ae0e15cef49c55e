/** The AsciiDoc scanner (src/hooks/asciidoc.py): `[x, lang]` block
    headers, followed by a dash-delimited listing or by a paragraph that
    ends at the next blank line, and bare `----` listings, which count only
    once a sticky `:source-language:` attribute has named a syntax. */
module AsciiDoc {
  import opened Strings
  import opened Common

  const FileExtensions: set<string> := {".adoc", ".asciidoc"}

  /** What one line means to the scan loop. */
  datatype LineKind =
    | SourceLanguage(language: string)    // `:source-language: X`
    | QaComment(markers: set<string>)     // `// check-code-block: a, b`
    | Header(syntax: string)              // `[source, X]`
    | Dashes(closer: string)              // `----`, `------`, ...
    | Plain

  /** A comment whose text, after the first two characters, starts with
      `check-code-block:`. The comment test strips the line but the two
      characters are dropped from the unstripped line, so an indented
      comment is never one: the line itself must start with `//`. */
  predicate IsQaComment(line: string)
    ensures IsQaComment(line)
            <==> StartsWith(line, "//") && StartsWith(LStrip(line[2..]), "check-code-block:")
  {
    IndentedCommentIgnored(line);
    StartsWith(LStrip(line), "//") && StartsWith(LStrip(Drop(line, 2)), "check-code-block:")
  }

  /** Whatever follows the `//` of a line that starts with whitespace, the
      text after its first two characters, left-stripped, starts with `/`. */
  lemma IndentedCommentIgnored(line: string)
    ensures |line| > 0 && line[0] in Whitespace && StartsWith(LStrip(line), "//") ==>
              |LStrip(Drop(line, 2))| > 0 && LStrip(Drop(line, 2))[0] == '/'
    ensures |line| > 0 && line[0] !in Whitespace ==> LStrip(line) == line
    ensures |line| == 0 ==> LStrip(line) == line
  {
    LStripCharsSpec(line, Whitespace);
    if |line| > 0 && line[0] in Whitespace && StartsWith(LStrip(line), "//") {
      var l := LStrip(line);
      var k := |line| - |l|;
      assert l[0] == '/' && l[1] == '/';
      assert line[k] == '/' && line[k + 1] == '/';
      SlashAfterDrop(line, k);
    } else if |line| > 0 && line[0] !in Whitespace {
      assert LStripChars(line, Whitespace) == line;
    }
  }

  /** A line whose first `k >= 1` characters are whitespace and which then
      has `//`: after its first two characters and left-stripping, a slash
      comes first. */
  lemma SlashAfterDrop(line: string, k: nat)
    requires 1 <= k && k + 1 < |line|
    requires forall i :: 0 <= i < k ==> line[i] in Whitespace
    requires line[k] == '/' && line[k + 1] == '/'
    ensures |LStrip(Drop(line, 2))| > 0 && LStrip(Drop(line, 2))[0] == '/'
  {
    var d := Drop(line, 2);
    assert d == line[2..];
    // The first character of `d` past its whitespace is the one at
    // `k - 2` when the run was longer than one character, and `d[0]`
    // (the second slash) when it was exactly one.
    var m := if k >= 2 then k - 2 else 0;
    var run, rest := d[..m], d[m..];
    forall i | 0 <= i < |run| ensures run[i] in Whitespace {
      assert run[i] == d[i] == line[i + 2];
    }
    assert rest[0] == d[m] == '/';
    assert run + rest == d;
    LStripCharsPrefix(run, rest, Whitespace);
  }

  /** `line.split(",")[1].strip("] ").lower()`: the second comma field. */
  function HeaderSyntax(line: string): (syntax: string)
    requires ',' in line
    ensures forall i :: 0 <= i < |syntax| ==> !('A' <= syntax[i] <= 'Z')
    ensures |syntax| > 0 ==> syntax[0] !in {']', ' '} && syntax[|syntax| - 1] !in {']', ' '}
  {
    SplitHasSecondFieldIffSeparator(line, ',');
    StripCharsEnds(Split(line, ',')[1], {']', ' '});
    Lower(StripChars(Split(line, ',')[1], {']', ' '}))
  }

  /** The header syntax is the second comma field, stripped and lowercased,
      whatever the first field and the fields after it hold. */
  lemma HeaderSyntaxOfFields(first: string, second: string, rest: string)
    requires ',' !in first && ',' !in second
    requires rest == "" || rest[0] == ','
    ensures ',' in first + "," + second + rest
    ensures HeaderSyntax(first + "," + second + rest) == Lower(StripChars(second, {']', ' '}))
  {
    var line := first + "," + second + rest;
    assert line[|first|] == ',';
    assert line == first + [','] + (second + rest);
    SplitAfterFirstField(first, second + rest, ',');
    if rest == "" {
      assert second + rest == second;
      SplitHasSecondFieldIffSeparator(second, ',');
      assert Join(Split(second, ','), [',']) == second;
    } else {
      assert second + rest == second + [','] + rest[1..];
      SplitAfterFirstField(second, rest[1..], ',');
    }
  }

  /** The branch the scan loop takes on `line`, tested in the source's
      order. */
  function Classify(line: string): (kind: LineKind)
    ensures kind.Dashes? ==> kind.closer == RStrip(line) && StartsWith(kind.closer, "----")
  {
    if StartsWith(line, ":source-language:") then
      SourceLanguage(Lower(Strip(PartitionAfter(line, ":source-language:"))))
    else if IsQaComment(line) then
      QaComment(MarkerSet(PartitionAfter(line, "check-code-block:")))
    else if StartsWith(line, "[") && ',' in line then
      Header(HeaderSyntax(line))
    else if StartsWith(RStrip(line), "----") then Dashes(RStrip(line))
    else Plain
  }

  /** A header or a dash line is recognised by its own test alone: the
      earlier tests cannot claim it. */
  lemma HeadersRecognised(line: string)
    ensures Classify(line).Header? <==> StartsWith(line, "[") && ',' in line
  {
    if StartsWith(line, "[") {
      LeadingChar(line);
      NotClaimedEarlier(line);
    }
  }

  lemma DashesRecognised(line: string)
    ensures Classify(line).Dashes? <==> StartsWith(RStrip(line), "----")
  {
    if StartsWith(RStrip(line), "----") {
      LeadingChar(line);
      assert line[0] == '-';
      NotClaimedEarlier(line);
      ClassifyDashes(line);
    }
  }

  lemma ClassifyDashes(line: string)
    requires !StartsWith(line, ":source-language:") && !IsQaComment(line) && !StartsWith(line, "[")
    requires StartsWith(RStrip(line), "----")
    ensures Classify(line) == Dashes(RStrip(line))
  {
  }

  /** A line starting with `[` or `-` is neither an attribute nor a comment. */
  lemma NotClaimedEarlier(line: string)
    requires |line| > 0 && (line[0] == '[' || line[0] == '-')
    ensures !StartsWith(line, ":source-language:") && !IsQaComment(line)
    ensures line[0] == '-' ==> !StartsWith(line, "[")
  {
    LeadingChar(line);
    assert LStrip(line)[0] == line[0];
  }

  /** `:source-language: X` at the start of a line names the syntax X,
      stripped and lowercased. */
  lemma SourceLanguageLine(x: string)
    ensures Classify(":source-language:" + x) == SourceLanguage(Lower(Strip(x)))
  {
    var line := ":source-language:" + x;
    assert line[..17] == ":source-language:";
    PartitionAfterPrefix("", ":source-language:", x);
    assert "" + ":source-language:" + x == line;
  }

  /** `//`, any run of blanks, then `check-code-block:` and the markers. */
  lemma QaCommentLine(sp: string, x: string)
    requires IsBlank(sp)
    ensures Classify("//" + sp + "check-code-block:" + x) == QaComment(MarkerSet(x))
  {
    var line := "//" + sp + "check-code-block:" + x;
    QaCommentRecognised(sp, x);
    BlankRunHasOnly("//", sp, 'c');
    PartitionAfterPrefix("//" + sp, "check-code-block:", x);
    ClassifyQaComment(line, x);
  }

  lemma QaCommentRecognised(sp: string, x: string)
    requires IsBlank(sp)
    ensures var line := "//" + sp + "check-code-block:" + x;
            IsQaComment(line) && !StartsWith(line, ":source-language:")
  {
    var line := "//" + sp + "check-code-block:" + x;
    assert StartsWith(LStrip(line), "//") by {
      LeadingChar(line);
      assert line[..2] == "//";
    }
    assert StartsWith(LStrip(Drop(line, 2)), "check-code-block:") by {
      assert line == "//" + sp + ("check-code-block:" + x);
      DropPrefixThenLStrip("//", sp, "check-code-block:" + x);
      assert ("check-code-block:" + x)[..17] == "check-code-block:";
    }
    assert line[0] == '/';
  }

  lemma ClassifyQaComment(line: string, x: string)
    requires !StartsWith(line, ":source-language:") && IsQaComment(line)
    requires PartitionAfter(line, "check-code-block:") == x
    ensures Classify(line) == QaComment(MarkerSet(x))
  {
  }

  /** `[a, b, ...]`: the syntax is the field after the first comma, with
      brackets and spaces stripped from both ends, lowercased. */
  lemma HeaderLine(a: string, b: string)
    requires ',' !in a
    ensures Classify("[" + a + "," + b) == Header(Lower(StripChars(Split(b, ',')[0], {']', ' '})))
  {
    var line := "[" + a + "," + b;
    assert StartsWith(line, "[") && ',' in line by {
      assert line[..1] == "[";
      assert line[1 + |a|] == ',';
    }
    HeadersRecognised(line);
    ClassifyHeader(line);
    assert HeaderSyntax(line) == Lower(StripChars(Split(b, ',')[0], {']', ' '})) by {
      assert ',' !in "[" + a;
      assert line == ("[" + a) + [','] + b;
      SplitAfterFirstField("[" + a, b, ',');
    }
  }

  lemma ClassifyHeader(line: string)
    requires Classify(line).Header?
    ensures ',' in line && Classify(line) == Header(HeaderSyntax(line))
  {
  }

  /** Skipping blank lines after a header: `pos` is the position of the
      next triple. Stops at the first line from `pos` on that is not blank,
      or at the end of the document. */
  function SkipBlank(lines: seq<string>, pos: nat): (q: nat)
    requires 0 < pos <= |lines|
    decreases |lines| - pos
    ensures pos <= q <= |lines|
    ensures forall i :: pos <= i < q ==> IsBlank(lines[i])
    ensures q < |lines| ==> !IsBlank(lines[q])
  {
    var next := Cursor(lines, pos - 1).next;
    if next.Some? && IsBlank(next.value) then SkipBlank(lines, pos + 1) else pos
  }

  /** The line at `i` ends a block closed by `closer`: the exact closing
      dash string, or any blank line when there is no closer. */
  predicate EndsAt(lines: seq<string>, closer: string, i: int) {
    0 <= i < |lines| && (if closer != "" then RStrip(lines[i]) == closer else IsBlank(lines[i]))
  }

  /** The content loop, entered with the triple at `pos` taken and holding
      the first content line: takes lines until one ends the block (that
      line is consumed, not kept) or the document ends. Returns the
      position after the last triple taken and the content. */
  function CollectContent(lines: seq<string>, pos: nat, closer: string): (r: (nat, seq<string>))
    requires pos < |lines|
    decreases |lines| - pos
    ensures pos < r.0 <= |lines| && |r.1| <= r.0 - pos
  {
    var t := Cursor(lines, pos);
    if EndsAt(lines, closer, pos) then (pos + 1, [])
    else if t.next.None? then (pos + 1, [t.current])
    else
      var rest := CollectContent(lines, pos + 1, closer);
      (rest.0, [t.current] + rest.1)
  }

  /** The branch each line takes. */
  function Kinds(lines: seq<string>): (kinds: seq<LineKind>)
    ensures |kinds| == |lines|
  {
    seq(|lines|, k requires 0 <= k < |lines| => Classify(lines[k]))
  }

  /** One turn of the scan loop at the line `pos`, with the sticky source
      language and the markers captured so far. */
  function TurnAt(lines: seq<string>, kinds: seq<LineKind>, pos: nat, language: string, markers: set<string>)
    : (t: Turn)
    requires |kinds| == |lines| && pos < |lines|
    ensures t.Continues? ==> pos < t.resume <= |lines| && |t.yielded| <= 1 && InOrderWithin(t.yielded, pos, t.resume)
  {
    match kinds[pos]
    case SourceLanguage(l) => Continues([], pos + 1, l, markers)
    case QaComment(m) => Continues([], pos + 1, language, m)
    case Plain => Continues([], pos + 1, language, markers)
    case Header(syntax) => HeaderBlock(lines, pos + 1, syntax, language, markers)
    case Dashes(closer) =>
      if language == "" then Continues([], pos + 1, language, markers)
      // The first content line is taken with `next()`, which raises at the end.
      else if pos + 1 == |lines| then Raises
      else ContentBlock(lines, pos + 1, closer, language, language, markers)
  }

  /** A header's block, entered with the cursor on the line after the
      header: blank lines are skipped; a dash line there becomes the closer
      and the content starts after it (unless the dash line is the last
      line), otherwise the content starts at that line and ends at a blank
      line. */
  function HeaderBlock(lines: seq<string>, pos: nat, syntax: string, language: string, markers: set<string>)
    : (t: Turn)
    requires 0 < pos <= |lines|
    ensures t.Continues? ==> pos < t.resume <= |lines| && |t.yielded| == 1 && pos - 1 <= t.yielded[0].start < t.resume
  {
    var q := SkipBlank(lines, pos);
    // The look-ahead of the last triple taken is the line at `q`.
    var next := Cursor(lines, q - 1).next;
    if next.None? then Raises  // `next_line.rstrip()` on `None`
    else
      var closer := if StartsWith(RStrip(next.value), "----") then RStrip(next.value) else "";
      var t := Cursor(lines, q);
      if closer != "" && t.next.Some? then ContentBlock(lines, q + 1, closer, syntax, language, markers)
      else ContentBlock(lines, q, closer, syntax, language, markers)
  }

  /** The content loop from the taken triple at `pos`, and the yield: the
      block starts at that triple's index and carries the markers, which
      are then reset; the source language is kept. */
  function ContentBlock(lines: seq<string>, pos: nat, closer: string, syntax: string,
                        language: string, markers: set<string>): (t: Turn)
    requires pos < |lines|
    ensures t.Continues? && pos < t.resume <= |lines|
    ensures |t.yielded| == 1 && pos - 1 <= t.yielded[0].start <= pos
    ensures pos + 1 < |lines| || pos == 0 ==> t.yielded[0].start == pos
    ensures pos + 1 == |lines| && pos > 0 ==> t.yielded[0].start == pos - 1
  {
    var body := CollectContent(lines, pos, closer);
    Continues([Block(Cursor(lines, pos).index, syntax, body.1, markers)], body.0, language, {})
  }

  /** The scan loop from the line `pos` on: the turns chained together. */
  function ScanFrom(lines: seq<string>, kinds: seq<LineKind>, pos: nat, language: string, markers: set<string>): (r: Scan)
    requires |kinds| == |lines| && pos <= |lines|
    decreases |lines| - pos
    ensures |r.blocks| <= |lines| - pos
  {
    if pos == |lines| then Scan([], false)
    else
      match TurnAt(lines, kinds, pos, language, markers)
      case Raises => Scan([], true)
      case Continues(yielded, resume, l, m) =>
        var rest := ScanFrom(lines, kinds, resume, l, m);
        Scan(yielded + rest.blocks, rest.aborted)
  }

  /** Every scan yields its blocks in document order, each starting at or
      after the line the scan started from. */
  lemma {:induction false} ScanOrdered(lines: seq<string>, kinds: seq<LineKind>, pos: nat,
                                       language: string, markers: set<string>)
    requires |kinds| == |lines| && pos <= |lines|
    decreases |lines| - pos
    ensures InOrderWithin(ScanFrom(lines, kinds, pos, language, markers).blocks, pos, |lines|)
  {
    if pos < |lines| {
      var t := TurnAt(lines, kinds, pos, language, markers);
      if t.Continues? {
        ScanOrdered(lines, kinds, t.resume, t.defaultSyntax, t.markers);
        var rest := ScanFrom(lines, kinds, t.resume, t.defaultSyntax, t.markers).blocks;
        InOrderAppend(t.yielded, rest, pos, t.resume, |lines|);
      }
    }
  }

  /** `get_code_blocks` over the document's lines. */
  function GetCodeBlocks(lines: seq<string>): (r: Scan)
    ensures InOrderWithin(r.blocks, 0, |lines|)
  {
    ScanOrdered(lines, Kinds(lines), 0, "", {});
    ScanFrom(lines, Kinds(lines), 0, "", {})
  }

  // ---------------------------------------------------------------------
  // The content loop against a reference definition.

  /** `e` is the first line at or after `from` that ends the block, or
      `|lines|` when none does. */
  predicate FirstEndAt(lines: seq<string>, closer: string, from: int, e: int) {
    && from <= e <= |lines|
    && (e < |lines| ==> EndsAt(lines, closer, e))
    && forall i :: from <= i < e ==> !EndsAt(lines, closer, i)
  }

  /** Where the scan resumes after a block whose content stopped at `e`:
      after the terminating line, or at the end of the document. */
  function Resume(lines: seq<string>, e: nat): nat
    requires e <= |lines|
  {
    if e < |lines| then e + 1 else |lines|
  }

  /** The content is exactly the lines from `pos` up to the first line that
      ends the block, which is consumed; the scan resumes after it. */
  lemma {:induction false} CollectContentFindsEnd(lines: seq<string>, pos: nat, closer: string, e: nat)
    requires pos < |lines|
    requires FirstEndAt(lines, closer, pos, e)
    decreases |lines| - pos
    ensures CollectContent(lines, pos, closer) == (Resume(lines, e), lines[pos..e])
  {
    if pos < e {
      assert !EndsAt(lines, closer, pos);
      if pos + 1 < |lines| {
        CollectContentFindsEnd(lines, pos + 1, closer, e);
        assert lines[pos..e] == [lines[pos]] + lines[pos + 1..e];
        assert CollectContent(lines, pos, closer)
               == (CollectContent(lines, pos + 1, closer).0, [lines[pos]] + CollectContent(lines, pos + 1, closer).1);
      } else {
        assert Cursor(lines, pos).next.None? && Cursor(lines, pos).current == lines[pos];
        assert e == |lines| == pos + 1 && Resume(lines, e) == pos + 1;
        assert lines[pos..e] == [lines[pos]];
      }
    } else {
      assert EndsAt(lines, closer, pos);
      assert CollectContent(lines, pos, closer) == (pos + 1, []);
      assert Resume(lines, e) == pos + 1 && lines[pos..e] == [];
    }
  }

  // ---------------------------------------------------------------------
  // One turn of the scan loop, seen from the line that starts it.

  /** A dash line while no source language is set is ordinary text. */
  lemma DashesWithoutLanguageIgnored(lines: seq<string>, kinds: seq<LineKind>, k: nat, markers: set<string>)
    requires |kinds| == |lines| && k < |lines|
    requires kinds[k].Dashes?
    ensures TurnAt(lines, kinds, k, "", markers) == Continues([], k + 1, "", markers)
  {
  }

  /** A bare listing under a source language: the content runs from the
      line after the dashes to the first line whose right-stripped form is
      exactly the same dash string (so dash lines of any other length are
      content), or to the end of the document. The block starts at the
      index of its first content line's triple and takes the source
      language; the markers are reset. */
  lemma BareListing(lines: seq<string>, kinds: seq<LineKind>, k: nat, e: nat, language: string, markers: set<string>)
    requires |kinds| == |lines| && k + 1 < |lines|
    requires kinds[k].Dashes? && language != ""
    requires FirstEndAt(lines, kinds[k].closer, k + 1, e)
    ensures TurnAt(lines, kinds, k, language, markers)
            == Continues([Block(Cursor(lines, k + 1).index, language, lines[k + 1..e], markers)],
                         Resume(lines, e), language, {})
  {
    CollectContentFindsEnd(lines, k + 1, kinds[k].closer, e);
  }

  /** A bare listing on the last line aborts: taking its first content line
      calls `next()` on an exhausted cursor. */
  lemma BareListingOnLastLineAborts(lines: seq<string>, kinds: seq<LineKind>, language: string, markers: set<string>)
    requires |kinds| == |lines| > 0
    requires kinds[|lines| - 1].Dashes? && language != ""
    ensures TurnAt(lines, kinds, |lines| - 1, language, markers) == Raises
  {
  }

  /** A header followed by nothing but blank lines aborts: the look-ahead
      it inspects for dashes is `None`. */
  lemma HeaderWithoutContentAborts(lines: seq<string>, kinds: seq<LineKind>, k: nat, language: string, markers: set<string>)
    requires |kinds| == |lines| && k < |lines|
    requires kinds[k].Header?
    requires forall i :: k < i < |lines| ==> IsBlank(lines[i])
    ensures TurnAt(lines, kinds, k, language, markers) == Raises
  {
  }

  /** A header, blank lines, then a dash line at `q` that is not the last
      line: the dash string closes the block, whose content runs from
      `q + 1` to the first line that matches it exactly. */
  lemma HeaderWithListing(lines: seq<string>, kinds: seq<LineKind>, k: nat, q: nat, e: nat,
                          language: string, markers: set<string>)
    requires |kinds| == |lines| && k < q && q + 1 < |lines|
    requires kinds[k].Header?
    requires forall i :: k < i < q ==> IsBlank(lines[i])
    requires StartsWith(RStrip(lines[q]), "----")
    requires FirstEndAt(lines, RStrip(lines[q]), q + 1, e)
    ensures TurnAt(lines, kinds, k, language, markers)
            == Continues([Block(Cursor(lines, q + 1).index, kinds[k].syntax, lines[q + 1..e], markers)],
                         Resume(lines, e), language, {})
  {
    assert TurnAt(lines, kinds, k, language, markers) == HeaderBlock(lines, k + 1, kinds[k].syntax, language, markers);
    ListingAfterHeader(lines, k + 1, q, e, kinds[k].syntax, language, markers);
  }

  /** The header branch entered at `pos`, the line after the header. */
  lemma ListingAfterHeader(lines: seq<string>, pos: nat, q: nat, e: nat, syntax: string,
                           language: string, markers: set<string>)
    requires 0 < pos <= q && q + 1 < |lines|
    requires forall i :: pos <= i < q ==> IsBlank(lines[i])
    requires StartsWith(RStrip(lines[q]), "----")
    requires FirstEndAt(lines, RStrip(lines[q]), q + 1, e)
    ensures HeaderBlock(lines, pos, syntax, language, markers)
            == Continues([Block(Cursor(lines, q + 1).index, syntax, lines[q + 1..e], markers)],
                         Resume(lines, e), language, {})
  {
    HeaderReachesListing(lines, pos, q, syntax, language, markers);
    ContentBlockFindsEnd(lines, q + 1, RStrip(lines[q]), e, syntax, language, markers);
  }

  /** After blank lines, a dash line that is not last is taken as the
      closer and the content loop starts on the line after it. */
  lemma HeaderReachesListing(lines: seq<string>, pos: nat, q: nat, syntax: string,
                             language: string, markers: set<string>)
    requires 0 < pos <= q && q + 1 < |lines|
    requires forall i :: pos <= i < q ==> IsBlank(lines[i])
    requires StartsWith(RStrip(lines[q]), "----")
    ensures HeaderBlock(lines, pos, syntax, language, markers)
            == ContentBlock(lines, q + 1, RStrip(lines[q]), syntax, language, markers)
  {
    HeaderSkipsTo(lines, pos, q);
    assert Cursor(lines, q - 1).next == Some(lines[q]);
    assert Cursor(lines, q).next.Some?;
  }

  /** The content loop and the yield, given the first line that ends the block. */
  lemma ContentBlockFindsEnd(lines: seq<string>, pos: nat, closer: string, e: nat, syntax: string,
                             language: string, markers: set<string>)
    requires pos < |lines|
    requires FirstEndAt(lines, closer, pos, e)
    ensures ContentBlock(lines, pos, closer, syntax, language, markers)
            == Continues([Block(Cursor(lines, pos).index, syntax, lines[pos..e], markers)], Resume(lines, e), language, {})
  {
    CollectContentFindsEnd(lines, pos, closer, e);
  }

  /** A header, blank lines, then a line at `q` with text that is not a
      dash line: the block starts at that line and ends before the next
      blank line (or at the end of the document). */
  lemma HeaderWithParagraph(lines: seq<string>, kinds: seq<LineKind>, k: nat, q: nat, e: nat,
                            language: string, markers: set<string>)
    requires |kinds| == |lines| && k < q < |lines|
    requires kinds[k].Header?
    requires forall i :: k < i < q ==> IsBlank(lines[i])
    requires !IsBlank(lines[q]) && !StartsWith(RStrip(lines[q]), "----")
    requires FirstEndAt(lines, "", q, e)
    ensures q < e
    ensures TurnAt(lines, kinds, k, language, markers)
            == Continues([Block(Cursor(lines, q).index, kinds[k].syntax, lines[q..e], markers)],
                         Resume(lines, e), language, {})
  {
    HeaderSkipsTo(lines, k + 1, q);
    CollectContentFindsEnd(lines, q, "", e);
  }

  /** A header whose only following text is a dash line on the last line
      yields an empty block: that dash line is both the opener and the
      closer. */
  lemma HeaderWithDashesAtEnd(lines: seq<string>, kinds: seq<LineKind>, k: nat, language: string, markers: set<string>)
    requires |kinds| == |lines| && k + 1 < |lines|
    requires kinds[k].Header?
    requires forall i :: k < i < |lines| - 1 ==> IsBlank(lines[i])
    requires StartsWith(RStrip(lines[|lines| - 1]), "----")
    ensures TurnAt(lines, kinds, k, language, markers)
            == Continues([Block(|lines| - 2, kinds[k].syntax, [], markers)], |lines|, language, {})
  {
    var q := |lines| - 1;
    HeaderSkipsTo(lines, k + 1, q);
    assert EndsAt(lines, RStrip(lines[q]), q);
  }

  /** The blank-skipping loop from `pos` stops at `q` when the lines before
      `q` are blank and the line at `q` is not. */
  lemma HeaderSkipsTo(lines: seq<string>, pos: nat, q: nat)
    requires 0 < pos <= q < |lines|
    requires forall i :: pos <= i < q ==> IsBlank(lines[i])
    requires StartsWith(RStrip(lines[q]), "----") || !IsBlank(lines[q])
    ensures SkipBlank(lines, pos) == q
  {
    BlankIffStripsToNothing(lines[q]);
  }
}
