/** The Markdown scanner (src/hooks/markdown.py): backtick and tilde fences,
    each closed by a line that starts with the opener's fence run, and a
    marker comment that attaches QA markers to the next block. */
module Markdown {
  import opened Strings
  import opened Common

  const FileExtensions: set<string> := {".markdown", ".md"}

  /** The comment that carries QA markers for the next block. */
  const MarkerComment: string := "[//]: # (check-code-block:"

  predicate IsMarkerComment(line: string) {
    StartsWith(line, MarkerComment)
  }

  /** The markers named by a marker comment: the text after
      "check-code-block", with ':' and ')' stripped from both ends, split on
      commas, each item stripped. */
  function CommentMarkers(line: string): set<string> {
    MarkerSet(StripChars(PartitionAfter(line, "check-code-block"), {':', ')'}))
  }

  /** In a marker comment the payload is everything after the fixed prefix's
      "check-code-block" (the prefix's 26th character on). */
  lemma MarkerCommentPayload(line: string)
    requires IsMarkerComment(line)
    ensures CommentMarkers(line) == MarkerSet(StripChars(line[25..], {':', ')'}))
  {
    assert line[..26] == MarkerComment;
    assert line[9..25] == MarkerComment[9..25] == "check-code-block";
    forall j | 0 <= j < 9
      ensures !OccursAt(line, "check-code-block", j)
    {
      assert line[j] == MarkerComment[j] != 'c';
      if j + 16 <= |line| {
        assert line[j..j + 16][0] == line[j];
      }
    }
    PartitionAtFirst(line, "check-code-block", 9);
  }

  /** `len(line) - len(line.lstrip(ch))`: how many copies of `ch` the line starts with. */
  function RunLength(line: string, ch: char): (n: nat)
    ensures n <= |line|
    ensures forall i :: 0 <= i < n ==> line[i] == ch
    ensures n < |line| ==> line[n] != ch
  {
    LStripCharsSpec(line, {ch});
    |line| - |LStripChars(line, {ch})|
  }

  /** The closer for a line opening with three copies of `ch`. */
  function FenceRun(line: string, ch: char): (closer: string)
    requires StartsWith(line, [ch, ch, ch])
    ensures 3 <= |closer| <= |line| && line[0] == ch
    ensures forall i :: 0 <= i < |closer| ==> closer[i] == ch && line[i] == ch
    ensures |closer| < |line| ==> line[|closer|] != ch
  {
    assert line[..3] == [ch, ch, ch];
    assert line[0] == ch && line[1] == ch && line[2] == ch;
    Repeat(ch, RunLength(line, ch))
  }

  /** The closing fence an opening line asks for: the opener's leading run
      of backticks (or tildes), repeated exactly. */
  function FenceCloser(line: string): (closer: Option<string>)
    ensures closer.Some? <==> StartsWith(line, "```") || StartsWith(line, "~~~")
    ensures closer.Some? ==>
              && 3 <= |closer.value| <= |line|
              && (line[0] == '`' || line[0] == '~')
              && (forall i :: 0 <= i < |closer.value| ==> closer.value[i] == line[0] && line[i] == line[0])
              && (|closer.value| < |line| ==> line[|closer.value|] != line[0])
  {
    if StartsWith(line, "```") then Some(FenceRun(line, '`'))
    else if StartsWith(line, "~~~") then Some(FenceRun(line, '~'))
    else None
  }

  /** The opener with its fence characters removed, stripped and lowercased. */
  function FenceSyntax(line: string): string {
    Lower(Strip(LStripChars(line, {'`', '~'})))
  }

  /** A fence's syntax label has no ASCII capitals and no surrounding whitespace. */
  lemma FenceSyntaxShape(line: string)
    ensures var syntax := FenceSyntax(line);
            && |syntax| <= |line|
            && (forall i :: 0 <= i < |syntax| ==> !('A' <= syntax[i] <= 'Z'))
            && (|syntax| > 0 ==> syntax[0] !in Whitespace && syntax[|syntax| - 1] !in Whitespace)
  {
    StripCharsEnds(LStripChars(line, {'`', '~'}), Whitespace);
  }

  /** The syntax of an opener is its info string, whatever run of backticks
      and tildes precedes it (a mixed run such as "``~" is removed whole). */
  lemma FenceSyntaxOfInfo(run: string, info: string)
    requires forall i :: 0 <= i < |run| ==> run[i] in {'`', '~'}
    requires |info| == 0 || info[0] !in {'`', '~'}
    ensures FenceSyntax(run + info) == Lower(Strip(info))
  {
    LStripCharsPrefix(run, info, {'`', '~'});
  }

  /** A content line ends the block when, right-stripped, it starts with the closer. */
  predicate Closes(line: string, closer: string) {
    StartsWith(RStrip(line), closer)
  }

  /** A line closes a fence exactly when it begins with at least as many
      copies of the fence character as the opener had: a longer run closes,
      a shorter run, the other fence character or an indented fence does not. */
  lemma ClosesIffLeadingRun(opener: string, line: string)
    requires FenceCloser(opener).Some?
    ensures var c := FenceCloser(opener).value;
            Closes(line, c) <==> |c| <= |line| && forall i :: 0 <= i < |c| ==> line[i] == opener[0]
  {
    var c := FenceCloser(opener).value;
    var r := RStrip(line);
    RStripCharsSpec(line, Whitespace);
    if |c| <= |line| && forall i :: 0 <= i < |c| ==> line[i] == opener[0] {
      assert line[|c| - 1] !in Whitespace;
      assert |r| >= |c|;
      assert forall i :: 0 <= i < |c| ==> r[i] == line[i] == c[i];
      assert r[..|c|] == c;
    }
  }

  /** Between two fence lines, the later closes the earlier exactly when it
      uses the same character and its run is at least as long. */
  lemma FenceClosesIffSameCharAtLeastAsLong(opener: string, line: string)
    requires FenceCloser(opener).Some? && FenceCloser(line).Some?
    ensures Closes(line, FenceCloser(opener).value)
            <==> line[0] == opener[0] && |FenceCloser(line).value| >= |FenceCloser(opener).value|
  {
    var c := FenceCloser(opener).value;
    var d := FenceCloser(line).value;
    ClosesIffLeadingRun(opener, line);
  }

  /** The content loop: `next` is the look-ahead of the triple just taken and
      `pos` the position of the next triple. Returns the position of the
      triple after the content (the closer's, if one was found) and the
      content lines; `None` when the cursor runs dry mid-block. */
  function CollectFence(lines: seq<string>, pos: nat, next: Option<string>, closer: string)
    : (r: Option<(nat, seq<string>)>)
    requires pos <= |lines|
    decreases |lines| - pos
    ensures r.Some? ==> pos <= r.value.0 <= |lines| && |r.value.1| == r.value.0 - pos
  {
    if next.None? || Closes(next.value, closer) then Some((pos, []))
    else if pos == |lines| then None
    else
      var t := Cursor(lines, pos);
      var rest := CollectFence(lines, pos + 1, t.next, closer);
      if rest.None? then None else Some((rest.value.0, [t.current] + rest.value.1))
  }

  /** The scan loop from the triple at `pos`, with `markers` captured so far. */
  function ScanFrom(lines: seq<string>, pos: nat, markers: set<string>): (r: Scan)
    requires pos <= |lines|
    decreases |lines| - pos
    ensures 2 * |r.blocks| <= |lines| - pos
  {
    if pos == |lines| then Scan([], false)
    else
      var t := Cursor(lines, pos);
      if IsMarkerComment(t.current) then ScanFrom(lines, pos + 1, CommentMarkers(t.current))
      else
        match FenceCloser(t.current)
        case None => ScanFrom(lines, pos + 1, markers)
        case Some(closer) =>
          match CollectFence(lines, pos + 1, t.next, closer)
          case None => Scan([], true)
          case Some((end, content)) =>
            // The closer is taken with one more `next()`, which raises when
            // the content ran to the end of the document.
            if end == |lines| then Scan([], true)
            else Yield(Block(t.index + 1, FenceSyntax(t.current), content, markers), ScanFrom(lines, end + 1, {}))
  }

  /** `get_code_blocks` over the document's lines. */
  function GetCodeBlocks(lines: seq<string>): (r: Scan)
    ensures InOrderWithin(r.blocks, 0, |lines|)
  {
    ScanOrdered(lines, 0, {});
    ScanFrom(lines, 0, {})
  }

  /** The content loop starting after line `pos - 1` stops at the first line
      at or after `pos` that closes the fence (or at the end of the
      document) and collects exactly the lines before it. */
  lemma {:induction false} CollectFenceFindsCloser(lines: seq<string>, pos: nat, closer: string)
    requires 0 < pos <= |lines|
    decreases |lines| - pos
    ensures var r := CollectFence(lines, pos, Cursor(lines, pos - 1).next, closer);
            && r.Some?
            && pos <= r.value.0 <= |lines|
            && r.value.1 == lines[pos..r.value.0]
            && (forall i :: pos <= i < r.value.0 ==> !Closes(lines[i], closer))
            && (r.value.0 < |lines| ==> Closes(lines[r.value.0], closer))
  {
    var next := Cursor(lines, pos - 1).next;
    assert next == if pos < |lines| then Some(lines[pos]) else None;
    if pos < |lines| && !Closes(lines[pos], closer) {
      CollectFenceFindsCloser(lines, pos + 1, closer);
      var t := Cursor(lines, pos);
      var rest := CollectFence(lines, pos + 1, t.next, closer);
      assert t.current == lines[pos];
      assert CollectFence(lines, pos, next, closer) == Some((rest.value.0, [lines[pos]] + rest.value.1));
      assert lines[pos..rest.value.0] == [lines[pos]] + lines[pos + 1..rest.value.0];
    } else {
      assert CollectFence(lines, pos, next, closer) == Some((pos, []));
    }
  }

  /** Line `j` is the first line after `k` that closes `closer`. */
  predicate FirstCloserAt(lines: seq<string>, k: nat, closer: string, j: int) {
    && k < j < |lines|
    && Closes(lines[j], closer)
    && forall i :: k < i < j ==> !Closes(lines[i], closer)
  }

  /** An opening fence at line `k` whose first closing line is `j` yields
      one block, started at `k + 1`, whose content is the lines strictly
      between the two, carrying the markers captured so far; scanning resumes
      after the closer with no markers. */
  lemma FencedBlock(lines: seq<string>, k: nat, j: nat, markers: set<string>)
    requires k < |lines|
    requires !IsMarkerComment(lines[k]) && FenceCloser(lines[k]).Some?
    requires FirstCloserAt(lines, k, FenceCloser(lines[k]).value, j)
    ensures ScanFrom(lines, k, markers)
            == Yield(Block(k + 1, FenceSyntax(lines[k]), lines[k + 1..j], markers), ScanFrom(lines, j + 1, {}))
  {
    FenceCollectsUpTo(lines, k, j);
    FenceTurn(lines, k, markers, j, lines[k + 1..j]);
  }

  /** The content loop of an opening fence at `k` whose first closing line
      is `j` stops at `j` with the lines strictly between the two. */
  lemma FenceCollectsUpTo(lines: seq<string>, k: nat, j: nat)
    requires k < |lines| && FenceCloser(lines[k]).Some?
    requires FirstCloserAt(lines, k, FenceCloser(lines[k]).value, j)
    ensures CollectFence(lines, k + 1, Cursor(lines, k).next, FenceCloser(lines[k]).value) == Some((j, lines[k + 1..j]))
  {
    var closer := FenceCloser(lines[k]).value;
    CollectFenceFindsCloser(lines, k + 1, closer);
    var end := CollectFence(lines, k + 1, Cursor(lines, k).next, closer).value.0;
    // Mention both candidate closers so that the two "first" facts meet.
    ghost var atEnd := end < |lines| && Closes(lines[end], closer);
    ghost var atJ := Closes(lines[j], closer);
    assert end == j;
  }

  /** An opening fence with no closing line after it aborts the scan: the
      closer is taken with one more `next()` on an exhausted cursor, so the
      block is never yielded (also when the opener is the last line). */
  lemma UnterminatedFenceAborts(lines: seq<string>, k: nat, markers: set<string>)
    requires k < |lines|
    requires !IsMarkerComment(lines[k]) && FenceCloser(lines[k]).Some?
    requires forall j :: k < j < |lines| ==> !Closes(lines[j], FenceCloser(lines[k]).value)
    ensures ScanFrom(lines, k, markers) == Scan([], true)
  {
    CollectFenceFindsCloser(lines, k + 1, FenceCloser(lines[k]).value);
  }

  /** A line that is neither a marker comment nor a fence opener. */
  predicate Quiet(line: string) {
    !IsMarkerComment(line) && FenceCloser(line).None?
  }

  /** Quiet lines pass by without touching the captured markers. */
  lemma {:induction false} QuietLinesSkipped(lines: seq<string>, lo: nat, hi: nat, markers: set<string>)
    requires lo <= hi <= |lines|
    requires forall i {:trigger Quiet(lines[i])} :: lo <= i < hi ==> Quiet(lines[i])
    decreases hi - lo
    ensures ScanFrom(lines, lo, markers) == ScanFrom(lines, hi, markers)
  {
    if lo < hi {
      assert Quiet(lines[lo]);
      SkipTurn(lines, lo, markers);
      QuietLinesSkipped(lines, lo + 1, hi, markers);
    }
  }

  /** A marker comment's markers reach the next fence opener across any
      number of quiet lines, replacing whatever was captured before. */
  lemma MarkersReachNextFence(lines: seq<string>, k: nat, f: nat, markers: set<string>)
    requires k < f <= |lines|
    requires IsMarkerComment(lines[k])
    requires forall i :: k < i < f ==> Quiet(lines[i])
    ensures ScanFrom(lines, k, markers) == ScanFrom(lines, f, CommentMarkers(lines[k]))
  {
    QuietLinesSkipped(lines, k + 1, f, CommentMarkers(lines[k]));
  }

  /** A document without fence openers yields no blocks and finishes. */
  lemma {:induction false} NoFenceNoBlocks(lines: seq<string>, pos: nat, markers: set<string>)
    requires pos <= |lines|
    requires forall i {:trigger FenceCloser(lines[i])} :: 0 <= i < |lines| ==> FenceCloser(lines[i]).None?
    decreases |lines| - pos
    ensures ScanFrom(lines, pos, markers) == Scan([], false)
  {
    if pos < |lines| {
      assert FenceCloser(lines[pos]).None?;
      SkipTurn(lines, pos, markers);
      if IsMarkerComment(lines[pos]) {
        NoFenceNoBlocks(lines, pos + 1, CommentMarkers(lines[pos]));
      } else {
        NoFenceNoBlocks(lines, pos + 1, markers);
      }
    }
  }

  /** Blocks come out in document order, within the lines the scan covers:
      a block starts on the line after its opener and the scan resumes after
      its closer. */
  lemma {:induction false} ScanOrdered(lines: seq<string>, pos: nat, markers: set<string>)
    requires pos <= |lines|
    decreases |lines| - pos
    ensures InOrderWithin(ScanFrom(lines, pos, markers).blocks, pos, |lines|)
  {
    if pos < |lines| {
      if IsMarkerComment(lines[pos]) || FenceCloser(lines[pos]).None? {
        var m := if IsMarkerComment(lines[pos]) then CommentMarkers(lines[pos]) else markers;
        SkipTurn(lines, pos, markers);
        ScanOrdered(lines, pos + 1, m);
      } else {
        var c := CollectFence(lines, pos + 1, Cursor(lines, pos).next, FenceCloser(lines[pos]).value);
        if c.Some? && c.value.0 < |lines| {
          ScanOrdered(lines, c.value.0 + 1, {});
          FenceTurnOrdered(lines, pos, markers, c.value.0, c.value.1);
        } else {
          FenceAborts(lines, pos, markers);
        }
      }
    }
  }

  /** A line that opens no fence moves the scan on by one line, with the
      markers of a marker comment replacing those captured so far. */
  lemma SkipTurn(lines: seq<string>, pos: nat, markers: set<string>)
    requires pos < |lines|
    requires IsMarkerComment(lines[pos]) || FenceCloser(lines[pos]).None?
    ensures ScanFrom(lines, pos, markers)
            == ScanFrom(lines, pos + 1, if IsMarkerComment(lines[pos]) then CommentMarkers(lines[pos]) else markers)
  {
    assert Cursor(lines, pos).current == lines[pos];
  }

  /** An opening fence whose content loop stops before the end yields its
      block; the scan resumes after the closer. */
  lemma FenceTurn(lines: seq<string>, pos: nat, markers: set<string>, end: nat, content: seq<string>)
    requires pos < |lines|
    requires !IsMarkerComment(lines[pos]) && FenceCloser(lines[pos]).Some?
    requires CollectFence(lines, pos + 1, Cursor(lines, pos).next, FenceCloser(lines[pos]).value) == Some((end, content))
    requires end < |lines|
    ensures pos < end
    ensures ScanFrom(lines, pos, markers) == Yield(Block(pos + 1, FenceSyntax(lines[pos]), content, markers), ScanFrom(lines, end + 1, {}))
  {
    var t := Cursor(lines, pos);
    var closer := FenceCloser(lines[pos]).value;
    assert pos + 1 <= end < |lines|;
    assert t.index == pos && t.current == lines[pos];
    assert FenceCloser(t.current) == Some(closer);
    assert !IsMarkerComment(t.current);
    assert CollectFence(lines, pos + 1, t.next, closer) == Some((end, content));
    assert ScanFrom(lines, pos, markers) == Yield(Block(t.index + 1, FenceSyntax(t.current), content, markers), ScanFrom(lines, end + 1, {}));
  }

  /** The block of an opening fence comes before those of the scan after its closer. */
  lemma FenceTurnOrdered(lines: seq<string>, pos: nat, markers: set<string>, end: nat, content: seq<string>)
    requires pos < |lines|
    requires !IsMarkerComment(lines[pos]) && FenceCloser(lines[pos]).Some?
    requires CollectFence(lines, pos + 1, Cursor(lines, pos).next, FenceCloser(lines[pos]).value) == Some((end, content))
    requires end < |lines|
    requires InOrderWithin(ScanFrom(lines, end + 1, {}).blocks, end + 1, |lines|)
    ensures InOrderWithin(ScanFrom(lines, pos, markers).blocks, pos, |lines|)
  {
    FenceTurn(lines, pos, markers, end, content);
    var b := Block(pos + 1, FenceSyntax(lines[pos]), content, markers);
    InOrderAppend([b], ScanFrom(lines, end + 1, {}).blocks, pos, end + 1, |lines|);
  }

  /** An opening fence whose content loop runs dry yields nothing. */
  lemma FenceAborts(lines: seq<string>, pos: nat, markers: set<string>)
    requires pos < |lines|
    requires !IsMarkerComment(lines[pos]) && FenceCloser(lines[pos]).Some?
    requires var c := CollectFence(lines, pos + 1, Cursor(lines, pos).next, FenceCloser(lines[pos]).value);
             !(c.Some? && c.value.0 < |lines|)
    ensures ScanFrom(lines, pos, markers).blocks == []
  {
  }
}
