/** What the three scanners share: the one-line-lookahead cursor, the QA
    marker vocabulary, the code-block record and the result of a scan. */
module Common {
  import opened Strings

  datatype Option<T> = None | Some(value: T)

  /** The markers the hooks recognise: "noqa" disables all checks. */
  const SupportedQaMarkers: set<string> := {"ignore-syntax", "noqa"}

  /** One step of the cursor: a line index, the current line and the line
      after it (`None` on the last line). */
  datatype Triple = Triple(index: int, current: string, next: Option<string>)

  /** The generator body after the first line has been taken: `k` is the
      position of the line `enumerate` hands out next and `lineNumber` the
      value the loop variable holds before it. */
  function Emit(lines: seq<string>, k: nat, lineNumber: int): (ts: seq<Triple>)
    requires 1 <= k <= |lines|
    decreases |lines| - k
    ensures |ts| == |lines| - k + 1
    ensures forall j :: 0 <= j < |ts| ==> ts[j].current == lines[k - 1 + j]
    ensures forall j :: 0 <= j < |ts| - 1 ==> ts[j].index == k - 1 + j && ts[j].next == Some(lines[k + j])
    ensures ts[|ts| - 1].next == None
    ensures ts[|ts| - 1].index == if k == |lines| then lineNumber else |lines| - 2
  {
    if k == |lines| then [Triple(lineNumber, lines[k - 1], None)]
    else [Triple(k - 1, lines[k - 1], Some(lines[k]))] + Emit(lines, k + 1, k - 1)
  }

  /** The triple the cursor yields at step `k`: the line's own index,
      except on the last triple, which repeats the index before it (or 0
      for a one-line document) because the loop variable is not advanced for
      the final yield; the line; the line after it, except on the last. */
  function Cursor(lines: seq<string>, k: nat): Triple
    requires k < |lines|
  {
    Triple(if k == |lines| - 1 && k > 0 then k - 1 else k,
           lines[k],
           if k + 1 < |lines| then Some(lines[k + 1]) else None)
  }

  /** The cursor over a document already split into lines, as the generator
      produces it: one triple per line, the `k`-th being `Cursor(lines, k)`.
      The scanners read the cursor through `Cursor`. */
  function PeekAhead(lines: seq<string>): (ts: seq<Triple>)
    ensures |ts| == |lines|
    ensures forall k :: 0 <= k < |ts| ==> ts[k] == Cursor(lines, k)
    ensures forall k :: 0 <= k < |ts| ==> ts[k].current == lines[k]
    ensures forall k :: 0 <= k < |ts| - 1 ==> ts[k].index == k && ts[k].next == Some(ts[k + 1].current)
    ensures |ts| > 0 ==> ts[|ts| - 1].next == None && ts[|ts| - 1].index == if |ts| == 1 then 0 else |ts| - 2
  {
    if |lines| == 0 then [] else Emit(lines, 1, 0)
  }

  /** A code block as a scanner yields it: the index of its first content
      line, its syntax label, its content lines (joined with "\n" before
      they reach a checker) and the QA markers attached to it. */
  datatype Block = Block(start: int, syntax: string, content: seq<string>, markers: set<string>)

  /** What a scan produced: the blocks yielded in order and whether the
      generator then raised (an exhausted `next()` or a method called on
      `None`) instead of finishing. */
  datatype Scan = Scan(blocks: seq<Block>, aborted: bool)

  /** `yield b`, followed by the rest of the scan. */
  function Yield(b: Block, rest: Scan): Scan {
    Scan([b] + rest.blocks, rest.aborted)
  }

  /** Blocks in document order: each starts within `[lo, hi)` and every
      block starts after the one before it. */
  predicate InOrderWithin(blocks: seq<Block>, lo: int, hi: int) {
    && (forall i :: 0 <= i < |blocks| ==> lo <= blocks[i].start < hi)
    && (forall i, j :: 0 <= i < j < |blocks| ==> blocks[i].start < blocks[j].start)
  }

  /** Blocks in order before `mid` followed by blocks in order from `mid` on
      are in order. */
  lemma InOrderAppend(front: seq<Block>, back: seq<Block>, lo: int, mid: int, hi: int)
    requires lo <= mid <= hi
    requires InOrderWithin(front, lo, mid) && InOrderWithin(back, mid, hi)
    ensures InOrderWithin(front + back, lo, hi)
  {
    var all := front + back;
    forall i | |front| <= i < |all|
      ensures all[i] == back[i - |front|]
    {
    }
  }

  /** One turn of a scan loop: the generator raises, or it yields some
      blocks and carries on at the triple `resume` with the given default
      syntax (where the dialect has one) and captured markers. */
  datatype Turn = Raises | Continues(yielded: seq<Block>, resume: nat, defaultSyntax: string, markers: set<string>)

  /** `{item.strip() for item in payload.split(",")}` */
  function MarkerSet(payload: string): set<string> {
    set item | item in Split(payload, ',') :: Strip(item)
  }

  /** A marker list written as comma-separated items reads back as exactly
      those items, each stripped: "noqa, syntax" gives {"noqa", "syntax"}. */
  lemma MarkerSetOfList(items: seq<string>)
    requires |items| > 0
    requires forall i :: 0 <= i < |items| ==> ',' !in items[i]
    ensures MarkerSet(Join(items, ",")) == set i | 0 <= i < |items| :: Strip(items[i])
  {
    SplitJoin(items, ',');
    assert Split(Join(items, [',']), ',') == items;
    var m := MarkerSet(Join(items, ","));
    forall x | x in m
      ensures exists i :: 0 <= i < |items| && x == Strip(items[i])
    {
      var item :| item in items && x == Strip(item);
      var i :| 0 <= i < |items| && items[i] == item;
    }
  }
}
