/** The handful of Python `str` operations the scanners are written with.

    Strings are `seq<char>`. Python's `strip()` family removes Unicode
    whitespace; this model fixes the whitespace set to space and tab (lines
    come out of `str.splitlines()`, so they never hold a line terminator).
    `lower()` folds ASCII letters only. */
module Strings {

  /** The characters `strip()`, `lstrip()` and `rstrip()` remove. */
  const Whitespace: set<char> := {' ', '\t'}

  /** `not s.lstrip()`: the line holds whitespace only (or nothing). */
  predicate IsBlank(s: string) {
    LStrip(s) == ""
  }

  /** `s.startswith(prefix)` */
  predicate StartsWith(s: string, prefix: string) {
    |prefix| <= |s| && s[..|prefix|] == prefix
  }

  /** `s.endswith(suffix)` */
  predicate EndsWith(s: string, suffix: string) {
    |suffix| <= |s| && s[|s| - |suffix|..] == suffix
  }

  /** `s.lstrip(chars)` */
  function LStripChars(s: string, chars: set<char>): (r: string)
    ensures |r| <= |s|
  {
    if |s| > 0 && s[0] in chars then LStripChars(s[1..], chars) else s
  }

  /** `lstrip` removes the longest prefix made of `chars` and nothing else. */
  lemma {:induction false} LStripCharsSpec(s: string, chars: set<char>)
    ensures var r := LStripChars(s, chars);
            && r == s[|s| - |r|..]
            && (forall i :: 0 <= i < |s| - |r| ==> s[i] in chars)
            && (|r| > 0 ==> r[0] !in chars)
  {
    if |s| > 0 && s[0] in chars {
      LStripCharsSpec(s[1..], chars);
    }
  }

  /** `s.rstrip(chars)` */
  function RStripChars(s: string, chars: set<char>): (r: string)
    ensures |r| <= |s|
  {
    if |s| > 0 && s[|s| - 1] in chars then RStripChars(s[..|s| - 1], chars) else s
  }

  /** `rstrip` removes the longest suffix made of `chars` and nothing else. */
  lemma {:induction false} RStripCharsSpec(s: string, chars: set<char>)
    ensures var r := RStripChars(s, chars);
            && r == s[..|r|]
            && (forall i :: |r| <= i < |s| ==> s[i] in chars)
            && (|r| > 0 ==> r[|r| - 1] !in chars)
  {
    if |s| > 0 && s[|s| - 1] in chars {
      RStripCharsSpec(s[..|s| - 1], chars);
    }
  }

  /** `s.strip(chars)` */
  function StripChars(s: string, chars: set<char>): string {
    RStripChars(LStripChars(s, chars), chars)
  }

  /** What `strip` leaves neither starts nor ends with one of `chars`. */
  lemma StripCharsEnds(s: string, chars: set<char>)
    ensures var r := StripChars(s, chars);
            |r| > 0 ==> r[0] !in chars && r[|r| - 1] !in chars
  {
    var l := LStripChars(s, chars);
    LStripCharsSpec(s, chars);
    RStripCharsSpec(l, chars);
  }

  /** `lstrip` removes a leading run of `chars` and stops at the first other character. */
  lemma {:induction false} LStripCharsPrefix(run: string, rest: string, chars: set<char>)
    requires forall i :: 0 <= i < |run| ==> run[i] in chars
    requires |rest| == 0 || rest[0] !in chars
    decreases |run|
    ensures LStripChars(run + rest, chars) == rest
  {
    if |run| > 0 {
      assert (run + rest)[1..] == run[1..] + rest;
      LStripCharsPrefix(run[1..], rest, chars);
    } else {
      assert run + rest == rest;
    }
  }

  function LStrip(s: string): string { LStripChars(s, Whitespace) }
  function RStrip(s: string): string { RStripChars(s, Whitespace) }
  function Strip(s: string): string { StripChars(s, Whitespace) }

  /** A blank line is one made of whitespace only. */
  lemma BlankIffAllWhitespace(s: string)
    ensures IsBlank(s) <==> forall i :: 0 <= i < |s| ==> s[i] in Whitespace
  {
    LStripCharsSpec(s, Whitespace);
    if !IsBlank(s) {
      assert s[|s| - |LStrip(s)|] == LStrip(s)[0];
    }
  }

  /** Leading whitespace before a non-whitespace character is all `lstrip` removes. */
  lemma {:induction false} LStripBlankPrefix(sp: string, s: string)
    requires IsBlank(sp)
    requires |s| > 0 && s[0] !in Whitespace
    decreases |sp|
    ensures LStrip(sp + s) == s
  {
    if |sp| > 0 {
      assert (sp + s)[0] in Whitespace;
      assert (sp + s)[1..] == sp[1..] + s;
      LStripBlankPrefix(sp[1..], s);
    } else {
      assert sp + s == s;
    }
  }

  /** Dropping a prefix and then a blank run leaves the rest. */
  lemma DropPrefixThenLStrip(pre: string, sp: string, rest: string)
    requires IsBlank(sp) && |rest| > 0 && rest[0] !in Whitespace
    ensures LStrip(Drop(pre + sp + rest, |pre|)) == rest
  {
    assert Drop(pre + sp + rest, |pre|) == sp + rest;
    LStripBlankPrefix(sp, rest);
  }

  /** The three ways the source tests a line for blankness agree. */
  lemma BlankIffStripsToNothing(s: string)
    ensures IsBlank(s) <==> Strip(s) == ""
    ensures IsBlank(s) <==> RStrip(s) == ""
  {
    LStripCharsSpec(s, Whitespace);
    RStripCharsSpec(s, Whitespace);
    var l := LStrip(s);
    RStripCharsSpec(l, Whitespace);
    if !IsBlank(s) {
      assert |l| > 0 && l[0] !in Whitespace;
      assert s[|s| - |l|] == l[0];
      assert RStrip(s) != "";
      assert Strip(s) != "";
    }
  }

  /** `len(s) - len(s.lstrip())`: the width of the leading whitespace run. */
  function Indent(s: string): (n: nat)
    ensures n <= |s|
  {
    |s| - |LStrip(s)|
  }

  lemma IndentSpec(s: string)
    ensures var n := Indent(s);
            && (forall i :: 0 <= i < n ==> s[i] in Whitespace)
            && (n < |s| ==> s[n] !in Whitespace)
            && (n == |s| <==> IsBlank(s))
  {
    LStripCharsSpec(s, Whitespace);
    var n := Indent(s);
    if n < |s| {
      assert LStrip(s)[0] == s[n];
    }
  }

  /** `s[k:]` for a non-negative `k`: Python clamps the slice to the string. */
  function Drop(s: string, k: nat): (r: string)
    ensures |r| == if k < |s| then |s| - k else 0
  {
    if k < |s| then s[k..] else ""
  }

  /** Dropping no more than the leading whitespace keeps a non-blank line non-blank. */
  lemma DropWithinIndent(s: string, k: nat)
    requires k <= Indent(s)
    requires !IsBlank(s)
    ensures !IsBlank(Drop(s, k))
    ensures Indent(Drop(s, k)) == Indent(s) - k
  {
    IndentSpec(s);
    var n := Indent(s);
    var d := Drop(s, k);
    IndentSpec(d);
    assert d[n - k] == s[n];
    assert forall i :: 0 <= i < n - k ==> d[i] == s[k + i];
  }

  /** Python's `c.lower()` on one character, for ASCII letters. */
  function LowerChar(c: char): char {
    if 'A' <= c <= 'Z' then (c as int + 32) as char else c
  }

  /** `s.lower()` */
  function Lower(s: string): (r: string)
    ensures |r| == |s|
    ensures forall i :: 0 <= i < |s| ==> r[i] == LowerChar(s[i])
  {
    if |s| == 0 then "" else [LowerChar(s[0])] + Lower(s[1..])
  }

  /** `c * n` */
  function Repeat(c: char, n: nat): (r: string)
    ensures |r| == n
    ensures forall i :: 0 <= i < n ==> r[i] == c
  {
    if n == 0 then "" else [c] + Repeat(c, n - 1)
  }

  /** `sep` appears in `s` at position `i`. */
  predicate OccursAt(s: string, sep: string, i: int) {
    0 <= i && i + |sep| <= |s| && s[i..i + |sep|] == sep
  }

  /** `s.find(sep, from)`: the first occurrence at or after `from`, or -1. */
  function FindFrom(s: string, sep: string, from: nat): (r: int)
    decreases |s| - from
    ensures r == -1 || (from <= r && OccursAt(s, sep, r))
    ensures forall j :: from <= j && (r == -1 || j < r) ==> !OccursAt(s, sep, j)
  {
    if from + |sep| > |s| then -1
    else if s[from..from + |sep|] == sep then from
    else FindFrom(s, sep, from + 1)
  }

  /** `s.partition(sep)[2]`: what follows the first `sep`, or "" when there is none. */
  function PartitionAfter(s: string, sep: string): string {
    var k := FindFrom(s, sep, 0);
    if k < 0 then "" else s[k + |sep|..]
  }

  /** When `s` has `sep` at `k` and nowhere before, the partition is the rest after `k`. */
  lemma PartitionAtFirst(s: string, sep: string, k: nat)
    requires OccursAt(s, sep, k)
    requires forall j :: 0 <= j < k ==> !OccursAt(s, sep, j)
    ensures PartitionAfter(s, sep) == s[k + |sep|..]
  {
    var r := FindFrom(s, sep, 0);
    assert r != -1 && r >= k;
  }

  /** When the separator's first character does not occur in `pre`, the
      partition is whatever follows the separator placed after `pre`. */
  lemma PartitionAfterPrefix(pre: string, sep: string, x: string)
    requires |sep| > 0 && sep[0] !in pre
    ensures PartitionAfter(pre + sep + x, sep) == x
  {
    var line := pre + sep + x;
    var k := |pre|;
    assert line[k..k + |sep|] == sep;
    forall j | 0 <= j < k
      ensures !OccursAt(line, sep, j)
    {
      assert line[j] == pre[j];
    }
    PartitionAtFirst(line, sep, k);
    assert line[k + |sep|..] == x;
  }

  /** A blank run puts no character outside the whitespace set into a prefix. */
  lemma BlankRunHasOnly(pre: string, sp: string, c: char)
    requires IsBlank(sp) && c !in pre && c !in Whitespace
    ensures c !in pre + sp
  {
    BlankIffAllWhitespace(sp);
    var s := pre + sp;
    forall j | 0 <= j < |s|
      ensures s[j] != c
    {
      if j < |pre| {
        assert s[j] == pre[j];
      } else {
        assert s[j] == sp[j - |pre|];
      }
    }
  }

  /** `rstrip` keeps a line's first character unless it strips the whole
      line, which it cannot when that character is not whitespace; `lstrip`
      then keeps the line whole. */
  lemma LeadingChar(line: string)
    ensures |RStrip(line)| > 0 ==> RStrip(line)[0] == line[0]
    ensures |line| > 0 && line[0] !in Whitespace ==> LStrip(line) == line && |RStrip(line)| > 0
  {
    RStripCharsSpec(line, Whitespace);
  }

  /** `sep.join(parts)` */
  function Join(parts: seq<string>, sep: string): string
    decreases |parts|
  {
    if |parts| == 0 then ""
    else if |parts| == 1 then parts[0]
    else parts[0] + sep + Join(parts[1..], sep)
  }

  /** `s.split(sep)` for a one-character separator: the pieces between the
      separators, in order; joining them again gives `s` back. */
  function Split(s: string, sep: char): (parts: seq<string>)
    decreases |s|
    ensures |parts| >= 1
    ensures forall i :: 0 <= i < |parts| ==> sep !in parts[i]
    ensures Join(parts, [sep]) == s
  {
    if |s| == 0 then [""]
    else
      var rest := Split(s[1..], sep);
      if s[0] == sep then
        assert s == [sep] + s[1..];
        [""] + rest
      else
        var parts := [[s[0]] + rest[0]] + rest[1..];
        assert Join(parts, [sep]) == s by {
          if |rest| == 1 {
            assert s == [s[0]] + s[1..];
          } else {
            assert parts[1..] == rest[1..];
            assert Join(rest, [sep]) == rest[0] + [sep] + Join(rest[1..], [sep]);
            assert s == [s[0]] + s[1..];
          }
        }
        parts
  }

  /** Splitting after a first field without the separator. */
  lemma {:induction false} SplitAfterFirstField(a: string, b: string, sep: char)
    requires sep !in a
    decreases |a|
    ensures Split(a + [sep] + b, sep) == [a] + Split(b, sep)
  {
    var s := a + [sep] + b;
    if |a| == 0 {
      assert s[1..] == b;
    } else {
      assert s[1..] == a[1..] + [sep] + b;
      SplitAfterFirstField(a[1..], b, sep);
      assert [a[0]] + a[1..] == a;
    }
  }

  /** `split` breaks a string exactly when it holds the separator. */
  lemma SplitHasSecondFieldIffSeparator(s: string, sep: char)
    ensures sep in s <==> |Split(s, sep)| >= 2
  {
    var parts := Split(s, sep);
    if |parts| == 1 {
      assert s == parts[0];
    } else {
      assert Join(parts, [sep]) == parts[0] + [sep] + Join(parts[1..], [sep]);
      assert s[|parts[0]|] == sep;
    }
  }

  /** Splitting what was joined gives the pieces back, when no piece holds
      the separator. */
  lemma {:induction false} SplitJoin(parts: seq<string>, sep: char)
    requires |parts| > 0
    requires forall i :: 0 <= i < |parts| ==> sep !in parts[i]
    decreases |parts|
    ensures Split(Join(parts, [sep]), sep) == parts
  {
    if |parts| == 1 {
      SplitHasSecondFieldIffSeparator(parts[0], sep);
    } else {
      SplitJoin(parts[1..], sep);
      assert Join(parts, [sep]) == parts[0] + [sep] + Join(parts[1..], [sep]);
      SplitAfterFirstField(parts[0], Join(parts[1..], [sep]), sep);
      assert parts == [parts[0]] + parts[1..];
    }
  }
}
