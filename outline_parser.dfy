/**
 * The outline parser, `parse_markdown` (main.py:15-32): one `(name, level)` record per
 * non-blank line, the level being the number of leading spaces.
 */
module OutlineParser {
  import opened Text
  import opened TreeModel

  /** The number of spaces a line starts with. */
  function LeadingSpaces(s: string): (n: nat)
    ensures n <= |s|
    ensures forall i :: 0 <= i < n ==> s[i] == ' '
    ensures n < |s| ==> s[n] != ' '
  {
    SpacesFrom(s, 0)
  }

  /** The end of the run of spaces that starts at `i`. */
  function SpacesFrom(s: string, i: nat): (n: nat)
    requires i <= |s|
    ensures i <= n <= |s|
    ensures forall j :: i <= j < n ==> s[j] == ' '
    ensures n < |s| ==> s[n] != ' '
    decreases |s| - i
  {
    if i < |s| && s[i] == ' ' then SpacesFrom(s, i + 1) else i
  }

  /** The record of one right-stripped, non-blank outline line. */
  function OutlineEntry(line: string): (e: Entry)
    requires line != [] && !IsSpace(line[|line| - 1])
    ensures 0 <= e.level < |line|
  {
    var n := LeadingSpaces(line);
    Entry(Strip(line[n..]), n)
  }

  /** The record of each line of `nb`. */
  function OutlineEntriesOf(nb: seq<string>): (es: seq<Entry>)
    requires forall k :: 0 <= k < |nb| ==> nb[k] != [] && !IsSpace(nb[k][|nb[k]| - 1])
  {
    seq(|nb|, k requires 0 <= k < |nb| => OutlineEntry(nb[k]))
  }

  /** The records `parse_markdown` returns for the first `n` lines of `lines`. */
  function OutlineEntries(lines: seq<string>, n: nat): (es: seq<Entry>)
    requires n <= |lines|
  {
    OutlineEntriesOf(NonBlankUpTo(lines, n))
  }

  lemma OutlineEntriesNext(lines: seq<string>, n: nat)
    requires n < |lines|
    ensures var l := RStrip(lines[n]);
      OutlineEntries(lines, n + 1) ==
      OutlineEntries(lines, n) + (if l == [] then [] else [OutlineEntry(l)])
  {
    var a, b := NonBlankUpTo(lines, n), NonBlankUpTo(lines, n + 1);
    var l := RStrip(lines[n]);
    assert b == a + (if l == [] then [] else [l]);
  }

  /** The records `parse_markdown` returns for a whole text. */
  function OutlineRecords(text: string): seq<Entry> {
    var lines := SplitLines(text);
    OutlineEntries(lines, |lines|)
  }

  /** `e` is read off `line`: its level is the number of spaces the line starts with,
      and its name is the rest of the line with the whitespace around it removed,
      never empty and with no whitespace at either end. */
  ghost predicate ReadsLine(e: Entry, line: string) {
    e.level == LeadingSpaces(line) && e.level <= |line| && e.name == Strip(line[e.level..]) &&
    e.name != [] && !IsSpace(e.name[0]) && !IsSpace(e.name[|e.name| - 1])
  }

  /** The record of a line that does not end in whitespace is read off it. */
  lemma OutlineEntryShape(l: string)
    requires l != [] && !IsSpace(l[|l| - 1])
    ensures ReadsLine(OutlineEntry(l), l)
  {
    var m := LeadingSpaces(l);
    assert !IsSpace(l[m..][|l| - m - 1]);
  }

  /** `parse_markdown` returns one record per non-blank line of the text, in order,
      each read off its line. */
  lemma OutlineRecordsAre(text: string)
    ensures |OutlineRecords(text)| == |NonBlankLines(text)|
    ensures forall k :: 0 <= k < |OutlineRecords(text)| ==>
      ReadsLine(OutlineRecords(text)[k], NonBlankLines(text)[k])
  {
    var nb, rs := NonBlankLines(text), OutlineRecords(text);
    forall k | 0 <= k < |rs| ensures ReadsLine(rs[k], nb[k]) {
      OutlineEntryShape(nb[k]);
    }
  }

  /** No name `parse_markdown` returns holds a line feed. */
  lemma OutlineNamesFlat(text: string)
    ensures forall k :: 0 <= k < |OutlineRecords(text)| ==> '\n' !in OutlineRecords(text)[k].name
  {
    var nb, rs := NonBlankLines(text), OutlineRecords(text);
    OutlineRecordsAre(text);
    NonBlankFlat(text);
    forall k | 0 <= k < |rs| ensures '\n' !in rs[k].name {
      var rest := nb[k][rs[k].level..];
      assert forall i :: 0 <= i < |rest| ==> rest[i] == nb[k][rs[k].level + i];
      assert '\n' !in rest;
    }
  }

  /** The body of `parse_markdown`'s loop for one kept line: count the leading spaces,
      then strip the rest. */
  method ParseOutlineLine(line: string) returns (e: Entry)
    requires line != [] && !IsSpace(line[|line| - 1])
    ensures e == OutlineEntry(line)
  {
    var level := 0;
    while level < |line| && line[level] == ' '
      invariant level <= |line|
      invariant SpacesFrom(line, level) == LeadingSpaces(line)
    {
      level := level + 1;
    }
    e := Entry(Strip(line[level..]), level);
  }

  /** One iteration of `parse_markdown`'s loop: line `i` is right-stripped and, unless
      it is then empty, parsed and appended. */
  method ParseOutlineStep(lines: seq<string>, i: nat, entries: seq<Entry>)
    returns (entries': seq<Entry>)
    requires i < |lines| && entries == OutlineEntries(lines, i)
    ensures entries' == OutlineEntries(lines, i + 1)
  {
    var line := RStrip(lines[i]);
    OutlineEntriesNext(lines, i);
    entries' := entries;
    if line != [] {
      var e := ParseOutlineLine(line);
      entries' := entries + [e];
    }
  }

  /** The loop of `parse_markdown` over the lines of the text. */
  method ParseOutlineLines(lines: seq<string>) returns (entries: seq<Entry>)
    ensures entries == OutlineEntries(lines, |lines|)
  {
    entries := [];
    var i := 0;
    while i < |lines|
      invariant i <= |lines|
      invariant entries == OutlineEntries(lines, i)
    {
      entries := ParseOutlineStep(lines, i, entries);
      i := i + 1;
    }
  }

  /** `parse_markdown`. */
  method ParseMarkdown(text: string) returns (entries: seq<Entry>)
    ensures entries == OutlineRecords(text)
  {
    entries := ParseOutlineLines(SplitLines(text));
  }
}
