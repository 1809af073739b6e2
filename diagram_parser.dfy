/**
 * The diagram parser, `parse_tree_text` (main.py:81-119): one `(name, level)` record per
 * non-blank line of a box-glyph diagram. The level counts whole indentation units of
 * spaces anywhere on the line, plus one when the line holds a branch glyph; the name is
 * what follows the last space or drawing character, stripped.
 */
module DiagramParser {
  import opened Text
  import opened TreeModel

  /** The characters a name cannot start after: space and the four drawing characters.
      The source's list also holds a four-space string, which no single character
      equals. */
  predicate IsSeparator(c: char) {
    c == ' ' || c == Bar || c == Tee || c == Corner || c == Stroke
  }

  /** The glyphs whose presence adds one to a line's level. */
  predicate IsGlyph(c: char) {
    c == Bar || c == Tee || c == Corner
  }

  /** The number of spaces in `s[..n]`. */
  function CountSpaces(s: string, n: nat): (c: nat)
    requires n <= |s|
    ensures c <= n
    decreases n
  {
    if n == 0 then 0 else CountSpaces(s, n - 1) + (if s[n - 1] == ' ' then 1 else 0)
  }

  /** One past the last separator in `s[..n]`, or 0 when there is none. */
  function NameStart(s: string, n: nat): (b: nat)
    requires n <= |s|
    ensures b <= n
    ensures b == 0 || IsSeparator(s[b - 1])
    ensures forall j :: b <= j < n ==> !IsSeparator(s[j])
    decreases n
  {
    if n == 0 then 0 else if IsSeparator(s[n - 1]) then n else NameStart(s, n - 1)
  }

  /** The number of whole units of `unit` spaces in `spaces` spaces; nothing when the
      unit is empty, since the counter of `parse_tree_text`, just incremented, never
      equals 0. */
  function SpaceLevel(spaces: nat, unit: nat): nat
    decreases spaces
  {
    if unit == 0 || spaces < unit then 0 else 1 + SpaceLevel(spaces - unit, unit)
  }

  /** The spaces left over after the whole units. */
  function SpaceRest(spaces: nat, unit: nat): nat
    decreases spaces
  {
    if unit == 0 || spaces < unit then spaces else SpaceRest(spaces - unit, unit)
  }

  /** `SpaceLevel` and `SpaceRest` are the quotient and remainder of the division by a
      non-empty unit. */
  lemma {:induction false} SpaceDivision(spaces: nat, unit: nat)
    requires unit > 0
    ensures SpaceLevel(spaces, unit) * unit + SpaceRest(spaces, unit) == spaces
    ensures SpaceRest(spaces, unit) < unit
    decreases spaces
  {
    if spaces >= unit {
      SpaceDivision(spaces - unit, unit);
      var q := SpaceLevel(spaces - unit, unit);
      assert (1 + q) * unit == unit + q * unit;
    }
  }

  /** One more space either completes a unit, resetting the rest, or adds to the rest. */
  lemma {:induction false} SpaceStep(spaces: nat, unit: nat)
    requires unit > 0
    ensures SpaceRest(spaces, unit) + 1 == unit ==>
      SpaceLevel(spaces + 1, unit) == SpaceLevel(spaces, unit) + 1 && SpaceRest(spaces + 1, unit) == 0
    ensures SpaceRest(spaces, unit) + 1 < unit ==>
      SpaceLevel(spaces + 1, unit) == SpaceLevel(spaces, unit) &&
      SpaceRest(spaces + 1, unit) == SpaceRest(spaces, unit) + 1
    decreases spaces
  {
    if spaces >= unit {
      SpaceStep(spaces - unit, unit);
    }
  }

  /** The line holds a branch glyph somewhere. */
  predicate HasGlyph(s: string) {
    exists j :: 0 <= j < |s| && IsGlyph(s[j])
  }

  /** The record of one right-stripped, non-blank diagram line. */
  function DiagramEntry(line: string, unit: nat): Entry {
    Entry(Strip(line[NameStart(line, |line|)..]),
          SpaceLevel(CountSpaces(line, |line|), unit) + (if HasGlyph(line) then 1 else 0))
  }

  /** The record of each line of `nb`. */
  function DiagramEntriesOf(nb: seq<string>, unit: nat): seq<Entry> {
    seq(|nb|, k requires 0 <= k < |nb| => DiagramEntry(nb[k], unit))
  }

  /** The records `parse_tree_text` returns for the first `n` lines of `lines`. */
  function DiagramEntries(lines: seq<string>, n: nat, unit: nat): seq<Entry>
    requires n <= |lines|
  {
    DiagramEntriesOf(NonBlankUpTo(lines, n), unit)
  }

  /** The records `parse_tree_text` returns for a whole text. */
  function DiagramRecords(text: string, indent: string): seq<Entry> {
    var lines := SplitLines(text);
    DiagramEntries(lines, |lines|, |indent|)
  }

  lemma DiagramEntriesNext(lines: seq<string>, n: nat, unit: nat)
    requires n < |lines|
    ensures var l := RStrip(lines[n]);
      DiagramEntries(lines, n + 1, unit) ==
      DiagramEntries(lines, n, unit) + (if l == [] then [] else [DiagramEntry(l, unit)])
  {
    var a, b := NonBlankUpTo(lines, n), NonBlankUpTo(lines, n + 1);
    var l := RStrip(lines[n]);
    assert b == a + (if l == [] then [] else [l]);
  }

  /** A record's name contains no space and no drawing character. */
  lemma DiagramNameClean(line: string, unit: nat)
    ensures forall i :: 0 <= i < |DiagramEntry(line, unit).name| ==>
      !IsSeparator(DiagramEntry(line, unit).name[i])
  {
    var b := NameStart(line, |line|);
    var rest := line[b..];
    var name := Strip(rest);
    forall i | 0 <= i < |name| ensures !IsSeparator(name[i]) {
      assert name[i] in rest;
      var j :| 0 <= j < |rest| && rest[j] == name[i];
      assert rest[j] == line[b + j];
    }
  }

  /** `parse_tree_text` returns one record per non-blank line of the text, in order,
      each that line's record; no name holds a space, a drawing character or a line
      feed. */
  lemma DiagramRecordsAre(text: string, indent: string)
    ensures var rs, nb := DiagramRecords(text, indent), NonBlankLines(text);
      |rs| == |nb| &&
      forall k :: 0 <= k < |rs| ==>
        rs[k] == DiagramEntry(nb[k], |indent|) && '\n' !in rs[k].name &&
        (forall i :: 0 <= i < |rs[k].name| ==> !IsSeparator(rs[k].name[i]))
  {
    var rs, nb := DiagramRecords(text, indent), NonBlankLines(text);
    NonBlankFlat(text);
    forall k | 0 <= k < |rs|
      ensures '\n' !in rs[k].name && forall i :: 0 <= i < |rs[k].name| ==> !IsSeparator(rs[k].name[i])
    {
      DiagramNameClean(nb[k], |indent|);
      var rest := nb[k][NameStart(nb[k], |nb[k]|)..];
      assert forall i :: 0 <= i < |rest| ==> rest[i] in nb[k];
      assert '\n' !in rest;
    }
  }

  /** `CountSpaces` counts the space characters of the prefix. */
  lemma {:induction false} CountSpacesIsCount(s: string, n: nat)
    requires n <= |s|
    ensures CountSpaces(s, n) == multiset(s[..n])[' ']
    decreases n
  {
    if n > 0 {
      CountSpacesIsCount(s, n - 1);
      assert s[..n] == s[..n - 1] + [s[n - 1]];
    }
  }

  /** Multiples of `unit` grow by at least `unit` per step. */
  lemma {:induction false} TimesGrow(a: nat, b: nat, unit: nat)
    requires a < b
    ensures a * unit + unit <= b * unit
    decreases b - a
  {
    assert (a + 1) * unit == a * unit + unit;
    if a + 1 < b {
      TimesGrow(a + 1, b, unit);
    }
  }

  /** A quotient and remainder below the divisor determine the floor division. */
  lemma FloorDivision(c: nat, unit: nat, q: nat, r: nat)
    requires unit > 0 && q * unit + r == c && r < unit
    ensures c / unit == q
  {
    var q' := c / unit;
    assert q' * unit + c % unit == c;
    if q' < q {
      TimesGrow(q', q, unit);
    } else if q < q' {
      TimesGrow(q, q', unit);
    }
  }

  /** With a non-empty unit, a record's level is the number of spaces on the line
      divided by the unit, rounded down, plus one exactly when the line holds a branch
      glyph. */
  lemma DiagramLevel(line: string, unit: nat)
    requires unit > 0
    ensures DiagramEntry(line, unit).level ==
              multiset(line)[' '] / unit + (if HasGlyph(line) then 1 else 0)
  {
    var c := CountSpaces(line, |line|);
    CountSpacesIsCount(line, |line|);
    assert line[..|line|] == line;
    SpaceDivision(c, unit);
    FloorDivision(c, unit, SpaceLevel(c, unit), SpaceRest(c, unit));
  }

  /** A record's name is the stripped part of its line after the last space or drawing
      character, or the whole line stripped when there is none. */
  lemma DiagramName(line: string, unit: nat)
    ensures exists b :: 0 <= b <= |line| && (b == 0 || IsSeparator(line[b - 1])) &&
              (forall j :: b <= j < |line| ==> !IsSeparator(line[j])) &&
              DiagramEntry(line, unit).name == Strip(line[b..])
  {
    var b := NameStart(line, |line|);
    assert DiagramEntry(line, unit).name == Strip(line[b..]);
  }

  /** With an empty unit, a record's level only says whether the line holds a branch
      glyph. */
  lemma DiagramLevelNoUnit(line: string)
    ensures DiagramEntry(line, 0).level == (if HasGlyph(line) then 1 else 0)
  {
  }

  /** The first loop of `parse_tree_text` over one line: it counts the line's spaces in
      units of `unit` (keeping the remainder in `current`) and remembers where the name
      starts. */
  method ScanLine(line: string, unit: nat) returns (level: nat, nameStart: nat)
    ensures level == SpaceLevel(CountSpaces(line, |line|), unit)
    ensures nameStart == NameStart(line, |line|)
  {
    level, nameStart := 0, 0;
    var current := 0;
    var i := 0;
    while i < |line|
      invariant i <= |line|
      invariant nameStart == NameStart(line, i)
      invariant level == SpaceLevel(CountSpaces(line, i), unit)
      invariant unit == 0 ==> current == CountSpaces(line, i)
      invariant unit > 0 ==> current == SpaceRest(CountSpaces(line, i), unit) < unit
    {
      var ch := line[i];
      if IsSeparator(ch) {
        nameStart := i + 1;
      }
      if ch == ' ' {
        if unit > 0 {
          SpaceDivision(CountSpaces(line, i), unit);
          SpaceStep(CountSpaces(line, i), unit);
        }
        current := current + 1;
        if current == unit {
          level := level + 1;
          current := 0;
        }
      }
      i := i + 1;
    }
  }

  /** The second loop of `parse_tree_text` over one line: is there a branch glyph? */
  method FindGlyph(line: string) returns (found: bool)
    ensures found == HasGlyph(line)
  {
    found := false;
    var i := 0;
    while i < |line|
      invariant i <= |line|
      invariant forall j :: 0 <= j < i ==> !IsGlyph(line[j])
    {
      if IsGlyph(line[i]) {
        found := true;
        return;
      }
      i := i + 1;
    }
  }

  /** The body of `parse_tree_text`'s loop for one kept line. */
  method ParseDiagramLine(line: string, unit: nat) returns (e: Entry)
    ensures e == DiagramEntry(line, unit)
  {
    var level, nameStart := ScanLine(line, unit);
    var glyph := FindGlyph(line);
    if glyph {
      level := level + 1;
    }
    e := Entry(Strip(line[nameStart..]), level);
  }

  /** One iteration of `parse_tree_text`'s loop: line `i` is right-stripped and, unless
      it is then empty, parsed and appended. */
  method ParseDiagramStep(lines: seq<string>, i: nat, unit: nat, entries: seq<Entry>)
    returns (entries': seq<Entry>)
    requires i < |lines| && entries == DiagramEntries(lines, i, unit)
    ensures entries' == DiagramEntries(lines, i + 1, unit)
  {
    var line := RStrip(lines[i]);
    DiagramEntriesNext(lines, i, unit);
    entries' := entries;
    if line != [] {
      var e := ParseDiagramLine(line, unit);
      entries' := entries + [e];
    }
  }

  /** The loop of `parse_tree_text` over the lines of the text. */
  method ParseDiagramLines(lines: seq<string>, unit: nat) returns (entries: seq<Entry>)
    ensures entries == DiagramEntries(lines, |lines|, unit)
  {
    entries := [];
    var i := 0;
    while i < |lines|
      invariant i <= |lines|
      invariant entries == DiagramEntries(lines, i, unit)
    {
      entries := ParseDiagramStep(lines, i, unit, entries);
      i := i + 1;
    }
  }

  /** `parse_tree_text`; only the length of `indent` matters. */
  method ParseTreeText(text: string, indent: string) returns (entries: seq<Entry>)
    ensures entries == DiagramRecords(text, indent)
  {
    entries := ParseDiagramLines(SplitLines(text), |indent|);
  }
}
