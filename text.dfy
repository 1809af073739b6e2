/**
 * String helpers that stand in for the parts of Python's `str` the converter uses:
 * `splitlines`, `rstrip`, `strip`, `lower`, `endswith` and `*` (repetition).
 *
 * Whitespace is the fixed set of characters Python's `str.isspace` accepts; lines are
 * split on line feed only.
 */
module Text {

  /** The whitespace characters `strip` and `rstrip` remove: tab to carriage return,
      the four information separators, space, next line, no-break space, and the
      Unicode space and line/paragraph separators. */
  predicate IsSpace(c: char) {
    '\t' <= c <= '\r' || '\U{001C}' <= c <= ' ' || c == '\U{0085}' || c == '\U{00A0}' ||
    c == '\U{1680}' || '\U{2000}' <= c <= '\U{200A}' || c == '\U{2028}' || c == '\U{2029}' ||
    c == '\U{202F}' || c == '\U{205F}' || c == '\U{3000}'
  }

  /** The length of `s[..n]` once its trailing whitespace is removed. */
  function TrimEnd(s: string, n: nat): (e: nat)
    requires n <= |s|
    ensures e <= n
    ensures e == 0 || !IsSpace(s[e - 1])
    ensures forall i :: e <= i < n ==> IsSpace(s[i])
    decreases n
  {
    if n > 0 && IsSpace(s[n - 1]) then TrimEnd(s, n - 1) else n
  }

  /** The first position at or after `i`, and before `e`, that is not whitespace,
      or `e` when there is none. */
  function TrimStart(s: string, i: nat, e: nat): (b: nat)
    requires i <= e <= |s|
    ensures i <= b <= e
    ensures b == e || !IsSpace(s[b])
    ensures forall j :: i <= j < b ==> IsSpace(s[j])
    decreases e - i
  {
    if i < e && IsSpace(s[i]) then TrimStart(s, i + 1, e) else i
  }

  /** Python's `s.rstrip()`: `s` without its trailing whitespace. */
  function RStrip(s: string): (r: string)
    ensures |r| <= |s| && forall i :: 0 <= i < |r| ==> r[i] == s[i]
    ensures r == [] || !IsSpace(r[|r| - 1])
    ensures forall i :: |r| <= i < |s| ==> IsSpace(s[i])
  {
    s[..TrimEnd(s, |s|)]
  }

  /** Python's `s.strip()`: the piece of `s` left once its leading and trailing
      whitespace is cut, with no whitespace at either end, empty exactly when `s` is all
      whitespace. */
  function Strip(s: string): (r: string)
    ensures exists b, e ::
              0 <= b <= e <= |s| && r == s[b..e] &&
              (forall i :: 0 <= i < b ==> IsSpace(s[i])) && (forall i :: e <= i < |s| ==> IsSpace(s[i]))
    ensures r == [] || (!IsSpace(r[0]) && !IsSpace(r[|r| - 1]))
    ensures forall i :: 0 <= i < |r| ==> r[i] in s
    ensures r == [] <==> forall i :: 0 <= i < |s| ==> IsSpace(s[i])
  {
    var e := TrimEnd(s, |s|);
    var b := TrimStart(s, 0, e);
    var r := s[b..e];
    assert forall i :: 0 <= i < |r| ==> r[i] == s[b + i];
    assert r == [] <==> b == e;
    r
  }

  /** The index of the first line feed at or after `i`, or `|s|` when there is none. */
  function LineEnd(s: string, i: nat): (k: nat)
    requires i <= |s|
    ensures i <= k <= |s|
    ensures k < |s| ==> s[k] == '\n'
    ensures forall j :: i <= j < k ==> s[j] != '\n'
    decreases |s| - i
  {
    if i == |s| || s[i] == '\n' then i else LineEnd(s, i + 1)
  }

  /** Python's `s.splitlines()` for text whose only line break is the line feed:
      the pieces between line feeds, with no empty piece after a final line feed
      (`SplitLinesRejoin` shows they give the text back). */
  function SplitLines(s: string): (ls: seq<string>)
    ensures forall k :: 0 <= k < |ls| ==> '\n' !in ls[k]
    decreases |s|
  {
    if s == [] then []
    else
      var k := LineEnd(s, 0);
      if k == |s| then [s] else [s[..k]] + SplitLines(s[k + 1..])
  }

  lemma SliceSplit<T>(s: seq<T>, a: nat, b: nat, c: nat)
    requires a <= b <= c <= |s|
    ensures s[a..c] == s[a..b] + s[b..c]
  {
  }

  /** Each line followed by a line feed, all concatenated. */
  function JoinLines(ls: seq<string>): string {
    if ls == [] then "" else ls[0] + "\n" + JoinLines(ls[1..])
  }

  lemma JoinLinesAppend(a: seq<string>, b: seq<string>)
    ensures JoinLines(a + b) == JoinLines(a) + JoinLines(b)
  {
    if a != [] {
      assert (a + b)[0] == a[0];
      assert (a + b)[1..] == a[1..] + b;
      JoinLinesAppend(a[1..], b);
      calc {
        JoinLines(a + b);
        a[0] + "\n" + JoinLines(a[1..] + b);
        a[0] + "\n" + (JoinLines(a[1..]) + JoinLines(b));
        (a[0] + "\n" + JoinLines(a[1..])) + JoinLines(b);
        JoinLines(a) + JoinLines(b);
      }
    } else {
      assert a + b == b;
    }
  }

  /** The pieces of a text, each written back with a line feed, give the text, with a
      line feed added when it does not already end in one. With the pieces free of line
      feeds, this determines them. */
  lemma {:induction false} SplitLinesRejoin(s: string)
    ensures JoinLines(SplitLines(s)) == (if s == [] || s[|s| - 1] == '\n' then s else s + "\n")
    decreases |s|
  {
    if s != [] {
      var k := LineEnd(s, 0);
      if k < |s| {
        var h, t := s[..k], s[k + 1..];
        var rest := SplitLines(t);
        var ls := [h] + rest;
        assert SplitLines(s) == ls;
        assert ls[0] == h && ls[1..] == rest;
        assert JoinLines(ls) == h + "\n" + JoinLines(rest);
        CutAt(s, k);
        SplitLinesRejoin(t);
        if t != [] {
          assert t[|t| - 1] == s[|s| - 1];
        }
        Regroup(h, t);
      } else {
        assert SplitLines(s) == [s];
        assert JoinLines([s]) == s + "\n" + JoinLines([]);
      }
    }
  }

  /** A text is the piece before a line feed, the line feed and the rest. */
  lemma CutAt(s: string, k: nat)
    requires k < |s| && s[k] == '\n'
    ensures s == s[..k] + "\n" + s[k + 1..]
  {
    assert s[..k] + "\n" + s[k + 1..] == s[..k] + s[k..];
  }

  /** Concatenation regrouped around two line feeds. */
  lemma Regroup(h: string, t: string)
    ensures h + "\n" + (t + "\n") == (h + "\n" + t) + "\n"
  {
  }

  /** Splitting joined lines gives the lines back, one piece per line. */
  lemma {:induction false} SplitJoinLines(ls: seq<string>)
    requires forall k :: 0 <= k < |ls| ==> '\n' !in ls[k]
    ensures SplitLines(JoinLines(ls)) == ls
  {
    if ls != [] {
      var s := JoinLines(ls);
      var x := ls[0];
      assert s == x + "\n" + JoinLines(ls[1..]);
      assert s[|x|] == '\n';
      assert forall j :: 0 <= j < |x| ==> s[j] == x[j];
      assert LineEnd(s, 0) == |x|;
      assert s[..|x|] == x;
      assert s[|x| + 1..] == JoinLines(ls[1..]);
      SplitJoinLines(ls[1..]);
    }
  }

  /** The first `n` lines of `lines` that are not blank, each with its trailing
      whitespace removed, in their original order (the `rstrip` then
      `if not line: continue` step both parsers share). */
  function NonBlankUpTo(lines: seq<string>, n: nat): (nb: seq<string>)
    requires n <= |lines|
    ensures |nb| <= n
    ensures forall k :: 0 <= k < |nb| ==> nb[k] != [] && !IsSpace(nb[k][|nb[k]| - 1])
    decreases n
  {
    if n == 0 then []
    else
      var l := RStrip(lines[n - 1]);
      NonBlankUpTo(lines, n - 1) + (if l == [] then [] else [l])
  }

  /** The positions among the first `n` lines of the lines `NonBlankUpTo` keeps. */
  function NonBlankIndices(lines: seq<string>, n: nat): (js: seq<nat>)
    requires n <= |lines|
    ensures forall k :: 0 <= k < |js| ==> js[k] < n
    decreases n
  {
    if n == 0 then []
    else NonBlankIndices(lines, n - 1) + (if RStrip(lines[n - 1]) == [] then [] else [n - 1])
  }

  /** `NonBlankUpTo` keeps the lines at `NonBlankIndices`, each right-stripped. */
  lemma {:induction false} NonBlankAt(lines: seq<string>, n: nat)
    requires n <= |lines|
    ensures var nb, js := NonBlankUpTo(lines, n), NonBlankIndices(lines, n);
      |js| == |nb| && forall k :: 0 <= k < |js| ==> nb[k] == RStrip(lines[js[k]])
    decreases n
  {
    if n > 0 {
      NonBlankAt(lines, n - 1);
    }
  }

  predicate StrictlyIncreasing(js: seq<nat>) {
    forall k, l :: 0 <= k < l < |js| ==> js[k] < js[l]
  }

  /** `NonBlankIndices` is strictly increasing. */
  lemma {:induction false} NonBlankIndicesIncrease(lines: seq<string>, n: nat)
    requires n <= |lines|
    ensures StrictlyIncreasing(NonBlankIndices(lines, n))
    decreases n
  {
    if n > 0 {
      NonBlankIndicesIncrease(lines, n - 1);
      var js0 := NonBlankIndices(lines, n - 1);
      var js := NonBlankIndices(lines, n);
      assert js == js0 + (if RStrip(lines[n - 1]) == [] then [] else [n - 1]);
      forall k, l | 0 <= k < l < |js| ensures js[k] < js[l] {
        assert js[k] == js0[k];
        if l < |js0| {
          assert js[l] == js0[l];
        } else {
          assert js[l] == n - 1 && js0[k] < n - 1;
        }
      }
    }
  }

  /** `NonBlankIndices` holds exactly the positions of the lines that are not all
      whitespace. */
  lemma {:induction false} NonBlankIndicesExact(lines: seq<string>, n: nat)
    requires n <= |lines|
    ensures forall j :: 0 <= j < n ==> (j in NonBlankIndices(lines, n) <==> RStrip(lines[j]) != [])
    decreases n
  {
    if n > 0 {
      var js0 := NonBlankIndices(lines, n - 1);
      var tail: seq<nat> := if RStrip(lines[n - 1]) == [] then [] else [n - 1];
      NonBlankIndicesExact(lines, n - 1);
      forall j | 0 <= j < n
        ensures j in js0 + tail <==> RStrip(lines[j]) != []
      {
        if j < n - 1 {
          assert j !in tail;
        } else {
          assert j !in js0;
        }
      }
    }
  }

  /** The non-blank lines of `lines`, right-stripped. */
  function NonBlank(lines: seq<string>): seq<string> {
    NonBlankUpTo(lines, |lines|)
  }

  /** The non-blank lines of a text, right-stripped. */
  function NonBlankLines(text: string): seq<string> {
    NonBlank(SplitLines(text))
  }

  /** No non-blank line of a text holds a line feed. */
  lemma NonBlankFlat(text: string)
    ensures forall k :: 0 <= k < |NonBlankLines(text)| ==> '\n' !in NonBlankLines(text)[k]
  {
    var lines := SplitLines(text);
    var nb, js := NonBlankLines(text), NonBlankIndices(lines, |lines|);
    NonBlankAt(lines, |lines|);
    forall k | 0 <= k < |nb| ensures '\n' !in nb[k] {
      var l := lines[js[k]];
      assert nb[k] == RStrip(l);
      assert '\n' !in l;
      assert forall i :: 0 <= i < |nb[k]| ==> nb[k][i] == l[i];
    }
  }

  /** Python's `len(s) > 0 and s[-1] == '/'`, that is `s.endswith("/")`. */
  predicate EndsWithSlash(s: string) {
    s != [] && s[|s| - 1] == '/'
  }

  /** Python's `s[:-1]`: all but the last character, and "" for "". */
  function DropLast(s: string): (r: string)
    ensures s != [] ==> s == r + [s[|s| - 1]]
    ensures s == [] ==> r == []
  {
    if s == [] then [] else s[..|s| - 1]
  }

  /** Python's `s * n`: `n` copies of `s`, and "" when `n <= 0`. */
  function Repeat(s: string, n: int): (r: string)
    ensures n <= 0 ==> r == []
    decreases n
  {
    if n <= 0 then [] else s + Repeat(s, n - 1)
  }

  /** Python's `c.lower()`, restricted to the ASCII letters. */
  function LowerChar(c: char): char {
    if 'A' <= c <= 'Z' then (c as int + 32) as char else c
  }

  /** Python's `s.lower()`, restricted to the ASCII letters. */
  function Lower(s: string): (r: string)
    ensures |r| == |s|
    ensures forall i :: 0 <= i < |s| ==> r[i] == LowerChar(s[i])
  {
    seq(|s|, i requires 0 <= i < |s| => LowerChar(s[i]))
  }
}
