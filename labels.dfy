/**
 * Parsing of the label file (`Demo.get_labels` in thermal_demo.py): the
 * text is cut into lines as `readlines` does, each line is stripped of
 * surrounding whitespace, and file order is kept, so the label at index
 * `i` is the class name of class `i`. The input is the text as read in
 * Python's text mode, where every line ending is already `'\n'`.
 */
module Labels {

  /** Python's `str.isspace` on one character: the characters `str.strip()` removes. */
  predicate IsSpace(c: char)
    ensures c as int < 0x80 ==> (IsSpace(c) <==> c in " \t\n\r\U{B}\U{C}\U{1C}\U{1D}\U{1E}\U{1F}")
  {
    var n := c as int;
    (0x09 <= n <= 0x0D) || (0x1C <= n <= 0x20) || n == 0x85 || n == 0xA0 || n == 0x1680
    || (0x2000 <= n <= 0x200A) || n == 0x2028 || n == 0x2029 || n == 0x202F || n == 0x205F
    || n == 0x3000
  }

  /** Neither end of `s` is whitespace. */
  predicate Clean(s: string)
  {
    s == [] || (!IsSpace(s[0]) && !IsSpace(s[|s| - 1]))
  }

  /** Leading whitespace removed: the longest suffix of `s` that does not start with whitespace. */
  function TrimStart(s: string): (r: string)
    ensures |r| <= |s| && r == s[|s| - |r|..]
    ensures forall k :: 0 <= k < |s| - |r| ==> IsSpace(s[k])
    ensures r == [] || !IsSpace(r[0])
  {
    if s != [] && IsSpace(s[0]) then
      var r := TrimStart(s[1..]);
      assert s[1..][|s| - 1 - |r|..] == s[|s| - |r|..];
      r
    else s
  }

  /** Trailing whitespace removed: the longest prefix of `s` that does not end with whitespace. */
  function TrimEnd(s: string): (r: string)
    ensures |r| <= |s| && r == s[..|r|]
    ensures forall k :: |r| <= k < |s| ==> IsSpace(s[k])
    ensures r == [] || !IsSpace(r[|r| - 1])
  {
    if s != [] && IsSpace(s[|s| - 1]) then
      var r := TrimEnd(s[..|s| - 1]);
      assert s[..|s| - 1][..|r|] == s[..|r|];
      r
    else s
  }

  /** Python's `str.strip()`: the result has no whitespace at either end. */
  function Strip(s: string): (r: string)
    ensures Clean(r)
  {
    TrimEnd(TrimStart(s))
  }

  /** `strip()` returns a slice of its argument, and nothing but whitespace is cut from either side. */
  lemma StripSlice(s: string)
    ensures exists lo ::
      (0 <= lo <= |s| - |Strip(s)| && Strip(s) <= s[lo..]
       && (forall k :: 0 <= k < lo ==> IsSpace(s[k]))
       && (forall k :: lo + |Strip(s)| <= k < |s| ==> IsSpace(s[k])))
  {
    var t := TrimStart(s);
    var lo := |s| - |t|;
    assert Strip(s) <= s[lo..];
  }

  /** Stripping a string that has no whitespace at either end leaves it as it is. */
  lemma StripClean(s: string)
    requires Clean(s)
    ensures Strip(s) == s
  {
  }

  /** The index just past the first line of `text`: past its first `'\n'`, or the end of the text. */
  function LineEnd(text: string): (k: nat)
    requires text != []
    ensures 0 < k <= |text|
    ensures forall j :: 0 <= j < k - 1 ==> text[j] != '\n'
    ensures text[k - 1] == '\n' || k == |text|
  {
    if text[0] == '\n' || |text| == 1 then 1 else 1 + LineEnd(text[1..])
  }

  /** A first line that holds `'\n'` only at its end, or is all of the text, ends where `LineEnd` says. */
  lemma LineEndOf(first: string, more: string)
    requires first != []
    requires forall j :: 0 <= j < |first| - 1 ==> first[j] != '\n'
    requires first[|first| - 1] == '\n' || more == []
    ensures LineEnd(first + more) == |first|
  {
    var text := first + more;
    assert forall j :: 0 <= j < |first| ==> text[j] == first[j];
  }

  function Concat(lines: seq<string>): string
  {
    if lines == [] then [] else lines[0] + Concat(lines[1..])
  }

  /**
   * `lines` cuts `text` into lines as `readlines` does: together they are
   * the text, none is empty, each holds a `'\n'` only as its last character,
   * and every line but the last ends in one.
   */
  predicate IsLineSplit(lines: seq<string>, text: string)
  {
    Concat(lines) == text
    && (forall i :: 0 <= i < |lines| ==> lines[i] != [])
    && (forall i :: 0 <= i < |lines| - 1 ==> lines[i][|lines[i]| - 1] == '\n')
    && (forall i, k :: 0 <= i < |lines| && 0 <= k < |lines[i]| - 1 ==> lines[i][k] != '\n')
  }

  /** A line in front of a cut of the rest is a cut of the whole text. */
  lemma LineSplitCons(line: string, lines: seq<string>, more: string)
    requires IsLineSplit(lines, more)
    requires line != [] && forall j :: 0 <= j < |line| - 1 ==> line[j] != '\n'
    requires line[|line| - 1] == '\n' || lines == []
    ensures IsLineSplit([line] + lines, line + more)
  {
    var all := [line] + lines;
    assert all[1..] == lines;
    forall i | 1 <= i < |all| ensures all[i] == lines[i - 1] {
    }
  }

  /** `f.readlines()` on the text of the file. */
  function SplitLines(text: string): (lines: seq<string>)
    decreases |text|
    ensures IsLineSplit(lines, text)
  {
    if text == [] then []
    else
      var k := LineEnd(text);
      var rest := SplitLines(text[k..]);
      assert text == text[..k] + text[k..];
      LineSplitCons(text[..k], rest, text[k..]);
      [text[..k]] + rest
  }

  /** Dropping the first line of a cut leaves a cut of the text after it. */
  lemma LineSplitRest(lines: seq<string>, text: string)
    requires IsLineSplit(lines, text) && lines != []
    ensures |lines[0]| <= |text| && text[..|lines[0]|] == lines[0]
    ensures IsLineSplit(lines[1..], text[|lines[0]|..])
  {
    var rest := lines[1..];
    assert text == lines[0] + Concat(rest);
    assert text[|lines[0]|..] == Concat(rest);
    forall i | 0 <= i < |rest| - 1 ensures rest[i][|rest[i]| - 1] == '\n' {
      assert rest[i] == lines[i + 1];
    }
    forall i, j | 0 <= i < |rest| && 0 <= j < |rest[i]| - 1 ensures rest[i][j] != '\n' {
      assert rest[i] == lines[i + 1];
    }
  }

  /** The cut into lines is unique: any split with the properties of `readlines` is its result. */
  lemma {:induction false} LineSplitUnique(lines: seq<string>, text: string)
    requires IsLineSplit(lines, text)
    ensures lines == SplitLines(text)
    decreases |text|
  {
    if lines == [] {
    } else {
      var first := lines[0];
      var k := |first|;
      assert text == first + Concat(lines[1..]);
      assert text != [];
      assert text[..k] == first;
      assert forall j :: 0 <= j < k - 1 ==> first[j] != '\n';
      assert first[k - 1] == '\n' || Concat(lines[1..]) == [];
      LineEndOf(first, Concat(lines[1..]));
      LineSplitRest(lines, text);
      LineSplitUnique(lines[1..], text[k..]);
    }
  }

  /** `get_labels` on the text of the label file: each line stripped, in file order. */
  function ParseLabels(text: string): (labels: seq<string>)
    ensures |labels| == |SplitLines(text)|
  {
    MapLines(Strip, SplitLines(text))
  }

  /** The list comprehension of `get_labels`: `f` applied to every line, in order. */
  function MapLines(f: string -> string, lines: seq<string>): (labels: seq<string>)
    ensures |labels| == |lines|
  {
    if lines == [] then [] else [f(lines[0])] + MapLines(f, lines[1..])
  }

  lemma {:induction false} MapLinesAt(f: string -> string, lines: seq<string>, i: nat)
    requires i < |lines|
    ensures MapLines(f, lines)[i] == f(lines[i])
    decreases i
  {
    if i > 0 {
      MapLinesAt(f, lines[1..], i - 1);
    }
  }

  /** The label at index `i` is line `i` of the file, stripped: class index is line index. */
  lemma LabelAtLine(text: string, i: nat)
    requires i < |SplitLines(text)|
    ensures ParseLabels(text)[i] == Strip(SplitLines(text)[i])
  {
    MapLinesAt(Strip, SplitLines(text), i);
  }

  function NewlineCount(text: string): nat
  {
    if text == [] then 0 else (if text[0] == '\n' then 1 else 0) + NewlineCount(text[1..])
  }

  lemma {:induction false} NewlineCountAppend(a: string, b: string)
    ensures NewlineCount(a + b) == NewlineCount(a) + NewlineCount(b)
    decreases |a|
  {
    if a == [] {
      assert a + b == b;
    } else {
      assert (a + b)[1..] == a[1..] + b;
      NewlineCountAppend(a[1..], b);
    }
  }

  lemma {:induction false} NewlineCountOfLine(line: string)
    requires line != []
    requires forall k :: 0 <= k < |line| - 1 ==> line[k] != '\n'
    ensures NewlineCount(line) == if line[|line| - 1] == '\n' then 1 else 0
    decreases |line|
  {
    if |line| > 1 {
      NewlineCountOfLine(line[1..]);
    }
  }

  /** The number of lines `readlines` returns, counted without building them. */
  function LineTotal(text: string): nat
    decreases |text|
  {
    if text == [] then 0 else 1 + LineTotal(text[LineEnd(text)..])
  }

  lemma {:induction false} SplitLinesTotal(text: string)
    ensures |SplitLines(text)| == LineTotal(text)
    decreases |text|
  {
    if text != [] {
      SplitLinesTotal(text[LineEnd(text)..]);
    }
  }

  /** The newlines of a text are those of its first line plus those of the rest. */
  lemma NewlineCountFirst(text: string)
    requires text != []
    ensures NewlineCount(text) ==
      (if text[LineEnd(text) - 1] == '\n' then 1 else 0) + NewlineCount(text[LineEnd(text)..])
  {
    var k := LineEnd(text);
    assert text == text[..k] + text[k..];
    NewlineCountAppend(text[..k], text[k..]);
    NewlineCountOfLine(text[..k]);
  }

  /** The last character of a text is the last character of any non-empty suffix of it. */
  lemma LastOfRest(text: string, k: nat)
    requires k < |text|
    ensures text[|text| - 1] == text[k..][|text| - k - 1]
  {
  }

  lemma {:induction false} LineTotalCount(text: string)
    ensures LineTotal(text) ==
      NewlineCount(text) + (if text != [] && text[|text| - 1] != '\n' then 1 else 0)
    decreases |text|
  {
    if text != [] {
      var k := LineEnd(text);
      NewlineCountFirst(text);
      LineTotalCount(text[k..]);
      if k < |text| {
        LastOfRest(text, k);
      }
    }
  }

  /** `readlines` returns a line for every `'\n'`, plus one for a last line that has no `'\n'` after it. */
  lemma LineCount(text: string)
    ensures |SplitLines(text)| ==
      NewlineCount(text) + (if text != [] && text[|text| - 1] != '\n' then 1 else 0)
  {
    SplitLinesTotal(text);
    LineTotalCount(text);
  }

  /** One label per line of the file. */
  lemma LabelCount(text: string)
    ensures |ParseLabels(text)| ==
      NewlineCount(text) + (if text != [] && text[|text| - 1] != '\n' then 1 else 0)
  {
    LineCount(text);
  }

  /** The label file that lists `names`, one per line, each line ended by `'\n'`. */
  function WriteLabels(names: seq<string>): string
  {
    if names == [] then [] else names[0] + "\n" + WriteLabels(names[1..])
  }

  /** A line ended by `'\n'` strips to its clean content. */
  lemma StripLine(name: string)
    requires Clean(name)
    ensures Strip(name + "\n") == name
  {
    var s := name + "\n";
    assert IsSpace('\n');
    if name == [] {
      assert TrimStart(s) == TrimStart(s[1..]);
      assert s[1..] == [];
    } else {
      assert TrimStart(s) == s;
      assert s[..|s| - 1] == name;
      assert TrimEnd(s) == TrimEnd(name);
    }
  }

  /** A line without an inner break, followed by more text, is the first line `readlines` returns. */
  lemma FirstLine(name: string, rest: string)
    requires '\n' !in name
    ensures SplitLines(name + "\n" + rest) == [name + "\n"] + SplitLines(rest)
  {
    var lines := [name + "\n"] + SplitLines(rest);
    var text := name + "\n" + rest;
    assert Concat(lines) == text by {
      assert lines[1..] == SplitLines(rest);
    }
    forall i, k | 0 <= i < |lines| && 0 <= k < |lines[i]| - 1 ensures lines[i][k] != '\n' {
      if i == 0 {
        assert lines[0][k] == name[k];
      } else {
        assert lines[i] == SplitLines(rest)[i - 1];
      }
    }
    forall i | 0 <= i < |lines| - 1 ensures lines[i][|lines[i]| - 1] == '\n' {
      if i > 0 {
        assert lines[i] == SplitLines(rest)[i - 1];
      }
    }
    LineSplitUnique(lines, text);
  }

  lemma MapLinesCons(f: string -> string, line: string, lines: seq<string>)
    ensures MapLines(f, [line] + lines) == [f(line)] + MapLines(f, lines)
  {
    assert ([line] + lines)[1..] == lines;
  }

  /**
   * Writing clean names without line breaks one per line and parsing the
   * file gives the names back, in order: label index is line index.
   */
  lemma {:induction false} ParseWrittenLabels(names: seq<string>)
    requires forall i :: 0 <= i < |names| ==> Clean(names[i]) && '\n' !in names[i]
    ensures ParseLabels(WriteLabels(names)) == names
    decreases |names|
  {
    if names != [] {
      var line, rest := names[0] + "\n", WriteLabels(names[1..]);
      assert WriteLabels(names) == line + rest;
      FirstLine(names[0], rest);
      MapLinesCons(Strip, line, SplitLines(rest));
      StripLine(names[0]);
      ParseWrittenLabels(names[1..]);
      assert names == [names[0]] + names[1..];
    }
  }
}
