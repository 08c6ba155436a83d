/**
 * The line normalisation at the end of `fetch_page_text`:
 * split the extracted text into lines, strip each line, drop the blank
 * ones and join the rest with "\n".
 */
module Lines {
  import opened Text

  /** Python's `str.isspace()` for a single character: the characters that
      `str.strip()` removes. */
  predicate IsSpace(c: char)
  {
    var n := c as int;
    (0x09 <= n <= 0x0D) || (0x1C <= n <= 0x20) || n == 0x85 || n == 0xA0
    || n == 0x1680 || (0x2000 <= n <= 0x200A) || n == 0x2028 || n == 0x2029
    || n == 0x202F || n == 0x205F || n == 0x3000
  }

  /** The characters at which `str.splitlines()` ends a line ("\r\n" counts
      as one boundary). */
  predicate IsLineBreak(c: char)
  {
    var n := c as int;
    (0x0A <= n <= 0x0D) || (0x1C <= n <= 0x1E) || n == 0x85 || n == 0x2028 || n == 0x2029
  }

  predicate NoBreaks(s: string)
  {
    forall k :: 0 <= k < |s| ==> !IsLineBreak(s[k])
  }

  /** No whitespace at either end. */
  predicate Stripped(s: string)
  {
    s == [] || (!IsSpace(s[0]) && !IsSpace(s[|s| - 1]))
  }

  predicate AllSpace(s: string)
  {
    forall k :: 0 <= k < |s| ==> IsSpace(s[k])
  }

  /** `s.lstrip()`: drops a whitespace prefix and nothing else. */
  function StripLeft(s: string): (r: string)
    ensures |r| <= |s| && r == s[|s| - |r|..]
    ensures AllSpace(s[..|s| - |r|])
    ensures r == [] || !IsSpace(r[0])
  {
    if |s| > 0 && IsSpace(s[0]) then StripLeft(s[1..]) else s
  }

  /** `s.rstrip()`: drops a whitespace suffix and nothing else. */
  function StripRight(s: string): (r: string)
    ensures |r| <= |s| && r == s[..|r|]
    ensures AllSpace(s[|r|..])
    ensures r == [] || !IsSpace(r[|r| - 1])
  {
    if |s| > 0 && IsSpace(s[|s| - 1]) then StripRight(s[..|s| - 1]) else s
  }

  /** `s.strip()`. */
  function Strip(s: string): (r: string)
    ensures Stripped(r)
    ensures r == [] <==> AllSpace(s)
    ensures Stripped(s) ==> r == s
    ensures NoBreaks(s) ==> NoBreaks(r)
  {
    var t := StripLeft(s);
    var r := StripRight(t);
    assert t == [] ==> AllSpace(s) by {
      if t == [] { assert s[..|s|] == s; }
    }
    assert AllSpace(s) ==> t == [];
    assert NoBreaks(s) ==> NoBreaks(t) by {
      if NoBreaks(s) {
        forall k | 0 <= k < |t| ensures !IsLineBreak(t[k]) {
          assert t[k] == s[|s| - |t| + k];
        }
      }
    }
    r
  }

  /** The first index at or after `i` where a line ends, or `|s|`. */
  function LineEnd(s: string, i: nat): (e: nat)
    requires i <= |s|
    ensures i <= e <= |s|
    ensures forall k :: i <= k < e ==> !IsLineBreak(s[k])
    ensures e < |s| ==> IsLineBreak(s[e])
    decreases |s| - i
  {
    if i == |s| || IsLineBreak(s[i]) then i else LineEnd(s, i + 1)
  }

  /** Python's `s.splitlines()`: no line contains a line boundary. */
  function SplitLines(s: string): (lines: seq<string>)
    ensures lines == [] <==> s == []
    ensures forall k :: 0 <= k < |lines| ==> NoBreaks(lines[k])
    decreases |s|
  {
    if s == [] then []
    else
      var e := LineEnd(s, 0);
      if e == |s| then [s]
      else
        var w := if s[e] == '\r' && e + 1 < |s| && s[e + 1] == '\n' then 2 else 1;
        [s[..e]] + SplitLines(s[e + w..])
  }

  /** One line of the generator: its stripped form, or nothing if it is blank. */
  function KeepLine(line: string): (r: seq<string>)
    ensures |r| <= 1
    ensures r == [] <==> AllSpace(line)
    ensures forall k :: 0 <= k < |r| ==> r[k] != [] && Stripped(r[k])
  {
    var t := Strip(line);
    if t == [] then [] else [t]
  }

  /** `line.strip() for line in lines if line.strip()`. */
  function NormalizeLines(lines: seq<string>): (r: seq<string>)
    ensures |r| <= |lines|
    ensures forall k :: 0 <= k < |r| ==> r[k] != [] && Stripped(r[k])
  {
    if lines == [] then []
    else KeepLine(lines[0]) + NormalizeLines(lines[1..])
  }

  /** The text `fetch_page_text` returns, given what the HTML parser extracted. */
  function NormalizeText(text: string): (r: string)
    ensures r == [] <==> AllSpace(text)
  {
    var lines := NormalizeLines(SplitLines(text));
    SplitLinesBlank(text);
    NormalizeLinesBlank(SplitLines(text));
    JoinLength(lines, "\n");
    Join(lines, "\n")
  }

  /** `strip` removes a whitespace prefix and a whitespace suffix and keeps
      everything between them. */
  lemma StripRemovesOnlyEnds(s: string)
    ensures exists a, b :: 0 <= a <= b <= |s| && Strip(s) == s[a..b] && AllSpace(s[..a]) && AllSpace(s[b..])
  {
    var t := StripLeft(s);
    var r := Strip(s);
    var a := |s| - |t|;
    var b := a + |r|;
    assert r == t[..|r|];
    assert s[a..b] == t[..|r|];
    assert s[b..] == t[|r|..];
  }

  /** Joining the lines of a text whose only line boundaries are "\n", and
      which does not end with one, gives the text back. */
  lemma {:induction false} JoinSplitLines(s: string)
    requires forall k :: 0 <= k < |s| && IsLineBreak(s[k]) ==> s[k] == '\n'
    requires s == [] || s[|s| - 1] != '\n'
    ensures Join(SplitLines(s), "\n") == s
    decreases |s|
  {
    if s != [] {
      var e := LineEnd(s, 0);
      if e < |s| {
        assert s[e] == '\n';
        var rest := s[e + 1..];
        forall k | 0 <= k < |rest| && IsLineBreak(rest[k]) ensures rest[k] == '\n' {
          assert rest[k] == s[e + 1 + k];
        }
        JoinSplitLines(rest);
        var tail := SplitLines(rest);
        assert SplitLines(s) == [s[..e]] + tail;
        assert ([s[..e]] + tail)[1..] == tail;
        assert s == s[..e] + "\n" + rest;
      }
    }
  }

  /** Every line boundary is whitespace. */
  lemma LineBreakIsSpace(c: char)
    ensures IsLineBreak(c) ==> IsSpace(c)
  {
  }

  /** Every line is blank. */
  predicate AllBlank(lines: seq<string>)
  {
    lines == [] || (AllSpace(lines[0]) && AllBlank(lines[1..]))
  }

  /** The width of the line boundary at `e`: two for "\r\n", else one. */
  function BreakWidth(s: string, e: nat): nat
    requires e < |s|
  {
    if s[e] == '\r' && e + 1 < |s| && s[e + 1] == '\n' then 2 else 1
  }

  /** One step of `SplitLines`: the first line, then the lines after its boundary. */
  lemma SplitLinesStep(s: string)
    requires s != []
    ensures LineEnd(s, 0) == |s| ==> SplitLines(s) == [s]
    ensures LineEnd(s, 0) < |s| ==>
              SplitLines(s) == [s[..LineEnd(s, 0)]] + SplitLines(s[LineEnd(s, 0) + BreakWidth(s, LineEnd(s, 0))..])
  {
  }

  lemma AllBlankCons(head: string, tail: seq<string>)
    ensures AllBlank([head] + tail) <==> AllSpace(head) && AllBlank(tail)
  {
    assert ([head] + tail)[1..] == tail;
  }

  /** The lines of a text are all blank exactly when the text is. */
  lemma {:induction false} SplitLinesBlank(s: string)
    ensures AllBlank(SplitLines(s)) <==> AllSpace(s)
    decreases |s|
  {
    if s != [] {
      SplitLinesStep(s);
      var e := LineEnd(s, 0);
      if e < |s| {
        var w := BreakWidth(s, e);
        SplitLinesBlank(s[e + w..]);
        AllBlankCons(s[..e], SplitLines(s[e + w..]));
        BoundaryIsSpace(s, e);
        AllSpaceSplit(s, e, e + w);
      } else {
        AllBlankCons(s, []);
        assert [s] + [] == [s];
      }
    }
  }

  /** A line boundary, one or two characters wide, is whitespace. */
  lemma BoundaryIsSpace(s: string, e: nat)
    requires e < |s| && IsLineBreak(s[e])
    ensures e + BreakWidth(s, e) <= |s| && AllSpace(s[e..e + BreakWidth(s, e)])
  {
    LineBreakIsSpace(s[e]);
    if BreakWidth(s, e) == 2 {
      LineBreakIsSpace(s[e + 1]);
      assert s[e..e + 2] == [s[e], s[e + 1]];
    } else {
      assert s[e..e + 1] == [s[e]];
    }
  }

  /** A text is blank exactly when its parts before `i`, between `i` and `j`
      and after `j` are. */
  lemma AllSpaceSplit(s: string, i: nat, j: nat)
    requires i <= j <= |s|
    ensures AllSpace(s) <==> AllSpace(s[..i]) && AllSpace(s[i..j]) && AllSpace(s[j..])
  {
    assert s == s[..i] + s[i..j] + s[j..];
    if AllSpace(s[..i]) && AllSpace(s[i..j]) && AllSpace(s[j..]) {
      forall k | 0 <= k < |s| ensures IsSpace(s[k]) {
        if k < i {
          assert s[k] == s[..i][k];
        } else if k < j {
          assert s[k] == s[i..j][k - i];
        } else {
          assert s[k] == s[j..][k - j];
        }
      }
    }
  }

  /** Normalisation drops every line exactly when every line is blank. */
  lemma {:induction false} NormalizeLinesBlank(lines: seq<string>)
    ensures NormalizeLines(lines) == [] <==> AllBlank(lines)
  {
    if lines != [] {
      var rest := lines[1..];
      NormalizeLinesBlank(rest);
      var h := KeepLine(lines[0]);
      var t := NormalizeLines(rest);
      assert NormalizeLines(lines) == h + t;
      assert h + t == [] <==> h == [] && t == [] by {
        assert |h + t| == |h| + |t|;
      }
    }
  }

  /** Normalisation works line by line, so the surviving lines keep their
      relative order: normalising a concatenation of line lists is the
      concatenation of the normalised lists. */
  lemma {:induction false} NormalizeLinesAppend(a: seq<string>, b: seq<string>)
    ensures NormalizeLines(a + b) == NormalizeLines(a) + NormalizeLines(b)
  {
    if a == [] {
      assert a + b == b;
    } else {
      assert (a + b)[1..] == a[1..] + b;
      NormalizeLinesAppend(a[1..], b);
      var h := KeepLine(a[0]);
      assert h + (NormalizeLines(a[1..]) + NormalizeLines(b))
          == (h + NormalizeLines(a[1..])) + NormalizeLines(b);
    }
  }

  /** A single line survives exactly when it is not blank, and then stripped. */
  lemma NormalizeLine(line: string)
    ensures NormalizeLines([line]) == if AllSpace(line) then [] else [Strip(line)]
  {
    assert [line][1..] == [];
  }

  /** Lines that are already non-empty and stripped are left as they are. */
  lemma {:induction false} NormalizeLinesFixed(lines: seq<string>)
    requires forall k :: 0 <= k < |lines| ==> lines[k] != [] && Stripped(lines[k])
    ensures NormalizeLines(lines) == lines
  {
    if lines != [] {
      NormalizeLinesFixed(lines[1..]);
      assert lines == [lines[0]] + lines[1..];
    }
  }

  /** Splitting a join of non-empty lines without line boundaries gives the
      lines back. */
  lemma {:induction false} SplitJoin(lines: seq<string>)
    requires forall k :: 0 <= k < |lines| ==> lines[k] != [] && NoBreaks(lines[k])
    ensures SplitLines(Join(lines, "\n")) == lines
  {
    if |lines| == 1 {
      var s := lines[0];
      assert LineEnd(s, 0) == |s|;
    } else if |lines| > 1 {
      var l := lines[0];
      var rest := Join(lines[1..], "\n");
      var s := Join(lines, "\n");
      assert s == l + "\n" + rest;
      assert s[|l|] == '\n';
      assert forall k :: 0 <= k < |l| ==> s[k] == l[k];
      assert LineEnd(s, 0) == |l|;
      assert BreakWidth(s, |l|) == 1;
      assert s[..|l|] == l;
      assert s[|l| + 1..] == rest;
      SplitLinesStep(s);
      SplitJoin(lines[1..]);
      assert lines == [l] + lines[1..];
    }
  }

  /** Stripping and dropping lines never introduces a line boundary. */
  lemma {:induction false} NormalizeLinesNoBreaks(lines: seq<string>)
    requires forall k :: 0 <= k < |lines| ==> NoBreaks(lines[k])
    ensures forall k :: 0 <= k < |NormalizeLines(lines)| ==> NoBreaks(NormalizeLines(lines)[k])
  {
    if lines != [] {
      NormalizeLinesNoBreaks(lines[1..]);
    }
  }

  /** The lines of the normalised text are exactly the normalised lines. */
  lemma NormalizedTextLines(text: string)
    ensures SplitLines(NormalizeText(text)) == NormalizeLines(SplitLines(text))
  {
    NormalizeLinesNoBreaks(SplitLines(text));
    SplitJoin(NormalizeLines(SplitLines(text)));
  }

  /** Every line of the normalised text is non-empty and has no whitespace at
      either end. */
  lemma NormalizedTextShape(text: string)
    ensures forall line :: line in SplitLines(NormalizeText(text)) ==> line != [] && Stripped(line)
  {
    NormalizedTextLines(text);
  }

  /** Normalising an already normalised text leaves it unchanged. */
  lemma NormalizeTextIdempotent(text: string)
    ensures NormalizeText(NormalizeText(text)) == NormalizeText(text)
  {
    var lines := NormalizeLines(SplitLines(text));
    NormalizedTextLines(text);
    NormalizeLinesFixed(lines);
  }
}
