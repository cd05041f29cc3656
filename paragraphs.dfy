/** The paragraph format that the post editors send to the server (each non-blank line wrapped in
    `<p>…</p>`), and the strip that turns stored content back into editable lines. */
module Paragraphs {
  import opened Strings

  /** `s.split(c)` for a one-character separator: always at least one piece, none containing `c`. */
  function Split(s: string, c: char): (r: seq<string>)
    ensures |r| >= 1
    ensures forall i | 0 <= i < |r| :: c !in r[i]
    decreases |s|
  {
    if |s| == 0 then [""]
    else
      var rest := Split(s[1..], c);
      if s[0] == c then [""] + rest
      else
        var r := [[s[0]] + rest[0]] + rest[1..];
        assert forall i | 1 <= i < |r| :: r[i] == rest[i];
        r
  }

  /** `lines.join(sep)`. */
  function Join(lines: seq<string>, sep: string): (r: string)
    decreases |lines|
  {
    if |lines| == 0 then ""
    else if |lines| == 1 then lines[0]
    else lines[0] + sep + Join(lines[1..], sep)
  }

  /** Joining the pieces of a split with the separator gives the text back. */
  lemma {:induction false} JoinSplit(s: string, c: char)
    ensures Join(Split(s, c), [c]) == s
    decreases |s|
  {
    if |s| > 0 {
      JoinSplit(s[1..], c);
      var rest := Split(s[1..], c);
      if s[0] == c {
        assert Split(s, c)[1..] == rest;
      } else {
        var r := Split(s, c);
        if |rest| == 1 {
          assert r == [[s[0]] + rest[0]];
        } else {
          assert r[1..] == rest[1..];
          assert Join(rest, [c]) == rest[0] + [c] + Join(rest[1..], [c]);
        }
      }
    }
  }

  /** `para.trim() ? `<p>${para}</p>` : ''`: the untrimmed line inside the tags, or nothing. */
  function Paragraph(line: string): (r: string) {
    if Trim(line) != "" then "<p>" + line + "</p>" else ""
  }

  /** `.map(Paragraph).join('')`. */
  function FormatLines(lines: seq<string>): (r: string)
    decreases |lines|
  {
    if lines == [] then "" else Paragraph(lines[0]) + FormatLines(lines[1..])
  }

  /** The content sent by the editors: `content.split('\n').map(Paragraph).join('')`. */
  function Format(content: string): (r: string) {
    FormatLines(Split(content, '\n'))
  }

  /** Each line contributes its own block, in input order. */
  lemma {:induction false} FormatLinesAppend(a: seq<string>, b: seq<string>)
    ensures FormatLines(a + b) == FormatLines(a) + FormatLines(b)
    decreases |a|
  {
    if a == [] {
      assert a + b == b;
    } else {
      var ab := a + b;
      assert ab[0] == a[0] && ab[1..] == a[1..] + b;
      var p := Paragraph(a[0]);
      calc {
        FormatLines(ab);
        p + FormatLines(a[1..] + b);
        { FormatLinesAppend(a[1..], b); }
        p + (FormatLines(a[1..]) + FormatLines(b));
        (p + FormatLines(a[1..])) + FormatLines(b);
      }
    }
  }

  /** A non-blank line becomes exactly `<p>` + the line + `</p>`; a whitespace-only line becomes nothing. */
  lemma FormatOneLine(line: string)
    ensures !IsBlank(line) ==> FormatLines([line]) == "<p>" + line + "</p>"
    ensures IsBlank(line) ==> FormatLines([line]) == ""
  {
    TrimEmptyIffBlank(line);
  }

  /** Whitespace-only lines can be left out without changing the formatted content. */
  lemma FormatIgnoresBlankLine(a: seq<string>, line: string, b: seq<string>)
    requires IsBlank(line)
    ensures FormatLines(a + [line] + b) == FormatLines(a + b)
  {
    FormatLinesAppend(a + [line], b);
    FormatLinesAppend(a, [line]);
    FormatLinesAppend(a, b);
    FormatOneLine(line);
    var fa := FormatLines(a);
    assert FormatLines(a + [line]) == fa + "" == fa;
  }

  /** Every character other than the separator lands in some piece of the split. */
  lemma {:induction false} SplitKeepsChar(s: string, c: char, i: int)
    requires 0 <= i < |s| && s[i] != c
    ensures exists j | 0 <= j < |Split(s, c)| :: s[i] in Split(s, c)[j]
    decreases |s|
  {
    var r := Split(s, c);
    var rest := Split(s[1..], c);
    if i == 0 {
      assert r[0] == [s[0]] + rest[0];
      assert s[i] in r[0];
    } else {
      SplitKeepsChar(s[1..], c, i - 1);
      var j :| 0 <= j < |rest| && s[1..][i - 1] in rest[j];
      assert s[1..][i - 1] == s[i];
      if s[0] == c {
        assert r[j + 1] == rest[j];
      } else if j == 0 {
        assert r[0] == [s[0]] + rest[0];
      } else {
        assert r[j] == rest[j];
      }
    }
  }

  /** One non-blank line is enough for the formatted content to be non-empty. */
  lemma {:induction false} FormatLinesNonEmpty(lines: seq<string>, j: int)
    requires 0 <= j < |lines| && !IsBlank(lines[j])
    ensures FormatLines(lines) != ""
    decreases |lines|
  {
    if j == 0 {
      TrimEmptyIffBlank(lines[0]);
    } else {
      FormatLinesNonEmpty(lines[1..], j - 1);
    }
  }

  /** Content with a non-whitespace character formats to a non-empty (so truthy) string. */
  lemma FormatNonBlankIsNonEmpty(content: string)
    requires !IsBlank(content)
    ensures Format(content) != ""
  {
    var i :| 0 <= i < |content| && !IsSpace(content[i]);
    SplitKeepsChar(content, '\n', i);
    var lines := Split(content, '\n');
    var j :| 0 <= j < |lines| && content[i] in lines[j];
    var k :| 0 <= k < |lines[j]| && lines[j][k] == content[i];
    assert !IsBlank(lines[j]);
    FormatLinesNonEmpty(lines, j);
  }

  /** `s.replace(/pat/g, rep)` for a literal pattern: matches are found left to right, without overlap. */
  function ReplaceAll(s: string, pat: string, rep: string): (r: string)
    requires |pat| > 0
    decreases |s|
  {
    if |s| == 0 then ""
    else if StartsWith(s, pat) then rep + ReplaceAll(s[|pat|..], pat, rep)
    else [s[0]] + ReplaceAll(s[1..], pat, rep)
  }

  /** The form content of the editor: drop every `<p>`, turn every `</p>` into a newline, trim. */
  function Strip(content: string): (r: string) {
    Trim(ReplaceAll(ReplaceAll(content, "<p>", ""), "</p>", "\n"))
  }

  /** A string that differs from `pat` at position `k` does not start with `pat`. */
  lemma MismatchAt(x: string, pat: string, k: nat)
    requires k < |pat| && k < |x| && x[k] != pat[k]
    ensures !StartsWith(x, pat)
  {
    assert |pat| <= |x| ==> x[..|pat|][k] == x[k];
  }

  /** A match at the start is replaced, and the replacement goes on after it. */
  lemma ReplaceAtStart(pat: string, x: string, rep: string)
    requires |pat| > 0
    ensures ReplaceAll(pat + x, pat, rep) == rep + ReplaceAll(x, pat, rep)
  {
    var s := pat + x;
    assert s[..|pat|] == pat && s[|pat|..] == x;
  }

  /** A prefix in which no match starts is copied unchanged. */
  lemma {:induction false} ReplaceSkipsPrefix(u: string, t: string, pat: string, rep: string)
    requires |pat| > 0
    requires forall i | 0 <= i < |u| :: !StartsWith((u + t)[i..], pat)
    ensures ReplaceAll(u + t, pat, rep) == u + ReplaceAll(t, pat, rep)
    decreases |u|
  {
    if u == [] {
      assert u + t == t;
    } else {
      var x := u + t;
      assert x[0..] == x;
      assert x[1..] == u[1..] + t;
      forall i | 0 <= i < |u| - 1 ensures !StartsWith((u[1..] + t)[i..], pat) {
        assert (u[1..] + t)[i..] == x[i + 1..];
      }
      ReplaceSkipsPrefix(u[1..], t, pat, rep);
      assert !StartsWith(x, pat);
      assert ReplaceAll(x, pat, rep) == [x[0]] + ReplaceAll(x[1..], pat, rep);
      assert x[0] == u[0];
      assert [u[0]] + u[1..] == u;
      assert [u[0]] + (u[1..] + ReplaceAll(t, pat, rep)) == u + ReplaceAll(t, pat, rep);
    }
  }

  /** No opening tag starts inside `line + "</p>"` when `line` holds none. */
  lemma NoOpenTagAt(line: string, rest: string, i: nat)
    requires !Contains(line, "<p>") && i < |line| + 4
    ensures !StartsWith((line + "</p>" + rest)[i..], "<p>")
  {
    var w := line + "</p>" + rest;
    var x := w[i..];
    var n := |line|;
    assert w[n] == '<' && w[n + 1] == '/' && w[n + 2] == 'p' && w[n + 3] == '>';
    if i + 3 <= n {
      NoOccurrence(line, "<p>", i);
      assert x[..3] == line[i..][..3];
    } else if i < n {
      assert x[n - i] == w[n] == '<';
      MismatchAt(x, "<p>", n - i);
    } else if i == n {
      assert x[1] == w[n + 1];
      MismatchAt(x, "<p>", 1);
    } else {
      assert x[0] == w[i];
      MismatchAt(x, "<p>", 0);
    }
  }

  /** Stripping the opening tag of one paragraph leaves the line and its closing tag. */
  lemma OpenTagRemoved(line: string, rest: string)
    requires !Contains(line, "<p>")
    ensures ReplaceAll("<p>" + line + "</p>" + rest, "<p>", "")
         == line + "</p>" + ReplaceAll(rest, "<p>", "")
  {
    var u := line + "</p>";
    forall i | 0 <= i < |u| ensures !StartsWith((u + rest)[i..], "<p>") {
      NoOpenTagAt(line, rest, i);
    }
    ReplaceSkipsPrefix(u, rest, "<p>", "");
    ReplaceAtStart("<p>", u + rest, "");
    assert "<p>" + (u + rest) == "<p>" + line + "</p>" + rest;
  }

  /** Replacing the closing tag of one paragraph by a newline. */
  lemma CloseTagReplaced(line: string, rest: string)
    requires !Contains(line, "</p>")
    ensures ReplaceAll(line + "</p>" + rest, "</p>", "\n")
         == line + "\n" + ReplaceAll(rest, "</p>", "\n")
  {
    var t := "</p>" + rest;
    var x := line + t;
    forall i | 0 <= i < |line| ensures !StartsWith(x[i..], "</p>") {
      if i + 4 <= |line| {
        NoOccurrence(line, "</p>", i);
        assert x[i..][..4] == line[i..][..4];
      } else {
        MismatchAt(x[i..], "</p>", |line| - i);
      }
    }
    ReplaceSkipsPrefix(line, t, "</p>", "\n");
    assert StartsWith(t, "</p>");
    assert t[4..] == rest;
    assert line + "</p>" + rest == x;
  }

  /** Each line followed by `suffix`, all concatenated. */
  function Suffixed(lines: seq<string>, suffix: string): (r: string)
    decreases |lines|
  {
    if lines == [] then "" else lines[0] + suffix + Suffixed(lines[1..], suffix)
  }

  lemma {:induction false} SuffixedIsJoin(lines: seq<string>, sep: string)
    requires |lines| >= 1
    ensures Suffixed(lines, sep) == Join(lines, sep) + sep
    decreases |lines|
  {
    if |lines| > 1 {
      SuffixedIsJoin(lines[1..], sep);
    }
  }

  /** A line that survives formatting and stripping unchanged. */
  predicate PlainLine(line: string) {
    !IsBlank(line) && !Contains(line, "<p>") && !Contains(line, "</p>")
  }

  lemma {:induction false} OpenTagsRemoved(lines: seq<string>)
    requires forall i | 0 <= i < |lines| :: PlainLine(lines[i])
    ensures ReplaceAll(FormatLines(lines), "<p>", "") == Suffixed(lines, "</p>")
    decreases |lines|
  {
    if lines != [] {
      OpenTagsRemoved(lines[1..]);
      TrimEmptyIffBlank(lines[0]);
      OpenTagRemoved(lines[0], FormatLines(lines[1..]));
    }
  }

  lemma {:induction false} CloseTagsReplaced(lines: seq<string>)
    requires forall i | 0 <= i < |lines| :: PlainLine(lines[i])
    ensures ReplaceAll(Suffixed(lines, "</p>"), "</p>", "\n") == Suffixed(lines, "\n")
    decreases |lines|
  {
    if lines != [] {
      CloseTagsReplaced(lines[1..]);
      CloseTagReplaced(lines[0], Suffixed(lines[1..], "</p>"));
    }
  }

  /** Round trip: text whose lines are all non-blank and tag-free, and whose ends are not
      whitespace, comes back unchanged from formatting and stripping. */
  lemma StripFormatRoundTrip(text: string)
    requires text != [] && !IsSpace(text[0]) && !IsSpace(text[|text| - 1])
    requires forall line | line in Split(text, '\n') :: PlainLine(line)
    ensures Strip(Format(text)) == text
  {
    var lines := Split(text, '\n');
    OpenTagsRemoved(lines);
    CloseTagsReplaced(lines);
    SuffixedIsJoin(lines, "\n");
    JoinSplit(text, '\n');
    TrimDropsFinalNewline(text);
  }
}
