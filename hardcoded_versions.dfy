/** The hard-coded-version remover: the text transform of
    `remove_version_footer`, which drops version and date footers from a
    page, caps runs of blank lines and normalises the end of the file. */
module HardcodedVersions {
  import opened Text

  const TEMPLATE_ITALIC: string := "*Template Version:"
  const UPDATED_ITALIC: string := "*Last Updated:"
  const VERSION_BOLD: string := "**Version**:"
  const TEMPLATE_BOLD: string := "**Template Version**:"

  // ---------------------------------------------------------------- footer lines

  /** A line that `^<prefix>.*?\*\s*$` matches: it starts with the prefix
      and its last non-blank character is a `*` after the prefix. */
  predicate ItalicLine(line: string, prefix: string) {
    StartsWith(line, prefix) && |RStrip(line)| > |prefix| && RStrip(line)[|RStrip(line)| - 1] == '*'
  }

  /** The number of whitespace-only lines at the front of `lines`. */
  function LeadingBlank(lines: seq<string>): (k: nat)
    ensures k <= |lines|
  {
    if |lines| == 0 || !AllSpace(lines[0]) then 0 else 1 + LeadingBlank(lines[1..])
  }

  /** `re.sub(r"^<prefix>.*?\*\s*$", "", text, flags=re.MULTILINE)` on the
      lines of the text.  The greedy `\s*` runs over the newline and the
      whitespace-only lines after a matched line and gives back only the
      last newline before the next non-blank line, so the matched line and
      those blank lines become one empty line. */
  function CollapseItalic(lines: seq<string>, prefix: string): (r: seq<string>)
    ensures |r| <= |lines| && (|lines| > 0 ==> |r| > 0)
    decreases |lines|
  {
    if |lines| == 0 then []
    else if ItalicLine(lines[0], prefix) then
      var rest := lines[1..];
      [""] + CollapseItalic(rest[LeadingBlank(rest)..], prefix)
    else [lines[0]] + CollapseItalic(lines[1..], prefix)
  }

  /** What survives an italic pass: empty lines and unmatched lines of the input. */
  lemma {:induction false} CollapseItalicMembers(lines: seq<string>, prefix: string)
    ensures forall x :: x in CollapseItalic(lines, prefix) ==>
      x == "" || (x in lines && !ItalicLine(x, prefix))
    decreases |lines|
  {
    if |lines| > 0 {
      var rest := lines[1..];
      if ItalicLine(lines[0], prefix) {
        var k := LeadingBlank(rest);
        CollapseItalicMembers(rest[k..], prefix);
        assert forall x :: x in rest[k..] ==> x in lines;
      } else {
        CollapseItalicMembers(rest, prefix);
        assert forall x :: x in rest ==> x in lines;
      }
    }
  }

  /** An italic pass over lines none of which it matches changes nothing. */
  lemma {:induction false} CollapseItalicNone(lines: seq<string>, prefix: string)
    requires forall x :: x in lines ==> !ItalicLine(x, prefix)
    ensures CollapseItalic(lines, prefix) == lines
  {
    if |lines| > 0 {
      assert lines[0] in lines;
      assert forall x :: x in lines[1..] ==> x in lines;
      CollapseItalicNone(lines[1..], prefix);
    }
  }

  /** `re.sub(r"^<prefix>.*?$", "", text, flags=re.MULTILINE)` on the lines
      of the text: a line starting with the prefix is emptied, its newline
      stays. */
  function BlankBold(lines: seq<string>, prefix: string): (r: seq<string>)
    ensures |r| == |lines|
  {
    seq(|lines|, i requires 0 <= i < |lines| => if StartsWith(lines[i], prefix) then "" else lines[i])
  }

  /** A bold pass empties exactly the lines starting with its prefix and
      keeps every other line in place. */
  lemma BlankBoldMeaning(lines: seq<string>, prefix: string)
    ensures forall i :: 0 <= i < |lines| && StartsWith(lines[i], prefix) ==> BlankBold(lines, prefix)[i] == ""
    ensures forall i :: 0 <= i < |lines| && !StartsWith(lines[i], prefix) ==> BlankBold(lines, prefix)[i] == lines[i]
    ensures forall x :: x in BlankBold(lines, prefix) ==> x == "" || (x in lines && !StartsWith(x, prefix))
  {
    var r := BlankBold(lines, prefix);
    forall x | x in r
      ensures x == "" || (x in lines && !StartsWith(x, prefix))
    {
      var i :| 0 <= i < |r| && r[i] == x;
    }
  }

  lemma BlankBoldNone(lines: seq<string>, prefix: string)
    requires forall x :: x in lines ==> !StartsWith(x, prefix)
    ensures BlankBold(lines, prefix) == lines
  {
    forall i | 0 <= i < |lines|
      ensures BlankBold(lines, prefix)[i] == lines[i]
    {
      assert lines[i] in lines;
    }
  }

  /** The four substitutions, in the order the script applies them. */
  function StripFooterLines(lines: seq<string>): (r: seq<string>)
    ensures |lines| > 0 ==> |r| > 0
  {
    var a := CollapseItalic(lines, TEMPLATE_ITALIC);
    var b := CollapseItalic(a, UPDATED_ITALIC);
    var c := BlankBold(b, VERSION_BOLD);
    BlankBold(c, TEMPLATE_BOLD)
  }

  /** A line none of the four patterns matches. */
  predicate Clean(line: string) {
    !ItalicLine(line, TEMPLATE_ITALIC) && !ItalicLine(line, UPDATED_ITALIC) &&
    !StartsWith(line, VERSION_BOLD) && !StartsWith(line, TEMPLATE_BOLD)
  }

  /** After the four passes no line is matched by any of them, and every
      line is empty or a line of the input. */
  lemma StripFooterLinesMembers(lines: seq<string>)
    ensures forall x :: x in StripFooterLines(lines) ==> Clean(x) && (x == "" || x in lines)
  {
    var a := CollapseItalic(lines, TEMPLATE_ITALIC);
    var b := CollapseItalic(a, UPDATED_ITALIC);
    var c := BlankBold(b, VERSION_BOLD);
    CollapseItalicMembers(lines, TEMPLATE_ITALIC);
    CollapseItalicMembers(a, UPDATED_ITALIC);
    BlankBoldMeaning(b, VERSION_BOLD);
    BlankBoldMeaning(c, TEMPLATE_BOLD);
    assert Clean("");
  }

  /** Lines the patterns do not match go through the passes unchanged. */
  lemma StripFooterLinesNone(lines: seq<string>)
    requires forall x :: x in lines ==> Clean(x)
    ensures StripFooterLines(lines) == lines
  {
    CollapseItalicNone(lines, TEMPLATE_ITALIC);
    CollapseItalicNone(lines, UPDATED_ITALIC);
    BlankBoldNone(lines, VERSION_BOLD);
    BlankBoldNone(lines, TEMPLATE_BOLD);
  }

  /** The blank lines a matched italic line absorbs: all whitespace-only,
      and the next line, if any, has a non-blank character. */
  lemma {:induction false} LeadingBlankMeaning(lines: seq<string>)
    ensures forall i :: 0 <= i < LeadingBlank(lines) ==> AllSpace(lines[i])
    ensures LeadingBlank(lines) < |lines| ==> !AllSpace(lines[LeadingBlank(lines)])
  {
    if |lines| > 0 && AllSpace(lines[0]) {
      LeadingBlankMeaning(lines[1..]);
      forall i | 0 < i < LeadingBlank(lines)
        ensures AllSpace(lines[i])
      {
        assert lines[i] == lines[1..][i - 1];
      }
    }
  }

  // ---------------------------------------------------------------- blank runs

  /** Four newlines in a row start at `i`. */
  predicate Run4At(s: string, i: int) {
    0 <= i && i + 4 <= |s| && s[i] == '\n' && s[i + 1] == '\n' && s[i + 2] == '\n' && s[i + 3] == '\n'
  }

  predicate NoRun4(s: string) {
    forall i :: 0 <= i < |s| ==> !Run4At(s, i)
  }

  /** The number of newlines at the front of `s`. */
  function LeadingNewlines(s: string): (n: nat)
    ensures n <= |s|
    ensures forall i :: 0 <= i < n ==> s[i] == '\n'
    ensures n < |s| ==> s[n] != '\n'
  {
    if |s| == 0 || s[0] != '\n' then 0 else 1 + LeadingNewlines(s[1..])
  }

  /** `re.sub(r"\n{4,}", "\n\n\n", text)`: every maximal run of four or
      more newlines becomes three. */
  function CollapseNewlines(s: string): string
    decreases |s|
  {
    if |s| == 0 then ""
    else if s[0] != '\n' then [s[0]] + CollapseNewlines(s[1..])
    else
      var n := LeadingNewlines(s);
      (if n >= 4 then "\n\n\n" else s[..n]) + CollapseNewlines(s[n..])
  }

  /** A collapsed text starts as the text does when that is not a newline. */
  lemma CollapseNewlinesHead(s: string)
    ensures |CollapseNewlines(s)| == 0 <==> |s| == 0
    ensures |s| > 0 ==> CollapseNewlines(s)[0] == s[0]
  {
    if |s| > 0 && s[0] == '\n' {
      var n := LeadingNewlines(s);
      assert s[..n][0] == '\n';
    }
  }

  lemma NoRun4Cons(c: char, u: string)
    requires c != '\n' && NoRun4(u)
    ensures NoRun4([c] + u)
  {
    forall i | Run4At([c] + u, i)
      ensures false
    {
      assert Run4At(u, i - 1);
    }
  }

  lemma NoRun4Short(r: string, u: string)
    requires |r| <= 3 && NoRun4(u) && (u == [] || u[0] != '\n')
    ensures NoRun4(r + u)
  {
    forall i | Run4At(r + u, i)
      ensures false
    {
      if i >= |r| {
        assert Run4At(u, i - |r|);
      }
    }
  }

  /** No run of four newlines survives the collapse. */
  lemma {:induction false} CollapseNewlinesNoRun(s: string)
    ensures NoRun4(CollapseNewlines(s))
    decreases |s|
  {
    if |s| > 0 {
      if s[0] != '\n' {
        CollapseNewlinesNoRun(s[1..]);
        NoRun4Cons(s[0], CollapseNewlines(s[1..]));
      } else {
        var n := LeadingNewlines(s);
        var t := s[n..];
        CollapseNewlinesNoRun(t);
        CollapseNewlinesHead(t);
        NoRun4Short(if n >= 4 then "\n\n\n" else s[..n], CollapseNewlines(t));
      }
    }
  }

  lemma NoRun4Suffix(s: string, k: nat)
    requires NoRun4(s) && k <= |s|
    ensures NoRun4(s[k..])
  {
    forall i | Run4At(s[k..], i)
      ensures false
    {
      assert Run4At(s, i + k);
    }
  }

  /** A text without such a run is left as it is. */
  lemma {:induction false} CollapseNewlinesNone(s: string)
    requires NoRun4(s)
    ensures CollapseNewlines(s) == s
    decreases |s|
  {
    if |s| > 0 {
      if s[0] != '\n' {
        NoRun4Suffix(s, 1);
        CollapseNewlinesNone(s[1..]);
        assert [s[0]] + s[1..] == s;
      } else {
        var n := LeadingNewlines(s);
        if n >= 4 {
          assert Run4At(s, 0);
        }
        NoRun4Suffix(s, n);
        CollapseNewlinesNone(s[n..]);
        assert s[..n] + s[n..] == s;
      }
    }
  }

  /** `k` newlines. */
  function Newlines(k: nat): (s: string)
    ensures |s| == k && forall i :: 0 <= i < k ==> s[i] == '\n'
  {
    if k == 0 then "" else "\n" + Newlines(k - 1)
  }

  /** `k` empty lines. */
  function Blanks(k: nat): (ls: seq<string>)
    ensures |ls| == k && forall i :: 0 <= i < k ==> ls[i] == ""
  {
    if k == 0 then [] else [""] + Blanks(k - 1)
  }

  lemma NewlinesAre(s: string, k: nat)
    requires |s| == k && forall i :: 0 <= i < k ==> s[i] == '\n'
    ensures s == Newlines(k)
  {
  }

  /** Each leading newline of a text is an empty line of its split. */
  lemma {:induction false} SplitAfterNewlines(k: nat, u: string)
    ensures SplitLines(Newlines(k) + u) == Blanks(k) + SplitLines(u)
  {
    var w := SplitLines(u);
    if k > 0 {
      var v := Newlines(k - 1) + u;
      var b := Blanks(k - 1);
      SplitAfterNewlines(k - 1, u);
      assert Newlines(k) + u == ['\n'] + v;
      SplitSepCons(v, '\n');
      assert SplitLines(Newlines(k) + u) == [""] + (b + w);
      assert Blanks(k) + w == [""] + (b + w);
    } else {
      assert Newlines(0) + u == u;
      assert Blanks(0) + w == w;
    }
  }

  /** Every line of `a` is empty or a line of `b`. */
  predicate LinesFrom(a: seq<string>, b: seq<string>) {
    forall y :: y in a ==> y == "" || y in b
  }

  lemma LinesFromConcat(x: seq<string>, y: seq<string>, b: seq<string>)
    requires LinesFrom(x, b) && LinesFrom(y, b)
    ensures LinesFrom(x + y, b)
  {
  }

  lemma LinesFromBlanks(k: nat, b: seq<string>)
    ensures LinesFrom(Blanks(k), b)
  {
  }

  lemma LinesFromTail(a: seq<string>, pre: seq<string>, p: seq<string>)
    requires |p| >= 1 && LinesFrom(a, p[1..])
    ensures LinesFrom(a, pre + p)
  {
    forall y | y in a && y != ""
      ensures y in pre + p
    {
      var j :| 0 <= j < |p[1..]| && p[1..][j] == y;
      assert (pre + p)[|pre| + j + 1] == y;
    }
  }

  /** Collapsing newlines keeps the first line of the text, and each other
      line it leaves is empty or a line after the first of the text. */
  lemma {:induction false} CollapseNewlinesLines(s: string)
    ensures SplitLines(CollapseNewlines(s))[0] == SplitLines(s)[0]
    ensures LinesFrom(SplitLines(CollapseNewlines(s))[1..], SplitLines(s)[1..])
    decreases |s|
  {
    if |s| > 0 {
      if s[0] != '\n' {
        var t := s[1..];
        CollapseNewlinesLines(t);
        assert SplitLines(s) == [[s[0]] + SplitLines(t)[0]] + SplitLines(t)[1..] by {
          assert s == [s[0]] + t;
          SplitCons(s[0], t, '\n');
        }
        SplitCons(s[0], CollapseNewlines(t), '\n');
      } else {
        var n := LeadingNewlines(s);
        var t := s[n..];
        var k := if n >= 4 then 3 else n;
        CollapseNewlinesLines(t);
        assert SplitLines(s) == Blanks(n) + SplitLines(t) by {
          NewlinesAre(s[..n], n);
          assert s == s[..n] + t;
          SplitAfterNewlines(n, t);
        }
        assert SplitLines(CollapseNewlines(s)) == Blanks(k) + SplitLines(CollapseNewlines(t)) by {
          NewlinesAre(if n >= 4 then "\n\n\n" else s[..n], k);
          SplitAfterNewlines(k, CollapseNewlines(t));
        }
        CollapseTail(n, k, SplitLines(t), SplitLines(CollapseNewlines(t)));
      }
    }
  }

  /** The line bookkeeping of `CollapseNewlinesLines` for a run of `n`
      newlines cut to `k`. */
  lemma CollapseTail(n: nat, k: nat, p: seq<string>, q: seq<string>)
    requires 1 <= k <= n && |p| >= 1 && |q| >= 1
    requires q[0] == p[0] && LinesFrom(q[1..], p[1..])
    ensures (Blanks(k) + q)[0] == (Blanks(n) + p)[0]
    ensures LinesFrom((Blanks(k) + q)[1..], (Blanks(n) + p)[1..])
  {
    var b := Blanks(n - 1) + p;
    assert (Blanks(k) + q)[1..] == Blanks(k - 1) + ([q[0]] + q[1..]);
    assert (Blanks(n) + p)[1..] == b;
    LinesFromBlanks(k - 1, b);
    assert b[n - 1] == q[0];
    assert LinesFrom([q[0]], b);
    LinesFromTail(q[1..], Blanks(n - 1), p);
    LinesFromConcat([q[0]], q[1..], b);
    LinesFromConcat(Blanks(k - 1), [q[0]] + q[1..], b);
  }

  // ---------------------------------------------------------------- end of file

  /** Trailing whitespace after a text does not change its right strip. */
  lemma RStripAppendSpace(l: string, z: string)
    requires AllSpace(z)
    ensures RStrip(l + z) == RStrip(l)
  {
    var r := RStrip(l);
    var w := l[|r|..];
    assert l + z == r + (w + z);
    RStripPadded(r, w + z);
  }

  lemma ItalicDropSpace(l: string, z: string, prefix: string)
    requires AllSpace(z) && !ItalicLine(l + z, prefix)
    ensures !ItalicLine(l, prefix)
  {
    RStripAppendSpace(l, z);
    if StartsWith(l, prefix) {
      StartsWithExtend(l, prefix, z);
    }
  }

  lemma StartsDropSpace(l: string, z: string, prefix: string)
    requires !StartsWith(l + z, prefix)
    ensures !StartsWith(l, prefix)
  {
    if StartsWith(l, prefix) {
      StartsWithExtend(l, prefix, z);
    }
  }

  /** Cutting trailing whitespace off a line the patterns do not match
      leaves a line they do not match. */
  lemma CleanDropSpace(l: string, z: string)
    requires AllSpace(z) && Clean(l + z)
    ensures Clean(l)
  {
    ItalicDropSpace(l, z, TEMPLATE_ITALIC);
    ItalicDropSpace(l, z, UPDATED_ITALIC);
    StartsDropSpace(l, z, VERSION_BOLD);
    StartsDropSpace(l, z, TEMPLATE_BOLD);
  }

  predicate AllClean(lines: seq<string>) {
    forall y :: y in lines ==> Clean(y)
  }

  lemma CleanFrom(a: seq<string>, b: seq<string>)
    requires LinesFrom(a, b) && AllClean(b)
    ensures AllClean(a)
  {
    assert Clean("");
  }

  /** Every part of a whitespace-only text is whitespace-only. */
  lemma {:induction false} SplitAllSpace(w: string)
    requires AllSpace(w)
    ensures forall i :: 0 <= i < |SplitLines(w)| ==> AllSpace(SplitLines(w)[i])
    decreases |w|
  {
    if |w| > 0 {
      SplitAllSpace(w[1..]);
      var r := SplitLines(w[1..]);
      if w[0] != '\n' {
        assert AllSpace([w[0]] + r[0]);
      }
    }
  }

  /** The lines of `rstrip()`: the lines of the text up to its last
      non-blank line, that one cut before its trailing whitespace, and
      whitespace-only lines after it in the text. */
  lemma RStripParts(t: string)
    ensures var ps := SplitLines(RStrip(t)); var ts := SplitLines(t);
      |ps| <= |ts| &&
      (forall i :: 0 <= i < |ps| - 1 ==> ts[i] == ps[i]) &&
      TrimmedOf(ps[|ps| - 1], ts[|ps| - 1]) &&
      (forall i :: |ps| <= i < |ts| ==> AllSpace(ts[i]))
  {
    var r := RStrip(t);
    var w := t[|r|..];
    assert t == r + w;
    var ps := SplitLines(r);
    var qs := SplitLines(w);
    SplitPrefix(r, w, '\n');
    SplitAllSpace(w);
    PrefixPartsIndex(ps, qs);
    var y := ps[|ps| - 1];
    var x := y + qs[0];
    assert x[|y|..] == qs[0] && x[..|y|] == y;
  }

  /** One line of the text against the lines of its `rstrip()`. */
  lemma RStripLine(t: string, i: nat)
    requires i < |SplitLines(t)| || i < |SplitLines(RStrip(t))|
    ensures var ps := SplitLines(RStrip(t)); var ts := SplitLines(t);
      |ps| <= |ts| && i < |ts| &&
      (i < |ps| - 1 ==> ts[i] == ps[i]) &&
      (i == |ps| - 1 ==> StartsWith(ts[i], ps[i]) && ts[i] == ps[i] + ts[i][|ps[i]|..] &&
                         AllSpace(ts[i][|ps[i]|..])) &&
      (i >= |ps| ==> AllSpace(ts[i]))
  {
    RStripParts(t);
    var ps := SplitLines(RStrip(t));
    var ts := SplitLines(t);
    if i == |ps| - 1 {
      assert ts[i] == ts[i][..|ps[i]|] + ts[i][|ps[i]|..];
    }
  }

  /** `rstrip()` keeps the lines clean. */
  lemma RStripLines(t: string)
    requires AllClean(SplitLines(t))
    ensures AllClean(SplitLines(RStrip(t)))
  {
    var ps := SplitLines(RStrip(t));
    var ts := SplitLines(t);
    forall y | y in ps
      ensures Clean(y)
    {
      var i :| 0 <= i < |ps| && ps[i] == y;
      RStripLine(t, i);
      assert ts[i] in ts;
      if i == |ps| - 1 {
        CleanDropSpace(y, ts[i][|y|..]);
      }
    }
  }

  lemma NoRun4Prefix(s: string, k: nat)
    requires NoRun4(s) && k <= |s|
    ensures NoRun4(s[..k])
  {
    forall i | Run4At(s[..k], i)
      ensures false
    {
      assert Run4At(s, i);
    }
  }

  /** One newline after a text that does not end in one makes no run of four. */
  lemma NoRun4Newline(r: string)
    requires NoRun4(r) && (r == [] || r[|r| - 1] != '\n')
    ensures NoRun4(r + "\n")
  {
    var s := r + "\n";
    forall i | 0 <= i < |s|
      ensures !Run4At(s, i)
    {
      if i + 4 <= |r| {
        assert s[i..i + 4] == r[i..i + 4];
        assert !Run4At(r, i);
      } else if i + 4 == |s| {
        assert s[|r| - 1] == r[|r| - 1];
      }
    }
  }

  // ---------------------------------------------------------------- the transform

  /** The four footer substitutions on the text of a page. */
  function StripFooters(content: string): string {
    JoinLines(StripFooterLines(SplitLines(content)))
  }

  /** Blank runs capped at three newlines, trailing whitespace replaced by
      one newline. */
  function Tidy(text: string): string {
    RStrip(CollapseNewlines(text)) + "\n"
  }

  /** `remove_version_footer` on the text of a page: the text it writes back
      and whether it writes. */
  function RemoveVersionFooter(content: string): (string, bool) {
    var out := Tidy(StripFooters(content));
    (out, out != content)
  }

  /** A page as the transform leaves it: no footer line, no run of four
      newlines, exactly one newline at the end after a non-blank character
      (or the page is that newline alone). */
  predicate IsTidy(c: string) {
    AllClean(SplitLines(c)) && NoRun4(c) &&
    |c| >= 1 && c[|c| - 1] == '\n' && (|c| == 1 || !IsSpace(c[|c| - 2]))
  }

  /** After the substitutions no line of the page is a footer line. */
  lemma StripFootersClean(content: string)
    ensures AllClean(SplitLines(StripFooters(content)))
  {
    StripFootersLines(content);
    StripFooterLinesMembers(SplitLines(content));
  }

  lemma AllCleanSplit(ls: seq<string>)
    requires |ls| >= 1
    ensures AllClean(ls) <==> Clean(ls[0]) && AllClean(ls[1..])
  {
    assert ls == [ls[0]] + ls[1..];
  }

  /** Tidying a text whose lines are clean gives a tidy page. */
  lemma TidyShape(text: string)
    requires AllClean(SplitLines(text))
    ensures IsTidy(Tidy(text))
  {
    var c := CollapseNewlines(text);
    CollapseNewlinesNoRun(text);
    CollapseNewlinesLines(text);
    AllCleanSplit(SplitLines(text));
    CleanFrom(SplitLines(c)[1..], SplitLines(text)[1..]);
    AllCleanSplit(SplitLines(c));
    var r := RStrip(c);
    RStripLines(c);
    NoRun4Prefix(c, |r|);
    NoRun4Newline(r);
    var out := r + "\n";
    SplitConcat(r, "", '\n');
    assert r + "\n" + "" == out;
    assert Clean("");
    assert AllClean(SplitLines(out));
    if |out| > 1 {
      assert out[|out| - 2] == r[|r| - 1];
    }
  }

  lemma StripFootersFixed(c: string)
    requires AllClean(SplitLines(c))
    ensures StripFooters(c) == c
  {
    StripFooterLinesNone(SplitLines(c));
    JoinSplit(c, '\n');
  }

  lemma TidyFixedText(c: string)
    requires NoRun4(c) && |c| >= 1 && c[|c| - 1] == '\n' && (|c| == 1 || !IsSpace(c[|c| - 2]))
    ensures Tidy(c) == c
  {
    var r := c[..|c| - 1];
    assert CollapseNewlines(c) == c by {
      CollapseNewlinesNone(c);
    }
    assert RStrip(c) == r by {
      RStripLastNewline(c);
    }
    assert r + "\n" == c;
  }

  lemma RStripLastNewline(c: string)
    requires |c| >= 1 && c[|c| - 1] == '\n' && (|c| == 1 || !IsSpace(c[|c| - 2]))
    ensures RStrip(c) == c[..|c| - 1]
  {
    var r := c[..|c| - 1];
    assert c == r + "\n";
    RStripPadded(r, "\n");
  }

  /** A tidy page goes through the transform unchanged. */
  lemma TidyFixed(c: string)
    requires IsTidy(c)
    ensures RemoveVersionFooter(c) == (c, false)
  {
    StripFootersFixed(c);
    TidyFixedText(c);
  }

  /** What the transform writes is a tidy page. */
  lemma OutputTidy(content: string)
    ensures IsTidy(RemoveVersionFooter(content).0)
  {
    StripFootersClean(content);
    TidyShape(StripFooters(content));
  }

  /** The file is left alone exactly when it already is a tidy page. */
  lemma UnchangedExactly(content: string)
    ensures !RemoveVersionFooter(content).1 <==> IsTidy(content)
  {
    OutputTidy(content);
    if IsTidy(content) {
      TidyFixed(content);
    }
  }

  /** A second run changes nothing. */
  lemma Idempotent(content: string)
    ensures var out := RemoveVersionFooter(content).0;
      RemoveVersionFooter(out) == (out, false)
  {
    OutputTidy(content);
    TidyFixed(RemoveVersionFooter(content).0);
  }

  // ---------------------------------------------------------------- what survives

  /** The lines of the text after the four substitutions. */
  lemma StripFootersLines(content: string)
    ensures SplitLines(StripFooters(content)) == StripFooterLines(SplitLines(content))
  {
    var lines := SplitLines(content);
    var ls := StripFooterLines(lines);
    StripFooterLinesMembers(lines);
    SplitNoSep(content, '\n');
    forall i | 0 <= i < |ls|
      ensures '\n' !in ls[i]
    {
      assert ls[i] in ls;
      if ls[i] != "" {
        var j :| 0 <= j < |lines| && lines[j] == ls[i];
      }
    }
    SplitJoin(ls, '\n');
  }

  /** An italic pass keeps every line it does not match that is not blank. */
  lemma {:induction false} CollapseItalicKeeps(lines: seq<string>, prefix: string, x: string)
    requires x in lines && !ItalicLine(x, prefix) && !AllSpace(x)
    ensures x in CollapseItalic(lines, prefix)
    decreases |lines|
  {
    if lines[0] != x {
      var rest := lines[1..];
      assert x in rest;
      if ItalicLine(lines[0], prefix) {
        var k := LeadingBlank(rest);
        LeadingBlankMeaning(rest);
        var i :| 0 <= i < |rest| && rest[i] == x;
        assert rest[k..][i - k] == x;
        CollapseItalicKeeps(rest[k..], prefix, x);
      } else {
        CollapseItalicKeeps(rest, prefix, x);
      }
    }
  }

  lemma BlankBoldKeeps(lines: seq<string>, prefix: string, x: string)
    requires x in lines && !StartsWith(x, prefix)
    ensures x in BlankBold(lines, prefix)
  {
    var i :| 0 <= i < |lines| && lines[i] == x;
    assert BlankBold(lines, prefix)[i] == x;
  }

  /** The four passes keep every non-blank line none of them matches. */
  lemma StripFooterLinesKeeps(lines: seq<string>, x: string)
    requires x in lines && Clean(x) && !AllSpace(x)
    ensures x in StripFooterLines(lines)
  {
    var a := CollapseItalic(lines, TEMPLATE_ITALIC);
    var b := CollapseItalic(a, UPDATED_ITALIC);
    CollapseItalicKeeps(lines, TEMPLATE_ITALIC, x);
    CollapseItalicKeeps(a, UPDATED_ITALIC, x);
    BlankBoldKeeps(b, VERSION_BOLD, x);
    BlankBoldKeeps(BlankBold(b, VERSION_BOLD), TEMPLATE_BOLD, x);
  }

  /** Every non-empty line of `a` is a line of `b`. */
  predicate NonEmptyIn(a: seq<string>, b: seq<string>) {
    forall y :: y in a && y != "" ==> y in b
  }

  lemma NonEmptyInConcat(x: seq<string>, y: seq<string>, b: seq<string>)
    requires NonEmptyIn(x, b) && NonEmptyIn(y, b)
    ensures NonEmptyIn(x + y, b)
  {
  }

  lemma NonEmptyInTail(a: seq<string>, pre: seq<string>, q: seq<string>)
    requires |q| >= 1 && NonEmptyIn(a, q[1..])
    ensures NonEmptyIn(a, pre + q)
  {
    forall y | y in a && y != ""
      ensures y in pre + q
    {
      var j :| 0 <= j < |q[1..]| && q[1..][j] == y;
      assert (pre + q)[|pre| + j + 1] == y;
    }
  }

  lemma CollapseTailKeeps(n: nat, k: nat, p: seq<string>, q: seq<string>)
    requires 1 <= k <= n && |p| >= 1 && |q| >= 1
    requires q[0] == p[0] && NonEmptyIn(p[1..], q[1..])
    ensures NonEmptyIn((Blanks(n) + p)[1..], (Blanks(k) + q)[1..])
  {
    var b := Blanks(k - 1) + q;
    assert (Blanks(n) + p)[1..] == Blanks(n - 1) + ([p[0]] + p[1..]);
    assert (Blanks(k) + q)[1..] == b;
    assert b[k - 1] == p[0];
    assert NonEmptyIn([p[0]], b);
    NonEmptyInTail(p[1..], Blanks(k - 1), q);
    NonEmptyInConcat([p[0]], p[1..], b);
    NonEmptyInConcat(Blanks(n - 1), [p[0]] + p[1..], b);
  }

  /** Collapsing newlines only removes empty lines. */
  lemma {:induction false} CollapseNewlinesKeeps(s: string)
    ensures NonEmptyIn(SplitLines(s)[1..], SplitLines(CollapseNewlines(s))[1..])
    decreases |s|
  {
    if |s| > 0 {
      if s[0] != '\n' {
        var t := s[1..];
        CollapseNewlinesKeeps(t);
        assert SplitLines(s)[1..] == SplitLines(t)[1..] by {
          assert s == [s[0]] + t;
          SplitCons(s[0], t, '\n');
        }
        assert SplitLines(CollapseNewlines(s))[1..] == SplitLines(CollapseNewlines(t))[1..] by {
          SplitCons(s[0], CollapseNewlines(t), '\n');
        }
      } else {
        var n := LeadingNewlines(s);
        var t := s[n..];
        var k := if n >= 4 then 3 else n;
        CollapseNewlinesKeeps(t);
        CollapseNewlinesLines(t);
        assert SplitLines(s) == Blanks(n) + SplitLines(t) by {
          NewlinesAre(s[..n], n);
          assert s == s[..n] + t;
          SplitAfterNewlines(n, t);
        }
        assert SplitLines(CollapseNewlines(s)) == Blanks(k) + SplitLines(CollapseNewlines(t)) by {
          NewlinesAre(if n >= 4 then "\n\n\n" else s[..n], k);
          SplitAfterNewlines(k, CollapseNewlines(t));
        }
        CollapseTailKeeps(n, k, SplitLines(t), SplitLines(CollapseNewlines(t)));
      }
    }
  }

  lemma CollapseNewlinesKeepsLine(s: string, x: string)
    requires x in SplitLines(s) && x != ""
    ensures x in SplitLines(CollapseNewlines(s))
  {
    var ls := SplitLines(s);
    var cs := SplitLines(CollapseNewlines(s));
    CollapseNewlinesLines(s);
    CollapseNewlinesKeeps(s);
    assert ls == [ls[0]] + ls[1..] && cs == [cs[0]] + cs[1..];
    if x != ls[0] {
      assert x in ls[1..];
    }
  }

  /** `rstrip()` keeps every line that ends in a non-blank character. */
  lemma RStripKeeps(t: string, x: string)
    requires x in SplitLines(t) && |x| > 0 && !IsSpace(x[|x| - 1])
    ensures x in SplitLines(RStrip(t))
  {
    var ps := SplitLines(RStrip(t));
    var ts := SplitLines(t);
    var i :| 0 <= i < |ts| && ts[i] == x;
    RStripLine(t, i);
    if i < |ps| - 1 {
      assert ps[i] == x;
    } else if i == |ps| - 1 {
      var z := x[|ps[i]|..];
      assert |z| == 0;
      assert x == ps[i];
    } else {
      assert false;
    }
  }

  /** Every line of the page that ends in a non-blank character and that
      none of the four patterns matches is still a line of what the
      transform writes. */
  lemma KeepsBody(content: string, x: string)
    requires x in SplitLines(content) && Clean(x) && |x| > 0 && !IsSpace(x[|x| - 1])
    ensures x in SplitLines(RemoveVersionFooter(content).0)
  {
    var stripped := StripFooters(content);
    StripFooterLinesKeeps(SplitLines(content), x);
    StripFootersLines(content);
    CollapseNewlinesKeepsLine(stripped, x);
    var r := RStrip(CollapseNewlines(stripped));
    RStripKeeps(CollapseNewlines(stripped), x);
    SplitConcat(r, "", '\n');
    assert r + "\n" + "" == r + "\n";
  }

  // ---------------------------------------------------------------- what is new

  /** `y` is the line `x` with trailing whitespace cut off (or `x` itself). */
  predicate TrimmedOf(y: string, x: string) {
    StartsWith(x, y) && AllSpace(x[|y|..])
  }

  /** Every line of `a` is empty or a line of `b` with trailing whitespace cut off. */
  predicate TrimmedFrom(a: seq<string>, b: seq<string>) {
    forall y :: y in a ==> y == "" || exists x :: x in b && TrimmedOf(y, x)
  }

  lemma LinesFromTrans(a: seq<string>, b: seq<string>, c: seq<string>)
    requires LinesFrom(a, b) && LinesFrom(b, c)
    ensures LinesFrom(a, c)
  {
  }

  lemma TrimmedThen(a: seq<string>, b: seq<string>, c: seq<string>)
    requires TrimmedFrom(a, b) && LinesFrom(b, c)
    ensures TrimmedFrom(a, c)
  {
    forall y | y in a && y != ""
      ensures exists x :: x in c && TrimmedOf(y, x)
    {
      var x :| x in b && TrimmedOf(y, x);
      assert x != "";
      assert x in c;
    }
  }

  /** The lines of a collapsed text are empty or lines of the text. */
  lemma CollapseNewlinesFrom(s: string)
    ensures LinesFrom(SplitLines(CollapseNewlines(s)), SplitLines(s))
  {
    var ls := SplitLines(s);
    var cs := SplitLines(CollapseNewlines(s));
    CollapseNewlinesLines(s);
    assert cs == [cs[0]] + cs[1..] && ls == [ls[0]] + ls[1..];
    LinesFromTail(cs[1..], [], ls);
    assert [] + ls == ls;
    assert LinesFrom([cs[0]], ls);
    LinesFromConcat([cs[0]], cs[1..], ls);
  }

  /** The lines of `rstrip()` are lines of the text, the last one possibly
      with trailing whitespace cut off. */
  lemma RStripTrimmed(t: string)
    ensures TrimmedFrom(SplitLines(RStrip(t)), SplitLines(t))
  {
    var ps := SplitLines(RStrip(t));
    var ts := SplitLines(t);
    forall y | y in ps && y != ""
      ensures exists x :: x in ts && TrimmedOf(y, x)
    {
      var i :| 0 <= i < |ps| && ps[i] == y;
      RStripLine(t, i);
      var x := ts[i];
      assert x[..|y|] == y by {
        assert x == y + x[|y|..];
      }
      assert TrimmedOf(y, x);
      assert x in ts;
    }
  }

  /** The transform adds no text: every line it writes is empty or a line
      of the page, possibly with trailing whitespace cut off. */
  lemma AddsNothing(content: string)
    ensures TrimmedFrom(SplitLines(RemoveVersionFooter(content).0), SplitLines(content))
  {
    var l0 := SplitLines(content);
    var stripped := StripFooters(content);
    var c := CollapseNewlines(stripped);
    var r := RStrip(c);
    StripFootersLines(content);
    StripFooterLinesMembers(l0);
    assert LinesFrom(SplitLines(stripped), l0);
    CollapseNewlinesFrom(stripped);
    LinesFromTrans(SplitLines(c), SplitLines(stripped), l0);
    RStripTrimmed(c);
    TrimmedThen(SplitLines(r), SplitLines(c), l0);
    SplitConcat(r, "", '\n');
    assert r + "\n" + "" == r + "\n";
  }
}
