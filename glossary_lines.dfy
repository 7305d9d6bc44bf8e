/** The lines of a rendered glossary page as the parsers of
    `scripts/generate_glossary.py` classify them: which are headings,
    which are rules, and which hold no newline. */
module GlossaryLines {
  import opened Wrappers
  import opened Text
  import opened Glossary
  import opened GlossaryParse
  import opened Sorting
  import opened GlossaryRender

  // What kind of line each rendered line is.

  /** No line of `ls` is a `##` or `###` heading. */
  predicate AllPlain(ls: seq<string>) {
    forall i :: 0 <= i < |ls| ==> PlainLine(ls[i])
  }

  lemma AllPlainAppend(a: seq<string>, b: seq<string>)
    requires AllPlain(a) && AllPlain(b)
    ensures AllPlain(a + b)
  {
    forall i | 0 <= i < |a + b|
      ensures PlainLine((a + b)[i])
    {
      if i < |a| {
        assert (a + b)[i] == a[i];
      } else {
        assert (a + b)[i] == b[i - |a|];
      }
    }
  }

  /** A line that starts with a character other than whitespace, `#` and
      `-` is neither a heading nor a rule. */
  lemma PlainByHead(x: string)
    requires |x| > 0 && !IsSpace(x[0]) && x[0] != '#' && x[0] != '-'
    ensures PlainLine(x) && !IsRule(x) && LetterHeader(x).None?
  {
    LStripOfStripped(x);
    var st := Strip(x);
    assert st == RStrip(x);
    assert |st| > 0 && st[0] == x[0];
  }

  lemma BlankLine()
    ensures PlainLine("") && !IsRule("") && LetterHeader("").None? && '\n' !in ""
  {
    assert Strip("") == "";
  }

  lemma RuleLine()
    ensures PlainLine(RULE) && IsRule(RULE) && LetterHeader(RULE).None? && '\n' !in RULE
  {
    StripOfStripped(RULE);
  }

  /** A heading of a letter section, as rendered. */
  lemma LetterLine(l: string)
    requires IsLetter(l)
    ensures LetterHeader("## " + l) == Some(l[0]) && LetterSection("## " + l)
    ensures '\n' !in "## " + l && !IsRule("## " + l) && !Reserved("## " + l)
  {
    var c := l[0];
    assert l == [c];
    var x := ['#', '#', ' ', c];
    assert "## " + l == x;
    assert !IsSpace(c);
    StripOfStripped(x);
    assert x[..3] == "## " && x[3..] == [c];
    assert H2Name(x) == Some([c]);
    StripOfStripped([c]);
    assert LetterSection(x);
    assert x[0] != '-';
    assert !IsRule(x);
    assert '\n' !in x by {
      assert forall i :: 0 <= i < 4 ==> x[i] != '\n';
    }
    ReservedLong([c]);
  }

  /** A name that can be written as a `###` heading and read back. */
  predicate GoodName(name: string) {
    name != "" && IsStripped(name) && '\n' !in name
  }

  /** The heading of a term, as rendered. */
  lemma TermHeading(name: string)
    requires GoodName(name)
    ensures H3Name("### " + name) == Some(name) && Strip(name) == name
    ensures H2Name("### " + name).None? && LetterHeader("### " + name).None?
    ensures '\n' !in "### " + name && !IsRule("### " + name)
  {
    TermHeadingStrip(name);
    TermHeadingName(name);
    TermHeadingOneLine(name);
  }

  lemma TermHeadingStrip(name: string)
    requires GoodName(name)
    ensures Strip("### " + name) == "### " + name && Strip(name) == name
  {
    var x := "### " + name;
    assert x[0] == '#' && x[|x| - 1] == name[|name| - 1];
    StripOfStripped(x);
    StripOfStripped(name);
  }

  lemma TermHeadingName(name: string)
    requires GoodName(name) && Strip("### " + name) == "### " + name
    ensures H3Name("### " + name) == Some(name)
    ensures H2Name("### " + name).None? && LetterHeader("### " + name).None? && !IsRule("### " + name)
  {
    var x := "### " + name;
    assert x[..4] == "### " && x[4..] == name;
    assert x[..3] != "## " by {
      assert x[..3][2] == '#';
    }
    assert x[0] == '#';
  }

  lemma TermHeadingOneLine(name: string)
    requires '\n' !in name
    ensures '\n' !in "### " + name
  {
    var x := "### " + name;
    forall i | 0 <= i < |x|
      ensures x[i] != '\n'
    {
      if i >= 4 {
        assert x[i] == name[i - 4];
      }
    }
  }

  /** A line that is no letter section heading is no letter heading. */
  lemma NoLetterHeader(line: string)
    requires !LetterSection(line)
    ensures LetterHeader(line).None?
  {
    if LetterHeader(line).Some? {
      LetterIsH2(line);
      StripOfStripped([LetterHeader(line).value]);
    }
  }

  // The fixed lines of the page.

  /** A line that is one physical line and neither a heading nor a rule. */
  predicate Quiet(x: string) {
    '\n' !in x && PlainLine(x) && !IsRule(x) && LetterHeader(x).None?
  }

  lemma QuietByHead(x: string)
    requires |x| > 0 && '\n' !in x && !IsSpace(x[0]) && x[0] != '#' && x[0] != '-'
    ensures Quiet(x)
  {
    PlainByHead(x);
  }

  lemma TitleField()
    ensures Quiet(FRONT_FIELDS[0])
  {
    QuietByHead(FRONT_FIELDS[0]);
  }

  lemma DescriptionField()
    ensures Quiet(FRONT_FIELDS[1])
  {
    QuietByHead(FRONT_FIELDS[1]);
  }

  lemma AuthorField()
    ensures Quiet(FRONT_FIELDS[2])
  {
    QuietByHead(FRONT_FIELDS[2]);
  }

  lemma TagsField()
    ensures Quiet(FRONT_FIELDS[3])
  {
    QuietByHead(FRONT_FIELDS[3]);
  }

  lemma CategoryField()
    ensures Quiet(FRONT_FIELDS[4])
  {
    QuietByHead(FRONT_FIELDS[4]);
  }

  lemma StatusField()
    ensures Quiet(FRONT_FIELDS[5])
  {
    QuietByHead(FRONT_FIELDS[5]);
  }

  /** The fields of the front matter are quiet lines. */
  lemma FrontFields()
    ensures forall i :: 0 <= i < |FRONT_FIELDS| ==> Quiet(FRONT_FIELDS[i])
  {
    TitleField();
    DescriptionField();
    AuthorField();
    TagsField();
    CategoryField();
    StatusField();
    SixQuiet(FRONT_FIELDS);
  }

  lemma SixQuiet(f: seq<string>)
    requires |f| == 6
    requires Quiet(f[0]) && Quiet(f[1]) && Quiet(f[2]) && Quiet(f[3]) && Quiet(f[4]) && Quiet(f[5])
    ensures forall i :: 0 <= i < |f| ==> Quiet(f[i])
  {
  }

  /** No line of the front matter holds a newline. */
  lemma FrontLines()
    ensures forall i :: 0 <= i < |FRONT_LINES| ==> '\n' !in FRONT_LINES[i]
  {
    FrontFields();
    RuleLine();
    Framed(FRONT_FIELDS);
  }

  lemma Framed(f: seq<string>)
    requires '\n' !in RULE && forall i :: 0 <= i < |f| ==> Quiet(f[i])
    ensures forall i :: 0 <= i < |[RULE] + f + [RULE]| ==> '\n' !in ([RULE] + f + [RULE])[i]
  {
    var g := [RULE] + f + [RULE];
    forall i | 0 <= i < |g|
      ensures '\n' !in g[i]
    {
      if 0 < i < |g| - 1 {
        assert g[i] == f[i - 1];
      }
    }
  }

  /** The introduction: four lines, none a heading. */
  lemma IntroLines()
    ensures forall i :: 0 <= i < |INTRO_LINES| ==> '\n' !in INTRO_LINES[i]
    ensures AllPlain(INTRO_LINES)
  {
    BlankLine();
    IntroHead();
    IntroTail();
    FourQuiet(INTRO_LINES);
  }

  lemma FourQuiet(f: seq<string>)
    requires |f| == 4 && Quiet(f[0]) && Quiet(f[1]) && Quiet(f[2]) && Quiet(f[3])
    ensures forall i :: 0 <= i < |f| ==> '\n' !in f[i]
    ensures AllPlain(f)
  {
    forall i | 0 <= i < |f|
      ensures '\n' !in f[i] && PlainLine(f[i])
    {
      assert Quiet(f[i]) by {
        if i == 0 { } else if i == 1 { } else if i == 2 { } else { }
      }
    }
  }

  /** The lines between the front matter and the first letter section. */
  lemma IntroHead()
    ensures Quiet(INTRO_HEAD)
  {
    QuietByHead(INTRO_HEAD);
  }

  lemma IntroTail()
    ensures Quiet(INTRO_TAIL)
  {
    QuietByHead(INTRO_TAIL);
  }

  lemma TotalLineQuiet(n: nat)
    ensures Quiet(TotalLine(n))
  {
    var x := TotalLine(n);
    var d := NatToString(n);
    assert x == TOTAL_MARK + " " + d + "+";
    assert '\n' !in d by {
      assert forall i :: 0 <= i < |d| ==> IsDigit(d[i]);
    }
    QuietByHead(x);
  }

  lemma MoreLine()
    ensures Quiet(MORE_LINE)
  {
    QuietByHead(MORE_LINE);
  }

  lemma RepoLine()
    ensures Quiet(REPO_LINE)
  {
    QuietByHead(REPO_LINE);
  }

  /** The footer lines, each on one line, none a heading. */
  lemma FooterQuiet(n: nat)
    ensures forall i :: 0 <= i < |FooterLines(n)| ==> '\n' !in FooterLines(n)[i] && PlainLine(FooterLines(n)[i])
    ensures forall i :: 0 <= i < |FooterLines(n)| ==> LetterHeader(FooterLines(n)[i]).None?
  {
    var f := FooterLines(n);
    assert f[0] == RULE && f[1] == "" && f[2] == TotalLine(n) && f[3] == "";
    assert f[4] == MORE_LINE && f[5] == REPO_LINE && f[6] == "";
    RuleLine();
    BlankLine();
    TotalLineQuiet(n);
    MoreLine();
    RepoLine();
    AllQuiet(f);
  }

  lemma AllQuiet(f: seq<string>)
    requires |f| == 7 && '\n' !in f[0] && PlainLine(f[0]) && LetterHeader(f[0]).None?
    requires Quiet(f[1]) && Quiet(f[2]) && Quiet(f[3]) && Quiet(f[4]) && Quiet(f[5]) && Quiet(f[6])
    ensures forall i :: 0 <= i < |f| ==> '\n' !in f[i] && PlainLine(f[i])
    ensures forall i :: 0 <= i < |f| ==> LetterHeader(f[i]).None?
  {
  }

  // The "Referenced in" line.

  /** No display path holds a newline. */
  predicate OneLinePaths(refs: seq<TermReference>) {
    forall r :: r in refs ==> '\n' !in r.displayPath
  }

  lemma {:induction false} JoinLacks(parts: seq<string>, sep: string, c: char)
    requires c !in sep && forall i :: 0 <= i < |parts| ==> c !in parts[i]
    ensures c !in Join(parts, sep)
    decreases |parts|
  {
    if |parts| > 1 {
      JoinLacks(parts[1..], sep, c);
      assert c !in parts[0];
    }
  }

  lemma ShownOneLine(refs: seq<TermReference>)
    requires OneLinePaths(refs)
    ensures forall i :: 0 <= i < |Shown(refs)| ==> '\n' !in Shown(refs)[i]
  {
    var sorted := Sort(refs, PathLess);
    var shown := Shown(refs);
    forall i | 0 <= i < |shown|
      ensures '\n' !in shown[i]
    {
      assert shown[i] == Link(sorted[i].displayPath);
      assert sorted[i] in multiset(refs);
    }
  }

  /** The "Referenced in" line is one line that starts and ends with `*`. */
  lemma RefTextQuiet(refs: seq<TermReference>)
    requires OneLinePaths(refs)
    ensures Quiet(RefText(refs)) && IsStripped(RefText(refs))
    ensures RefText(refs)[0] == '*' && RefText(refs)[|RefText(refs)| - 1] == '*'
  {
    var shown := Shown(refs);
    ShownOneLine(refs);
    JoinLacks(shown, ", ", '\n');
    var tail := if |refs| > 5 then " and " + NatToString(|refs| - 5) + " more*" else "*";
    assert '\n' !in tail && tail[|tail| - 1] == '*' by {
      if |refs| > 5 {
        var d := NatToString(|refs| - 5);
        assert forall i :: 0 <= i < |d| ==> IsDigit(d[i]);
      }
    }
    var x := RefText(refs);
    assert x == "*Referenced in: " + Join(shown, ", ") + tail;
    assert x[|x| - 1] == tail[|tail| - 1];
    QuietByHead(x);
  }
}
