/** Reading back the reserved sections of a rendered glossary page.
    `generate_glossary_content` writes the reserved text kept from the old
    file behind a rule, then the footer; on the next run
    `parse_supplementary_sections` reads the page again. This module
    follows that loop over the rendered lines and the clean-up after it,
    and proves that the reserved text comes back as it was written. */
module GlossarySuppRoundTrip {
  import opened Wrappers
  import opened Text
  import opened Dict
  import opened Folds
  import opened Glossary
  import opened GlossaryParse
  import opened GlossaryRender
  import opened GlossaryLines
  import opened GlossaryRoundTrip

  // The loop over the lines.

  /** No line is a reserved heading. */
  predicate Unreserved(ls: seq<string>) {
    forall i :: 0 <= i < |ls| ==> !Reserved(ls[i])
  }

  /** No line is a letter heading. */
  predicate NoLetter(ls: seq<string>) {
    forall i :: 0 <= i < |ls| ==> !LetterSection(ls[i])
  }

  lemma PlainUnreserved(ls: seq<string>)
    requires AllPlain(ls)
    ensures Unreserved(ls) && NoLetter(ls)
  {
  }

  lemma UnreservedAppend(a: seq<string>, b: seq<string>)
    requires Unreserved(a) && Unreserved(b)
    ensures Unreserved(a + b)
  {
    forall i | 0 <= i < |a + b|
      ensures !Reserved((a + b)[i])
    {
      if i < |a| {
        assert (a + b)[i] == a[i];
      } else {
        assert (a + b)[i] == b[i - |a|];
      }
    }
  }

  /** Past the front matter, capturing nothing. */
  predicate Idle(s: SuppState) {
    !s.capturing && !s.inFront && s.frontCount >= 2 && s.captured == []
  }

  /** Inside a reserved section, past the front matter. */
  predicate Capturing(s: SuppState) {
    s.capturing && !s.inFront && s.frontCount >= 2
  }

  /** Lines that are no reserved headings capture nothing. */
  lemma {:induction false} IdleRun(s: SuppState, ls: seq<string>)
    requires Idle(s) && Unreserved(ls)
    ensures Idle(SuppRun(s, ls))
    decreases |ls|
  {
    if |ls| > 0 {
      var init := ls[..|ls| - 1];
      assert Unreserved(init) by {
        forall i | 0 <= i < |init|
          ensures !Reserved(init[i])
        {
          assert init[i] == ls[i];
        }
      }
      IdleRun(s, init);
    }
  }

  /** Inside a reserved section every line that is no letter heading is captured. */
  lemma {:induction false} CaptureRun(s: SuppState, ls: seq<string>)
    requires Capturing(s) && NoLetter(ls)
    ensures Capturing(SuppRun(s, ls)) && SuppRun(s, ls).captured == s.captured + ls
    decreases |ls|
  {
    if |ls| > 0 {
      var init := ls[..|ls| - 1];
      assert NoLetter(init) by {
        forall i | 0 <= i < |init|
          ensures !LetterSection(init[i])
        {
          assert init[i] == ls[i];
        }
      }
      CaptureRun(s, init);
      assert s.captured + init + [ls[|ls| - 1]] == s.captured + ls;
    } else {
      assert s.captured + ls == s.captured;
    }
  }

  /** Lines inside the front matter, none a rule, are skipped. */
  lemma {:induction false} InFrontRun(s: SuppState, ls: seq<string>)
    requires s.inFront && forall i :: 0 <= i < |ls| ==> !IsRule(ls[i])
    ensures SuppRun(s, ls) == s
    decreases |ls|
  {
    if |ls| > 0 {
      InFrontRun(s, ls[..|ls| - 1]);
      assert !IsRule(ls[|ls| - 1]);
    }
  }

  /** A front matter block leaves the loop past it, capturing nothing. */
  lemma FrontSkipped(fields: seq<string>)
    requires forall i :: 0 <= i < |fields| ==> !IsRule(fields[i])
    ensures Idle(SuppRun(SUPP_START, [RULE] + fields + [RULE]))
  {
    RuleLine();
    var s1 := SuppStep(SUPP_START, RULE);
    FoldAppend(SuppStep, SUPP_START, [RULE] + fields, [RULE]);
    FoldAppend(SuppStep, SUPP_START, [RULE], fields);
    FoldOne(SuppStep, SUPP_START, RULE);
    InFrontRun(s1, fields);
    FoldOne(SuppStep, s1, RULE);
  }

  /** After the head of the page nothing is captured. */
  lemma HeadIdle()
    ensures Idle(SuppRun(SUPP_START, Phys(HEAD_LINES)))
  {
    FrontLines();
    SplitJoin(FRONT_LINES, '\n');
    IntroLines();
    PhysHead(FRONTMATTER, INTRO_LINES);
    FrontFields();
    FrontSkipped(FRONT_FIELDS);
    FoldAppend(SuppStep, SUPP_START, FRONT_LINES, INTRO_LINES);
    PlainUnreserved(INTRO_LINES);
    IdleRun(SuppRun(SUPP_START, FRONT_LINES), INTRO_LINES);
  }

  /** A rendered term holds no reserved heading. */
  lemma TermUnreserved(t: GlossaryTerm, o: Options)
    requires Renderable(t) && LinkSafe(o)
    ensures Unreserved(Phys(TermLines(t, o)))
  {
    var refs := RefLines(t, o);
    RefLinesBlock(t, o);
    PhysTermOf(t.name, t.definition, refs);
    BodyPlain(t.definition, refs);
    TermHeading(t.name);
    PlainUnreserved(BodyOf(t.definition, refs));
    UnreservedAppend(["### " + t.name], BodyOf(t.definition, refs));
  }

  lemma {:induction false} TermsUnreserved(ts: seq<GlossaryTerm>, o: Options)
    requires LinkSafe(o) && forall x :: x in ts ==> Renderable(x)
    ensures Unreserved(Phys(TermsBlock(ts, o)))
    decreases |ts|
  {
    if |ts| > 0 {
      var init := ts[..|ts| - 1];
      var last := ts[|ts| - 1];
      assert forall x :: x in init ==> x in ts;
      TermsUnreserved(init, o);
      TermUnreserved(last, o);
      PhysAppend(TermsBlock(init, o), TermLines(last, o));
      UnreservedAppend(Phys(TermsBlock(init, o)), Phys(TermLines(last, o)));
    }
  }

  /** A rendered letter section holds no reserved heading. */
  lemma LetterUnreserved(sg: Sections, l: string, o: Options)
    requires GoodGroup(sg, l) && LinkSafe(o)
    ensures Unreserved(Phys(LetterBlock(sg, l, o)))
  {
    PhysLetter(sg, l, o);
    LetterLine(l);
    BlankLine();
    TermsUnreserved(Members(sg, l), o);
    UnreservedAppend(["## " + l, ""], Phys(TermsBlock(Members(sg, l), o)));
  }

  lemma {:induction false} LettersUnreserved(sg: Sections, letters: seq<string>, o: Options)
    requires LinkSafe(o) && forall i :: 0 <= i < |letters| ==> GoodGroup(sg, letters[i])
    ensures Unreserved(Phys(LettersBlock(sg, letters, o)))
    decreases |letters|
  {
    if |letters| > 0 {
      var init := letters[..|letters| - 1];
      var last := letters[|letters| - 1];
      assert forall i :: 0 <= i < |init| ==> init[i] == letters[i];
      LettersUnreserved(sg, init, o);
      LetterUnreserved(sg, last, o);
      PhysAppend(LettersBlock(sg, init, o), LetterBlock(sg, last, o));
      UnreservedAppend(Phys(LettersBlock(sg, init, o)), Phys(LetterBlock(sg, last, o)));
    }
  }

  /** From the reserved heading on, everything to the end of the page is
      captured: the reserved text, a blank line and the footer. */
  lemma TailCapture(s: SuppState, supp: string, n: nat)
    requires Idle(s) && SuppReady(supp)
    ensures SuppRun(s, Phys(SuppLines(supp) + FooterLines(n))).captured ==
            SplitLines(supp) + ([""] + FooterLines(n))
  {
    var sl := SplitLines(supp);
    var f := [""] + FooterLines(n);
    var rest := sl[1..] + f;
    assert supp != "";
    PhysTail(supp, n);
    var s2 := HeadingCaptured(s, sl[0], rest);
    TailQuiet(supp, n);
    CaptureRun(s2, rest);
    HeadThenRest(sl, f);
  }

  /** The rule and the blank line above the reserved text leave the loop
      idle, and the reserved heading starts the capture. */
  lemma HeadingCaptured(s: SuppState, h: string, rest: seq<string>) returns (s2: SuppState)
    requires Idle(s) && Reserved(h)
    ensures Capturing(s2) && s2.captured == [h]
    ensures SuppRun(s, [RULE, ""] + ([h] + rest)) == SuppRun(s2, rest)
  {
    var s1 := RuleSkipped(s, [h] + rest);
    FoldAppend(SuppStep, s1, [h], rest);
    FoldOne(SuppStep, s1, h);
    s2 := SuppStep(s1, h);
  }

  /** The rule and the blank line above the reserved text leave the loop idle. */
  lemma RuleSkipped(s: SuppState, rest: seq<string>) returns (s1: SuppState)
    requires Idle(s)
    ensures Idle(s1) && SuppRun(s, [RULE, ""] + rest) == SuppRun(s1, rest)
  {
    RuleBlankPlain();
    s1 := PlainSkipped(s, [RULE, ""], rest);
  }

  lemma RuleBlankPlain()
    ensures AllPlain([RULE, ""])
  {
    RuleLine();
    BlankLine();
  }

  /** Plain lines leave an idle loop idle. */
  lemma PlainSkipped(s: SuppState, a: seq<string>, rest: seq<string>) returns (s1: SuppState)
    requires Idle(s) && AllPlain(a)
    ensures Idle(s1) && SuppRun(s, a + rest) == SuppRun(s1, rest)
  {
    FoldAppend(SuppStep, s, a, rest);
    PlainUnreserved(a);
    IdleRun(s, a);
    s1 := SuppRun(s, a);
  }

  /** Neither the reserved text after its heading nor the footer holds a
      letter section, so nothing stops the capture. */
  lemma TailQuiet(supp: string, n: nat)
    requires SuppReady(supp)
    ensures supp != "" && NoLetter(SplitLines(supp)[1..] + ([""] + FooterLines(n)))
  {
    var sl := SplitLines(supp);
    assert supp != "";
    SuppRest(sl);
    FooterPlain(n);
    PlainUnreserved([""] + FooterLines(n));
    NoLetterAppend(sl[1..], [""] + FooterLines(n));
  }

  /** The blank line and the footer are plain lines. */
  lemma FooterPlain(n: nat)
    ensures AllPlain([""] + FooterLines(n))
  {
    var f := [""] + FooterLines(n);
    FooterQuiet(n);
    BlankLine();
    forall i | 0 <= i < |f|
      ensures PlainLine(f[i])
    {
      if i > 0 {
        assert f[i] == FooterLines(n)[i - 1];
      }
    }
  }

  lemma NoLetterAppend(a: seq<string>, b: seq<string>)
    requires NoLetter(a) && NoLetter(b)
    ensures NoLetter(a + b)
  {
    forall i | 0 <= i < |a + b|
      ensures !LetterSection((a + b)[i])
    {
      if i < |a| {
        assert (a + b)[i] == a[i];
      } else {
        assert (a + b)[i] == b[i - |a|];
      }
    }
  }

  /** The lines the loop captures from a rendered page. */
  lemma CapturedPage(terms: Dict<string, GlossaryTerm>, references: Option<References>,
                     supp: string, crossRef: bool)
    requires RenderableTerms(terms) && LinkSafe(Options(references, crossRef)) && SuppReady(supp)
    ensures SuppRun(SUPP_START, SplitLines(Render(terms, references, supp, crossRef))).captured ==
            SplitLines(supp) + ([""] + FooterLines(|terms|))
  {
    var o := Options(references, crossRef);
    var hd := Phys(HEAD_LINES);
    var lb := Phys(LettersBlock(SortedGroups(terms), Letters(terms), o));
    var tl := Phys(SuppLines(supp) + FooterLines(|terms|));
    PageLines(terms, references, supp, crossRef);
    GroupsGood(terms);
    FoldAppend(SuppStep, SUPP_START, hd, lb + tl);
    HeadIdle();
    var s0 := SuppRun(SUPP_START, hd);
    FoldAppend(SuppStep, s0, lb, tl);
    LettersUnreserved(SortedGroups(terms), Letters(terms), o);
    IdleRun(s0, lb);
    TailCapture(SuppRun(s0, lb), supp, |terms|);
  }

  // The clean-up after the loop.

  /** The footer patterns work line by line. */
  lemma RemoveMarkerConcat(a: string, b: string, m: string)
    ensures RemoveMarker(a + "\n" + b, m) == RemoveMarker(a, m) + "\n" + RemoveMarker(b, m)
  {
    var la := SplitLines(a);
    var lb := SplitLines(b);
    SplitLinesConcat(a, b);
    var l := la + lb;
    var cut := seq(|l|, i requires 0 <= i < |l| => CutLine(l[i], m));
    var ca := seq(|la|, i requires 0 <= i < |la| => CutLine(la[i], m));
    var cb := seq(|lb|, i requires 0 <= i < |lb| => CutLine(lb[i], m));
    assert cut == ca + cb;
    JoinAppend(ca, cb, "\n");
  }

  lemma RemoveMarkerFive(a: string, b: string, c: string, d: string, e: string, m: string)
    ensures RemoveMarker(a + "\n" + b + "\n" + c + "\n" + d + "\n" + e, m) ==
            RemoveMarker(a, m) + "\n" + RemoveMarker(b, m) + "\n" + RemoveMarker(c, m) + "\n" +
            RemoveMarker(d, m) + "\n" + RemoveMarker(e, m)
  {
    RemoveMarkerConcat(a + "\n" + b + "\n" + c + "\n" + d, e, m);
    RemoveMarkerConcat(a + "\n" + b + "\n" + c, d, m);
    RemoveMarkerConcat(a + "\n" + b, c, m);
    RemoveMarkerConcat(a, b, m);
  }

  /** A footer line that starts with its marker is removed whole. */
  lemma RemoveMarkerLine(x: string, m: string)
    requires '\n' !in x && StartsWith(x, m)
    ensures RemoveMarker(x, m) == ""
  {
    SplitPlain(x, '\n');
    assert x[0..|m|] == m;
    var cut := seq(1, i requires 0 <= i < 1 => CutLine([x][i], m));
    assert cut == [""];
  }

  /** A text none of whose characters starts the marker is left alone. */
  lemma RemoveMarkerLacks(x: string, m: string)
    requires |m| > 0 && m[0] !in x
    ensures RemoveMarker(x, m) == x
  {
    MissingFirstChar(x, m);
    RemoveMarkerUnchanged(x, m);
  }

  /** The footer patterns on the footer text: each footer line starts
      with its own marker and lacks the first characters of the markers
      applied before its own. */
  lemma FooterCut(p: string, t: string, mo: string, re: string)
    requires '*' !in p && 'F' !in p && '[' !in p
    requires '\n' !in t && StartsWith(t, TOTAL_MARK)
    requires '\n' !in mo && StartsWith(mo, MORE_MARK) && '*' !in mo
    requires '\n' !in re && StartsWith(re, REPO_MARK) && '*' !in re && 'F' !in re
    ensures RemoveMarkers(p + "\n" + t + "\n" + "" + "\n" + mo + "\n" + re, FOOTER_MARKERS) ==
            p + "\n" + "" + "\n" + "" + "\n" + "" + "\n" + ""
  {
    var x := p + "\n" + t + "\n" + "" + "\n" + mo + "\n" + re;
    TotalMarkFacts();
    MoreMarkFacts();
    RepoMarkFacts();
    RemoveFooterSteps(x);
    RemoveMarkerFive(p, t, "", mo, re, TOTAL_MARK);
    RemoveMarkerLacks(p, TOTAL_MARK);
    RemoveMarkerLine(t, TOTAL_MARK);
    RemoveMarkerLacks("", TOTAL_MARK);
    RemoveMarkerLacks(mo, TOTAL_MARK);
    RemoveMarkerLacks(re, TOTAL_MARK);
    RemoveMarkerFive(p, "", "", mo, re, MORE_MARK);
    RemoveMarkerLacks(p, MORE_MARK);
    RemoveMarkerLacks("", MORE_MARK);
    RemoveMarkerLine(mo, MORE_MARK);
    RemoveMarkerLacks(re, MORE_MARK);
    RemoveMarkerFive(p, "", "", "", re, REPO_MARK);
    RemoveMarkerLacks(p, REPO_MARK);
    RemoveMarkerLacks("", REPO_MARK);
    RemoveMarkerLine(re, REPO_MARK);
  }

  lemma RuleText()
    ensures JoinLines(["", RULE, ""]) == "\n---\n"
    ensures '*' !in "\n---\n" && 'F' !in "\n---\n" && '[' !in "\n---\n"
  {
    JoinLinesThree("", RULE, "");
  }

  lemma TotalLineFacts(n: nat)
    ensures '\n' !in TotalLine(n) && StartsWith(TotalLine(n), TOTAL_MARK)
  {
    TotalLineQuiet(n);
    ConcatEnds(TOTAL_MARK, " " + NatToString(n) + "+");
    assert TotalLine(n) == TOTAL_MARK + (" " + NatToString(n) + "+");
  }

  lemma MoreLineFacts()
    ensures '\n' !in MORE_LINE && StartsWith(MORE_LINE, MORE_MARK) && '*' !in MORE_LINE
  {
    MoreLine();
    MoreLineLacks();
  }

  lemma MoreLineLacks()
    ensures '*' !in MORE_LINE && StartsWith(MORE_LINE, MORE_MARK)
  {
  }

  lemma RepoLineFacts()
    ensures '\n' !in REPO_LINE && StartsWith(REPO_LINE, REPO_MARK)
    ensures '*' !in REPO_LINE && 'F' !in REPO_LINE && REPO_LINE[|REPO_LINE| - 1] == '.'
  {
    RepoLine();
    RepoLineStarless();
    RepoLineLacksF();
    RepoLineEnds();
  }

  lemma RepoLineStarless()
    ensures '*' !in REPO_LINE
  {
  }

  lemma RepoLineLacksF()
    ensures 'F' !in REPO_LINE
  {
  }

  lemma RepoLineEnds()
    ensures StartsWith(REPO_LINE, REPO_MARK) && REPO_LINE[|REPO_LINE| - 1] == '.'
  {
  }

  /** The captured lines, joined: the reserved text, then the footer. */
  lemma JoinFooter(sl: seq<string>, r: string, t: string, mo: string, re: string)
    requires |sl| >= 1
    ensures JoinLines(sl + ["", r, "", t, "", mo, re, ""]) ==
            JoinLines(sl) + "\n" + (JoinLines(["", r, ""]) + "\n" + t + "\n" + "" + "\n" + mo + "\n" + re) + "\n"
  {
    var head := ["", r, ""];
    var mid := [t, "", mo, re];
    assert ["", r, "", t, "", mo, re, ""] == head + mid + [""];
    JoinAppend(sl, head + mid + [""], "\n");
    JoinAppend(head + mid, [""], "\n");
    JoinAppend(head, mid, "\n");
    assert mid == [t, ""] + [mo, re];
    JoinAppend([t, ""], [mo, re], "\n");
    assert [t, ""][1..] == [""] && [mo, re][1..] == [re];
    assert Join([""], "\n") == "";
  }

  /** The clean-up turns the captured text back into the reserved text. */
  lemma CleanCaptured(supp: string, p: string, t: string, mo: string, re: string)
    requires supp != "" && IsStripped(supp)
    requires !Contains(supp, TOTAL_MARK) && !Contains(supp, MORE_MARK) && !Contains(supp, REPO_MARK)
    requires p == "\n---\n"
    requires '\n' !in t && StartsWith(t, TOTAL_MARK)
    requires '\n' !in mo && StartsWith(mo, MORE_MARK) && '*' !in mo
    requires '\n' !in re && StartsWith(re, REPO_MARK) && '*' !in re && 'F' !in re && re[|re| - 1] == '.'
    ensures CleanSupplementary(supp + "\n" + (p + "\n" + t + "\n" + "" + "\n" + mo + "\n" + re) + "\n") == supp
  {
    var body := supp + "\n" + (p + "\n" + t + "\n" + "" + "\n" + mo + "\n" + re);
    // the text loses its closing newline only
    assert body[0] == supp[0] && body[|body| - 1] == '.';
    assert "" + body + "\n" == body + "\n";
    StripPadded("", body, "\n");
    // the footer patterns cut the footer lines only
    RuleText();
    MarkersCut(supp, p, t, mo, re);
    // the trailing newlines and the footer's rule go, then the newline before it
    CutClean(supp, p);
  }

  /** The footer patterns cut the footer lines of the captured text and
      leave the reserved text alone. */
  lemma MarkersCut(supp: string, p: string, t: string, mo: string, re: string)
    requires !Contains(supp, TOTAL_MARK) && !Contains(supp, MORE_MARK) && !Contains(supp, REPO_MARK)
    requires '*' !in p && 'F' !in p && '[' !in p
    requires '\n' !in t && StartsWith(t, TOTAL_MARK)
    requires '\n' !in mo && StartsWith(mo, MORE_MARK) && '*' !in mo
    requires '\n' !in re && StartsWith(re, REPO_MARK) && '*' !in re && 'F' !in re
    ensures RemoveMarkers(supp + "\n" + (p + "\n" + t + "\n" + "" + "\n" + mo + "\n" + re), FOOTER_MARKERS) ==
            supp + "\n" + (p + "\n" + "" + "\n" + "" + "\n" + "" + "\n" + "")
  {
    MarkersPass(supp, p + "\n" + t + "\n" + "" + "\n" + mo + "\n" + re);
    FooterCut(p, t, mo, re);
  }

  /** A text free of the footer texts passes the footer patterns unchanged,
      whatever follows it. */
  lemma MarkersPass(a: string, y: string)
    requires !Contains(a, TOTAL_MARK) && !Contains(a, MORE_MARK) && !Contains(a, REPO_MARK)
    ensures RemoveMarkers(a + "\n" + y, FOOTER_MARKERS) == a + "\n" + RemoveMarkers(y, FOOTER_MARKERS)
  {
    RemoveFooterSteps(a + "\n" + y);
    RemoveFooterSteps(y);
    var y1 := RemoveMarker(y, TOTAL_MARK);
    var y2 := RemoveMarker(y1, MORE_MARK);
    RemoveMarkerConcat(a, y, TOTAL_MARK);
    RemoveMarkerUnchanged(a, TOTAL_MARK);
    assert RemoveMarker(a + "\n" + y, TOTAL_MARK) == a + "\n" + y1;
    RemoveMarkerConcat(a, y1, MORE_MARK);
    RemoveMarkerUnchanged(a, MORE_MARK);
    assert RemoveMarker(a + "\n" + y1, MORE_MARK) == a + "\n" + y2;
    RemoveMarkerConcat(a, y2, REPO_MARK);
    RemoveMarkerUnchanged(a, REPO_MARK);
  }

  /** With the footer lines cut, the trailing blank lines and the footer's
      rule go and the reserved text is left. */
  lemma CutClean(supp: string, p: string)
    requires supp != "" && IsStripped(supp)
    requires p == "\n---\n"
    ensures Strip(DropRule(RStrip(supp + "\n" + (p + "\n" + "" + "\n" + "" + "\n" + "" + "\n" + "")))) == supp
  {
    var ruled := supp + "\n\n---";
    CutText(supp, p);
    RStripPadded(ruled, "\n\n\n\n\n");
    assert EndsWith(ruled, "\n---");
    assert DropRule(ruled) == supp + "\n";
    assert "" + supp + "\n" == supp + "\n";
    StripPadded("", supp, "\n");
  }

  lemma CutText(supp: string, p: string)
    requires p == "\n---\n"
    ensures supp + "\n" + (p + "\n" + "" + "\n" + "" + "\n" + "" + "\n" + "") == supp + "\n\n---" + "\n\n\n\n\n"
  {
    var l := p + "\n" + "" + "\n" + "" + "\n" + "" + "\n" + "";
    assert l == "\n---\n\n\n\n\n";
    ConcatAssoc(supp, "\n", l);
    ConcatAssoc(supp, "\n\n---", "\n\n\n\n\n");
    assert "\n" + l == "\n\n---" + "\n\n\n\n\n";
  }

  /** Seven lines behind one more. */
  lemma ConsSeven<T>(x: T, a: T, b: T, c: T, d: T, e: T, f: T, g: T)
    ensures [x] + [a, b, c, d, e, f, g] == [x, a, b, c, d, e, f, g]
  {
  }

  /** The clean-up turns the captured lines of the reserved text and the
      footer back into the reserved text. */
  lemma CleanFooter(supp: string, n: nat)
    requires supp != "" && IsStripped(supp)
    requires !Contains(supp, TOTAL_MARK) && !Contains(supp, MORE_MARK) && !Contains(supp, REPO_MARK)
    ensures CleanSupplementary(JoinLines(SplitLines(supp) + ([""] + FooterLines(n)))) == supp
  {
    ConsSeven("", RULE, "", TotalLine(n), "", MORE_LINE, REPO_LINE, "");
    JoinFooter(SplitLines(supp), RULE, TotalLine(n), MORE_LINE, REPO_LINE);
    JoinSplit(supp, '\n');
    RuleText();
    TotalLineFacts(n);
    MoreLineFacts();
    RepoLineFacts();
    CleanCaptured(supp, JoinLines(["", RULE, ""]), TotalLine(n), MORE_LINE, REPO_LINE);
  }

  /** The reserved sections survive regeneration: the page written with the
      reserved text `supp`, which reads back as reserved sections and is in
      the form the clean-up leaves (stripped, free of the footer texts),
      gives `supp` back on the next run. */
  lemma SuppRoundTrip(terms: Dict<string, GlossaryTerm>, references: Option<References>,
                      supp: string, crossRef: bool)
    requires RenderableTerms(terms) && LinkSafe(Options(references, crossRef)) && SuppReady(supp)
    requires IsStripped(supp)
    requires !Contains(supp, TOTAL_MARK) && !Contains(supp, MORE_MARK) && !Contains(supp, REPO_MARK)
    ensures ParseSupplementary(Some(Render(terms, references, supp, crossRef))) == supp
  {
    var page := Render(terms, references, supp, crossRef);
    var captured := SplitLines(supp) + ([""] + FooterLines(|terms|));
    CapturedPage(terms, references, supp, crossRef);
    ParseCaptured(page, captured);
    assert supp != "";
    CleanFooter(supp, |terms|);
  }

  /** The parser cleans up what its loop captured. */
  lemma ParseCaptured(page: string, captured: seq<string>)
    requires SuppRun(SUPP_START, SplitLines(page)).captured == captured
    ensures ParseSupplementary(Some(page)) == CleanSupplementary(JoinLines(captured))
  {
  }
}
