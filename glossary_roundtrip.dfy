/** Reading back a rendered glossary page. `scripts/generate_glossary.py`
    writes the page with `generate_glossary_content` and, on the next
    run, reads the same file with `parse_existing_glossary` and
    `parse_supplementary_sections`. This module follows the parser over
    the rendered lines and proves what comes back: every term under its
    own key, its definition extended by the text the parser cannot tell
    apart from it (the "Referenced in" line), and the reserved sections
    exactly as they were kept. */
module GlossaryRoundTrip {
  import opened Wrappers
  import opened Text
  import opened Dict
  import opened Folds
  import opened Glossary
  import opened GlossaryParse
  import opened GlossaryRender
  import opened GlossaryLines

  // The page as the parser sees it: the rendered lines are joined with
  // '\n' and split again, so a line holding newlines becomes several.

  /** The physical lines of the rendered lines `ls`. */
  function Phys(ls: seq<string>): seq<string> {
    if |ls| == 0 then [] else SplitLines(ls[0]) + Phys(ls[1..])
  }

  lemma {:induction false} PhysAppend(a: seq<string>, b: seq<string>)
    ensures Phys(a + b) == Phys(a) + Phys(b)
    decreases |a|
  {
    if |a| == 0 {
      assert a + b == b;
    } else {
      assert (a + b)[1..] == a[1..] + b;
      PhysAppend(a[1..], b);
    }
  }

  /** Splitting the joined page gives its physical lines. */
  lemma {:induction false} SplitJoinPhys(ls: seq<string>)
    requires |ls| >= 1
    ensures SplitLines(JoinLines(ls)) == Phys(ls)
    decreases |ls|
  {
    if |ls| == 1 {
      assert Phys(ls) == SplitLines(ls[0]) + Phys([]);
    } else {
      SplitJoinPhys(ls[1..]);
      SplitLinesConcat(ls[0], JoinLines(ls[1..]));
      assert JoinLines(ls) == ls[0] + "\n" + JoinLines(ls[1..]);
    }
  }

  /** A line without a newline is one physical line. */
  lemma PhysCons(x: string, ls: seq<string>)
    requires '\n' !in x
    ensures Phys([x] + ls) == [x] + Phys(ls)
  {
    SplitPlain(x, '\n');
    assert ([x] + ls)[1..] == ls;
  }

  lemma {:induction false} PhysPlain(ls: seq<string>)
    requires forall i :: 0 <= i < |ls| ==> '\n' !in ls[i]
    ensures Phys(ls) == ls
    decreases |ls|
  {
    if |ls| > 0 {
      PhysCons(ls[0], ls[1..]);
      PhysPlain(ls[1..]);
      assert [ls[0]] + ls[1..] == ls;
    }
  }

  // The parser over the letter sections.

  /** Past the front matter and outside the reserved sections. */
  predicate Ready(s: ParseState) {
    !s.inFront && s.frontCount >= 2 && !s.inNonTerm
  }

  /** The state with the front matter counter set aside. */
  function Flat(s: ParseState): ParseState {
    s.(frontCount := 0)
  }

  /** A line that is no heading is added to the term being read, if any. */
  lemma StepPlain(s: ParseState, line: string)
    requires Ready(s) && PlainLine(line)
    ensures Ready(Step(s, line))
    ensures Flat(Step(s, line)) == Flat(if s.term != "" then s.(body := s.body + [line]) else s)
  {
    if LetterHeader(line).Some? {
      LetterIsH2(line);
    }
  }

  lemma AllPlainInit(ls: seq<string>)
    requires |ls| > 0 && AllPlain(ls)
    ensures AllPlain(ls[..|ls| - 1])
  {
    var init := ls[..|ls| - 1];
    assert forall i :: 0 <= i < |init| ==> init[i] == ls[i];
  }

  lemma BodyGrows(b: seq<string>, ls: seq<string>)
    requires |ls| > 0
    ensures b + ls == b + ls[..|ls| - 1] + [ls[|ls| - 1]]
  {
    assert ls == ls[..|ls| - 1] + [ls[|ls| - 1]];
  }

  /** Lines that are no headings, with no term being read, change
      nothing but the front matter counter. */
  lemma {:induction false} RunIdle(s: ParseState, ls: seq<string>)
    requires Ready(s) && s.term == "" && AllPlain(ls)
    ensures Ready(Run(s, ls)) && Flat(Run(s, ls)) == Flat(s)
    decreases |ls|
  {
    if |ls| > 0 {
      var init := ls[..|ls| - 1];
      AllPlainInit(ls);
      RunIdle(s, init);
      StepPlain(Run(s, init), ls[|ls| - 1]);
    }
  }

  /** Lines that are no headings are the body of the term being read. */
  lemma {:induction false} RunBody(s: ParseState, ls: seq<string>)
    requires Ready(s) && s.term != "" && AllPlain(ls)
    ensures Ready(Run(s, ls)) && Flat(Run(s, ls)) == Flat(s.(body := s.body + ls))
    decreases |ls|
  {
    if |ls| > 0 {
      var init := ls[..|ls| - 1];
      AllPlainInit(ls);
      RunBody(s, init);
      StepPlain(Run(s, init), ls[|ls| - 1]);
      BodyGrows(s.body, ls);
    } else {
      assert s.body + ls == s.body;
    }
  }

  /** A term heading saves the term being read and starts the new one. */
  lemma StepTermHeading(s: ParseState, name: string)
    requires Ready(s) && GoodName(name)
    ensures Ready(Step(s, "### " + name))
    ensures Flat(Step(s, "### " + name)) == Flat(s.(terms := Flushed(s), term := name, body := []))
  {
    TermHeading(name);
  }

  /** A letter heading saves the term being read and opens the section. */
  lemma StepLetter(s: ParseState, l: string)
    requires Ready(s) && IsLetter(l)
    ensures Ready(Step(s, "## " + l))
    ensures Flat(Step(s, "## " + l)) == Flat(s.(terms := Flushed(s), section := l, term := "", body := []))
  {
    LetterLine(l);
    assert [l[0]] == l;
  }

  // One term.

  /** A term the renderer writes in a form the parser reads back: a name
      that fits a `###` heading, a letter section, and a definition in
      parsed form none of whose lines is a heading. */
  predicate Renderable(t: GlossaryTerm) {
    GoodName(t.name) && IsLetter(t.section) && Normalized(t.definition) && AllPlain(SplitLines(t.definition))
  }

  /** No display path in the reference map holds a newline. */
  predicate LinkSafe(o: Options) {
    o.references.Some? ==> forall e :: e in o.references.value ==> OneLinePaths(e.1)
  }

  /** The lines the parser collects under a term's heading. */
  function Body(t: GlossaryTerm, o: Options): seq<string> {
    BodyOf(t.definition, RefLines(t, o))
  }

  function BodyOf(def: string, refs: seq<string>): seq<string> {
    [""] + SplitLines(def) + refs + [""]
  }

  /** The definition read back: a "Referenced in" line, when shown, is
      taken as the definition's last paragraph. */
  function Reread(t: GlossaryTerm, o: Options): string {
    RereadOf(t.definition, RefLines(t, o))
  }

  function RereadOf(def: string, refs: seq<string>): string
    requires refs == [] || |refs| == 2
  {
    if refs == [] then def
    else if def == "" then refs[1]
    else def + "\n\n" + refs[1]
  }

  /** The term read back. */
  function Reparsed(t: GlossaryTerm, o: Options): GlossaryTerm {
    t.(definition := Reread(t, o))
  }

  /** The blank lines in front of the read-back definition. */
  function LeadOf(def: string, refs: seq<string>): string {
    if def == "" && refs != [] then "\n\n\n" else "\n"
  }

  /** No block, or a blank line and one quiet line that starts and ends with `*`. */
  predicate RefBlock(refs: seq<string>) {
    refs == [] ||
    (|refs| == 2 && refs[0] == "" && Quiet(refs[1]) && IsStripped(refs[1]) && refs[1] != "" &&
     refs[1][0] == '*' && refs[1][|refs[1]| - 1] == '*')
  }

  lemma RefLinesBlock(t: GlossaryTerm, o: Options)
    requires LinkSafe(o)
    ensures RefBlock(RefLines(t, o))
  {
    if RefLines(t, o) != [] {
      var refs := o.references.value;
      var k := Lower(t.name);
      GetIsEntry(refs, k);
      assert (k, Get(refs, k).value) in refs;
      RefTextQuiet(Get(refs, k).value);
    }
  }

  lemma RefBlockPlain(refs: seq<string>)
    requires RefBlock(refs)
    ensures AllPlain(refs) && forall i :: 0 <= i < |refs| ==> '\n' !in refs[i]
  {
    forall i | 0 <= i < |refs|
      ensures PlainLine(refs[i]) && '\n' !in refs[i]
    {
      if i == 0 {
        BlankLine();
      }
    }
  }

  /** The read-back definition is in parsed form. */
  lemma RereadNormalized(def: string, refs: seq<string>)
    requires Normalized(def) && RefBlock(refs)
    ensures Normalized(RereadOf(def, refs))
  {
    if refs != [] && def != "" {
      var d := RereadOf(def, refs);
      var rt := refs[1];
      assert d[0] == def[0];
      assert d[|d| - 1] == rt[|rt| - 1];
      NoRuleSuffixByLast(d);
    } else if refs != [] {
      NoRuleSuffixByLast(refs[1]);
    }
  }

  /** The lines collected under a term, joined. */
  lemma JoinBody(def: string, refs: seq<string>)
    requires RefBlock(refs)
    ensures JoinLines(BodyOf(def, refs)) == LeadOf(def, refs) + RereadOf(def, refs) + "\n"
  {
    var sl := SplitLines(def);
    if refs == [] {
      assert BodyOf(def, refs) == [""] + sl + [""];
      JoinLinesAround(def, "");
    } else {
      var rt := refs[1];
      assert BodyOf(def, refs) == [""] + sl + ["", rt, ""];
      JoinLinesAround(def, rt);
      if def == "" {
        assert "\n" + "" + "\n\n" + rt + "\n" == "\n\n\n" + rt + "\n";
      } else {
        assert "\n" + def + "\n\n" + rt + "\n" == "\n" + (def + "\n\n" + rt) + "\n";
      }
    }
  }

  /** A term's lines parse back to its read-back definition ... */
  lemma BodyDefinition(def: string, refs: seq<string>)
    requires Normalized(def) && RefBlock(refs)
    ensures Definition(BodyOf(def, refs)) == RereadOf(def, refs)
  {
    JoinBody(def, refs);
    RereadNormalized(def, refs);
    NormalizePadded(LeadOf(def, refs), RereadOf(def, refs), "\n");
  }

  /** ... also when a rule and a blank line follow them. */
  lemma BodyTidy(def: string, refs: seq<string>)
    requires Normalized(def) && RefBlock(refs)
    ensures Definition(BodyOf(def, refs) + [RULE, ""]) == RereadOf(def, refs)
  {
    JoinBodyRule(def, refs);
    RereadNormalized(def, refs);
    TidyNormalize(LeadOf(def, refs), RereadOf(def, refs));
  }

  lemma JoinBodyRule(def: string, refs: seq<string>)
    requires RefBlock(refs)
    ensures JoinLines(BodyOf(def, refs) + [RULE, ""]) == LeadOf(def, refs) + RereadOf(def, refs) + "\n\n---\n"
    ensures RereadOf(def, refs) == "" ==> LeadOf(def, refs) == "\n"
  {
    var lead := LeadOf(def, refs);
    var d := RereadOf(def, refs);
    JoinBody(def, refs);
    JoinLinesTwoMore(BodyOf(def, refs), RULE, "");
    assert lead + d + "\n" + "\n" + "---" + "\n" + "" == lead + d + "\n\n---\n";
  }

  lemma TidyNormalize(lead: string, d: string)
    requires lead == "\n" || lead == "\n\n\n"
    requires Normalized(d) && (d == "" ==> lead == "\n")
    ensures Normalize(lead + d + "\n\n---\n") == d
  {
    if d == "" {
      NormalizeBeforeRule(d);
    } else {
      assert AllSpace(lead) by {
        assert forall i :: 0 <= i < |lead| ==> lead[i] == '\n';
      }
      NormalizeBeforeRulePadded(lead, d);
    }
  }

  /** A term's lines, split at newlines: its heading, then the lines
      collected under it. */
  lemma PhysTermOf(name: string, def: string, refs: seq<string>)
    requires GoodName(name) && RefBlock(refs)
    ensures Phys(["### " + name, "", def] + refs + [""]) == ["### " + name] + BodyOf(def, refs)
  {
    var tail := refs + [""];
    TermHeading(name);
    BlankLine();
    RefBlockPlain(refs);
    assert forall i :: 0 <= i < |tail| ==> '\n' !in tail[i];
    PhysPlain(tail);
    assert ([def] + tail)[1..] == tail;
    assert Phys([def] + tail) == SplitLines(def) + tail;
    PhysCons("", [def] + tail);
    ConcatAssoc(["### " + name, "", def], refs, [""]);
    ConsThree("### " + name, "", def, tail);
    PhysCons("### " + name, [""] + ([def] + tail));
    ConcatAssoc([""] + SplitLines(def), refs, [""]);
    ConcatAssoc([""], SplitLines(def), tail);
  }

  lemma BodyPlain(def: string, refs: seq<string>)
    requires AllPlain(SplitLines(def)) && RefBlock(refs)
    ensures AllPlain(BodyOf(def, refs))
  {
    BlankLine();
    assert AllPlain([""]);
    RefBlockPlain(refs);
    AllPlainAppend([""], SplitLines(def));
    AllPlainAppend([""] + SplitLines(def), refs);
    AllPlainAppend([""] + SplitLines(def) + refs, [""]);
  }

  /** A heading and the lines under it: the term being read is saved and
      the new one holds those lines. */
  lemma TermChunkOf(s: ParseState, name: string, def: string, refs: seq<string>)
    requires Ready(s) && GoodName(name) && AllPlain(SplitLines(def)) && RefBlock(refs)
    ensures Ready(Run(s, ["### " + name] + BodyOf(def, refs)))
    ensures Flat(Run(s, ["### " + name] + BodyOf(def, refs))) ==
            Flat(s.(terms := Flushed(s), term := name, body := BodyOf(def, refs)))
  {
    var b := BodyOf(def, refs);
    BodyPlain(def, refs);
    var s1 := TermHeadStep(s, name, b);
    RunBody(s1, b);
    assert s1.body + b == b;
  }

  /** The state after a term heading, named. */
  lemma TermHeadStep(s: ParseState, name: string, b: seq<string>) returns (s1: ParseState)
    requires Ready(s) && GoodName(name)
    ensures Run(s, ["### " + name] + b) == Run(s1, b)
    ensures Ready(s1) && s1.term == name && s1.body == []
    ensures Flat(s1) == Flat(s.(terms := Flushed(s), term := name, body := []))
  {
    var h := "### " + name;
    FoldAppend(Step, s, [h], b);
    FoldOne(Step, s, h);
    StepTermHeading(s, name);
    s1 := Step(s, h);
  }

  /** A rule and a blank line after the body do not change what is saved. */
  predicate Tidy(s: ParseState) {
    s.term == "" || Definition(s.body + [RULE, ""]) == Definition(s.body)
  }

  /** The term just read is saved as the read-back form of `t`. */
  lemma TermSaved(s: ParseState, t: GlossaryTerm, o: Options)
    requires Ready(s) && s.term == t.name && s.section == t.section && s.body == Body(t, o)
    requires Renderable(t) && LinkSafe(o)
    ensures Flushed(s) == Put(s.terms, Lower(t.name), Reparsed(t, o))
    ensures Tidy(s)
  {
    RefLinesBlock(t, o);
    BodyDefinition(t.definition, RefLines(t, o));
    BodyTidy(t.definition, RefLines(t, o));
  }

  /** One term's lines: the term read before is saved, and `t` is read. */
  lemma TermChunk(s: ParseState, t: GlossaryTerm, o: Options)
    requires Ready(s) && Renderable(t) && LinkSafe(o)
    ensures Ready(Run(s, Phys(TermLines(t, o))))
    ensures Flat(Run(s, Phys(TermLines(t, o)))) ==
            Flat(s.(terms := Flushed(s), term := t.name, body := Body(t, o)))
  {
    RefLinesBlock(t, o);
    PhysTermOf(t.name, t.definition, RefLines(t, o));
    TermChunkOf(s, t.name, t.definition, RefLines(t, o));
  }

  // Many terms.

  /** Saving the read-back form of one term. */
  function SaveReread(o: Options): (Dict<string, GlossaryTerm>, GlossaryTerm) -> Dict<string, GlossaryTerm> {
    (d: Dict<string, GlossaryTerm>, t: GlossaryTerm) => Put(d, Lower(t.name), Reparsed(t, o))
  }

  /** The dictionary after saving the read-back form of each of `ts` in turn. */
  function PutAll(d: Dict<string, GlossaryTerm>, ts: seq<GlossaryTerm>, o: Options): Dict<string, GlossaryTerm> {
    Fold(SaveReread(o), d, ts)
  }

  /** A key no term of `ts` has keeps its value. */
  lemma {:induction false} PutAllMiss(d: Dict<string, GlossaryTerm>, ts: seq<GlossaryTerm>, o: Options, k: string)
    requires forall x :: x in ts ==> Lower(x.name) != k
    ensures Get(PutAll(d, ts, o), k) == Get(d, k)
    decreases |ts|
  {
    if |ts| > 0 {
      var init := ts[..|ts| - 1];
      var last := ts[|ts| - 1];
      assert ts == init + [last];
      assert forall x :: x in init ==> x in ts;
      PutAllMiss(d, init, o, k);
      FoldSnoc(SaveReread(o), d, init, last);
      GetPut(PutAll(d, init, o), Lower(last.name), Reparsed(last, o), k);
    }
  }

  /** The only term of `ts` with a key gives that key its read-back form. */
  lemma {:induction false} PutAllHit(d: Dict<string, GlossaryTerm>, ts: seq<GlossaryTerm>, o: Options, x: GlossaryTerm)
    requires x in ts
    requires forall y :: y in ts && Lower(y.name) == Lower(x.name) ==> y == x
    ensures Get(PutAll(d, ts, o), Lower(x.name)) == Some(Reparsed(x, o))
    decreases |ts|
  {
    var init := ts[..|ts| - 1];
    var last := ts[|ts| - 1];
    assert ts == init + [last];
    FoldSnoc(SaveReread(o), d, init, last);
    GetPut(PutAll(d, init, o), Lower(last.name), Reparsed(last, o), Lower(x.name));
    if Lower(last.name) != Lower(x.name) {
      assert x in init;
      PutAllHit(d, init, o, x);
    }
  }

  /** After a section's terms `ts`, read from `s`: each is saved in its
      read-back form, in order, and the last stays pending in a state that
      a rule can follow. */
  predicate TermsDone(s: ParseState, r: ParseState, ts: seq<GlossaryTerm>, o: Options) {
    Ready(r) && Tidy(r) && r.section == s.section && Flushed(r) == PutAll(Flushed(s), ts, o)
  }

  /** Terms of the section being read, each in a form the parser reads back. */
  predicate TermsFit(s: ParseState, ts: seq<GlossaryTerm>) {
    forall i :: 0 <= i < |ts| ==> ts[i].section == s.section && Renderable(ts[i])
  }

  /** One more term of the section. */
  lemma TermsChunkStep(s: ParseState, r1: ParseState, ts: seq<GlossaryTerm>, o: Options)
    requires |ts| > 0 && TermsDone(s, r1, ts[..|ts| - 1], o) && TermsFit(s, ts) && LinkSafe(o)
    ensures TermsDone(s, Run(r1, Phys(TermLines(ts[|ts| - 1], o))), ts, o)
  {
    var init := ts[..|ts| - 1];
    var last := ts[|ts| - 1];
    TermChunk(r1, last, o);
    var r := Run(r1, Phys(TermLines(last, o)));
    TermSaved(r, last, o);
  }

  /** The state after reading the lines of each of `ts` in turn. */
  function ReadTerms(s: ParseState, ts: seq<GlossaryTerm>, o: Options): ParseState {
    if |ts| == 0 then s
    else Run(ReadTerms(s, ts[..|ts| - 1], o), Phys(TermLines(ts[|ts| - 1], o)))
  }

  /** Reading a section's lines is reading its terms one after another. */
  lemma {:induction false} ReadTermsRun(s: ParseState, ts: seq<GlossaryTerm>, o: Options)
    ensures Run(s, Phys(TermsBlock(ts, o))) == ReadTerms(s, ts, o)
    decreases |ts|
  {
    if |ts| == 0 {
      assert Phys(TermsBlock(ts, o)) == [];
    } else {
      var init := ts[..|ts| - 1];
      ReadTermsRun(s, init, o);
      PhysAppend(TermsBlock(init, o), TermLines(ts[|ts| - 1], o));
      FoldAppend(Step, s, Phys(TermsBlock(init, o)), Phys(TermLines(ts[|ts| - 1], o)));
    }
  }

  lemma {:induction false} ReadTermsDone(s: ParseState, ts: seq<GlossaryTerm>, o: Options)
    requires Ready(s) && Tidy(s) && LinkSafe(o) && TermsFit(s, ts)
    ensures TermsDone(s, ReadTerms(s, ts, o), ts, o)
    decreases |ts|
  {
    if |ts| > 0 {
      var init := ts[..|ts| - 1];
      assert TermsFit(s, init);
      ReadTermsDone(s, init, o);
      TermsChunkStep(s, ReadTerms(s, init, o), ts, o);
    }
  }

  /** A section's terms, read from `s`. */
  lemma TermsChunk(s: ParseState, ts: seq<GlossaryTerm>, o: Options)
    requires Ready(s) && Tidy(s) && LinkSafe(o) && TermsFit(s, ts)
    ensures TermsDone(s, Run(s, Phys(TermsBlock(ts, o))), ts, o)
  {
    ReadTermsRun(s, ts, o);
    ReadTermsDone(s, ts, o);
  }

  // Letter sections.

  /** After reading from a state whose saved terms are `d`: the read-back
      forms of `ts` are saved in order on top of `d`, and whatever is
      pending may be followed by a rule. */
  predicate Done(d: Dict<string, GlossaryTerm>, r: ParseState, ts: seq<GlossaryTerm>, o: Options) {
    Ready(r) && Tidy(r) && Flushed(r) == PutAll(d, ts, o)
  }

  /** A group the parser reads back under its letter. */
  predicate GoodGroup(sg: Sections, l: string) {
    IsLetter(l) && forall x :: x in Members(sg, l) ==> x.section == l && Renderable(x)
  }

  /** A letter heading and the blank line after it. */
  lemma LetterHead(s: ParseState, l: string)
    requires Ready(s) && IsLetter(l)
    ensures Ready(Run(s, ["## " + l, ""])) && Tidy(Run(s, ["## " + l, ""]))
    ensures Run(s, ["## " + l, ""]).section == l && Flushed(Run(s, ["## " + l, ""])) == Flushed(s)
  {
    var s1 := LetterHeadStep(s, l);
    BlankLine();
    StepPlain(s1, "");
  }

  /** The state after a letter heading, named. */
  lemma LetterHeadStep(s: ParseState, l: string) returns (s1: ParseState)
    requires Ready(s) && IsLetter(l)
    ensures Run(s, ["## " + l, ""]) == Step(s1, "")
    ensures Ready(s1) && Flat(s1) == Flat(s.(terms := Flushed(s), section := l, term := "", body := []))
  {
    var h := "## " + l;
    FoldSnoc(Step, s, [h], "");
    FoldOne(Step, s, h);
    assert [h] + [""] == [h, ""];
    StepLetter(s, l);
    s1 := Step(s, h);
  }

  /** A letter section's lines, split at newlines. */
  lemma PhysLetter(sg: Sections, l: string, o: Options)
    requires IsLetter(l)
    ensures Phys(LetterBlock(sg, l, o)) == ["## " + l, ""] + Phys(TermsBlock(Members(sg, l), o))
  {
    var tb := TermsBlock(Members(sg, l), o);
    LetterLine(l);
    BlankLine();
    PhysCons("", tb);
    ConcatAssoc(["## " + l], [""], tb);
    assert ["## " + l, ""] == ["## " + l] + [""];
    PhysCons("## " + l, [""] + tb);
  }

  /** One letter section: its terms are saved on top of what was saved before. */
  lemma LetterChunk(s: ParseState, sg: Sections, l: string, o: Options)
    requires Ready(s) && Tidy(s) && LinkSafe(o) && GoodGroup(sg, l)
    ensures Done(Flushed(s), Run(s, Phys(LetterBlock(sg, l, o))), Members(sg, l), o)
  {
    var ts := Members(sg, l);
    PhysLetter(sg, l, o);
    FoldAppend(Step, s, ["## " + l, ""], Phys(TermsBlock(ts, o)));
    LetterHead(s, l);
    var s2 := Run(s, ["## " + l, ""]);
    GroupFit(s2, sg, l);
    TermsChunk(s2, ts, o);
  }

  lemma GroupFit(s: ParseState, sg: Sections, l: string)
    requires GoodGroup(sg, l) && s.section == l
    ensures TermsFit(s, Members(sg, l))
  {
    var ts := Members(sg, l);
    forall i | 0 <= i < |ts|
      ensures ts[i].section == s.section && Renderable(ts[i])
    {
      assert ts[i] in ts;
    }
  }

  /** The state after reading the sections of each of `letters` in turn. */
  function ReadLetters(s: ParseState, sg: Sections, letters: seq<string>, o: Options): ParseState {
    if |letters| == 0 then s
    else Run(ReadLetters(s, sg, letters[..|letters| - 1], o), Phys(LetterBlock(sg, letters[|letters| - 1], o)))
  }

  lemma {:induction false} ReadLettersRun(s: ParseState, sg: Sections, letters: seq<string>, o: Options)
    ensures Run(s, Phys(LettersBlock(sg, letters, o))) == ReadLetters(s, sg, letters, o)
    decreases |letters|
  {
    if |letters| == 0 {
      assert Phys(LettersBlock(sg, letters, o)) == [];
    } else {
      var init := letters[..|letters| - 1];
      var last := letters[|letters| - 1];
      ReadLettersRun(s, sg, init, o);
      PhysAppend(LettersBlock(sg, init, o), LetterBlock(sg, last, o));
      FoldAppend(Step, s, Phys(LettersBlock(sg, init, o)), Phys(LetterBlock(sg, last, o)));
    }
  }

  lemma LettersChunkStep(s: ParseState, r1: ParseState, sg: Sections, letters: seq<string>, o: Options)
    requires |letters| > 0 && LinkSafe(o) && GoodGroup(sg, letters[|letters| - 1])
    requires Done(Flushed(s), r1, Emitted(sg, letters[..|letters| - 1]), o)
    ensures Done(Flushed(s), Run(r1, Phys(LetterBlock(sg, letters[|letters| - 1], o))), Emitted(sg, letters), o)
  {
    var init := letters[..|letters| - 1];
    var last := letters[|letters| - 1];
    LetterChunk(r1, sg, last, o);
    FoldAppend(SaveReread(o), Flushed(s), Emitted(sg, init), Members(sg, last));
  }

  lemma {:induction false} ReadLettersDone(s: ParseState, sg: Sections, letters: seq<string>, o: Options)
    requires Ready(s) && Tidy(s) && LinkSafe(o)
    requires forall i :: 0 <= i < |letters| ==> GoodGroup(sg, letters[i])
    ensures Done(Flushed(s), ReadLetters(s, sg, letters, o), Emitted(sg, letters), o)
    decreases |letters|
  {
    if |letters| > 0 {
      var init := letters[..|letters| - 1];
      ReadLettersDone(s, sg, init, o);
      LettersChunkStep(s, ReadLetters(s, sg, init, o), sg, letters, o);
    }
  }

  /** All letter sections: every emitted term is saved in its read-back form, in order. */
  lemma LettersChunk(s: ParseState, sg: Sections, letters: seq<string>, o: Options)
    requires Ready(s) && Tidy(s) && LinkSafe(o)
    requires forall i :: 0 <= i < |letters| ==> GoodGroup(sg, letters[i])
    ensures Done(Flushed(s), Run(s, Phys(LettersBlock(sg, letters, o))), Emitted(sg, letters), o)
  {
    ReadLettersRun(s, sg, letters, o);
    ReadLettersDone(s, sg, letters, o);
  }

  // The page head: front matter and introduction.

  lemma PhysHead(fm: string, intro: seq<string>)
    requires forall i :: 0 <= i < |intro| ==> '\n' !in intro[i]
    ensures Phys([fm] + intro) == SplitLines(fm) + intro
  {
    PhysPlain(intro);
    assert ([fm] + intro)[1..] == intro;
  }

  /** Past the front matter, with nothing read. */
  predicate Started(s: ParseState) {
    Ready(s) && s.term == "" && s.terms == []
  }

  /** A front matter block and lines that are no headings leave the parser
      past the front matter, with nothing read. */
  lemma RunHead(fields: seq<string>, intro: seq<string>)
    requires forall i :: 0 <= i < |fields| ==> !IsRule(fields[i])
    requires AllPlain(intro)
    ensures Started(Run(START, [RULE] + fields + [RULE] + intro))
  {
    RuleLine();
    FrontMatterSkipped(RULE, fields, RULE);
    RunAfterFront([RULE] + fields + [RULE], intro);
  }

  lemma RunAfterFront(front: seq<string>, intro: seq<string>)
    requires Run(START, front) == START.(frontCount := 2) && AllPlain(intro)
    ensures Started(Run(START, front + intro))
  {
    FoldAppend(Step, START, front, intro);
    RunIdle(START.(frontCount := 2), intro);
  }

  /** After the head the parser is past the front matter, with nothing read. */
  lemma HeadRun()
    ensures Started(Run(START, Phys(HEAD_LINES)))
  {
    FrontLines();
    SplitJoin(FRONT_LINES, '\n');
    IntroLines();
    PhysHead(FRONTMATTER, INTRO_LINES);
    FrontFields();
    RunHead(FRONT_FIELDS, INTRO_LINES);
  }

  // The reserved sections and the footer.

  /** Reserved sections the parser reads back as such: the first line is a
      reserved `##` heading and no line is a letter heading. */
  predicate SuppReady(supp: string) {
    Reserved(SplitLines(supp)[0]) &&
    forall i :: 0 <= i < |SplitLines(supp)| ==> !LetterSection(SplitLines(supp)[i])
  }

  /** A rule and a blank line after the last section keep what is saved. */
  lemma RuleAfterTerms(r: ParseState)
    requires Ready(r) && Tidy(r)
    ensures Ready(Run(r, [RULE, ""])) && Flushed(Run(r, [RULE, ""])) == Flushed(r)
  {
    RuleLine();
    BlankLine();
    assert AllPlain([RULE, ""]);
    if r.term == "" {
      RunIdle(r, [RULE, ""]);
    } else {
      RunBody(r, [RULE, ""]);
    }
  }

  /** A reserved heading saves the term being read and opens a reserved section. */
  lemma StepReserved(s: ParseState, line: string)
    requires Ready(s) && Reserved(line)
    ensures Step(s, line).inNonTerm && Step(s, line).term == "" && Step(s, line).terms == Flushed(s)
  {
    ReservedFacts(line);
  }

  lemma ReservedFacts(line: string)
    requires Reserved(line)
    ensures !IsRule(line) && LetterHeader(line).None?
  {
    ReservedNotLetter(line);
    NoLetterHeader(line);
    HeadingNotRule(line);
  }

  lemma HeadingNotRule(line: string)
    requires H2Name(line).Some?
    ensures !IsRule(line)
  {
    var st := Strip(line);
    assert st[..3][0] == '#';
    assert st[0] != "---"[0];
  }

  /** No line after the reserved heading is a letter heading. */
  lemma NoLetterAfter(rest: seq<string>, n: nat)
    requires forall i :: 0 <= i < |rest| ==> !LetterSection(rest[i])
    ensures forall i :: 0 <= i < |rest + ([""] + FooterLines(n))| ==>
      LetterHeader((rest + ([""] + FooterLines(n)))[i]).None?
  {
    var f := FooterLines(n);
    var all := rest + ([""] + f);
    FooterQuiet(n);
    BlankLine();
    forall i | 0 <= i < |all|
      ensures LetterHeader(all[i]).None?
    {
      if i < |rest| {
        NoLetterHeader(rest[i]);
      } else if i > |rest| {
        assert all[i] == f[i - |rest| - 1];
      }
    }
  }

  /** Lines without newlines, a text and more lines without newlines, split at newlines. */
  lemma PhysAround(p: seq<string>, x: string, tail: seq<string>)
    requires forall i :: 0 <= i < |p| ==> '\n' !in p[i]
    requires forall i :: 0 <= i < |tail| ==> '\n' !in tail[i]
    ensures Phys(p + ([x] + tail)) == p + (SplitLines(x) + tail)
  {
    PhysAppend(p, [x] + tail);
    PhysPlain(p);
    PhysPlain(tail);
    assert ([x] + tail)[1..] == tail;
  }

  /** The footer and the blank line before it hold no newline. */
  lemma FooterTail(n: nat)
    ensures forall i :: 0 <= i < |[""] + FooterLines(n)| ==> '\n' !in ([""] + FooterLines(n))[i]
  {
    var f := FooterLines(n);
    FooterQuiet(n);
    forall i | 0 <= i < |[""] + f|
      ensures '\n' !in ([""] + f)[i]
    {
      if i > 0 {
        assert ([""] + f)[i] == f[i - 1];
      }
    }
  }

  /** The reserved sections and the footer, split at newlines: a rule, a
      blank line, the first line of the reserved text, and the rest. */
  lemma PhysTail(supp: string, n: nat)
    requires supp != ""
    ensures Phys(SuppLines(supp) + FooterLines(n)) ==
            [RULE, ""] + ([SplitLines(supp)[0]] + (SplitLines(supp)[1..] + ([""] + FooterLines(n))))
  {
    var sl := SplitLines(supp);
    var tail := [""] + FooterLines(n);
    ConsFour(RULE, "", supp, "", FooterLines(n));
    FooterTail(n);
    RuleLine();
    PhysAround([RULE, ""], supp, tail);
    HeadThenRest(sl, tail);
  }

  /** A reserved heading and lines that are no letter headings keep what is saved. */
  lemma ReservedRun(s: ParseState, first: string, rest: seq<string>)
    requires Ready(s) && Reserved(first)
    requires forall i :: 0 <= i < |rest| ==> LetterHeader(rest[i]).None?
    ensures Flushed(Run(s, [first] + rest)) == Flushed(s)
  {
    FoldAppend(Step, s, [first], rest);
    FoldOne(Step, s, first);
    StepReserved(s, first);
    RunNonTerm(Step(s, first), rest);
  }

  /** After the last section, the reserved sections and the footer change
      nothing that is saved. */
  lemma TailRun(r: ParseState, supp: string, n: nat)
    requires Ready(r) && Tidy(r) && SuppReady(supp)
    ensures Flushed(Run(r, Phys(SuppLines(supp) + FooterLines(n)))) == Flushed(r)
  {
    var sl := SplitLines(supp);
    var rest := sl[1..] + ([""] + FooterLines(n));
    assert supp != "";
    PhysTail(supp, n);
    FoldAppend(Step, r, [RULE, ""], [sl[0]] + rest);
    RuleAfterTerms(r);
    SuppRest(sl);
    NoLetterAfter(sl[1..], n);
    ReservedRun(Run(r, [RULE, ""]), sl[0], rest);
  }

  lemma SuppRest(sl: seq<string>)
    requires |sl| >= 1 && forall i :: 0 <= i < |sl| ==> !LetterSection(sl[i])
    ensures forall i :: 0 <= i < |sl[1..]| ==> !LetterSection(sl[1..][i])
  {
    forall i | 0 <= i < |sl[1..]|
      ensures !LetterSection(sl[1..][i])
    {
      assert sl[1..][i] == sl[i + 1];
    }
  }

  // The whole page.

  /** Terms the renderer writes in a form the parser reads back: keyed by
      their lowercase names, each renderable. */
  predicate RenderableTerms(terms: Dict<string, GlossaryTerm>) {
    UniqueKeys(terms) &&
    forall i :: 0 <= i < |terms| ==> terms[i].0 == Lower(terms[i].1.name) && Renderable(terms[i].1)
  }

  lemma ValueGood(terms: Dict<string, GlossaryTerm>, y: GlossaryTerm)
    requires RenderableTerms(terms) && y in Values(terms)
    ensures Renderable(y)
  {
    var j :| 0 <= j < |terms| && Values(terms)[j] == y;
  }

  /** An emitted group is read back under its letter. */
  lemma GroupGood(terms: Dict<string, GlossaryTerm>, l: string)
    requires RenderableTerms(terms) && l in Letters(terms)
    ensures GoodGroup(SortedGroups(terms), l)
  {
    LettersPresent(terms, l);
    SectionContents(terms, l);
    var x := InSection(terms, l)[0];
    InSectionMeaning(terms, l, x);
    ValueGood(terms, x);
    forall y | y in Members(SortedGroups(terms), l)
      ensures y.section == l && Renderable(y)
    {
      ValueGood(terms, y);
    }
  }

  lemma GroupsGood(terms: Dict<string, GlossaryTerm>)
    requires RenderableTerms(terms)
    ensures forall i :: 0 <= i < |Letters(terms)| ==> GoodGroup(SortedGroups(terms), Letters(terms)[i])
  {
    forall i | 0 <= i < |Letters(terms)|
      ensures GoodGroup(SortedGroups(terms), Letters(terms)[i])
    {
      GroupGood(terms, Letters(terms)[i]);
    }
  }

  /** The page, split at newlines: head, letter sections, reserved sections and footer. */
  lemma PageLines(terms: Dict<string, GlossaryTerm>, references: Option<References>, supp: string, crossRef: bool)
    ensures SplitLines(Render(terms, references, supp, crossRef)) ==
            Phys(HEAD_LINES) +
            (Phys(LettersBlock(SortedGroups(terms), Letters(terms), Options(references, crossRef))) +
             Phys(SuppLines(supp) + FooterLines(|terms|)))
  {
    SplitJoinFour(HEAD_LINES, LettersBlock(SortedGroups(terms), Letters(terms), Options(references, crossRef)),
                  SuppLines(supp), FooterLines(|terms|));
  }

  lemma SplitJoinFour(a: seq<string>, b: seq<string>, c: seq<string>, d: seq<string>)
    requires |a| >= 1
    ensures SplitLines(JoinLines(a + b + c + d)) == Phys(a) + (Phys(b) + Phys(c + d))
  {
    assert a + b + c + d == a + (b + (c + d));
    SplitJoinPhys(a + b + c + d);
    PhysAppend(a, b + (c + d));
    PhysAppend(b, c + d);
  }

  /** Reading the head, the letter sections, the reserved sections and the
      footer saves the read-back forms of the emitted terms, in order. */
  lemma RunPage(sg: Sections, letters: seq<string>, o: Options, supp: string, n: nat)
    requires LinkSafe(o) && SuppReady(supp)
    requires forall i :: 0 <= i < |letters| ==> GoodGroup(sg, letters[i])
    ensures Flushed(Run(START, Phys(HEAD_LINES) + (Phys(LettersBlock(sg, letters, o)) + Phys(SuppLines(supp) + FooterLines(n))))) ==
            PutAll([], Emitted(sg, letters), o)
  {
    var lb := Phys(LettersBlock(sg, letters, o));
    var tl := Phys(SuppLines(supp) + FooterLines(n));
    FoldAppend(Step, START, Phys(HEAD_LINES), lb + tl);
    HeadRun();
    var s0 := Run(START, Phys(HEAD_LINES));
    FoldAppend(Step, s0, lb, tl);
    LettersChunk(s0, sg, letters, o);
    TailRun(Run(s0, lb), supp, n);
  }

  /** The page reads back as the read-back forms of the emitted terms, saved in order. */
  lemma PageRun(terms: Dict<string, GlossaryTerm>, references: Option<References>, supp: string, crossRef: bool)
    requires RenderableTerms(terms) && LinkSafe(Options(references, crossRef)) && SuppReady(supp)
    ensures ParseGlossary(Some(Render(terms, references, supp, crossRef))) ==
            PutAll([], Emitted(SortedGroups(terms), Letters(terms)), Options(references, crossRef))
  {
    PageLines(terms, references, supp, crossRef);
    GroupsGood(terms);
    RunPage(SortedGroups(terms), Letters(terms), Options(references, crossRef), supp, |terms|);
  }

  /** Saving the read-back forms of the values of `terms`, in any order
      that lists each of them: every key gets its own term's read-back form. */
  lemma SavedValues(terms: Dict<string, GlossaryTerm>, es: seq<GlossaryTerm>, o: Options, k: string)
    requires RenderableTerms(terms)
    requires forall x :: x in es <==> x in Values(terms)
    ensures Get(terms, k).None? ==> Get(PutAll([], es, o), k).None?
    ensures Get(terms, k).Some? ==> Get(PutAll([], es, o), k) == Some(Reparsed(Get(terms, k).value, o))
  {
    if Get(terms, k).Some? {
      SavedHit(terms, es, o, k);
    } else {
      SavedMiss(terms, es, o, k);
    }
  }

  lemma SavedHit(terms: Dict<string, GlossaryTerm>, es: seq<GlossaryTerm>, o: Options, k: string)
    requires RenderableTerms(terms) && Get(terms, k).Some?
    requires forall x :: x in es <==> x in Values(terms)
    ensures Get(PutAll([], es, o), k) == Some(Reparsed(Get(terms, k).value, o))
  {
    var v := Get(terms, k).value;
    GetIsEntry(terms, k);
    var i :| 0 <= i < |terms| && terms[i] == (k, v);
    assert Values(terms)[i] == v;
    forall y | y in es && Lower(y.name) == Lower(v.name)
      ensures y == v
    {
      OwnValue(terms, i, y);
    }
    PutAllHit([], es, o, v);
  }

  /** The only value of `terms` named like the `i`-th entry's key is that entry's. */
  lemma OwnValue(terms: Dict<string, GlossaryTerm>, i: nat, y: GlossaryTerm)
    requires RenderableTerms(terms) && i < |terms| && y in Values(terms) && Lower(y.name) == terms[i].0
    ensures y == terms[i].1
  {
    var j :| 0 <= j < |terms| && Values(terms)[j] == y;
    assert terms[j].0 == terms[i].0;
  }

  lemma SavedMiss(terms: Dict<string, GlossaryTerm>, es: seq<GlossaryTerm>, o: Options, k: string)
    requires RenderableTerms(terms) && Get(terms, k).None?
    requires forall x :: x in es <==> x in Values(terms)
    ensures Get(PutAll([], es, o), k).None?
  {
    forall y | y in es
      ensures Lower(y.name) != k
    {
      var j :| 0 <= j < |terms| && Values(terms)[j] == y;
      assert Keys(terms)[j] == Lower(y.name);
    }
    PutAllMiss([], es, o, k);
  }

  /** The page written for `terms`, with reserved sections it can tell
      apart, is read back with every key of `terms` holding its own term,
      whose definition gains the "Referenced in" line when one is shown,
      and with no other key. */
  lemma TermsRoundTrip(terms: Dict<string, GlossaryTerm>, references: Option<References>, supp: string,
                       crossRef: bool, k: string)
    requires RenderableTerms(terms) && LinkSafe(Options(references, crossRef)) && SuppReady(supp)
    ensures Get(terms, k).None? ==> Get(ParseGlossary(Some(Render(terms, references, supp, crossRef))), k).None?
    ensures Get(terms, k).Some? ==>
      Get(ParseGlossary(Some(Render(terms, references, supp, crossRef))), k) ==
      Some(Reparsed(Get(terms, k).value, Options(references, crossRef)))
  {
    var es := Emitted(SortedGroups(terms), Letters(terms));
    PageRun(terms, references, supp, crossRef);
    EveryTermOnce(terms);
    forall x
      ensures x in es <==> x in Values(terms)
    {
      assert x in es <==> x in multiset(es);
      assert x in Values(terms) <==> x in multiset(Values(terms));
    }
    SavedValues(terms, es, Options(references, crossRef), k);
  }

  /** With cross references off, the page reads back exactly as `terms`, key by key. */
  lemma RoundTripPlain(terms: Dict<string, GlossaryTerm>, references: Option<References>, supp: string, k: string)
    requires RenderableTerms(terms) && LinkSafe(Options(references, false)) && SuppReady(supp)
    ensures Get(ParseGlossary(Some(Render(terms, references, supp, false))), k) == Get(terms, k)
  {
    TermsRoundTrip(terms, references, supp, false, k);
  }
}
