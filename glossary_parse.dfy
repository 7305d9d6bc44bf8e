/** The two readers of an existing glossary file in
    `scripts/generate_glossary.py`: `parse_existing_glossary`, which
    collects the defined terms, and `parse_supplementary_sections`, which
    keeps the reserved sections for the next rendering. Each walks the
    lines of the file once with a few flags; each loop is proved equal to
    a fold of one step function, and the properties are proved about the
    step. A file that does not exist is `None`. */
module GlossaryParse {
  import opened Wrappers
  import opened Text
  import opened Dict
  import opened Glossary
  import opened Folds

  // Terms: `parse_existing_glossary`.

  /** The loop variables of `parse_existing_glossary`. */
  datatype ParseState = ParseState(
    section: string,
    term: string,
    body: seq<string>,
    inFront: bool,
    frontCount: nat,
    inNonTerm: bool,
    terms: Dict<string, GlossaryTerm>)

  const START := ParseState("", "", [], false, 0, false, [])

  /** `terms[current_term.lower()] = GlossaryTerm(...)` for the term being read. */
  function Saved(s: ParseState): Dict<string, GlossaryTerm> {
    Put(s.terms, Lower(s.term), GlossaryTerm(s.term, Definition(s.body), s.section))
  }

  /** What a `##` heading or the end of the file saves: the term being
      read, unless it lies in a reserved section. */
  function Flushed(s: ParseState): Dict<string, GlossaryTerm> {
    if s.term != "" && !s.inNonTerm then Saved(s) else s.terms
  }

  /** The front matter counter after reading `line`. */
  function Counted(s: ParseState, line: string): nat {
    if IsRule(line) then s.frontCount + 1 else s.frontCount
  }

  /** The line opens or closes the front matter, or lies inside it. */
  predicate Skipped(s: ParseState, line: string) {
    (IsRule(line) && s.frontCount < 2) || s.inFront
  }

  /** A line after the front matter: headings and definition lines. */
  function Content(s: ParseState, line: string): ParseState {
    if LetterHeader(line).Some? then
      s.(terms := Flushed(s), section := [LetterHeader(line).value], term := "", body := [], inNonTerm := false)
    else if H2Name(line).Some? then
      s.(terms := Flushed(s), term := "", body := [],
         inNonTerm := s.inNonTerm || Strip(H2Name(line).value) in NON_TERM_SECTIONS)
    else if s.inNonTerm then s
    else if H3Name(line).Some? then
      s.(terms := if s.term != "" then Saved(s) else s.terms, term := Strip(H3Name(line).value), body := [])
    else if s.term != "" then s.(body := s.body + [line])
    else s
  }

  /** One pass of the loop over the lines. */
  function Step(s: ParseState, line: string): ParseState {
    var s' := s.(frontCount := Counted(s, line));
    if IsRule(line) && s.frontCount < 2 then s'.(inFront := !s.inFront)
    else if s.inFront then s'
    else Content(s', line)
  }

  /** The loop over `lines`, from state `s`. */
  function Run(s: ParseState, lines: seq<string>): ParseState {
    Fold(Step, s, lines)
  }

  /** The shape of every parsed entry: keyed by its lowercase name, a
      stripped non-empty name, a letter section or none, and a cleaned
      definition. */
  predicate GoodEntry(e: (string, GlossaryTerm)) {
    e.0 == Lower(e.1.name) && e.1.name != "" && IsStripped(e.1.name) &&
    (e.1.section == "" || IsLetter(e.1.section)) && Normalized(e.1.definition)
  }

  predicate GoodTerms(d: Dict<string, GlossaryTerm>) {
    UniqueKeys(d) && forall e :: e in d ==> GoodEntry(e)
  }

  /** What the loop keeps true. */
  predicate StateInv(s: ParseState) {
    GoodTerms(s.terms) && IsStripped(s.term) &&
    (s.section == "" || IsLetter(s.section)) && (s.inNonTerm ==> s.term == "")
  }

  /** `parse_existing_glossary`: the terms of the file, or none if it is missing. */
  function ParseGlossary(content: Option<string>): (r: Dict<string, GlossaryTerm>)
    ensures GoodTerms(r)
  {
    if content.None? then []
    else
      var s := Run(START, SplitLines(content.value));
      RunInv(START, SplitLines(content.value));
      FlushedInv(s);
      Flushed(s)
  }

  method ParseExistingGlossary(content: Option<string>) returns (terms: Dict<string, GlossaryTerm>)
    ensures terms == ParseGlossary(content)
  {
    terms := [];
    if content.None? {
      return;
    }
    var lines := SplitLines(content.value);
    var section := "";
    var term := "";
    var body: seq<string> := [];
    var inFront := false;
    var frontCount := 0;
    var inNonTerm := false;
    var i := 0;
    while i < |lines|
      invariant 0 <= i <= |lines|
      invariant ParseState(section, term, body, inFront, frontCount, inNonTerm, terms) == Run(START, lines[..i])
    {
      FoldPrefix(Step, START, lines, i);
      section, term, body, inFront, frontCount, inNonTerm, terms :=
        ReadLine(section, term, body, inFront, frontCount, inNonTerm, terms, lines[i]);
      i := i + 1;
    }
    FoldWhole(Step, START, lines);
    if term != "" && !inNonTerm {
      terms := Put(terms, Lower(term), GlossaryTerm(term, Definition(body), section));
    }
  }

  /** One pass of the loop body: the front matter check, then the rest. */
  method ReadLine(section: string, term: string, body: seq<string>, inFront: bool, frontCount: nat,
                  inNonTerm: bool, terms: Dict<string, GlossaryTerm>, line: string)
    returns (section': string, term': string, body': seq<string>, inFront': bool, frontCount': nat,
             inNonTerm': bool, terms': Dict<string, GlossaryTerm>)
    ensures ParseState(section', term', body', inFront', frontCount', inNonTerm', terms') ==
            Step(ParseState(section, term, body, inFront, frontCount, inNonTerm, terms), line)
  {
    ghost var before := ParseState(section, term, body, inFront, frontCount, inNonTerm, terms);
    section', term', body', inFront', frontCount', inNonTerm', terms' :=
      section, term, body, inFront, frontCount, inNonTerm, terms;
    if IsRule(line) {
      frontCount' := frontCount + 1;
      if frontCount' <= 2 {
        inFront' := !inFront;
        return;
      }
    }
    if inFront {
      return;
    }
    StepContent(before, line);
    ContentFrame(ParseState(section, term, body, false, 2, inNonTerm, terms), line, false, frontCount');
    assert before.(frontCount := frontCount') == ParseState(section, term, body, false, 2, inNonTerm, terms).(inFront := false, frontCount := frontCount');
    section', term', body', inNonTerm', terms' := ReadContentLine(section, term, body, inNonTerm, terms, line);
  }

  /** The part of the loop body after the front matter check. */
  method ReadContentLine(section: string, term: string, body: seq<string>, inNonTerm: bool,
                         terms: Dict<string, GlossaryTerm>, line: string)
    returns (section': string, term': string, body': seq<string>, inNonTerm': bool, terms': Dict<string, GlossaryTerm>)
    ensures ParseState(section', term', body', false, 2, inNonTerm', terms') ==
            Content(ParseState(section, term, body, false, 2, inNonTerm, terms), line)
  {
    section', term', body', inNonTerm', terms' := section, term, body, inNonTerm, terms;
    var letter := LetterHeader(line);
    if letter.Some? {
      if term != "" && !inNonTerm {
        terms' := Put(terms, Lower(term), GlossaryTerm(term, Definition(body), section));
      }
      section' := [letter.value];
      term' := "";
      body' := [];
      inNonTerm' := false;
      return;
    }
    var h2 := H2Name(line);
    if h2.Some? {
      if term != "" && !inNonTerm {
        terms' := Put(terms, Lower(term), GlossaryTerm(term, Definition(body), section));
      }
      if Strip(h2.value) in NON_TERM_SECTIONS {
        inNonTerm' := true;
      }
      term' := "";
      body' := [];
      return;
    }
    if inNonTerm {
      return;
    }
    var h3 := H3Name(line);
    if h3.Some? {
      if term != "" {
        terms' := Put(terms, Lower(term), GlossaryTerm(term, Definition(body), section));
      }
      term' := Strip(h3.value);
      body' := [];
      return;
    }
    if term != "" {
      body' := body + [line];
    }
  }

  lemma StepContent(s: ParseState, line: string)
    requires !Skipped(s, line)
    ensures Step(s, line) == Content(s.(frontCount := Counted(s, line)), line)
  {
  }

  /** The handling of a line after the front matter ignores the front matter flags. */
  lemma ContentFrame(s: ParseState, line: string, inFront: bool, frontCount: nat)
    ensures Content(s.(inFront := inFront, frontCount := frontCount), line) ==
            Content(s, line).(inFront := inFront, frontCount := frontCount)
  {
    var t := s.(inFront := inFront, frontCount := frontCount);
    assert Flushed(t) == Flushed(s) && Saved(t) == Saved(s);
    if LetterHeader(line).Some? {
    } else if H2Name(line).Some? {
    } else if s.inNonTerm {
    } else if H3Name(line).Some? {
    } else {
    }
  }

  // The saved entries keep their shape.

  lemma SavedInv(s: ParseState)
    requires StateInv(s) && s.term != ""
    ensures GoodTerms(Saved(s))
  {
    var e := (Lower(s.term), GlossaryTerm(s.term, Definition(s.body), s.section));
    NormalizeNormalized(JoinLines(s.body));
    assert GoodEntry(e);
    PutUnique(s.terms, e.0, e.1);
    PutEntries(s.terms, e.0, e.1);
  }

  lemma FlushedInv(s: ParseState)
    requires StateInv(s)
    ensures GoodTerms(Flushed(s))
  {
    if s.term != "" && !s.inNonTerm {
      SavedInv(s);
    }
  }

  lemma StepInv(s: ParseState, line: string)
    requires StateInv(s)
    ensures StateInv(Step(s, line))
  {
    var s' := s.(frontCount := Counted(s, line));
    if !Skipped(s, line) {
      FlushedInv(s');
      if LetterHeader(line).Some? {
        assert IsLetter([LetterHeader(line).value]);
      } else if H2Name(line).None? && !s.inNonTerm && H3Name(line).Some? {
        StripProperties(H3Name(line).value);
        if s.term != "" {
          SavedInv(s');
        }
      }
    }
  }

  lemma {:induction false} RunInv(s: ParseState, lines: seq<string>)
    requires StateInv(s)
    ensures StateInv(Run(s, lines))
    decreases |lines|
  {
    if |lines| > 0 {
      RunInv(s, lines[..|lines| - 1]);
      StepInv(Run(s, lines[..|lines| - 1]), lines[|lines| - 1]);
    }
  }

  // Front matter.

  /** The number of lines that strip to `---`. */
  function RuleCount(lines: seq<string>): nat {
    if |lines| == 0 then 0
    else RuleCount(lines[..|lines| - 1]) + (if IsRule(lines[|lines| - 1]) then 1 else 0)
  }

  /** Every line that strips to `---` is counted, and only the first two
      toggle: the parser is inside the front matter exactly when it has
      seen one of them. */
  lemma {:induction false} RunFront(lines: seq<string>)
    ensures Run(START, lines).frontCount == RuleCount(lines)
    ensures Run(START, lines).inFront <==> RuleCount(lines) == 1
    decreases |lines|
  {
    if |lines| > 0 {
      RunFront(lines[..|lines| - 1]);
      StepFront(Run(START, lines[..|lines| - 1]), lines[|lines| - 1]);
    }
  }

  lemma ContentFlags(s: ParseState, line: string)
    ensures Content(s, line).frontCount == s.frontCount && Content(s, line).inFront == s.inFront
  {
    var r := Content(s, line);
    if LetterHeader(line).Some? || H2Name(line).Some? {
      assert r.frontCount == s.frontCount && r.inFront == s.inFront;
    } else if s.inNonTerm {
      assert r == s;
    } else if H3Name(line).Some? {
      assert r.frontCount == s.frontCount && r.inFront == s.inFront;
    } else {
      assert r.frontCount == s.frontCount && r.inFront == s.inFront;
    }
  }

  /** Every `---` line is counted; only the first two toggle. */
  lemma StepFront(s: ParseState, line: string)
    ensures Step(s, line).frontCount == Counted(s, line)
    ensures Step(s, line).inFront == if IsRule(line) && s.frontCount < 2 then !s.inFront else s.inFront
  {
    ContentFlags(s.(frontCount := Counted(s, line)), line);
  }

  /** The front matter's own lines change nothing but the front matter flags. */
  lemma StepSkipped(s: ParseState, line: string)
    requires Skipped(s, line)
    ensures var r := Step(s, line);
      r.terms == s.terms && r.term == s.term && r.body == s.body &&
      r.section == s.section && r.inNonTerm == s.inNonTerm
  {
  }

  /** Lines inside the front matter with no `---` among them are passed over. */
  lemma {:induction false} RunInFront(s: ParseState, lines: seq<string>)
    requires s.inFront
    requires forall i :: 0 <= i < |lines| ==> !IsRule(lines[i])
    ensures Run(s, lines) == s
    decreases |lines|
  {
    if |lines| > 0 {
      RunInFront(s, lines[..|lines| - 1]);
      assert Step(s, lines[|lines| - 1]) == s;
    }
  }

  /** A front matter block at the start of the file is read as nothing at all. */
  lemma FrontMatterSkipped(open: string, fields: seq<string>, close: string)
    requires IsRule(open) && IsRule(close)
    requires forall i :: 0 <= i < |fields| ==> !IsRule(fields[i])
    ensures Run(START, [open] + fields + [close]) == START.(frontCount := 2)
  {
    FoldOne(Step, START, open);
    var s1 := Step(START, open);
    FoldAppend(Step, START, [open], fields);
    RunInFront(s1, fields);
    FoldAppend(Step, START, [open] + fields, [close]);
    FoldOne(Step, s1, close);
  }

  // Headings.

  /** The section changes only at a letter heading outside the front
      matter, and then to that letter. */
  lemma StepSection(s: ParseState, line: string)
    ensures Step(s, line).section ==
      if !Skipped(s, line) && LetterHeader(line).Some? then [LetterHeader(line).value] else s.section
  {
  }

  /** The entries change only when the term being read is saved. */
  lemma StepTerms(s: ParseState, line: string)
    ensures Step(s, line).terms == s.terms || (s.term != "" && Step(s, line).terms == Saved(s))
  {
    var s' := s.(frontCount := Counted(s, line));
    ContentTerms(s', line);
    assert Saved(s') == Saved(s);
  }

  lemma ContentTerms(s: ParseState, line: string)
    ensures Content(s, line).terms == s.terms || (s.term != "" && Content(s, line).terms == Saved(s))
  {
    var r := Content(s, line);
    if LetterHeader(line).Some? {
      assert r.terms == Flushed(s);
    } else if H2Name(line).Some? {
      assert r.terms == Flushed(s);
    } else if s.inNonTerm {
      assert r == s;
    } else if H3Name(line).Some? {
      assert r.terms == if s.term != "" then Saved(s) else s.terms;
    } else {
      assert r.terms == s.terms;
    }
  }

  /** Saving a term puts it under its lowercase name, replacing any entry
      with that name, and leaves the other names alone. */
  lemma SavedGet(s: ParseState, k: string)
    ensures Get(Saved(s), k) ==
      if k == Lower(s.term) then Some(GlossaryTerm(s.term, Definition(s.body), s.section)) else Get(s.terms, k)
  {
    GetPut(s.terms, Lower(s.term), GlossaryTerm(s.term, Definition(s.body), s.section), k);
  }

  /** A `##` heading that is neither a letter nor reserved ends the term
      being read but does not leave a reserved section. */
  lemma StepOtherHeading(s: ParseState, line: string)
    requires !Skipped(s, line) && LetterHeader(line).None?
    requires H2Name(line).Some? && Strip(H2Name(line).value) !in NON_TERM_SECTIONS
    ensures Step(s, line).term == "" && Step(s, line).body == []
    ensures Step(s, line).inNonTerm == s.inNonTerm
    ensures Step(s, line).terms == Flushed(s.(frontCount := Counted(s, line)))
  {
  }

  /** After a reserved heading nothing is recorded until the next letter heading. */
  lemma {:induction false} RunNonTerm(s: ParseState, lines: seq<string>)
    requires s.inNonTerm && s.term == ""
    requires forall i :: 0 <= i < |lines| ==> LetterHeader(lines[i]).None?
    ensures Run(s, lines).terms == s.terms
    ensures Run(s, lines).inNonTerm && Run(s, lines).term == ""
    decreases |lines|
  {
    if |lines| > 0 {
      RunNonTerm(s, lines[..|lines| - 1]);
    }
  }

  // Footer text: `re.sub(marker + ".*", "", text)` on each line.

  /** A line up to the first occurrence of `m`, or all of it. */
  function CutLine(line: string, m: string): string {
    match FindFrom(line, m, 0)
    case Some(p) => line[..p]
    case None => line
  }

  /** `re.sub(re.escape(m) + ".*", "", text)`: every line cut before its first `m`. */
  function RemoveMarker(text: string, m: string): string {
    var lines := SplitLines(text);
    JoinLines(seq(|lines|, i requires 0 <= i < |lines| => CutLine(lines[i], m)))
  }

  const TOTAL_MARK := "**Total Terms**:"
  const MORE_MARK := "For additional terms"
  const REPO_MARK := "[GitHub repository]"

  /** The footer patterns, in the order they are applied. */
  const FOOTER_MARKERS: seq<string> := [TOTAL_MARK, MORE_MARK, REPO_MARK]

  /** The footer patterns applied one after another. */
  function RemoveMarkers(text: string, markers: seq<string>): string {
    if |markers| == 0 then text
    else RemoveMarker(RemoveMarkers(text, markers[..|markers| - 1]), markers[|markers| - 1])
  }

  lemma RemoveFooterSteps(text: string)
    ensures RemoveMarkers(text, FOOTER_MARKERS) ==
      RemoveMarker(RemoveMarker(RemoveMarker(text, TOTAL_MARK), MORE_MARK), REPO_MARK)
  {
    var m := FOOTER_MARKERS;
    assert m[..1][..0] == [] && m[..1][0] == TOTAL_MARK;
    assert RemoveMarkers(text, m[..1]) == RemoveMarker(text, TOTAL_MARK);
    assert m[..2][..1] == m[..1] && m[..2][1] == MORE_MARK;
    assert RemoveMarkers(text, m[..2]) == RemoveMarker(RemoveMarkers(text, m[..1]), MORE_MARK);
    assert m[..2] == m[..|m| - 1];
  }

  lemma TotalMarkFacts()
    ensures |TOTAL_MARK| > 0 && TOTAL_MARK[0] == '*' && '\n' !in TOTAL_MARK
  {
  }

  lemma MoreMarkFacts()
    ensures |MORE_MARK| > 0 && MORE_MARK[0] == 'F' && '\n' !in MORE_MARK
  {
  }

  lemma RepoMarkFacts()
    ensures |REPO_MARK| > 0 && REPO_MARK[0] == '[' && '\n' !in REPO_MARK
  {
  }

  /** An occurrence inside a prefix is an occurrence in the whole line, before the prefix ends. */
  lemma InPrefix(s: string, m: string, p: nat)
    requires p <= |s|
    ensures Contains(s[..p], m) ==> exists j :: 0 <= j && j + |m| <= p && MatchAt(s, m, j)
  {
    if Contains(s[..p], m) {
      var j := ContainsWitness(s[..p], m);
      assert s[j..j + |m|] == s[..p][j..j + |m|];
      assert MatchAt(s, m, j);
    }
  }

  /** A cut line no longer holds the marker. */
  lemma CutLineMissing(line: string, m: string)
    requires |m| > 0
    ensures !Contains(CutLine(line, m), m)
  {
    FindFromFacts(line, m, 0);
    match FindFrom(line, m, 0)
    case Some(p) =>
      InPrefix(line, m, p);
    case None =>
      InPrefix(line, m, |line|);
      assert line[..|line|] == line;
  }

  /** A line without the marker is left as it is. */
  lemma CutLineUnchanged(line: string, m: string)
    ensures !Contains(line, m) ==> CutLine(line, m) == line
  {
    FindFromFacts(line, m, 0);
    if FindFrom(line, m, 0).Some? {
      var p := FindFrom(line, m, 0).value;
      ContainsAt(line, m, p);
    }
  }

  /** Cutting a line adds no text to it. */
  lemma CutLineKeeps(line: string, m: string, m2: string)
    ensures !Contains(line, m2) ==> !Contains(CutLine(line, m), m2)
  {
    match FindFrom(line, m, 0)
    case Some(p) =>
      ContainsSlice(line, 0, p, m2);
      assert line[0..p] == line[..p];
    case None =>
  }

  /** Cut lines joined again hold no marker. */
  lemma RemoveMarkerMissing(text: string, m: string)
    requires |m| > 0 && '\n' !in m
    ensures !Contains(RemoveMarker(text, m), m)
  {
    var lines := SplitLines(text);
    var cut := seq(|lines|, i requires 0 <= i < |lines| => CutLine(lines[i], m));
    forall i | 0 <= i < |cut|
      ensures !Contains(cut[i], m)
    {
      CutLineMissing(lines[i], m);
    }
    JoinLinesMissing(cut, m);
  }

  /** Removing one marker does not bring back another. */
  lemma RemoveMarkerKeeps(text: string, m: string, m2: string)
    requires '\n' !in m2
    ensures !Contains(text, m2) ==> !Contains(RemoveMarker(text, m), m2)
  {
    if !Contains(text, m2) {
      var lines := SplitLines(text);
      JoinSplit(text, '\n');
      var cut := seq(|lines|, i requires 0 <= i < |lines| => CutLine(lines[i], m));
      forall i | 0 <= i < |cut|
        ensures !Contains(cut[i], m2)
      {
        JoinLinesContains(lines, i, m2);
        CutLineKeeps(lines[i], m, m2);
      }
      JoinLinesMissing(cut, m2);
    }
  }

  /** A text without the marker is left as it is. */
  lemma RemoveMarkerUnchanged(text: string, m: string)
    ensures !Contains(text, m) ==> RemoveMarker(text, m) == text
  {
    if !Contains(text, m) {
      var lines := SplitLines(text);
      JoinSplit(text, '\n');
      var cut := seq(|lines|, i requires 0 <= i < |lines| => CutLine(lines[i], m));
      forall i | 0 <= i < |lines|
        ensures cut[i] == lines[i]
      {
        JoinLinesContains(lines, i, m);
        CutLineUnchanged(lines[i], m);
      }
      assert cut == lines;
    }
  }

  /** After the footer patterns none of their markers is left. */
  lemma FooterGone(text: string)
    ensures var r := RemoveMarkers(text, FOOTER_MARKERS);
      !Contains(r, TOTAL_MARK) && !Contains(r, MORE_MARK) && !Contains(r, REPO_MARK)
  {
    RemoveFooterSteps(text);
    TotalMarkFacts();
    MoreMarkFacts();
    RepoMarkFacts();
    var a1 := RemoveMarker(text, TOTAL_MARK);
    var a2 := RemoveMarker(a1, MORE_MARK);
    RemoveMarkerMissing(text, TOTAL_MARK);
    RemoveMarkerMissing(a1, MORE_MARK);
    RemoveMarkerMissing(a2, REPO_MARK);
    RemoveMarkerKeeps(a1, MORE_MARK, TOTAL_MARK);
    RemoveMarkerKeeps(a2, REPO_MARK, TOTAL_MARK);
    RemoveMarkerKeeps(a2, REPO_MARK, MORE_MARK);
  }

  // The supplementary text: `parse_supplementary_sections`.

  /** The loop variables of `parse_supplementary_sections`. */
  datatype SuppState = SuppState(capturing: bool, inFront: bool, frontCount: nat, captured: seq<string>)

  const SUPP_START := SuppState(false, false, 0, [])

  /** A `##` heading naming a reserved section. */
  predicate Reserved(line: string) {
    H2Name(line).Some? && Strip(H2Name(line).value) in NON_TERM_SECTIONS
  }

  /** A `##` heading naming a single capital letter. */
  predicate LetterSection(line: string) {
    H2Name(line).Some? && IsLetter(Strip(H2Name(line).value))
  }

  predicate SuppSkipped(s: SuppState, line: string) {
    (IsRule(line) && s.frontCount < 2) || s.inFront
  }

  /** One pass of the loop over the lines. */
  function SuppStep(s: SuppState, line: string): SuppState {
    var s' := s.(frontCount := if IsRule(line) then s.frontCount + 1 else s.frontCount);
    if IsRule(line) && s.frontCount < 2 then s'.(inFront := !s.inFront)
    else if s.inFront then s'
    else if Reserved(line) then s'.(capturing := true, captured := s.captured + [line])
    else if LetterSection(line) then s'.(capturing := false)
    else if s.capturing then s'.(captured := s.captured + [line])
    else s'
  }

  function SuppRun(s: SuppState, lines: seq<string>): SuppState {
    Fold(SuppStep, s, lines)
  }

  /** `re.sub(r"\n---\s*$", "", text)` on a text with no trailing whitespace. */
  function DropRule(text: string): string {
    if EndsWith(text, "\n---") then text[..|text| - 4] else text
  }

  /** The clean-up of the captured lines. */
  function CleanSupplementary(text: string): string {
    Strip(DropRule(RStrip(RemoveMarkers(Strip(text), FOOTER_MARKERS))))
  }

  /** `parse_supplementary_sections`: the reserved sections of the file,
      cleaned; stripped and free of the footer texts. */
  function ParseSupplementary(content: Option<string>): (r: string)
    ensures content.None? ==> r == ""
    ensures IsStripped(r)
    ensures !Contains(r, TOTAL_MARK) && !Contains(r, MORE_MARK) && !Contains(r, REPO_MARK)
  {
    if content.None? then ""
    else
      var text := JoinLines(SuppRun(SUPP_START, SplitLines(content.value)).captured);
      CleanProperties(text);
      CleanSupplementary(text)
  }

  /** The last steps keep only part of the text. */
  lemma TailKeeps(a: string, m: string)
    ensures !Contains(a, m) ==> !Contains(Strip(DropRule(RStrip(a))), m)
  {
    var c := DropRule(RStrip(a));
    DropKeeps(a, m);
    StripKeeps(c, m);
  }

  lemma DropKeeps(a: string, m: string)
    ensures Contains(DropRule(RStrip(a)), m) ==> Contains(a, m)
  {
    var b := RStrip(a);
    var c := DropRule(b);
    assert c == b[0..|c|];
    ContainsSlice(b, 0, |c|, m);
    ContainsSlice(a, 0, |b|, m);
  }

  lemma StripKeeps(c: string, m: string)
    ensures Contains(Strip(c), m) ==> Contains(c, m)
  {
    var k := StripSlice(c);
    ContainsSlice(c, k, k + |Strip(c)|, m);
  }

  lemma CleanProperties(text: string)
    ensures IsStripped(CleanSupplementary(text))
    ensures var r := CleanSupplementary(text);
      !Contains(r, TOTAL_MARK) && !Contains(r, MORE_MARK) && !Contains(r, REPO_MARK)
  {
    var a := RemoveMarkers(Strip(text), FOOTER_MARKERS);
    FooterGone(Strip(text));
    StripProperties(DropRule(RStrip(a)));
    TailKeeps(a, TOTAL_MARK);
    TailKeeps(a, MORE_MARK);
    TailKeeps(a, REPO_MARK);
  }

  /** One pass of the supplementary loop body. */
  method ReadSuppLine(capturing: bool, inFront: bool, frontCount: nat, captured: seq<string>, line: string)
    returns (capturing': bool, inFront': bool, frontCount': nat, captured': seq<string>)
    ensures SuppState(capturing', inFront', frontCount', captured') ==
            SuppStep(SuppState(capturing, inFront, frontCount, captured), line)
  {
    capturing', inFront', frontCount', captured' := capturing, inFront, frontCount, captured;
    if IsRule(line) {
      frontCount' := frontCount + 1;
      if frontCount' <= 2 {
        inFront' := !inFront;
        return;
      }
    }
    if inFront {
      return;
    }
    var h2 := H2Name(line);
    if h2.Some? {
      var name := Strip(h2.value);
      if name in NON_TERM_SECTIONS {
        capturing' := true;
      } else if IsLetter(name) {
        capturing' := false;
        return;
      }
    }
    if capturing' {
      captured' := captured + [line];
    }
  }

  method ParseSupplementarySections(content: Option<string>) returns (result: string)
    ensures result == ParseSupplementary(content)
  {
    if content.None? {
      return "";
    }
    var captured := CaptureSections(SplitLines(content.value));
    result := RemoveFooterLines(Strip(JoinLines(captured)));
    result := Strip(DropRule(RStrip(result)));
  }

  /** The loop over the lines, collecting the reserved sections. */
  method CaptureSections(lines: seq<string>) returns (captured: seq<string>)
    ensures captured == SuppRun(SUPP_START, lines).captured
  {
    captured := [];
    var capturing := false;
    var inFront := false;
    var frontCount := 0;
    var i := 0;
    while i < |lines|
      invariant 0 <= i <= |lines|
      invariant SuppState(capturing, inFront, frontCount, captured) == SuppRun(SUPP_START, lines[..i])
    {
      FoldPrefix(SuppStep, SUPP_START, lines, i);
      capturing, inFront, frontCount, captured := ReadSuppLine(capturing, inFront, frontCount, captured, lines[i]);
      i := i + 1;
    }
    FoldWhole(SuppStep, SUPP_START, lines);
  }

  /** The loop over the footer patterns. */
  method RemoveFooterLines(text: string) returns (result: string)
    ensures result == RemoveMarkers(text, FOOTER_MARKERS)
  {
    result := text;
    var k := 0;
    while k < |FOOTER_MARKERS|
      invariant 0 <= k <= |FOOTER_MARKERS|
      invariant result == RemoveMarkers(text, FOOTER_MARKERS[..k])
    {
      assert FOOTER_MARKERS[..k + 1][..k] == FOOTER_MARKERS[..k];
      result := RemoveMarker(result, FOOTER_MARKERS[k]);
      k := k + 1;
    }
    assert FOOTER_MARKERS[..k] == FOOTER_MARKERS;
  }

  /** What the loop keeps true: the capture starts at a reserved heading,
      no letter heading is captured, and capturing means something was. */
  predicate SuppInv(s: SuppState) {
    (s.captured == [] || Reserved(s.captured[0])) &&
    (forall i :: 0 <= i < |s.captured| ==> !LetterSection(s.captured[i])) &&
    (s.capturing ==> s.captured != [])
  }

  lemma ReservedNotLetter(line: string)
    ensures Reserved(line) ==> !LetterSection(line)
  {
    if H2Name(line).Some? {
      ReservedLong(Strip(H2Name(line).value));
    }
  }

  lemma ReservedLong(n: string)
    ensures n in NON_TERM_SECTIONS ==> |n| > 1
  {
  }

  lemma AppendKeepsNoLetter(c: seq<string>, line: string)
    requires forall i :: 0 <= i < |c| ==> !LetterSection(c[i])
    requires !LetterSection(line)
    ensures forall i :: 0 <= i < |c + [line]| ==> !LetterSection((c + [line])[i])
  {
  }

  lemma SuppStepInv(s: SuppState, line: string)
    requires SuppInv(s)
    ensures SuppInv(SuppStep(s, line))
  {
    if !SuppSkipped(s, line) {
      if Reserved(line) {
        ReservedNotLetter(line);
        AppendKeepsNoLetter(s.captured, line);
      } else if !LetterSection(line) && s.capturing {
        AppendKeepsNoLetter(s.captured, line);
        assert (s.captured + [line])[0] == s.captured[0];
      }
    }
  }

  lemma {:induction false} SuppRunInv(s: SuppState, lines: seq<string>)
    requires SuppInv(s)
    ensures SuppInv(SuppRun(s, lines))
    decreases |lines|
  {
    if |lines| > 0 {
      SuppRunInv(s, lines[..|lines| - 1]);
      SuppStepInv(SuppRun(s, lines[..|lines| - 1]), lines[|lines| - 1]);
    }
  }

  /** Capture starts at a reserved heading, which is kept, and stops at a
      letter heading, which is not. */
  lemma SuppStepHeadings(s: SuppState, line: string)
    requires !SuppSkipped(s, line)
    ensures Reserved(line) ==> SuppStep(s, line).capturing && SuppStep(s, line).captured == s.captured + [line]
    ensures LetterSection(line) ==> !SuppStep(s, line).capturing && SuppStep(s, line).captured == s.captured
    ensures !Reserved(line) && !LetterSection(line) ==>
      SuppStep(s, line).capturing == s.capturing &&
      SuppStep(s, line).captured == if s.capturing then s.captured + [line] else s.captured
  {
    ReservedNotLetter(line);
  }

  /** The captured lines of a whole file. */
  lemma ParsedCapture(content: string)
    ensures SuppInv(SuppRun(SUPP_START, SplitLines(content)))
  {
    SuppRunInv(SUPP_START, SplitLines(content));
  }

  lemma NoFooterIn(t: string)
    requires '*' !in t && 'F' !in t && '[' !in t
    ensures RemoveMarkers(t, FOOTER_MARKERS) == t
  {
    TotalMarkFacts();
    MoreMarkFacts();
    RepoMarkFacts();
    MissingFirstChar(t, TOTAL_MARK);
    MissingFirstChar(t, MORE_MARK);
    MissingFirstChar(t, REPO_MARK);
    RemoveMarkerUnchanged(t, TOTAL_MARK);
    RemoveMarkerUnchanged(t, MORE_MARK);
    RemoveMarkerUnchanged(t, REPO_MARK);
    RemoveFooterSteps(t);
  }

  /** On a stripped text without footer characters the clean-up only drops a trailing rule. */
  lemma CleanPlain(t: string)
    requires IsStripped(t) && '*' !in t && 'F' !in t && '[' !in t
    ensures CleanSupplementary(t) == Strip(DropRule(t))
  {
    StripOfStripped(t);
    NoFooterIn(t);
    RStripOfStripped(t);
  }

  /** Only one trailing rule is removed: a text that ends in two rules
      keeps the first. */
  lemma OneRuleDropped()
    ensures EndsWith(CleanSupplementary("A\n---\n---"), "\n---")
  {
    var t := "A\n---\n---";
    var u := "A\n---";
    assert t == u + "\n---";
    assert t[0] == 'A' && t[|t| - 1] == '-';
    CleanPlain(t);
    assert EndsWith(t, "\n---");
    assert DropRule(t) == u;
    StripOfStripped(u);
  }
}
