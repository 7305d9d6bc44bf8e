/** The renderer of `scripts/generate_glossary.py`,
    `generate_glossary_content`: the terms are grouped by their section
    letter, each group is sorted by lowercase name, the letters are
    emitted in ascending order, each term with its definition and,
    optionally, a capped list of the pages that use it; then the
    reserved sections kept from the old file and a footer. The page is
    a list of lines joined with '\n'. */
module GlossaryRender {
  import opened Wrappers
  import opened Text
  import opened Dict
  import opened Sorting
  import opened Glossary
  import GlossaryParse

  /** The pages that use each term, per lowercase term name. */
  type References = Dict<string, seq<TermReference>>

  /** The groups of terms, per section letter, in first-seen order. */
  type Sections = Dict<string, seq<GlossaryTerm>>

  // The fixed text of the page.

  const RULE := "---"

  /** The fields of the front matter. Long texts are written in short pieces. */
  const FRONT_FIELDS: seq<string> := [
    "title: " + "\"Glossary\"",
    "description: " + "\"Comprehensive " + "glossary of " + "terms used in " + "the Dukes " + "Engineering " + "Style Guide\"",
    "author: " + "\"Tyler Dukes\"",
    "tags: " + "[glossary, " + "terms, " + "definitions, " + "reference, " + "dictionary]",
    "category: " + "\"Reference\"",
    "status: " + "\"active\""]

  /** The lines of `FRONTMATTER`. */
  const FRONT_LINES: seq<string> := [RULE] + FRONT_FIELDS + [RULE]

  /** `FRONTMATTER`: the front matter block, with no newline at its end. */
  const FRONTMATTER := JoinLines(FRONT_LINES)

  const INTRO_HEAD := "This glossary " + "defines terms " + "used " + "throughout " + "the Dukes " + "Engineering " +
    "Style Guide, " + "including " + "technical " + "concepts, " + "tool names,"
  const INTRO_TAIL := "metadata " + "tags, and " + "industry " + "terminology."

  /** The introduction, between blank lines. */
  const INTRO_LINES: seq<string> := ["", INTRO_HEAD, INTRO_TAIL, ""]

  /** The lines before the first letter section. */
  const HEAD_LINES: seq<string> := [FRONTMATTER] + INTRO_LINES

  const MORE_LINE := GlossaryParse.MORE_MARK + " or " + "clarifications, " + "please refer " + "to the " + "specific " +
    "language " + "guides or " + "open an issue " + "on the"
  const REPO_LINE := GlossaryParse.REPO_MARK + "(https://" + "github.com/" + "tydukes/" + "coding-style-" + "guide/issues)."

  /** `f"**Total Terms**: {len(terms)}+"` */
  function TotalLine(n: nat): string {
    GlossaryParse.TOTAL_MARK + " " + NatToString(n) + "+"
  }

  /** The footer, after the last section or the reserved sections. */
  function FooterLines(n: nat): seq<string> {
    [RULE, "", TotalLine(n), "", MORE_LINE, REPO_LINE, ""]
  }

  /** The reserved sections, behind a rule, only when there are any. */
  function SuppLines(supplementary: string): seq<string> {
    if supplementary != "" then [RULE, "", supplementary, ""] else []
  }

  // Grouping: `sections[term.section].append(term)` over `terms.values()`.

  /** `sections[k]` of a `defaultdict(list)`: the empty list for a missing key. */
  function Members(sections: Sections, k: string): seq<GlossaryTerm> {
    match Get(sections, k)
    case Some(ts) => ts
    case None => []
  }

  /** One pass of the grouping loop. */
  function AddToSection(sections: Sections, t: GlossaryTerm): Sections {
    Put(sections, t.section, Members(sections, t.section) + [t])
  }

  /** The groups after the grouping loop over the values of `terms`. */
  function Grouped(terms: Dict<string, GlossaryTerm>): Sections {
    if |terms| == 0 then []
    else AddToSection(Grouped(terms[..|terms| - 1]), terms[|terms| - 1].1)
  }

  /** The values of `terms` whose section is `section`, in dictionary order. */
  function InSection(terms: Dict<string, GlossaryTerm>, section: string): seq<GlossaryTerm> {
    if |terms| == 0 then []
    else
      var t := terms[|terms| - 1].1;
      InSection(terms[..|terms| - 1], section) + (if t.section == section then [t] else [])
  }

  // Sorting: `sections[section].sort(key=lambda t: t.name.lower())`.

  /** The order of the sort key `t.name.lower()`. */
  function NameLess(a: GlossaryTerm, b: GlossaryTerm): bool {
    Less(Lower(a.name), Lower(b.name))
  }

  /** Every group sorted in place; the keys keep their order. */
  function SortedSections(sections: Sections): (r: Sections)
    ensures |r| == |sections|
  {
    seq(|sections|, i requires 0 <= i < |sections| => (sections[i].0, Sort(sections[i].1, NameLess)))
  }

  // The lines of one term.

  /** `f"[{p}]({p})"` */
  function Link(path: string): string {
    "[" + path + "](" + path + ")"
  }

  /** The order of `sorted(refs, key=lambda r: r.display_path)`. */
  function PathLess(a: TermReference, b: TermReference): bool {
    Less(a.displayPath, b.displayPath)
  }

  /** The links of `refs`, in their order. */
  function Links(refs: seq<TermReference>): (r: seq<string>)
    ensures |r| == |refs|
  {
    seq(|refs|, i requires 0 <= i < |refs| => Link(refs[i].displayPath))
  }

  function Min(a: nat, b: nat): nat {
    if a <= b then a else b
  }

  /** `ref_links[:5]`: the links shown, in path order. */
  function Shown(refs: seq<TermReference>): seq<string> {
    var links := Links(Sort(refs, PathLess));
    links[..Min(5, |links|)]
  }

  /** The "Referenced in" line. */
  function RefText(refs: seq<TermReference>): string {
    "*Referenced in: " + Join(Shown(refs), ", ") +
      (if |refs| > 5 then " and " + NatToString(|refs| - 5) + " more*" else "*")
  }

  /** What the renderer reads besides the terms. */
  datatype Options = Options(references: Option<References>, crossRef: bool)

  /** The "Referenced in" block of a term: only with cross references on,
      a non-empty reference map, and a non-empty list for the term. */
  function RefLines(t: GlossaryTerm, o: Options): seq<string> {
    if o.crossRef && o.references.Some? && |o.references.value| > 0 &&
       Get(o.references.value, Lower(t.name)).Some? &&
       |Get(o.references.value, Lower(t.name)).value| > 0
    then ["", RefText(Get(o.references.value, Lower(t.name)).value)]
    else []
  }

  /** Heading, blank line, definition, references, blank line. */
  function TermLines(t: GlossaryTerm, o: Options): seq<string> {
    ["### " + t.name, "", t.definition] + RefLines(t, o) + [""]
  }

  function TermsBlock(ts: seq<GlossaryTerm>, o: Options): seq<string> {
    if |ts| == 0 then []
    else TermsBlock(ts[..|ts| - 1], o) + TermLines(ts[|ts| - 1], o)
  }

  /** A letter heading, a blank line, and the group's terms. */
  function LetterBlock(sections: Sections, letter: string, o: Options): seq<string> {
    ["## " + letter, ""] + TermsBlock(Members(sections, letter), o)
  }

  function LettersBlock(sections: Sections, letters: seq<string>, o: Options): seq<string> {
    if |letters| == 0 then []
    else LettersBlock(sections, letters[..|letters| - 1], o) + LetterBlock(sections, letters[|letters| - 1], o)
  }

  /** The sorted groups of `terms`. */
  function SortedGroups(terms: Dict<string, GlossaryTerm>): Sections {
    SortedSections(Grouped(terms))
  }

  /** `sorted(sections.keys())` */
  function Letters(terms: Dict<string, GlossaryTerm>): seq<string> {
    Sort(Keys(SortedGroups(terms)), Less)
  }

  /** The list of lines `generate_glossary_content` joins. */
  function RenderLines(terms: Dict<string, GlossaryTerm>, references: Option<References>,
                       supplementary: string, crossRef: bool): seq<string> {
    HEAD_LINES +
      LettersBlock(SortedGroups(terms), Letters(terms), Options(references, crossRef)) +
      SuppLines(supplementary) + FooterLines(|terms|)
  }

  /** `generate_glossary_content(terms, references, supplementary, cross_ref)` */
  function Render(terms: Dict<string, GlossaryTerm>, references: Option<References>,
                  supplementary: string, crossRef: bool): string {
    JoinLines(RenderLines(terms, references, supplementary, crossRef))
  }

  // The renderer as written: loops appending to `lines`.

  method GenerateGlossaryContent(terms: Dict<string, GlossaryTerm>, references: Option<References>,
                                 supplementary: string, crossRef: bool)
    returns (content: string)
    ensures content == Render(terms, references, supplementary, crossRef)
  {
    var sections := GroupTerms(terms);
    sections := SortSections(sections);
    var o := Options(references, crossRef);
    var letters := Sort(Keys(sections), Less);
    var lines := AppendSections(HEAD_LINES, sections, letters, o);
    assert lines == HEAD_LINES + LettersBlock(SortedGroups(terms), Letters(terms), o);
    if supplementary != "" {
      lines := lines + [RULE, "", supplementary, ""];
    }
    assert lines == HEAD_LINES + LettersBlock(SortedGroups(terms), Letters(terms), o) + SuppLines(supplementary);
    lines := lines + [RULE, "", TotalLine(|terms|), "", MORE_LINE, REPO_LINE, ""];
    assert lines == RenderLines(terms, references, supplementary, crossRef);
    content := JoinLines(lines);
  }

  /** The loop over the letters. */
  method AppendSections(lines: seq<string>, sections: Sections, letters: seq<string>, o: Options)
    returns (out: seq<string>)
    ensures out == lines + LettersBlock(sections, letters, o)
  {
    out := lines;
    var k := 0;
    while k < |letters|
      invariant 0 <= k <= |letters|
      invariant out == lines + LettersBlock(sections, letters[..k], o)
    {
      var block := AppendTerms(["## " + letters[k], ""], Members(sections, letters[k]), o);
      LettersBlockStep(sections, letters, k, o);
      ConcatAssoc(lines, LettersBlock(sections, letters[..k], o), block);
      out := out + block;
      k := k + 1;
    }
    assert letters[..k] == letters;
  }

  lemma LettersBlockStep(sections: Sections, letters: seq<string>, k: nat, o: Options)
    requires k < |letters|
    ensures LettersBlock(sections, letters[..k + 1], o) == LettersBlock(sections, letters[..k], o) + LetterBlock(sections, letters[k], o)
  {
    assert letters[..k + 1][..k] == letters[..k];
  }

  /** The grouping loop. */
  method GroupTerms(terms: Dict<string, GlossaryTerm>) returns (sections: Sections)
    ensures sections == Grouped(terms)
  {
    sections := [];
    var i := 0;
    while i < |terms|
      invariant 0 <= i <= |terms|
      invariant sections == Grouped(terms[..i])
    {
      GroupedStep(terms, i);
      var t := terms[i].1;
      var members := Members(sections, t.section);
      sections := Put(sections, t.section, members + [t]);
      i := i + 1;
    }
    assert terms[..i] == terms;
  }

  lemma GroupedStep(terms: Dict<string, GlossaryTerm>, i: nat)
    requires i < |terms|
    ensures Grouped(terms[..i + 1]) == AddToSection(Grouped(terms[..i]), terms[i].1)
  {
    assert terms[..i + 1][..i] == terms[..i];
  }

  /** The loop sorting each group in place. */
  method SortSections(sections: Sections) returns (r: Sections)
    ensures r == SortedSections(sections)
  {
    r := sections;
    var i := 0;
    while i < |r|
      invariant 0 <= i <= |r| == |sections|
      invariant forall j :: 0 <= j < i ==> r[j] == (sections[j].0, Sort(sections[j].1, NameLess))
      invariant forall j :: i <= j < |r| ==> r[j] == sections[j]
    {
      r := r[i := (r[i].0, Sort(r[i].1, NameLess))];
      i := i + 1;
    }
  }

  /** The loop over the terms of one letter. */
  method AppendTerms(lines: seq<string>, ts: seq<GlossaryTerm>, o: Options) returns (out: seq<string>)
    ensures out == lines + TermsBlock(ts, o)
  {
    out := lines;
    var i := 0;
    while i < |ts|
      invariant 0 <= i <= |ts|
      invariant out == lines + TermsBlock(ts[..i], o)
    {
      var block := AppendTerm(ts[i], o);
      TermsBlockStep(ts, i, o);
      ConcatAssoc(lines, TermsBlock(ts[..i], o), block);
      out := out + block;
      i := i + 1;
    }
    assert ts[..i] == ts;
  }

  lemma TermsBlockStep(ts: seq<GlossaryTerm>, i: nat, o: Options)
    requires i < |ts|
    ensures TermsBlock(ts[..i + 1], o) == TermsBlock(ts[..i], o) + TermLines(ts[i], o)
  {
    assert ts[..i + 1][..i] == ts[..i];
  }

  /** The lines one term adds. */
  method AppendTerm(t: GlossaryTerm, o: Options) returns (block: seq<string>)
    ensures block == TermLines(t, o)
  {
    block := ["### " + t.name, "", t.definition];
    var extra := TermRefLines(t, o);
    block := block + extra + [""];
  }

  /** The cross-reference check of one term. */
  method TermRefLines(t: GlossaryTerm, o: Options) returns (extra: seq<string>)
    ensures extra == RefLines(t, o)
  {
    extra := [];
    if o.crossRef && o.references.Some? && |o.references.value| > 0 {
      var found := Get(o.references.value, Lower(t.name));
      if found.Some? {
        var refs := found.value;
        if |refs| > 0 {
          var text := ReferenceText(refs);
          extra := ["", text];
        }
      }
    }
  }

  /** The links loop and the "Referenced in" line. */
  method ReferenceText(refs: seq<TermReference>) returns (text: string)
    ensures text == RefText(refs)
  {
    var sorted := Sort(refs, PathLess);
    var links: seq<string> := [];
    var i := 0;
    while i < |sorted|
      invariant 0 <= i <= |sorted|
      invariant links == Links(sorted)[..i]
    {
      links := links + [Link(sorted[i].displayPath)];
      i := i + 1;
    }
    assert links == Links(sorted);
    text := "*Referenced in: " + Join(links[..Min(5, |links|)], ", ");
    if |refs| > 5 {
      text := text + " and " + NatToString(|refs| - 5) + " more*";
    } else {
      text := text + "*";
    }
  }

  // What the page promises.

  /** The values of `terms`, in dictionary order. */
  function Values(terms: Dict<string, GlossaryTerm>): (r: seq<GlossaryTerm>)
    ensures |r| == |terms|
  {
    seq(|terms|, i requires 0 <= i < |terms| => terms[i].1)
  }

  /** A group holds exactly the terms of its section, in dictionary order,
      and a section has a group exactly when some term is filed under it. */
  lemma {:induction false} GroupedMembers(terms: Dict<string, GlossaryTerm>, s: string)
    ensures Members(Grouped(terms), s) == InSection(terms, s)
    ensures s in Keys(Grouped(terms)) <==> InSection(terms, s) != []
  {
    if |terms| > 0 {
      var p := terms[..|terms| - 1];
      var t := terms[|terms| - 1].1;
      GroupedMembers(p, s);
      GetPut(Grouped(p), t.section, Members(Grouped(p), t.section) + [t], s);
      if s == t.section {
        GroupedMembers(p, t.section);
      }
    }
  }

  lemma {:induction false} GroupedUnique(terms: Dict<string, GlossaryTerm>)
    ensures UniqueKeys(Grouped(terms))
  {
    if |terms| > 0 {
      var p := terms[..|terms| - 1];
      var t := terms[|terms| - 1].1;
      GroupedUnique(p);
      PutUnique(Grouped(p), t.section, Members(Grouped(p), t.section) + [t]);
    }
  }

  /** A term is filed under `s` exactly when it is a value of `terms` whose section is `s`. */
  lemma {:induction false} InSectionMeaning(terms: Dict<string, GlossaryTerm>, s: string, x: GlossaryTerm)
    ensures x in InSection(terms, s) <==> x.section == s && x in Values(terms)
  {
    if |terms| > 0 {
      var p := terms[..|terms| - 1];
      InSectionMeaning(p, s, x);
      assert Values(terms) == Values(p) + [terms[|terms| - 1].1];
    }
  }

  /** Sorting the groups keeps the keys and sorts each group. */
  lemma {:induction false} SortedSectionsMembers(g: Sections, k: string)
    ensures Members(SortedSections(g), k) == Sort(Members(g, k), NameLess)
  {
    if |g| > 0 {
      SortedSectionsTail(g);
      if g[0].0 != k {
        SortedSectionsMembers(g[1..], k);
      }
    }
  }

  lemma SortedSectionsTail(g: Sections)
    requires |g| > 0
    ensures SortedSections(g)[0] == (g[0].0, Sort(g[0].1, NameLess))
    ensures SortedSections(g)[1..] == SortedSections(g[1..])
  {
  }

  lemma SortedSectionsKeys(g: Sections)
    ensures Keys(SortedSections(g)) == Keys(g)
  {
  }

  lemma NameLessStrict()
    ensures StrictOrder(NameLess)
  {
    forall a | true
      ensures !NameLess(a, a)
    {
      LessIrreflexive(Lower(a.name));
    }
    forall a, b, c | NameLess(a, b) && NameLess(b, c)
      ensures NameLess(a, c)
    {
      LessTransitive(Lower(a.name), Lower(b.name), Lower(c.name));
    }
  }

  lemma PathLessStrict()
    ensures StrictOrder(PathLess)
  {
    forall a | true
      ensures !PathLess(a, a)
    {
      LessIrreflexive(a.displayPath);
    }
    forall a, b, c | PathLess(a, b) && PathLess(b, c)
      ensures PathLess(a, c)
    {
      LessTransitive(a.displayPath, b.displayPath, c.displayPath);
    }
  }

  lemma LessStrict()
    ensures StrictOrder(Less)
  {
    forall a | true
      ensures !Less(a, a)
    {
      LessIrreflexive(a);
    }
    forall a, b, c | Less(a, b) && Less(b, c)
      ensures Less(a, c)
    {
      LessTransitive(a, b, c);
    }
  }

  lemma SectionMultiset(terms: Dict<string, GlossaryTerm>, s: string)
    ensures multiset(Members(SortedGroups(terms), s)) == multiset(InSection(terms, s))
  {
    SortedSectionsMembers(Grouped(terms), s);
    GroupedMembers(terms, s);
  }

  /** The section under letter `s` lists the terms filed under `s`, each as
      often as it occurs, ordered by lowercase name. */
  lemma SectionContents(terms: Dict<string, GlossaryTerm>, s: string)
    ensures SortedBy(Members(SortedGroups(terms), s), NameLess)
    ensures multiset(Members(SortedGroups(terms), s)) == multiset(InSection(terms, s))
    ensures forall x :: x in Members(SortedGroups(terms), s) <==> x.section == s && x in Values(terms)
  {
    var ms := Members(SortedGroups(terms), s);
    SortedSectionsMembers(Grouped(terms), s);
    GroupedMembers(terms, s);
    NameLessStrict();
    SortSorted(InSection(terms, s), NameLess);
    forall x
      ensures x in ms <==> x.section == s && x in Values(terms)
    {
      InSectionMeaning(terms, s, x);
      assert x in ms <==> x in multiset(ms);
      assert x in InSection(terms, s) <==> x in multiset(InSection(terms, s));
    }
  }

  /** The letters are strictly ascending. */
  lemma LettersAscending(terms: Dict<string, GlossaryTerm>)
    ensures forall i, j :: 0 <= i < j < |Letters(terms)| ==> Less(Letters(terms)[i], Letters(terms)[j])
  {
    var ks := Keys(SortedGroups(terms));
    var letters := Letters(terms);
    KeysDistinct(terms);
    LessStrict();
    SortSorted(ks, Less);
    forall i, j | 0 <= i < j < |letters|
      ensures Less(letters[i], letters[j])
    {
      LetterPairStrict(ks, letters, i, j);
    }
  }

  lemma KeysDistinct(terms: Dict<string, GlossaryTerm>)
    ensures var ks := Keys(SortedGroups(terms));
      forall a, b :: 0 <= a < b < |ks| ==> ks[a] != ks[b]
  {
    SortedSectionsKeys(Grouped(terms));
    GroupedUnique(terms);
  }

  /** A letter is emitted exactly when some term is filed under it. */
  lemma LettersPresent(terms: Dict<string, GlossaryTerm>, s: string)
    ensures s in Letters(terms) <==> InSection(terms, s) != []
  {
    var ks := Keys(SortedGroups(terms));
    var letters := Letters(terms);
    SortedSectionsKeys(Grouped(terms));
    GroupedMembers(terms, s);
    assert s in letters <==> s in multiset(letters);
    assert s in ks <==> s in multiset(ks);
  }

  lemma LetterPairStrict(ks: seq<string>, letters: seq<string>, i: nat, j: nat)
    requires forall a, b :: 0 <= a < b < |ks| ==> ks[a] != ks[b]
    requires multiset(letters) == multiset(ks) && SortedBy(letters, Less)
    requires i < j < |letters|
    ensures Less(letters[i], letters[j])
  {
    assert letters[i] in multiset(ks) && letters[j] in multiset(ks);
    var p :| 0 <= p < |ks| && ks[p] == letters[i];
    var q :| 0 <= q < |ks| && ks[q] == letters[j];
    LessTotal(letters[i], letters[j]);
    DistinctPositions(letters, ks, i, j, p, q);
  }

  /** The terms the page lists, section after section. */
  function Emitted(sections: Sections, letters: seq<string>): seq<GlossaryTerm> {
    if |letters| == 0 then []
    else Emitted(sections, letters[..|letters| - 1]) + Members(sections, letters[|letters| - 1])
  }

  /** The values of `terms` filed under any of `letters`, in dictionary order. */
  function InSections(terms: Dict<string, GlossaryTerm>, letters: seq<string>): seq<GlossaryTerm> {
    if |terms| == 0 then []
    else
      var t := terms[|terms| - 1].1;
      InSections(terms[..|terms| - 1], letters) + (if t.section in letters then [t] else [])
  }

  /** Every term appears on the page exactly as often as it is a value of
      `terms`: each under its own letter, none twice, none lost. */
  lemma EveryTermOnce(terms: Dict<string, GlossaryTerm>)
    ensures multiset(Emitted(SortedGroups(terms), Letters(terms))) == multiset(Values(terms))
  {
    var letters := Letters(terms);
    LettersAscending(terms);
    forall a, b | 0 <= a < b < |letters|
      ensures letters[a] != letters[b]
    {
      LessIrreflexive(letters[a]);
    }
    forall i | 0 <= i < |letters|
      ensures multiset(Members(SortedGroups(terms), letters[i])) == multiset(InSection(terms, letters[i]))
    {
      SectionMultiset(terms, letters[i]);
    }
    EmittedSections(terms, SortedGroups(terms), letters);
    forall i | 0 <= i < |terms|
      ensures terms[i].1.section in letters
    {
      InSectionMeaning(terms, terms[i].1.section, terms[i].1);
      LettersPresent(terms, terms[i].1.section);
      assert Values(terms)[i] == terms[i].1;
    }
    CoveringSections(terms, letters);
  }

  lemma {:induction false} EmittedSections(terms: Dict<string, GlossaryTerm>, sg: Sections, letters: seq<string>)
    requires forall a, b :: 0 <= a < b < |letters| ==> letters[a] != letters[b]
    requires forall i :: 0 <= i < |letters| ==> multiset(Members(sg, letters[i])) == multiset(InSection(terms, letters[i]))
    ensures multiset(Emitted(sg, letters)) == multiset(InSections(terms, letters))
  {
    if |letters| > 0 {
      var init := letters[..|letters| - 1];
      var l := letters[|letters| - 1];
      EmittedSections(terms, sg, init);
      LastNotEarlier(letters);
      AddSection(terms, letters);
    } else {
      NoSections(terms, letters);
    }
  }

  lemma LastNotEarlier(letters: seq<string>)
    requires |letters| > 0 && forall a, b :: 0 <= a < b < |letters| ==> letters[a] != letters[b]
    ensures letters[|letters| - 1] !in letters[..|letters| - 1]
  {
    var init := letters[..|letters| - 1];
    forall a | 0 <= a < |init|
      ensures init[a] != letters[|letters| - 1]
    {
      assert letters[a] == init[a];
    }
  }

  lemma {:induction false} NoSections(terms: Dict<string, GlossaryTerm>, letters: seq<string>)
    requires letters == []
    ensures InSections(terms, letters) == []
  {
    if |terms| > 0 {
      NoSections(terms[..|terms| - 1], letters);
    }
  }

  lemma {:induction false} AddSection(terms: Dict<string, GlossaryTerm>, letters: seq<string>)
    requires |letters| > 0 && letters[|letters| - 1] !in letters[..|letters| - 1]
    ensures multiset(InSections(terms, letters)) ==
      multiset(InSections(terms, letters[..|letters| - 1])) + multiset(InSection(terms, letters[|letters| - 1]))
  {
    if |terms| > 0 {
      AddSection(terms[..|terms| - 1], letters);
      InLastOrEarlier(letters, terms[|terms| - 1].1.section);
    }
  }

  lemma InLastOrEarlier(letters: seq<string>, x: string)
    requires |letters| > 0
    ensures x in letters <==> x in letters[..|letters| - 1] || x == letters[|letters| - 1]
  {
    assert letters == letters[..|letters| - 1] + [letters[|letters| - 1]];
  }

  lemma {:induction false} CoveringSections(terms: Dict<string, GlossaryTerm>, letters: seq<string>)
    requires forall i :: 0 <= i < |terms| ==> terms[i].1.section in letters
    ensures InSections(terms, letters) == Values(terms)
  {
    if |terms| > 0 {
      var p := terms[..|terms| - 1];
      CoveringSections(p, letters);
      assert Values(terms) == Values(p) + [terms[|terms| - 1].1];
    }
  }

  // The "Referenced in" line.

  /** At most five links are shown, those of the first references in path
      order; no reference left out sorts before a shown one. */
  lemma ShownLinks(refs: seq<TermReference>)
    ensures var sorted := Sort(refs, PathLess);
      && multiset(sorted) == multiset(refs)
      && |Shown(refs)| == Min(5, |refs|)
      && (forall i :: 0 <= i < |Shown(refs)| ==> Shown(refs)[i] == Link(sorted[i].displayPath))
      && (forall i, j :: 0 <= i < j < |Shown(refs)| ==> !Less(sorted[j].displayPath, sorted[i].displayPath))
      && (forall i, j :: 0 <= i < |Shown(refs)| <= j < |refs| ==> !Less(sorted[j].displayPath, sorted[i].displayPath))
  {
    PathLessStrict();
    SortSorted(refs, PathLess);
  }

  /** The line ends with " more*" exactly when there are more than five references. */
  lemma RefTextMore(refs: seq<TermReference>)
    ensures EndsWith(RefText(refs), " more*") <==> |refs| > 5
  {
    var head := "*Referenced in: " + Join(Shown(refs), ", ");
    if |refs| > 5 {
      MoreEnding(head, " and " + NatToString(|refs| - 5) + " more*");
    } else {
      var shown := Shown(refs);
      if |shown| > 0 {
        var path := Sort(refs, PathLess)[|shown| - 1].displayPath;
        assert shown[|shown| - 1] == Link(path);
        assert Link(path)[|Link(path)| - 1..] == ")";
      }
      HeadEnding(shown);
      PlainEnding(head);
    }
  }

  lemma MoreEnding(head: string, tail: string)
    requires EndsWith(tail, " more*")
    ensures EndsWith(head + tail, " more*")
  {
    assert (head + tail)[|head + tail| - 6..] == tail[|tail| - 6..];
  }

  lemma PlainEnding(head: string)
    requires |head| > 0 && head[|head| - 1] != 'e'
    ensures !EndsWith(head + "*", " more*")
  {
    var text := head + "*";
    assert text[|text| - 2] == head[|head| - 1];
  }

  /** Before the closing '*' comes the end of the last link, or the label's space. */
  lemma HeadEnding(parts: seq<string>)
    requires |parts| > 0 ==> EndsWith(parts[|parts| - 1], ")")
    ensures var head := "*Referenced in: " + Join(parts, ", ");
      head[|head| - 1] in {' ', ')'}
  {
    var joined := Join(parts, ", ");
    var head := "*Referenced in: " + joined;
    if |parts| > 0 {
      var last := parts[|parts| - 1];
      JoinEndsWithLast(parts, ", ");
      EndsWithLastChar(joined, last);
      EndsWithLastChar(last, ")");
      assert head[|head| - 1] == joined[|joined| - 1];
    }
  }

  /** A term gets a "Referenced in" line exactly when cross references are
      on and the map lists at least one page for its lowercase name. */
  lemma RefLinesShown(t: GlossaryTerm, o: Options)
    ensures RefLines(t, o) != [] <==>
      o.crossRef && o.references.Some? && Get(o.references.value, Lower(t.name)).Some? &&
      Get(o.references.value, Lower(t.name)).value != []
    ensures !o.crossRef ==> TermLines(t, o) == ["### " + t.name, "", t.definition, ""]
  {
  }
}
