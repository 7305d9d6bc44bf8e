/** The page scanners of `scripts/generate_glossary.py`:
    `scan_docs_for_term_usage`, which finds the pages that mention each
    glossary term, and `detect_candidate_terms`, which counts bold phrases
    that are not terms yet. The documentation tree is a sequence of pages
    in the order the script reads them (sorted paths). The regular
    expressions are written out as functions over positions, ASCII only. */
module GlossaryScan {
  import opened Wrappers
  import opened Text
  import opened Dict
  import opened Glossary
  import opened Folds

  /** A documentation page: the path read, its path below the docs
      directory, and its text. */
  datatype Doc = Doc(file: string, relative: string, content: string)

  /** `relative_path.name`: the last component of a path. */
  function FileName(path: string): string
    decreases |path|
  {
    if |path| == 0 || path[|path| - 1] == '/' then ""
    else FileName(path[..|path| - 1]) + [path[|path| - 1]]
  }

  /** The last component is a slash-free suffix of the path. */
  lemma {:induction false} FileNameSuffix(path: string)
    ensures |FileName(path)| <= |path|
    ensures FileName(path) == path[|path| - |FileName(path)|..]
    ensures forall k :: 0 <= k < |FileName(path)| ==> FileName(path)[k] != '/'
    decreases |path|
  {
    if |path| > 0 && path[|path| - 1] != '/' {
      var init := path[..|path| - 1];
      FileNameSuffix(init);
      var r := FileName(init);
      assert FileName(path) == r + [path[|path| - 1]];
      assert init[|init| - |r|..] + [path[|path| - 1]] == path[|path| - |r| - 1..];
    }
  }

  /** The last component is what follows the last '/'. */
  lemma FileNameOf(dir: string, name: string)
    requires '/' !in name
    ensures FileName(dir + "/" + name) == name
  {
    var q := dir + "/";
    assert q[..|q| - 1] + [q[|q| - 1]] == q;
    assert FileName(q) == "";
    forall k | 0 <= k < |name|
      ensures name[k] != '/'
    {
      assert name[k] in name;
    }
    FileNameTail(q, name);
  }

  /** A slash-free tail extends the last component. */
  lemma {:induction false} FileNameTail(q: string, name: string)
    requires forall k :: 0 <= k < |name| ==> name[k] != '/'
    ensures FileName(q + name) == FileName(q) + name
    decreases |name|
  {
    if |name| > 0 {
      var init := name[..|name| - 1];
      var path := q + name;
      assert path[..|path| - 1] == q + init;
      assert path[|path| - 1] == name[|name| - 1];
      FileNameTail(q, init);
      assert init + [name[|name| - 1]] == name;
    } else {
      assert name == [];
      assert q + name == q;
      assert FileName(q) + name == FileName(q);
    }
  }

  /** Pages named `glossary.md` or `changelog.md` are not read. */
  predicate Excluded(doc: Doc) {
    FileName(doc.relative) in EXCLUDED_FILES
  }

  /** `str(relative_path).replace("\\", "/")` */
  function Display(doc: Doc): string {
    ReplaceChar(doc.relative, '\\', '/')
  }

  // Code removal: `re.sub(r"```[\s\S]*?```", "", text)`, then
  // `re.sub(r"`[^`]+`", "", text)`.

  const FENCE := "```"

  /** Each fenced block, from an opening "```" to the next "```", is
      removed; an opening fence that is never closed is kept with
      everything after it. */
  function StripFences(s: string): (r: string)
    ensures |r| <= |s|
    decreases |s|
  {
    match FindFrom(s, FENCE, 0)
    case None => s
    case Some(i) =>
      match FindFrom(s, FENCE, i + 3)
      case None => s
      case Some(j) => s[..i] + StripFences(s[j + 3..])
  }

  /** No fenced block left: at most one "```", with no other after it. */
  predicate NoBlock(s: string) {
    match FindFrom(s, FENCE, 0)
    case None => true
    case Some(i) => FindFrom(s, FENCE, i + 3).None?
  }

  /** `FindFrom` is determined by the first match from `i` on. */
  lemma {:induction false} FindFromIs(s: string, m: string, i: nat, r: Option<nat>)
    requires i <= |s|
    requires r.None? ==> forall j :: i <= j <= |s| ==> !MatchAt(s, m, j)
    requires r.Some? ==>
      i <= r.value && MatchAt(s, m, r.value) && forall j :: i <= j < r.value ==> !MatchAt(s, m, j)
    ensures FindFrom(s, m, i) == r
    decreases |s| - i
  {
    if !MatchAt(s, m, i) && i < |s| {
      FindFromIs(s, m, i + 1, r);
    }
  }

  lemma MatchShift(p: string, u: string, m: string, k: nat)
    ensures MatchAt(p + u, m, |p| + k) <==> MatchAt(u, m, k)
  {
    if k + |m| <= |u| {
      assert (p + u)[|p| + k..|p| + k + |m|] == u[k..k + |m|];
    }
  }

  /** `p` holds no fence and does not end in a backtick. */
  predicate FenceFree(p: string) {
    (forall k :: 0 <= k <= |p| ==> !MatchAt(p, FENCE, k)) && (p == [] || p[|p| - 1] != '`')
  }

  /** No fence of `p + u` starts inside a fence-free `p`. */
  lemma NoEarlyFence(p: string, u: string, k: nat)
    requires FenceFree(p) && k < |p|
    ensures !MatchAt(p + u, FENCE, k)
  {
    if k + 3 <= |p| {
      assert p[k..k + 3] == (p + u)[k..k + 3];
      assert !MatchAt(p, FENCE, k);
    } else if k + 3 <= |p + u| {
      assert (p + u)[|p| - 1] != '`';
      assert (p + u)[k..k + 3][|p| - 1 - k] == (p + u)[|p| - 1];
      assert FENCE[|p| - 1 - k] == '`';
    }
  }

  function Shifted(r: Option<nat>, n: nat): Option<nat> {
    match r
    case None => None
    case Some(x) => Some(x + n)
  }

  /** Behind any prefix, matches are found where they are in the rest. */
  lemma FindShift(p: string, u: string, m: string, i: nat)
    requires i <= |u|
    ensures FindFrom(p + u, m, |p| + i) == Shifted(FindFrom(u, m, i), |p|)
  {
    var r := FindFrom(u, m, i);
    FindFromFacts(u, m, i);
    if r.None? {
      FindShiftNone(p, u, m, i);
    } else {
      FindShiftSome(p, u, m, i, r.value);
    }
  }

  lemma FindShiftNone(p: string, u: string, m: string, i: nat)
    requires i <= |u|
    requires forall j :: i <= j <= |u| ==> !MatchAt(u, m, j)
    ensures FindFrom(p + u, m, |p| + i) == None
  {
    forall j | |p| + i <= j <= |p + u|
      ensures !MatchAt(p + u, m, j)
    {
      MatchShift(p, u, m, j - |p|);
    }
    FindFromIs(p + u, m, |p| + i, None);
  }

  lemma FindShiftSome(p: string, u: string, m: string, i: nat, x: nat)
    requires i <= x <= |u| && MatchAt(u, m, x)
    requires forall j :: i <= j < x ==> !MatchAt(u, m, j)
    ensures FindFrom(p + u, m, |p| + i) == Some(|p| + x)
  {
    MatchShift(p, u, m, x);
    forall j | |p| + i <= j < |p| + x
      ensures !MatchAt(p + u, m, j)
    {
      MatchShift(p, u, m, j - |p|);
    }
    FindFromIs(p + u, m, |p| + i, Some(|p| + x));
  }

  lemma FindFromStart(p: string, u: string)
    requires FenceFree(p)
    ensures FindFrom(p + u, FENCE, 0) == Shifted(FindFrom(u, FENCE, 0), |p|)
  {
    forall j | 0 <= j < |p|
      ensures !MatchAt(p + u, FENCE, j)
    {
      NoEarlyFence(p, u, j);
    }
    FindShift(p, u, FENCE, 0);
    FindEarly(p + u, FENCE, |p|);
  }

  /** Positions before `k` without a match do not change the search. */
  lemma FindEarly(s: string, m: string, k: nat)
    requires k <= |s|
    requires forall j :: 0 <= j < k ==> !MatchAt(s, m, j)
    ensures FindFrom(s, m, 0) == FindFrom(s, m, k)
  {
    FindFromFacts(s, m, k);
    FindFromIs(s, m, 0, FindFrom(s, m, k));
  }

  /** What comes before the first fence is fence-free. */
  lemma BeforeFirstFence(s: string, i: nat)
    requires FindFrom(s, FENCE, 0) == Some(i)
    ensures FenceFree(s[..i])
  {
    FindFromFacts(s, FENCE, 0);
    forall k | 0 <= k <= i
      ensures !MatchAt(s[..i], FENCE, k)
    {
      if k < i {
        PrefixNoMatch(s, i, k);
      }
    }
    if i > 0 {
      TickBeforeFence(s, i);
    }
  }

  lemma PrefixNoMatch(s: string, i: nat, k: nat)
    requires k <= i <= |s| && !MatchAt(s, FENCE, k)
    ensures !MatchAt(s[..i], FENCE, k)
  {
    if k + 3 <= i {
      assert s[k..k + 3] == s[..i][k..k + 3];
    }
  }

  lemma TickBeforeFence(s: string, i: nat)
    requires 0 < i && MatchAt(s, FENCE, i) && !MatchAt(s, FENCE, i - 1)
    ensures s[i - 1] != '`'
  {
    assert s[i..i + 3] == FENCE;
    assert s[i] == '`' && s[i + 1] == '`';
    assert s[i - 1..i + 2] == [s[i - 1], s[i], s[i + 1]];
  }

  /** A fence-free prefix does not change whether fenced blocks are left. */
  lemma NoBlockAfter(p: string, u: string)
    requires FenceFree(p) && NoBlock(u)
    ensures NoBlock(p + u)
  {
    FindFromStart(p, u);
    var f := FindFrom(u, FENCE, 0);
    if f.Some? {
      NoBlockAfterFence(p, u, f.value);
    }
  }

  lemma NoBlockAfterFence(p: string, u: string, a: nat)
    requires a + 3 <= |u| && FindFrom(u, FENCE, a + 3).None?
    requires FindFrom(p + u, FENCE, 0) == Some(|p| + a)
    ensures NoBlock(p + u)
  {
    FindShift(p, u, FENCE, a + 3);
  }

  /** Removing fenced blocks leaves none. */
  lemma {:induction false} StripFencesNoBlock(s: string)
    ensures NoBlock(StripFences(s))
    decreases |s|
  {
    var f := FindFrom(s, FENCE, 0);
    if f.Some? {
      var i := f.value;
      var g := FindFrom(s, FENCE, i + 3);
      if g.Some? {
        var j := g.value;
        var rest := s[j + 3..];
        assert StripFences(s) == s[..i] + StripFences(rest);
        StripFencesNoBlock(rest);
        BeforeFirstFence(s, i);
        NoBlockAfter(s[..i], StripFences(rest));
      }
    }
  }

  /** Removing fenced blocks a second time changes nothing. */
  lemma FencesIdempotent(s: string)
    ensures StripFences(StripFences(s)) == StripFences(s)
  {
    StripFencesNoBlock(s);
  }

  /** A text without "```" is left alone. */
  lemma FencesAbsent(s: string)
    requires !Contains(s, FENCE)
    ensures StripFences(s) == s
  {
    FindFromFacts(s, FENCE, 0);
    if FindFrom(s, FENCE, 0).Some? {
      var i := FindFrom(s, FENCE, 0).value;
      ContainsAt(s, FENCE, i);
    }
  }

  /** The position of the next backtick from `i` on. */
  function NextTick(s: string, i: nat): (r: Option<nat>)
    requires i <= |s|
    ensures r.Some? ==> i <= r.value < |s| && s[r.value] == '`'
    ensures r.None? ==> '`' !in s[i..]
    decreases |s| - i
  {
    if i == |s| then None
    else if s[i] == '`' then Some(i)
    else
      var r := NextTick(s, i + 1);
      assert s[i..] == [s[i]] + s[i + 1..];
      r
  }

  /** Each inline span, a backtick, at least one other character and the
      next backtick, is removed, scanning from the left. */
  function StripInline(s: string): (r: string)
    ensures |r| <= |s|
    decreases |s|
  {
    if |s| == 0 then s
    else if s[0] != '`' then [s[0]] + StripInline(s[1..])
    else
      match NextTick(s, 1)
      case None => s
      case Some(j) => if j == 1 then [s[0]] + StripInline(s[1..]) else StripInline(s[j + 1..])
  }

  /** Text without a backtick is left alone. */
  lemma {:induction false} InlineAbsent(s: string)
    requires '`' !in s
    ensures StripInline(s) == s
    decreases |s|
  {
    if |s| > 0 {
      assert s[0] in s;
      assert forall c :: c in s[1..] ==> c in s;
      InlineAbsent(s[1..]);
      assert s == [s[0]] + s[1..];
    }
  }

  /** A span after text without backticks is removed and the scan goes on behind it. */
  lemma {:induction false} InlineSpan(a: string, x: string, b: string)
    requires '`' !in a && '`' !in x && |x| > 0
    ensures StripInline(a + "`" + x + "`" + b) == a + StripInline(b)
    decreases |a|
  {
    var s := a + "`" + x + "`" + b;
    if |a| > 0 {
      assert s[0] == a[0];
      assert s[1..] == a[1..] + "`" + x + "`" + b;
      assert forall c :: c in a[1..] ==> c in a;
      InlineSpan(a[1..], x, b);
      assert a == [a[0]] + a[1..];
    } else {
      var j := |x| + 1;
      assert s == "`" + x + "`" + b;
      assert forall k :: 1 <= k < j ==> s[k] == x[k - 1];
      assert s[j] == '`';
      assert NextTick(s, j) == Some(j);
      NextTickFirst(s, 1, j);
      assert s[j + 1..] == b;
    }
  }

  lemma {:induction false} NextTickFirst(s: string, i: nat, j: nat)
    requires i <= j < |s| && s[j] == '`'
    requires forall k :: i <= k < j ==> s[k] != '`'
    ensures NextTick(s, i) == Some(j)
    decreases j - i
  {
    if i < j {
      NextTickFirst(s, i + 1, j);
    }
  }

  /** Code removal as the scanner does it. */
  function Clean(content: string): string {
    StripInline(StripFences(content))
  }

  // Whole-word, case-insensitive search:
  // `re.search(r"\b" + re.escape(w) + r"\b", text, re.IGNORECASE)`.

  /** `\b` at position `p`: a word character on exactly one side. */
  predicate Boundary(t: string, p: nat)
    requires p <= |t|
  {
    (p > 0 && IsWordChar(t[p - 1])) != (p < |t| && IsWordChar(t[p]))
  }

  /** `w` occurs at `p`, ignoring case, with a word boundary on both sides. */
  predicate WordAt(t: string, w: string, p: nat) {
    p + |w| <= |t| && Lower(t[p..p + |w|]) == Lower(w) && Boundary(t, p) && Boundary(t, p + |w|)
  }

  /** The pattern matches somewhere in `t`. */
  predicate Mentions(t: string, w: string) {
    exists p :: 0 <= p <= |t| && WordAt(t, w, p)
  }

  /** The search, trying each position from `p` on. */
  function SearchWord(t: string, w: string, p: nat): bool
    requires p <= |t|
    decreases |t| - p
  {
    WordAt(t, w, p) || (p < |t| && SearchWord(t, w, p + 1))
  }

  lemma {:induction false} SearchWordFrom(t: string, w: string, p: nat)
    requires p <= |t|
    ensures SearchWord(t, w, p) <==> exists q :: p <= q <= |t| && WordAt(t, w, q)
    decreases |t| - p
  {
    if p < |t| {
      SearchWordFrom(t, w, p + 1);
    }
    if !WordAt(t, w, p) && (exists q :: p <= q <= |t| && WordAt(t, w, q)) {
      var q :| p <= q <= |t| && WordAt(t, w, q);
      assert q > p;
    }
  }

  /** The search finds exactly the texts that mention the word. */
  lemma SearchWordIff(t: string, w: string)
    ensures SearchWord(t, w, 0) <==> Mentions(t, w)
  {
    SearchWordFrom(t, w, 0);
  }

  lemma LowerWordChar(c: char)
    ensures IsWordChar(LowerChar(c)) == IsWordChar(c)
  {
  }

  /** Case does not matter on the page either. */
  lemma MentionsCaseBlind(t: string, w: string)
    ensures Mentions(Lower(t), w) <==> Mentions(t, w)
  {
    var lt := Lower(t);
    forall p | 0 <= p <= |t|
      ensures WordAt(lt, w, p) <==> WordAt(t, w, p)
    {
      if p > 0 {
        LowerWordChar(t[p - 1]);
      }
      if p < |t| {
        LowerWordChar(t[p]);
      }
      if p + |w| <= |t| {
        if p + |w| > 0 {
          LowerWordChar(t[p + |w| - 1]);
        }
        if p + |w| < |t| {
          LowerWordChar(t[p + |w|]);
        }
        assert Lower(lt[p..p + |w|]) == Lower(t[p..p + |w|]);
      }
    }
    if Mentions(lt, w) {
      var p :| 0 <= p <= |lt| && WordAt(lt, w, p);
      assert WordAt(t, w, p);
    }
    if Mentions(t, w) {
      var p :| 0 <= p <= |t| && WordAt(t, w, p);
      assert WordAt(lt, w, p);
    }
  }

  /** `name.split("(")[0].strip()`: the name without a parenthetical note. */
  function BaseName(name: string): string {
    Strip(Split(name, '(')[0])
  }

  /** The base name has no parenthetical note and no surrounding whitespace. */
  lemma BaseNameShape(name: string)
    ensures IsStripped(BaseName(name)) && '(' !in BaseName(name)
    ensures '(' !in name && IsStripped(name) ==> BaseName(name) == name
  {
    var head := Split(name, '(')[0];
    StripProperties(head);
    SplitNoSep(name, '(');
    StripNoChar(head, '(');
    if '(' !in name && IsStripped(name) {
      BaseNameOfPlain(name);
    }
  }

  lemma BaseNameOfPlain(name: string)
    requires '(' !in name && IsStripped(name)
    ensures BaseName(name) == name
  {
    SplitPlain(name, '(');
    StripOfStripped(name);
  }

  /** Trimming keeps a character out. */
  lemma StripNoChar(p: string, c: char)
    requires c !in p
    ensures c !in Strip(p)
  {
    var k := StripSlice(p);
    NoCharInSlice(p, k, k + |Strip(p)|, c);
  }

  lemma NoCharInSlice(p: string, a: nat, b: nat, c: char)
    requires a <= b <= |p| && c !in p
    ensures c !in p[a..b]
  {
    forall k | 0 <= k < b - a
      ensures p[a..b][k] != c
    {
      assert p[a..b][k] == p[a + k];
      assert p[a + k] in p;
    }
  }

  // `scan_docs_for_term_usage`

  /** The references found so far, per lowercase term name. */
  type Refs = Dict<string, seq<TermReference>>

  /** `any(r.display_path == d for r in refs)` */
  predicate HasDisplay(refs: seq<TermReference>, d: string) {
    exists i :: 0 <= i < |refs| && refs[i].displayPath == d
  }

  /** The list for a key, `[]` when `references[key]` would be created. */
  function RefsOf(refs: Refs, key: string): seq<TermReference> {
    match Get(refs, key)
    case Some(rs) => rs
    case None => []
  }

  /** Appending `ref` under `key` unless a reference with its display path is there. */
  function AddRef(refs: Refs, key: string, ref: TermReference): Refs {
    var rs := RefsOf(refs, key);
    if HasDisplay(rs, ref.displayPath) then refs else Put(refs, key, rs + [ref])
  }

  /** The term's base name is long enough and found in the cleaned page. */
  predicate Hits(text: string, term: GlossaryTerm) {
    var base := BaseName(term.name);
    |base| >= 2 && SearchWord(text, base, 0)
  }

  /** One pass of the inner loop, over the terms, for a page whose
      reference and cleaned text are `page`. */
  function ScanTerm(page: (TermReference, string), refs: Refs, entry: (string, GlossaryTerm)): Refs {
    if Hits(page.1, entry.1) then AddRef(refs, entry.0, page.0) else refs
  }

  /** The reference a page gets. */
  function PageRef(doc: Doc): TermReference {
    TermReference(doc.file, Display(doc))
  }

  /** One pass of the outer loop, over the pages. */
  function ScanDoc(terms: Dict<string, GlossaryTerm>, refs: Refs, doc: Doc): Refs {
    if Excluded(doc) then refs
    else FoldWith(ScanTerm, (PageRef(doc), Clean(doc.content)), refs, terms)
  }

  /** The references of all pages. */
  function ScanDocs(docs: seq<Doc>, terms: Dict<string, GlossaryTerm>): Refs {
    FoldWith(ScanDoc, terms, [], docs)
  }

  method ScanDocsForTermUsage(docs: seq<Doc>, terms: Dict<string, GlossaryTerm>) returns (references: Refs)
    ensures references == ScanDocs(docs, terms)
  {
    references := [];
    var i := 0;
    while i < |docs|
      invariant 0 <= i <= |docs|
      invariant references == FoldWith(ScanDoc, terms, [], docs[..i])
    {
      FoldWithPrefix(ScanDoc, terms, [], docs, i);
      var doc := docs[i];
      if FileName(doc.relative) !in EXCLUDED_FILES {
        var text := StripFences(doc.content);
        text := StripInline(text);
        references := ScanPage(references, PageRef(doc), text, terms);
      }
      i := i + 1;
    }
    FoldWithWhole(ScanDoc, terms, [], docs);
  }

  /** The loop over the terms for one page. */
  method ScanPage(refs: Refs, ref: TermReference, text: string, terms: Dict<string, GlossaryTerm>)
    returns (references: Refs)
    ensures references == FoldWith(ScanTerm, (ref, text), refs, terms)
  {
    references := refs;
    var k := 0;
    while k < |terms|
      invariant 0 <= k <= |terms|
      invariant references == FoldWith(ScanTerm, (ref, text), refs, terms[..k])
    {
      FoldWithPrefix(ScanTerm, (ref, text), refs, terms, k);
      references := ScanEntry(references, ref, text, terms[k]);
      k := k + 1;
    }
    FoldWithWhole(ScanTerm, (ref, text), refs, terms);
  }

  /** The body of the loop over the terms: one term against one page. */
  method ScanEntry(refs: Refs, ref: TermReference, text: string, entry: (string, GlossaryTerm))
    returns (references: Refs)
    ensures references == ScanTerm((ref, text), refs, entry)
  {
    references := refs;
    var base := BaseName(entry.1.name);
    if |base| >= 2 && SearchWord(text, base, 0) {
      var listed := RefsOf(references, entry.0);
      if !HasDisplay(listed, ref.displayPath) {
        references := Put(references, entry.0, listed + [ref]);
      }
    }
  }

  /** `d` is among the display paths listed under `key`. */
  predicate Listed(refs: Refs, key: string, d: string) {
    HasDisplay(RefsOf(refs, key), d)
  }

  lemma AddRefListed(refs: Refs, key: string, ref: TermReference, k: string, d: string)
    ensures Listed(AddRef(refs, key, ref), k, d) <==> Listed(refs, k, d) || (k == key && d == ref.displayPath)
  {
    var rs := RefsOf(refs, key);
    if !HasDisplay(rs, ref.displayPath) {
      GetPut(refs, key, rs + [ref], k);
      if k == key {
        var ns := rs + [ref];
        assert ns[|rs|].displayPath == ref.displayPath;
        if HasDisplay(ns, d) && d != ref.displayPath {
          var i :| 0 <= i < |ns| && ns[i].displayPath == d;
          assert rs[i] == ns[i];
        }
        if HasDisplay(rs, d) {
          var i :| 0 <= i < |rs| && rs[i].displayPath == d;
          assert ns[i] == rs[i];
        }
      }
    }
  }

  /** A term whose base name a page mentions, and the page is read. */
  predicate Uses(doc: Doc, term: GlossaryTerm) {
    var base := BaseName(term.name);
    !Excluded(doc) && |base| >= 2 && Mentions(Clean(doc.content), base)
  }

  /** Some term with key `k` is hit by the page text. */
  predicate AnyHit(text: string, terms: Dict<string, GlossaryTerm>, k: string) {
    |terms| > 0 &&
    (AnyHit(text, terms[..|terms| - 1], k) || (terms[|terms| - 1].0 == k && Hits(text, terms[|terms| - 1].1)))
  }

  lemma {:induction false} AnyHitIff(text: string, terms: Dict<string, GlossaryTerm>, k: string)
    ensures AnyHit(text, terms, k) <==> exists j :: 0 <= j < |terms| && terms[j].0 == k && Hits(text, terms[j].1)
    decreases |terms|
  {
    if |terms| > 0 {
      var init := terms[..|terms| - 1];
      AnyHitIff(text, init, k);
      assert forall j :: 0 <= j < |init| ==> init[j] == terms[j];
      if exists j :: 0 <= j < |terms| && terms[j].0 == k && Hits(text, terms[j].1) {
        var j :| 0 <= j < |terms| && terms[j].0 == k && Hits(text, terms[j].1);
        assert j < |init| || j == |terms| - 1;
      }
    }
  }

  lemma {:induction false} ScanTermsListed(page: (TermReference, string), refs: Refs,
                                           terms: Dict<string, GlossaryTerm>, k: string, d: string)
    ensures Listed(FoldWith(ScanTerm, page, refs, terms), k, d) <==>
      Listed(refs, k, d) || (d == page.0.displayPath && AnyHit(page.1, terms, k))
    decreases |terms|
  {
    if |terms| > 0 {
      var init := terms[..|terms| - 1];
      var last := terms[|terms| - 1];
      var before := FoldWith(ScanTerm, page, refs, init);
      assert FoldWith(ScanTerm, page, refs, terms) == ScanTerm(page, before, last);
      ScanTermsListed(page, refs, init, k, d);
      if Hits(page.1, last.1) {
        AddRefListed(before, last.0, page.0, k, d);
      }
    }
  }

  /** Some read page with display path `d` uses a term with key `k`. */
  predicate AnyUse(docs: seq<Doc>, terms: Dict<string, GlossaryTerm>, k: string, d: string) {
    |docs| > 0 &&
    (AnyUse(docs[..|docs| - 1], terms, k, d) ||
     (var doc := docs[|docs| - 1]; !Excluded(doc) && Display(doc) == d && AnyHit(Clean(doc.content), terms, k)))
  }

  lemma {:induction false} ScanDocsAnyUse(docs: seq<Doc>, terms: Dict<string, GlossaryTerm>, k: string, d: string)
    ensures Listed(ScanDocs(docs, terms), k, d) <==> AnyUse(docs, terms, k, d)
    decreases |docs|
  {
    if |docs| > 0 {
      var init := docs[..|docs| - 1];
      var doc := docs[|docs| - 1];
      assert ScanDocs(docs, terms) == ScanDoc(terms, ScanDocs(init, terms), doc);
      ScanDocsAnyUse(init, terms, k, d);
      if !Excluded(doc) {
        ScanTermsListed((PageRef(doc), Clean(doc.content)), ScanDocs(init, terms), terms, k, d);
      }
    } else {
      assert !HasDisplay([], d);
    }
  }

  /** Page `doc`, shown as `d`, is read and mentions a term with key `k`. */
  predicate PageUses(doc: Doc, terms: Dict<string, GlossaryTerm>, k: string, d: string) {
    exists j :: 0 <= j < |terms| && Display(doc) == d && terms[j].0 == k && Uses(doc, terms[j].1)
  }

  lemma PageUsesIff(doc: Doc, terms: Dict<string, GlossaryTerm>, k: string, d: string)
    ensures (!Excluded(doc) && Display(doc) == d && AnyHit(Clean(doc.content), terms, k)) <==> PageUses(doc, terms, k, d)
  {
    AnyHitIff(Clean(doc.content), terms, k);
    forall j | 0 <= j < |terms|
      ensures Hits(Clean(doc.content), terms[j].1) <==> |BaseName(terms[j].1.name)| >= 2 && Mentions(Clean(doc.content), BaseName(terms[j].1.name))
    {
      SearchWordIff(Clean(doc.content), BaseName(terms[j].1.name));
    }
  }

  lemma {:induction false} AnyUseIff(docs: seq<Doc>, terms: Dict<string, GlossaryTerm>, k: string, d: string)
    ensures AnyUse(docs, terms, k, d) <==> exists i :: 0 <= i < |docs| && PageUses(docs[i], terms, k, d)
    decreases |docs|
  {
    if |docs| > 0 {
      var init := docs[..|docs| - 1];
      AnyUseIff(init, terms, k, d);
      PageUsesIff(docs[|docs| - 1], terms, k, d);
      assert forall i :: 0 <= i < |init| ==> init[i] == docs[i];
      if exists i :: 0 <= i < |docs| && PageUses(docs[i], terms, k, d) {
        var i :| 0 <= i < |docs| && PageUses(docs[i], terms, k, d);
        assert i < |init| || i == |docs| - 1;
      }
    }
  }

  /** A page's display path is listed under a key exactly when a page
      with that display path is read and mentions a term with that key. */
  lemma ScanDocsListed(docs: seq<Doc>, terms: Dict<string, GlossaryTerm>, k: string, d: string)
    ensures Listed(ScanDocs(docs, terms), k, d) <==>
      exists i, j :: 0 <= i < |docs| && 0 <= j < |terms| &&
        Display(docs[i]) == d && terms[j].0 == k && Uses(docs[i], terms[j].1)
  {
    ScanDocsAnyUse(docs, terms, k, d);
    AnyUseIff(docs, terms, k, d);
    if exists i, j :: 0 <= i < |docs| && 0 <= j < |terms| &&
        Display(docs[i]) == d && terms[j].0 == k && Uses(docs[i], terms[j].1) {
      var i, j :| 0 <= i < |docs| && 0 <= j < |terms| &&
        Display(docs[i]) == d && terms[j].0 == k && Uses(docs[i], terms[j].1);
      assert PageUses(docs[i], terms, k, d);
    }
  }

  /** No display path twice in one list. */
  predicate DistinctDisplays(rs: seq<TermReference>) {
    forall a, b :: 0 <= a < b < |rs| ==> rs[a].displayPath != rs[b].displayPath
  }

  /** Every list is non-empty and has each display path at most once. */
  predicate GoodRefs(refs: Refs) {
    UniqueKeys(refs) && GoodLists(refs)
  }

  predicate GoodLists(refs: Refs)
    decreases |refs|
  {
    |refs| == 0 || (|refs[0].1| > 0 && DistinctDisplays(refs[0].1) && GoodLists(refs[1..]))
  }

  lemma AddRefGood(refs: Refs, key: string, ref: TermReference)
    requires GoodRefs(refs)
    ensures GoodRefs(AddRef(refs, key, ref))
  {
    var rs := RefsOf(refs, key);
    if !HasDisplay(rs, ref.displayPath) {
      RefsOfGood(refs, key);
      AppendDistinct(rs, ref);
      PutUnique(refs, key, rs + [ref]);
      PutGoodLists(refs, key, rs + [ref]);
    }
  }

  /** The list under any key has distinct display paths. */
  lemma {:induction false} RefsOfGood(refs: Refs, key: string)
    requires GoodLists(refs)
    ensures DistinctDisplays(RefsOf(refs, key))
    decreases |refs|
  {
    if |refs| > 0 && refs[0].0 != key {
      RefsOfGood(refs[1..], key);
    }
  }

  lemma AppendDistinct(rs: seq<TermReference>, ref: TermReference)
    requires DistinctDisplays(rs) && !HasDisplay(rs, ref.displayPath)
    ensures DistinctDisplays(rs + [ref])
  {
    var ns := rs + [ref];
    forall a, b | 0 <= a < b < |ns|
      ensures ns[a].displayPath != ns[b].displayPath
    {
      if b == |rs| {
        assert ns[a] == rs[a];
      }
    }
  }

  lemma {:induction false} PutGoodLists(refs: Refs, key: string, ns: seq<TermReference>)
    requires GoodLists(refs) && |ns| > 0 && DistinctDisplays(ns)
    ensures GoodLists(Put(refs, key, ns))
    decreases |refs|
  {
    if |refs| > 0 {
      var r := Put(refs, key, ns);
      if refs[0].0 == key {
        assert r == [(key, ns)] + refs[1..];
        assert r[1..] == refs[1..];
      } else {
        PutGoodLists(refs[1..], key, ns);
        assert r == [refs[0]] + Put(refs[1..], key, ns);
        assert r[1..] == Put(refs[1..], key, ns);
      }
    }
  }

  lemma {:induction false} ScanTermsGood(page: (TermReference, string), refs: Refs, terms: Dict<string, GlossaryTerm>)
    requires GoodRefs(refs)
    ensures GoodRefs(FoldWith(ScanTerm, page, refs, terms))
    decreases |terms|
  {
    if |terms| > 0 {
      var init := terms[..|terms| - 1];
      var last := terms[|terms| - 1];
      ScanTermsGood(page, refs, init);
      if Hits(page.1, last.1) {
        AddRefGood(FoldWith(ScanTerm, page, refs, init), last.0, page.0);
      }
    }
  }

  /** Every term's list is non-empty, has no display path twice, and
      there is one list per key. */
  lemma {:induction false} ScanDocsGood(docs: seq<Doc>, terms: Dict<string, GlossaryTerm>)
    ensures GoodRefs(ScanDocs(docs, terms))
    decreases |docs|
  {
    if |docs| > 0 {
      var init := docs[..|docs| - 1];
      var doc := docs[|docs| - 1];
      ScanDocsGood(init, terms);
      if !Excluded(doc) {
        ScanTermsGood((PageRef(doc), Clean(doc.content)), ScanDocs(init, terms), terms);
      }
    }
  }

  // `detect_candidate_terms`: `re.finditer(r"\*\*([A-Z][A-Za-z0-9 /\-()]+)\*\*", text)`.

  /** `[A-Za-z0-9 /\-()]` */
  predicate BoldChar(c: char) {
    ('A' <= c <= 'Z') || ('a' <= c <= 'z') || ('0' <= c <= '9') || c == ' ' || c == '/' || c == '-' || c == '(' || c == ')'
  }

  /** How many characters of the class follow position `i`. */
  function ClassRun(s: string, i: nat): (n: nat)
    requires i <= |s|
    ensures i + n <= |s|
    decreases |s| - i
  {
    if i < |s| && BoldChar(s[i]) then 1 + ClassRun(s, i + 1) else 0
  }

  /** Where the captured group ends when the pattern matches at `p`. The
      class holds no '*', so the greedy run is the only way to match. */
  function BoldAt(s: string, p: nat): (r: Option<nat>)
    requires p <= |s|
    ensures r.Some? ==> p + 4 <= r.value && r.value + 2 <= |s|
  {
    if p + 3 <= |s| && s[p] == '*' && s[p + 1] == '*' && IsUpper(s[p + 2]) then
      var e := p + 3 + ClassRun(s, p + 3);
      if e > p + 3 && e + 2 <= |s| && s[e] == '*' && s[e + 1] == '*' then Some(e) else None
    else None
  }

  /** The captured groups of the matches from position `p` on, left to right, not overlapping. */
  function BoldSpans(s: string, p: nat): seq<string>
    requires p <= |s|
    decreases |s| - p
  {
    if p == |s| then []
    else
      match BoldAt(s, p)
      case Some(e) => [s[p + 2..e]] + BoldSpans(s, e + 2)
      case None => BoldSpans(s, p + 1)
  }

  /** A captured group: a capital, then at least one more character of the class. */
  predicate BoldShape(t: string) {
    |t| >= 2 && IsUpper(t[0]) && forall i :: 0 <= i < |t| ==> BoldChar(t[i])
  }

  lemma {:induction false} ClassRunChars(s: string, i: nat)
    requires i <= |s|
    ensures forall k :: i <= k < i + ClassRun(s, i) ==> BoldChar(s[k])
    decreases |s| - i
  {
    if i < |s| && BoldChar(s[i]) {
      ClassRunChars(s, i + 1);
    }
  }

  /** Every captured group has the shape of the pattern. */
  lemma {:induction false} BoldSpansShape(s: string, p: nat)
    requires p <= |s|
    ensures forall t :: t in BoldSpans(s, p) ==> BoldShape(t)
    decreases |s| - p
  {
    if p < |s| {
      match BoldAt(s, p)
      case Some(e) =>
        BoldSpansShape(s, e + 2);
        ClassRunChars(s, p + 3);
        var t := s[p + 2..e];
        assert forall i :: 0 <= i < |t| ==> t[i] == s[p + 2 + i];
      case None =>
        BoldSpansShape(s, p + 1);
    }
  }

  /** Trimming a captured group keeps its shape's characters. */
  lemma StripKeepsClass(t: string)
    requires forall i :: 0 <= i < |t| ==> BoldChar(t[i])
    ensures forall i :: 0 <= i < |Strip(t)| ==> BoldChar(Strip(t)[i])
  {
    var k := StripSlice(t);
    var r := Strip(t);
    forall i | 0 <= i < |r|
      ensures BoldChar(r[i])
    {
      assert r[i] == t[k + i];
    }
  }

  const SKIP_PREFIXES: seq<string> := ["Version", "Note", "Warning", "Important"]

  /** `term.startswith(("Version", "Note", "Warning", "Important"))` */
  predicate SkippedPrefix(term: string) {
    exists i :: 0 <= i < |SKIP_PREFIXES| && StartsWith(term, SKIP_PREFIXES[i])
  }

  /** The filters a trimmed group passes to be counted. */
  predicate Candidate(term: string, known: set<string>) {
    |term| >= 3 && Lower(term) !in known && !SkippedPrefix(term) && ':' !in term
  }

  /** The test for ':' never rejects anything: the pattern admits no ':'. */
  lemma ColonNeverSeen(s: string, t: string)
    requires t in BoldSpans(s, 0)
    ensures ':' !in Strip(t)
  {
    BoldSpansShape(s, 0);
    StripKeepsClass(t);
  }

  /** `candidates[term] += 1` on a `defaultdict(int)` */
  function Bump(counts: Dict<string, int>, term: string): Dict<string, int> {
    Put(counts, term, CountOf(counts, term) + 1)
  }

  /** `counts.get(t, 0)` */
  function CountOf(counts: Dict<string, int>, t: string): int {
    match Get(counts, t)
    case Some(v) => v
    case None => 0
  }

  /** One pass of the loop over the matches of a page. */
  function CountSpan(known: set<string>, counts: Dict<string, int>, span: string): Dict<string, int> {
    var term := Strip(span);
    if Candidate(term, known) then Bump(counts, term) else counts
  }

  /** One pass of the loop over the pages. */
  function CountDoc(known: set<string>, counts: Dict<string, int>, doc: Doc): Dict<string, int> {
    if Excluded(doc) then counts
    else FoldWith(CountSpan, known, counts, BoldSpans(StripFences(doc.content), 0))
  }

  /** `{k: v for k, v in candidates.items() if v >= 3}` */
  function AtLeastThree(counts: Dict<string, int>): (r: Dict<string, int>)
  {
    if |counts| == 0 then []
    else
      var rest := AtLeastThree(counts[..|counts| - 1]);
      if counts[|counts| - 1].1 >= 3 then rest + [counts[|counts| - 1]] else rest
  }

  /** What `detect_candidate_terms` returns. */
  function DetectCandidates(docs: seq<Doc>, known: set<string>): Dict<string, int> {
    AtLeastThree(FoldWith(CountDoc, known, [], docs))
  }

  method DetectCandidateTerms(docs: seq<Doc>, known: set<string>) returns (result: Dict<string, int>)
    ensures result == DetectCandidates(docs, known)
  {
    var candidates: Dict<string, int> := [];
    var i := 0;
    while i < |docs|
      invariant 0 <= i <= |docs|
      invariant candidates == FoldWith(CountDoc, known, [], docs[..i])
    {
      FoldWithPrefix(CountDoc, known, [], docs, i);
      var doc := docs[i];
      if FileName(doc.relative) !in EXCLUDED_FILES {
        candidates := CountPage(candidates, known, BoldSpans(StripFences(doc.content), 0));
      }
      i := i + 1;
    }
    FoldWithWhole(CountDoc, known, [], docs);
    result := AtLeastThree(candidates);
  }

  /** The loop over the matches of one page. */
  method CountPage(counts: Dict<string, int>, known: set<string>, spans: seq<string>) returns (r: Dict<string, int>)
    ensures r == FoldWith(CountSpan, known, counts, spans)
  {
    r := counts;
    var k := 0;
    while k < |spans|
      invariant 0 <= k <= |spans|
      invariant r == FoldWith(CountSpan, known, counts, spans[..k])
    {
      FoldWithPrefix(CountSpan, known, counts, spans, k);
      r := CountMatch(r, known, spans[k]);
      k := k + 1;
    }
    FoldWithWhole(CountSpan, known, counts, spans);
  }

  /** The body of the loop over the matches: one bold group. */
  method CountMatch(counts: Dict<string, int>, known: set<string>, span: string) returns (r: Dict<string, int>)
    ensures r == CountSpan(known, counts, span)
  {
    r := counts;
    var term := Strip(span);
    if Candidate(term, known) {
      r := Bump(r, term);
    }
  }

  /** The trimmed groups of a page that pass the filters, in order. */
  function Found(known: set<string>, spans: seq<string>): (r: seq<string>)
    ensures forall t :: t in r ==> Candidate(t, known)
  {
    if |spans| == 0 then []
    else
      var rest := Found(known, spans[..|spans| - 1]);
      var term := Strip(spans[|spans| - 1]);
      if Candidate(term, known) then rest + [term] else rest
  }

  /** Every counted match of every page read, in order. */
  function Matches(docs: seq<Doc>, known: set<string>): (r: seq<string>)
    ensures forall t :: t in r ==> Candidate(t, known)
  {
    if |docs| == 0 then []
    else
      var doc := docs[|docs| - 1];
      Matches(docs[..|docs| - 1], known) +
        (if Excluded(doc) then [] else Found(known, BoldSpans(StripFences(doc.content), 0)))
  }

  /** A well-formed tally: one entry per term, every count positive. */
  predicate Tally(counts: Dict<string, int>) {
    UniqueKeys(counts) && Positive(counts)
  }

  /** Every count is at least one. */
  predicate Positive(counts: Dict<string, int>)
    decreases |counts|
  {
    |counts| == 0 || (counts[0].1 >= 1 && Positive(counts[1..]))
  }

  /** A tally with one more entry at the end is positive exactly when both parts are. */
  lemma {:induction false} PositiveSnoc(counts: Dict<string, int>, e: (string, int))
    ensures Positive(counts + [e]) <==> Positive(counts) && e.1 >= 1
    decreases |counts|
  {
    if |counts| > 0 {
      assert (counts + [e])[1..] == counts[1..] + [e];
      PositiveSnoc(counts[1..], e);
    } else {
      assert ([] + [e])[1..] == [];
    }
  }

  lemma BumpCount(counts: Dict<string, int>, term: string, t: string)
    ensures CountOf(Bump(counts, term), t) == CountOf(counts, t) + (if t == term then 1 else 0)
  {
    GetPut(counts, term, CountOf(counts, term) + 1, t);
  }

  /** A listed term has a positive count. */
  lemma {:induction false} CountOfPositive(counts: Dict<string, int>, t: string)
    requires Positive(counts)
    ensures Get(counts, t).Some? ==> CountOf(counts, t) >= 1
    decreases |counts|
  {
    if |counts| > 0 && counts[0].0 != t {
      CountOfPositive(counts[1..], t);
    }
  }

  lemma {:induction false} PutPositive(counts: Dict<string, int>, term: string, n: int)
    requires Positive(counts) && n >= 1
    ensures Positive(Put(counts, term, n))
    decreases |counts|
  {
    if |counts| > 0 {
      var r := Put(counts, term, n);
      if counts[0].0 == term {
        assert r == [(term, n)] + counts[1..];
        assert r[1..] == counts[1..];
      } else {
        PutPositive(counts[1..], term, n);
        assert r == [counts[0]] + Put(counts[1..], term, n);
        assert r[1..] == Put(counts[1..], term, n);
      }
    }
  }

  lemma BumpTally(counts: Dict<string, int>, term: string)
    requires Tally(counts)
    ensures Tally(Bump(counts, term))
  {
    var n := CountOf(counts, term);
    CountOfPositive(counts, term);
    PutUnique(counts, term, n + 1);
    PutPositive(counts, term, n + 1);
  }

  /** A term missing from a tally has count 0 and a listed one a positive count. */
  lemma TallyCount(counts: Dict<string, int>, t: string)
    requires Tally(counts)
    ensures Get(counts, t).None? <==> CountOf(counts, t) == 0
  {
    CountOfPositive(counts, t);
  }

  lemma {:induction false} CountSpansOf(known: set<string>, counts: Dict<string, int>, spans: seq<string>, t: string)
    requires Tally(counts)
    ensures Tally(FoldWith(CountSpan, known, counts, spans))
    ensures CountOf(FoldWith(CountSpan, known, counts, spans), t) == CountOf(counts, t) + multiset(Found(known, spans))[t]
    decreases |spans|
  {
    if |spans| > 0 {
      var init := spans[..|spans| - 1];
      var before := FoldWith(CountSpan, known, counts, init);
      CountSpansOf(known, counts, init, t);
      var term := Strip(spans[|spans| - 1]);
      if Candidate(term, known) {
        BumpTally(before, term);
        BumpCount(before, term, t);
      }
    }
  }

  lemma {:induction false} CountDocsOf(docs: seq<Doc>, known: set<string>, t: string)
    ensures Tally(FoldWith(CountDoc, known, [], docs))
    ensures CountOf(FoldWith(CountDoc, known, [], docs), t) == multiset(Matches(docs, known))[t]
    decreases |docs|
  {
    if |docs| > 0 {
      var init := docs[..|docs| - 1];
      var doc := docs[|docs| - 1];
      CountDocsOf(init, known, t);
      if !Excluded(doc) {
        CountSpansOf(known, FoldWith(CountDoc, known, [], init), BoldSpans(StripFences(doc.content), 0), t);
      }
    }
  }

  lemma {:induction false} AtLeastThreeGet(counts: Dict<string, int>, t: string)
    requires Tally(counts)
    ensures Get(AtLeastThree(counts), t) == if CountOf(counts, t) >= 3 then Some(CountOf(counts, t)) else None
    decreases |counts|
  {
    if |counts| > 0 {
      var init := counts[..|counts| - 1];
      var last := counts[|counts| - 1];
      assert counts == init + [last];
      PositiveSnoc(init, last);
      AtLeastThreeGet(init, t);
      TallyCount(init, t);
      GetSnoc(init, last, t);
      if last.1 >= 3 {
        GetSnoc(AtLeastThree(init), last, t);
      }
      if last.0 == t {
        KeysNotIn(counts, t);
      }
    }
  }

  /** Looking up a key in a dictionary with one more entry at the end. */
  lemma {:induction false} GetSnoc<V>(d: Dict<string, V>, e: (string, V), k: string)
    ensures Get(d + [e], k) == if Get(d, k).Some? then Get(d, k) else if e.0 == k then Some(e.1) else None
    decreases |d|
  {
    if |d| > 0 {
      assert (d + [e])[1..] == d[1..] + [e];
      GetSnoc(d[1..], e, k);
    } else {
      assert [e][1..] == [];
    }
  }

  /** With unique keys, the last entry's key is not among the earlier ones. */
  lemma KeysNotIn(counts: Dict<string, int>, t: string)
    requires UniqueKeys(counts) && |counts| > 0 && counts[|counts| - 1].0 == t
    ensures Get(counts[..|counts| - 1], t).None?
  {
    var init := counts[..|counts| - 1];
    assert forall i :: 0 <= i < |init| ==> Keys(init)[i] == counts[i].0 != t;
  }

  /** A phrase is returned, with its number of matches, exactly when it
      passes the filters at least three times over all pages read; the
      count is of matches, so three matches on one page suffice. */
  lemma DetectCandidatesGet(docs: seq<Doc>, known: set<string>, t: string)
    ensures var m := multiset(Matches(docs, known))[t];
      Get(DetectCandidates(docs, known), t) == if m >= 3 then Some(m) else None
  {
    CountDocsOf(docs, known, t);
    AtLeastThreeGet(FoldWith(CountDoc, known, [], docs), t);
  }

  /** Every returned phrase passes the filters. */
  lemma DetectCandidatesFiltered(docs: seq<Doc>, known: set<string>, t: string)
    requires Get(DetectCandidates(docs, known), t).Some?
    ensures Candidate(t, known)
  {
    var ms := Matches(docs, known);
    DetectCandidatesGet(docs, known, t);
    CountedIsIn(ms, t);
  }

  lemma CountedIsIn(ms: seq<string>, t: string)
    requires multiset(ms)[t] > 0
    ensures t in ms
  {
  }
}
