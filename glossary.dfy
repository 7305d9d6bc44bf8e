/** Vocabulary shared by the parts of the glossary builder
    (`scripts/generate_glossary.py`): its records, its reserved names, the
    line patterns both parsers test, and the clean-up applied to a parsed
    definition. Patterns are Python `re` patterns matched against one line
    of the file (lines hold no '\n'), with ASCII character classes. */
module Glossary {
  import opened Wrappers
  import opened Text

  /** One glossary entry: its heading, its text and its letter section. */
  datatype GlossaryTerm = GlossaryTerm(name: string, definition: string, section: string)

  /** A document that uses a term: the path read and the path shown. */
  datatype TermReference = TermReference(filePath: string, displayPath: string)

  /** Documentation files the scanners never read. */
  const EXCLUDED_FILES: set<string> := {"glossary.md", "changelog.md"}

  /** Headings of the glossary sections that hold no terms. */
  const NON_TERM_SECTIONS: set<string> := {"Metadata Tags Reference", "Common Abbreviations", "Tool Names Quick Reference"}

  /** `line.strip() == "---"` */
  predicate IsRule(line: string) {
    Strip(line) == "---"
  }

  /** `re.match(r"^## ([A-Z])$", line.strip())`: the letter of a section heading. */
  function LetterHeader(line: string): Option<char> {
    var st := Strip(line);
    if |st| == 4 && st[..3] == "## " && IsUpper(st[3]) then Some(st[3]) else None
  }

  /** `re.match(r"^## (.+)$", line.strip())`: the text after `## `. */
  function H2Name(line: string): Option<string> {
    var st := Strip(line);
    if |st| >= 4 && st[..3] == "## " then Some(st[3..]) else None
  }

  /** `re.match(r"^### (.+)$", line.strip())`: the text after `### `. */
  function H3Name(line: string): Option<string> {
    var st := Strip(line);
    if |st| >= 5 && st[..4] == "### " then Some(st[4..]) else None
  }

  /** `re.match(r"^[A-Z]$", name)` */
  predicate IsLetter(name: string) {
    |name| == 1 && IsUpper(name[0])
  }

  /** A line that is no `## ` or `### ` heading. */
  predicate PlainLine(line: string) {
    H2Name(line).None? && H3Name(line).None?
  }

  /** A letter heading is also a `## ` heading, whose name is the letter. */
  lemma LetterIsH2(line: string)
    requires LetterHeader(line).Some?
    ensures H2Name(line) == Some([LetterHeader(line).value])
  {
    var st := Strip(line);
    assert st[3..] == [st[3]];
  }

  /** `w` starts with `---`. */
  predicate Dashes(w: string) {
    |w| >= 3 && w[0] == '-' && w[1] == '-' && w[2] == '-'
  }

  /** How many whitespace characters `u` starts with. */
  function LeadSpace(u: string): (n: nat)
    ensures n <= |u|
    decreases |u|
  {
    if |u| > 0 && IsSpace(u[0]) then 1 + LeadSpace(u[1..]) else 0
  }

  /** How many '\n' characters `u` starts with. */
  function LeadNewlines(u: string): (n: nat)
    ensures n <= |u|
    decreases |u|
  {
    if |u| > 0 && u[0] == '\n' then 1 + LeadNewlines(u[1..]) else 0
  }

  /** `u` matches `(\s*---)*\s*` up to its end: rules separated by whitespace. */
  predicate RuleTail(u: string)
    decreases |u|
  {
    var n := LeadSpace(u);
    n == |u| || (Dashes(u[n..]) && RuleTail(u[n + 3..]))
  }

  /** `s` matches `(\n*---\s*)+` up to its end: a run of horizontal rules. */
  predicate RuleRun(s: string) {
    var n := LeadNewlines(s);
    Dashes(s[n..]) && RuleTail(s[n + 3..])
  }

  /** The first position from `k` on where a run of rules starts and lasts
      to the end of `d`, or the end of `d`: where
      `re.sub(r"(\n*---\s*)+$", "", d)` cuts. */
  function RuleCut(d: string, k: nat): (r: nat)
    requires k <= |d|
    ensures k <= r <= |d|
    decreases |d| - k
  {
    if k == |d| || RuleRun(d[k..]) then k else RuleCut(d, k + 1)
  }

  /** The cut is at the end or where a run of rules starts ... */
  lemma {:induction false} RuleCutAtRun(d: string, k: nat)
    requires k <= |d|
    ensures RuleCut(d, k) == |d| || RuleRun(d[RuleCut(d, k)..])
    decreases |d| - k
  {
    if !(k == |d| || RuleRun(d[k..])) {
      RuleCutAtRun(d, k + 1);
    }
  }

  /** ... and no run of rules lasting to the end starts before it. */
  lemma {:induction false} RuleCutFirst(d: string, k: nat, j: nat)
    requires k <= |d| && k <= j < RuleCut(d, k)
    ensures !RuleRun(d[j..])
    decreases |d| - k
  {
    if j > k {
      RuleCutFirst(d, k + 1, j);
    }
  }

  /** `re.sub(r"(\n*---\s*)+$", "", d)` */
  function TrimRules(d: string): string {
    d[..RuleCut(d, 0)]
  }

  /** How a parsed definition is cleaned: stripped, a trailing run of
      rules removed, stripped again. */
  function Normalize(text: string): string {
    Strip(TrimRules(Strip(text)))
  }

  /** The definition saved for the lines collected under a term. */
  function Definition(body: seq<string>): string {
    Normalize(JoinLines(body))
  }

  /** No suffix of `s` is a run of rules. */
  predicate NoRuleSuffix(s: string) {
    forall k :: 0 <= k < |s| ==> !RuleRun(s[k..])
  }

  /** The shape of every parsed definition. */
  predicate Normalized(s: string) {
    IsStripped(s) && NoRuleSuffix(s)
  }

  // Rule runs: how they end and how they combine.

  lemma {:induction false} LeadSpaceFacts(u: string)
    ensures AllSpace(u[..LeadSpace(u)])
    ensures LeadSpace(u) == |u| || !IsSpace(u[LeadSpace(u)])
    decreases |u|
  {
    if |u| > 0 && IsSpace(u[0]) {
      LeadSpaceFacts(u[1..]);
      assert u[..LeadSpace(u)] == [u[0]] + u[1..][..LeadSpace(u[1..])];
    }
  }

  lemma {:induction false} LeadNewlinesFacts(u: string)
    ensures forall i :: 0 <= i < LeadNewlines(u) ==> u[i] == '\n'
    ensures LeadNewlines(u) == |u| || u[LeadNewlines(u)] != '\n'
    decreases |u|
  {
    if |u| > 0 && u[0] == '\n' {
      LeadNewlinesFacts(u[1..]);
      assert forall i :: 1 <= i < LeadNewlines(u) ==> u[i] == u[1..][i - 1];
    }
  }

  lemma {:induction false} LeadSpacePrefix(a: string, z: string)
    requires AllSpace(a)
    ensures LeadSpace(a + z) == |a| + LeadSpace(z)
    decreases |a|
  {
    if |a| > 0 {
      DropConcat(a, z, 1);
      LeadSpacePrefix(a[1..], z);
    } else {
      assert a + z == z;
    }
  }

  lemma {:induction false} LeadNewlinesPrefix(a: string, z: string)
    requires forall i :: 0 <= i < |a| ==> a[i] == '\n'
    ensures LeadNewlines(a + z) == |a| + LeadNewlines(z)
    decreases |a|
  {
    if |a| > 0 {
      DropConcat(a, z, 1);
      LeadNewlinesPrefix(a[1..], z);
    } else {
      assert a + z == z;
    }
  }

  lemma DropConcat(a: string, b: string, k: nat)
    requires k <= |a|
    ensures (a + b)[k..] == a[k..] + b
  {
  }

  lemma DropConcatRight(a: string, b: string, k: nat)
    requires |a| <= k <= |a| + |b|
    ensures (a + b)[k..] == b[k - |a|..]
  {
  }

  lemma SliceSplit(d: string, i: nat, j: nat)
    requires i <= j <= |d|
    ensures d[i..] == d[i..j] + d[j..]
  {
  }

  lemma {:induction false} RuleTailEnd(u: string)
    requires RuleTail(u)
    ensures u == [] || u[|u| - 1] == '-' || IsSpace(u[|u| - 1])
    decreases |u|
  {
    var n := LeadSpace(u);
    LeadSpaceFacts(u);
    if n == |u| {
      assert u[..n] == u;
    } else {
      RuleTailEnd(u[n + 3..]);
      if n + 3 < |u| {
        assert u[|u| - 1] == u[n + 3..][|u| - n - 4];
      } else {
        assert u[|u| - 1] == u[n..][2];
      }
    }
  }

  /** A run of rules ends with a dash or with whitespace. */
  lemma RuleRunEnd(s: string)
    ensures RuleRun(s) ==> |s| > 0 && (s[|s| - 1] == '-' || IsSpace(s[|s| - 1]))
  {
    if RuleRun(s) {
      var n := LeadNewlines(s);
      RuleTailEnd(s[n + 3..]);
      if n + 3 < |s| {
        assert s[|s| - 1] == s[n + 3..][|s| - n - 4];
      } else {
        assert s[|s| - 1] == s[n..][2];
      }
    }
  }

  /** A text ending in neither a dash nor whitespace has no trailing rules. */
  lemma NoRuleSuffixByLast(s: string)
    requires |s| > 0 && s[|s| - 1] != '-' && !IsSpace(s[|s| - 1])
    ensures NoRuleSuffix(s)
  {
    forall k | 0 <= k < |s|
      ensures !RuleRun(s[k..])
    {
      assert s[k..][|s[k..]| - 1] == s[|s| - 1];
      RuleRunEnd(s[k..]);
    }
  }

  lemma TailOfSpace(s: string)
    requires AllSpace(s)
    ensures RuleTail(s)
  {
    LeadSpacePrefix(s, []);
    assert s + [] == s;
  }

  lemma SpaceThenNewlines(sp: string, y: string, m: nat)
    requires AllSpace(sp) && m <= |y|
    requires forall i :: 0 <= i < m ==> y[i] == '\n'
    ensures AllSpace(sp + y[..m])
  {
  }

  /** Whitespace followed by a run of rules is a rule tail. */
  lemma TailOfRun(sp: string, y: string)
    requires AllSpace(sp) && RuleRun(y)
    ensures RuleTail(sp + y)
  {
    var m := LeadNewlines(y);
    LeadNewlinesFacts(y);
    var pre := sp + y[..m];
    var v := y[m..];
    SpaceThenNewlines(sp, y, m);
    assert y[..m] + y[m..] == y;
    ConcatAssoc(sp, y[..m], v);
    SliceOfSlice(y, m, |y|, 3);
    SpaceRuleTail(pre, v);
  }

  /** Whitespace in front of a rule tail keeps it one. */
  lemma SpaceThenTail(p: string, z: string)
    requires AllSpace(p) && RuleTail(z)
    ensures RuleTail(p + z)
  {
    var nz := LeadSpace(z);
    LeadSpacePrefix(p, z);
    DropConcatRight(p, z, |p| + nz);
    if nz < |z| {
      DropConcatRight(p, z, |p| + nz + 3);
    }
  }

  /** Whitespace, a rule, then a rule tail make a rule tail. */
  lemma SpaceRuleTail(p: string, v: string)
    requires AllSpace(p) && Dashes(v) && RuleTail(v[3..])
    ensures RuleTail(p + v)
  {
    var u := p + v;
    LeadSpacePrefix(p, v);
    assert LeadSpace(v) == 0 by { assert !IsSpace(v[0]); }
    DropConcatRight(p, v, |p|);
    DropConcatRight(p, v, |p| + 3);
    assert Dashes(u[|p|..]) && RuleTail(u[|p| + 3..]);
  }

  /** Rule tails are closed under concatenation. */
  lemma {:induction false} RuleTailAppend(u: string, z: string)
    requires RuleTail(u) && RuleTail(z)
    ensures RuleTail(u + z)
    decreases |u|
  {
    var n := LeadSpace(u);
    LeadSpaceFacts(u);
    if n == |u| {
      assert u[..n] == u;
      SpaceThenTail(u, z);
    } else {
      RuleTailAppend(u[n + 3..], z);
      var v := u[n..] + z;
      DropConcat(u[n..], z, 3);
      assert u[n..][3..] == u[n + 3..];
      SpaceRuleTail(u[..n], v);
      assert u + z == u[..n] + v;
    }
  }

  lemma ConcatAt(x: string, z: string, m: nat)
    requires m <= |x|
    ensures x + z == x[..m] + (x[m..] + z)
  {
    assert x == x[..m] + x[m..];
  }

  /** A run of rules followed by a rule tail is a run of rules. */
  lemma RuleRunAppend(x: string, z: string)
    requires RuleTail(z)
    ensures RuleRun(x) ==> RuleRun(x + z)
  {
    if RuleRun(x) {
      var m := LeadNewlines(x);
      var a := x[..m];
      var w := x[m..];
      LeadNewlinesFacts(x);
      assert w[3..] == x[m + 3..];
      RuleTailAppend(w[3..], z);
      DropConcat(w, z, 3);
      ConcatAt(x, z, m);
      RuleRunOf(a, w + z);
    }
  }

  /** Newlines, then three dashes, then a rule tail make a run of rules. */
  lemma RuleRunOf(a: string, w: string)
    requires forall i :: 0 <= i < |a| ==> a[i] == '\n'
    requires Dashes(w) && RuleTail(w[3..])
    ensures RuleRun(a + w)
  {
    var s := a + w;
    LeadNewlinesPrefix(a, w);
    assert LeadNewlines(w) == 0 by { assert w[0] != '\n'; }
    DropConcatRight(a, w, |a|);
    DropConcatRight(a, w, |a| + 3);
    assert Dashes(s[|a|..]) && RuleTail(s[|a| + 3..]);
  }

  /** Before the cut, a stretch followed only by whitespace up to the cut
      is no run of rules: else the cut would lie earlier. */
  lemma NotRunBeforeCut(d: string, i: nat, j: nat)
    requires i < RuleCut(d, 0) && i <= j <= RuleCut(d, 0)
    requires AllSpace(d[j..RuleCut(d, 0)])
    ensures !RuleRun(d[i..j])
  {
    var c := RuleCut(d, 0);
    RuleCutAtRun(d, 0);
    RuleCutFirst(d, 0, i);
    SliceSplit(d, j, c);
    if c == |d| {
      assert d[c..] == [];
      assert d[j..] == d[j..c];
      TailOfSpace(d[j..]);
    } else {
      TailOfRun(d[j..c], d[c..]);
    }
    SliceSplit(d, i, j);
    RuleRunAppend(d[i..j], d[j..]);
  }

  lemma PartBeforeCut(d: string, p: string, r: string, a: nat, k: nat)
    requires p == TrimRules(d)
    requires a + |r| <= |p| && r == p[a..a + |r|] && k < |r|
    requires AllSpace(p[a + |r|..])
    ensures !RuleRun(r[k..])
  {
    PartOfPrefix(d, RuleCut(d, 0), p, r, a, k);
    NotRunBeforeCut(d, a + k, a + |r|);
  }

  /** A part of a prefix of `d`, seen in `d`. */
  lemma PartOfPrefix(d: string, c: nat, p: string, r: string, a: nat, k: nat)
    requires c <= |d| && p == d[..c]
    requires a + |r| <= |p| && r == p[a..a + |r|] && k < |r|
    requires AllSpace(p[a + |r|..])
    ensures a + k < c && r[k..] == d[a + k..a + |r|] && AllSpace(d[a + |r|..c])
  {
    var b := a + |r|;
    SliceOfSlice(p, a, b, k);
    SliceOfPrefix(d, c, a + k, b);
    SliceOfPrefix(d, c, b, c);
    assert p[b..] == p[b..c];
  }

  /** Where the stripped text sits in `p`: only whitespace follows it. */
  lemma StripSlice(p: string) returns (a: nat)
    ensures a + |Strip(p)| <= |p|
    ensures Strip(p) == p[a..a + |Strip(p)|]
    ensures AllSpace(p[a + |Strip(p)|..])
  {
    var lp := LStrip(p);
    var r := RStrip(lp);
    a := |p| - |lp|;
    RStripRest(lp);
    SliceInSuffix(p, a, lp, r);
  }

  /** A prefix of a suffix of `p`, seen in `p`. */
  lemma SliceInSuffix(p: string, a: nat, lp: string, r: string)
    requires a <= |p| && lp == p[a..] && |r| <= |lp| && r == lp[..|r|]
    requires AllSpace(lp[|r|..])
    ensures r == p[a..a + |r|] && AllSpace(p[a + |r|..])
  {
    assert p[a + |r|..] == lp[|r|..];
  }

  /** What `rstrip` removes is whitespace. */
  lemma RStripRest(s: string)
    ensures AllSpace(s[|RStrip(s)|..])
  {
    var n := |RStrip(s)|;
    forall i | 0 <= i < |s| - n
      ensures IsSpace(s[n..][i])
    {
      assert s[n..][i] == s[n + i];
    }
  }

  lemma StrippedBeforeCut(d: string, k: nat)
    requires k < |Strip(TrimRules(d))|
    ensures !RuleRun(Strip(TrimRules(d))[k..])
  {
    var p := TrimRules(d);
    var a := StripSlice(p);
    PartBeforeCut(d, p, Strip(p), a, k);
  }

  /** Whatever the cut leaves, stripped, has no trailing run of rules. */
  lemma StripBeforeCut(d: string)
    ensures NoRuleSuffix(Strip(TrimRules(d)))
  {
    forall k | 0 <= k < |Strip(TrimRules(d))|
      ensures !RuleRun(Strip(TrimRules(d))[k..])
    {
      StrippedBeforeCut(d, k);
    }
  }

  /** Parsed definitions are stripped and end in no run of rules. */
  lemma NormalizeNormalized(text: string)
    ensures Normalized(Normalize(text))
  {
    StripProperties(TrimRules(Strip(text)));
    StripBeforeCut(Strip(text));
  }

  /** A definition in parsed form is left as it is. */
  lemma NormalizedFixed(s: string)
    requires Normalized(s)
    ensures Normalize(s) == s
  {
    StripOfStripped(s);
    RuleCutAtRun(s, 0);
    assert RuleCut(s, 0) == |s|;
    assert s[..|s|] == s;
  }

  /** Cleaning a definition twice is cleaning it once. */
  lemma NormalizeIdempotent(text: string)
    ensures Normalize(Normalize(text)) == Normalize(text)
  {
    NormalizeNormalized(text);
    NormalizedFixed(Normalize(text));
  }

  /** Whitespace around a definition in parsed form is dropped. */
  lemma NormalizePadded(a: string, s: string, b: string)
    requires AllSpace(a) && AllSpace(b) && Normalized(s)
    ensures Normalize(a + s + b) == s
  {
    StripPadded(a, s, b);
    NormalizedFixed(s);
  }
  // Rules after a definition: what the parser drops when a rendered
  // definition is followed by a horizontal rule.

  lemma {:induction false} LeadSpaceBefore(u: string, i: nat)
    requires i < |u| && !IsSpace(u[i])
    ensures LeadSpace(u) <= i
    decreases i
  {
    if i > 0 && IsSpace(u[0]) {
      LeadSpaceBefore(u[1..], i - 1);
    }
  }

  lemma {:induction false} LeadNewlinesBefore(u: string, i: nat)
    requires i < |u| && u[i] != '\n'
    ensures LeadNewlines(u) <= i
    decreases i
  {
    if i > 0 && u[0] == '\n' {
      LeadNewlinesBefore(u[1..], i - 1);
    }
  }

  lemma {:induction false} LeadSpaceAppend(u: string, z: string)
    requires LeadSpace(u) < |u|
    ensures LeadSpace(u + z) == LeadSpace(u)
    decreases |u|
  {
    if IsSpace(u[0]) {
      DropConcat(u, z, 1);
      LeadSpaceAppend(u[1..], z);
    }
  }

  lemma {:induction false} LeadNewlinesAppend(u: string, z: string)
    requires LeadNewlines(u) < |u|
    ensures LeadNewlines(u + z) == LeadNewlines(u)
    decreases |u|
  {
    if u[0] == '\n' {
      DropConcat(u, z, 1);
      LeadNewlinesAppend(u[1..], z);
    }
  }

  /** A rule tail that continues past a text ending in a non-space
      character, with something that does not start with a dash, was
      already a rule tail at the end of that text. */
  lemma {:induction false} RuleTailDrop(u: string, z: string)
    requires u == [] || !IsSpace(u[|u| - 1])
    requires |z| > 0 && z[0] != '-'
    requires RuleTail(u + z)
    ensures RuleTail(u)
    decreases |u|
  {
    if u != [] {
      LeadSpaceBefore(u, |u| - 1);
      var n := LeadSpace(u);
      LeadSpaceAppend(u, z);
      var w := (u + z)[n..];
      assert w[|u| - n] == z[0];
      assert Dashes(w);
      assert u[n..][..3] == w[..3];
      DropConcat(u, z, n + 3);
      assert u[n + 3..] == [] || u[n + 3..][|u[n + 3..]| - 1] == u[|u| - 1];
      RuleTailDrop(u[n + 3..], z);
    }
  }

  /** The same for a run of rules. */
  lemma RuleRunDrop(x: string, z: string)
    requires |x| > 0 && !IsSpace(x[|x| - 1])
    requires |z| > 0 && z[0] != '-'
    ensures RuleRun(x + z) ==> RuleRun(x)
  {
    if RuleRun(x + z) {
      LeadNewlinesBefore(x, |x| - 1);
      var m := LeadNewlines(x);
      LeadNewlinesAppend(x, z);
      var w := (x + z)[m..];
      assert w[|x| - m] == z[0];
      assert x[m..][..3] == w[..3];
      DropConcat(x, z, m + 3);
      assert x[m + 3..] == [] || x[m + 3..][|x[m + 3..]| - 1] == x[|x| - 1];
      RuleTailDrop(x[m + 3..], z);
    }
  }

  /** The cut is the first position from `k` on where a run of rules lasts to the end. */
  lemma {:induction false} RuleCutIs(d: string, k: nat, c: nat)
    requires k <= c <= |d|
    requires forall j :: k <= j < c ==> !RuleRun(d[j..])
    requires c == |d| || RuleRun(d[c..])
    ensures RuleCut(d, k) == c
    decreases c - k
  {
    if k < c {
      RuleCutIs(d, k + 1, c);
    }
  }

  /** A run of two newlines and a rule. */
  lemma RuleAfterBlank()
    ensures RuleRun("\n\n---")
  {
    LeadNewlinesPrefix("\n\n", "---");
    assert "\n\n" + "---" == "\n\n---";
  }

  lemma NoRunBeforeRule(def: string, j: nat)
    requires Normalized(def) && j < |def|
    ensures !RuleRun((def + "\n\n---")[j..])
  {
    var z := "\n\n---";
    DropConcat(def, z, j);
    assert !RuleRun(def[j..]);
    assert def[j..][|def| - j - 1] == def[|def| - 1];
    RuleRunDrop(def[j..], z);
  }

  /** Behind a definition in parsed form, the cut falls where the rule's
      blank lines start. */
  lemma CutBeforeRule(def: string)
    requires Normalized(def)
    ensures TrimRules(def + "\n\n---") == def
  {
    var z := "\n\n---";
    var d := def + z;
    RuleAfterBlank();
    DropConcatRight(def, z, |def|);
    forall j | 0 <= j < |def|
      ensures !RuleRun(d[j..])
    {
      NoRunBeforeRule(def, j);
    }
    RuleCutIs(d, 0, |def|);
  }

  /** A rule between blank lines parses to an empty definition. */
  lemma LoneRule()
    ensures Normalize("\n" + "" + "\n\n---\n") == ""
  {
    assert "\n" + "" + "\n\n---\n" == "\n\n\n" + "---" + "\n";
    StripPadded("\n\n\n", "---", "\n");
    assert RuleTail("");
    assert RuleRun("---"[0..]);
    RuleCutIs("---", 0, 0);
  }

  /** A blank line, a definition in parsed form, a blank line, a rule
      and a blank line parse back to the definition. */
  lemma NormalizeBeforeRule(def: string)
    requires Normalized(def)
    ensures Normalize("\n" + def + "\n\n---\n") == def
  {
    if def == [] {
      LoneRule();
    } else {
      var d := def + "\n\n---";
      assert "\n" + def + "\n\n---\n" == "\n" + d + "\n";
      assert d[|d| - 1] == '-' && d[0] == def[0];
      StripPadded("\n", d, "\n");
      CutBeforeRule(def);
      StripOfStripped(def);
    }
  }

  /** Text whose stripped form ends in neither a dash nor whitespace loses
      nothing but its surrounding whitespace. */
  /** Whitespace, a definition in parsed form, a blank line and a rule
      parse back to the definition. */
  lemma NormalizeBeforeRulePadded(a: string, d: string)
    requires AllSpace(a) && Normalized(d) && d != ""
    ensures Normalize(a + d + "\n\n---\n") == d
  {
    var x := d + "\n\n---";
    assert a + d + "\n\n---\n" == a + x + "\n";
    assert x[0] == d[0] && x[|x| - 1] == '-';
    StripPadded(a, x, "\n");
    CutBeforeRule(d);
    StripOfStripped(d);
  }

  lemma NormalizePlainEnd(t: string)
    requires |Strip(t)| > 0 && Strip(t)[|Strip(t)| - 1] != '-'
    ensures Normalize(t) == Strip(t)
  {
    var st := Strip(t);
    StripProperties(t);
    NoRuleSuffixByLast(st);
    RuleCutAtRun(st, 0);
    assert TrimRules(st) == st;
  }
}
