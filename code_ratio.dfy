/** The code-to-text ratio of the language guides: a line scanner that
    skips front matter, counts every line inside a code fence as code and
    every non-blank line outside as text, and the summary over all guides
    with its 3:1 target. */
module CodeRatio {
  import opened Text
  import opened Sorting

  /** The scanner's counters and flags after some lines. `fences` counts the
      lines whose stripped text is `---`. */
  datatype Scan = Scan(code: nat, text: nat, inCode: bool, inFront: bool, fences: nat)

  const Start := Scan(0, 0, false, false, 0)

  /** The line, stripped to `t`, opens or closes the front matter: one of the first two `---` lines. */
  predicate TogglesFront(st: Scan, t: string) {
    t == "---" && st.fences < 2
  }

  /** The line, stripped to `t`, opens or closes a code block. */
  predicate IsFence(t: string) {
    StartsWith(t, "```")
  }

  /** One line of the scan, given the line stripped of surrounding whitespace. */
  function Step(st: Scan, t: string): Scan {
    if t == "---" && st.fences + 1 <= 2 then
      st.(fences := st.fences + 1, inFront := !st.inFront)
    else
      var st := if t == "---" then st.(fences := st.fences + 1) else st;
      if st.inFront then st
      else if StartsWith(t, "```") then st.(inCode := !st.inCode)
      else if st.inCode then st.(code := st.code + 1)
      else if t != "" then st.(text := st.text + 1)
      else st
  }

  /** What one line does: the first two `---` lines toggle the front matter;
      outside it a fence toggles the code block; any other line is counted
      as code inside a block and as text outside one when it is not blank. */
  lemma StepMeaning(st: Scan, t: string)
    ensures var r := Step(st, t);
      r.fences == st.fences + (if t == "---" then 1 else 0) &&
      (r.inFront != st.inFront <==> TogglesFront(st, t)) &&
      (r.inCode != st.inCode <==> !TogglesFront(st, t) && !st.inFront && IsFence(t)) &&
      r.code == st.code + (if !TogglesFront(st, t) && !st.inFront && !IsFence(t) && st.inCode then 1 else 0) &&
      r.text == st.text + (if !TogglesFront(st, t) && !st.inFront && !IsFence(t) && !st.inCode && t != "" then 1 else 0)
  {
  }

  /** The scan of `lines` from the start. */
  function Run(lines: seq<string>): Scan {
    if |lines| == 0 then Start
    else Step(Run(lines[..|lines| - 1]), Strip(lines[|lines| - 1]))
  }

  /** The value of `code / text`, 0 when there is no text. */
  function Ratio(code: nat, text: nat): (r: real)
    ensures r >= 0.0
  {
    if text > 0 then (code as real) / (text as real) else 0.0
  }

  /** `analyze_markdown_file` on the text of one guide. */
  method AnalyzeMarkdownFile(content: string) returns (code: nat, text: nat, ratio: real)
    ensures code == Run(SplitLines(content)).code && text == Run(SplitLines(content)).text
    ensures ratio == Ratio(code, text)
  {
    code, text := CountLines(SplitLines(content));
    ratio := if text > 0 then (code as real) / (text as real) else 0.0;
  }

  lemma RunSnoc(lines: seq<string>, k: nat)
    requires k < |lines|
    ensures Run(lines[..k + 1]) == Step(Run(lines[..k]), Strip(lines[k]))
  {
    assert lines[..k + 1][..k] == lines[..k];
  }

  /** The body of the counting loop for one line, stripped to `t`. */
  method ScanLine(st: Scan, t: string) returns (r: Scan)
    ensures r == Step(st, t)
  {
    var code, text, inCode, inFront, fences := st.code, st.text, st.inCode, st.inFront, st.fences;
    if t == "---" && fences + 1 <= 2 {
      fences := fences + 1;
      inFront := !inFront;
    } else {
      if t == "---" {
        fences := fences + 1;
      }
      if inFront {
      } else if StartsWith(t, "```") {
        inCode := !inCode;
      } else if inCode {
        code := code + 1;
      } else if t != "" {
        text := text + 1;
      }
    }
    r := Scan(code, text, inCode, inFront, fences);
  }

  /** The counting loop of `analyze_markdown_file` over the `\n`-split lines. */
  method CountLines(lines: seq<string>) returns (code: nat, text: nat)
    ensures code == Run(lines).code && text == Run(lines).text
  {
    var st := Start;
    var k := 0;
    while k < |lines|
      invariant 0 <= k <= |lines|
      invariant st == Run(lines[..k])
    {
      RunSnoc(lines, k);
      st := ScanLine(st, Strip(lines[k]));
      k := k + 1;
    }
    assert lines[..k] == lines;
    code, text := st.code, st.text;
  }

  /** Each line is counted at most once, as code or as text. */
  lemma {:induction false} CountsBounded(lines: seq<string>)
    ensures Run(lines).code + Run(lines).text <= |lines|
  {
    if |lines| > 0 {
      CountsBounded(lines[..|lines| - 1]);
      StepMeaning(Run(lines[..|lines| - 1]), Strip(lines[|lines| - 1]));
    }
  }

  /** A file that opens with front matter: after its closing `---` nothing
      has been counted, the scan is outside the front matter and no other
      `---` line can toggle it again. */
  lemma FrontMatterSkipped(lines: seq<string>, close: nat)
    requires 0 < close < |lines|
    requires Strip(lines[0]) == "---" && Strip(lines[close]) == "---"
    requires forall i :: 0 < i < close ==> Strip(lines[i]) != "---"
    ensures Run(lines[..close + 1]) == Scan(0, 0, false, false, 2)
  {
    InsideFrontMatter(lines, close, close);
    RunSnoc(lines, close);
  }

  lemma {:induction false} InsideFrontMatter(lines: seq<string>, close: nat, j: nat)
    requires 0 < j <= close < |lines|
    requires Strip(lines[0]) == "---"
    requires forall i :: 0 < i < close ==> Strip(lines[i]) != "---"
    ensures Run(lines[..j]) == Scan(0, 0, false, true, 1)
  {
    if j == 1 {
      assert lines[..1][..0] == [];
      assert Run(lines[..1]) == Step(Start, Strip(lines[0]));
    } else {
      InsideFrontMatter(lines, close, j - 1);
      RunSnoc(lines, j - 1);
      assert Strip(lines[j - 1]) != "---";
    }
  }

  /** Passing the 3:1 target, `ratio >= 3.0`, in integers. */
  predicate Passes(code: nat, text: nat) {
    text > 0 && code >= 3 * text
  }

  lemma PassesIsRatio(code: nat, text: nat)
    ensures Passes(code, text) <==> Ratio(code, text) >= 3.0
  {
    if text > 0 {
      DivAtLeast(code as real, text as real, 3.0);
    }
  }

  lemma DivAtLeast(a: real, b: real, c: real)
    requires b > 0.0
    ensures a / b >= c <==> a >= c * b
  {
    var q := a / b;
    assert q * b == a;
    if q >= c {
      assert q * b >= c * b;
    } else {
      assert q * b < c * b;
    }
  }

  /** Guides exempt from the target: comparison pages whose value is in tables. */
  const EXEMPT_GUIDES: set<string> := {"comparison_matrix"}

  /** A guide below target: name, ratio, code and text lines. */
  datatype Below = Below(name: string, ratio: real, code: nat, text: nat)

  /** A guide as counted: its name with its code and text lines. */
  datatype Guide = Guide(name: string, code: nat, text: nat)

  /** The guide `(stem, content)` as scanned. */
  function Scanned(file: (string, string)): Guide {
    Guide(file.0, Run(SplitLines(file.1)).code, Run(SplitLines(file.1)).text)
  }

  /** The guides `(stem, content)` as scanned, in order. */
  function Guides(files: seq<(string, string)>): (r: seq<Guide>)
    ensures |r| == |files|
  {
    if |files| == 0 then []
    else Guides(files[..|files| - 1]) + [Scanned(files[|files| - 1])]
  }

  /** The guide is not exempt and misses the target. */
  predicate Fails(g: Guide) {
    g.name !in EXEMPT_GUIDES && !Passes(g.code, g.text)
  }

  /** The guides below target, in file order. */
  function BelowTarget(guides: seq<Guide>): seq<Below> {
    if |guides| == 0 then []
    else
      var g := guides[|guides| - 1];
      BelowTarget(guides[..|guides| - 1]) +
      (if Fails(g) then [Below(g.name, Ratio(g.code, g.text), g.code, g.text)] else [])
  }

  /** The number of exempt guides. */
  function ExemptCount(guides: seq<Guide>): (n: nat)
    ensures n <= |guides|
  {
    if |guides| == 0 then 0
    else ExemptCount(guides[..|guides| - 1]) + (if guides[|guides| - 1].name in EXEMPT_GUIDES then 1 else 0)
  }

  /** Code and text lines summed over the guides that are not exempt. */
  function Totals(guides: seq<Guide>): (nat, nat) {
    if |guides| == 0 then (0, 0)
    else
      var g := guides[|guides| - 1];
      var (c, t) := Totals(guides[..|guides| - 1]);
      if g.name in EXEMPT_GUIDES then (c, t) else (c + g.code, t + g.text)
  }

  /** A guide is listed below target exactly when it is not exempt and
      misses the 3:1 target; exempt guides and passing guides never are. */
  lemma {:induction false} BelowTargetExact(guides: seq<Guide>, name: string)
    ensures (exists b :: b in BelowTarget(guides) && b.name == name) <==>
            (exists i :: 0 <= i < |guides| && guides[i].name == name && Fails(guides[i]))
  {
    if |guides| > 0 {
      var prefix := guides[..|guides| - 1];
      BelowTargetExact(prefix, name);
      assert forall i :: 0 <= i < |prefix| ==> prefix[i] == guides[i];
      var g := guides[|guides| - 1];
      assert BelowTarget(guides) == BelowTarget(prefix) +
        (if Fails(g) then [Below(g.name, Ratio(g.code, g.text), g.code, g.text)] else []);
    }
  }

  /** Every guide below target is a distinct non-exempt guide, so the
      passing count `eligible - below` is never negative. */
  lemma {:induction false} BelowTargetCount(guides: seq<Guide>)
    ensures |BelowTarget(guides)| <= |guides| - ExemptCount(guides)
  {
    if |guides| > 0 {
      BelowTargetCount(guides[..|guides| - 1]);
    }
  }

  /** The code lines a guide below target still needs: positive exactly
      when the guide has text; a guide without text is asked for none. */
  function NeededCode(b: Below): int {
    b.text * 3 - b.code
  }

  lemma NeededCodePositive(guides: seq<Guide>, b: Below)
    requires b in BelowTarget(guides)
    ensures NeededCode(b) > 0 <==> b.text > 0
  {
    BelowTargetFails(guides);
  }

  lemma {:induction false} BelowTargetFails(guides: seq<Guide>)
    ensures forall b :: b in BelowTarget(guides) ==> !Passes(b.code, b.text) && b.ratio == Ratio(b.code, b.text)
  {
    if |guides| > 0 {
      BelowTargetFails(guides[..|guides| - 1]);
    }
  }

  /** Ascending ratio, the order of the below-target listing. */
  function RatioLess(a: Below, b: Below): bool {
    a.ratio < b.ratio
  }

  lemma ListingOrdered(below: seq<Below>)
    ensures SortedBy(Sort(below, RatioLess), RatioLess) && multiset(Sort(below, RatioLess)) == multiset(below)
  {
    SortSorted(below, RatioLess);
  }

  /** What `main` reports besides its exit status. */
  datatype Summary = Summary(totalCode: nat, totalText: nat, below: seq<Below>, exempt: nat, eligible: int, passing: int)

  lemma GuidesSnoc(files: seq<(string, string)>, k: nat)
    requires k < |files|
    ensures Guides(files[..k + 1]) == Guides(files[..k]) + [Scanned(files[k])]
  {
    assert files[..k + 1][..k] == files[..k];
  }

  lemma SummarySnoc(gs: seq<Guide>, g: Guide)
    ensures BelowTarget(gs + [g]) == BelowTarget(gs) +
              (if Fails(g) then [Below(g.name, Ratio(g.code, g.text), g.code, g.text)] else [])
    ensures ExemptCount(gs + [g]) == ExemptCount(gs) + (if g.name in EXEMPT_GUIDES then 1 else 0)
    ensures Totals(gs + [g]) == if g.name in EXEMPT_GUIDES then Totals(gs)
                                else (Totals(gs).0 + g.code, Totals(gs).1 + g.text)
  {
    assert (gs + [g])[..|gs|] == gs;
  }

  /** One guide of `main`: its counts and ratio. */
  method ScanGuide(file: (string, string)) returns (g: Guide, ratio: real)
    ensures g == Scanned(file) && ratio == Ratio(g.code, g.text)
  {
    var code, text, r := AnalyzeMarkdownFile(file.1);
    g := Guide(file.0, code, text);
    ratio := r;
  }

  /** The running totals of `main` over the guides scanned so far. */
  datatype Tally = Tally(totalCode: nat, totalText: nat, below: seq<Below>, exempt: nat)

  function Tallied(guides: seq<Guide>): Tally {
    Tally(Totals(guides).0, Totals(guides).1, BelowTarget(guides), ExemptCount(guides))
  }

  /** The loop body of `main` for one scanned guide. */
  method AddGuide(ghost scanned: seq<Guide>, acc: Tally, g: Guide, ratio: real) returns (next: Tally)
    requires acc == Tallied(scanned) && ratio == Ratio(g.code, g.text)
    ensures next == Tallied(scanned + [g])
  {
    SummarySnoc(scanned, g);
    next := acc;
    if g.name in EXEMPT_GUIDES {
      next := next.(exempt := acc.exempt + 1);
    } else {
      next := next.(totalCode := acc.totalCode + g.code, totalText := acc.totalText + g.text);
      if !(g.text > 0 && g.code >= 3 * g.text) {
        next := next.(below := acc.below + [Below(g.name, ratio, g.code, g.text)]);
      }
    }
  }

  /** The scanning loop of `main` over the guides `(stem, content)`. */
  method ScanGuides(files: seq<(string, string)>) returns (acc: Tally)
    ensures acc == Tallied(Guides(files))
  {
    acc := Tally(0, 0, [], 0);
    ghost var scanned: seq<Guide> := [];
    var k := 0;
    while k < |files|
      invariant 0 <= k <= |files|
      invariant scanned == Guides(files[..k])
      invariant acc == Tallied(scanned)
    {
      var g, ratio := ScanGuide(files[k]);
      GuidesSnoc(files, k);
      acc := AddGuide(scanned, acc, g, ratio);
      scanned := scanned + [g];
      k := k + 1;
    }
    assert files[..k] == files;
  }

  /** `main`: `files` are the guides `(stem, content)` in sorted order. */
  method CheckRatios(guidesExist: bool, files: seq<(string, string)>) returns (exit: int, summary: Summary)
    ensures !guidesExist || files == [] ==> exit == 1
    ensures guidesExist && files != [] ==>
              var guides := Guides(files);
              summary.below == Sort(BelowTarget(guides), RatioLess) &&
              (summary.totalCode, summary.totalText) == Totals(guides) &&
              summary.exempt == ExemptCount(guides) &&
              summary.eligible == |files| - ExemptCount(guides) &&
              summary.passing == summary.eligible - |BelowTarget(guides)| &&
              (exit == 0 <==> BelowTarget(guides) == []) && (exit == 1 <==> BelowTarget(guides) != [])
  {
    summary := Summary(0, 0, [], 0, 0, 0);
    if !guidesExist || files == [] {
      return 1, summary;
    }
    var acc := ScanGuides(files);
    var eligible := |files| - acc.exempt;
    var passing := eligible - |acc.below|;
    summary := Summary(acc.totalCode, acc.totalText, Sort(acc.below, RatioLess), acc.exempt, eligible, passing);
    exit := if acc.below == [] then 0 else 1;
  }
}
