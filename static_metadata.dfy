/** The static-metadata remover: drops the `date:` and `version:` fields
    from a page's front matter and the "Last Updated" footer lines. */
module StaticMetadata {
  import opened Wrappers
  import opened Text

  const OPEN: string := "---\n"
  const CLOSE: string := "\n---\n"

  // ---------------------------------------------------------------- front matter

  /** The leftmost position at or after `from` where `CLOSE` occurs. */
  function FindClose(s: string, from: nat): (r: Option<nat>)
    ensures r.Some? ==> from <= r.value && r.value + |CLOSE| <= |s| && s[r.value..r.value + |CLOSE|] == CLOSE
    decreases |s| - from
  {
    if from + |CLOSE| > |s| then None
    else if s[from..from + |CLOSE|] == CLOSE then Some(from)
    else FindClose(s, from + 1)
  }

  /** No occurrence of `CLOSE` is skipped by the search. */
  lemma {:induction false} FindCloseLeftmost(s: string, from: nat, k: nat)
    requires from <= k && k + |CLOSE| <= |s|
    requires FindClose(s, from).None? || k < FindClose(s, from).value
    ensures s[k..k + |CLOSE|] != CLOSE
    decreases |s| - from
  {
    if s[from..from + |CLOSE|] != CLOSE && from < k {
      FindCloseLeftmost(s, from + 1, k);
    }
  }

  predicate CloseAt(s: string, k: nat) {
    k + |CLOSE| <= |s| && s[k..k + |CLOSE|] == CLOSE
  }

  /** The match of `^---\n(.*?)\n---\n` with `.` matching newlines: the
      front matter and the text after the closing delimiter. */
  function MatchFrontmatter(content: string): (m: Option<(string, string)>)
    ensures m.Some? ==> content == OPEN + m.value.0 + CLOSE + m.value.1
  {
    if !StartsWith(content, OPEN) then None
    else
      match FindClose(content, |OPEN|)
      case None => None
      case Some(j) =>
        assert content == content[..|OPEN|] + content[|OPEN|..j] + content[j..j + |CLOSE|] + content[j + |CLOSE|..];
        Some((content[|OPEN|..j], content[j + |CLOSE|..]))
  }

  /** The front matter ends at the first closing delimiter, and text
      without both delimiters has no front matter. */
  lemma FrontmatterIsShortest(content: string)
    ensures MatchFrontmatter(content).None? ==>
      !StartsWith(content, OPEN) || forall k :: |OPEN| <= k ==> !CloseAt(content, k)
    ensures MatchFrontmatter(content).Some? ==>
      forall k :: |OPEN| <= k < |OPEN| + |MatchFrontmatter(content).value.0| ==> !CloseAt(content, k)
  {
    forall k | |OPEN| <= k && StartsWith(content, OPEN) &&
        (MatchFrontmatter(content).None? || k < |OPEN| + |MatchFrontmatter(content).value.0|)
      ensures !CloseAt(content, k)
    {
      if k + |CLOSE| <= |content| {
        FindCloseLeftmost(content, |OPEN|, k);
      }
    }
  }

  /** The lines kept by a pass that removes the lines starting with `p`. */
  function Kept(lines: seq<string>, p: string): (r: seq<string>)
    ensures |r| <= |lines|
  {
    if |lines| == 0 then []
    else (if StartsWith(lines[0], p) then [] else [lines[0]]) + Kept(lines[1..], p)
  }

  /** A pass keeps exactly the lines that do not start with `p`. */
  lemma {:induction false} KeptMembers(lines: seq<string>, p: string)
    ensures forall x :: x in Kept(lines, p) <==> x in lines && !StartsWith(x, p)
  {
    if |lines| > 0 {
      KeptMembers(lines[1..], p);
      assert lines == [lines[0]] + lines[1..];
    }
  }

  /** Lines each followed by a newline. */
  function Terminated(ks: seq<string>): string {
    if |ks| == 0 then "" else ks[0] + "\n" + Terminated(ks[1..])
  }

  /** `re.sub(r"^p.*$\n?", "", text, flags=re.MULTILINE)` on the text whose
      `\n`-separated lines are `lines`: every line starting with `p` goes,
      with the newline that follows it when there is one. */
  function DropLines(lines: seq<string>, p: string): string
    requires |lines| >= 1
  {
    if |lines| == 1 then (if StartsWith(lines[0], p) then "" else lines[0])
    else (if StartsWith(lines[0], p) then "" else lines[0] + "\n") + DropLines(lines[1..], p)
  }

  function RemoveField(s: string, p: string): string {
    DropLines(Split(s, '\n'), p)
  }

  function Last(lines: seq<string>): string
    requires |lines| >= 1
  {
    lines[|lines| - 1]
  }

  /** The text a pass leaves: the kept lines joined, and a final newline
      kept when the last line was removed. */
  lemma {:induction false} DropLinesShape(lines: seq<string>, p: string)
    requires |lines| >= 1
    ensures StartsWith(Last(lines), p) ==> DropLines(lines, p) == Terminated(Kept(lines, p))
    ensures !StartsWith(Last(lines), p) ==> |Kept(lines, p)| >= 1 && DropLines(lines, p) == Join(Kept(lines, p), "\n")
  {
    assert Last(lines) in lines;
    KeptMembers(lines, p);
    var l := lines[0];
    if |lines| == 1 {
      assert lines[1..] == [];
      if !StartsWith(l, p) {
        assert Kept(lines, p) == [l];
      }
    } else {
      var rest := lines[1..];
      DropLinesShape(rest, p);
      assert Last(rest) == Last(lines);
      var k := Kept(rest, p);
      if StartsWith(l, p) {
        assert Kept(lines, p) == k;
        assert DropLines(lines, p) == "" + DropLines(rest, p);
      } else {
        assert Kept(lines, p) == [l] + k;
        assert ([l] + k)[1..] == k;
        if StartsWith(Last(lines), p) {
          assert Terminated([l] + k) == l + "\n" + Terminated(k);
        } else {
          assert Join([l] + k, "\n") == l + "\n" + Join(k, "\n");
        }
      }
    }
  }

  /** Terminated lines are the lines joined with one empty line after them. */
  lemma {:induction false} TerminatedIsJoin(ks: seq<string>)
    ensures Terminated(ks) == Join(ks + [""], "\n")
  {
    if |ks| > 0 {
      TerminatedIsJoin(ks[1..]);
      assert (ks + [""])[1..] == ks[1..] + [""];
      assert (ks + [""])[0] == ks[0];
    }
  }

  /** The lines after one pass: the kept lines, and an empty last line when
      the original last line was removed. */
  function LinesAfter(lines: seq<string>, p: string): (r: seq<string>)
    requires |lines| >= 1
    ensures |r| >= 1
  {
    KeptMembers(lines, p);
    assert Last(lines) in lines;
    Kept(lines, p) + (if StartsWith(Last(lines), p) then [""] else [])
  }

  lemma LinesAfterNoNewline(lines: seq<string>, p: string)
    requires |lines| >= 1
    requires forall i :: 0 <= i < |lines| ==> '\n' !in lines[i]
    ensures var after := LinesAfter(lines, p);
      forall i :: 0 <= i < |after| ==> '\n' !in after[i]
  {
    var k := Kept(lines, p);
    var after := LinesAfter(lines, p);
    forall i | 0 <= i < |after|
      ensures '\n' !in after[i]
    {
      KeptMembers(lines, p);
      if i < |k| {
        assert after[i] == k[i] && k[i] in lines;
      } else {
        assert after[i] == "";
      }
    }
  }

  lemma RemoveFieldIsJoin(s: string, p: string)
    ensures RemoveField(s, p) == Join(LinesAfter(Split(s, '\n'), p), "\n")
  {
    var lines := Split(s, '\n');
    DropLinesShape(lines, p);
    var k := Kept(lines, p);
    if StartsWith(Last(lines), p) {
      TerminatedIsJoin(k);
    } else {
      AppendEmpty(k);
    }
  }

  /** The lines a pass leaves: the kept lines, and an empty last line when
      the last line was removed. */
  lemma RemoveFieldLines(s: string, p: string)
    ensures Split(RemoveField(s, p), '\n') == LinesAfter(Split(s, '\n'), p)
  {
    var lines := Split(s, '\n');
    SplitNoSep(s, '\n');
    LinesAfterNoNewline(lines, p);
    RemoveFieldIsJoin(s, p);
    SplitJoin(LinesAfter(lines, p), '\n');
  }

  /** A pass that removes nothing leaves the text as it was. */
  lemma {:induction false} KeptAll(lines: seq<string>, p: string)
    requires forall i :: 0 <= i < |lines| ==> !StartsWith(lines[i], p)
    ensures Kept(lines, p) == lines
  {
    if |lines| > 0 {
      assert !StartsWith(lines[0], p);
      KeptAll(lines[1..], p);
    }
  }

  /** A pass that removes a line makes the text strictly shorter. */
  lemma {:induction false} DropLinesLength(lines: seq<string>, p: string)
    requires |lines| >= 1 && |p| > 0
    ensures |DropLines(lines, p)| <= |Join(lines, "\n")|
    ensures (exists i :: 0 <= i < |lines| && StartsWith(lines[i], p)) ==> |DropLines(lines, p)| < |Join(lines, "\n")|
  {
    if |lines| > 1 {
      var rest := lines[1..];
      DropLinesLength(rest, p);
      if exists i :: 0 <= i < |lines| && StartsWith(lines[i], p) {
        var i :| 0 <= i < |lines| && StartsWith(lines[i], p);
        if i > 0 {
          assert StartsWith(rest[i - 1], p);
        }
      }
    }
  }

  /** A pass changes the text exactly when some line starts with `p`. */
  lemma RemoveFieldChanges(s: string, p: string)
    requires |p| > 0
    ensures var lines := Split(s, '\n');
      RemoveField(s, p) != s <==> exists i :: 0 <= i < |lines| && StartsWith(lines[i], p)
  {
    var lines := Split(s, '\n');
    JoinSplit(s, '\n');
    DropLinesLength(lines, p);
    if !exists i :: 0 <= i < |lines| && StartsWith(lines[i], p) {
      KeptAll(lines, p);
      DropLinesShape(lines, p);
    }
  }

  lemma {:induction false} KeptAppend(a: seq<string>, b: seq<string>, p: string)
    ensures Kept(a + b, p) == Kept(a, p) + Kept(b, p)
  {
    if |a| > 0 {
      KeptAppend(a[1..], b, p);
      assert (a + b)[1..] == a[1..] + b;
    } else {
      assert a + b == b;
    }
  }

  /** A kept last line stays the last line. */
  lemma KeptLast(lines: seq<string>, p: string)
    requires |lines| >= 1 && !StartsWith(Last(lines), p)
    ensures |Kept(lines, p)| >= 1 && Last(Kept(lines, p)) == Last(lines)
  {
    var front := lines[..|lines| - 1];
    assert lines == front + [Last(lines)];
    KeptAppend(front, [Last(lines)], p);
    assert Kept([Last(lines)], p) == [Last(lines)] by {
      assert [Last(lines)][1..] == [];
    }
  }

  const DATE: string := "date:"
  const VERSION: string := "version:"

  /** The front matter after both passes, `date:` first, then `version:`. */
  function CleanFrontmatter(fm: string): string {
    RemoveField(RemoveField(fm, DATE), VERSION)
  }

  /** The front-matter lines that survive both passes. */
  function FieldsKept(fm: string): seq<string> {
    Kept(Kept(Split(fm, '\n'), DATE), VERSION)
  }

  /** The surviving lines are the front-matter lines that are neither a
      `date:` nor a `version:` field. */
  lemma FieldsKeptMembers(fm: string)
    ensures forall x :: x in FieldsKept(fm) <==>
      x in Split(fm, '\n') && !StartsWith(x, DATE) && !StartsWith(x, VERSION)
  {
    KeptMembers(Split(fm, '\n'), DATE);
    KeptMembers(Kept(Split(fm, '\n'), DATE), VERSION);
  }

  /** The lines of the cleaned front matter: the surviving lines, then an
      empty line when the last line was a removed field. */
  lemma CleanFrontmatterLines(fm: string)
    ensures var last := Last(Split(fm, '\n'));
      Split(CleanFrontmatter(fm), '\n') ==
        FieldsKept(fm) + (if StartsWith(last, DATE) || StartsWith(last, VERSION) then [""] else [])
  {
    if StartsWith(Last(Split(fm, '\n')), DATE) {
      LinesAfterDateLast(fm);
    } else {
      LinesAfterDateKept(fm);
    }
  }

  /** The last line was a `date:` field: the first pass leaves an empty last line. */
  lemma LinesAfterDateLast(fm: string)
    requires StartsWith(Last(Split(fm, '\n')), DATE)
    ensures Split(CleanFrontmatter(fm), '\n') == FieldsKept(fm) + [""]
  {
    var lines := Split(fm, '\n');
    var once := RemoveField(fm, DATE);
    RemoveFieldLines(fm, DATE);
    RemoveFieldLines(once, VERSION);
    var k1 := Kept(lines, DATE);
    assert Split(once, '\n') == k1 + [""];
    KeptAppend(k1, [""], VERSION);
    assert Kept([""], VERSION) == [""] by {
      assert [""][1..] == [];
    }
    assert Last(k1 + [""]) == "";
  }

  /** The last line was kept by the first pass. */
  lemma LinesAfterDateKept(fm: string)
    requires !StartsWith(Last(Split(fm, '\n')), DATE)
    ensures var last := Last(Split(fm, '\n'));
      Split(CleanFrontmatter(fm), '\n') == FieldsKept(fm) + (if StartsWith(last, VERSION) then [""] else [])
  {
    var lines := Split(fm, '\n');
    var once := RemoveField(fm, DATE);
    RemoveFieldLines(fm, DATE);
    RemoveFieldLines(once, VERSION);
    var k1 := Kept(lines, DATE);
    AppendEmpty(k1);
    assert Split(once, '\n') == k1;
    KeptLast(lines, DATE);
    if !StartsWith(Last(lines), VERSION) {
      AppendEmpty(Kept(k1, VERSION));
    }
  }

  /** No `date:` or `version:` line is left in the cleaned front matter. */
  lemma FieldsRemoved(fm: string)
    ensures var lines := Split(CleanFrontmatter(fm), '\n');
      forall i :: 0 <= i < |lines| ==> !StartsWith(lines[i], DATE) && !StartsWith(lines[i], VERSION)
  {
    CleanFrontmatterLines(fm);
    var lines := Split(CleanFrontmatter(fm), '\n');
    forall i | 0 <= i < |lines|
      ensures !StartsWith(lines[i], DATE) && !StartsWith(lines[i], VERSION)
    {
      if lines[i] != "" {
        FieldsKeptMembers(fm);
        assert lines[i] in FieldsKept(fm);
      }
    }
  }

  /** The passes report a change exactly when the front matter holds a
      `date:` or a `version:` line. */
  lemma CleanFrontmatterChanges(fm: string)
    ensures var lines := Split(fm, '\n');
      CleanFrontmatter(fm) != fm <==>
        exists i :: 0 <= i < |lines| && (StartsWith(lines[i], DATE) || StartsWith(lines[i], VERSION))
  {
    var lines := Split(fm, '\n');
    var once := RemoveField(fm, DATE);
    RemoveFieldChanges(fm, DATE);
    RemoveFieldChanges(once, VERSION);
    if once != fm {
      JoinSplit(fm, '\n');
      JoinSplit(once, '\n');
      DropLinesLength(lines, DATE);
      DropLinesLength(Split(once, '\n'), VERSION);
      var i :| 0 <= i < |lines| && StartsWith(lines[i], DATE);
    } else if exists i :: 0 <= i < |lines| && StartsWith(lines[i], VERSION) {
      var i :| 0 <= i < |lines| && StartsWith(lines[i], VERSION);
    }
  }

  /** `process_frontmatter` as written: the text and whether a field was
      removed.  The newline before the closing `---` is not put back. */
  function ProcessFrontmatterAsWritten(content: string): (string, bool) {
    match MatchFrontmatter(content)
    case None => (content, false)
    case Some((fm, rest)) =>
      var cleaned := CleanFrontmatter(fm);
      (OPEN + cleaned + OPEN + rest, cleaned != fm)
  }

  /** A kept last line stays the last line of the cleaned front matter. */
  lemma CleanedLastLine(fm: string)
    requires var last := Last(Split(fm, '\n'));
      !StartsWith(last, DATE) && !StartsWith(last, VERSION)
    ensures Last(Split(CleanFrontmatter(fm), '\n')) == Last(Split(fm, '\n'))
  {
    var lines := Split(fm, '\n');
    CleanFrontmatterLines(fm);
    AppendEmpty(FieldsKept(fm));
    KeptLast(lines, DATE);
    KeptLast(Kept(lines, DATE), VERSION);
  }

  /** A cleaned front matter whose last line is kept and not empty does
      not end with a newline. */
  lemma CleanedUnterminated(fm: string)
    requires var last := Last(Split(fm, '\n'));
      last != "" && !StartsWith(last, DATE) && !StartsWith(last, VERSION)
    ensures var cleaned := CleanFrontmatter(fm);
      |cleaned| > 0 && cleaned[|cleaned| - 1] != '\n'
  {
    CleanedLastLine(fm);
    Unterminated(CleanFrontmatter(fm), Last(Split(fm, '\n')));
  }

  lemma Unterminated(s: string, last: string)
    requires Last(Split(s, '\n')) == last && last != ""
    ensures |s| > 0 && s[|s| - 1] != '\n'
  {
    LastPartNonEmpty(s, '\n');
  }

  /** Whenever the last front-matter line is a non-empty line that is kept,
      the result's closing `---` follows that line's text with no newline
      between them. */
  lemma AsWrittenGluesLastLine(content: string)
    requires MatchFrontmatter(content).Some?
    requires var last := Last(Split(MatchFrontmatter(content).value.0, '\n'));
      last != "" && !StartsWith(last, DATE) && !StartsWith(last, VERSION)
    ensures var m := MatchFrontmatter(content).value;
      var cleaned := CleanFrontmatter(m.0);
      ProcessFrontmatterAsWritten(content).0 == OPEN + cleaned + OPEN + m.1 &&
      |cleaned| > 0 && cleaned[|cleaned| - 1] != '\n'
  {
    CleanedUnterminated(MatchFrontmatter(content).value.0);
  }

  /** `process_frontmatter` with the front matter rebuilt line by line:
      the surviving lines, each ended by a newline, then the closing `---`. */
  function ProcessFrontmatter(content: string): (string, bool) {
    match MatchFrontmatter(content)
    case None => (content, false)
    case Some((fm, rest)) =>
      (OPEN + Terminated(FieldsKept(fm)) + "---\n" + rest, CleanFrontmatter(fm) != fm)
  }

  /** The lines of a text, each ended by a newline, are the text and one newline. */
  lemma TerminatedLines(s: string)
    ensures Terminated(Split(s, '\n')) == s + "\n"
  {
    var lines := Split(s, '\n');
    TerminatedIsJoin(lines);
    JoinSplit(s, '\n');
    JoinAppend(lines, [""], "\n");
    assert Join([""], "\n") == "";
    AppendEmpty(s + "\n");
  }

  lemma Regroup(a: string, b: string, c: string, d: string, e: string)
    ensures a + (b + c) + d + e == a + b + (c + d) + e
  {
  }

  /** Without a field to remove every line survives. */
  lemma FieldsKeptAll(fm: string)
    requires forall i :: 0 <= i < |Split(fm, '\n')| ==>
      !StartsWith(Split(fm, '\n')[i], DATE) && !StartsWith(Split(fm, '\n')[i], VERSION)
    ensures FieldsKept(fm) == Split(fm, '\n')
  {
    var lines := Split(fm, '\n');
    KeptAll(lines, DATE);
    KeptAll(lines, VERSION);
  }

  /** A front matter the passes leave alone has no field to remove. */
  lemma NoFieldLines(fm: string)
    requires CleanFrontmatter(fm) == fm
    ensures forall i :: 0 <= i < |Split(fm, '\n')| ==>
      !StartsWith(Split(fm, '\n')[i], DATE) && !StartsWith(Split(fm, '\n')[i], VERSION)
  {
    CleanFrontmatterChanges(fm);
  }

  /** Without a field to remove the page comes back unchanged and unmodified. */
  lemma ProcessFrontmatterUnchanged(content: string)
    requires !ProcessFrontmatter(content).1
    ensures ProcessFrontmatter(content).0 == content
  {
    if MatchFrontmatter(content).Some? {
      var fm := MatchFrontmatter(content).value.0;
      var rest := MatchFrontmatter(content).value.1;
      NoFieldLines(fm);
      FieldsKeptAll(fm);
      TerminatedLines(fm);
      assert ProcessFrontmatter(content).0 == OPEN + (fm + "\n") + "---\n" + rest;
      Regroup(OPEN, fm, "\n", "---\n", rest);
      assert "\n" + "---\n" == CLOSE;
    }
  }

  /** The rebuilt page: its front matter lines are exactly the surviving
      lines and the text after the front matter is untouched. */
  lemma ProcessFrontmatterShape(content: string)
    requires MatchFrontmatter(content).Some?
    ensures var (fm, rest) := MatchFrontmatter(content).value;
      var out := ProcessFrontmatter(content).0;
      var body := Terminated(FieldsKept(fm));
      out == OPEN + body + "---\n" + rest &&
      Split(body, '\n') == FieldsKept(fm) + [""] &&
      (ProcessFrontmatter(content).1 <==>
        exists x :: x in Split(fm, '\n') && (StartsWith(x, DATE) || StartsWith(x, VERSION)))
  {
    var (fm, rest) := MatchFrontmatter(content).value;
    var ks := FieldsKept(fm);
    CleanFrontmatterChanges(fm);
    TerminatedIsJoin(ks);
    SplitNoSep(fm, '\n');
    assert forall i :: 0 <= i < |ks + [""]| ==> '\n' !in (ks + [""])[i] by {
      forall i | 0 <= i < |ks + [""]|
        ensures '\n' !in (ks + [""])[i]
      {
        if i < |ks| {
          FieldsKeptMembers(fm);
          assert (ks + [""])[i] == ks[i] && ks[i] in ks;
        }
      }
    }
    SplitJoin(ks + [""], '\n');
  }

  // ---------------------------------------------------------------- footer

  /** The footer markers, lower case: the patterns are matched ignoring case. */
  const MARKERS: seq<string> := ["**last updated**:", "__last updated__:", "last updated:"]

  predicate MarkedBy(line: string, m: string) {
    StartsWith(Lower(line), m)
  }

  predicate MarkedByAny(line: string, ms: seq<string>) {
    exists m :: m in ms && MarkedBy(line, m)
  }

  lemma MarkedByAnySnoc(line: string, ms: seq<string>, m: string)
    ensures MarkedByAny(line, ms + [m]) <==> MarkedByAny(line, ms) || MarkedBy(line, m)
  {
    if MarkedByAny(line, ms + [m]) {
      var m' :| m' in ms + [m] && MarkedBy(line, m');
      if m' != m {
        assert m' in ms;
      }
    }
    if MarkedByAny(line, ms) {
      var m' :| m' in ms && MarkedBy(line, m');
      assert m' in ms + [m];
    }
    if MarkedBy(line, m) {
      assert m in ms + [m];
    }
  }

  lemma MarkedByOne(line: string, m: string)
    ensures MarkedByAny(line, [m]) <==> MarkedBy(line, m)
  {
    assert m in [m];
  }

  /** The lines marked by none of `ms`, in order. */
  function Unmarked(lines: seq<string>, ms: seq<string>): (r: seq<string>)
    ensures |r| <= |lines|
  {
    if |lines| == 0 then []
    else (if MarkedByAny(lines[0], ms) then [] else [lines[0]]) + Unmarked(lines[1..], ms)
  }

  lemma {:induction false} UnmarkedMembers(lines: seq<string>, ms: seq<string>)
    ensures forall x :: x in Unmarked(lines, ms) <==> x in lines && !MarkedByAny(x, ms)
  {
    if |lines| > 0 {
      UnmarkedMembers(lines[1..], ms);
      assert lines == [lines[0]] + lines[1..];
    }
  }

  lemma {:induction false} UnmarkedNone(lines: seq<string>, ms: seq<string>)
    requires forall x :: x in lines ==> !MarkedByAny(x, ms)
    ensures Unmarked(lines, ms) == lines
  {
    if |lines| > 0 {
      assert lines[0] in lines;
      assert forall x :: x in lines[1..] ==> x in lines;
      UnmarkedNone(lines[1..], ms);
    }
  }

  lemma {:induction false} UnmarkedShrinks(lines: seq<string>, ms: seq<string>, x: string)
    requires x in lines && MarkedByAny(x, ms)
    ensures |Unmarked(lines, ms)| < |lines|
  {
    if lines[0] != x {
      assert x in lines[1..];
      UnmarkedShrinks(lines[1..], ms, x);
    }
  }

  /** Filtering by `ms` and then by `m` is filtering by `ms + [m]`. */
  lemma {:induction false} UnmarkedCompose(lines: seq<string>, ms: seq<string>, m: string)
    ensures Unmarked(Unmarked(lines, ms), [m]) == Unmarked(lines, ms + [m])
  {
    if |lines| > 0 {
      var l := lines[0];
      var u := Unmarked(lines[1..], ms);
      UnmarkedCompose(lines[1..], ms, m);
      MarkedByAnySnoc(l, ms, m);
      MarkedByAnySnoc(l, [], m);
      assert !MarkedByAny(l, []);
      if !MarkedByAny(l, ms) {
        assert Unmarked(lines, ms) == [l] + u;
        assert ([l] + u)[1..] == u;
      } else {
        assert Unmarked(lines, ms) == u;
      }
    }
  }

  /** `re.sub(r"\n<marker>.*?$", "", content, flags=re.MULTILINE | re.IGNORECASE)`:
      every line after the first whose lower-cased text starts with the
      marker goes, with the newline before it. */
  function StripMarker(content: string, m: string): string {
    var lines := Split(content, '\n');
    Join([lines[0]] + Unmarked(lines[1..], [m]), "\n")
  }

  lemma {:induction false} UnmarkedNoNewline(lines: seq<string>, ms: seq<string>)
    requires forall i :: 0 <= i < |lines| ==> '\n' !in lines[i]
    ensures var u := Unmarked(lines, ms);
      forall i :: 0 <= i < |u| ==> '\n' !in u[i]
  {
    var u := Unmarked(lines, ms);
    UnmarkedMembers(lines, ms);
    forall i | 0 <= i < |u|
      ensures '\n' !in u[i]
    {
      assert u[i] in lines;
    }
  }

  /** The lines a marker pass leaves: the first line, then the unmarked rest. */
  lemma StripMarkerLines(s: string, m: string)
    ensures var lines := Split(s, '\n');
      Split(StripMarker(s, m), '\n') == [lines[0]] + Unmarked(lines[1..], [m])
  {
    var lines := Split(s, '\n');
    SplitNoSep(s, '\n');
    var tail := lines[1..];
    var u := Unmarked(tail, [m]);
    assert '\n' !in lines[0];
    UnmarkedMembers(tail, [m]);
    var out := [lines[0]] + u;
    assert forall i :: 0 <= i < |out| ==> '\n' !in out[i] by {
      forall i | 0 <= i < |out|
        ensures '\n' !in out[i]
      {
        if i > 0 {
          assert out[i] == u[i - 1];
          assert u[i - 1] in tail;
          var j :| 0 <= j < |tail| && tail[j] == u[i - 1];
          assert tail[j] == lines[j + 1];
        }
      }
    }
    SplitJoin(out, '\n');
  }

  /** A marker pass changes the text exactly when a line after the first is marked. */
  lemma StripMarkerChanges(s: string, m: string)
    ensures var lines := Split(s, '\n');
      StripMarker(s, m) != s <==> exists x :: x in lines[1..] && MarkedBy(x, m)
  {
    var lines := Split(s, '\n');
    StripMarkerLines(s, m);
    if exists x :: x in lines[1..] && MarkedBy(x, m) {
      var x :| x in lines[1..] && MarkedBy(x, m);
      MarkedByOne(x, m);
      UnmarkedShrinks(lines[1..], [m], x);
    } else {
      forall x | x in lines[1..]
        ensures !MarkedByAny(x, [m])
      {
        MarkedByOne(x, m);
      }
      UnmarkedNone(lines[1..], [m]);
      assert [lines[0]] + lines[1..] == lines;
      JoinSplit(s, '\n');
    }
  }

  /** The patterns applied in turn; a pass that changes nothing leaves
      `modified` as it was. */
  function FooterPasses(content: string, ms: seq<string>): (string, bool)
    decreases |ms|
  {
    if |ms| == 0 then (content, false)
    else
      var prev := FooterPasses(content, ms[..|ms| - 1]);
      var next := StripMarker(prev.0, ms[|ms| - 1]);
      if next != prev.0 then (next, true) else prev
  }

  /** `remove_last_updated_footer`. */
  method RemoveLastUpdatedFooter(content: string) returns (result: string, modified: bool)
    ensures (result, modified) == FooterPasses(content, MARKERS)
  {
    result, modified := content, false;
    var i := 0;
    while i < |MARKERS|
      invariant 0 <= i <= |MARKERS|
      invariant (result, modified) == FooterPasses(content, MARKERS[..i])
    {
      assert MARKERS[..i + 1][..i] == MARKERS[..i];
      var next := StripMarker(result, MARKERS[i]);
      if next != result {
        modified := true;
        result := next;
      }
      i := i + 1;
    }
    assert MARKERS[..|MARKERS|] == MARKERS;
  }

  /** All passes together keep the first line and drop every later line
      marked by any of the markers. */
  lemma {:induction false} FooterLines(content: string, ms: seq<string>)
    ensures var lines := Split(content, '\n');
      Split(FooterPasses(content, ms).0, '\n') == [lines[0]] + Unmarked(lines[1..], ms)
    decreases |ms|
  {
    var lines := Split(content, '\n');
    if |ms| == 0 {
      UnmarkedNone(lines[1..], ms);
      assert [lines[0]] + lines[1..] == lines;
    } else {
      var front := ms[..|ms| - 1];
      var m := ms[|ms| - 1];
      assert ms == front + [m];
      FooterLines(content, front);
      var c := FooterPasses(content, front).0;
      StripMarkerLines(c, m);
      var u := Unmarked(lines[1..], front);
      assert ([lines[0]] + u)[1..] == u;
      UnmarkedCompose(lines[1..], front, m);
    }
  }

  /** `modified` is set exactly when some line after the first is marked. */
  lemma {:induction false} FooterModified(content: string, ms: seq<string>)
    ensures var lines := Split(content, '\n');
      FooterPasses(content, ms).1 <==> exists x :: x in lines[1..] && MarkedByAny(x, ms)
    decreases |ms|
  {
    var lines := Split(content, '\n');
    if |ms| > 0 {
      var front := ms[..|ms| - 1];
      var m := ms[|ms| - 1];
      assert ms == front + [m];
      FooterModified(content, front);
      FooterLines(content, front);
      var c := FooterPasses(content, front).0;
      StripMarkerChanges(c, m);
      var u := Unmarked(lines[1..], front);
      assert Split(c, '\n')[1..] == u;
      UnmarkedMembers(lines[1..], front);
      forall x
        ensures MarkedByAny(x, ms) <==> MarkedByAny(x, front) || MarkedBy(x, m)
      {
        MarkedByAnySnoc(x, front, m);
      }
    }
  }

  /** A run that reports no change returns the text it was given. */
  lemma {:induction false} FooterUnchanged(content: string, ms: seq<string>)
    requires !FooterPasses(content, ms).1
    ensures FooterPasses(content, ms).0 == content
    decreases |ms|
  {
    if |ms| > 0 {
      FooterUnchanged(content, ms[..|ms| - 1]);
    }
  }

  /** The footer pass keeps the first line and leaves no marked line after it. */
  lemma FooterResult(content: string)
    ensures var lines := Split(content, '\n');
      var out := Split(FooterPasses(content, MARKERS).0, '\n');
      out[0] == lines[0] &&
      (forall x :: x in out[1..] <==> x in lines[1..] && !MarkedByAny(x, MARKERS))
  {
    var lines := Split(content, '\n');
    FooterLines(content, MARKERS);
    UnmarkedMembers(lines[1..], MARKERS);
    var u := Unmarked(lines[1..], MARKERS);
    assert ([lines[0]] + u)[1..] == u;
  }

  /** A second run finds nothing left to remove. */
  lemma FooterIdempotent(content: string)
    ensures var out := FooterPasses(content, MARKERS).0;
      FooterPasses(out, MARKERS) == (out, false)
  {
    var out := FooterPasses(content, MARKERS).0;
    FooterResult(content);
    FooterModified(out, MARKERS);
    FooterUnchanged(out, MARKERS);
  }

  // ---------------------------------------------------------------- one page

  /** The corrected `process_file` on the text of a page: the new text and
      whether it is written back.  The front matter is rebuilt line by line
      by `ProcessFrontmatter`; a page that is not written back is left
      exactly as it was. */
  function ProcessPage(content: string): (r: (string, bool))
    ensures !r.1 ==> r.0 == content
  {
    var fm := ProcessFrontmatter(content);
    var footer := FooterPasses(fm.0, MARKERS);
    if fm.1 || footer.1 then (footer.0, true)
    else
      ProcessFrontmatterUnchanged(content);
      FooterUnchanged(fm.0, MARKERS);
      (footer.0, false)
  }

  /** A page is written back exactly when its front matter holds a `date:`
      or `version:` line, or a line after the first of the rebuilt text is
      a `Last Updated` footer. */
  lemma ProcessPageModified(content: string)
    ensures var lines := Split(ProcessFrontmatter(content).0, '\n');
      ProcessPage(content).1 <==>
        (MatchFrontmatter(content).Some? &&
         exists x :: x in Split(MatchFrontmatter(content).value.0, '\n') && (StartsWith(x, DATE) || StartsWith(x, VERSION))) ||
        (exists x :: x in lines[1..] && MarkedByAny(x, MARKERS))
  {
    if MatchFrontmatter(content).Some? {
      ProcessFrontmatterShape(content);
    }
    FooterModified(ProcessFrontmatter(content).0, MARKERS);
  }
}
