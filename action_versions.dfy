/** The workflow scan for pinned GitHub Actions: each line is searched
    for `uses: <repo>@<version>`, usages are grouped by repository, and
    the usages behind the latest release are reported. */
module ActionVersions {
  import opened Wrappers
  import opened Text
  import opened Dict
  import opened Sorting
  import opened VersionUtils

  /** Character classes of the search pattern `uses:\s+([^@\s]+)@([^\s]+)`. */
  datatype CharClass = Space | RepoChar | VersionChar

  predicate InClass(c: char, k: CharClass) {
    match k
    case Space => IsSpace(c)
    case RepoChar => c != '@' && !IsSpace(c)
    case VersionChar => !IsSpace(c)
  }

  /** End of the longest run of class `k` starting at `p`. */
  function RunEnd(s: string, p: nat, k: CharClass): (q: nat)
    requires p <= |s|
    ensures p <= q <= |s|
    ensures forall i :: p <= i < q ==> InClass(s[i], k)
    ensures q == |s| || !InClass(s[q], k)
    decreases |s| - p
  {
    if p == |s| || !InClass(s[p], k) then p else RunEnd(s, p + 1, k)
  }

  /** The pattern matched at position `i`: the captured repository and version. */
  function MatchAt(line: string, i: nat): (r: Option<(string, string)>)
    requires i <= |line|
    ensures r.Some? ==> |r.value.0| > 0 && |r.value.1| > 0
    ensures r.Some? ==> forall j :: 0 <= j < |r.value.0| ==> InClass(r.value.0[j], RepoChar)
    ensures r.Some? ==> forall j :: 0 <= j < |r.value.1| ==> InClass(r.value.1[j], VersionChar)
  {
    if !StartsWith(line[i..], "uses:") then None
    else
      var b := RunEnd(line, i + 5, Space);
      var c := RunEnd(line, b, RepoChar);
      if b == i + 5 || c == b || c == |line| || line[c] != '@' then None
      else
        var d := RunEnd(line, c + 1, VersionChar);
        if d == c + 1 then None
        else Some((line[b..c], line[c + 1..d]))
  }

  /** `re.search`: the match at the leftmost position where the pattern matches. */
  function Search(line: string, i: nat): (r: Option<(string, string)>)
    requires i <= |line|
    ensures r.Some? ==> |r.value.0| > 0 && |r.value.1| > 0
    ensures r.Some? ==> forall j :: 0 <= j < |r.value.0| ==> InClass(r.value.0[j], RepoChar)
    ensures r.Some? ==> forall j :: 0 <= j < |r.value.1| ==> InClass(r.value.1[j], VersionChar)
    decreases |line| - i
  {
    if MatchAt(line, i).Some? then MatchAt(line, i)
    else if i == |line| then None
    else Search(line, i + 1)
  }

  /** The search finds the match at the leftmost matching position. */
  lemma {:induction false} SearchLeftmost(line: string, i: nat)
    requires i <= |line| && Search(line, i).Some?
    ensures exists j :: i <= j <= |line| && MatchAt(line, j) == Search(line, i) &&
                        forall m :: i <= m < j ==> MatchAt(line, m).None?
    decreases |line| - i
  {
    if MatchAt(line, i).Some? {
      assert MatchAt(line, i) == Search(line, i);
    } else {
      assert i < |line| && Search(line, i) == Search(line, i + 1);
      SearchLeftmost(line, i + 1);
      var j :| i + 1 <= j <= |line| && MatchAt(line, j) == Search(line, i + 1) &&
               forall m :: i + 1 <= m < j ==> MatchAt(line, m).None?;
      assert forall m :: i <= m < j ==> MatchAt(line, m).None?;
    }
  }

  /** The search finds nothing only when no position matches. */
  lemma {:induction false} SearchNone(line: string, i: nat)
    requires i <= |line| && Search(line, i).None?
    ensures forall j :: i <= j <= |line| ==> MatchAt(line, j).None?
    decreases |line| - i
  {
    if i < |line| {
      SearchNone(line, i + 1);
    }
  }

  /** Docker and local actions are skipped. */
  predicate Accepted(repo: string) {
    '/' in repo && !StartsWith(repo, "docker://")
  }

  datatype Action = Action(repo: string, version: string, line: nat)

  /** The action found on one line, numbered `n`, if any. */
  function LineAction(line: string, n: nat): seq<Action> {
    ActionOf(Search(line, 0), n)
  }

  /** The action a match yields on line `n`: none for a docker or local action. */
  function ActionOf(found: Option<(string, string)>, n: nat): (r: seq<Action>)
    ensures |r| <= 1
  {
    match found
    case Some((repo, version)) => if Accepted(repo) then [Action(repo, version, n)] else []
    case None => []
  }

  /** What `extract_actions_from_workflow` collects from `lines` (numbered from 1). */
  function Extract(lines: seq<string>): seq<Action> {
    if |lines| == 0 then []
    else Extract(lines[..|lines| - 1]) + LineAction(lines[|lines| - 1], |lines|)
  }

  /** `extract_actions_from_workflow` on the text of one workflow file. */
  method ExtractActionsFromWorkflow(content: string) returns (actions: seq<Action>)
    ensures actions == Extract(SplitLines(content))
  {
    var lines := SplitLines(content);
    actions := [];
    var n := 0;
    while n < |lines|
      invariant 0 <= n <= |lines|
      invariant actions == Extract(lines[..n])
    {
      assert lines[..n + 1][..n] == lines[..n];
      var found := Search(lines[n], 0);
      if found.Some? {
        var (repo, version) := found.value;
        if '/' in repo && !StartsWith(repo, "docker://") {
          actions := actions + [Action(repo, version, n + 1)];
        }
      }
      n := n + 1;
    }
    assert lines[..n] == lines;
  }

  /** `a` is the accepted first match of the line it names (numbered from 1). */
  predicate FromLine(lines: seq<string>, a: Action) {
    1 <= a.line <= |lines| &&
    Search(lines[a.line - 1], 0) == Some((a.repo, a.version)) && Accepted(a.repo)
  }

  /** The repository holds no `@` and no whitespace; the version is non-empty without whitespace. */
  predicate Clean(a: Action) {
    '@' !in a.repo &&
    (forall j :: 0 <= j < |a.repo| ==> !IsSpace(a.repo[j])) &&
    |a.version| > 0 &&
    (forall j :: 0 <= j < |a.version| ==> !IsSpace(a.version[j]))
  }

  lemma LineActionWellFormed(line: string, n: nat)
    ensures forall a :: a in LineAction(line, n) ==>
              a.line == n && Search(line, 0) == Some((a.repo, a.version)) && Accepted(a.repo) && Clean(a)
  {
    var found := Search(line, 0);
    ActionOfWellFormed(found, n);
  }

  lemma ActionOfWellFormed(found: Option<(string, string)>, n: nat)
    requires found.Some? ==> |found.value.0| > 0 && |found.value.1| > 0
    requires found.Some? ==> forall j :: 0 <= j < |found.value.0| ==> InClass(found.value.0[j], RepoChar)
    requires found.Some? ==> forall j :: 0 <= j < |found.value.1| ==> InClass(found.value.1[j], VersionChar)
    ensures forall a :: a in ActionOf(found, n) ==>
              a.line == n && found == Some((a.repo, a.version)) && Accepted(a.repo) && Clean(a)
  {
    if found.Some? {
      var a := Action(found.value.0, found.value.1, n);
      assert forall j :: 0 <= j < |a.repo| ==> InClass(a.repo[j], RepoChar);
      assert '@' !in a.repo;
    }
  }

  /** Every extracted action comes from the line it names: its repository
      holds a `/`, no `@` and no whitespace and is not a `docker://` image,
      its version is non-empty without whitespace. */
  lemma {:induction false} ExtractWellFormed(lines: seq<string>)
    ensures forall a :: a in Extract(lines) ==> FromLine(lines, a) && Clean(a)
  {
    if |lines| > 0 {
      var prefix := lines[..|lines| - 1];
      ExtractWellFormed(prefix);
      LineActionWellFormed(lines[|lines| - 1], |lines|);
      forall a | a in Extract(prefix)
        ensures FromLine(lines, a)
      {
        assert FromLine(prefix, a);
        assert lines[a.line - 1] == prefix[a.line - 1];
      }
    }
  }

  /** Line numbers of the extracted actions are strictly increasing. */
  predicate Increasing(acts: seq<Action>) {
    forall k, m :: 0 <= k < m < |acts| ==> acts[k].line < acts[m].line
  }

  lemma {:induction false} ExtractIncreasing(lines: seq<string>)
    ensures Increasing(Extract(lines))
  {
    if |lines| > 0 {
      var prefix := lines[..|lines| - 1];
      ExtractIncreasing(prefix);
      ExtractWellFormed(prefix);
      LineActionWellFormed(lines[|lines| - 1], |lines|);
      var head := Extract(prefix);
      var tail := LineAction(lines[|lines| - 1], |lines|);
      var acts := Extract(lines);
      assert acts == head + tail;
      assert Increasing(head);
      forall k, m | 0 <= k < m < |acts|
        ensures acts[k].line < acts[m].line
      {
        if m < |head| {
          assert acts[k] == head[k] && acts[m] == head[m];
          assert head[k].line < head[m].line;
        } else {
          assert m == |head| && k < |head|;
          assert acts[k] == head[k] && head[k] in Extract(prefix);
          assert FromLine(prefix, head[k]);
          assert head[k].line <= |prefix|;
          assert acts[m] == tail[0] && tail[0] in LineAction(lines[|lines| - 1], |lines|);
          assert tail[0].line == |lines|;
        }
      }
    }
  }

  /** Every line whose first match is an accepted action yields exactly that action. */
  lemma {:induction false} ExtractComplete(lines: seq<string>, n: nat, repo: string, version: string)
    requires 1 <= n <= |lines|
    requires Search(lines[n - 1], 0) == Some((repo, version)) && Accepted(repo)
    ensures Action(repo, version, n) in Extract(lines)
  {
    var prefix := lines[..|lines| - 1];
    if n < |lines| {
      assert prefix[n - 1] == lines[n - 1];
      ExtractComplete(prefix, n, repo, version);
    }
  }

  /** One use of an action: pinned version, workflow file name, line number. */
  datatype Usage = Usage(version: string, file: string, line: nat)

  /** The actions of one file with the file attached, in line order. */
  function FileUsages(file: string, acts: seq<Action>): seq<(string, Usage)> {
    if |acts| == 0 then []
    else FileUsages(file, acts[..|acts| - 1]) +
         [(acts[|acts| - 1].repo, Usage(acts[|acts| - 1].version, file, acts[|acts| - 1].line))]
  }

  /** All usages of all workflow files, files in the given (sorted) order. */
  function AllUsages(files: seq<(string, string)>): seq<(string, Usage)> {
    if |files| == 0 then []
    else
      var (name, content) := files[|files| - 1];
      AllUsages(files[..|files| - 1]) + FileUsages(name, Extract(SplitLines(content)))
  }

  /** The usages of one repository, in order. */
  function UsagesOf(repo: string, all: seq<(string, Usage)>): seq<Usage> {
    if |all| == 0 then []
    else UsagesOf(repo, all[..|all| - 1]) +
         (if all[|all| - 1].0 == repo then [all[|all| - 1].1] else [])
  }

  /** Append one usage under its repository, creating the list on first sight. */
  function AddUsage(d: Dict<string, seq<Usage>>, repo: string, u: Usage): Dict<string, seq<Usage>> {
    Put(d, repo, Get(d, repo).GetOr([]) + [u])
  }

  /** The dictionary built from a sequence of usages. */
  function Group(all: seq<(string, Usage)>): Dict<string, seq<Usage>> {
    if |all| == 0 then []
    else AddUsage(Group(all[..|all| - 1]), all[|all| - 1].0, all[|all| - 1].1)
  }

  /** Grouping keeps each usage exactly once, under its repository and in
      its original order, and creates keys only for repositories in use. */
  lemma {:induction false} GroupContents(all: seq<(string, Usage)>, repo: string)
    ensures UniqueKeys(Group(all))
    ensures Get(Group(all), repo) == if UsagesOf(repo, all) == [] then None else Some(UsagesOf(repo, all))
  {
    if |all| > 0 {
      var prefix := all[..|all| - 1];
      var (r, u) := all[|all| - 1];
      var g := Group(prefix);
      var v := Get(g, r).GetOr([]) + [u];
      assert Group(all) == Put(g, r, v);
      GroupContents(prefix, repo);
      GroupContents(prefix, r);
      PutUnique(g, r, v);
      GetPut(g, r, v, repo);
      assert UsagesOf(repo, all) == UsagesOf(repo, prefix) + (if r == repo then [u] else []);
      if r == repo {
        assert Get(g, r).GetOr([]) == UsagesOf(repo, prefix);
        assert UsagesOf(repo, all) == v;
        assert Get(Group(all), repo) == Some(v);
      } else {
        assert UsagesOf(repo, all) == UsagesOf(repo, prefix);
        assert Get(Group(all), repo) == Get(g, repo);
      }
    }
  }

  lemma GroupSnoc(all: seq<(string, Usage)>, e: (string, Usage))
    ensures Group(all + [e]) == AddUsage(Group(all), e.0, e.1)
  {
    assert (all + [e])[..|all|] == all;
  }

  lemma FileUsagesSnoc(file: string, acts: seq<Action>, k: nat)
    requires k < |acts|
    ensures FileUsages(file, acts[..k + 1]) ==
            FileUsages(file, acts[..k]) + [(acts[k].repo, Usage(acts[k].version, file, acts[k].line))]
  {
    assert acts[..k + 1][..k] == acts[..k];
  }

  lemma AllUsagesSnoc(files: seq<(string, string)>, f: nat)
    requires f < |files|
    ensures AllUsages(files[..f + 1]) == AllUsages(files[..f]) + FileUsages(files[f].0, Extract(SplitLines(files[f].1)))
  {
    assert files[..f + 1][..f] == files[..f];
  }

  /** Adding usages one by one to an existing dictionary. */
  function GroupInto(d: Dict<string, seq<Usage>>, more: seq<(string, Usage)>): Dict<string, seq<Usage>> {
    if |more| == 0 then d
    else AddUsage(GroupInto(d, more[..|more| - 1]), more[|more| - 1].0, more[|more| - 1].1)
  }

  lemma {:induction false} GroupAppend(all: seq<(string, Usage)>, more: seq<(string, Usage)>)
    ensures Group(all + more) == GroupInto(Group(all), more)
  {
    if |more| == 0 {
      assert all + more == all;
    } else {
      var e := more[|more| - 1];
      var init := more[..|more| - 1];
      calc {
        Group(all + more);
        { assert more == init + [e]; SeqAssoc(all, init, [e]); }
        Group((all + init) + [e]);
        { GroupSnoc(all + init, e); }
        AddUsage(Group(all + init), e.0, e.1);
        { GroupAppend(all, init); }
        AddUsage(GroupInto(Group(all), init), e.0, e.1);
        GroupInto(Group(all), more);
      }
    }
  }

  lemma SeqAssoc<T>(a: seq<T>, b: seq<T>, c: seq<T>)
    ensures a + (b + c) == (a + b) + c
  {
  }

  /** The inner loop of `collect_all_actions`: one file's actions added under their repositories. */
  method AddFileActions(all: Dict<string, seq<Usage>>, name: string, actions: seq<Action>)
    returns (r: Dict<string, seq<Usage>>)
    ensures r == GroupInto(all, FileUsages(name, actions))
  {
    r := all;
    var k := 0;
    while k < |actions|
      invariant 0 <= k <= |actions|
      invariant r == GroupInto(all, FileUsages(name, actions[..k]))
    {
      var a := actions[k];
      FileUsagesSnoc(name, actions, k);
      ghost var more := FileUsages(name, actions[..k + 1]);
      assert more[..|more| - 1] == FileUsages(name, actions[..k]);
      r := AddUsage(r, a.repo, Usage(a.version, name, a.line));
      k := k + 1;
    }
    assert actions[..k] == actions;
  }

  /** `collect_all_actions` over the workflow files `(name, content)` in sorted order. */
  method CollectAllActions(files: seq<(string, string)>) returns (all: Dict<string, seq<Usage>>)
    ensures all == Group(AllUsages(files))
  {
    all := [];
    var f := 0;
    while f < |files|
      invariant 0 <= f <= |files|
      invariant all == Group(AllUsages(files[..f]))
    {
      var (name, content) := files[f];
      var actions := ExtractActionsFromWorkflow(content);
      AllUsagesSnoc(files, f);
      GroupAppend(AllUsages(files[..f]), FileUsages(name, actions));
      all := AddFileActions(all, name, actions);
      f := f + 1;
    }
    assert files[..f] == files;
  }

  /** An outdated usage as reported: repository, pinned, latest, file, line. */
  datatype OutdatedAction = OutdatedAction(repo: string, current: string, latest: string, file: string, line: nat)

  /** The usages `check_action_for_updates` reports, given the latest tag (`None` when the lookup failed). */
  function OutdatedUsages(repo: string, usages: seq<Usage>, latest: Option<string>): seq<OutdatedAction> {
    if latest.None? || latest.value == "" || |usages| == 0 then []
    else
      var u := usages[|usages| - 1];
      OutdatedUsages(repo, usages[..|usages| - 1], latest) +
      (if IsVersionOutdated(u.version, latest.value)
       then [OutdatedAction(repo, u.version, latest.value, u.file, u.line)] else [])
  }

  /** The report lines for `usages`, one per usage and in the same order. */
  function Reported(repo: string, latest: string, usages: seq<Usage>): (r: seq<OutdatedAction>)
    ensures |r| == |usages|
    ensures forall i :: 0 <= i < |r| ==>
              r[i] == OutdatedAction(repo, usages[i].version, latest, usages[i].file, usages[i].line)
  {
    if |usages| == 0 then []
    else
      var u := usages[|usages| - 1];
      Reported(repo, latest, usages[..|usages| - 1]) + [OutdatedAction(repo, u.version, latest, u.file, u.line)]
  }

  /** Without a latest tag nothing is reported; otherwise exactly the
      usages behind it are, in usage order. */
  lemma {:induction false} OutdatedUsagesExact(repo: string, usages: seq<Usage>, latest: Option<string>)
    ensures latest.None? || latest == Some("") ==> OutdatedUsages(repo, usages, latest) == []
    ensures latest.Some? && latest.value != "" ==>
              OutdatedUsages(repo, usages, latest) == Reported(repo, latest.value, Behind(usages, latest.value))
  {
    if |usages| > 0 && latest.Some? && latest.value != "" {
      var prefix := usages[..|usages| - 1];
      OutdatedUsagesExact(repo, prefix, latest);
      var u := usages[|usages| - 1];
      var b := Behind(prefix, latest.value);
      if IsVersionOutdated(u.version, latest.value) {
        assert Behind(usages, latest.value) == b + [u];
        assert (b + [u])[..|b|] == b;
      } else {
        assert Behind(usages, latest.value) == b;
      }
    }
  }

  /** The usages pinned behind `latest`, in order. */
  function Behind(usages: seq<Usage>, latest: string): (r: seq<Usage>)
    ensures forall u :: u in r <==> u in usages && IsVersionOutdated(u.version, latest)
  {
    if |usages| == 0 then []
    else
      var u := usages[|usages| - 1];
      Behind(usages[..|usages| - 1], latest) + (if IsVersionOutdated(u.version, latest) then [u] else [])
  }

  lemma OutdatedUsagesSnoc(repo: string, usages: seq<Usage>, k: nat, latest: Option<string>)
    requires latest.Some? && latest.value != "" && k < |usages|
    ensures OutdatedUsages(repo, usages[..k + 1], latest) ==
            OutdatedUsages(repo, usages[..k], latest) +
            (if IsVersionOutdated(usages[k].version, latest.value)
             then [OutdatedAction(repo, usages[k].version, latest.value, usages[k].file, usages[k].line)] else [])
  {
    assert usages[..k + 1][..k] == usages[..k];
  }

  /** The loop of `check_action_for_updates` once a latest tag is known. */
  method OutdatedOf(repo: string, usages: seq<Usage>, latest: string) returns (added: seq<OutdatedAction>)
    requires latest != ""
    ensures added == OutdatedUsages(repo, usages, Some(latest))
  {
    added := [];
    var k := 0;
    while k < |usages|
      invariant 0 <= k <= |usages|
      invariant added == OutdatedUsages(repo, usages[..k], Some(latest))
    {
      OutdatedUsagesSnoc(repo, usages, k, Some(latest));
      var u := usages[k];
      if IsVersionOutdated(u.version, latest) {
        added := added + [OutdatedAction(repo, u.version, latest, u.file, u.line)];
      }
      k := k + 1;
    }
    assert usages[..k] == usages;
  }

  /** The caller-owned list that `check_action_for_updates` appends to. */
  class Report {
    var outdated: seq<OutdatedAction>

    constructor ()
      ensures outdated == []
    {
      outdated := [];
    }

    /** `check_action_for_updates`: appends the outdated usages and leaves earlier entries alone. */
    method CheckActionForUpdates(repo: string, usages: seq<Usage>, latest: Option<string>)
      modifies this
      ensures outdated == old(outdated) + OutdatedUsages(repo, usages, latest)
    {
      if latest.None? || latest.value == "" {
        return;
      }
      var added := OutdatedOf(repo, usages, latest.value);
      outdated := outdated + added;
    }
  }

  /** Dictionary entries ordered by key, as `sorted(d.items())` orders them for distinct keys. */
  function KeyLess(a: (string, seq<Usage>), b: (string, seq<Usage>)): bool {
    Less(a.0, b.0)
  }

  /** The report over all repositories in sorted order. */
  function AllOutdated(entries: seq<(string, seq<Usage>)>, latestTag: string -> Option<string>): seq<OutdatedAction> {
    if |entries| == 0 then []
    else
      var e := entries[|entries| - 1];
      AllOutdated(entries[..|entries| - 1], latestTag) + OutdatedUsages(e.0, e.1, latestTag(e.0))
  }

  lemma AllOutdatedSnoc(entries: seq<(string, seq<Usage>)>, k: nat, latestTag: string -> Option<string>)
    requires k < |entries|
    ensures AllOutdated(entries[..k + 1], latestTag) ==
            AllOutdated(entries[..k], latestTag) + OutdatedUsages(entries[k].0, entries[k].1, latestTag(entries[k].0))
  {
    assert entries[..k + 1][..k] == entries[..k];
  }

  /** `check_action_versions()`: exit code and the outdated usages it reports.
      `files` are the workflow files `(name, content)` in sorted order. */
  method CheckActionVersions(workflowsExist: bool, token: Option<string>,
                             files: seq<(string, string)>, latestTag: string -> Option<string>)
    returns (code: int, outdated: seq<OutdatedAction>)
    ensures !workflowsExist ==> code == 1 && outdated == []
    ensures workflowsExist && (token.None? || token == Some("")) ==> code == 1 && outdated == []
    ensures workflowsExist && token.Some? && token.value != "" ==>
              outdated == AllOutdated(Sort(Group(AllUsages(files)), KeyLess), latestTag) &&
              (code == 1 <==> outdated != []) && (code == 0 <==> outdated == [])
  {
    if !workflowsExist {
      return 1, [];
    }
    if token.None? || token.value == "" {
      return 1, [];
    }
    var all := CollectAllActions(files);
    var entries := Sort(all, KeyLess);
    var report := new Report();
    var k := 0;
    while k < |entries|
      invariant 0 <= k <= |entries|
      invariant report.outdated == AllOutdated(entries[..k], latestTag)
    {
      AllOutdatedSnoc(entries, k, latestTag);
      var (repo, usages) := entries[k];
      report.CheckActionForUpdates(repo, usages, latestTag(repo));
      k := k + 1;
    }
    assert entries[..k] == entries;
    outdated := report.outdated;
    code := if outdated != [] then 1 else 0;
  }

  /** The repositories are visited in ascending order, each once. */
  lemma SortedRepositories(files: seq<(string, string)>)
    ensures var entries := Sort(Group(AllUsages(files)), KeyLess);
      forall i, j :: 0 <= i < j < |entries| ==> Less(entries[i].0, entries[j].0)
  {
    var g := Group(AllUsages(files));
    var entries := Sort(g, KeyLess);
    GroupContents(AllUsages(files), "");
    assert StrictOrder(KeyLess) by {
      forall a | true
        ensures !KeyLess(a, a)
      {
        LessIrreflexive(a.0);
      }
      forall a, b, c | KeyLess(a, b) && KeyLess(b, c)
        ensures KeyLess(a, c)
      {
        LessTransitive(a.0, b.0, c.0);
      }
    }
    SortSorted(g, KeyLess);
    forall i, j | 0 <= i < j < |entries|
      ensures Less(entries[i].0, entries[j].0)
    {
      SortedPairStrict(g, entries, i, j);
    }
  }

  lemma SortedPairStrict(g: Dict<string, seq<Usage>>, entries: seq<(string, seq<Usage>)>, i: nat, j: nat)
    requires UniqueKeys(g) && multiset(entries) == multiset(g) && SortedBy(entries, KeyLess)
    requires i < j < |entries|
    ensures Less(entries[i].0, entries[j].0)
  {
    assert entries[i] in multiset(g) && entries[j] in multiset(g);
    var p :| 0 <= p < |g| && g[p] == entries[i];
    var q :| 0 <= q < |g| && g[q] == entries[j];
    assert !KeyLess(entries[j], entries[i]);
    LessTotal(entries[i].0, entries[j].0);
    assert p != q ==> g[p].0 != g[q].0;
    DistinctPositions(entries, g, i, j, p, q);
  }
}
