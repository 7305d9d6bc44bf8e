/** The one-off migration of tracker issues from the `phase-N` labels to
    the `type:`/`scope:`/`priority:` taxonomy. The issue tracker is a
    `Tracker` value, the label list of each issue, that the migration
    carries from step to step: `issuesWith` lists the issues it returns for
    a label, `getOk` says whether the read of an issue answers 200 and
    `patchOk` whether writing a label list is accepted; an accepted write
    changes the tracker, so later reads see it. The writes the script makes
    are recorded as `Call`s. */
module PhaseLabels {
  import opened Wrappers
  import opened Text

  /** Each phase label and the labels that replace it, in the order they are migrated. */
  const PHASE_MAPPING: seq<(string, seq<string>)> := [
    ("phase-1", [TYPE + "maintenance", PRIORITY + "high"]),
    ("phase-2", [TYPE + "docs", SCOPE + "language-guide", PRIORITY + "high"]),
    ("phase-3", [TYPE + "docs", SCOPE + "language-guide", PRIORITY + "medium"]),
    ("phase-4", [TYPE + "docs", PRIORITY + "medium"]),
    ("phase-5", [TYPE + "maintenance", SCOPE + "automation", PRIORITY + "high"]),
    ("phase-6", [TYPE + "maintenance", PRIORITY + "low"])
  ]

  /** The label families of the taxonomy. */
  const TYPE := "type:"
  const SCOPE := "scope:"
  const PRIORITY := "priority:"

  const REPO_URL := "https://github.com/tydukes/coding-style-guide"

  /** How many labels start with `prefix`. */
  function CountWith(labels: seq<string>, prefix: string): nat {
    if |labels| == 0 then 0
    else (if StartsWith(labels[0], prefix) then 1 else 0) + CountWith(labels[1..], prefix)
  }

  /** A text that differs from `prefix` at a position they share does not start with it. */
  lemma Differs(s: string, prefix: string, i: nat)
    requires i < |s| && i < |prefix| && s[i] != prefix[i]
    ensures !StartsWith(s, prefix)
  {
    if |prefix| <= |s| {
      assert s[..|prefix|][i] == s[i];
    }
  }

  lemma TypeLabel(kind: string)
    ensures StartsWith(TYPE + kind, TYPE)
    ensures !StartsWith(TYPE + kind, PRIORITY) && !StartsWith(TYPE + kind, "phase-")
  {
    ConcatEnds(TYPE, kind);
    Differs(TYPE + kind, PRIORITY, 0);
    Differs(TYPE + kind, "phase-", 0);
  }

  lemma ScopeLabel(kind: string)
    ensures !StartsWith(SCOPE + kind, TYPE)
    ensures !StartsWith(SCOPE + kind, PRIORITY) && !StartsWith(SCOPE + kind, "phase-")
  {
    Differs(SCOPE + kind, TYPE, 0);
    Differs(SCOPE + kind, PRIORITY, 0);
    Differs(SCOPE + kind, "phase-", 0);
  }

  lemma PriorityLabel(kind: string)
    ensures StartsWith(PRIORITY + kind, PRIORITY)
    ensures !StartsWith(PRIORITY + kind, TYPE) && !StartsWith(PRIORITY + kind, "phase-")
  {
    ConcatEnds(PRIORITY, kind);
    Differs(PRIORITY + kind, TYPE, 0);
    Differs(PRIORITY + kind, "phase-", 1);
  }

  lemma CountWithPair(a: string, b: string)
    ensures forall prefix :: CountWith([a, b], prefix) ==
              (if StartsWith(a, prefix) then 1 else 0) + (if StartsWith(b, prefix) then 1 else 0)
  {
    forall prefix
      ensures CountWith([a, b], prefix) ==
              (if StartsWith(a, prefix) then 1 else 0) + (if StartsWith(b, prefix) then 1 else 0)
    {
      assert [a, b][1..] == [b];
      assert [b][1..] == [];
      assert CountWith([b], prefix) == (if StartsWith(b, prefix) then 1 else 0);
    }
  }

  /** Exactly one `type:` label, exactly one `priority:` label, no phase label. */
  predicate WellShaped(labels: seq<string>) {
    CountWith(labels, TYPE) == 1 && CountWith(labels, PRIORITY) == 1 && CountWith(labels, "phase-") == 0
  }

  lemma TwoLabels(kind: string, priority: string)
    ensures WellShaped([TYPE + kind, PRIORITY + priority])
  {
    TypeLabel(kind);
    PriorityLabel(priority);
    CountWithPair(TYPE + kind, PRIORITY + priority);
  }

  lemma ThreeLabels(kind: string, scope: string, priority: string)
    ensures WellShaped([TYPE + kind, SCOPE + scope, PRIORITY + priority])
  {
    TypeLabel(kind);
    ScopeLabel(scope);
    PriorityLabel(priority);
    var labels := [TYPE + kind, SCOPE + scope, PRIORITY + priority];
    assert labels[1..] == [SCOPE + scope, PRIORITY + priority];
    CountWithPair(SCOPE + scope, PRIORITY + priority);
  }

  /** The mapping covers `phase-1` to `phase-6`; every phase gets exactly one
      `type:` and one `priority:` label, and never a phase label. */
  lemma MappingShape()
    ensures |PHASE_MAPPING| == 6
    ensures forall k :: 0 <= k < 6 ==> PHASE_MAPPING[k].0 == "phase-" + [DigitChar(k + 1)]
    ensures forall k :: 0 <= k < 6 ==> WellShaped(PHASE_MAPPING[k].1)
  {
    assert DigitChar(1) == '1' && DigitChar(2) == '2' && DigitChar(3) == '3';
    assert DigitChar(4) == '4' && DigitChar(5) == '5' && DigitChar(6) == '6';
    TwoLabels("maintenance", "high");
    ThreeLabels("docs", "language-guide", "high");
    ThreeLabels("docs", "language-guide", "medium");
    TwoLabels("docs", "medium");
    ThreeLabels("maintenance", "automation", "high");
    TwoLabels("maintenance", "low");
  }

  /** A label counted by no prefix `"phase-"` is not a phase label. */
  lemma {:induction false} NoPhaseLabel(labels: seq<string>, phase: string)
    requires CountWith(labels, "phase-") == 0 && StartsWith(phase, "phase-")
    ensures phase !in labels
  {
    if |labels| > 0 {
      assert !StartsWith(labels[0], "phase-");
      NoPhaseLabel(labels[1..], phase);
      assert labels == [labels[0]] + labels[1..];
    }
  }

  /** Every phase of the mapping is absent from its own replacement labels. */
  lemma MappingNeverReaddsPhase()
    ensures forall k :: 0 <= k < |PHASE_MAPPING| ==> PHASE_MAPPING[k].0 !in PHASE_MAPPING[k].1
  {
    MappingShape();
    forall k | 0 <= k < |PHASE_MAPPING|
      ensures PHASE_MAPPING[k].0 !in PHASE_MAPPING[k].1
    {
      assert StartsWith(PHASE_MAPPING[k].0, "phase-");
      assert WellShaped(PHASE_MAPPING[k].1);
      NoPhaseLabel(PHASE_MAPPING[k].1, PHASE_MAPPING[k].0);
    }
  }

  // ---------------------------------------------------------------------
  // The label computation of `update_issue_labels`

  predicate NoDup(s: seq<string>) {
    forall i, j :: 0 <= i < j < |s| ==> s[i] != s[j]
  }

  /** The current labels that are not to be removed, in their order. */
  function Kept(current: seq<string>, remove: seq<string>): (r: seq<string>)
    ensures forall l :: l in r <==> l in current && l !in remove
    ensures |r| <= |current|
  {
    if |current| == 0 then []
    else
      assert current == [current[0]] + current[1..];
      (if current[0] in remove then [] else [current[0]]) + Kept(current[1..], remove)
  }

  /** `list(set(labels))`: each label once. */
  function Dedup(labels: seq<string>): (r: seq<string>)
    ensures NoDup(r)
    ensures forall l :: l in r <==> l in labels
    ensures |r| <= |labels|
  {
    if |labels| == 0 then []
    else
      var init := labels[..|labels| - 1];
      var last := labels[|labels| - 1];
      assert labels == init + [last];
      var r := Dedup(init);
      if last in r then r else r + [last]
  }

  /** The labels written back: the current ones minus `remove`, plus `add`,
      without duplicates. */
  function NewLabels(current: seq<string>, add: seq<string>, remove: seq<string>): (r: seq<string>)
    ensures forall l :: l in r <==> (l in current && l !in remove) || l in add
    ensures NoDup(r)
    ensures |r| <= |current| + |add|
  {
    Dedup(Kept(current, remove) + add)
  }

  // ---------------------------------------------------------------------
  // The migration comment

  function Quote(name: string): string {
    "`" + name + "`"
  }

  /** The labels in backticks, joined by ", ". */
  function LabelList(labels: seq<string>): string {
    Join(seq(|labels|, i requires 0 <= i < |labels| => Quote(labels[i])), ", ")
  }

  const INTRO_LEAD := "**Label Migration**: "
  const INTRO_FROM := "This issue has been updated from `"
  const INTRO_TO := "` to the new label taxonomy:"

  /** The comment's first line. */
  function CommentHead(phase: string): string {
    INTRO_LEAD + INTRO_FROM + phase + INTRO_TO
  }

  const COMMENT_TAIL: string :=
    "\nThe phase labels represented project milestones that are now complete. "
    + "The new labels better reflect ongoing maintenance and priorities.\n\n"
    + "For more information about the new label system, see [CLAUDE.md]("
    + REPO_URL + "/blob/main/CLAUDE.md) and [CONTRIBUTING.md](" + REPO_URL + "/blob/main/CONTRIBUTING.md)."

  /** The comment left on a migrated issue. */
  function CommentBody(phase: string, labels: seq<string>): string {
    CommentHead(phase) + ['\n'] + (("- " + LabelList(labels)) + ['\n'] + COMMENT_TAIL)
  }

  lemma LabelListCons(l: string, rest: seq<string>)
    requires |rest| >= 1
    ensures LabelList([l] + rest) == Quote(l) + ", " + LabelList(rest)
  {
    var q := seq(|rest| + 1, i requires 0 <= i < |rest| + 1 => Quote(([l] + rest)[i]));
    assert q[1..] == seq(|rest|, i requires 0 <= i < |rest| => Quote(rest[i]));
  }

  /** Every other part of a split, starting with the second. */
  function Odds(parts: seq<string>): seq<string> {
    if |parts| < 2 then [] else [parts[1]] + Odds(parts[2..])
  }

  /** The labels read back from a comment's list: the texts between pairs of backticks. */
  function Unquote(s: string): seq<string> {
    Odds(Split(s, '`'))
  }

  predicate NoBacktick(labels: seq<string>) {
    forall i :: 0 <= i < |labels| ==> '`' !in labels[i]
  }

  lemma OddsSkip(a: string, b: string, s: seq<string>)
    ensures Odds([a, b] + s) == [b] + Odds(s)
  {
    assert ([a, b] + s)[2..] == s;
  }

  lemma SplitQuoted(pre: string, l: string, tail: string)
    requires '`' !in pre && '`' !in l
    ensures Split(pre + ['`'] + (l + ['`'] + tail), '`') == [pre, l] + Split(tail, '`')
  {
    SplitConcat(pre, l + ['`'] + tail, '`');
    SplitConcat(l, tail, '`');
    SplitPlain(pre, '`');
    SplitPlain(l, '`');
  }

  /** Splitting `pre` and a non-empty label list at backticks: `pre`, the
      first label, then the parts of what follows it. */
  lemma SplitLabelList(pre: string, l: string, rest: seq<string>)
    requires '`' !in pre && '`' !in l
    ensures Split(pre + LabelList([l] + rest), '`') ==
            [pre, l] + Split(if |rest| == 0 then "" else ", " + LabelList(rest), '`')
  {
    var tail: string := if |rest| == 0 then "" else ", " + LabelList(rest);
    assert pre + LabelList([l] + rest) == pre + ['`'] + (l + ['`'] + tail) by {
      if |rest| == 0 {
        assert LabelList([l] + rest) == Quote(l);
      } else {
        LabelListCons(l, rest);
      }
    }
    SplitQuoted(pre, l, tail);
  }

  lemma {:induction false} UnquoteAfter(pre: string, labels: seq<string>)
    requires |labels| >= 1 && '`' !in pre && NoBacktick(labels)
    ensures Unquote(pre + LabelList(labels)) == labels
    decreases |labels|
  {
    var l := labels[0];
    var rest := labels[1..];
    assert labels == [l] + rest;
    assert '`' !in l;
    SplitLabelList(pre, l, rest);
    var s := Split(if |rest| == 0 then "" else ", " + LabelList(rest), '`');
    OddsSkip(pre, l, s);
    if |rest| > 0 {
      assert NoBacktick(rest) by {
        forall i | 0 <= i < |rest| ensures '`' !in rest[i] { assert rest[i] == labels[i + 1]; }
      }
      UnquoteAfter(", ", rest);
    }
  }

  /** Reading the labels back out of the list gives the labels, when none
      holds a backtick. */
  lemma UnquoteLabelList(labels: seq<string>)
    requires NoBacktick(labels)
    ensures Unquote(LabelList(labels)) == labels
  {
    if |labels| > 0 {
      UnquoteAfter("", labels);
      assert "" + LabelList(labels) == LabelList(labels);
    }
  }

  /** The first two lines of `h + "\n" + m + "\n" + t`. */
  lemma TwoLines(h: string, m: string, t: string)
    requires '\n' !in h && '\n' !in m
    ensures |SplitLines(h + ['\n'] + (m + ['\n'] + t))| >= 2
    ensures SplitLines(h + ['\n'] + (m + ['\n'] + t))[0] == h
    ensures SplitLines(h + ['\n'] + (m + ['\n'] + t))[1] == m
  {
    SplitConcat(h, m + ['\n'] + t, '\n');
    SplitConcat(m, t, '\n');
    SplitPlain(h, '\n');
    SplitPlain(m, '\n');
  }

  lemma HeadHasNoBreak(phase: string)
    requires '\n' !in phase
    ensures '\n' !in CommentHead(phase)
  {
    assert '\n' !in INTRO_LEAD && '\n' !in INTRO_FROM && '\n' !in INTRO_TO;
  }

  /** The comment's first line names the phase and its second line is the
      label list after "- ", when neither holds a line break. */
  lemma CommentLines(phase: string, labels: seq<string>)
    requires '\n' !in phase && '\n' !in LabelList(labels)
    ensures |SplitLines(CommentBody(phase, labels))| >= 2
    ensures SplitLines(CommentBody(phase, labels))[0] == CommentHead(phase)
    ensures SplitLines(CommentBody(phase, labels))[1] == "- " + LabelList(labels)
  {
    HeadHasNoBreak(phase);
    assert '\n' !in "- " + LabelList(labels);
    TwoLines(CommentHead(phase), "- " + LabelList(labels), COMMENT_TAIL);
  }

  // ---------------------------------------------------------------------
  // The migration

  /** The tracker's side of the migration: the label list of each issue. */
  type Tracker = map<int, seq<string>>

  /** A write made to the tracker. */
  datatype Call = Patch(issue: int, labels: seq<string>) | Comment(issue: int, phase: string, added: seq<string>)

  /** The GET of `update_issue_labels`: the issue's labels as the tracker
      holds them now, or `None` when the issue does not exist or the read
      does not answer 200. */
  function Fetch(t: Tracker, getOk: int -> bool, issue: int): Option<seq<string>> {
    if issue in t && getOk(issue) then Some(t[issue]) else None
  }

  /** What one call of `update_issue_labels` did: its result, the write it
      made and the tracker afterwards. */
  datatype Update = Update(ok: bool, calls: seq<Call>, tracker: Tracker)

  /** `update_issue_labels`: reads the issue's current labels and writes back
      those not in `remove` plus `add`; the tracker changes only when that
      write is accepted, and then only for this issue. */
  function UpdateIssueLabels(issue: int, add: seq<string>, remove: seq<string>,
                             t: Tracker, getOk: int -> bool,
                             patchOk: (int, seq<string>) -> bool): (r: Update)
    ensures Fetch(t, getOk, issue).None? ==> r == Update(false, [], t)
    ensures Fetch(t, getOk, issue).Some? ==>
              r.calls == [Patch(issue, NewLabels(t[issue], add, remove))] &&
              (r.ok <==> patchOk(issue, r.calls[0].labels))
    ensures r.tracker.Keys == t.Keys
    ensures forall i :: i in t && i != issue ==> r.tracker[i] == t[i]
    ensures issue in t ==>
              if r.ok then forall l :: l in r.tracker[issue] <==> (l in t[issue] && l !in remove) || l in add
              else r.tracker[issue] == t[issue]
  {
    match Fetch(t, getOk, issue)
    case None => Update(false, [], t)
    case Some(current) =>
      var labels := NewLabels(current, add, remove);
      var ok := patchOk(issue, labels);
      Update(ok, [Patch(issue, labels)], if ok then t[issue := labels] else t)
  }

  /** `add_migration_comment`, which posts `CommentBody(phase, labels)`;
      its outcome is ignored by the caller. */
  function AddMigrationComment(issue: int, phase: string, labels: seq<string>): Call {
    Comment(issue, phase, labels)
  }

  /** The running state of `migrate_phase_labels`: `total_migrated`, the
      writes made so far and the tracker. */
  datatype Progress = Progress(migrated: nat, calls: seq<Call>, tracker: Tracker)

  /** The writes made for one issue: the label update and, when it
      succeeded, the comment. */
  function IssueCalls(phase: string, labels: seq<string>, u: Update, issue: int): seq<Call> {
    u.calls + (if u.ok then [AddMigrationComment(issue, phase, labels)] else [])
  }

  /** One issue of a phase, handled from the state `p`. */
  function IssueStep(phase: string, labels: seq<string>, issue: int, p: Progress,
                     getOk: int -> bool, patchOk: (int, seq<string>) -> bool): (r: Progress)
    ensures p.calls <= r.calls && p.migrated <= r.migrated && r.tracker.Keys == p.tracker.Keys
  {
    var u := UpdateIssueLabels(issue, labels, [phase], p.tracker, getOk, patchOk);
    Progress(p.migrated + (if u.ok then 1 else 0), p.calls + IssueCalls(phase, labels, u, issue), u.tracker)
  }

  /** The issues listed for one phase, handled in order from the state `p`. */
  function PhaseRun(phase: string, labels: seq<string>, issues: seq<int>, p: Progress,
                    getOk: int -> bool, patchOk: (int, seq<string>) -> bool): (r: Progress)
    ensures p.calls <= r.calls && p.migrated <= r.migrated && r.tracker.Keys == p.tracker.Keys
  {
    if |issues| == 0 then p
    else IssueStep(phase, labels, issues[|issues| - 1],
                   PhaseRun(phase, labels, issues[..|issues| - 1], p, getOk, patchOk), getOk, patchOk)
  }

  /** The phases of `mapping`, in order, from the state `p`. Each phase lists
      its issues from the tracker as it stands when that phase begins. */
  function MigrationRun(mapping: seq<(string, seq<string>)>, issuesWith: (Tracker, string) -> seq<int>,
                        p: Progress, getOk: int -> bool, patchOk: (int, seq<string>) -> bool): (r: Progress)
    ensures p.calls <= r.calls && p.migrated <= r.migrated && r.tracker.Keys == p.tracker.Keys
  {
    if |mapping| == 0 then p
    else
      var q := MigrationRun(mapping[..|mapping| - 1], issuesWith, p, getOk, patchOk);
      var (phase, labels) := mapping[|mapping| - 1];
      PhaseRun(phase, labels, issuesWith(q.tracker, phase), q, getOk, patchOk)
  }

  /** `IssueStep` spelt out from the update it makes. */
  lemma IssueStepOf(phase: string, labels: seq<string>, issue: int, p: Progress, u: Update,
                    getOk: int -> bool, patchOk: (int, seq<string>) -> bool)
    requires u == UpdateIssueLabels(issue, labels, [phase], p.tracker, getOk, patchOk)
    ensures IssueStep(phase, labels, issue, p, getOk, patchOk) ==
            if u.ok then Progress(p.migrated + 1, p.calls + u.calls + [AddMigrationComment(issue, phase, labels)], u.tracker)
            else Progress(p.migrated, p.calls + u.calls, u.tracker)
  {
    if u.ok {
      assert p.calls + IssueCalls(phase, labels, u, issue) == p.calls + u.calls + [AddMigrationComment(issue, phase, labels)];
    } else {
      assert p.calls + IssueCalls(phase, labels, u, issue) == p.calls + u.calls;
    }
  }

  lemma PhaseStep(phase: string, labels: seq<string>, issues: seq<int>, j: nat, p: Progress,
                  getOk: int -> bool, patchOk: (int, seq<string>) -> bool)
    requires j < |issues|
    ensures PhaseRun(phase, labels, issues[..j + 1], p, getOk, patchOk) ==
            IssueStep(phase, labels, issues[j], PhaseRun(phase, labels, issues[..j], p, getOk, patchOk), getOk, patchOk)
  {
    assert issues[..j + 1][..j] == issues[..j];
  }

  /** The inner loop of `migrate_phase_labels` over the issues listed for one
      phase: it carries on the counter, the writes and the tracker it is given. */
  method MigratePhase(dryRun: bool, phase: string, newLabels: seq<string>, issues: seq<int>,
                      total0: nat, calls0: seq<Call>, tracker0: Tracker,
                      getOk: int -> bool, patchOk: (int, seq<string>) -> bool)
    returns (total: nat, calls: seq<Call>, tracker: Tracker)
    ensures dryRun ==> total == total0 && calls == calls0 && tracker == tracker0
    ensures !dryRun ==> Progress(total, calls, tracker) ==
                        PhaseRun(phase, newLabels, issues, Progress(total0, calls0, tracker0), getOk, patchOk)
  {
    total, calls, tracker := total0, calls0, tracker0;
    var j := 0;
    while j < |issues|
      invariant 0 <= j <= |issues|
      invariant dryRun ==> total == total0 && calls == calls0 && tracker == tracker0
      invariant !dryRun ==> Progress(total, calls, tracker) ==
                            PhaseRun(phase, newLabels, issues[..j], Progress(total0, calls0, tracker0), getOk, patchOk)
    {
      var issue := issues[j];
      if !dryRun {
        ghost var before := Progress(total, calls, tracker);
        PhaseStep(phase, newLabels, issues, j, Progress(total0, calls0, tracker0), getOk, patchOk);
        var update := UpdateIssueLabels(issue, newLabels, [phase], tracker, getOk, patchOk);
        calls := calls + update.calls;
        tracker := update.tracker;
        if update.ok {
          total := total + 1;
          calls := calls + [AddMigrationComment(issue, phase, newLabels)];
        }
        IssueStepOf(phase, newLabels, issue, before, update, getOk, patchOk);
      }
      j := j + 1;
    }
    assert issues[..j] == issues;
  }

  /** `migrate_phase_labels(dry_run)` over the phases of `mapping`: the
      counter, the writes made and the tracker afterwards. */
  method Migrate(dryRun: bool, mapping: seq<(string, seq<string>)>, issuesWith: (Tracker, string) -> seq<int>,
                 tracker0: Tracker, getOk: int -> bool, patchOk: (int, seq<string>) -> bool)
    returns (total: nat, calls: seq<Call>, tracker: Tracker)
    ensures dryRun ==> total == 0 && calls == [] && tracker == tracker0
    ensures !dryRun ==> Progress(total, calls, tracker) ==
                        MigrationRun(mapping, issuesWith, Progress(0, [], tracker0), getOk, patchOk)
  {
    total, calls, tracker := 0, [], tracker0;
    var p := 0;
    while p < |mapping|
      invariant 0 <= p <= |mapping|
      invariant dryRun ==> total == 0 && calls == [] && tracker == tracker0
      invariant !dryRun ==> Progress(total, calls, tracker) ==
                            MigrationRun(mapping[..p], issuesWith, Progress(0, [], tracker0), getOk, patchOk)
    {
      var phase := mapping[p].0;
      var newLabels := mapping[p].1;
      assert mapping[..p + 1][..p] == mapping[..p];
      var issues := issuesWith(tracker, phase);
      if |issues| > 0 {
        total, calls, tracker := MigratePhase(dryRun, phase, newLabels, issues, total, calls, tracker, getOk, patchOk);
      }
      p := p + 1;
    }
    assert mapping[..p] == mapping;
  }

  /** The interactive confirmation: a dry run needs none, otherwise the
      answer lowercased must be "yes". */
  predicate Proceeds(dryRun: bool, response: string) {
    dryRun || Lower(response) == "yes"
  }

  /** The accepted answers are exactly "yes" in any mix of letter cases. */
  lemma ConfirmationAnswers(response: string)
    ensures Proceeds(false, response) <==>
              |response| == 3 && response[0] in "yY" && response[1] in "eE" && response[2] in "sS"
  {
    if Lower(response) == "yes" {
      assert LowerChar(response[0]) == 'y' && LowerChar(response[1]) == 'e' && LowerChar(response[2]) == 's';
    }
  }

  /** `main`: the exit code, the counter, the writes and the tracker afterwards. */
  method Run(token: Option<string>, argv: seq<string>, response: string, issuesWith: (Tracker, string) -> seq<int>,
             tracker0: Tracker, getOk: int -> bool, patchOk: (int, seq<string>) -> bool)
    returns (code: int, total: nat, calls: seq<Call>, tracker: Tracker)
    ensures token.None? || token == Some("") ==> code == 1 && total == 0 && calls == []
    ensures token.Some? && token.value != "" ==> code == 0
    ensures (token.None? || token == Some("") || "--dry-run" in argv || Lower(response) != "yes")
            ==> total == 0 && calls == [] && tracker == tracker0
    ensures token.Some? && token.value != "" && "--dry-run" !in argv && Lower(response) == "yes" ==>
              Progress(total, calls, tracker) ==
              MigrationRun(PHASE_MAPPING, issuesWith, Progress(0, [], tracker0), getOk, patchOk)
  {
    if token.None? || token.value == "" {
      return 1, 0, [], tracker0;
    }
    var dryRun := "--dry-run" in argv;
    if !Proceeds(dryRun, response) {
      return 0, 0, [], tracker0;
    }
    total, calls, tracker := Migrate(dryRun, PHASE_MAPPING, issuesWith, tracker0, getOk, patchOk);
    code := 0;
  }

  // ---------------------------------------------------------------------
  // What a migration writes

  /** Each comment comes right after a label update of the same issue that succeeded. */
  predicate CommentsFollowPatches(calls: seq<Call>, patchOk: (int, seq<string>) -> bool) {
    forall i :: 0 <= i < |calls| && calls[i].Comment? ==>
      i > 0 && calls[i - 1].Patch? && calls[i - 1].issue == calls[i].issue &&
      patchOk(calls[i - 1].issue, calls[i - 1].labels)
  }

  lemma CommentsFollowAppend(a: seq<Call>, b: seq<Call>, patchOk: (int, seq<string>) -> bool)
    requires CommentsFollowPatches(a, patchOk) && CommentsFollowPatches(b, patchOk)
    ensures CommentsFollowPatches(a + b, patchOk)
  {
    forall i | 0 <= i < |a + b| && (a + b)[i].Comment?
      ensures i > 0 && (a + b)[i - 1].Patch? && (a + b)[i - 1].issue == (a + b)[i].issue &&
              patchOk((a + b)[i - 1].issue, (a + b)[i - 1].labels)
    {
      if i < |a| {
        assert (a + b)[i] == a[i] && (a + b)[i - 1] == a[i - 1];
      } else {
        var k := i - |a|;
        assert (a + b)[i] == b[k];
        assert b[k].Comment?;
        assert (a + b)[i - 1] == b[k - 1];
      }
    }
  }

  /** Number of comments written. */
  function CountComments(calls: seq<Call>): nat {
    if |calls| == 0 then 0 else (if calls[0].Comment? then 1 else 0) + CountComments(calls[1..])
  }

  lemma {:induction false} CountCommentsAppend(a: seq<Call>, b: seq<Call>)
    ensures CountComments(a + b) == CountComments(a) + CountComments(b)
  {
    if |a| > 0 {
      assert (a + b)[1..] == a[1..] + b;
      CountCommentsAppend(a[1..], b);
    } else {
      assert a + b == b;
    }
  }

  /** One issue adds a comment exactly when its label update succeeded, right after that update. */
  lemma IssueCallsShape(phase: string, labels: seq<string>, issue: int, p: Progress,
                        getOk: int -> bool, patchOk: (int, seq<string>) -> bool)
    requires CommentsFollowPatches(p.calls, patchOk)
    ensures var r := IssueStep(phase, labels, issue, p, getOk, patchOk);
            CommentsFollowPatches(r.calls, patchOk) &&
            CountComments(r.calls) + p.migrated == CountComments(p.calls) + r.migrated
  {
    var u := UpdateIssueLabels(issue, labels, [phase], p.tracker, getOk, patchOk);
    var one := IssueCalls(phase, labels, u, issue);
    if Fetch(p.tracker, getOk, issue).Some? {
      var patch := u.calls[0];
      if u.ok {
        assert one == [patch, AddMigrationComment(issue, phase, labels)];
        assert one[1..] == [AddMigrationComment(issue, phase, labels)];
        assert one[1..][1..] == [];
        assert CountComments(one[1..]) == 1;
      } else {
        assert one == [patch];
      }
    } else {
      assert one == [];
    }
    CommentsFollowAppend(p.calls, one, patchOk);
    CountCommentsAppend(p.calls, one);
  }

  lemma {:induction false} PhaseCallsShape(phase: string, labels: seq<string>, issues: seq<int>, p: Progress,
                                           getOk: int -> bool, patchOk: (int, seq<string>) -> bool)
    requires CommentsFollowPatches(p.calls, patchOk)
    ensures var r := PhaseRun(phase, labels, issues, p, getOk, patchOk);
            CommentsFollowPatches(r.calls, patchOk) &&
            CountComments(r.calls) + p.migrated == CountComments(p.calls) + r.migrated
  {
    if |issues| > 0 {
      var init := issues[..|issues| - 1];
      PhaseCallsShape(phase, labels, init, p, getOk, patchOk);
      IssueCallsShape(phase, labels, issues[|issues| - 1], PhaseRun(phase, labels, init, p, getOk, patchOk), getOk, patchOk);
    }
  }

  lemma {:induction false} RunCallsShape(mapping: seq<(string, seq<string>)>, issuesWith: (Tracker, string) -> seq<int>,
                                         p: Progress, getOk: int -> bool, patchOk: (int, seq<string>) -> bool)
    requires CommentsFollowPatches(p.calls, patchOk)
    ensures var r := MigrationRun(mapping, issuesWith, p, getOk, patchOk);
            CommentsFollowPatches(r.calls, patchOk) &&
            CountComments(r.calls) + p.migrated == CountComments(p.calls) + r.migrated
  {
    if |mapping| > 0 {
      var init := mapping[..|mapping| - 1];
      var (phase, labels) := mapping[|mapping| - 1];
      RunCallsShape(init, issuesWith, p, getOk, patchOk);
      var q := MigrationRun(init, issuesWith, p, getOk, patchOk);
      PhaseCallsShape(phase, labels, issuesWith(q.tracker, phase), q, getOk, patchOk);
    }
  }

  /** Every comment of a migration follows a successful update of the same
      issue, and `total_migrated` is the number of comments written. */
  lemma MigrationCallsShape(mapping: seq<(string, seq<string>)>, issuesWith: (Tracker, string) -> seq<int>,
                            t0: Tracker, getOk: int -> bool, patchOk: (int, seq<string>) -> bool)
    ensures var r := MigrationRun(mapping, issuesWith, Progress(0, [], t0), getOk, patchOk);
            CommentsFollowPatches(r.calls, patchOk) && CountComments(r.calls) == r.migrated
  {
    RunCallsShape(mapping, issuesWith, Progress(0, [], t0), getOk, patchOk);
  }

  /** A label update written for a listed issue of `phase`: some label list
      read from it, less `phase`, plus the phase's new labels. */
  ghost predicate PatchOf(c: Call, phase: string, labels: seq<string>, issues: seq<int>)
    requires c.Patch?
  {
    c.issue in issues && exists current :: c.labels == NewLabels(current, labels, [phase])
  }

  /** The writes a phase adds to `p`'s. */
  function Added(p: Progress, r: Progress): seq<Call>
    requires p.calls <= r.calls
  {
    r.calls[|p.calls|..]
  }

  lemma {:induction false} PhasePatches(phase: string, labels: seq<string>, issues: seq<int>, p: Progress,
                                        getOk: int -> bool, patchOk: (int, seq<string>) -> bool)
    ensures var r := PhaseRun(phase, labels, issues, p, getOk, patchOk);
            forall c :: c in Added(p, r) && c.Patch? ==> PatchOf(c, phase, labels, issues)
  {
    if |issues| > 0 {
      var init := issues[..|issues| - 1];
      var issue := issues[|issues| - 1];
      var q := PhaseRun(phase, labels, init, p, getOk, patchOk);
      var r := PhaseRun(phase, labels, issues, p, getOk, patchOk);
      var u := UpdateIssueLabels(issue, labels, [phase], q.tracker, getOk, patchOk);
      PhasePatches(phase, labels, init, p, getOk, patchOk);
      assert Added(p, r) == Added(p, q) + IssueCalls(phase, labels, u, issue);
      forall c | c in Added(p, r) && c.Patch?
        ensures PatchOf(c, phase, labels, issues)
      {
        if c in Added(p, q) {
          assert PatchOf(c, phase, labels, init);
          assert c.issue in issues by {
            var k :| 0 <= k < |init| && init[k] == c.issue;
            assert issues[k] == init[k];
          }
        } else {
          assert c in u.calls;
          assert c.labels == NewLabels(q.tracker[issue], labels, [phase]);
        }
      }
    }
  }

  /** The tracker as phase `k` of `mapping` begins. */
  function TrackerBefore(mapping: seq<(string, seq<string>)>, k: nat, issuesWith: (Tracker, string) -> seq<int>,
                         p: Progress, getOk: int -> bool, patchOk: (int, seq<string>) -> bool): Tracker
    requires k <= |mapping|
  {
    MigrationRun(mapping[..k], issuesWith, p, getOk, patchOk).tracker
  }

  /** `c` is a label update of phase `k` of `mapping`, for an issue listed as that phase began. */
  ghost predicate PlacedBy(c: Call, mapping: seq<(string, seq<string>)>, k: nat, issuesWith: (Tracker, string) -> seq<int>,
                           p: Progress, getOk: int -> bool, patchOk: (int, seq<string>) -> bool)
    requires c.Patch? && k < |mapping|
  {
    PatchOf(c, mapping[k].0, mapping[k].1, issuesWith(TrackerBefore(mapping, k, issuesWith, p, getOk, patchOk), mapping[k].0))
  }

  lemma PlacedByPrefix(c: Call, mapping: seq<(string, seq<string>)>, n: nat, k: nat, issuesWith: (Tracker, string) -> seq<int>,
                       p: Progress, getOk: int -> bool, patchOk: (int, seq<string>) -> bool)
    requires c.Patch? && k < n <= |mapping|
    requires PlacedBy(c, mapping[..n], k, issuesWith, p, getOk, patchOk)
    ensures PlacedBy(c, mapping, k, issuesWith, p, getOk, patchOk)
  {
    assert mapping[..n][k] == mapping[k];
    assert mapping[..n][..k] == mapping[..k];
  }

  /** Every label update of a migration belongs to one phase of the mapping
      and one issue listed for it as that phase began: it writes a label
      list read from that issue, less the phase, plus the phase's new labels. */
  lemma {:induction false} MigrationPatches(mapping: seq<(string, seq<string>)>, issuesWith: (Tracker, string) -> seq<int>,
                                            p: Progress, getOk: int -> bool, patchOk: (int, seq<string>) -> bool)
    ensures var r := MigrationRun(mapping, issuesWith, p, getOk, patchOk);
            forall c :: c in Added(p, r) && c.Patch? ==>
              exists k :: 0 <= k < |mapping| && PlacedBy(c, mapping, k, issuesWith, p, getOk, patchOk)
  {
    if |mapping| > 0 {
      var n := |mapping| - 1;
      var init := mapping[..n];
      var (phase, labels) := mapping[n];
      var q := MigrationRun(init, issuesWith, p, getOk, patchOk);
      var r := MigrationRun(mapping, issuesWith, p, getOk, patchOk);
      MigrationPatches(init, issuesWith, p, getOk, patchOk);
      PhasePatches(phase, labels, issuesWith(q.tracker, phase), q, getOk, patchOk);
      assert Added(p, r) == Added(p, q) + Added(q, r);
      assert TrackerBefore(mapping, n, issuesWith, p, getOk, patchOk) == q.tracker;
      forall c | c in Added(p, r) && c.Patch?
        ensures exists k :: 0 <= k < |mapping| && PlacedBy(c, mapping, k, issuesWith, p, getOk, patchOk)
      {
        if c in Added(p, q) {
          var k :| 0 <= k < |init| && PlacedBy(c, init, k, issuesWith, p, getOk, patchOk);
          PlacedByPrefix(c, mapping, n, k, issuesWith, p, getOk, patchOk);
        } else {
          assert PlacedBy(c, mapping, n, issuesWith, p, getOk, patchOk);
        }
      }
    }
  }

  /** With the real mapping, every label update drops the phase label it
      migrates from and carries all of that phase's new labels. */
  lemma MigrationDropsPhase(issuesWith: (Tracker, string) -> seq<int>, t0: Tracker,
                            getOk: int -> bool, patchOk: (int, seq<string>) -> bool)
    ensures forall c :: c in MigrationRun(PHASE_MAPPING, issuesWith, Progress(0, [], t0), getOk, patchOk).calls && c.Patch? ==>
              exists k :: 0 <= k < |PHASE_MAPPING| &&
                c.issue in issuesWith(TrackerBefore(PHASE_MAPPING, k, issuesWith, Progress(0, [], t0), getOk, patchOk),
                                      PHASE_MAPPING[k].0) &&
                PHASE_MAPPING[k].0 !in c.labels &&
                forall l :: l in PHASE_MAPPING[k].1 ==> l in c.labels
  {
    var p := Progress(0, [], t0);
    var r := MigrationRun(PHASE_MAPPING, issuesWith, p, getOk, patchOk);
    MigrationPatches(PHASE_MAPPING, issuesWith, p, getOk, patchOk);
    MappingNeverReaddsPhase();
    assert Added(p, r) == r.calls;
    forall c | c in r.calls && c.Patch?
      ensures exists k :: 0 <= k < |PHASE_MAPPING| &&
                c.issue in issuesWith(TrackerBefore(PHASE_MAPPING, k, issuesWith, p, getOk, patchOk), PHASE_MAPPING[k].0) &&
                PHASE_MAPPING[k].0 !in c.labels &&
                forall l :: l in PHASE_MAPPING[k].1 ==> l in c.labels
    {
      var k :| 0 <= k < |PHASE_MAPPING| && PlacedBy(c, PHASE_MAPPING, k, issuesWith, p, getOk, patchOk);
      var current :| c.labels == NewLabels(current, PHASE_MAPPING[k].1, [PHASE_MAPPING[k].0]);
      assert PHASE_MAPPING[k].0 !in PHASE_MAPPING[k].1;
    }
  }

  // ---------------------------------------------------------------------
  // What a migration leaves on the tracker

  function LabelSet(labels: seq<string>): set<string> {
    set l | l in labels
  }

  /** The label set an issue ends with when each phase of `mapping` in turn
      replaces its phase label, if the issue carries it, by its new labels. */
  function Migrated(mapping: seq<(string, seq<string>)>, s: set<string>): set<string> {
    if |mapping| == 0 then s
    else
      var r := Migrated(mapping[..|mapping| - 1], s);
      var (phase, labels) := mapping[|mapping| - 1];
      if phase in r then r - {phase} + LabelSet(labels) else r
  }

  /** The tracker answers every request: a listing holds exactly the issues
      carrying the label, and every read and every write succeeds. */
  ghost predicate Answers(issuesWith: (Tracker, string) -> seq<int>, getOk: int -> bool, patchOk: (int, seq<string>) -> bool) {
    (forall t: Tracker, name: string, i: int :: i in issuesWith(t, name) <==> i in t && name in t[i]) &&
    (forall i :: getOk(i)) &&
    (forall i, labels :: patchOk(i, labels))
  }

  /** A successful update replaces `phase` by `labels` in the issue's label set. */
  lemma UpdatedIssue(phase: string, labels: seq<string>, issue: int, t: Tracker,
                     getOk: int -> bool, patchOk: (int, seq<string>) -> bool)
    requires issue in t && getOk(issue)
    requires forall i, ls :: patchOk(i, ls)
    ensures LabelSet(UpdateIssueLabels(issue, labels, [phase], t, getOk, patchOk).tracker[issue]) ==
            LabelSet(t[issue]) - {phase} + LabelSet(labels)
  {
    var u := UpdateIssueLabels(issue, labels, [phase], t, getOk, patchOk);
    assert u.ok;
    assert forall l :: l in u.tracker[issue] <==> (l in t[issue] && l != phase) || l in labels;
  }

  /** With every read and write succeeding, a phase replaces `phase` by its
      new labels on each listed issue, however often it is listed, and
      leaves every other issue alone. */
  lemma {:induction false} PhaseOutcome(phase: string, labels: seq<string>, issues: seq<int>, p: Progress,
                                        getOk: int -> bool, patchOk: (int, seq<string>) -> bool)
    requires forall i :: getOk(i)
    requires forall i, ls :: patchOk(i, ls)
    requires forall i :: i in issues ==> i in p.tracker
    ensures var t := PhaseRun(phase, labels, issues, p, getOk, patchOk).tracker;
            forall i :: i in p.tracker ==>
              LabelSet(t[i]) == if i in issues then LabelSet(p.tracker[i]) - {phase} + LabelSet(labels)
                                else LabelSet(p.tracker[i])
  {
    if |issues| > 0 {
      var init := issues[..|issues| - 1];
      var issue := issues[|issues| - 1];
      assert issues == init + [issue];
      var q := PhaseRun(phase, labels, init, p, getOk, patchOk);
      var t := PhaseRun(phase, labels, issues, p, getOk, patchOk).tracker;
      PhaseOutcome(phase, labels, init, p, getOk, patchOk);
      var u := UpdateIssueLabels(issue, labels, [phase], q.tracker, getOk, patchOk);
      assert t == u.tracker;
      assert u.ok;
      forall i | i in p.tracker
        ensures LabelSet(t[i]) == if i in issues then LabelSet(p.tracker[i]) - {phase} + LabelSet(labels)
                                  else LabelSet(p.tracker[i])
      {
        if i == issue {
          UpdatedIssue(phase, labels, issue, q.tracker, getOk, patchOk);
        } else {
          assert i in issues <==> i in init;
        }
      }
    }
  }

  /** With a tracker that answers every request, the migration leaves every
      issue with the label set `Migrated` gives for the one it started with. */
  lemma {:induction false} MigrationOutcome(mapping: seq<(string, seq<string>)>, issuesWith: (Tracker, string) -> seq<int>,
                                            p: Progress, getOk: int -> bool, patchOk: (int, seq<string>) -> bool)
    requires Answers(issuesWith, getOk, patchOk)
    ensures var t := MigrationRun(mapping, issuesWith, p, getOk, patchOk).tracker;
            t.Keys == p.tracker.Keys &&
            forall i :: i in p.tracker ==> LabelSet(t[i]) == Migrated(mapping, LabelSet(p.tracker[i]))
  {
    if |mapping| > 0 {
      var init := mapping[..|mapping| - 1];
      var (phase, labels) := mapping[|mapping| - 1];
      var q := MigrationRun(init, issuesWith, p, getOk, patchOk);
      MigrationOutcome(init, issuesWith, p, getOk, patchOk);
      var issues := issuesWith(q.tracker, phase);
      PhaseOutcome(phase, labels, issues, q, getOk, patchOk);
      forall i | i in p.tracker
        ensures LabelSet(MigrationRun(mapping, issuesWith, p, getOk, patchOk).tracker[i]) ==
                Migrated(mapping, LabelSet(p.tracker[i]))
      {
        assert i in issues <==> phase in LabelSet(q.tracker[i]);
      }
    }
  }

  /** No phase of the mapping is listed twice, and no phase's new labels hold a phase label. */
  predicate PhasesApart(mapping: seq<(string, seq<string>)>) {
    (forall j, k :: 0 <= j < k < |mapping| ==> mapping[j].0 != mapping[k].0) &&
    (forall j, k :: 0 <= j < |mapping| && 0 <= k < |mapping| ==> mapping[j].0 !in mapping[k].1)
  }

  /** `l` was on the issue and is no phase label of `mapping`. */
  ghost predicate Survives(mapping: seq<(string, seq<string>)>, s: set<string>, l: string) {
    l in s && forall k :: 0 <= k < |mapping| ==> l != mapping[k].0
  }

  /** `l` is a new label of a phase of `mapping` that the issue carried. */
  ghost predicate Brought(mapping: seq<(string, seq<string>)>, s: set<string>, l: string) {
    exists k :: 0 <= k < |mapping| && mapping[k].0 in s && l in mapping[k].1
  }

  lemma SurvivesSnoc(mapping: seq<(string, seq<string>)>, s: set<string>, l: string)
    requires |mapping| > 0
    ensures Survives(mapping, s, l) <==>
              Survives(mapping[..|mapping| - 1], s, l) && l != mapping[|mapping| - 1].0
  {
    var n := |mapping| - 1;
    if Survives(mapping[..n], s, l) && l != mapping[n].0 {
      forall k | 0 <= k < |mapping|
        ensures l != mapping[k].0
      {
        if k < n {
          assert mapping[..n][k] == mapping[k];
        }
      }
    }
  }

  lemma BroughtSnoc(mapping: seq<(string, seq<string>)>, s: set<string>, l: string)
    requires |mapping| > 0
    ensures Brought(mapping, s, l) <==>
              Brought(mapping[..|mapping| - 1], s, l) || (mapping[|mapping| - 1].0 in s && l in mapping[|mapping| - 1].1)
  {
    var n := |mapping| - 1;
    var init := mapping[..n];
    if Brought(init, s, l) {
      var k :| 0 <= k < |init| && init[k].0 in s && l in init[k].1;
      assert mapping[k] == init[k];
    }
    if Brought(mapping, s, l) {
      var k :| 0 <= k < |mapping| && mapping[k].0 in s && l in mapping[k].1;
      if k < n {
        assert init[k] == mapping[k];
      }
    }
  }

  /** For a mapping whose phases are apart, a label ends up on an issue
      exactly when it was there and is no phase label, or it is a new label
      of a phase the issue carried. */
  lemma {:induction false} MigratedMembers(mapping: seq<(string, seq<string>)>, s: set<string>, l: string)
    requires PhasesApart(mapping)
    ensures l in Migrated(mapping, s) <==>
              (l in s && forall k :: 0 <= k < |mapping| ==> l != mapping[k].0) ||
              exists k :: 0 <= k < |mapping| && mapping[k].0 in s && l in mapping[k].1
  {
    if |mapping| > 0 {
      var n := |mapping| - 1;
      var init := mapping[..n];
      var (phase, labels) := mapping[n];
      assert PhasesApart(init);
      MigratedMembers(init, s, l);
      MigratedMembers(init, s, phase);
      assert !Brought(init, s, phase);
      assert Survives(init, s, phase) <==> phase in s;
      assert phase in Migrated(init, s) <==> phase in s;
      SurvivesSnoc(mapping, s, l);
      BroughtSnoc(mapping, s, l);
      assert l in Migrated(mapping, s) <==> Survives(mapping, s, l) || Brought(mapping, s, l);
    }
  }

  /** The real mapping lists each phase once and never adds a phase label. */
  lemma MappingApart()
    ensures PhasesApart(PHASE_MAPPING)
  {
    MappingShape();
    forall j, k | 0 <= j < |PHASE_MAPPING| && 0 <= k < |PHASE_MAPPING|
      ensures PHASE_MAPPING[j].0 !in PHASE_MAPPING[k].1
    {
      assert StartsWith(PHASE_MAPPING[j].0, "phase-");
      NoPhaseLabel(PHASE_MAPPING[k].1, PHASE_MAPPING[j].0);
    }
  }

  /** With the real mapping and a tracker that answers every request, no
      issue keeps a phase label: each label it ends with is one it had that
      is no phase label, or a new label of a phase it carried. */
  lemma MigrationReplacesPhases(issuesWith: (Tracker, string) -> seq<int>, t0: Tracker,
                                getOk: int -> bool, patchOk: (int, seq<string>) -> bool)
    requires Answers(issuesWith, getOk, patchOk)
    ensures var t := MigrationRun(PHASE_MAPPING, issuesWith, Progress(0, [], t0), getOk, patchOk).tracker;
            t.Keys == t0.Keys &&
            forall i, l :: i in t0 ==>
              (l in t[i] <==>
                 (l in t0[i] && forall k :: 0 <= k < |PHASE_MAPPING| ==> l != PHASE_MAPPING[k].0) ||
                 exists k :: 0 <= k < |PHASE_MAPPING| && PHASE_MAPPING[k].0 in t0[i] && l in PHASE_MAPPING[k].1)
  {
    var p := Progress(0, [], t0);
    var t := MigrationRun(PHASE_MAPPING, issuesWith, p, getOk, patchOk).tracker;
    MigrationOutcome(PHASE_MAPPING, issuesWith, p, getOk, patchOk);
    MappingApart();
    forall i, l | i in t0
      ensures l in t[i] <==>
                (l in t0[i] && forall k :: 0 <= k < |PHASE_MAPPING| ==> l != PHASE_MAPPING[k].0) ||
                exists k :: 0 <= k < |PHASE_MAPPING| && PHASE_MAPPING[k].0 in t0[i] && l in PHASE_MAPPING[k].1
    {
      MigratedMembers(PHASE_MAPPING, LabelSet(t0[i]), l);
      assert l in t[i] <==> l in LabelSet(t[i]);
    }
  }

  /** An issue carrying both `phase-1` and `phase-2` ends with the labels of
      both phases and neither phase label. */
  lemma TwoPhaseIssue()
    ensures Migrated(PHASE_MAPPING, {"phase-1", "phase-2"}) ==
            {"type:maintenance", "priority:high", "type:docs", "scope:language-guide"}
  {
    var m := PHASE_MAPPING;
    var s: set<string> := {"phase-1", "phase-2"};
    var expected: set<string> := {"type:maintenance", "priority:high", "type:docs", "scope:language-guide"};
    MappingLiterals();
    assert LabelSet(m[0].1) == {"type:maintenance", "priority:high"};
    assert LabelSet(m[1].1) == {"type:docs", "scope:language-guide", "priority:high"};
    assert m[..1][..0] == [];
    assert Migrated(m[..1], s) == {"phase-2", "type:maintenance", "priority:high"};
    assert m[..2][..1] == m[..1];
    assert Migrated(m[..2], s) == expected;
    LaterPhasesAbsent(expected);
    assert m[..6] == m;
  }

  /** The labels of the first two phases, written out. */
  lemma MappingLiterals()
    ensures PHASE_MAPPING[0].1 == ["type:maintenance", "priority:high"]
    ensures PHASE_MAPPING[1].1 == ["type:docs", "scope:language-guide", "priority:high"]
  {
    assert TYPE + "maintenance" == "type:maintenance";
    assert TYPE + "docs" == "type:docs";
    assert SCOPE + "language-guide" == "scope:language-guide";
    assert PRIORITY + "high" == "priority:high";
  }

  /** None of `phase-3` to `phase-6` is in `expected`, so those phases leave it alone. */
  lemma LaterPhasesAbsent(expected: set<string>)
    requires expected == {"type:maintenance", "priority:high", "type:docs", "scope:language-guide"}
    requires Migrated(PHASE_MAPPING[..2], {"phase-1", "phase-2"}) == expected
    ensures Migrated(PHASE_MAPPING[..6], {"phase-1", "phase-2"}) == expected
  {
    var m := PHASE_MAPPING;
    var s: set<string> := {"phase-1", "phase-2"};
    MappingShape();
    forall k | 2 <= k < 6
      ensures m[k].0 !in expected
    {
      assert m[k].0[6] == DigitChar(k + 1);
      assert forall x :: x in expected ==> |x| < 7 || x[6] != DigitChar(k + 1) || x[..6] != "phase-";
    }
    assert m[..3][..2] == m[..2] && m[..3][2] == m[2];
    assert Migrated(m[..3], s) == expected;
    assert m[..4][..3] == m[..3] && m[..4][3] == m[3];
    assert Migrated(m[..4], s) == expected;
    assert m[..5][..4] == m[..4] && m[..5][4] == m[4];
    assert Migrated(m[..5], s) == expected;
    assert m[..6][..5] == m[..5] && m[..6][5] == m[5];
  }
}
