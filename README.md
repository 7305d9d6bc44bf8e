# Documentation maintenance scripts of the coding style guide, in Dafny

This project models the Python scripts that maintain the style guide's documentation site, and it proves what they promise. The scripts are:

- **Glossary generator** (`scripts/generate_glossary.py`). It reads the existing `glossary.md` back into terms and reserved sections. It scans the documentation pages for term usage, detects bold candidate terms and renders the glossary again.
- **Code-to-text ratio checker** (`scripts/analyze_code_ratio.py`). It counts code and text lines per language guide and checks the 3:1 target.
- **Workflow action checker** (`scripts/check_action_versions.py`). It extracts `uses:` pins from workflow files, groups them by repository and reports those behind the latest tag.
- **Version utilities and the versions validator** (`scripts/version_utils.py`, `scripts/validate_versions.py`).
- **Language release checker** (`scripts/check_language_releases.py`).
- **Changelog generator** (`scripts/generate_changelog.py`).
- **Static metadata remover** (`scripts/remove_static_metadata.py`) and **hard-coded version remover** (`scripts/remove_hardcoded_versions.py`).
- **Phase label migration** (`scripts/migrate_phase_labels.py`).
- **Page index hook** of the site build (`hooks/generate_page_index.py`).

Each script keeps its own form. Loops that update counters, lists and dictionaries are methods with loop invariants. Each method is proved equal to a specification function, and the properties are lemmas about those functions. The page index hook is a class whose `pages` field is the module-level `_pages` list. Python dictionaries are ordered association lists (`Dict`), so insertion order is kept. The issue tracker of the phase label migration is a map from issue number to label list that the migration carries from step to step. Regular expressions are written out as functions over characters and lines.

Inputs that the scripts read from the outside world are parameters:

- the documentation tree is a sorted sequence of (path, text) pairs, and a missing file is `None`;
- the GitHub API (latest tags, issues, label patches) is a set of functions passed in;
- the environment token, the command line and the confirmation answer are arguments;
- the time stamp of the changelog is an argument.

Modules: `Text`, `Wrappers`, `Dict`, `Folds`, `Sorting` and `PyInt` model the Python primitives. Then there is one module per script: `CodeRatio`, `ActionVersions`, `VersionUtils`, `ValidateVersions`, `LanguageReleases`, `Changelog`, `StaticMetadata`, `HardcodedVersions`, `PhaseLabels` and `PageIndex`. The glossary generator is split over several modules:

- `Glossary`: entities, line classifiers and the definition clean-up;
- `GlossaryParse`: the two parsers;
- `GlossaryScan`: the usage scan and the candidate detector;
- `GlossaryRender`: the renderer;
- `GlossaryLines`, `GlossaryRoundTrip` and `GlossarySuppRoundTrip`: the regeneration round trips.

## Model

| member | source | states |
|---|---|---|
| ActionVersions.RunEnd | scripts/check_action_versions.py:36 | the end of the longest run of one character class of the `uses:` pattern from a position |
| ActionVersions.MatchAt | scripts/check_action_versions.py:36 | a match of `uses:\s+([^@\s]+)@([^\s]+)` at one position captures a non-empty repository without `@` or whitespace and a non-empty version without whitespace |
| ActionVersions.Search | scripts/check_action_versions.py:39 | `re.search` yields captures with the same shape as a match |
| ActionVersions.SearchLeftmost | scripts/check_action_versions.py:39 | the search returns the match at the leftmost matching position |
| ActionVersions.SearchNone | scripts/check_action_versions.py:39-40 | the search fails only when no position matches |
| ActionVersions.ActionOf | scripts/check_action_versions.py:40-44 | a line yields at most one action |
| ActionVersions.ExtractActionsFromWorkflow | scripts/check_action_versions.py:32-46 | the loop over the `\n`-split lines collects exactly the accepted first match of each line, numbered from 1 |
| ActionVersions.LineActionWellFormed | scripts/check_action_versions.py:39-44 | an action from one line carries that line's number and first match, has a `/` and no `docker://` prefix, and is clean |
| ActionVersions.ActionOfWellFormed | scripts/check_action_versions.py:41-44 | a captured match that is accepted becomes one clean action on its line |
| ActionVersions.ExtractWellFormed | scripts/check_action_versions.py:36-44 | every extracted action is the accepted first match of the line it names; its repository holds a `/`, no `@` and no whitespace and is no `docker://` image; its version is non-empty without whitespace |
| ActionVersions.ExtractIncreasing | scripts/check_action_versions.py:38-45 | line numbers in the output are strictly increasing, so at most one action per line |
| ActionVersions.ExtractComplete | scripts/check_action_versions.py:38-44 | every line whose first match is accepted contributes its action |
| ActionVersions.GroupContents | scripts/check_action_versions.py:59-66 | grouping keeps each usage exactly once under its repository, in order, with distinct keys and keys only for repositories in use |
| ActionVersions.GroupAppend | scripts/check_action_versions.py:61-66 | grouping all usages equals grouping a prefix and then adding the rest one by one |
| ActionVersions.AddFileActions | scripts/check_action_versions.py:63-66 | the inner loop adds one file's actions under their repositories, creating a list on first sight |
| ActionVersions.CollectAllActions | scripts/check_action_versions.py:49-68 | the dictionary built over the files (in sorted order) is the grouping of all their usages |
| ActionVersions.Reported | scripts/check_action_versions.py:94-102 | one report line per usage, carrying repository, pin, latest tag, file and line |
| ActionVersions.Behind | scripts/check_action_versions.py:92-93 | exactly the usages whose pin is behind the latest tag |
| ActionVersions.OutdatedUsagesExact | scripts/check_action_versions.py:86-102 | without a latest tag nothing is reported; otherwise exactly the usages behind it are, in usage order |
| ActionVersions.OutdatedOf | scripts/check_action_versions.py:92-102 | the loop over the usages appends exactly the outdated ones |
| ActionVersions.Report.constructor | scripts/check_action_versions.py:149 | the caller's list starts empty |
| ActionVersions.Report.CheckActionForUpdates | scripts/check_action_versions.py:71-102 | appends exactly the outdated usages (nothing without a latest tag) and leaves earlier entries unchanged |
| ActionVersions.CheckActionVersions | scripts/check_action_versions.py:129-161 | a missing workflows directory or token gives 1 with nothing reported; otherwise the report covers the repositories in sorted order and the result is 1 exactly when it is non-empty |
| ActionVersions.SortedRepositories | scripts/check_action_versions.py:151 | the repositories are visited in strictly ascending order, each once |
| Sorting.Sort | scripts/check_action_versions.py:151 | `sorted` returns a permutation of its input |
| Sorting.SortSorted | scripts/check_action_versions.py:151 | `sorted` returns its input in order under any strict order |
| Sorting.SortCharacterized | scripts/check_action_versions.py:151 | under a total strict order the sorted list is the only ordered permutation |
| Dict.Get | scripts/check_action_versions.py:64 | a key is missing exactly when it is not among the dictionary's keys |
| Dict.Put | scripts/check_action_versions.py:64-66 | assigning a key keeps the key order and appends a new key at the end, as a Python dictionary does |
| Dict.GetPut | scripts/check_action_versions.py:64-66 | after assigning a key, reading it gives the new value and every other key is unchanged |
| VersionUtils.NormalizeVersion | scripts/version_utils.py:63-67 | the result holds no `.`, is a prefix of the tag with one leading `v` dropped, and ends at that tag's end or at its first `.` |
| VersionUtils.IsVersionOutdated | scripts/version_utils.py:81-92 | an empty `latest` is never newer; an outdated tag always differs from `latest` |
| VersionUtils.NotOutdatedAgainstItself | scripts/version_utils.py:81-92 | no tag is behind itself |
| VersionUtils.OutdatedByMajor | scripts/version_utils.py:84-90 | when both majors parse as integers, outdated exactly when the current major is smaller |
| VersionUtils.OutdatedByText | scripts/version_utils.py:87-92 | when either major is not an integer, outdated exactly when the raw tags differ |
| VersionUtils.NormalizeSingleDigit | scripts/version_utils.py:63-67 | `v<d>` and `v<d>.<rest>` reduce to the digit `d` |
| VersionUtils.SameMajorExample | scripts/version_utils.py:58-92 | `v4.1.0` reduces to `4`; `v4` is not behind `v4.2.1`, `v3` is |
| PyInt.ParseUnsigned | scripts/version_utils.py:88-89 | a digit string parses exactly when it is digits grouped by single underscores, as Python's `int` accepts |
| PyInt.ParseInt | scripts/version_utils.py:88-89 | `int(text)` succeeds only on text that is not blank once stripped |
| PyInt.ParseIntOfNat | scripts/version_utils.py:88-89 | `int(str(n)) == n` for every natural `n` |
| PyInt.ParseIntNeedsDigit | scripts/version_utils.py:87-92 | text without any digit raises `ValueError` (modelled as `None`) |
| ValidateVersions.CheckActionVersion | scripts/validate_versions.py:130-141 | no (or an empty) latest tag gives `(false, current)`; otherwise the latest tag is shown and the flag is exactly `is_version_outdated`; a flagged pin always differs from what is shown |
| ValidateVersions.OutdatedEntriesAreBehind | scripts/validate_versions.py:179-190 | every reported entry is a non-empty pin from the versions data, whose repository's latest tag it shows and is behind; an action missing from the data is never reported |
| ValidateVersions.OutdatedActionsComplete | scripts/validate_versions.py:179-190 | every pinned action that is behind its repository's latest tag is reported |
| ValidateVersions.CollectOutdated | scripts/validate_versions.py:179-190 | the loop collects exactly the outdated entries, in the order of the action table |
| ValidateVersions.Validate | scripts/validate_versions.py:144-202 | a missing or empty token, or a missing versions file, gives 1 with nothing reported; otherwise the result is 1 exactly when some action is outdated, and the entries follow the action table |
| LanguageReleases.LanguageTable | scripts/check_language_releases.py:24-142 | 19 languages; only sources with a fixed answer carry a `current` value |
| LanguageReleases.Pad | scripts/check_language_releases.py:249-250 | the padding loop keeps the parts and appends only "0" until there are at least two |
| LanguageReleases.NormalizeVersion | scripts/check_language_releases.py:243-251 | the in-place padding loop computes the normalised version |
| LanguageReleases.CoreClean | scripts/check_language_releases.py:246 | the compared core holds no `-` and no `+` |
| LanguageReleases.PadKeepsAbsent | scripts/check_language_releases.py:248-251 | padding and truncation introduce no character other than `0` |
| LanguageReleases.NormalizedParts | scripts/check_language_releases.py:246-251 | the joined parts are two or three, none holding `.`, `-` or `+` |
| LanguageReleases.NormalizedShape | scripts/check_language_releases.py:248-251 | the result always has 2 or 3 dot-separated parts |
| LanguageReleases.NormalizedChars | scripts/check_language_releases.py:246-251 | the result is non-empty, does not start with `v`, and holds no `-` or `+` |
| LanguageReleases.NormalizeIdempotent | scripts/check_language_releases.py:243-251 | normalising twice gives the same as normalising once |
| LanguageReleases.CoreOfPlain | scripts/check_language_releases.py:246 | a version without a leading `v`, `-` or `+` is its own core |
| LanguageReleases.NormalizeMajorOnly | scripts/check_language_releases.py:249-251 | a bare major such as "3" becomes "3.0" |
| LanguageReleases.NormalizeKeepsThree | scripts/check_language_releases.py:251 | of a longer version such as "1.2.3.4" only the first three parts are kept |
| LanguageReleases.LatestVersion | scripts/check_language_releases.py:263-277 | the sources spec, docs, terraform, docker and gnu give the configured `current` value, or "latest", with no dates and no page, without any lookup; the others give what the lookup returns |
| LanguageReleases.NonEmpty | scripts/check_language_releases.py:231 | exactly the non-empty matches |
| LanguageReleases.CurrentVersion | scripts/check_language_releases.py:221-240 | "0.0.0" when the guide cannot be read or has no non-empty match; otherwise the highest non-empty match |
| LanguageReleases.CheckLanguage | scripts/check_language_releases.py:279-305 | a language is reported exactly when its latest release is known and the comparison says its normalised version is newer than the guide's normalised version; the entry then carries the language's name, the guide's version, the latest version, the release's end-of-life date, release date and page (`None`, `None` and "" where the source gives none) and the guide path |
| LanguageReleases.UpToDateNotReported | scripts/check_language_releases.py:288-294 | with a comparison under which no version is newer than itself, a guide whose normalised version equals the normalised latest version is never reported |
| LanguageReleases.SomesSound | scripts/check_language_releases.py:295 | every collected release comes from some language's check |
| LanguageReleases.SomesComplete | scripts/check_language_releases.py:295 | every release a check yields is collected |
| LanguageReleases.Checks | scripts/check_language_releases.py:258 | one check per language, in table order |
| LanguageReleases.NewReleasesExact | scripts/check_language_releases.py:258-305 | a release is reported exactly when some language's check yields it |
| LanguageReleases.SkippedNeverReported | scripts/check_language_releases.py:279-281 | a language whose lookup yields nothing is never reported |
| LanguageReleases.CheckOne | scripts/check_language_releases.py:259-313 | the loop body computes exactly one language's check |
| LanguageReleases.CheckAll | scripts/check_language_releases.py:256-313 | the loop collects the reported releases in table order |
| LanguageReleases.CheckReleases | scripts/check_language_releases.py:254-325 | the releases over the language table, and exit 0 exactly when there are none |
| Changelog.ReleaseDate | scripts/generate_changelog.py:71-75 | the formatted date when the ISO 8601 parse succeeds; otherwise the first 10 characters of the timestamp (all of it when shorter) |
| Changelog.AppendRelease | scripts/generate_changelog.py:116-143 | one pass of the loop fails exactly when the release's publication time is `null`, since the date is parsed (lines 118-119 and 75) before a draft is skipped; otherwise it appends exactly the release's entry, nothing for a draft |
| Changelog.GenerateMarkdown | scripts/generate_changelog.py:78-150 | the changelog built by appending is the result of `Changelog.Generated`: it fails when some release has a `null` publication time; otherwise it is the header, then the no-releases note for an empty list, or else the unreleased section, the entries and the footer |
| Changelog.Generated | scripts/generate_changelog.py:116-127 | the run fails (`None`) exactly when some release has a `null` publication time, a draft included; otherwise it yields the changelog text |
| Changelog.Published | scripts/generate_changelog.py:123-127 | exactly the releases that are not drafts |
| Changelog.EntriesAppend | scripts/generate_changelog.py:116 | the entries of two release lists concatenate, so releases appear in input order |
| Changelog.DraftsIgnored | scripts/generate_changelog.py:125-127 | draft releases produce no output |
| Changelog.EntryStartsWithHeading | scripts/generate_changelog.py:117-143 | each published release opens with a `## [tag]` heading (tag "Unknown" when missing) and ends with a blank line |
| Changelog.EntryStartsWithOwnHeading | scripts/generate_changelog.py:133 | each published release starts with its heading line |
| Changelog.EntryAfterTag | scripts/generate_changelog.py:130-133 | the tag is followed by the pre-release mark, if any, and ` - ` |
| Changelog.PrereleaseMarked | scripts/generate_changelog.py:130-133 | the heading carries " (Pre-release)" exactly for pre-releases |
| Changelog.LinkShown | scripts/generate_changelog.py:142-143 | a release with a URL ends with its `[View Release](url)` link |
| Changelog.BareEntry | scripts/generate_changelog.py:136-143 | a release without body and URL is its heading alone |
| Changelog.BodyShown | scripts/generate_changelog.py:136-139 | a non-empty body is shown stripped, right after the heading |
| Changelog.MarkdownShape | scripts/generate_changelog.py:88-150 | an empty list gives the header and the no-releases note with no footer; a non-empty one gives the header, the unreleased section and ends with the footer carrying the timestamp |
| Changelog.AllDraftsNotEmpty | scripts/generate_changelog.py:107-150 | a list of drafts only still gets the unreleased section and the footer, unlike an empty list |
| CodeRatio.StepMeaning | scripts/analyze_code_ratio.py:28-52 | one line: only the first two `---` lines toggle the front matter and are not counted; outside it a fence line toggles the code block and is not counted; any other line counts as code inside a block (blank or not) and as text outside one when it is not blank |
| CodeRatio.Ratio | scripts/analyze_code_ratio.py:55 | `code / text`, 0 when there is no text, never negative |
| CodeRatio.ScanLine | scripts/analyze_code_ratio.py:29-52 | the loop body updates counters and flags exactly as one scanning step |
| CodeRatio.CountLines | scripts/analyze_code_ratio.py:22-52 | the counting loop ends with the counters of the scan of all lines |
| CodeRatio.AnalyzeMarkdownFile | scripts/analyze_code_ratio.py:12-57 | counts of the scan of the `\n`-split lines, and their ratio |
| CodeRatio.CountsBounded | scripts/analyze_code_ratio.py:20-52 | `code_lines + text_lines` never exceeds the number of lines |
| CodeRatio.FrontMatterSkipped | scripts/analyze_code_ratio.py:30-37 | the front matter, its delimiters included, counts as neither code nor text, and the scan leaves it with both toggles used |
| CodeRatio.InsideFrontMatter | scripts/analyze_code_ratio.py:30-37 | every line before the closing `---` is skipped |
| CodeRatio.PassesIsRatio | scripts/analyze_code_ratio.py:107-108 | `text > 0 && code >= 3*text` holds exactly when the ratio is at least 3.0, so a guide without text fails |
| CodeRatio.Guides | scripts/analyze_code_ratio.py:96-99 | one scanned guide per file |
| CodeRatio.ExemptCount | scripts/analyze_code_ratio.py:101-103 | the number of exempt guides is at most the number of guides |
| CodeRatio.BelowTargetExact | scripts/analyze_code_ratio.py:101-109 | a guide is listed below target exactly when it is not exempt and misses 3:1 |
| CodeRatio.BelowTargetCount | scripts/analyze_code_ratio.py:134-135 | the below-target list is no longer than the eligible count, so `passing` is never negative |
| CodeRatio.BelowTargetFails | scripts/analyze_code_ratio.py:107-109 | every listed guide misses the target and carries its own ratio |
| CodeRatio.NeededCodePositive | scripts/analyze_code_ratio.py:129 | `needed_code = 3*text - code` is positive for a listed guide exactly when it has text |
| CodeRatio.ListingOrdered | scripts/analyze_code_ratio.py:126-128 | the listing is the below-target guides in ascending ratio order |
| CodeRatio.SummarySnoc | scripts/analyze_code_ratio.py:101-109 | one more guide adds its counts to the totals, or one to the exempt count, and lists it when it fails |
| CodeRatio.ScanGuide | scripts/analyze_code_ratio.py:97-98 | one guide's counts and ratio |
| CodeRatio.AddGuide | scripts/analyze_code_ratio.py:101-109 | the loop body keeps the running totals equal to those of the guides seen so far |
| CodeRatio.ScanGuides | scripts/analyze_code_ratio.py:91-113 | the loop ends with the totals, the below-target list and the exempt count of all guides |
| CodeRatio.CheckRatios | scripts/analyze_code_ratio.py:68-141 | exit 1 when the directory is missing or empty; otherwise exempt guides are left out of the totals, `eligible` and `passing` are as printed, the listing is in ascending ratio, and the exit status is 0 exactly when no guide is below target |
| StaticMetadata.FindClose | scripts/remove_static_metadata.py:21-22 | a found closing `\n---\n` lies at or after the start position and really is there |
| StaticMetadata.FindCloseLeftmost | scripts/remove_static_metadata.py:21-22 | no closing delimiter occurs before the one found: the lazy `.*?` takes the first |
| StaticMetadata.MatchFrontmatter | scripts/remove_static_metadata.py:21-28 | a match splits the page into `---\n`, the front matter, `\n---\n` and the rest, so the rest is kept verbatim |
| StaticMetadata.FrontmatterIsShortest | scripts/remove_static_metadata.py:21-25 | no match means the page does not start with `---\n` or has no closing delimiter; a match takes the shortest front matter |
| StaticMetadata.Kept | scripts/remove_static_metadata.py:31-36 | filtering the lines never lengthens them |
| StaticMetadata.KeptMembers | scripts/remove_static_metadata.py:31-36 | a line is kept exactly when it does not start with the field's prefix |
| StaticMetadata.RemoveFieldChanges | scripts/remove_static_metadata.py:31 | the substitution changes the text exactly when some line starts with the prefix |
| StaticMetadata.FieldsKeptMembers | scripts/remove_static_metadata.py:31-36 | the kept lines are exactly those starting with neither `date:` nor `version:` |
| StaticMetadata.CleanFrontmatterLines | scripts/remove_static_metadata.py:31-36 | the rewritten front matter is the kept lines, ending with an empty line exactly when the removed field was the last line |
| StaticMetadata.FieldsRemoved | scripts/remove_static_metadata.py:31-36 | no line of the rewritten front matter starts with `date:` or `version:` |
| StaticMetadata.CleanFrontmatterChanges | scripts/remove_static_metadata.py:38-39 | the front matter changes, so `modified` is set, exactly when some line starts with `date:` or `version:` |
| StaticMetadata.AsWrittenGluesLastLine | scripts/remove_static_metadata.py:42 | as written, when the last front-matter line is kept and non-empty, the rebuilt page is `---\n` + the cleaned front matter + `---\n` + the rest, and the cleaned front matter does not end in a newline, so its last line and the closing `---` share one line |
| StaticMetadata.ProcessFrontmatterUnchanged | scripts/remove_static_metadata.py:24-25 | for the corrected rebuild `ProcessFrontmatter`, whenever `modified` is false the page comes back unchanged, including a page without front matter; the code as written does not do this for a page with front matter (see "## Findings") |
| StaticMetadata.ProcessFrontmatterShape | scripts/remove_static_metadata.py:16-44 | corrected rebuild: `---\n`, every kept line ending in a newline, `---\n`, then the rest verbatim; `modified` exactly when a `date:` or `version:` line was there |
| StaticMetadata.Unmarked | scripts/remove_static_metadata.py:58-62 | dropping the footer lines never lengthens the text's lines |
| StaticMetadata.UnmarkedMembers | scripts/remove_static_metadata.py:52-62 | a line survives exactly when no footer pattern marks it |
| StaticMetadata.StripMarkerLines | scripts/remove_static_metadata.py:59 | one pattern's substitution keeps the first line and drops every later line it marks, because each pattern needs a leading `\n` |
| StaticMetadata.StripMarkerChanges | scripts/remove_static_metadata.py:59-60 | one substitution changes the text exactly when a line after the first is marked |
| StaticMetadata.RemoveLastUpdatedFooter | scripts/remove_static_metadata.py:47-64 | the loop over the three patterns computes the passes of all of them, text and flag |
| StaticMetadata.FooterLines | scripts/remove_static_metadata.py:52-62 | after all passes the first line is kept and the later lines are those no pattern marks, in order |
| StaticMetadata.FooterModified | scripts/remove_static_metadata.py:58-64 | `modified` holds exactly when some line after the first is marked by a pattern |
| StaticMetadata.FooterUnchanged | scripts/remove_static_metadata.py:58-64 | whenever `modified` is false the text is unchanged |
| StaticMetadata.FooterResult | scripts/remove_static_metadata.py:52-64 | the first line survives, and a later line survives exactly when it is not a `Last Updated` footer, in any letter case |
| StaticMetadata.FooterIdempotent | scripts/remove_static_metadata.py:47-64 | the footer pass on its own output changes nothing and reports no change |
| StaticMetadata.ProcessPage | scripts/remove_static_metadata.py:67-86 | the corrected `process_file` (front matter rebuilt by `ProcessFrontmatter`, then the footer passes): a page reported unmodified is written back as it was; as written, a page whose front matter has no field to remove but whose footer changes is written with its last front-matter line glued to `---` (see "## Findings") |
| StaticMetadata.ProcessPageModified | scripts/remove_static_metadata.py:72-80 | in the corrected `process_file`, a page is written back exactly when its front matter holds a `date:` or `version:` line or a line after the first of the rebuilt text is a `Last Updated` footer |
| HardcodedVersions.CollapseItalicMembers | scripts/remove_hardcoded_versions.py:20-23 | after an italic pattern every line is empty or an input line not of the form `*Template Version: …*` or `*Last Updated: …*` |
| HardcodedVersions.BlankBoldMeaning | scripts/remove_hardcoded_versions.py:26-29 | a line starting with the bold prefix becomes empty and every other line is kept in place |
| HardcodedVersions.StripFooterLinesMembers | scripts/remove_hardcoded_versions.py:19-29 | after the four patterns every line is clean of all of them and is empty or an input line |
| HardcodedVersions.StripFootersLines | scripts/remove_hardcoded_versions.py:19-29 | the text-level substitutions act line by line as the line model says |
| HardcodedVersions.CollapseNewlinesNoRun | scripts/remove_hardcoded_versions.py:32 | after collapsing, no run of four newlines is left |
| HardcodedVersions.CollapseNewlinesNone | scripts/remove_hardcoded_versions.py:32 | text without such a run is left unchanged |
| HardcodedVersions.CollapseNewlinesLines | scripts/remove_hardcoded_versions.py:32 | collapsing keeps the first line, and every later line is empty or one of the later input lines |
| HardcodedVersions.StripFootersClean | scripts/remove_hardcoded_versions.py:19-29 | after the substitutions no line matches any of the four patterns |
| HardcodedVersions.TidyShape | scripts/remove_hardcoded_versions.py:32-35 | clean text run through the collapse and `rstrip() + "\n"` is tidy |
| HardcodedVersions.OutputTidy | scripts/remove_hardcoded_versions.py:19-35 | the output is clean of the four patterns, has no run of four newlines and ends in exactly one newline after a non-space character (or is just a newline) |
| HardcodedVersions.TidyFixed | scripts/remove_hardcoded_versions.py:19-40 | tidy text is returned unchanged and not written |
| HardcodedVersions.UnchangedExactly | scripts/remove_hardcoded_versions.py:37-40 | the file is left alone exactly when it is already tidy |
| HardcodedVersions.Idempotent | scripts/remove_hardcoded_versions.py:19-40 | a second run on the output changes nothing and reports no change |
| HardcodedVersions.KeepsBody | scripts/remove_hardcoded_versions.py:19-35 | every clean input line with a non-space last character survives |
| HardcodedVersions.AddsNothing | scripts/remove_hardcoded_versions.py:19-35 | every output line is empty or an input line with its trailing whitespace cut off |
| PhaseLabels.MappingShape | scripts/migrate_phase_labels.py:25-32 | six entries, `phase-1` to `phase-6`, each mapped to labels with exactly one `type:` and one `priority:` label |
| PhaseLabels.MappingNeverReaddsPhase | scripts/migrate_phase_labels.py:25-32 | no phase maps to a list holding that phase's own label |
| PhaseLabels.NoPhaseLabel | scripts/migrate_phase_labels.py:25-32 | a list without `phase-` labels does not hold any phase label |
| PhaseLabels.Kept | scripts/migrate_phase_labels.py:113 | a current label is kept exactly when it is not in the removal list |
| PhaseLabels.Dedup | scripts/migrate_phase_labels.py:115 | `list(set(…))` has no duplicates and the same members |
| PhaseLabels.NewLabels | scripts/migrate_phase_labels.py:113-115 | a label is in the new list exactly when it is a current label not removed or an added one; no duplicates |
| PhaseLabels.LabelListCons | scripts/migrate_phase_labels.py:142 | each label is quoted in backticks and joined by ", " |
| PhaseLabels.UnquoteLabelList | scripts/migrate_phase_labels.py:142 | the quoted list reads back as the labels, so each label appears in backticks, in order |
| PhaseLabels.CommentLines | scripts/migrate_phase_labels.py:144-146 | the comment's first line names the phase label and its second line is `- ` followed by the label list |
| PhaseLabels.UpdateIssueLabels | scripts/migrate_phase_labels.py:88-125 | a read that fails (no such issue, or not 200) returns false with no write and the tracker unchanged; otherwise one PATCH carrying the labels read now less `remove` plus `add`, the result is whether it was accepted, and only then does that issue's label list become exactly those labels; no other issue changes |
| PhaseLabels.IssueStep | scripts/migrate_phase_labels.py:206-216 | handling one issue only appends writes, never lowers `total_migrated` and neither adds nor removes issues |
| PhaseLabels.PhaseRun | scripts/migrate_phase_labels.py:195-216 | handling a phase's issues only appends writes, never lowers `total_migrated` and neither adds nor removes issues |
| PhaseLabels.MigrationRun | scripts/migrate_phase_labels.py:185-216 | the same for all phases, each listing its issues from the tracker as that phase begins |
| PhaseLabels.PhaseStep | scripts/migrate_phase_labels.py:195-216 | one more issue is one more step from the state the earlier issues of the phase left, tracker included |
| PhaseLabels.MigratePhase | scripts/migrate_phase_labels.py:195-216 | in a dry run nothing changes; otherwise the counter, the writes and the tracker are those of the phase's issues taken in order from the ones given, each read seeing the earlier writes |
| PhaseLabels.Migrate | scripts/migrate_phase_labels.py:169-223 | in a dry run no call is made, the total is 0 and the tracker is untouched; otherwise the counter, writes and tracker are those of all phases in mapping order, each phase listing and reading issues as the earlier phases left them |
| PhaseLabels.ConfirmationAnswers | scripts/migrate_phase_labels.py:246-250 | the migration proceeds exactly on "yes" in any letter case |
| PhaseLabels.Run | scripts/migrate_phase_labels.py:226-252 | a missing or empty token exits 1 with no call; a dry run or an answer other than "yes" makes no call and leaves the tracker as it was; otherwise the full migration runs with the phase mapping on the tracker |
| PhaseLabels.CountCommentsAppend | scripts/migrate_phase_labels.py:210-213 | comments counted over two call logs add up |
| PhaseLabels.IssueCallsShape | scripts/migrate_phase_labels.py:208-216 | an issue gets a comment only right after its successful update, and exactly one then |
| PhaseLabels.PhaseCallsShape | scripts/migrate_phase_labels.py:195-216 | over a phase, comments follow successful updates and their number is the rise in the migrated count |
| PhaseLabels.RunCallsShape | scripts/migrate_phase_labels.py:185-216 | over any run of phases, comments follow successful updates and their number is the rise in the migrated count |
| PhaseLabels.MigrationCallsShape | scripts/migrate_phase_labels.py:185-216 | over the migration, every comment follows a successful update and the comment count equals `total_migrated` |
| PhaseLabels.PhasePatches | scripts/migrate_phase_labels.py:195-208 | every update sent for a phase goes to one of its listed issues and writes a label list read from it, less the phase label, plus the phase's new labels |
| PhaseLabels.MigrationPatches | scripts/migrate_phase_labels.py:185-208 | every update sent belongs to some phase of the mapping and to an issue listed for it from the tracker as that phase began |
| PhaseLabels.MigrationDropsPhase | scripts/migrate_phase_labels.py:25-32 | every update sent drops the phase label and carries all of that phase's new labels |
| PhaseLabels.UpdatedIssue | scripts/migrate_phase_labels.py:105-125 | when the read and the write succeed, the issue's label set becomes its old set less the phase label plus the new labels |
| PhaseLabels.PhaseOutcome | scripts/migrate_phase_labels.py:195-216 | when every read and write succeeds, a phase replaces its label by its new labels on each listed issue, however often it is listed, and leaves every other issue's labels alone |
| PhaseLabels.MigrationOutcome | scripts/migrate_phase_labels.py:51-83 | with a tracker that lists exactly the issues carrying a label and accepts every read and write, every issue ends with the label set that applying the phases one after another to its original labels gives (`Migrated`), so a later phase sees what earlier phases wrote |
| PhaseLabels.MappingLiterals | scripts/migrate_phase_labels.py:26-27 | `phase-1` maps to `type:maintenance`, `priority:high` and `phase-2` to `type:docs`, `scope:language-guide`, `priority:high` |
| PhaseLabels.MappingApart | scripts/migrate_phase_labels.py:25-32 | each phase is listed once, and no phase's new labels contain any phase label |
| PhaseLabels.MigratedMembers | scripts/migrate_phase_labels.py:185-216 | for such a mapping, a label ends on an issue exactly when it was there and is no phase label, or it is a new label of a phase the issue carried |
| PhaseLabels.MigrationReplacesPhases | scripts/migrate_phase_labels.py:169-223 | with the real mapping and a tracker that answers every request, no issue keeps any `phase-N` label, every other label stays, and each phase label it had is replaced by all of that phase's new labels; no issue is added or removed |
| PhaseLabels.TwoPhaseIssue | scripts/migrate_phase_labels.py:25-27 | an issue labelled `phase-1` and `phase-2` ends with `type:maintenance`, `priority:high`, `type:docs` and `scope:language-guide` |
| PageIndex.EntryCarriesMetadata | hooks/generate_page_index.py:26-34 | a recorded entry has tags or a truthy category, and its tags are the front-matter tags, wrapped in a list unless already one |
| PageIndex.RecordedExactly | hooks/generate_page_index.py:21-26 | a page is recorded exactly when its front matter has truthy tags or a truthy category |
| PageIndex.CollectAppend | hooks/generate_page_index.py:27 | the entries of two runs of pages concatenate, in visiting order |
| PageIndex.CollectExactly | hooks/generate_page_index.py:19-35 | every collected entry comes from a page, every page with an entry has it collected, and there are at most as many entries as pages |
| PageIndex.PageIndexHook.constructor | hooks/generate_page_index.py:16 | the list starts empty |
| PageIndex.PageIndexHook.OnPageContext | hooks/generate_page_index.py:19-35 | appends the page's entry, if any, after the earlier ones, and returns the context unchanged |
| PageIndex.PageIndexHook.OnPostBuild | hooks/generate_page_index.py:38-47 | writes the entries in the order they were recorded and leaves the list empty |
| PageIndex.Build | hooks/generate_page_index.py:19-47 | a build writes what earlier builds left, followed by its own pages' entries, and empties the list |
| PageIndex.TwoBuilds | hooks/generate_page_index.py:38-47 | two builds in a row each write only their own pages' entries |
| Text.StripProperties | scripts/generate_glossary.py:100 | `strip()` leaves no whitespace at either end and is idempotent |
| Text.JoinSplit | scripts/generate_glossary.py:76 | joining the `\n`-split lines gives the text back |
| Text.SplitJoin | scripts/generate_glossary.py:395 | splitting joined newline-free lines gives the lines back |
| Glossary.LetterIsH2 | scripts/generate_glossary.py:96-114 | a letter heading `## X` is also a `## ` heading naming that letter, so it is checked first |
| Glossary.RuleCutAtRun | scripts/generate_glossary.py:101 | `(\n*---\s*)+$` cuts at the end of the text or where a run of rules lasting to the end starts |
| Glossary.RuleCutFirst | scripts/generate_glossary.py:101 | no run of rules lasting to the end starts before the cut, so the match is the leftmost |
| Glossary.StripBeforeCut | scripts/generate_glossary.py:101 | after the cut and the strip, no suffix is a run of rules |
| Glossary.NormalizeNormalized | scripts/generate_glossary.py:100-101 | every saved definition is stripped and has no trailing run of `---` lines |
| Glossary.NormalizedFixed | scripts/generate_glossary.py:100-101 | a definition already in that shape is saved unchanged |
| Glossary.NormalizeIdempotent | scripts/generate_glossary.py:100-101 | cleaning a cleaned definition changes nothing |
| Glossary.NormalizePadded | scripts/generate_glossary.py:100-101 | a clean definition with blank padding on either side is saved as the definition alone |
| Glossary.CutBeforeRule | scripts/generate_glossary.py:101 | a clean definition followed by a blank line and a `---` line loses exactly that rule |
| Glossary.NormalizeBeforeRule | scripts/generate_glossary.py:100-101 | a definition written between blank lines and followed by a rule is read back as itself |
| Glossary.NormalizePlainEnd | scripts/generate_glossary.py:100-101 | text whose stripped form does not end in `-` is only stripped |
| GlossaryParse.ParseGlossary | scripts/generate_glossary.py:63-166 | every key is the lowercase of its term's name, with no key twice; names are stripped and non-empty; sections are a letter or ""; definitions are cleaned |
| GlossaryParse.ParseExistingGlossary | scripts/generate_glossary.py:63-166 | the loop over the lines computes the parse |
| GlossaryParse.ReadLine | scripts/generate_glossary.py:86-154 | the loop body updates the section, term, definition lines, flags and dictionary as one parser step |
| GlossaryParse.RunFront | scripts/generate_glossary.py:87-93 | every line that strips to `---` is counted, and the parser is inside the front matter exactly when it has seen one such line |
| GlossaryParse.FrontMatterSkipped | scripts/generate_glossary.py:87-93 | the front matter, its two delimiters included, adds no term and no section |
| GlossaryParse.StepTerms | scripts/generate_glossary.py:96-154 | a step keeps the dictionary or saves the current term into it |
| GlossaryParse.SavedGet | scripts/generate_glossary.py:102-106 | saving puts the term under its lowercase name, so a later term of the same name replaces an earlier one, and leaves other keys alone |
| GlossaryParse.RunNonTerm | scripts/generate_glossary.py:113-133 | inside a reserved section, until the next letter heading, no term is recorded |
| GlossaryParse.CutLineMissing | scripts/generate_glossary.py:218-219 | cutting a line at a marker leaves no marker in it |
| GlossaryParse.RemoveMarkerMissing | scripts/generate_glossary.py:213-219 | after one footer pattern's substitution its text appears nowhere |
| GlossaryParse.RemoveMarkerUnchanged | scripts/generate_glossary.py:218-219 | text without the marker is unchanged |
| GlossaryParse.FooterGone | scripts/generate_glossary.py:213-219 | after the three substitutions none of the footer texts is left |
| GlossaryParse.ParseSupplementary | scripts/generate_glossary.py:169-224 | "" for a missing file; otherwise the text is stripped and holds none of the footer texts |
| GlossaryParse.CleanProperties | scripts/generate_glossary.py:210-224 | the clean-up always yields stripped text without footer texts |
| GlossaryParse.ReadSuppLine | scripts/generate_glossary.py:189-208 | the loop body updates the capture flag, front-matter flags and captured lines as one step |
| GlossaryParse.ParseSupplementarySections | scripts/generate_glossary.py:169-224 | the method computes the supplementary text |
| GlossaryParse.CaptureSections | scripts/generate_glossary.py:183-208 | the loop collects exactly the lines the step function captures |
| GlossaryParse.RemoveFooterLines | scripts/generate_glossary.py:218-219 | the loop over the three patterns applies them in order |
| GlossaryParse.SuppStepHeadings | scripts/generate_glossary.py:198-208 | a reserved heading starts a capture and is captured; a letter heading stops it and is not captured; other lines are captured exactly while capturing |
| GlossaryParse.ParsedCapture | scripts/generate_glossary.py:183-208 | the capture starts at a reserved heading and never holds a letter heading |
| GlossaryParse.NoFooterIn | scripts/generate_glossary.py:218-219 | text without `*`, `F` or `[` passes the footer patterns unchanged |
| GlossaryParse.CleanPlain | scripts/generate_glossary.py:210-224 | for stripped text without footer texts, the clean-up is the trailing-rule removal and a strip |
| GlossaryParse.OneRuleDropped | scripts/generate_glossary.py:222 | only one trailing `\n---` is removed: `A\n---\n---` still ends in `\n---` |
| GlossaryScan.FileNameOf | scripts/generate_glossary.py:244 | the name tested is the path's last component |
| GlossaryScan.StripFences | scripts/generate_glossary.py:250 | removing fenced blocks never lengthens the text |
| GlossaryScan.StripFencesNoBlock | scripts/generate_glossary.py:250 | after removal no complete fenced block is left |
| GlossaryScan.FencesIdempotent | scripts/generate_glossary.py:250 | removing fenced blocks twice is the same as once |
| GlossaryScan.FencesAbsent | scripts/generate_glossary.py:250 | text without a fence is unchanged |
| GlossaryScan.StripInline | scripts/generate_glossary.py:251 | removing inline code never lengthens the text |
| GlossaryScan.InlineAbsent | scripts/generate_glossary.py:251 | text without a backtick is unchanged |
| GlossaryScan.InlineSpan | scripts/generate_glossary.py:251 | a non-empty span between two backticks is removed with its backticks |
| GlossaryScan.SearchWordIff | scripts/generate_glossary.py:260-261 | the search succeeds exactly when the base name occurs somewhere with a word boundary on both sides, ignoring case |
| GlossaryScan.MentionsCaseBlind | scripts/generate_glossary.py:260 | matching ignores letter case in the page |
| GlossaryScan.BaseNameShape | scripts/generate_glossary.py:256 | the base name is stripped and holds no `(`; a stripped name without `(` is its own base name |
| GlossaryScan.ScanDocsForTermUsage | scripts/generate_glossary.py:227-268 | the nested loops compute the scan over the pages and the terms |
| GlossaryScan.ScanPage | scripts/generate_glossary.py:253-266 | the inner loop computes one page's pass over the terms |
| GlossaryScan.ScanEntry | scripts/generate_glossary.py:256-266 | one term on one page adds the page's reference when the term is found and the display path is new |
| GlossaryScan.AddRefListed | scripts/generate_glossary.py:265-266 | adding a reference lists its display path under the key and changes nothing else |
| GlossaryScan.ScanDocsListed | scripts/generate_glossary.py:240-266 | a display path is listed under a key exactly when some page with that path is read (not `glossary.md` or `changelog.md`) and mentions, outside code, the base name (two characters or more) of a term with that key |
| GlossaryScan.ScanDocsGood | scripts/generate_glossary.py:236-266 | every listed key has a non-empty list with distinct display paths |
| GlossaryScan.BoldSpansShape | scripts/generate_glossary.py:279 | every bold group starts with an upper-case letter and holds only the pattern's characters |
| GlossaryScan.ColonNeverSeen | scripts/generate_glossary.py:303-304 | the `:` test never rejects anything, since the pattern admits no `:` |
| GlossaryScan.DetectCandidateTerms | scripts/generate_glossary.py:271-308 | the loops compute the candidate counts with the 3-or-more filter |
| GlossaryScan.CountPage | scripts/generate_glossary.py:293-305 | the loop over one page's matches adds each passing match |
| GlossaryScan.CountMatch | scripts/generate_glossary.py:294-305 | one match is counted exactly when it passes the filters |
| GlossaryScan.Found | scripts/generate_glossary.py:294-305 | every counted span passes the filters |
| GlossaryScan.Matches | scripts/generate_glossary.py:283-305 | every counted match over the pages passes the filters |
| GlossaryScan.CountDocsOf | scripts/generate_glossary.py:283-305 | the count of a term is its number of passing matches over all read pages, not the number of pages |
| GlossaryScan.AtLeastThreeGet | scripts/generate_glossary.py:308 | the filter keeps exactly the terms counted 3 times or more, with their counts |
| GlossaryScan.DetectCandidatesGet | scripts/generate_glossary.py:271-308 | a term is returned with count `m` exactly when it has `m >= 3` passing matches |
| GlossaryScan.DetectCandidatesFiltered | scripts/generate_glossary.py:296-305 | every returned term is at least 3 characters long, not a known term, without a skipped prefix and without `:` |
| GlossaryRender.SortedSections | scripts/generate_glossary.py:335-336 | sorting keeps the number of sections |
| GlossaryRender.Links | scripts/generate_glossary.py:362-364 | one link per reference |
| GlossaryRender.GenerateGlossaryContent | scripts/generate_glossary.py:311-395 | the appending renderer computes the page text |
| GlossaryRender.AppendSections | scripts/generate_glossary.py:347-372 | the loop over the letters appends each letter's block in order |
| GlossaryRender.GroupTerms | scripts/generate_glossary.py:329-332 | the loop groups the terms by section |
| GlossaryRender.SortSections | scripts/generate_glossary.py:335-336 | the loop sorts each section's list |
| GlossaryRender.AppendTerms | scripts/generate_glossary.py:351-372 | the loop over a section's terms appends each term's lines |
| GlossaryRender.AppendTerm | scripts/generate_glossary.py:352-372 | one term's lines: heading, blank line, definition, optional references, blank line |
| GlossaryRender.TermRefLines | scripts/generate_glossary.py:357-370 | the optional reference lines of one term |
| GlossaryRender.ReferenceText | scripts/generate_glossary.py:361-369 | the loop builds the "Referenced in" text |
| GlossaryRender.GroupedMembers | scripts/generate_glossary.py:329-332 | each section holds exactly the terms of that section, in dictionary order, and only sections with terms exist |
| GlossaryRender.SectionContents | scripts/generate_glossary.py:335-336 | each section is sorted by lowercase name and is a permutation of that section's terms |
| GlossaryRender.LettersAscending | scripts/generate_glossary.py:347 | the letters are emitted in strictly ascending order |
| GlossaryRender.LettersPresent | scripts/generate_glossary.py:347 | a letter is emitted exactly when some term has that section |
| GlossaryRender.EveryTermOnce | scripts/generate_glossary.py:347-372 | the terms emitted over all letters are a permutation of the dictionary's terms |
| GlossaryRender.ShownLinks | scripts/generate_glossary.py:362-365 | the references are sorted by display path, and the first `min(5, n)` are shown as links in that order |
| GlossaryRender.RefTextMore | scripts/generate_glossary.py:365-369 | the text ends with " more*" exactly when there are more than 5 references |
| GlossaryRender.RefLinesShown | scripts/generate_glossary.py:357-370 | reference lines appear exactly when cross references are on and the term has a non-empty list; with them off a term is heading, blank line, definition and blank line |
| GlossaryRoundTrip.TermsRoundTrip | scripts/generate_glossary.py:63-166 | the rendered page, with reserved sections the parser can tell apart, reads back with every key of the dictionary holding its own term (its definition gaining the "Referenced in" line when shown) and with no other key |
| GlossaryRoundTrip.RoundTripPlain | scripts/generate_glossary.py:338-395 | with cross references off the rendered page reads back exactly as the dictionary, key by key |
| GlossarySuppRoundTrip.CapturedPage | scripts/generate_glossary.py:183-208 | on the rendered page the capture is the reserved sections, a blank line and the footer lines |
| GlossarySuppRoundTrip.CleanFooter | scripts/generate_glossary.py:210-224 | the clean-up of those captured lines gives back the reserved sections |
| GlossarySuppRoundTrip.SuppRoundTrip | scripts/generate_glossary.py:169-224 | the reserved sections written into the page (stripped, without footer texts) are read back unchanged |

## Left out

- Text, PyInt: the Python primitives are ASCII only. `str.strip()`, `str.isspace()` and regex `\s` cover the ASCII whitespace characters but not the Unicode ones. Regex `\b` and `\w` see only ASCII letters, digits and `_`. `re.IGNORECASE` and `str.lower()` fold only `A`-`Z`. `int()` accepts ASCII digits with single underscores, an optional sign and surrounding ASCII whitespace, but no other Unicode digits. Pages whose behaviour depends on non-ASCII characters are outside the model.
- CodeRatio.Ratio: the ratio is an exact `real`, not a 64-bit float. The pass test `code / text >= 3.0` is modelled as `text > 0 && code >= 3 * text`, and `CodeRatio.PassesIsRatio` proves that this agrees with the exact ratio. Float rounding of the ratio is not modelled. It could only change the order of two below-target guides whose ratios round to the same float.
- PhaseLabels.NewLabels: `list(set(labels))` has an order that Python leaves unspecified. The model fixes the order to first occurrence, and its contract states only the membership and that there are no duplicates.
- PhaseLabels: the issues' labels on GitHub are a `Tracker` value that the migration carries from step to step, so every read sees the writes made before it. The rest of the API is passed in as functions:
  - `issuesWith` stands for `get_issues_with_label` with its paging. It is a function of the tracker as the phase begins, so it can also return the shorter list a failed page leaves.
  - `getOk` and `patchOk` say whether the GET and the PATCH of `update_issue_labels` answer 200. They depend only on the issue and the label list written, so a request that fails once and succeeds when repeated is not modelled.
  - The POST of `add_migration_comment` is logged as a call. Its success is not modelled, since the script ignores it.
  - The printed progress lines and the banner are left out.
- PhaseLabels.MigrationOutcome, PhaseLabels.MigrationReplacesPhases: the final label sets are stated only for a tracker that lists exactly the issues carrying a label and answers every read and write (`Answers`). With failures, `PhaseLabels.MigrationPatches` and `PhaseLabels.MigrationDropsPhase` still describe every write made.
- ActionVersions, ValidateVersions, LanguageReleases: the release lookups (`get_latest_release_tag` and the per-source `check_*` functions) are passed in as functions returning an optional value. Reading the workflow files, the versions YAML and the guides is replaced by their contents or `None`.
- LanguageReleases.CheckLanguage: the fields of a lookup's answer are strings or `None`. A non-string `version` (converted with `str()` before normalising but reported as is) and an `eol` value that is a boolean rather than a date are not modelled. An exception in the comparison, which the script catches and prints, is the comparison's `None`.
- LanguageReleases: the `packaging.version` comparison and the `max` over a guide's versions are passed in as functions (`World.newer`, `World.highest`). Their ordering is not modelled. The append to the `GITHUB_OUTPUT` file and the printed report are left out.
- ValidateVersions.Validate: the versions file is given as its `actions` table, a map from action names to version strings, or `None` when the file is missing. The script reads `versions_data["actions"]` (scripts/validate_versions.py:180) and raises an uncaught `KeyError` when the file has no `actions` key; the model cannot express such a file, so that failure is not modelled. Values that are not strings (numbers, lists) are not modelled either.
- Changelog: `fetch_releases` (the API call) is not part of this model, and the release list is an argument. The ISO 8601 parse of `parse_release_date` is an input field (`parsedDate`); only its fallback branch is modelled. `datetime.now()` is the `timestamp` argument. A `null` publication time is modelled as a failed run (`None`), since the fallback slices `None` and raises. Other non-string JSON values in the text fields (numbers, lists) are not modelled.
- PageIndex: the `json.dump` to `page-index.json` and the log line are left out; `on_post_build` returns the list it would write. Front-matter values have no float variant in `PageIndex.Value`, so a float `category` or `tags` value, whose truth depends on being non-zero, is not modelled.
- StaticMetadata, HardcodedVersions: reading and writing the page and the `main` loops over `docs/` are left out. `StaticMetadata.ProcessPage` is the corrected `process_file`, with the front matter rebuilt by `ProcessFrontmatter` (see "## Findings"), and without the write and the error print. The code as written differs only in the rebuild, `StaticMetadata.ProcessFrontmatterAsWritten`.
- HardcodedVersions: the italic patterns end in `\*\s*$` under `re.MULTILINE`, so `\s*` can run over the following blank lines. The model gives that effect at line level: the footer line and the whitespace-only lines after it become one empty line.
- GlossaryParse.ParseGlossary: the first-run quirk is not exhibited. When the glossary is written with no reserved sections (`supplementary == ""`, lines 375-379), nothing separates the last term from the footer. Reading the page back then appends the footer ("**Total Terms**: …", "For additional terms …", "[GitHub repository]…") to the last term's definition (lines 153-154 with 381-393). The model contains this behaviour, but no lemma states it. The round-trip lemmas `GlossaryRoundTrip.TermsRoundTrip`, `GlossaryRoundTrip.RoundTripPlain` and `GlossarySuppRoundTrip.SuppRoundTrip` all require non-empty reserved sections that start with a reserved heading (`SuppReady`).
- GlossaryParse.ParseSupplementary: one `\n---` is removed at the end, as `re.sub(r"\n---\s*$", …)` does, so a text ending in two rules keeps one (`GlossaryParse.OneRuleDropped`). The model keeps the source's behaviour.
- GlossaryScan.DetectCandidatesGet: the code counts matches, not documents, although its comment says "3+ documents". The model follows the code.
- Glossary: `main` of `scripts/generate_glossary.py` is left out. That covers the argparse options `--scan-new`, `--dry-run`, `--cross-ref`, `--docs-dir` and `--output`, the printing and writing the file. The effect of `--cross-ref` on the page is the `crossRef` argument of `GlossaryRender.GenerateGlossaryContent`. So are the `rglob` walks, which are replaced by the sorted sequence of pages. `scripts/generate_dashboard.py`, `scripts/validate_metadata.py` and `cli/test/fixtures/good.py` are not part of this model.
- Printing and exit through `sys.exit` are modelled only as the returned exit codes.

## Findings

| source | as written | input that shows it | evidently intended | confidence | as-written member | corrected member |
|---|---|---|---|---|---|---|
| scripts/remove_static_metadata.py:42 | the page is rebuilt as `f"---\n{new_frontmatter}---\n{rest_of_content}"`; the regex at line 21 consumed the newline before the closing `---`, and nothing adds it back | `"---\ndate: 1\ntitle: x\n---\nbody"` is written back as `"---\ntitle: x---\nbody"`; a page with no `date:`/`version:` field but with a `**Last Updated**:` footer is also rewritten with its last front-matter line glued to `---` | every kept front-matter line ends in a newline before the closing `---` | not executed | StaticMetadata.AsWrittenGluesLastLine (about StaticMetadata.ProcessFrontmatterAsWritten) | StaticMetadata.ProcessFrontmatterShape (about StaticMetadata.ProcessFrontmatter, which StaticMetadata.ProcessPage uses) |
