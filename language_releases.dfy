/** The release monitor for the supported languages: for each configured
    language it fetches the latest version (or takes a fixed one), reads
    the highest version documented in the guide, normalises both and
    reports the languages whose latest release is newer. */
module LanguageReleases {
  import opened Wrappers
  import opened Text

  /** Where a language's latest version comes from. */
  datatype Source = EndOfLife | GitHub | Npm | PyPI | Spec | Docs | Terraform | Docker | Gnu

  /** Sources with a fixed answer: no lookup is made for them. */
  predicate IsStatic(s: Source) {
    s.Spec? || s.Docs? || s.Terraform? || s.Docker? || s.Gnu?
  }

  /** One entry of the language table. `target` is the API URL, repository
      or package the source is queried with ("" when it has none). */
  datatype Language = Language(name: string, source: Source, target: string, guidePath: string,
                               pattern: string, current: Option<string>)

  const GUIDES := "docs/02_language_guides/"
  const EOL_API := "https://endoflife.date/api/"
  const VERSION_TAIL := "\\s+(\\d+\\.\\d+)(?:\\.\\d+)?"

  /** The language table, in its order. */
  const LANGUAGES: seq<Language> := [
    Language("python", EndOfLife, EOL_API + "python.json", GUIDES + "python.md", "Python" + VERSION_TAIL + "(?:\\+)?", None),
    Language("terraform", EndOfLife, EOL_API + "terraform.json", GUIDES + "terraform.md", "Terraform" + VERSION_TAIL + "(?:\\+)?", None),
    Language("kubernetes", EndOfLife, EOL_API + "kubernetes.json", GUIDES + "kubernetes.md", "Kubernetes" + VERSION_TAIL, None),
    Language("powershell", EndOfLife, EOL_API + "powershell.json", GUIDES + "powershell.md", "PowerShell" + VERSION_TAIL, None),
    Language("gitlab", EndOfLife, EOL_API + "gitlab.json", GUIDES + "gitlab.md", "GitLab" + VERSION_TAIL, None),
    Language("typescript", Npm, "typescript", GUIDES + "typescript.md", "TypeScript" + VERSION_TAIL, None),
    Language("ansible", PyPI, "ansible", GUIDES + "ansible.md", "Ansible" + VERSION_TAIL, None),
    Language("bash", GitHub, "bminor/bash", GUIDES + "bash.md", "Bash" + VERSION_TAIL, None),
    Language("hcl", Terraform, EOL_API + "terraform.json", GUIDES + "hcl.md", "HCL\\s+(\\d+)(?:\\.\\d+)?", None),
    Language("yaml", Spec, "https://yaml.org/spec/", GUIDES + "yaml.md", "YAML" + VERSION_TAIL, Some("1.2")),
    Language("json", Spec, "https://www.json.org/", GUIDES + "json.md", "JSON\\s+", Some("RFC 8259")),
    Language("sql", Spec, "https://www.iso.org/standard/", GUIDES + "sql.md", "SQL\\s+", Some("SQL:2023")),
    Language("dockerfile", Docker, "", GUIDES + "dockerfile.md", "Docker" + VERSION_TAIL, None),
    Language("docker-compose", GitHub, "docker/compose", GUIDES + "docker_compose.md", "Compose\\s+(?:v)?(\\d+\\.\\d+)(?:\\.\\d+)?", None),
    Language("makefile", Gnu, "make", GUIDES + "makefile.md", "GNU Make" + VERSION_TAIL, None),
    Language("groovy", GitHub, "apache/groovy", GUIDES + "groovy.md", "Groovy" + VERSION_TAIL, None),
    Language("terragrunt", GitHub, "gruntwork-io/terragrunt", GUIDES + "terragrunt.md", "Terragrunt\\s+(?:v)?(\\d+\\.\\d+)(?:\\.\\d+)?", None),
    Language("cdk", Npm, "aws-cdk", GUIDES + "cdk.md", "AWS CDK\\s+(?:v)?(\\d+\\.\\d+)(?:\\.\\d+)?", None),
    Language("github-actions", Docs, "https://docs.github.com/en/actions", GUIDES + "github_actions.md", "Actions\\s+", Some("latest"))
  ]

  lemma LanguageTable()
    ensures |LANGUAGES| == 19
    ensures forall i :: 0 <= i < |LANGUAGES| && LANGUAGES[i].current.Some? ==> IsStatic(LANGUAGES[i].source)
  {
  }

  // ---------------------------------------------------------------- versions

  /** The part of a version kept for comparison: leading `v`s stripped,
      everything from the first `-` and then from the first `+` dropped. */
  function Core(ver: string): string {
    Split(Split(LStripChar(ver, 'v'), '-')[0], '+')[0]
  }

  /** The padding loop: append "0" until there are two parts. */
  function Pad(parts: seq<string>): (r: seq<string>)
    ensures |r| >= 2 && |r| >= |parts| && r[..|parts|] == parts
    ensures forall i :: |parts| <= i < |r| ==> r[i] == "0"
    decreases 2 - |parts|
  {
    if |parts| < 2 then Pad(parts + ["0"]) else parts
  }

  function Take3(parts: seq<string>): seq<string> {
    if |parts| < 3 then parts else parts[..3]
  }

  /** `normalize_version` of the release monitor. */
  function NormalizeRelease(ver: string): string {
    Join(Take3(Pad(Split(Core(ver), '.'))), ".")
  }

  /** `normalize_version`, padding in place as the source does. */
  method NormalizeVersion(ver: string) returns (r: string)
    ensures r == NormalizeRelease(ver)
  {
    var v := Split(Split(LStripChar(ver, 'v'), '-')[0], '+')[0];
    var parts := Split(v, '.');
    while |parts| < 2
      invariant Pad(parts) == Pad(Split(v, '.'))
      decreases 2 - |parts|
    {
      parts := parts + ["0"];
    }
    r := Join(parts[..if |parts| < 3 then |parts| else 3], ".");
  }

  /** The core holds no `-` and no `+`. */
  lemma CoreClean(ver: string)
    ensures '-' !in Core(ver) && '+' !in Core(ver)
  {
    var w := LStripChar(ver, 'v');
    var a := Split(w, '-')[0];
    SplitNoSep(w, '-');
    assert '-' !in a;
    SplitNoSep(a, '+');
    SplitKeepsAbsent(a, '+', '-');
  }

  /** Padding and truncation introduce no character other than `0`. */
  lemma PadKeepsAbsent(parts: seq<string>, c: char)
    requires c != '0' && forall i :: 0 <= i < |parts| ==> c !in parts[i]
    ensures forall i :: 0 <= i < |Take3(Pad(parts))| ==> c !in Take3(Pad(parts))[i]
  {
    var padded := Pad(parts);
    forall i | 0 <= i < |padded|
      ensures c !in padded[i]
    {
      if i < |parts| {
        assert padded[i] == padded[..|parts|][i];
      }
    }
  }

  /** The parts that are joined: two or three, none holding `.`, `-` or `+`. */
  lemma NormalizedParts(ver: string)
    ensures var ps := Take3(Pad(Split(Core(ver), '.')));
      2 <= |ps| <= 3 &&
      forall i :: 0 <= i < |ps| ==> '.' !in ps[i] && '-' !in ps[i] && '+' !in ps[i]
  {
    var core := Core(ver);
    CoreClean(ver);
    var parts := Split(core, '.');
    SplitNoSep(core, '.');
    SplitKeepsAbsent(core, '.', '-');
    SplitKeepsAbsent(core, '.', '+');
    PadKeepsAbsent(parts, '.');
    PadKeepsAbsent(parts, '-');
    PadKeepsAbsent(parts, '+');
  }

  /** The normalised version always has two or three dot-separated parts. */
  lemma NormalizedShape(ver: string)
    ensures 2 <= |Split(NormalizeRelease(ver), '.')| <= 3
  {
    NormalizedParts(ver);
    SplitJoin(Take3(Pad(Split(Core(ver), '.'))), '.');
  }

  /** The normalised version does not start with `v` and holds no `-` or `+`. */
  lemma NormalizedChars(ver: string)
    ensures var n := NormalizeRelease(ver);
      n != [] && n[0] != 'v' && '-' !in n && '+' !in n
  {
    NormalizedParts(ver);
    var ps := Take3(Pad(Split(Core(ver), '.')));
    JoinKeepsAbsent(ps, '.', '-');
    JoinKeepsAbsent(ps, '.', '+');
    var w := LStripChar(ver, 'v');
    var a := Split(w, '-')[0];
    var core := Split(a, '+')[0];
    SplitHead(w, '-');
    SplitHead(a, '+');
    SplitHead(core, '.');
    var p0 := Split(core, '.')[0];
    assert ps[0] == Pad(Split(core, '.'))[0] == p0;
    assert Join(ps, ".") == ps[0] + "." + Join(ps[1..], ".");
    if p0 != [] {
      assert p0[0] == core[0] == a[0] == w[0];
    }
  }

  /** Normalising twice gives the same as normalising once. */
  lemma NormalizeIdempotent(ver: string)
    ensures NormalizeRelease(NormalizeRelease(ver)) == NormalizeRelease(ver)
  {
    var n := NormalizeRelease(ver);
    var ps := Take3(Pad(Split(Core(ver), '.')));
    NormalizedParts(ver);
    NormalizedChars(ver);
    assert LStripChar(n, 'v') == n;
    SplitPlain(n, '-');
    SplitPlain(n, '+');
    assert Core(n) == n;
    SplitJoin(ps, '.');
    assert Split(n, '.') == ps;
    assert Pad(ps) == ps;
    assert Take3(ps) == ps;
  }

  /** A plain version text (no leading `v`, no `-`, no `+`) is its own core. */
  lemma CoreOfPlain(v: string)
    requires '-' !in v && '+' !in v && (v == [] || v[0] != 'v')
    ensures Core(v) == v
  {
    assert LStripChar(v, 'v') == v;
    SplitPlain(v, '-');
    SplitPlain(v, '+');
  }

  /** A bare major version gains a `.0` minor part. */
  lemma NormalizeMajorOnly(major: string)
    requires '.' !in major && '-' !in major && '+' !in major && (major == [] || major[0] != 'v')
    ensures NormalizeRelease(major) == major + ".0"
  {
    CoreOfPlain(major);
    SplitPlain(major, '.');
    assert Pad([major]) == Pad([major, "0"]) == [major, "0"];
    assert Join([major, "0"], ".") == major + "." + Join(["0"], ".");
  }

  /** Only the first three parts of a longer version are kept. */
  lemma NormalizeKeepsThree(parts: seq<string>)
    requires |parts| >= 3
    requires forall i :: 0 <= i < |parts| ==> '.' !in parts[i] && '-' !in parts[i] && '+' !in parts[i]
    requires parts[0] == [] || parts[0][0] != 'v'
    ensures NormalizeRelease(Join(parts, ".")) == Join(parts[..3], ".")
  {
    var v := Join(parts, ".");
    JoinKeepsAbsent(parts, '.', '-');
    JoinKeepsAbsent(parts, '.', '+');
    assert v == parts[0] + "." + Join(parts[1..], ".");
    if parts[0] == [] {
      assert v[0] == '.';
    } else {
      assert v[0] == parts[0][0];
    }
    CoreOfPlain(v);
    SplitJoin(parts, '.');
  }

  // ---------------------------------------------------------------- lookups

  /** What a source reports about a language's latest release: the
      version, the end-of-life date, the release date and the release page
      (`None` or "" where the source gives none). */
  datatype Info = Info(version: string, eolDate: Option<string>, releaseDate: Option<string>, url: string)

  /** The outside world: what a network source reports (`None` on
      failure), the pattern matches in a guide (`None` when it cannot be
      read), the highest of some versions, and the version comparison
      (`None` when a version cannot be parsed). */
  datatype World = World(fetch: Language -> Option<Info>,
                         findAll: (string, string) -> Option<seq<string>>,
                         highest: seq<string> -> string,
                         newer: (string, string) -> Option<bool>)

  /** The answer of a static source: the configured version, or "latest", with no dates and no page. */
  function StaticInfo(lang: Language): Info {
    Info(lang.current.GetOr("latest"), None, None, "")
  }

  /** The latest release of a language: fixed for static sources, fetched otherwise. */
  function LatestVersion(lang: Language, fetch: Language -> Option<Info>): (r: Option<Info>)
    ensures IsStatic(lang.source) ==> r == Some(Info(lang.current.GetOr("latest"), None, None, ""))
    ensures !IsStatic(lang.source) ==> r == fetch(lang)
  {
    match lang.source
    case EndOfLife => fetch(lang)
    case GitHub => fetch(lang)
    case Npm => fetch(lang)
    case PyPI => fetch(lang)
    case _ => Some(StaticInfo(lang))
  }

  /** The non-empty matches. */
  function NonEmpty(ms: seq<string>): (r: seq<string>)
    ensures forall v :: v in r <==> v in ms && v != ""
  {
    if |ms| == 0 then []
    else NonEmpty(ms[..|ms| - 1]) + (if ms[|ms| - 1] != "" then [ms[|ms| - 1]] else [])
  }

  /** `get_current_version_from_guide`: the highest non-empty match, "0.0.0" when there is none or the guide cannot be read. */
  function CurrentVersion(matches: Option<seq<string>>, highest: seq<string> -> string): (r: string)
    ensures matches.None? ==> r == "0.0.0"
    ensures matches.Some? && NonEmpty(matches.value) == [] ==> r == "0.0.0"
    ensures matches.Some? && NonEmpty(matches.value) != [] ==> r == highest(NonEmpty(matches.value))
  {
    match matches
    case None => "0.0.0"
    case Some(ms) => if NonEmpty(ms) != [] then highest(NonEmpty(ms)) else "0.0.0"
  }

  /** A language with a newer release than its guide documents, with the
      fields of the reported entry. */
  datatype Release = Release(language: string, current: string, latest: string, eolDate: Option<string>,
                             releaseDate: Option<string>, guidePath: string, url: string)

  /** The version the guide of `lang` documents. */
  function GuideVersion(lang: Language, world: World): string {
    CurrentVersion(world.findAll(lang.guidePath, lang.pattern), world.highest)
  }

  /** The check of one language: skipped when no latest release is known,
      reported exactly when the normalised latest version is newer than the
      normalised documented one, with the release's details. */
  function CheckLanguage(lang: Language, world: World): (r: Option<Release>)
    ensures r.Some? <==>
              LatestVersion(lang, world.fetch).Some? &&
              world.newer(NormalizeRelease(LatestVersion(lang, world.fetch).value.version),
                          NormalizeRelease(GuideVersion(lang, world))) == Some(true)
    ensures r.Some? ==>
              var info := LatestVersion(lang, world.fetch).value;
              r.value == Release(lang.name, GuideVersion(lang, world), info.version, info.eolDate,
                                 info.releaseDate, lang.guidePath, info.url)
  {
    match LatestVersion(lang, world.fetch)
    case None => None
    case Some(info) =>
      var current := GuideVersion(lang, world);
      if world.newer(NormalizeRelease(info.version), NormalizeRelease(current)) == Some(true)
      then Some(Release(lang.name, current, info.version, info.eolDate, info.releaseDate, lang.guidePath, info.url))
      else None
  }

  /** With a comparison under which no version is newer than itself, a
      language whose guide documents its latest version, once both are
      normalised, is never reported. */
  lemma UpToDateNotReported(lang: Language, world: World)
    requires forall v :: world.newer(v, v) != Some(true)
    requires LatestVersion(lang, world.fetch).Some?
    requires NormalizeRelease(LatestVersion(lang, world.fetch).value.version) == NormalizeRelease(GuideVersion(lang, world))
    ensures CheckLanguage(lang, world) == None
  {
    var v := NormalizeRelease(GuideVersion(lang, world));
    assert world.newer(v, v) != Some(true);
  }

  /** The values present in `os`, in order. */
  function Somes<T>(os: seq<Option<T>>): seq<T> {
    if |os| == 0 then []
    else Somes(os[..|os| - 1]) + (if os[|os| - 1].Some? then [os[|os| - 1].value] else [])
  }

  lemma {:induction false} SomesSound<T>(os: seq<Option<T>>, x: T) returns (i: nat)
    requires x in Somes(os)
    ensures i < |os| && os[i] == Some(x)
  {
    var prefix := os[..|os| - 1];
    if x in Somes(prefix) {
      i := SomesSound(prefix, x);
      assert prefix[i] == os[i];
    } else {
      i := |os| - 1;
    }
  }

  lemma {:induction false} SomesComplete<T>(os: seq<Option<T>>, i: nat)
    requires i < |os| && os[i].Some?
    ensures os[i].value in Somes(os)
  {
    var prefix := os[..|os| - 1];
    if i < |prefix| {
      assert prefix[i] == os[i];
      SomesComplete(prefix, i);
    }
  }

  /** The check of every language of `langs`, in order. */
  function Checks(langs: seq<Language>, world: World): (r: seq<Option<Release>>)
    ensures |r| == |langs|
    ensures forall i :: 0 <= i < |langs| ==> r[i] == CheckLanguage(langs[i], world)
  {
    seq(|langs|, i requires 0 <= i < |langs| => CheckLanguage(langs[i], world))
  }

  /** The releases reported for `langs`, in table order. */
  function NewReleases(langs: seq<Language>, world: World): seq<Release> {
    Somes(Checks(langs, world))
  }

  /** A release is reported exactly when some language's check yields it. */
  lemma NewReleasesExact(langs: seq<Language>, world: World, r: Release)
    ensures r in NewReleases(langs, world) <==>
            exists i :: 0 <= i < |langs| && CheckLanguage(langs[i], world) == Some(r)
  {
    var os := Checks(langs, world);
    if r in Somes(os) {
      var i := SomesSound(os, r);
      assert CheckLanguage(langs[i], world) == Some(r);
    }
    if exists i :: 0 <= i < |langs| && CheckLanguage(langs[i], world) == Some(r) {
      var i :| 0 <= i < |langs| && CheckLanguage(langs[i], world) == Some(r);
      SomesComplete(os, i);
    }
  }

  /** A language whose latest version cannot be obtained is never reported. */
  lemma SkippedNeverReported(langs: seq<Language>, world: World, i: nat)
    requires i < |langs| && LatestVersion(langs[i], world.fetch).None?
    requires forall j :: 0 <= j < |langs| && j != i ==> langs[j].name != langs[i].name
    ensures forall r :: r in NewReleases(langs, world) ==> r.language != langs[i].name
  {
    forall r | r in NewReleases(langs, world)
      ensures r.language != langs[i].name
    {
      var j := SomesSound(Checks(langs, world), r);
      assert CheckLanguage(langs[j], world) == Some(r);
      assert j != i;
    }
  }

  lemma NewReleasesSnoc(langs: seq<Language>, world: World, k: nat)
    requires k < |langs|
    ensures NewReleases(langs[..k + 1], world) ==
            NewReleases(langs[..k], world) +
            (if CheckLanguage(langs[k], world).Some? then [CheckLanguage(langs[k], world).value] else [])
  {
    var os := Checks(langs[..k + 1], world);
    assert langs[..k + 1][..k] == langs[..k];
    assert os[..k] == Checks(langs[..k], world);
  }

  /** The body of the loop in `main` for one language. */
  method CheckOne(lang: Language, world: World) returns (found: Option<Release>)
    ensures found == CheckLanguage(lang, world)
  {
    var latest: Option<Info>;
    if lang.source.EndOfLife? || lang.source.GitHub? || lang.source.Npm? || lang.source.PyPI? {
      latest := world.fetch(lang);
    } else {
      latest := Some(Info(lang.current.GetOr("latest"), None, None, ""));
    }
    assert latest == LatestVersion(lang, world.fetch);
    found := None;
    if latest.Some? {
      var info := latest.value;
      var current := CurrentVersion(world.findAll(lang.guidePath, lang.pattern), world.highest);
      var latestVer := NormalizeVersion(info.version);
      var currentVer := NormalizeVersion(current);
      if world.newer(latestVer, currentVer) == Some(true) {
        found := Some(Release(lang.name, current, info.version, info.eolDate, info.releaseDate, lang.guidePath, info.url));
      }
    }
  }

  /** The loop of `main` over a language table. */
  method CheckAll(langs: seq<Language>, world: World) returns (releases: seq<Release>)
    ensures releases == NewReleases(langs, world)
  {
    releases := [];
    var k := 0;
    while k < |langs|
      invariant 0 <= k <= |langs|
      invariant releases == NewReleases(langs[..k], world)
    {
      NewReleasesSnoc(langs, world, k);
      var found := CheckOne(langs[k], world);
      if found.Some? {
        releases := releases + [found.value];
      }
      k := k + 1;
    }
    assert langs[..k] == langs;
  }

  /** `main`: the releases found over the language table and the exit status. */
  method CheckReleases(world: World) returns (exit: int, releases: seq<Release>)
    ensures releases == NewReleases(LANGUAGES, world)
    ensures exit == 0 <==> releases == []
    ensures exit == 1 <==> releases != []
  {
    releases := CheckAll(LANGUAGES, world);
    exit := if releases == [] then 0 else 1;
  }
}
