/** The check that the pinned action versions of the central versions
    file match the latest releases. Its `normalize_version` and
    `is_version_outdated` are the same text as the shared helpers, so the
    model uses `VersionUtils` for both. */
module ValidateVersions {
  import opened Wrappers
  import opened VersionUtils

  /** Friendly action name and the repository its releases come from, in the checked order. */
  const ACTION_REPOS: seq<(string, string)> := [
    ("checkout", "actions/checkout"),
    ("setup-python", "actions/setup-python"),
    ("setup-node", "actions/setup-node"),
    ("cache", "actions/cache"),
    ("upload-artifact", "actions/upload-artifact"),
    ("github-script", "actions/github-script"),
    ("astral-sh-setup-uv", "astral-sh/setup-uv"),
    ("docker-setup-buildx", "docker/setup-buildx-action"),
    ("docker-login", "docker/login-action"),
    ("docker-metadata", "docker/metadata-action"),
    ("docker-build-push", "docker/build-push-action"),
    ("anchore-sbom", "anchore/sbom-action"),
    ("markdown-link-check", "gaurav-nelson/github-action-markdown-link-check")
  ]

  /** `(is_outdated, version_to_show)` for one pinned version, given the
      latest tag the release lookup returned (`None` when it failed). */
  function CheckActionVersion(current: string, latestTag: Option<string>): (r: (bool, string))
    ensures (latestTag.None? || latestTag == Some("")) ==> r == (false, current)
    ensures latestTag.Some? && latestTag.value != "" ==>
              r.1 == latestTag.value && (r.0 <==> IsVersionOutdated(current, latestTag.value))
    ensures r.0 ==> r.1 != current
  {
    match latestTag
    case None => (false, current)
    case Some(latest) =>
      if latest == "" then (false, current)
      else if IsVersionOutdated(current, latest) then (true, latest)
      else (false, latest)
  }

  /** One reported line: action name, pinned version, latest version. */
  datatype Outdated = Outdated(name: string, current: string, latest: string)

  /** The entry the loop appends for one `(name, repo)` pair, if any. */
  function Entry(name: string, repo: string, versions: map<string, string>,
                 latestTag: string -> Option<string>): seq<Outdated>
  {
    if name !in versions || versions[name] == "" then []
    else
      var (outdated, latest) := CheckActionVersion(versions[name], latestTag(repo));
      if outdated then [Outdated(name, versions[name], latest)] else []
  }

  /** The outdated entries produced by the loop over `repos`. */
  function OutdatedActions(repos: seq<(string, string)>, versions: map<string, string>,
                           latestTag: string -> Option<string>): seq<Outdated>
  {
    if |repos| == 0 then []
    else
      var last := repos[|repos| - 1];
      OutdatedActions(repos[..|repos| - 1], versions, latestTag) + Entry(last.0, last.1, versions, latestTag)
  }

  /** Every reported entry is a pinned action whose pin is behind the
      latest tag of its repository; an action missing from the versions
      data is never reported. */
  lemma {:induction false} OutdatedEntriesAreBehind(repos: seq<(string, string)>, versions: map<string, string>,
                                                   latestTag: string -> Option<string>)
    ensures forall e :: e in OutdatedActions(repos, versions, latestTag) ==>
              e.name in versions && versions[e.name] == e.current && e.current != "" &&
              (exists i :: 0 <= i < |repos| && repos[i].0 == e.name &&
                 latestTag(repos[i].1) == Some(e.latest)) &&
              IsVersionOutdated(e.current, e.latest)
  {
    if |repos| > 0 {
      var prefix := repos[..|repos| - 1];
      OutdatedEntriesAreBehind(prefix, versions, latestTag);
      forall e | e in OutdatedActions(prefix, versions, latestTag)
        ensures exists i :: 0 <= i < |repos| && repos[i].0 == e.name && latestTag(repos[i].1) == Some(e.latest)
      {
        var i :| 0 <= i < |prefix| && prefix[i].0 == e.name && latestTag(prefix[i].1) == Some(e.latest);
        assert repos[i] == prefix[i];
      }
    }
  }

  /** Each pinned action that is behind its latest tag is reported. */
  lemma {:induction false} OutdatedActionsComplete(repos: seq<(string, string)>, versions: map<string, string>,
                                                  latestTag: string -> Option<string>, i: nat)
    requires i < |repos|
    requires repos[i].0 in versions && versions[repos[i].0] != ""
    requires latestTag(repos[i].1).Some?
    requires IsVersionOutdated(versions[repos[i].0], latestTag(repos[i].1).value)
    ensures Outdated(repos[i].0, versions[repos[i].0], latestTag(repos[i].1).value)
              in OutdatedActions(repos, versions, latestTag)
  {
    var prefix := repos[..|repos| - 1];
    if i < |repos| - 1 {
      assert prefix[i] == repos[i];
      OutdatedActionsComplete(prefix, versions, latestTag, i);
    }
  }

  /** The loop of `validate_versions` over the action table. */
  method CollectOutdated(repos: seq<(string, string)>, table: map<string, string>,
                         latestTag: string -> Option<string>)
    returns (outdated: seq<Outdated>)
    ensures outdated == OutdatedActions(repos, table, latestTag)
  {
    outdated := [];
    var k := 0;
    while k < |repos|
      invariant 0 <= k <= |repos|
      invariant outdated == OutdatedActions(repos[..k], table, latestTag)
    {
      var (name, repo) := repos[k];
      assert repos[..k + 1][..k] == repos[..k];
      if name in table && table[name] != "" {
        var (isOutdated, latest) := CheckActionVersion(table[name], latestTag(repo));
        if isOutdated {
          outdated := outdated + [Outdated(name, table[name], latest)];
        }
      }
      k := k + 1;
    }
    assert repos[..k] == repos;
  }

  /** `validate_versions()`: the exit code and the outdated entries it reports.
      `token` is the environment's token, `versions` the `actions` table of the
      versions file (`None` when the file is missing), `latestTag` the release lookup. */
  method Validate(token: Option<string>, versions: Option<map<string, string>>,
                  latestTag: string -> Option<string>)
    returns (code: int, outdated: seq<Outdated>)
    ensures token.None? || token == Some("") ==> code == 1 && outdated == []
    ensures token.Some? && token.value != "" && versions.None? ==> code == 1 && outdated == []
    ensures token.Some? && token.value != "" && versions.Some? ==>
              outdated == OutdatedActions(ACTION_REPOS, versions.value, latestTag) &&
              (code == 1 <==> outdated != []) && (code == 0 <==> outdated == [])
  {
    outdated := [];
    if token.None? || token.value == "" {
      return 1, outdated;
    }
    if versions.None? {
      return 1, outdated;
    }
    outdated := CollectOutdated(ACTION_REPOS, versions.value, latestTag);
    code := if outdated != [] then 1 else 0;
  }
}
