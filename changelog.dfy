/** The changelog generator: renders the repository's releases, as the
    release API lists them, into the Markdown changelog. */
module Changelog {
  import opened Wrappers
  import opened Text

  /** A text field of a release record: missing, `null`, or a string. */
  datatype Field = Missing | Null | Str(s: string)

  /** One release record. The tag, the publication time and the body may
      be missing or `null`; for the URL and the two flags a missing key and
      `null` behave alike and are both `None`. `parsedDate` is what the
      ISO 8601 parse of the publication time gives, formatted as
      `%Y-%m-%d`, or `None` when it fails. */
  datatype Release = Release(tagName: Field, publishedAt: Field, body: Field,
                             htmlUrl: Option<string>, prerelease: Option<bool>, draft: Option<bool>,
                             parsedDate: Option<string>)

  /** The tag shown in a heading; a `null` tag is formatted as `None`. */
  function Tag(r: Release): string {
    match r.tagName
    case Missing => "Unknown"
    case Null => "None"
    case Str(s) => s
  }
  predicate IsDraft(r: Release) { r.draft.GetOr(false) }
  predicate IsPrerelease(r: Release) { r.prerelease.GetOr(false) }
  function Url(r: Release): string { r.htmlUrl.GetOr("") }

  /** `parse_release_date`. `parsed` is the result of the ISO 8601 parse
      and `%Y-%m-%d` formatting, `None` when the text is not a valid timestamp. */
  function ReleaseDate(publishedAt: string, parsed: Option<string>): (date: string)
    ensures parsed.Some? ==> date == parsed.value
    ensures parsed.None? ==>
              |date| == (if |publishedAt| < 10 then |publishedAt| else 10) && StartsWith(publishedAt, date)
  {
    match parsed
    case Some(d) => d
    case None => publishedAt[..if |publishedAt| < 10 then |publishedAt| else 10]
  }

  /** `parse_release_date` cannot take a `null` publication time: the
      fallback slices `None` and raises, which ends the whole run. */
  predicate DateFails(r: Release) { r.publishedAt.Null? }

  /** The publication time handed to `parse_release_date`, a missing key
      giving the empty text. */
  function PublishedText(r: Release): string {
    match r.publishedAt
    case Str(s) => s
    case _ => ""
  }

  /** The body text a release shows, `Missing` standing for the default note. */
  function BodyText(r: Release): string {
    match r.body
    case Missing => "No release notes provided."
    case Null => ""
    case Str(s) => s
  }

  const HEADER: string :=
    "# Changelog\n\n" +
    "All notable changes to this project will be documented in this file.\n\n" +
    "The format is based on [Keep a Changelog]" +
    "(https://keepachangelog.com/en/1.0.0/),\n" +
    "and this project adheres to [Semantic Versioning]" +
    "(https://semver.org/spec/v2.0.0.html).\n\n" +
    "## About This Changelog\n\n" +
    "This changelog is automatically generated from GitHub releases. " +
    "Each release includes auto-generated release notes based on " +
    "pull requests and commits.\n\n"

  const NO_RELEASES: string := "## [Unreleased]\n\nNo releases yet.\n"

  const UNRELEASED: string :=
    "## [Unreleased]\n\n" +
    "Changes that are in the main branch but not yet released.\n\n"

  function Footer(timestamp: string): string {
    "---\n\n" + "*This changelog was automatically generated on " + timestamp + "*\n"
  }

  /** The opening of a heading, naming the tag. */
  function Open(r: Release): string {
    "## [" + Tag(r) + "]"
  }

  function Mark(r: Release): string {
    if IsPrerelease(r) then " (Pre-release)" else ""
  }

  function DateLine(r: Release): string {
    " - " + ReleaseDate(PublishedText(r), r.parsedDate) + "\n\n"
  }

  /** The heading line of a release. */
  function Heading(r: Release): string {
    Open(r) + Mark(r) + DateLine(r)
  }

  /** The stripped body, shown only when the body is non-empty. */
  function BodyPart(r: Release): string {
    if BodyText(r) != "" then Strip(BodyText(r)) + "\n\n" else ""
  }

  /** The link to the release page, shown only when there is a URL. */
  function LinkPart(r: Release): string {
    if Url(r) != "" then "[View Release](" + Url(r) + ")" + "\n\n" else ""
  }

  /** What one release adds: nothing for a draft; otherwise its heading,
      its body part and its link part. */
  function Entry(r: Release): string {
    if IsDraft(r) then "" else Heading(r) + BodyPart(r) + LinkPart(r)
  }

  /** The entries of `rs`, in order. */
  function Entries(rs: seq<Release>): string {
    if |rs| == 0 then ""
    else Entries(rs[..|rs| - 1]) + Entry(rs[|rs| - 1])
  }

  /** `generate_markdown`, with the generation time passed in. */
  function Markdown(rs: seq<Release>, timestamp: string): string {
    if rs == [] then HEADER + NO_RELEASES
    else HEADER + UNRELEASED + Entries(rs) + Footer(timestamp)
  }

  /** Whether a release of `rs` has a `null` publication time. */
  predicate AnyDateFails(rs: seq<Release>) {
    |rs| > 0 && (AnyDateFails(rs[..|rs| - 1]) || DateFails(rs[|rs| - 1]))
  }

  lemma {:induction false} AnyDateFailsExists(rs: seq<Release>)
    ensures AnyDateFails(rs) <==> exists i :: 0 <= i < |rs| && DateFails(rs[i])
  {
    if |rs| > 0 {
      var init := rs[..|rs| - 1];
      AnyDateFailsExists(init);
      if exists i :: 0 <= i < |init| && DateFails(init[i]) {
        var i :| 0 <= i < |init| && DateFails(init[i]);
        assert rs[i] == init[i];
      }
      if exists i :: 0 <= i < |rs| && DateFails(rs[i]) {
        var i :| 0 <= i < |rs| && DateFails(rs[i]);
        if i < |init| {
          assert init[i] == rs[i];
        }
      }
    }
  }

  /** `generate_markdown` as a whole: `None` when it raises, which a single
      `null` publication time causes, even on a draft, since the date is
      parsed before the draft is skipped. */
  function Generated(rs: seq<Release>, timestamp: string): (o: Option<string>)
    ensures o.None? <==> exists i :: 0 <= i < |rs| && DateFails(rs[i])
    ensures o.Some? ==> o.value == Markdown(rs, timestamp)
  {
    AnyDateFailsExists(rs);
    if AnyDateFails(rs) then None else Some(Markdown(rs, timestamp))
  }

  lemma EntriesSnoc(rs: seq<Release>, k: nat)
    requires k < |rs|
    ensures Entries(rs[..k + 1]) == Entries(rs[..k]) + Entry(rs[k])
  {
    assert rs[..k + 1][..k] == rs[..k];
  }

  /** One pass of the loop of `generate_markdown`: appends one release. */
  method AppendRelease(changelog: string, r: Release) returns (result: Option<string>)
    ensures result.None? <==> DateFails(r)
    ensures result.Some? ==> result.value == changelog + Entry(r)
  {
    if DateFails(r) {
      return None;
    }
    var out := changelog;
    if IsDraft(r) {
      AppendEmpty(out);
      return Some(out);
    }
    var date := ReleaseDate(PublishedText(r), r.parsedDate);
    var pre := if IsPrerelease(r) then " (Pre-release)" else "";
    var heading := "## [" + Tag(r) + "]" + pre + (" - " + date + "\n\n");
    out := out + heading;
    var body := BodyText(r);
    var shown := "";
    if body != "" {
      shown := Strip(body) + "\n\n";
    }
    out := out + shown;
    var link := "";
    if Url(r) != "" {
      link := "[View Release](" + Url(r) + ")" + "\n\n";
    }
    out := out + link;
    ConcatAssoc(changelog + heading, shown, link);
    ConcatAssoc(changelog, heading, shown + link);
    ConcatAssoc(heading, shown, link);
    result := Some(out);
  }

  /** `generate_markdown`, appending to the changelog as the source does. */
  method GenerateMarkdown(rs: seq<Release>, timestamp: string) returns (result: Option<string>)
    ensures result == Generated(rs, timestamp)
  {
    var changelog := HEADER;
    if rs == [] {
      changelog := changelog + NO_RELEASES;
      return Some(changelog);
    }
    changelog := changelog + UNRELEASED;
    ghost var intro := changelog;
    var k := 0;
    assert rs[..0] == [];
    AppendEmpty(changelog);
    while k < |rs|
      invariant 0 <= k <= |rs|
      invariant changelog == intro + Entries(rs[..k])
      invariant forall i :: 0 <= i < k ==> !DateFails(rs[i])
    {
      EntriesSnoc(rs, k);
      ConcatAssoc(intro, Entries(rs[..k]), Entry(rs[k]));
      var next := AppendRelease(changelog, rs[k]);
      if next.None? {
        return None;
      }
      changelog := next.value;
      k := k + 1;
    }
    assert rs[..k] == rs;
    changelog := changelog + Footer(timestamp);
    result := Some(changelog);
  }

  // ---------------------------------------------------------------- properties

  /** The releases that are not drafts, in order. */
  function Published(rs: seq<Release>): (ps: seq<Release>)
    ensures forall r :: r in ps <==> r in rs && !IsDraft(r)
  {
    if |rs| == 0 then []
    else Published(rs[..|rs| - 1]) + (if IsDraft(rs[|rs| - 1]) then [] else [rs[|rs| - 1]])
  }

  /** Entries concatenate: the changelog lists releases in input order. */
  lemma {:induction false} EntriesAppend(a: seq<Release>, b: seq<Release>)
    ensures Entries(a + b) == Entries(a) + Entries(b)
    decreases |b|
  {
    if |b| > 0 {
      var n := a + b;
      var b' := b[..|b| - 1];
      var last := b[|b| - 1];
      assert n[..|n| - 1] == a + b';
      assert n[|n| - 1] == last;
      assert Entries(n) == Entries(a + b') + Entry(last);
      EntriesAppend(a, b');
      assert Entries(b) == Entries(b') + Entry(last);
      ConcatAssoc(Entries(a), Entries(b'), Entry(last));
    } else {
      assert a + b == a;
    }
  }

  /** Drafts contribute nothing: the entries are those of the published releases. */
  lemma {:induction false} DraftsIgnored(rs: seq<Release>)
    ensures Entries(rs) == Entries(Published(rs))
  {
    if |rs| > 0 {
      var prefix := rs[..|rs| - 1];
      var r := rs[|rs| - 1];
      DraftsIgnored(prefix);
      assert Entries(rs) == Entries(prefix) + Entry(r);
      if IsDraft(r) {
        assert Published(rs) == Published(prefix);
        assert Entry(r) == "";
      } else {
        assert Published(rs) == Published(prefix) + [r];
        EntriesAppend(Published(prefix), [r]);
        assert [r][..0] == [];
        assert Entries([r]) == Entries([]) + Entry(r);
      }
    }
  }

  /** Every published release opens with a heading naming its tag and ends with a blank line. */
  lemma EntryStartsWithHeading(r: Release)
    requires !IsDraft(r)
    ensures StartsWith(Entry(r), "## [" + Tag(r) + "]")
    ensures EndsWith(Entry(r), "\n\n")
  {
    var h := Heading(r);
    var e := Entry(r);
    ConcatEnds(Open(r), Mark(r) + DateLine(r));
    ConcatAssoc(Open(r), Mark(r), DateLine(r));
    StartsWithExtend(h, Open(r), BodyPart(r));
    StartsWithExtend(h + BodyPart(r), Open(r), LinkPart(r));
    ConcatEnds(" - " + ReleaseDate(PublishedText(r), r.parsedDate), "\n\n");
    EndsWithExtend(DateLine(r), "\n\n", Open(r) + Mark(r));
    if LinkPart(r) != "" {
      ConcatEnds("[View Release](" + Url(r) + ")", "\n\n");
      EndsWithExtend(LinkPart(r), "\n\n", h + BodyPart(r));
    } else {
      assert e == h + BodyPart(r) + [];
      assert e == h + BodyPart(r);
      if BodyPart(r) != "" {
        ConcatEnds(Strip(BodyText(r)), "\n\n");
        EndsWithExtend(BodyPart(r), "\n\n", h);
      } else {
        assert e == h + [] + [];
        assert e == h;
      }
    }
  }

  /** Every published release starts with its heading line. */
  lemma EntryStartsWithOwnHeading(r: Release)
    requires !IsDraft(r)
    ensures StartsWith(Entry(r), Heading(r))
  {
    ConcatEnds(Heading(r), BodyPart(r));
    StartsWithExtend(Heading(r) + BodyPart(r), Heading(r), LinkPart(r));
  }

  /** Every entry continues its tag with the mark and ` - `. */
  lemma EntryAfterTag(r: Release)
    requires !IsDraft(r)
    ensures StartsWith(Entry(r), Open(r) + (Mark(r) + " - "))
  {
    var d := DateLine(r);
    var date := ReleaseDate(PublishedText(r), r.parsedDate);
    EntryStartsWithOwnHeading(r);
    ConcatEnds(" - " + date, "\n\n");
    ConcatEnds(" - ", date);
    StartsWithTrans(d, " - " + date, " - ");
    StartsWithPrepend(Open(r) + Mark(r), d, " - ");
    StartsWithTrans(Entry(r), Heading(r), Open(r) + Mark(r) + " - ");
    ConcatAssoc(Open(r), Mark(r), " - ");
  }

  /** The heading carries the pre-release mark exactly for pre-releases. */
  lemma PrereleaseMarked(r: Release)
    requires !IsDraft(r)
    ensures StartsWith(Entry(r), Open(r) + " (Pre-release) - ") <==> IsPrerelease(r)
  {
    var e := Entry(r);
    var o := Open(r);
    EntryAfterTag(r);
    if IsPrerelease(r) {
      assert Mark(r) + " - " == " (Pre-release) - ";
    } else {
      assert Mark(r) + " - " == " - ";
      StartsWithAt(e, o + " - ", |o| + 1);
      var marked := o + " (Pre-release) - ";
      if StartsWith(e, marked) {
        StartsWithAt(e, marked, |o| + 1);
        assert false;
      }
    }
  }

  /** The link closes the entry when the release has a URL. */
  lemma LinkShown(r: Release)
    requires !IsDraft(r) && Url(r) != ""
    ensures EndsWith(Entry(r), "[View Release](" + Url(r) + ")" + "\n\n")
  {
    var front := Heading(r) + BodyPart(r);
    assert Entry(r) == front + LinkPart(r);
    ConcatEnds(front, LinkPart(r));
  }

  /** A release without a URL and without a body is its heading alone. */
  lemma BareEntry(r: Release)
    requires !IsDraft(r) && Url(r) == "" && BodyText(r) == ""
    ensures Entry(r) == Heading(r)
  {
    assert BodyPart(r) == "" && LinkPart(r) == "";
    AppendEmpty(Heading(r));
    AppendEmpty(Heading(r) + "");
  }

  /** A non-empty body is shown stripped, right after the heading. */
  lemma BodyShown(r: Release)
    requires !IsDraft(r) && BodyText(r) != ""
    ensures StartsWith(Entry(r), Heading(r) + Strip(BodyText(r)) + "\n\n")
  {
    ConcatEnds(Heading(r) + BodyPart(r), LinkPart(r));
    StartsWithExtend(Heading(r) + BodyPart(r), Heading(r) + BodyPart(r), LinkPart(r));
    assert BodyPart(r) == Strip(BodyText(r)) + "\n\n";
  }

  /** Without releases: the header and the no-releases note, no footer.
      With releases, even all drafts: the unreleased section and the footer. */
  lemma MarkdownShape(rs: seq<Release>, timestamp: string)
    ensures StartsWith(Markdown(rs, timestamp), HEADER)
    ensures rs == [] ==> EndsWith(Markdown(rs, timestamp), NO_RELEASES)
    ensures rs != [] ==> StartsWith(Markdown(rs, timestamp), HEADER + UNRELEASED)
    ensures rs != [] ==> EndsWith(Markdown(rs, timestamp), Footer(timestamp))
  {
    if rs == [] {
      ConcatEnds(HEADER, NO_RELEASES);
    } else {
      var pre := HEADER + UNRELEASED;
      ConcatEnds(HEADER, UNRELEASED);
      ConcatEnds(pre, Entries(rs));
      StartsWithTrans(pre + Entries(rs), pre, HEADER);
      StartsWithExtend(pre + Entries(rs), pre, Footer(timestamp));
      StartsWithExtend(pre + Entries(rs), HEADER, Footer(timestamp));
      ConcatEnds(pre + Entries(rs), Footer(timestamp));
    }
  }

  /** An all-draft list still gets the unreleased section and the footer,
      unlike an empty list. */
  lemma AllDraftsNotEmpty(rs: seq<Release>, timestamp: string)
    requires rs != [] && Published(rs) == []
    ensures Markdown(rs, timestamp) == HEADER + UNRELEASED + Footer(timestamp)
    ensures Markdown(rs, timestamp) != Markdown([], timestamp)
  {
    DraftsIgnored(rs);
    assert Entries(rs) == [];
    assert HEADER + UNRELEASED + [] == HEADER + UNRELEASED;
    assert |UNRELEASED| > |NO_RELEASES|;
  }
}
