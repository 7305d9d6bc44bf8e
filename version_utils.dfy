/** Shared helpers of the version checkers: reducing a release tag to its
    major component and deciding whether a pinned tag is behind the latest. */
module VersionUtils {
  import opened Wrappers
  import opened Text
  import opened PyInt

  /** The tag without one leading `v`. */
  function DropV(version: string): string {
    if StartsWith(version, "v") then version[1..] else version
  }

  /** The text before the first `.` of the tag, once a leading `v` is dropped. */
  function NormalizeVersion(version: string): (r: string)
    ensures '.' !in r
    ensures StartsWith(DropV(version), r)
    ensures |r| == |DropV(version)| || DropV(version)[|r|] == '.'
  {
    SplitHead(DropV(version), '.');
    Split(DropV(version), '.')[0]
  }

  /** `current` is behind `latest`: compared on integer majors when both
      parse, otherwise on the raw tags; an empty `latest` is never newer. */
  function IsVersionOutdated(current: string, latest: string): (r: bool)
    ensures latest == "" ==> !r
    ensures r ==> current != latest
  {
    if latest == "" then false
    else
      match (ParseInt(NormalizeVersion(current)), ParseInt(NormalizeVersion(latest)))
      case (Some(c), Some(l)) => c < l
      case _ => current != latest
  }

  /** No tag is behind itself. */
  lemma NotOutdatedAgainstItself(version: string)
    ensures !IsVersionOutdated(version, version)
  {
  }

  /** With integer majors only the majors matter: a tag is behind exactly
      when its major is smaller, whatever follows the first dot. */
  lemma OutdatedByMajor(current: string, latest: string, c: int, l: int)
    requires latest != ""
    requires ParseInt(NormalizeVersion(current)) == Some(c)
    requires ParseInt(NormalizeVersion(latest)) == Some(l)
    ensures IsVersionOutdated(current, latest) <==> c < l
  {
  }

  /** Tags whose majors are not both integers are compared as raw text. */
  lemma OutdatedByText(current: string, latest: string)
    requires latest != ""
    requires ParseInt(NormalizeVersion(current)).None? || ParseInt(NormalizeVersion(latest)).None?
    ensures IsVersionOutdated(current, latest) <==> current != latest
  {
  }

  /** A tag `v<d>.<rest>` or `v<d>` with a single digit `d` reduces to `d`. */
  lemma NormalizeSingleDigit(d: char, rest: string)
    requires IsDigit(d)
    ensures rest == [] || rest[0] == '.' ==> NormalizeVersion(['v', d] + rest) == [d]
  {
    var v := ['v', d] + rest;
    assert DropV(v) == [d] + rest;
    if rest == [] || rest[0] == '.' {
      var r := NormalizeVersion(v);
      assert StartsWith([d] + rest, r);
      assert d != '.';
      assert ([d] + rest)[0] == d;
      assert |r| == 1;
    }
  }

  lemma ParseDigit(d: char)
    requires IsDigit(d)
    ensures ParseInt([d]) == Some(d as int - '0' as int)
  {
    var s := [d];
    assert !IsSpace(d);
    StripOfStripped(s);
    assert Strip(s) == s;
    assert IsDigitGroups(s);
    assert s[..0] == [];
    assert DigitsValue(s) == d as int - '0' as int;
    assert ParseUnsigned(s) == Some(DigitsValue(s));
  }

  /** `v4.1.0` reduces to `4`, and `v4` is not behind `v4.2.1` while `v3` is. */
  lemma SameMajorExample()
    ensures NormalizeVersion("v4.1.0") == "4"
    ensures !IsVersionOutdated("v4", "v4.2.1")
    ensures IsVersionOutdated("v3", "v4.2.1")
  {
    NormalizeSingleDigit('4', ".1.0");
    assert ['v', '4'] + ".1.0" == "v4.1.0";
    NormalizeSingleDigit('4', "");
    assert ['v', '4'] + "" == "v4";
    NormalizeSingleDigit('3', "");
    assert ['v', '3'] + "" == "v3";
    NormalizeSingleDigit('4', ".2.1");
    assert ['v', '4'] + ".2.1" == "v4.2.1";
    ParseDigit('4');
    ParseDigit('3');
    OutdatedByMajor("v4", "v4.2.1", 4, 4);
    OutdatedByMajor("v3", "v4.2.1", 3, 4);
  }
}
