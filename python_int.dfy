/** Python's `int(text)` on ASCII input: surrounding whitespace is
    ignored, an optional sign may lead, and single underscores may
    separate digits. Anything else raises `ValueError`, modelled as `None`. */
module PyInt {
  import opened Wrappers
  import opened Text

  /** Digits, possibly grouped by single underscores: `1_000` but not `_1`, `1_` or `1__0`. */
  predicate IsDigitGroups(s: string) {
    |s| > 0 && IsDigit(s[0]) && IsDigit(s[|s| - 1]) &&
    (forall i :: 0 <= i < |s| ==> IsDigit(s[i]) || s[i] == '_') &&
    (forall i :: 0 <= i < |s| - 1 ==> !(s[i] == '_' && s[i + 1] == '_'))
  }

  /** The decimal value of the digits of `s`, underscores skipped. */
  function DigitsValue(s: string): nat
    requires forall i :: 0 <= i < |s| ==> IsDigit(s[i]) || s[i] == '_'
  {
    if |s| == 0 then 0
    else if s[|s| - 1] == '_' then DigitsValue(s[..|s| - 1])
    else
      assert IsDigit(s[|s| - 1]);
      10 * DigitsValue(s[..|s| - 1]) + (s[|s| - 1] as int - '0' as int)
  }

  function ParseUnsigned(s: string): (r: Option<nat>)
    ensures r.Some? <==> IsDigitGroups(s)
  {
    if IsDigitGroups(s) then Some(DigitsValue(s)) else None
  }

  /** `int(text)` */
  function ParseInt(text: string): (r: Option<int>)
    ensures r.Some? ==> |Strip(text)| > 0
  {
    var t := Strip(text);
    if |t| > 0 && (t[0] == '-' || t[0] == '+') then
      match ParseUnsigned(t[1..])
      case None => None
      case Some(n) =>
        var v: int := if t[0] == '-' then -(n as int) else n;
        Some(v)
    else
      match ParseUnsigned(t)
      case None => None
      case Some(n) => Some(n)
  }

  lemma {:induction false} DigitsValueOfNat(n: nat)
    ensures forall i :: 0 <= i < |NatToString(n)| ==> IsDigit(NatToString(n)[i]) || NatToString(n)[i] == '_'
    ensures DigitsValue(NatToString(n)) == n
  {
    var s := NatToString(n);
    if n >= 10 {
      DigitsValueOfNat(n / 10);
      assert s[..|s| - 1] == NatToString(n / 10);
    }
  }

  /** `int(str(n)) == n` */
  lemma ParseIntOfNat(n: nat)
    ensures ParseInt(NatToString(n)) == Some(n)
  {
    var s := NatToString(n);
    DigitsValueOfNat(n);
    assert !IsSpace(s[0]) && !IsSpace(s[|s| - 1]);
    StripOfStripped(s);
    assert !(s[0] == '-' || s[0] == '+');
    assert forall i :: 0 <= i < |s| - 1 ==> s[i] != '_';
    assert IsDigitGroups(s);
    assert ParseUnsigned(s) == Some(n);
  }

  /** The empty text and text without any digit do not parse. */
  lemma ParseIntNeedsDigit(text: string)
    requires forall i :: 0 <= i < |text| ==> !IsDigit(text[i])
    ensures ParseInt(text) == None
  {
    var t := Strip(text);
    assert forall i :: 0 <= i < |t| ==> t[i] in text by {
      assert LStrip(text) == text[|text| - |LStrip(text)|..];
      forall i | 0 <= i < |t|
        ensures t[i] in text
      {
        assert t[i] == LStrip(text)[i];
        assert LStrip(text)[i] == text[|text| - |LStrip(text)| + i];
      }
    }
    if |t| > 0 && (t[0] == '-' || t[0] == '+') {
      assert |t[1..]| > 0 ==> t[1..][0] == t[1] && t[1] in text;
    } else {
      assert |t| > 0 ==> t[0] in text;
    }
  }
}
