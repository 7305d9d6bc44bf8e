/** ASCII models of the Python string primitives the scripts rely on:
    `str.isspace`, `strip`/`lstrip`/`rstrip`, `split` on one character,
    `join`, `lower`, `startswith`, substring search and the ordering of
    `str` values (code point by code point). */
module Text {
  import opened Wrappers

  /** Python's `str.isspace()` restricted to ASCII: \t \n \v \f \r,
      the separators 0x1C-0x1F and the space. Regex `\s` on `str`
      patterns matches the same characters. */
  predicate IsSpace(c: char) {
    ('\t' <= c <= '\r') || ('\U{1C}' <= c <= ' ')
  }

  predicate AllSpace(s: string) {
    forall i :: 0 <= i < |s| ==> IsSpace(s[i])
  }

  /** A regex word character `\w`, ASCII only. */
  predicate IsWordChar(c: char) {
    ('a' <= c <= 'z') || ('A' <= c <= 'Z') || ('0' <= c <= '9') || c == '_'
  }

  predicate IsUpper(c: char) {
    'A' <= c <= 'Z'
  }

  predicate IsDigit(c: char) {
    '0' <= c <= '9'
  }

  /** `s.lstrip()` */
  function LStrip(s: string): (r: string)
    ensures |r| <= |s| && r == s[|s| - |r|..]
    ensures r == [] || !IsSpace(r[0])
    ensures forall i :: 0 <= i < |s| - |r| ==> IsSpace(s[i])
    decreases |s|
  {
    if |s| > 0 && IsSpace(s[0]) then LStrip(s[1..]) else s
  }

  /** `s.rstrip()` */
  function RStrip(s: string): (r: string)
    ensures |r| <= |s| && r == s[..|r|]
    ensures r == [] || !IsSpace(r[|r| - 1])
    ensures forall i :: |r| <= i < |s| ==> IsSpace(s[i])
    decreases |s|
  {
    if |s| > 0 && IsSpace(s[|s| - 1]) then RStrip(s[..|s| - 1]) else s
  }

  /** `s.strip()` */
  function Strip(s: string): string {
    RStrip(LStrip(s))
  }

  predicate IsStripped(s: string) {
    s == [] || (!IsSpace(s[0]) && !IsSpace(s[|s| - 1]))
  }

  lemma RStripOfStripped(s: string)
    requires s == [] || !IsSpace(s[|s| - 1])
    ensures RStrip(s) == s
  {
  }

  lemma LStripOfStripped(s: string)
    requires s == [] || !IsSpace(s[0])
    ensures LStrip(s) == s
  {
  }

  lemma StripProperties(s: string)
    ensures IsStripped(Strip(s))
    ensures Strip(Strip(s)) == Strip(s)
  {
    var l := LStrip(s);
    var r := RStrip(l);
    assert Strip(s) == r;
    assert r == l[..|r|];
    assert r == [] || r[0] == l[0];
    assert IsStripped(r);
    LStripOfStripped(r);
    RStripOfStripped(r);
    assert Strip(r) == RStrip(LStrip(r));
  }

  lemma StripOfStripped(s: string)
    requires IsStripped(s)
    ensures Strip(s) == s
  {
    LStripOfStripped(s);
    RStripOfStripped(s);
  }

  lemma {:induction false} LStripPadded(a: string, t: string)
    requires AllSpace(a) && (t == [] || !IsSpace(t[0]))
    ensures LStrip(a + t) == t
    decreases |a|
  {
    if |a| > 0 {
      assert (a + t)[1..] == a[1..] + t;
      LStripPadded(a[1..], t);
    } else {
      assert a + t == t;
    }
  }

  lemma {:induction false} RStripPadded(t: string, b: string)
    requires AllSpace(b) && (t == [] || !IsSpace(t[|t| - 1]))
    ensures RStrip(t + b) == t
    decreases |b|
  {
    if |b| > 0 {
      assert (t + b)[..|t + b| - 1] == t + b[..|b| - 1];
      RStripPadded(t, b[..|b| - 1]);
    } else {
      assert t + b == t;
    }
  }

  /** Surrounding a stripped text with whitespace does not change its strip. */
  lemma StripPadded(a: string, s: string, b: string)
    requires AllSpace(a) && AllSpace(b) && IsStripped(s)
    ensures Strip(a + s + b) == s
  {
    if s == [] {
      assert a + s + b == (a + b) + [];
      LStripPadded(a + b, []);
    } else {
      assert a + s + b == a + (s + b);
      LStripPadded(a, s + b);
      RStripPadded(s, b);
    }
  }

  /** `s.split(sep)` for a one-character separator, built from the front:
      a separator starts a new part, any other character joins the first one. */
  function Split(s: string, sep: char): (parts: seq<string>)
    ensures |parts| >= 1
    decreases |s|
  {
    if |s| == 0 then [""]
    else
      var r := Split(s[1..], sep);
      if s[0] == sep then [""] + r else [[s[0]] + r[0]] + r[1..]
  }

  /** No part of a split holds the separator. */
  lemma {:induction false} SplitNoSep(s: string, sep: char)
    ensures forall i :: 0 <= i < |Split(s, sep)| ==> sep !in Split(s, sep)[i]
    decreases |s|
  {
    if |s| > 0 {
      SplitNoSep(s[1..], sep);
      var r := Split(s[1..], sep);
      if s[0] != sep {
        assert sep !in [s[0]] + r[0];
      }
    }
  }

  /** The first part of a split is the text up to the first separator, or
      all of it when there is none. */
  lemma {:induction false} SplitHead(s: string, sep: char)
    ensures |Split(s, sep)[0]| <= |s| && Split(s, sep)[0] == s[..|Split(s, sep)[0]|]
    ensures sep !in Split(s, sep)[0]
    ensures |Split(s, sep)[0]| == |s| || s[|Split(s, sep)[0]|] == sep
    decreases |s|
  {
    if |s| > 0 && s[0] != sep {
      SplitHead(s[1..], sep);
      var r0 := Split(s[1..], sep)[0];
      assert [s[0]] + r0 == s[..|r0| + 1];
      assert sep !in [s[0]] + r0;
    }
  }

  /** A character missing from the text is missing from every part of its split. */
  lemma {:induction false} SplitKeepsAbsent(s: string, sep: char, c: char)
    requires c !in s
    ensures forall i :: 0 <= i < |Split(s, sep)| ==> c !in Split(s, sep)[i]
    decreases |s|
  {
    if |s| > 0 {
      assert c !in s[1..] by {
        assert forall k :: 0 <= k < |s[1..]| ==> s[1..][k] == s[k + 1];
      }
      SplitKeepsAbsent(s[1..], sep, c);
      var r := Split(s[1..], sep);
      if s[0] != sep {
        assert c !in [s[0]] + r[0];
      }
    }
  }

  /** `s.lstrip(c)`: every leading `c` removed. */
  function LStripChar(s: string, c: char): (r: string)
    ensures |r| <= |s| && r == s[|s| - |r|..]
    ensures r == [] || r[0] != c
    ensures forall i :: 0 <= i < |s| - |r| ==> s[i] == c
    decreases |s|
  {
    if |s| > 0 && s[0] == c then LStripChar(s[1..], c) else s
  }

  /** `sep.join(parts)` */
  function Join(parts: seq<string>, sep: string): string {
    if |parts| == 0 then ""
    else if |parts| == 1 then parts[0]
    else parts[0] + sep + Join(parts[1..], sep)
  }

  /** A character found in no part and different from the separator is not in the join. */
  lemma {:induction false} JoinKeepsAbsent(parts: seq<string>, sep: char, c: char)
    requires c != sep && forall i :: 0 <= i < |parts| ==> c !in parts[i]
    ensures c !in Join(parts, [sep])
  {
    if |parts| > 1 {
      JoinKeepsAbsent(parts[1..], sep, c);
      assert c !in parts[0];
    }
  }

  /** `s.split("\n")` */
  function SplitLines(s: string): (lines: seq<string>)
    ensures |lines| >= 1
  {
    Split(s, '\n')
  }

  /** `"\n".join(lines)` */
  function JoinLines(lines: seq<string>): string {
    Join(lines, "\n")
  }

  lemma {:induction false} JoinAppend(a: seq<string>, b: seq<string>, sep: string)
    requires |a| >= 1 && |b| >= 1
    ensures Join(a + b, sep) == Join(a, sep) + sep + Join(b, sep)
  {
    if |a| == 1 {
      assert (a + b)[1..] == b;
    } else {
      assert (a + b)[1..] == a[1..] + b;
      JoinAppend(a[1..], b, sep);
    }
  }

  /** Three lines, joined. */
  lemma JoinLinesThree(a: string, b: string, c: string)
    ensures JoinLines([a, b, c]) == a + "\n" + b + "\n" + c
  {
    var sep := "\n";
    assert Join([c], sep) == c;
    assert [b, c][1..] == [c];
    assert Join([b, c], sep) == b + sep + c;
    assert [a, b, c][1..] == [b, c];
    assert Join([a, b, c], sep) == a + sep + (b + sep + c);
    assert a + sep + (b + sep + c) == a + sep + b + sep + c;
  }

  /** A definition's lines framed by blank lines, with or without a trailing line, joined. */
  lemma JoinLinesAround(def: string, rt: string)
    ensures JoinLines([""] + SplitLines(def) + [""]) == "\n" + def + "\n"
    ensures JoinLines([""] + SplitLines(def) + ["", rt, ""]) == "\n" + def + "\n\n" + rt + "\n"
  {
    JoinSplit(def, '\n');
    JoinLinesFramed(SplitLines(def), [""]);
    JoinLinesFramed(SplitLines(def), ["", rt, ""]);
    JoinLinesThree("", rt, "");
    assert "\n" + def + "\n" + ("" + "\n" + rt + "\n" + "") == "\n" + def + "\n\n" + rt + "\n";
  }

  /** Two more lines, joined. */
  lemma JoinLinesTwoMore(b: seq<string>, x: string, y: string)
    requires |b| >= 1
    ensures JoinLines(b + [x, y]) == JoinLines(b) + "\n" + x + "\n" + y
  {
    JoinAppend(b, [x, y], "\n");
    assert [x, y][1..] == [y];
    assert JoinLines([x, y]) == x + "\n" + y;
    assert JoinLines(b) + "\n" + (x + "\n" + y) == JoinLines(b) + "\n" + x + "\n" + y;
  }

  /** Lines between a leading blank line and a closing tail, joined. */
  lemma JoinLinesFramed(lines: seq<string>, tail: seq<string>)
    requires |lines| >= 1 && |tail| >= 1
    ensures JoinLines([""] + lines + tail) == "\n" + JoinLines(lines) + "\n" + JoinLines(tail)
  {
    assert [""] + lines + tail == [""] + (lines + tail);
    JoinAppend([""], lines + tail, "\n");
    JoinAppend(lines, tail, "\n");
    assert "" + "\n" + (JoinLines(lines) + "\n" + JoinLines(tail))
      == "\n" + JoinLines(lines) + "\n" + JoinLines(tail);
  }

  /** A split cuts at the first separator. */
  /** A character other than the separator extends the first part. */
  lemma SplitCons(c: char, u: string, sep: char)
    requires c != sep
    ensures Split([c] + u, sep) == [[c] + Split(u, sep)[0]] + Split(u, sep)[1..]
  {
    assert ([c] + u)[1..] == u;
  }

  /** A leading separator adds an empty first part. */
  lemma SplitSepCons(u: string, sep: char)
    ensures Split([sep] + u, sep) == [""] + Split(u, sep)
  {
    assert ([sep] + u)[1..] == u;
  }

  lemma ConsFirstAppend(c: char, p: seq<string>, q: seq<string>)
    requires |p| >= 1
    ensures [[c] + (p + q)[0]] + (p + q)[1..] == ([[c] + p[0]] + p[1..]) + q
  {
    assert (p + q)[0] == p[0] && (p + q)[1..] == p[1..] + q;
  }

  /** Splitting distributes over a separator placed between two texts. */
  lemma {:induction false} SplitConcat(a: string, b: string, sep: char)
    ensures Split(a + [sep] + b, sep) == Split(a, sep) + Split(b, sep)
    decreases |a|
  {
    if |a| == 0 {
      assert a + [sep] + b == [sep] + b;
      SplitSepCons(b, sep);
    } else {
      var t := a[1..];
      assert a + [sep] + b == [a[0]] + (t + [sep] + b);
      assert a == [a[0]] + t;
      SplitConcat(t, b, sep);
      var p := Split(t, sep);
      var q := Split(b, sep);
      if a[0] == sep {
        SplitSepCons(t + [sep] + b, sep);
        SplitSepCons(t, sep);
      } else {
        SplitCons(a[0], t + [sep] + b, sep);
        SplitCons(a[0], t, sep);
        ConsFirstAppend(a[0], p, q);
      }
    }
  }

  lemma NoSepTail(parts: seq<string>, sep: char)
    requires |parts| >= 1
    requires forall i :: 0 <= i < |parts| ==> sep !in parts[i]
    ensures forall i :: 0 <= i < |parts[1..]| ==> sep !in parts[1..][i]
  {
    forall i | 0 <= i < |parts[1..]|
      ensures sep !in parts[1..][i]
    {
      assert parts[1..][i] == parts[i + 1];
    }
  }

  /** Text without the separator is a single part. */
  lemma {:induction false} SplitPlain(s: string, sep: char)
    requires sep !in s
    ensures Split(s, sep) == [s]
    decreases |s|
  {
    if |s| > 0 {
      assert s[0] in s;
      assert sep !in s[1..] by {
        assert forall k :: 0 <= k < |s[1..]| ==> s[1..][k] == s[k + 1];
      }
      SplitPlain(s[1..], sep);
      assert [s[0]] + s[1..] == s;
    }
  }

  /** Where the parts of `r` end and those of `r + w` begin to differ. */
  function PrefixParts(p: seq<string>, q: seq<string>): seq<string>
    requires |p| >= 1 && |q| >= 1
  {
    p[..|p| - 1] + [p[|p| - 1] + q[0]] + q[1..]
  }

  lemma PrefixPartsCons(a: string, p: seq<string>, q: seq<string>)
    requires |p| >= 1 && |q| >= 1
    ensures PrefixParts([a] + p, q) == [a] + PrefixParts(p, q)
  {
    assert ([a] + p)[..|p|] == [a] + p[..|p| - 1];
  }

  /** The parts of `PrefixParts(p, q)` by position. */
  lemma PrefixPartsIndex(p: seq<string>, q: seq<string>)
    requires |p| >= 1 && |q| >= 1
    ensures var r := PrefixParts(p, q);
      |r| == |p| + |q| - 1 &&
      (forall i :: 0 <= i < |p| - 1 ==> r[i] == p[i]) &&
      r[|p| - 1] == p[|p| - 1] + q[0] &&
      (forall i :: |p| <= i < |r| ==> r[i] == q[i - |p| + 1])
  {
  }

  /** A character put in front of the first part stays in front of it. */
  lemma PrefixPartsHead(c: char, p: seq<string>, q: seq<string>)
    requires |p| >= 1 && |q| >= 1
    ensures |PrefixParts(p, q)| >= 1
    ensures PrefixParts([[c] + p[0]] + p[1..], q) ==
      [[c] + PrefixParts(p, q)[0]] + PrefixParts(p, q)[1..]
  {
    var p' := [[c] + p[0]] + p[1..];
    if |p| == 1 {
      assert p'[..0] == [] && p[..0] == [];
      assert [c] + p[0] + q[0] == [c] + (p[0] + q[0]);
    } else {
      assert p'[..|p| - 1] == [[c] + p[0]] + p[1..|p| - 1];
      assert p[..|p| - 1] == [p[0]] + p[1..|p| - 1];
    }
  }

  /** Splitting `r + w`: the parts of `r`, the last of which runs on into
      the first part of `w`, then the other parts of `w`. */
  lemma {:induction false} SplitPrefix(r: string, w: string, sep: char)
    ensures Split(r + w, sep) == PrefixParts(Split(r, sep), Split(w, sep))
    decreases |r|
  {
    var q := Split(w, sep);
    if |r| == 0 {
      assert r + w == w;
      assert "" + q[0] == q[0];
      assert [q[0]] + q[1..] == q;
    } else {
      var t := r[1..];
      assert r + w == [r[0]] + (t + w);
      assert r == [r[0]] + t;
      SplitPrefix(t, w, sep);
      var p := Split(t, sep);
      if r[0] == sep {
        SplitSepCons(t + w, sep);
        SplitSepCons(t, sep);
        PrefixPartsCons("", p, q);
      } else {
        SplitCons(r[0], t + w, sep);
        SplitCons(r[0], t, sep);
        PrefixPartsHead(r[0], p, q);
      }
    }
  }

  /** Splitting a joined text gives back the parts when no part holds the separator. */
  lemma SplitJoinStep(p0: string, rest: seq<string>, sep: char)
    requires sep !in p0 && |rest| >= 1 && Split(Join(rest, [sep]), sep) == rest
    ensures Split(Join([p0] + rest, [sep]), sep) == [p0] + rest
  {
    var j := Join(rest, [sep]);
    assert ([p0] + rest)[1..] == rest;
    assert Join([p0] + rest, [sep]) == p0 + [sep] + j;
    SplitConcat(p0, j, sep);
    SplitPlain(p0, sep);
  }

  lemma {:induction false} SplitJoin(parts: seq<string>, sep: char)
    requires |parts| >= 1
    requires forall i :: 0 <= i < |parts| ==> sep !in parts[i]
    ensures Split(Join(parts, [sep]), sep) == parts
  {
    if |parts| == 1 {
      SplitPlain(parts[0], sep);
    } else {
      var rest := parts[1..];
      NoSepTail(parts, sep);
      SplitJoin(rest, sep);
      assert sep !in parts[0];
      SplitJoinStep(parts[0], rest, sep);
      assert parts == [parts[0]] + rest;
    }
  }


  /** A join ends with its last part. */
  lemma {:induction false} JoinEndsWithLast(parts: seq<string>, sep: string)
    requires |parts| >= 1
    ensures EndsWith(Join(parts, sep), parts[|parts| - 1])
  {
    if |parts| == 1 {
      assert parts[0][|parts[0]| - |parts[0]|..] == parts[0];
    } else {
      JoinEndsWithLast(parts[1..], sep);
      EndsWithExtend(Join(parts[1..], sep), parts[|parts| - 1], parts[0] + sep);
    }
  }

  lemma EndsWithLastChar(s: string, suffix: string)
    requires EndsWith(s, suffix) && |suffix| > 0
    ensures s[|s| - 1] == suffix[|suffix| - 1]
  {
    assert s[|s| - |suffix|..][|suffix| - 1] == s[|s| - 1];
  }

  /** A text whose last part is not empty does not end with the separator. */
  lemma LastPartNonEmpty(s: string, sep: char)
    requires Split(s, sep)[|Split(s, sep)| - 1] != ""
    ensures |s| > 0 && s[|s| - 1] != sep
  {
    var parts := Split(s, sep);
    var last := parts[|parts| - 1];
    JoinSplit(s, sep);
    JoinEndsWithLast(parts, [sep]);
    SplitNoSep(s, sep);
    assert sep !in last;
    EndsWithLastChar(s, last);
    assert last[|last| - 1] in last;
  }

  /** A character in front of the first part is in front of the join. */
  lemma JoinConsHead(c: char, parts: seq<string>, sep: string)
    requires |parts| >= 1
    ensures Join([[c] + parts[0]] + parts[1..], sep) == [c] + Join(parts, sep)
  {
    var parts' := [[c] + parts[0]] + parts[1..];
    assert parts'[1..] == parts[1..];
  }

  /** Joining the parts of a split gives back the text. */
  lemma {:induction false} JoinSplit(s: string, sep: char)
    ensures Join(Split(s, sep), [sep]) == s
    decreases |s|
  {
    if |s| > 0 {
      JoinSplit(s[1..], sep);
      var r := Split(s[1..], sep);
      if s[0] == sep {
        assert ([""] + r)[1..] == r;
        assert "" + [sep] + s[1..] == s;
      } else {
        JoinConsHead(s[0], r, [sep]);
        assert [s[0]] + s[1..] == s;
      }
    }
  }

  lemma SplitLinesConcat(a: string, b: string)
    ensures SplitLines(a + "\n" + b) == SplitLines(a) + SplitLines(b)
  {
    SplitConcat(a, b, '\n');
  }

  /** Splitting the join of lines that may themselves hold newlines gives
      the concatenation of the lines' own splits. */
  lemma {:induction false} SplitJoinLines(lines: seq<string>)
    requires |lines| >= 1
    ensures SplitLines(JoinLines(lines)) == Flatten(seq(|lines|, i requires 0 <= i < |lines| => SplitLines(lines[i])))
  {
    if |lines| == 1 {
    } else {
      SplitJoinLines(lines[1..]);
      SplitLinesConcat(lines[0], JoinLines(lines[1..]));
      assert lines[0] + "\n" + JoinLines(lines[1..]) == JoinLines(lines);
      var f := seq(|lines|, i requires 0 <= i < |lines| => SplitLines(lines[i]));
      var g := seq(|lines| - 1, i requires 0 <= i < |lines| - 1 => SplitLines(lines[1..][i]));
      assert f == [f[0]] + g;
      FlattenCons(f[0], g);
    }
  }

  function Flatten<T>(xss: seq<seq<T>>): seq<T> {
    if |xss| == 0 then [] else xss[0] + Flatten(xss[1..])
  }

  lemma FlattenCons<T>(x: seq<T>, xss: seq<seq<T>>)
    ensures Flatten([x] + xss) == x + Flatten(xss)
  {
    assert ([x] + xss)[1..] == xss;
  }

  lemma {:induction false} FlattenAppend<T>(a: seq<seq<T>>, b: seq<seq<T>>)
    ensures Flatten(a + b) == Flatten(a) + Flatten(b)
  {
    if |a| == 0 {
      assert a + b == b;
    } else {
      assert (a + b)[1..] == a[1..] + b;
      FlattenAppend(a[1..], b);
    }
  }

  function LowerChar(c: char): char {
    if 'A' <= c <= 'Z' then (c as int + 32) as char else c
  }

  /** `s.lower()` on ASCII letters. */
  function Lower(s: string): (r: string)
    ensures |r| == |s|
    ensures forall i :: 0 <= i < |s| ==> r[i] == LowerChar(s[i])
  {
    seq(|s|, i requires 0 <= i < |s| => LowerChar(s[i]))
  }

  lemma LowerAppend(a: string, b: string)
    ensures Lower(a + b) == Lower(a) + Lower(b)
  {
  }

  lemma LowerIdempotent(s: string)
    ensures Lower(Lower(s)) == Lower(s)
  {
  }

  /** `s.startswith(prefix)` */
  predicate StartsWith(s: string, prefix: string) {
    |prefix| <= |s| && s[..|prefix|] == prefix
  }

  /** `s.endswith(suffix)` */
  predicate EndsWith(s: string, suffix: string) {
    |suffix| <= |s| && s[|s| - |suffix|..] == suffix
  }

  /** A text starts with each of its prefixes and ends with each of its suffixes. */
  lemma ConcatEnds(a: string, b: string)
    ensures StartsWith(a + b, a) && EndsWith(a + b, b)
  {
    assert (a + b)[..|a|] == a;
    assert (a + b)[|a|..] == b;
  }

  /** A prefix stays a prefix when text is appended. */
  lemma StartsWithExtend(s: string, prefix: string, b: string)
    requires StartsWith(s, prefix)
    ensures StartsWith(s + b, prefix)
  {
    assert (s + b)[..|prefix|] == s[..|prefix|];
  }

  /** A suffix stays a suffix when text is prepended. */
  lemma EndsWithExtend(s: string, suffix: string, a: string)
    requires EndsWith(s, suffix)
    ensures EndsWith(a + s, suffix)
  {
    assert (a + s)[|a + s| - |suffix|..] == s[|s| - |suffix|..];
  }

  lemma StartsWithPrepend(a: string, s: string, prefix: string)
    requires StartsWith(s, prefix)
    ensures StartsWith(a + s, a + prefix)
  {
    assert (a + s)[..|a + prefix|] == a + s[..|prefix|];
  }

  lemma StartsWithTrans(s: string, t: string, prefix: string)
    requires StartsWith(s, t) && StartsWith(t, prefix)
    ensures StartsWith(s, prefix)
  {
    assert s[..|prefix|] == s[..|t|][..|prefix|];
  }

  lemma StartsWithAt(s: string, prefix: string, i: nat)
    requires StartsWith(s, prefix) && i < |prefix|
    ensures s[i] == prefix[i]
  {
    assert s[..|prefix|][i] == s[i];
  }

  lemma AppendEmpty<T>(a: seq<T>)
    ensures a + [] == a
  {
  }

  lemma ConcatAssoc<T>(a: seq<T>, b: seq<T>, c: seq<T>)
    ensures a + b + c == a + (b + c)
  {
  }

  lemma SliceOfSlice<T>(s: seq<T>, x: nat, y: nat, k: nat)
    requires x <= y <= |s| && k <= y - x
    ensures s[x..y][k..] == s[x + k..y]
  {
  }

  lemma SliceOfPrefix<T>(s: seq<T>, c: nat, x: nat, y: nat)
    requires x <= y <= c <= |s|
    ensures s[..c][x..y] == s[x..y]
  {
  }

  lemma ConsThree<T>(a: T, b: T, c: T, r: seq<T>)
    ensures [a, b, c] + r == [a] + ([b] + ([c] + r))
  {
  }

  lemma ConsFour<T>(a: T, b: T, c: T, d: T, r: seq<T>)
    ensures [a, b, c, d] + r == [a, b] + ([c] + ([d] + r))
  {
  }

  lemma HeadThenRest<T>(s: seq<T>, r: seq<T>)
    requires |s| >= 1
    ensures s + r == [s[0]] + (s[1..] + r)
  {
    assert s == [s[0]] + s[1..];
  }

  /** `sub in s` */
  predicate Contains(s: string, sub: string)
    decreases |s|
  {
    StartsWith(s, sub) || (|s| > 0 && Contains(s[1..], sub))
  }

  /** A substring occurs at one position. */
  lemma {:induction false} ContainsAt(s: string, sub: string, i: nat)
    requires i + |sub| <= |s| && s[i..i + |sub|] == sub
    ensures Contains(s, sub)
    decreases i
  {
    if i > 0 {
      assert s[1..][i - 1..i - 1 + |sub|] == sub;
      ContainsAt(s[1..], sub, i - 1);
    }
  }

  /** Where a substring occurs. */
  lemma {:induction false} ContainsWitness(s: string, sub: string) returns (i: nat)
    requires Contains(s, sub)
    ensures i + |sub| <= |s| && s[i..i + |sub|] == sub
    decreases |s|
  {
    if StartsWith(s, sub) {
      i := 0;
    } else {
      var j := ContainsWitness(s[1..], sub);
      i := j + 1;
      assert s[i..i + |sub|] == s[1..][j..j + |sub|];
    }
  }

  /** A text that misses the first character of `sub` does not contain `sub`. */
  lemma {:induction false} MissingFirstChar(s: string, sub: string)
    requires |sub| > 0 && sub[0] !in s
    ensures !Contains(s, sub)
    decreases |s|
  {
    if |s| > 0 {
      assert |sub| <= |s| ==> s[..|sub|][0] != sub[0];
      assert sub[0] !in s[1..] by {
        forall j | 0 <= j < |s| - 1
          ensures s[1..][j] != sub[0]
        {
          assert s[1..][j] == s[j + 1];
        }
      }
      MissingFirstChar(s[1..], sub);
    }
  }

  /** What a part of a text contains, the text contains. */
  lemma ContainsSlice(t: string, a: nat, b: nat, sub: string)
    requires a <= b <= |t|
    ensures Contains(t[a..b], sub) ==> Contains(t, sub)
  {
    if Contains(t[a..b], sub) {
      var i := ContainsWitness(t[a..b], sub);
      forall k | 0 <= k < |sub|
        ensures t[a + i..a + i + |sub|][k] == sub[k]
      {
        assert sub[k] == t[a..b][i..i + |sub|][k] == t[a..b][i + k];
      }
      ContainsAt(t, sub, a + i);
    }
  }

  lemma ContainsAppend(x: string, y: string, sub: string)
    ensures Contains(x, sub) ==> Contains(x + y, sub)
    ensures Contains(y, sub) ==> Contains(x + y, sub)
  {
    assert (x + y)[..|x|] == x;
    assert (x + y)[|x|..|x + y|] == y;
    ContainsSlice(x + y, 0, |x|, sub);
    ContainsSlice(x + y, |x|, |x + y|, sub);
  }

  /** An occurrence that straddles the joining character contains it. */
  lemma Straddles(x: string, c: char, y: string, sub: string, i: nat)
    ensures i <= |x| < i + |sub| <= |x| + 1 + |y| && (x + [c] + y)[i..i + |sub|] == sub ==> c in sub
  {
    var t := x + [c] + y;
    if i <= |x| < i + |sub| <= |t| && t[i..i + |sub|] == sub {
      assert sub[|x| - i] == t[|x|];
    }
  }

  /** A text without a character that is found in neither side of a
      join on that character is found in neither side. */
  lemma ContainsAcross(x: string, c: char, y: string, sub: string)
    requires c !in sub
    ensures Contains(x + [c] + y, sub) ==> Contains(x, sub) || Contains(y, sub)
  {
    var t := x + [c] + y;
    if Contains(t, sub) {
      var i := ContainsWitness(t, sub);
      if i + |sub| <= |x| {
        assert t[i..i + |sub|] == x[i..i + |sub|];
        ContainsAt(x, sub, i);
      } else if i > |x| {
        assert t[i..i + |sub|] == y[i - |x| - 1..i - |x| - 1 + |sub|];
        ContainsAt(y, sub, i - |x| - 1);
      } else {
        Straddles(x, c, y, sub, i);
      }
    }
  }

  /** A text found in no line and holding no newline is not in the joined lines. */
  lemma {:induction false} JoinLinesMissing(lines: seq<string>, sub: string)
    requires |lines| >= 1 && '\n' !in sub
    requires forall i :: 0 <= i < |lines| ==> !Contains(lines[i], sub)
    ensures !Contains(JoinLines(lines), sub)
  {
    if |lines| > 1 {
      JoinLinesMissing(lines[1..], sub);
      assert JoinLines(lines) == lines[0] + ['\n'] + JoinLines(lines[1..]);
      ContainsAcross(lines[0], '\n', JoinLines(lines[1..]), sub);
    }
  }

  /** What a line contains, the joined lines contain. */
  lemma {:induction false} JoinLinesContains(lines: seq<string>, i: nat, sub: string)
    requires i < |lines|
    ensures Contains(lines[i], sub) ==> Contains(JoinLines(lines), sub)
  {
    if |lines| > 1 {
      assert JoinLines(lines) == lines[0] + ("\n" + JoinLines(lines[1..]));
      ContainsAppend(lines[0], "\n" + JoinLines(lines[1..]), sub);
      if i > 0 {
        JoinLinesContains(lines[1..], i - 1, sub);
        ContainsAppend("\n", JoinLines(lines[1..]), sub);
      }
    }
  }

  /** `m` occurs in `s` at position `j`. */
  predicate MatchAt(s: string, m: string, j: nat) {
    j + |m| <= |s| && s[j..j + |m|] == m
  }

  /** The first position from `i` on where `m` occurs in `s`. */
  function FindFrom(s: string, m: string, i: nat): (r: Option<nat>)
    requires i <= |s|
    ensures r.Some? ==> i <= r.value && MatchAt(s, m, r.value)
    decreases |s| - i
  {
    if i + |m| <= |s| && s[i..i + |m|] == m then Some(i)
    else if i == |s| then None
    else FindFrom(s, m, i + 1)
  }

  /** `FindFrom` finds the first occurrence from `i` on, or reports none. */
  lemma {:induction false} FindFromFacts(s: string, m: string, i: nat)
    requires i <= |s|
    ensures FindFrom(s, m, i).Some? ==>
      var p := FindFrom(s, m, i).value;
      MatchAt(s, m, p) && forall j :: i <= j < p ==> !MatchAt(s, m, j)
    ensures FindFrom(s, m, i).None? ==> forall j :: i <= j <= |s| ==> !MatchAt(s, m, j)
    decreases |s| - i
  {
    if !MatchAt(s, m, i) && i < |s| {
      FindFromFacts(s, m, i + 1);
    }
  }

  /** Python's `a < b` on `str`: code point by code point, a proper prefix first. */
  predicate Less(a: string, b: string)
    decreases |a|
  {
    |b| > 0 && (|a| == 0 || a[0] < b[0] || (a[0] == b[0] && Less(a[1..], b[1..])))
  }

  lemma {:induction false} LessIrreflexive(a: string)
    ensures !Less(a, a)
    decreases |a|
  {
    if |a| > 0 {
      LessIrreflexive(a[1..]);
    }
  }

  lemma {:induction false} LessTransitive(a: string, b: string, c: string)
    requires Less(a, b) && Less(b, c)
    ensures Less(a, c)
    decreases |a|
  {
    if |a| > 0 && a[0] == b[0] && b[0] == c[0] {
      LessTransitive(a[1..], b[1..], c[1..]);
    }
  }

  lemma {:induction false} LessTotal(a: string, b: string)
    ensures a == b || Less(a, b) || Less(b, a)
    decreases |a|
  {
    if |a| > 0 && |b| > 0 && a[0] == b[0] {
      LessTotal(a[1..], b[1..]);
      if a[1..] == b[1..] {
        assert a == [a[0]] + a[1..] && b == [b[0]] + b[1..];
      }
    }
  }

  function DigitChar(d: nat): char
    requires d < 10
  {
    ('0' as int + d) as char
  }

  /** `str(n)` for a natural number. */
  function NatToString(n: nat): (r: string)
    ensures |r| >= 1
    ensures forall i :: 0 <= i < |r| ==> IsDigit(r[i])
  {
    if n < 10 then [DigitChar(n)] else NatToString(n / 10) + [DigitChar(n % 10)]
  }

  /** Replace every occurrence of one character by another (`str.replace` on a single character). */
  function ReplaceChar(s: string, from: char, to: char): (r: string)
    ensures |r| == |s|
    ensures forall i :: 0 <= i < |s| ==> r[i] == (if s[i] == from then to else s[i])
  {
    seq(|s|, i requires 0 <= i < |s| => if s[i] == from then to else s[i])
  }
}
