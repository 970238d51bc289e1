/** The Python string built-ins the service relies on: `str.strip()`,
    `str.split(sep)`, `sep.join(parts)` and `int(text)`. */
module Strings {
  import opened Wrappers

  /** `str.isspace()` for one character: the characters Python strips by
      default (ASCII whitespace, the information separators 0x1C-0x1F and
      the Unicode space separators and line/paragraph separators). */
  predicate IsSpace(c: char)
  {
    || c == ' '
    || ('\t' <= c <= '\r')
    || ('\U{1C}' <= c <= '\U{1F}')
    || c == '\U{85}' || c == '\U{A0}' || c == '\U{1680}'
    || ('\U{2000}' <= c <= '\U{200A}')
    || c == '\U{2028}' || c == '\U{2029}' || c == '\U{202F}'
    || c == '\U{205F}' || c == '\U{3000}'
  }

  predicate AllSpace(s: string)
  {
    forall i :: 0 <= i < |s| ==> IsSpace(s[i])
  }

  /** Leading whitespace removed. */
  function TrimStart(s: string): string
    decreases |s|
  {
    if |s| > 0 && IsSpace(s[0]) then TrimStart(s[1..]) else s
  }

  /** Trailing whitespace removed. */
  function TrimEnd(s: string): string
    decreases |s|
  {
    if |s| > 0 && IsSpace(s[|s| - 1]) then TrimEnd(s[..|s| - 1]) else s
  }

  /** TrimStart keeps a suffix of `s` that does not start with a space and
      drops only spaces. */
  lemma {:induction false} TrimStartSpec(s: string)
    ensures |TrimStart(s)| <= |s| && TrimStart(s) == s[|s| - |TrimStart(s)|..]
    ensures TrimStart(s) == [] || !IsSpace(TrimStart(s)[0])
    ensures forall i :: 0 <= i < |s| - |TrimStart(s)| ==> IsSpace(s[i])
    decreases |s|
  {
    if |s| > 0 && IsSpace(s[0]) {
      TrimStartSpec(s[1..]);
      assert s[1..][|s| - 1 - |TrimStart(s)|..] == s[|s| - |TrimStart(s)|..];
      forall i | 0 < i < |s| - |TrimStart(s)| ensures IsSpace(s[i]) {
        assert s[i] == s[1..][i - 1];
      }
    }
  }

  /** TrimEnd keeps a prefix of `s` that does not end with a space and
      drops only spaces. */
  lemma {:induction false} TrimEndSpec(s: string)
    ensures |TrimEnd(s)| <= |s| && TrimEnd(s) == s[..|TrimEnd(s)|]
    ensures TrimEnd(s) == [] || !IsSpace(TrimEnd(s)[|TrimEnd(s)| - 1])
    ensures forall i :: |TrimEnd(s)| <= i < |s| ==> IsSpace(s[i])
    decreases |s|
  {
    if |s| > 0 && IsSpace(s[|s| - 1]) {
      var init := s[..|s| - 1];
      TrimEndSpec(init);
      assert init[..|TrimEnd(s)|] == s[..|TrimEnd(s)|];
      forall i | |TrimEnd(s)| <= i < |s| - 1 ensures IsSpace(s[i]) {
        assert s[i] == init[i];
      }
    }
  }

  /** `s.strip()`. */
  function Strip(s: string): string
  {
    TrimEnd(TrimStart(s))
  }

  /** What strip keeps: a contiguous piece of `s`, no longer than `s`, that
      neither starts nor ends with a space, and only spaces around it. */
  lemma StripSpec(s: string)
    ensures var r, lead := Strip(s), |s| - |TrimStart(s)|;
      && |r| <= |s|
      && 0 <= lead && lead + |r| <= |s|
      && r == s[lead..lead + |r|]
      && (r == [] || (!IsSpace(r[0]) && !IsSpace(r[|r| - 1])))
      && (forall i :: 0 <= i < lead ==> IsSpace(s[i]))
      && (forall i :: lead + |r| <= i < |s| ==> IsSpace(s[i]))
  {
    var t := TrimStart(s);
    var r := TrimEnd(t);
    var lead := |s| - |t|;
    TrimStartSpec(s);
    TrimEndSpec(t);
    PrefixOfSuffix(s, lead, |r|);
    if r != [] {
      assert r[0] == t[0];
    }
    SpacesShifted(s, lead, |r|);
  }

  /** The first `n` characters of `s[lead..]` are `s[lead..lead + n]`. */
  lemma PrefixOfSuffix(s: string, lead: nat, n: nat)
    requires lead + n <= |s|
    ensures s[lead..][..n] == s[lead..lead + n]
  {
  }

  /** Spaces at the end of a suffix of `s` are spaces at the end of `s`. */
  lemma SpacesShifted(s: string, lead: nat, n: nat)
    requires lead + n <= |s|
    requires forall i :: n <= i < |s[lead..]| ==> IsSpace(s[lead..][i])
    ensures forall i :: lead + n <= i < |s| ==> IsSpace(s[i])
  {
    forall i | lead + n <= i < |s| ensures IsSpace(s[i]) {
      assert s[i] == s[lead..][i - lead];
    }
  }

  /** A text that neither starts nor ends with a space is left as it is. */
  lemma StripUnchanged(r: string)
    requires r == [] || (!IsSpace(r[0]) && !IsSpace(r[|r| - 1]))
    ensures Strip(r) == r
  {
    assert TrimStart(r) == r;
    assert TrimEnd(r) == r;
  }

  /** Stripping twice is stripping once. */
  lemma StripIdempotent(s: string)
    ensures Strip(Strip(s)) == Strip(s)
  {
    StripSpec(s);
    StripUnchanged(Strip(s));
  }

  /** strip gives the empty string exactly when `s` is all whitespace. */
  lemma StripEmptyIff(s: string)
    ensures Strip(s) == [] <==> AllSpace(s)
  {
    StripSpec(s);
  }

  /** `sep.join(parts)`. */
  function Join(parts: seq<string>, sep: string): string
  {
    if |parts| == 0 then ""
    else if |parts| == 1 then parts[0]
    else parts[0] + sep + Join(parts[1..], sep)
  }

  /** Sum of the lengths of `parts`. */
  function TotalLength(parts: seq<string>): nat
  {
    if |parts| == 0 then 0 else |parts[0]| + TotalLength(parts[1..])
  }

  /** A join is as long as its parts plus one separator between each two. */
  lemma {:induction false} JoinLength(parts: seq<string>, sep: string)
    ensures |Join(parts, sep)| ==
            if |parts| == 0 then 0 else TotalLength(parts) + |sep| * (|parts| - 1)
  {
    if |parts| > 1 {
      JoinLength(parts[1..], sep);
    }
  }

  /** Where `Join(parts, sep)` puts part `k`: after the first `k` parts and
      `k` separators. */
  function Offset(parts: seq<string>, sep: string, k: nat): nat
    requires k <= |parts|
  {
    TotalLength(parts[..k]) + |sep| * k
  }

  /** Every part appears verbatim and in order in the join, followed by the
      separator unless it is the last one. */
  lemma {:induction false} JoinPieceAt(parts: seq<string>, sep: string, k: nat)
    requires k < |parts|
    ensures var o := Offset(parts, sep, k);
      && o + |parts[k]| <= |Join(parts, sep)|
      && Join(parts, sep)[o..o + |parts[k]|] == parts[k]
    ensures var o := Offset(parts, sep, k);
      k + 1 < |parts| ==>
        && o + |parts[k]| + |sep| == Offset(parts, sep, k + 1)
        && o + |parts[k]| + |sep| <= |Join(parts, sep)|
        && Join(parts, sep)[o + |parts[k]|..o + |parts[k]| + |sep|] == sep
  {
    var j := Join(parts, sep);
    if k == 0 {
      assert parts[..1] == [parts[0]];
      assert Offset(parts, sep, 0) == 0;
      if |parts| > 1 {
        assert j == parts[0] + sep + Join(parts[1..], sep);
        OffsetStep(parts, sep, 1);
        assert parts[1..][..0] == [];
      }
    } else {
      var rest := parts[1..];
      var jr := Join(rest, sep);
      JoinPieceAt(rest, sep, k - 1);
      assert j == parts[0] + sep + jr;
      var shift := |parts[0]| + |sep|;
      OffsetStep(parts, sep, k);
      if k + 1 < |parts| {
        OffsetStep(parts, sep, k + 1);
      }
      var o := Offset(rest, sep, k - 1);
      assert j == (parts[0] + sep) + jr;
      SliceShift(parts[0] + sep, jr, o, o + |parts[k]|);
      if k + 1 < |parts| {
        SliceShift(parts[0] + sep, jr, o + |parts[k]|, o + |parts[k]| + |sep|);
      }
    }
  }

  /** A slice of the second half of a concatenation. */
  lemma SliceShift(x: string, y: string, lo: nat, hi: nat)
    requires lo <= hi <= |y|
    ensures (x + y)[|x| + lo..|x| + hi] == y[lo..hi]
  {
  }

  lemma OffsetStep(parts: seq<string>, sep: string, k: nat)
    requires 0 < k <= |parts|
    ensures Offset(parts, sep, k) == |parts[0]| + |sep| + Offset(parts[1..], sep, k - 1)
  {
    assert parts[..k][1..] == parts[1..][..k - 1];
  }

  /** `s.split(sep)` for a one-character separator. */
  function Split(s: string, sep: char): (r: seq<string>)
    ensures |r| >= 1
    decreases |s|
  {
    if |s| == 0 then [""]
    else
      var rest := Split(s[1..], sep);
      if s[0] == sep then [""] + rest
      else [[s[0]] + rest[0]] + rest[1..]
  }

  /** Joining the pieces of a split with the separator restores the text. */
  lemma {:induction false} SplitThenJoin(s: string, sep: char)
    ensures Join(Split(s, sep), [sep]) == s
  {
    if |s| > 0 {
      var rest := Split(s[1..], sep);
      SplitThenJoin(s[1..], sep);
      if s[0] != sep && |rest| > 1 {
        assert Join(rest, [sep]) == rest[0] + [sep] + Join(rest[1..], [sep]);
      }
    }
  }

  /** Splitting a text in which `sep` does not occur gives the text alone. */
  lemma {:induction false} SplitNoSeparator(s: string, sep: char)
    requires sep !in s
    ensures Split(s, sep) == [s]
  {
    if |s| > 0 {
      assert sep !in s[1..];
      SplitNoSeparator(s[1..], sep);
      assert [s[0]] + s[1..] == s;
    }
  }

  /** The first separator ends the first piece. */
  lemma {:induction false} SplitFirst(p: string, sep: char, t: string)
    requires sep !in p
    ensures Split(p + [sep] + t, sep) == [p] + Split(t, sep)
  {
    if |p| > 0 {
      assert sep !in p[1..] && p[0] != sep;
      SplitFirst(p[1..], sep, t);
      assert (p + [sep] + t)[1..] == p[1..] + [sep] + t;
      assert [p[0]] + p[1..] == p;
    } else {
      assert (p + [sep] + t)[1..] == t;
    }
  }

  /** Splitting is the inverse of joining parts that do not contain the separator. */
  lemma {:induction false} JoinThenSplit(parts: seq<string>, sep: char)
    requires |parts| >= 1
    requires forall k :: 0 <= k < |parts| ==> sep !in parts[k]
    ensures Split(Join(parts, [sep]), sep) == parts
  {
    if |parts| == 1 {
      SplitNoSeparator(parts[0], sep);
    } else {
      JoinThenSplit(parts[1..], sep);
      SplitFirst(parts[0], sep, Join(parts[1..], [sep]));
    }
  }

  /** The separator occurs in `s` exactly when the split has several pieces. */
  lemma SplitSeveralIff(s: string, sep: char)
    ensures sep in s <==> |Split(s, sep)| > 1
  {
    if sep !in s {
      SplitNoSeparator(s, sep);
    } else {
      SplitThenJoin(s, sep);
    }
  }

  predicate IsDigit(c: char)
  {
    '0' <= c <= '9'
  }

  predicate AllDigits(s: string)
  {
    forall i :: 0 <= i < |s| ==> IsDigit(s[i])
  }

  /** The value of a string of decimal digits, most significant first. */
  function DigitsValue(s: string): nat
    requires AllDigits(s)
  {
    if |s| == 0 then 0
    else 10 * DigitsValue(s[..|s| - 1]) + (s[|s| - 1] as int - '0' as int)
  }

  /** The information separators U+001C-U+001F: whitespace to `strip()`,
      but not skipped by `int()`, which skips only ASCII space, `\t` to `\r`
      and non-ASCII whitespace. */
  predicate IsInfoSeparator(c: char)
  {
    '\U{1C}' <= c <= '\U{1F}'
  }

  predicate NoInfoSeparator(s: string)
  {
    |s| == 0 || (!IsInfoSeparator(s[0]) && NoInfoSeparator(s[1..]))
  }

  /** `int(s)` on ASCII decimal digits, optionally surrounded by the
      whitespace `int()` skips; `None` where Python raises `ValueError`.
      Once the digits are stripped out, everything left around them is
      whitespace, so an information separator anywhere in `s` is one that
      `int()` would have had to skip. */
  function ParseInt(s: string): Option<nat>
  {
    var t := Strip(s);
    if |t| > 0 && AllDigits(t) && NoInfoSeparator(s) then Some(DigitsValue(t)) else None
  }

  /** The canonical decimal spelling of `n`, as `str(n)`. */
  function Decimal(n: nat): (r: string)
    ensures |r| >= 1 && AllDigits(r)
  {
    var d := [(n % 10 + '0' as int) as char];
    if n < 10 then d else Decimal(n / 10) + d
  }

  /** `int(str(n)) == n`. */
  lemma {:induction false} ParseDecimal(n: nat)
    ensures ParseInt(Decimal(n)) == Some(n)
  {
    DigitsOfDecimal(n);
    var r := Decimal(n);
    assert IsDigit(r[0]) && IsDigit(r[|r| - 1]);
    StripUnchanged(r);
    DigitsNoInfoSeparator(r);
  }

  lemma {:induction false} DigitsOfDecimal(n: nat)
    ensures DigitsValue(Decimal(n)) == n
  {
    if n >= 10 {
      DigitsOfDecimal(n / 10);
      var r := Decimal(n);
      assert r[..|r| - 1] == Decimal(n / 10);
    }
  }

  /** Leading whitespace before a text that starts with a non-space is
      dropped entirely. */
  lemma {:induction false} TrimStartSpaces(a: string, x: string)
    requires AllSpace(a)
    requires |x| > 0 && !IsSpace(x[0])
    ensures TrimStart(a + x) == x
  {
    if |a| > 0 {
      assert (a + x)[1..] == a[1..] + x;
      TrimStartSpaces(a[1..], x);
    } else {
      assert a + x == x;
    }
  }

  /** Trailing whitespace after a text that ends with a non-space is
      dropped entirely. */
  lemma {:induction false} TrimEndSpaces(x: string, b: string)
    requires AllSpace(b)
    requires |x| > 0 && !IsSpace(x[|x| - 1])
    ensures TrimEnd(x + b) == x
  {
    if |b| > 0 {
      assert (x + b)[..|x + b| - 1] == x + b[..|b| - 1];
      TrimEndSpaces(x, b[..|b| - 1]);
    } else {
      assert x + b == x;
    }
  }

  /** `int()` reads a decimal number surrounded by the whitespace it skips:
      `int(a + str(n) + b) == n`. */
  lemma ParsePadded(a: string, n: nat, b: string)
    requires AllSpace(a) && NoInfoSeparator(a)
    requires AllSpace(b) && NoInfoSeparator(b)
    ensures ParseInt(a + Decimal(n) + b) == Some(n)
  {
    var d := Decimal(n);
    StripPadded(a, d, b);
    DigitsOfDecimal(n);
    DigitsNoInfoSeparator(d);
    NoInfoSeparatorConcat(a, d);
    NoInfoSeparatorConcat(a + d, b);
  }

  /** Stripping whitespace from around a number leaves the number. */
  lemma StripPadded(a: string, d: string, b: string)
    requires AllSpace(a) && AllSpace(b)
    requires |d| > 0 && AllDigits(d)
    ensures Strip(a + d + b) == d
  {
    assert IsDigit(d[0]) && IsDigit(d[|d| - 1]);
    assert (d + b)[0] == d[0];
    TrimStartSpaces(a, d + b);
    assert a + d + b == a + (d + b);
    TrimEndSpaces(d, b);
  }

  lemma {:induction false} NoInfoSeparatorConcat(x: string, y: string)
    requires NoInfoSeparator(x) && NoInfoSeparator(y)
    ensures NoInfoSeparator(x + y)
  {
    if |x| > 0 {
      assert (x + y)[1..] == x[1..] + y;
      NoInfoSeparatorConcat(x[1..], y);
    } else {
      assert x + y == y;
    }
  }

  /** Digits are not information separators. */
  lemma {:induction false} DigitsNoInfoSeparator(d: string)
    requires AllDigits(d)
    ensures NoInfoSeparator(d)
  {
    if |d| > 0 {
      DigitsNoInfoSeparator(d[1..]);
    }
  }

  /** `strip()` removes an information separator but `int()` does not skip
      it: `"1\x1c".strip()` is `"1"`, yet `int("1\x1c")` raises. */
  lemma InfoSeparatorNotSkipped()
    ensures Strip("1\U{1C}") == "1"
    ensures ParseInt("1\U{1C}") == None
  {
    var s := "1\U{1C}";
    assert s == "1" + ['\U{1C}'];
    TrimStartSpaces("", s);
    assert "" + s == s;
    TrimEndSpaces("1", ['\U{1C}']);
    assert s[1..] == ['\U{1C}'] && IsInfoSeparator(s[1..][0]);
  }

  /** `int()` raises on an empty or all-whitespace text. */
  lemma ParseIntBlank(s: string)
    requires AllSpace(s)
    ensures ParseInt(s) == None
  {
    StripEmptyIff(s);
  }
}
