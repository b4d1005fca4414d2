/**
 * Character and string helpers that mirror the Python `str` methods the
 * handlers use: `strip()`, ASCII `lower()` / `upper()`, `replace(c, "")`,
 * `isdigit()` / `int(s)` on decimal digits, `str(n)` on integers, and the
 * code-point ordering `<` that `sorted` uses on strings.
 */
module Text {

  /** The characters Python's `str.strip()` removes: ASCII whitespace, the
      information separators 0x1C-0x1F and the Unicode space separators. */
  predicate IsSpace(c: char)
  {
    || c == ' ' || c == '\t' || c == '\n' || c == '\r'
    || c == '\U{0b}' || c == '\U{0c}'
    || ('\U{1c}' <= c <= '\U{1f}')
    || c == '\U{85}' || c == '\U{a0}' || c == '\U{1680}'
    || ('\U{2000}' <= c <= '\U{200a}')
    || c == '\U{2028}' || c == '\U{2029}' || c == '\U{202f}'
    || c == '\U{205f}' || c == '\U{3000}'
  }

  /** Number of whitespace characters at the front of `s`. */
  function LeadingSpaces(s: string): (n: nat)
    ensures n <= |s|
    ensures forall i :: 0 <= i < n ==> IsSpace(s[i])
    ensures n < |s| ==> !IsSpace(s[n])
  {
    if |s| == 0 || !IsSpace(s[0]) then 0 else 1 + LeadingSpaces(s[1..])
  }

  /** Number of whitespace characters at the end of `s`. */
  function TrailingSpaces(s: string): (n: nat)
    ensures n <= |s|
    ensures forall i :: |s| - n <= i < |s| ==> IsSpace(s[i])
    ensures n < |s| ==> !IsSpace(s[|s| - n - 1])
  {
    if |s| == 0 || !IsSpace(s[|s| - 1]) then 0 else 1 + TrailingSpaces(s[..|s| - 1])
  }

  /** The leading-space count is determined by which positions hold spaces. */
  lemma LeadingSpacesUnique(s: string, t: string, n: nat)
    requires |s| == |t|
    requires forall i :: 0 <= i < |s| ==> (IsSpace(s[i]) <==> IsSpace(t[i]))
    requires n == LeadingSpaces(s)
    ensures LeadingSpaces(t) == n
  {
    var m := LeadingSpaces(t);
    assert m < |t| ==> !IsSpace(t[m]);
    assert n < |s| ==> !IsSpace(s[n]);
  }

  lemma TrailingSpacesUnique(s: string, t: string, n: nat)
    requires |s| == |t|
    requires forall i :: 0 <= i < |s| ==> (IsSpace(s[i]) <==> IsSpace(t[i]))
    requires n == TrailingSpaces(s)
    ensures TrailingSpaces(t) == n
  {
    var m := TrailingSpaces(t);
    assert m < |t| ==> !IsSpace(t[|t| - m - 1]);
    assert n < |s| ==> !IsSpace(s[|s| - n - 1]);
  }

  /** Python `s.strip()`: the longest slice of `s` that neither starts nor ends
      with whitespace, obtained by dropping only whitespace on either side. */
  function Strip(s: string): (r: string)
    ensures LeadingSpaces(s) + |r| <= |s|
    ensures r == s[LeadingSpaces(s)..LeadingSpaces(s) + |r|]
    ensures forall i :: LeadingSpaces(s) + |r| <= i < |s| ==> IsSpace(s[i])
    ensures |r| > 0 ==> !IsSpace(r[0]) && !IsSpace(r[|r| - 1])
  {
    var front := LeadingSpaces(s);
    var rest := s[front..];
    rest[..|rest| - TrailingSpaces(rest)]
  }

  /** Text that neither starts nor ends with whitespace is its own strip. */
  lemma StripUnchanged(s: string)
    requires |s| > 0 ==> !IsSpace(s[0]) && !IsSpace(s[|s| - 1])
    ensures Strip(s) == s
  {
    assert LeadingSpaces(s) == 0;
    assert |Strip(s)| == |s|;
  }

  /** A space in front and a line feed behind are stripped off again. */
  lemma StripPadded(s: string)
    requires |s| > 0 && !IsSpace(s[0]) && !IsSpace(s[|s| - 1])
    ensures Strip(" " + s + "\n") == s
  {
    var p := " " + s + "\n";
    var rest := s + "\n";
    assert p[1..] == rest;
    assert LeadingSpaces(rest) == 0;
    assert LeadingSpaces(p) == 1;
    assert rest[..|rest| - 1] == s;
    assert TrailingSpaces(s) == 0;
    assert TrailingSpaces(rest) == 1;
  }

  function LowerChar(c: char): char
  {
    if 'A' <= c <= 'Z' then (c as int + 32) as char else c
  }

  function UpperChar(c: char): char
  {
    if 'a' <= c <= 'z' then (c as int - 32) as char else c
  }

  predicate IsAsciiLower(c: char)
  {
    'a' <= c <= 'z'
  }

  /** Python `s.lower()` restricted to the ASCII letters. */
  function Lower(s: string): (r: string)
    ensures |r| == |s|
    ensures forall i :: 0 <= i < |s| ==> r[i] == LowerChar(s[i])
  {
    seq(|s|, i requires 0 <= i < |s| => LowerChar(s[i]))
  }

  /** Python `s.upper()` restricted to the ASCII letters. */
  function Upper(s: string): (r: string)
    ensures |r| == |s|
    ensures forall i :: 0 <= i < |s| ==> r[i] == UpperChar(s[i])
    ensures forall i :: 0 <= i < |r| ==> !IsAsciiLower(r[i])
  {
    seq(|s|, i requires 0 <= i < |s| => UpperChar(s[i]))
  }

  /** Case mapping never turns a space into a non-space or back. */
  lemma CaseKeepsSpaces(c: char)
    ensures IsSpace(UpperChar(c)) <==> IsSpace(c)
    ensures IsSpace(LowerChar(c)) <==> IsSpace(c)
  {
  }

  /** Two strings with whitespace in the same positions strip to the same slice. */
  lemma StripSameShape(s: string, t: string)
    requires |s| == |t|
    requires forall i :: 0 <= i < |s| ==> (IsSpace(s[i]) <==> IsSpace(t[i]))
    ensures LeadingSpaces(t) == LeadingSpaces(s)
    ensures |Strip(t)| == |Strip(s)|
  {
    var n := LeadingSpaces(s);
    LeadingSpacesUnique(s, t, n);
    SuffixSameShape(s, t, n);
    StripLength(s);
    StripLength(t);
  }

  /** The stripped text's length is what is left between the two runs of spaces. */
  lemma StripLength(s: string)
    ensures |Strip(s)| == |s| - LeadingSpaces(s) - TrailingSpaces(s[LeadingSpaces(s)..])
  {
  }

  /** Suffixes with whitespace in the same positions end in as many spaces. */
  lemma SuffixSameShape(s: string, t: string, n: nat)
    requires |s| == |t| && n <= |s|
    requires forall i :: 0 <= i < |s| ==> (IsSpace(s[i]) <==> IsSpace(t[i]))
    ensures TrailingSpaces(t[n..]) == TrailingSpaces(s[n..])
  {
    var rs := s[n..];
    var rt := t[n..];
    forall i | 0 <= i < |rs|
      ensures IsSpace(rs[i]) <==> IsSpace(rt[i])
    {
      assert rs[i] == s[n + i] && rt[i] == t[n + i];
    }
    TrailingSpacesUnique(rs, rt, TrailingSpaces(rs));
  }

  /** Stripping and upper-casing commute: they act on disjoint sets of characters. */
  lemma StripUpperCommute(s: string)
    ensures Strip(Upper(s)) == Upper(Strip(s))
  {
    var u := Upper(s);
    forall i | 0 <= i < |s|
      ensures IsSpace(s[i]) <==> IsSpace(u[i])
    {
      CaseKeepsSpaces(s[i]);
    }
    StripSameShape(s, u);
  }

  /** Stripping and lower-casing commute. */
  lemma StripLowerCommute(s: string)
    ensures Strip(Lower(s)) == Lower(Strip(s))
  {
    var l := Lower(s);
    forall i | 0 <= i < |s|
      ensures IsSpace(s[i]) <==> IsSpace(l[i])
    {
      CaseKeepsSpaces(s[i]);
    }
    StripSameShape(s, l);
  }

  /** Lower-casing after upper-casing is the same as lower-casing directly. */
  lemma LowerAfterUpper(s: string)
    ensures Lower(Upper(s)) == Lower(s)
  {
  }

  /** Upper-casing after lower-casing is the same as upper-casing directly. */
  lemma UpperAfterLower(s: string)
    ensures Upper(Lower(s)) == Upper(s)
  {
  }

  /** Removing a character that case mapping leaves alone commutes with lower-casing. */
  lemma {:induction false} RemoveLowerCommute(s: string, c: char)
    requires LowerChar(c) == c && UpperChar(c) == c
    ensures Remove(Lower(s), c) == Lower(Remove(s, c))
  {
    if |s| > 0 {
      assert Lower(s) == [LowerChar(s[0])] + Lower(s[1..]);
      RemoveLowerCommute(s[1..], c);
      if s[0] != c {
        assert Lower([s[0]] + Remove(s[1..], c)) == [LowerChar(s[0])] + Lower(Remove(s[1..], c));
      }
    }
  }

  /** Python `s.replace(c, "")`: every occurrence of `c` removed, the rest in order. */
  function Remove(s: string, c: char): (r: string)
    ensures |r| <= |s|
    ensures forall i :: 0 <= i < |r| ==> r[i] != c
    ensures forall x :: x != c ==> multiset(r)[x] == multiset(s)[x]
    ensures forall x :: x in r ==> x in s
  {
    if |s| == 0 then []
    else
      assert s == [s[0]] + s[1..];
      if s[0] == c then Remove(s[1..], c) else [s[0]] + Remove(s[1..], c)
  }

  /** `replace(c, "")` shortens the text by exactly the number of `c`s in it. */
  lemma {:induction false} RemoveLength(s: string, c: char)
    ensures |Remove(s, c)| == |s| - multiset(s)[c]
  {
    if |s| > 0 {
      assert s == [s[0]] + s[1..];
      assert multiset(s) == multiset{s[0]} + multiset(s[1..]);
      RemoveLength(s[1..], c);
    }
  }

  lemma RemoveAbsent(s: string, c: char)
    requires forall i :: 0 <= i < |s| ==> s[i] != c
    ensures Remove(s, c) == s
  {
  }

  /** Removal works piece by piece, keeping the order of what remains. */
  lemma {:induction false} RemoveConcat(a: string, b: string, c: char)
    ensures Remove(a + b, c) == Remove(a, c) + Remove(b, c)
  {
    if |a| == 0 {
      assert a + b == b;
    } else {
      assert (a + b)[0] == a[0];
      assert (a + b)[1..] == a[1..] + b;
      RemoveConcat(a[1..], b, c);
    }
  }

  /** Removing the separator of a join glues the parts together. */
  lemma {:induction false} RemoveJoin(xs: seq<string>, c: char)
    requires forall i, j :: 0 <= i < |xs| && 0 <= j < |xs[i]| ==> xs[i][j] != c
    ensures Remove(Join(xs, [c]), c) == Join(xs, "")
  {
    if |xs| == 1 {
      RemoveAbsent(xs[0], c);
    } else if |xs| > 1 {
      var tail := xs[1..];
      var rest := Join(tail, [c]);
      assert Join(xs, [c]) == xs[0] + ([c] + rest);
      assert Remove([c] + rest, c) == Join(tail, "") by {
        assert forall i, j :: 0 <= i < |tail| && 0 <= j < |tail[i]| ==> tail[i][j] == xs[i + 1][j];
        RemoveJoin(tail, c);
        assert Remove([c], c) == [];
        RemoveConcat([c], rest, c);
      }
      assert Remove(xs[0] + ([c] + rest), c) == xs[0] + Remove([c] + rest, c) by {
        RemoveConcat(xs[0], [c] + rest, c);
        RemoveAbsent(xs[0], c);
      }
      assert Join(xs, "") == xs[0] + Join(tail, "");
    }
  }

  /** A property every part and the separator share holds of every
      character of the join. */
  lemma {:induction false} JoinChars(xs: seq<string>, sep: string, p: char -> bool)
    requires forall i, j :: 0 <= i < |xs| && 0 <= j < |xs[i]| ==> p(xs[i][j])
    requires forall j :: 0 <= j < |sep| ==> p(sep[j])
    ensures forall k :: 0 <= k < |Join(xs, sep)| ==> p(Join(xs, sep)[k])
  {
    if |xs| > 1 {
      JoinChars(xs[1..], sep, p);
      var rest := Join(xs[1..], sep);
      var whole := Join(xs, sep);
      assert whole == xs[0] + sep + rest;
      forall k | 0 <= k < |whole|
        ensures p(whole[k])
      {
        if k < |xs[0]| {
          assert whole[k] == xs[0][k];
        } else if k < |xs[0]| + |sep| {
          assert whole[k] == sep[k - |xs[0]|];
        } else {
          assert whole[k] == rest[k - |xs[0]| - |sep|];
        }
      }
    }
  }

  /** Python `str.isdigit()` restricted to ASCII digits. */
  predicate IsDigit(c: char)
  {
    '0' <= c <= '9'
  }

  predicate AllDigits(s: string)
  {
    |s| > 0 && forall i :: 0 <= i < |s| ==> IsDigit(s[i])
  }

  function DigitValue(c: char): nat
    requires IsDigit(c)
  {
    c as int - '0' as int
  }

  function DigitChar(d: nat): (c: char)
    requires d < 10
    ensures IsDigit(c) && DigitValue(c) == d
  {
    ('0' as int + d) as char
  }

  /** Python `int(s)` for a string of decimal digits. */
  function DigitsValue(s: string): nat
    requires forall i :: 0 <= i < |s| ==> IsDigit(s[i])
  {
    if |s| == 0 then 0 else 10 * DigitsValue(s[..|s| - 1]) + DigitValue(s[|s| - 1])
  }

  /** Python `str(n)` for a natural number: its decimal digits without leading zeros. */
  function NatToString(n: nat): (r: string)
    ensures AllDigits(r)
    ensures r[0] == '0' ==> n == 0 && |r| == 1
  {
    if n < 10 then [DigitChar(n)] else NatToString(n / 10) + [DigitChar(n % 10)]
  }

  /** Python `str(n)` for any integer. */
  function IntToString(n: int): (r: string)
    ensures |r| > 0
    ensures n >= 0 <==> r[0] != '-'
  {
    if n < 0 then "-" + NatToString(-n) else NatToString(n)
  }

  /** Reading back the decimal text of a number gives the number. */
  lemma {:induction false} NatToStringRoundTrip(n: nat)
    ensures DigitsValue(NatToString(n)) == n
  {
    if n >= 10 {
      var s := NatToString(n);
      assert s[..|s| - 1] == NatToString(n / 10);
      NatToStringRoundTrip(n / 10);
    }
  }

  /** Python's `a <= b` on strings: code-point lexicographic order, a proper
      prefix coming first. */
  predicate LexLessEq(a: string, b: string)
  {
    if |a| == 0 then true
    else if |b| == 0 then false
    else if a[0] != b[0] then a[0] < b[0]
    else LexLessEq(a[1..], b[1..])
  }

  lemma {:induction false} LexReflexive(a: string)
    ensures LexLessEq(a, a)
  {
    if |a| > 0 {
      LexReflexive(a[1..]);
    }
  }

  lemma {:induction false} LexTotal(a: string, b: string)
    ensures LexLessEq(a, b) || LexLessEq(b, a)
  {
    if |a| > 0 && |b| > 0 && a[0] == b[0] {
      LexTotal(a[1..], b[1..]);
    }
  }

  lemma {:induction false} LexAntisymmetric(a: string, b: string)
    requires LexLessEq(a, b) && LexLessEq(b, a)
    ensures a == b
  {
    if |a| > 0 && |b| > 0 {
      LexAntisymmetric(a[1..], b[1..]);
      assert a == [a[0]] + a[1..];
      assert b == [b[0]] + b[1..];
    }
  }

  lemma {:induction false} LexTransitive(a: string, b: string, c: string)
    requires LexLessEq(a, b) && LexLessEq(b, c)
    ensures LexLessEq(a, c)
  {
    if |a| > 0 && |b| > 0 && |c| > 0 && a[0] == b[0] && b[0] == c[0] {
      LexTransitive(a[1..], b[1..], c[1..]);
    }
  }

  /** `sep.join(xs)`. */
  function Join(xs: seq<string>, sep: string): string
  {
    if |xs| == 0 then ""
    else if |xs| == 1 then xs[0]
    else xs[0] + sep + Join(xs[1..], sep)
  }

  /** `s.split(sep)` for a one-character separator: always at least one part. */
  function Split(s: string, sep: char): (r: seq<string>)
    ensures |r| > 0
  {
    if |s| == 0 then [""]
    else if s[0] == sep then [""] + Split(s[1..], sep)
    else
      var rest := Split(s[1..], sep);
      [[s[0]] + rest[0]] + rest[1..]
  }

  /** Text without the separator extends the first part and nothing else. */
  lemma {:induction false} SplitPrefix(x: string, t: string, sep: char)
    requires forall i :: 0 <= i < |x| ==> x[i] != sep
    ensures Split(x + t, sep) == [x + Split(t, sep)[0]] + Split(t, sep)[1..]
  {
    if |x| > 0 {
      SplitPrefix(x[1..], t, sep);
      var parts := Split(t, sep);
      assert (x + t)[0] == x[0] && (x + t)[1..] == x[1..] + t;
      var rest := Split(x[1..] + t, sep);
      assert rest[0] == x[1..] + parts[0] && rest[1..] == parts[1..];
      assert [x[0]] + rest[0] == x + parts[0];
    } else {
      var parts := Split(t, sep);
      assert x + t == t && x + parts[0] == parts[0];
      assert [parts[0]] + parts[1..] == parts;
    }
  }

  /** Splitting joined parts gives the parts back when none holds the separator. */
  lemma {:induction false} SplitJoin(xs: seq<string>, sep: char)
    requires |xs| > 0
    requires forall j, i :: 0 <= j < |xs| && 0 <= i < |xs[j]| ==> xs[j][i] != sep
    ensures Split(Join(xs, [sep]), sep) == xs
  {
    if |xs| == 1 {
      SplitPrefix(xs[0], "", sep);
      assert xs[0] + "" == xs[0];
    } else {
      var rest := Join(xs[1..], [sep]);
      SplitJoin(xs[1..], sep);
      assert Join(xs, [sep]) == xs[0] + ([sep] + rest);
      SplitPrefix(xs[0], [sep] + rest, sep);
      assert ([sep] + rest)[0] == sep && ([sep] + rest)[1..] == rest;
      assert Split([sep] + rest, sep) == [""] + xs[1..];
      assert xs[0] + "" == xs[0];
      assert xs == [xs[0]] + xs[1..];
    }
  }

  /** A join starts with its first part. */
  lemma {:induction false} JoinStartsWith(xs: seq<string>, sep: string)
    requires |xs| > 0
    ensures |Join(xs, sep)| >= |xs[0]|
    ensures Join(xs, sep)[..|xs[0]|] == xs[0]
  {
  }
}
