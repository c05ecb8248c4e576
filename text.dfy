/** The Python `str` operations the ERP addons apply to names, references and field
    descriptions: strip, case mapping, search, replace, join, `int()` and the
    code-point order that `sorted` uses. */
module Text {
  import opened Wrappers
  import Sorting

  /** `str.isspace` for one character. */
  predicate IsSpace(c: char)
  {
    var n := c as int;
    (9 <= n <= 13) || (28 <= n <= 32) || n == 0x85 || n == 0xA0 || n == 0x1680
    || (0x2000 <= n <= 0x200A) || n == 0x2028 || n == 0x2029 || n == 0x202F
    || n == 0x205F || n == 0x3000
  }

  /** `str.lstrip()`. */
  function LStrip(s: string): (r: string)
    ensures |r| <= |s| && r == s[|s| - |r|..]
    ensures forall i :: 0 <= i < |s| - |r| ==> IsSpace(s[i])
    ensures r == [] || !IsSpace(r[0])
    decreases |s|
  {
    if s != [] && IsSpace(s[0]) then LStrip(s[1..]) else s
  }

  /** `str.rstrip()`. */
  function RStrip(s: string): (r: string)
    ensures |r| <= |s| && r == s[..|r|]
    ensures forall i :: |r| <= i < |s| ==> IsSpace(s[i])
    ensures r == [] || !IsSpace(r[|r| - 1])
    decreases |s|
  {
    if s != [] && IsSpace(s[|s| - 1]) then RStrip(s[..|s| - 1]) else s
  }

  /** The number of whitespace characters `str.lstrip()` removes. */
  function Leading(s: string): (n: nat)
    ensures n <= |s|
  {
    |s| - |LStrip(s)|
  }

  /** `str.strip()`: the part between the leading and the trailing whitespace. */
  function Strip(s: string): (r: string)
    ensures r == [] || (!IsSpace(r[0]) && !IsSpace(r[|r| - 1]))
  {
    RStrip(LStrip(s))
  }

  /** The stripped text is the characters of `s` after its `Leading(s)` leading
      whitespace, and everything after it is whitespace too. */
  lemma StripShape(s: string)
    ensures Leading(s) + |Strip(s)| <= |s|
    ensures forall k :: 0 <= k < |Strip(s)| ==> Strip(s)[k] == s[Leading(s) + k]
    ensures forall k :: 0 <= k < Leading(s) ==> IsSpace(s[k])
    ensures forall k :: Leading(s) + |Strip(s)| <= k < |s| ==> IsSpace(s[k])
  {
    var l := LStrip(s);
    var r := RStrip(l);
    var i := Leading(s);
    forall k | 0 <= k < |r| ensures r[k] == s[i + k] {
      assert r[k] == l[k];
      assert l[k] == s[i + k];
    }
    forall k | i + |r| <= k < |s| ensures IsSpace(s[k]) {
      assert |r| <= k - i < |l|;
      assert IsSpace(l[k - i]);
      assert l == s[i..];
    }
  }

  /** A string without whitespace at either end is its own strip, so stripping twice
      is stripping once. */
  lemma StripTrimmed(s: string)
    requires s == [] || (!IsSpace(s[0]) && !IsSpace(s[|s| - 1]))
    ensures Strip(s) == s
  {
    var l := LStrip(s);
    if |l| < |s| {
      assert IsSpace(s[0]);
    }
    assert l == s;
  }

  lemma StripIdempotent(s: string)
    ensures Strip(Strip(s)) == Strip(s)
  {
    StripTrimmed(Strip(s));
  }

  /** Stripping one more leading space off a stripped string changes nothing. */
  lemma StripLeadingSpace(s: string)
    requires s == [] || (!IsSpace(s[0]) && !IsSpace(s[|s| - 1]))
    ensures Strip(" " + s) == s
  {
    var t := " " + s;
    assert t[1..] == s;
    assert LStrip(t) == LStrip(s);
    StripTrimmed(s);
  }

  /** `str.upper()` and `str.lower()` on one character, for the ASCII letters. */
  function UpperChar(c: char): char
  {
    if 'a' <= c <= 'z' then (c as int - 32) as char else c
  }

  function LowerChar(c: char): char
  {
    if 'A' <= c <= 'Z' then (c as int + 32) as char else c
  }

  function Upper(s: string): (r: string)
    ensures |r| == |s|
    ensures forall i :: 0 <= i < |s| ==> r[i] == UpperChar(s[i])
  {
    seq(|s|, i requires 0 <= i < |s| => UpperChar(s[i]))
  }

  function Lower(s: string): (r: string)
    ensures |r| == |s|
    ensures forall i :: 0 <= i < |s| ==> r[i] == LowerChar(s[i])
  {
    seq(|s|, i requires 0 <= i < |s| => LowerChar(s[i]))
  }

  /** Case mapping leaves no letter of the other case, so it is idempotent, and the
      lower form forgets which case a letter had. */
  lemma CaseMappings(s: string)
    ensures forall i :: 0 <= i < |s| ==> !('a' <= Upper(s)[i] <= 'z') && !('A' <= Lower(s)[i] <= 'Z')
    ensures Upper(Upper(s)) == Upper(s)
    ensures Lower(Lower(s)) == Lower(s)
    ensures Lower(Upper(s)) == Lower(s)
  {
  }

  predicate StartsWith(s: string, prefix: string)
  {
    |prefix| <= |s| && s[..|prefix|] == prefix
  }

  predicate EndsWith(s: string, suffix: string)
  {
    |suffix| <= |s| && s[|s| - |suffix|..] == suffix
  }

  /** `s.find(c)`: the first index holding `c`. */
  function Find(s: string, c: char): (r: Option<nat>)
    ensures r.None? <==> c !in s
    ensures r.Some? ==> r.value < |s| && s[r.value] == c && c !in s[..r.value]
    decreases |s|
  {
    if s == [] then None
    else if s[0] == c then Some(0)
    else
      match Find(s[1..], c)
      case None => None
      case Some(k) =>
        assert s[..k + 1] == [s[0]] + s[1..][..k];
        Some(k + 1)
  }

  /** The first `c` is at `k` when `s[k]` is `c` and none comes before it. */
  lemma FindAt(s: string, c: char, k: nat)
    requires k < |s| && s[k] == c && c !in s[..k]
    ensures Find(s, c) == Some(k)
  {
    var f := Find(s, c).value;
    assert forall j :: 0 <= j < k ==> s[..k][j] == s[j];
    assert forall j :: 0 <= j < f ==> s[..f][j] == s[j];
  }

  /** `s.rfind(c)`: the last index holding `c`. */
  function RFind(s: string, c: char): (r: Option<nat>)
    ensures r.None? <==> c !in s
    ensures r.Some? ==> r.value < |s| && s[r.value] == c && c !in s[r.value + 1..]
    decreases |s|
  {
    if s == [] then None
    else if s[|s| - 1] == c then Some(|s| - 1)
    else
      var front := s[..|s| - 1];
      assert s == front + [s[|s| - 1]];
      match RFind(front, c)
      case None => None
      case Some(k) =>
        assert s[k + 1..] == front[k + 1..] + [s[|s| - 1]];
        Some(k)
  }

  /** The last `c` is at `k` when `s[k]` is `c` and none comes after it. */
  lemma RFindAt(s: string, c: char, k: nat)
    requires k < |s| && s[k] == c && c !in s[k + 1..]
    ensures RFind(s, c) == Some(k)
  {
    var j := RFind(s, c).value;
    assert forall i :: k < i < |s| ==> s[k + 1..][i - k - 1] == s[i];
    assert forall i :: j < i < |s| ==> s[j + 1..][i - j - 1] == s[i];
  }

  /** `s.split(c)[0]`: the text before the first `c`, or all of `s`. */
  function Before(s: string, c: char): (r: string)
    ensures StartsWith(s, r) && c !in r
    ensures |r| < |s| ==> s[|r|] == c
  {
    match Find(s, c)
    case None => s
    case Some(k) => s[..k]
  }

  /** `s.rsplit(c, 1)[0]`: the text before the last `c`, or all of `s`. */
  function BeforeLast(s: string, c: char): (r: string)
    ensures StartsWith(s, r)
    ensures |r| < |s| ==> s[|r|] == c && c !in s[|r| + 1..]
    ensures |r| == |s| ==> c !in s
  {
    match RFind(s, c)
    case None => s
    case Some(k) => s[..k]
  }

  /** `s.split(c)[-1]`: the text after the last `c`, or all of `s`. */
  function AfterLast(s: string, c: char): (r: string)
    ensures EndsWith(s, r) && c !in r
    ensures |r| < |s| ==> s[|s| - |r| - 1] == c
  {
    match RFind(s, c)
    case None => s
    case Some(k) => s[k + 1..]
  }

  /** `pat` occurs in `s` at index `k`. */
  predicate OccursAt(s: string, pat: string, k: int)
  {
    0 <= k && k + |pat| <= |s| && s[k..k + |pat|] == pat
  }

  /** `pat in s` for strings. */
  predicate Contains(s: string, pat: string)
  {
    exists k :: 0 <= k <= |s| && OccursAt(s, pat, k)
  }

  /** Text found in either half is found in the whole. */
  lemma ContainsAppend(a: string, b: string, pat: string)
    ensures Contains(a, pat) ==> Contains(a + b, pat)
    ensures Contains(b, pat) ==> Contains(a + b, pat)
  {
    if Contains(a, pat) {
      var k :| 0 <= k <= |a| && OccursAt(a, pat, k);
      assert (a + b)[k..k + |pat|] == a[k..k + |pat|];
      assert OccursAt(a + b, pat, k);
    }
    if Contains(b, pat) {
      var k :| 0 <= k <= |b| && OccursAt(b, pat, k);
      ShiftOccurrence(a, b, pat, k + |a|);
      assert OccursAt(a + b, pat, k + |a|);
    }
  }

  lemma ContainsSelf(s: string)
    ensures Contains(s, s)
  {
    assert OccursAt(s, s, 0);
  }

  /** Text inside text found in `a` is found in `a`. */
  lemma ContainsTransitive(a: string, b: string, c: string)
    requires Contains(a, b) && Contains(b, c)
    ensures Contains(a, c)
  {
    var i :| 0 <= i <= |a| && OccursAt(a, b, i);
    var j :| 0 <= j <= |b| && OccursAt(b, c, j);
    forall k | 0 <= k < |c| ensures a[i + j + k] == c[k] {
      assert a[i..i + |b|][j + k] == a[i + j + k];
      assert b[j..j + |c|][k] == b[j + k];
    }
    assert a[i + j..i + j + |c|] == c;
    assert OccursAt(a, c, i + j);
  }

  /** A pattern holding a character that `s` lacks does not occur in `s`. */
  lemma AbsentByChar(s: string, pat: string, i: nat)
    requires i < |pat| && pat[i] !in s
    ensures forall k :: !OccursAt(s, pat, k)
  {
    forall k | 0 <= k && k + |pat| <= |s| ensures !OccursAt(s, pat, k) {
      assert s[k..k + |pat|][i] == s[k + i];
    }
  }

  /** The last occurrence of `pat` at an index no greater than `k`. */
  function LastOccurrence(s: string, pat: string, k: int): (r: Option<nat>)
    requires -1 <= k
    ensures r.None? <==> forall j :: 0 <= j <= k ==> !OccursAt(s, pat, j)
    ensures r.Some? ==> (r.value <= k && OccursAt(s, pat, r.value)
      && forall j :: r.value < j <= k ==> !OccursAt(s, pat, j))
    decreases k + 1
  {
    if k < 0 then None
    else if OccursAt(s, pat, k) then Some(k)
    else LastOccurrence(s, pat, k - 1)
  }

  /** `s.rsplit(pat, 1)[1]`: the text after the last occurrence of `pat`; `None`
      where Python raises `IndexError` because `pat` does not occur. */
  function AfterLastOccurrence(s: string, pat: string): (r: Option<string>)
    ensures r.None? <==> forall j :: !OccursAt(s, pat, j)
    ensures r.Some? ==> exists k :: (OccursAt(s, pat, k) && r.value == s[k + |pat|..]
      && forall j :: k < j ==> !OccursAt(s, pat, j))
  {
    match LastOccurrence(s, pat, |s|)
    case None => None
    case Some(k) =>
      assert forall j :: |s| < j ==> !OccursAt(s, pat, j);
      Some(s[k + |pat|..])
  }

  /** Occurrences in `p + t` at or after `|p|` are the occurrences in `t`, shifted. */
  lemma ShiftOccurrence(p: string, t: string, pat: string, k: int)
    requires k >= |p|
    ensures OccursAt(p + t, pat, k) <==> OccursAt(t, pat, k - |p|)
  {
    if k + |pat| <= |p + t| {
      assert (p + t)[k..k + |pat|] == t[k - |p|..k - |p| + |pat|];
    }
  }

  /** Text following a separator that does not occur again later is what
      `rsplit(sep, 1)[1]` returns. */
  lemma AfterSeparator(p: string, pat: string, rest: string)
    requires forall j :: 0 < j ==> !OccursAt(pat + rest, pat, j)
    ensures AfterLastOccurrence(p + pat + rest, pat) == Some(rest)
  {
    var s := p + pat + rest;
    assert s == p + (pat + rest);
    ShiftOccurrence(p, pat + rest, pat, |p|);
    assert OccursAt(pat + rest, pat, 0);
    forall j | |p| < j ensures !OccursAt(s, pat, j) {
      ShiftOccurrence(p, pat + rest, pat, j);
    }
    var r := AfterLastOccurrence(s, pat);
    var k :| OccursAt(s, pat, k) && r.value == s[k + |pat|..] && forall j :: k < j ==> !OccursAt(s, pat, j);
    assert k == |p|;
    assert s[|p| + |pat|..] == rest;
  }

  /** `s.replace(pat, rep)` for a non-empty `pat`: occurrences are replaced from left
      to right without overlapping. */
  function ReplaceAll(s: string, pat: string, rep: string): (r: string)
    requires pat != []
    decreases |s|
  {
    if |s| < |pat| then s
    else if s[..|pat|] == pat then rep + ReplaceAll(s[|pat|..], pat, rep)
    else [s[0]] + ReplaceAll(s[1..], pat, rep)
  }

  /** Without an occurrence there is nothing to replace. */
  lemma {:induction false} ReplaceAbsent(s: string, pat: string, rep: string)
    requires pat != []
    requires forall k :: !OccursAt(s, pat, k)
    ensures ReplaceAll(s, pat, rep) == s
    decreases |s|
  {
    if |s| >= |pat| {
      assert !OccursAt(s, pat, 0);
      forall k ensures !OccursAt(s[1..], pat, k) {
        if OccursAt(s[1..], pat, k) {
          assert s[1..][k..k + |pat|] == s[k + 1..k + 1 + |pat|];
          assert OccursAt(s, pat, k + 1);
        }
      }
      ReplaceAbsent(s[1..], pat, rep);
    }
  }

  /** A leading occurrence is replaced and the scan goes on after it. */
  lemma ReplacePrefix(pat: string, rest: string, rep: string)
    requires pat != []
    ensures ReplaceAll(pat + rest, pat, rep) == rep + ReplaceAll(rest, pat, rep)
  {
    assert (pat + rest)[..|pat|] == pat && (pat + rest)[|pat|..] == rest;
  }

  /** A one-character pattern that does not occur leaves the text unchanged. */
  lemma ReplaceCharAbsent(s: string, c: char, rep: string)
    requires c !in s
    ensures ReplaceAll(s, [c], rep) == s
  {
    forall k ensures !OccursAt(s, [c], k) {
      if 0 <= k < |s| {
        assert s[k] != c;
        assert k + 1 <= |s| ==> s[k..k + 1] == [s[k]];
      }
    }
    ReplaceAbsent(s, [c], rep);
  }

  /** Removing a character (`s.replace(",", "")`) leaves none of it and keeps every
      other character in order. */
  lemma {:induction false} RemoveChar(s: string, c: char)
    ensures c !in ReplaceAll(s, [c], "")
    ensures ReplaceAll(s, [c], "") == Filtered(s, c)
    decreases |s|
  {
    if s != [] {
      RemoveChar(s[1..], c);
      assert s == [s[0]] + s[1..];
    }
  }

  /** The characters of `s` other than `c`, in order. */
  function Filtered(s: string, c: char): (r: string)
    ensures c !in r && |r| <= |s|
    decreases |s|
  {
    if s == [] then [] else (if s[0] == c then [] else [s[0]]) + Filtered(s[1..], c)
  }

  /** `sep.join(parts)`. */
  function Join(sep: string, parts: seq<string>): (r: string)
    decreases |parts|
  {
    if parts == [] then []
    else if |parts| == 1 then parts[0]
    else Join(sep, parts[..|parts| - 1]) + sep + parts[|parts| - 1]
  }

  function TotalLength(parts: seq<string>): nat
    decreases |parts|
  {
    if parts == [] then 0 else TotalLength(parts[..|parts| - 1]) + |parts[|parts| - 1]|
  }

  /** The joined text is the parts with one separator between neighbours: its length
      counts every part and `|parts| - 1` separators, it starts with the first part
      and ends with the last. */
  lemma {:induction false} JoinShape(sep: string, parts: seq<string>)
    requires parts != []
    ensures |Join(sep, parts)| == TotalLength(parts) + (|parts| - 1) * |sep|
    ensures StartsWith(Join(sep, parts), parts[0])
    ensures EndsWith(Join(sep, parts), parts[|parts| - 1])
    decreases |parts|
  {
    if |parts| > 1 {
      var front := parts[..|parts| - 1];
      JoinShape(sep, front);
      assert front[0] == parts[0];
      assert TotalLength(front) == TotalLength(parts) - |parts[|parts| - 1]|;
      var j := Join(sep, front);
      assert (j + sep + parts[|parts| - 1])[..|parts[0]|] == j[..|parts[0]|];
    } else {
      assert TotalLength(parts) == TotalLength(parts[..0]) + |parts[0]| == |parts[0]|;
    }
  }

  lemma JoinAppend(sep: string, parts: seq<string>, last: string)
    requires parts != []
    ensures Join(sep, parts + [last]) == Join(sep, parts) + sep + last
  {
    assert (parts + [last])[..|parts|] == parts;
  }

  predicate IsDigit(c: char)
  {
    '0' <= c <= '9'
  }

  function DigitOf(c: char): nat
    requires IsDigit(c)
  {
    c as int - '0' as int
  }

  /** The digits of `int()`'s argument: one or more decimal digits, single
      underscores allowed between two digits. */
  function DigitsValue(s: string): (r: Option<nat>)
    ensures r.Some? ==> s != [] && IsDigit(s[0]) && IsDigit(s[|s| - 1])
    decreases |s|
  {
    if s == [] || !IsDigit(s[|s| - 1]) then None
    else if |s| == 1 then Some(DigitOf(s[0]))
    else
      var front := s[..|s| - 1];
      var digits := if front[|front| - 1] == '_' then front[..|front| - 1] else front;
      match DigitsValue(digits)
      case None => None
      case Some(v) =>
        assert digits[0] == s[0];
        Some(v * 10 + DigitOf(s[|s| - 1]))
  }

  /** `int(s)` on a string: surrounding whitespace, an optional sign, then digits;
      `None` where Python raises `ValueError`. */
  function ParseInt(s: string): (r: Option<int>)
  {
    var t := Strip(s);
    if t != [] && (t[0] == '+' || t[0] == '-') then
      match DigitsValue(t[1..])
      case None => None
      case Some(v) =>
        var i := if t[0] == '-' then -(v as int) else v as int;
        Some(i)
    else
      match DigitsValue(t)
      case None => None
      case Some(v) => Some(v)
  }

  function DigitChar(d: nat): (c: char)
    requires d < 10
    ensures IsDigit(c) && DigitOf(c) == d
  {
    ('0' as int + d) as char
  }

  /** `str(n)` for a natural number. */
  function Decimal(n: nat): (r: string)
    ensures r != [] && IsDigit(r[0]) && IsDigit(r[|r| - 1])
    decreases n
  {
    if n < 10 then [DigitChar(n)] else Decimal(n / 10) + [DigitChar(n % 10)]
  }

  /** `str(i)` for an integer. */
  function IntToString(i: int): string
  {
    if i < 0 then "-" + Decimal(-i) else Decimal(i)
  }

  lemma {:induction false} DecimalDigits(n: nat)
    ensures DigitsValue(Decimal(n)) == Some(n)
    decreases n
  {
    if n >= 10 {
      DecimalDigits(n / 10);
      var s := Decimal(n);
      assert s[..|s| - 1] == Decimal(n / 10);
    }
  }

  /** `int(str(i)) == i`. */
  lemma ParseIntToString(i: int)
    ensures ParseInt(IntToString(i)) == Some(i)
  {
    if i < 0 {
      ParseNegative(i);
    } else {
      ParseNatural(i);
    }
  }

  lemma ParseNatural(n: nat)
    ensures ParseInt(IntToString(n)) == Some(n)
  {
    var s := Decimal(n);
    StripTrimmed(s);
    DecimalDigits(n);
  }

  lemma ParseNegative(i: int)
    requires i < 0
    ensures ParseInt(IntToString(i)) == Some(i)
  {
    var d := Decimal(-i);
    var s := "-" + d;
    assert s[0] == '-' && s[1..] == d;
    assert s[|s| - 1] == d[|d| - 1];
    StripTrimmed(s);
    DecimalDigits(-i);
  }

  /** `int()` accepts one underscore between two digits. */
  lemma UnderscoreBetweenDigits(s: string)
    requires |s| == 3 && IsDigit(s[0]) && s[1] == '_' && IsDigit(s[2])
    ensures DigitsValue(s) == Some(DigitOf(s[0]) * 10 + DigitOf(s[2]))
  {
    assert s[..2][..1] == [s[0]];
  }

  /** `int()` rejects a doubled, leading or trailing underscore. */
  lemma MisplacedUnderscores(a: char, b: char)
    requires IsDigit(a) && IsDigit(b)
    ensures DigitsValue([a, '_', '_', b]).None?
    ensures DigitsValue(['_', a]).None? && DigitsValue([a, '_']).None?
  {
    assert [a, '_', '_', b][..3][..2] == [a, '_'];
    assert ['_', a][..1] == ['_'];
  }

  /** Python's order on strings: code point by code point, a proper prefix first. */
  predicate StrLeq(a: string, b: string)
    decreases |a|
  {
    a == [] || (b != [] && (a[0] < b[0] || (a[0] == b[0] && StrLeq(a[1..], b[1..]))))
  }

  lemma {:induction false} StrLeqTotal(a: string, b: string)
    ensures StrLeq(a, b) || StrLeq(b, a)
    decreases |a|
  {
    if a != [] && b != [] && a[0] == b[0] {
      StrLeqTotal(a[1..], b[1..]);
    }
  }

  lemma {:induction false} StrLeqTransitive(a: string, b: string, c: string)
    requires StrLeq(a, b) && StrLeq(b, c)
    ensures StrLeq(a, c)
    decreases |a|
  {
    if a != [] && a[0] == b[0] && b[0] == c[0] {
      StrLeqTransitive(a[1..], b[1..], c[1..]);
    }
  }

  lemma {:induction false} StrLeqAntisymmetric(a: string, b: string)
    requires StrLeq(a, b) && StrLeq(b, a)
    ensures a == b
    decreases |a|
  {
    if a != [] {
      StrLeqAntisymmetric(a[1..], b[1..]);
      assert a == [a[0]] + a[1..] && b == [b[0]] + b[1..];
    }
  }

  /** The string order is total and antisymmetric, so the sort under it is unique. */
  lemma StrOrder()
    ensures Sorting.TotalPreorder(StrLeq)
    ensures forall a, b :: StrLeq(a, b) && StrLeq(b, a) ==> a == b
  {
    forall a, b ensures StrLeq(a, b) || StrLeq(b, a) {
      StrLeqTotal(a, b);
    }
    forall a, b, c | StrLeq(a, b) && StrLeq(b, c) ensures StrLeq(a, c) {
      StrLeqTransitive(a, b, c);
    }
    forall a, b | StrLeq(a, b) && StrLeq(b, a) ensures a == b {
      StrLeqAntisymmetric(a, b);
    }
  }

  predicate Distinct<T(==)>(s: seq<T>)
  {
    forall i, j :: 0 <= i < j < |s| ==> s[i] != s[j]
  }

  /** The distinct elements of `s` in order of first appearance, as a dict's keys or
      `set()` fed in order would hold them. */
  function Dedup<T(==)>(s: seq<T>): (r: seq<T>)
    ensures Distinct(r)
    ensures forall i :: 0 <= i < |s| ==> s[i] in r
    ensures forall i :: 0 <= i < |r| ==> r[i] in s
    decreases |s|
  {
    if s == [] then []
    else
      var front := Dedup(s[..|s| - 1]);
      assert forall i :: 0 <= i < |s| - 1 ==> s[i] == s[..|s| - 1][i];
      if s[|s| - 1] in front then front else front + [s[|s| - 1]]
  }

  /** `sorted(set(names))`. */
  function SortedSet(names: seq<string>): (r: seq<string>)
    ensures Sorting.Ascending(r, StrLeq) && Distinct(r)
    ensures forall x :: x in r <==> x in names
  {
    StrOrder();
    var d := Dedup(names);
    var r := Sorting.Sort(d, StrLeq);
    forall x ensures x in r <==> x in d {
      assert x in r <==> x in multiset(r);
      assert x in d <==> x in multiset(d);
    }
    DistinctByMultiset(d, r);
    r
  }

  lemma DistinctByMultiset<T>(d: seq<T>, r: seq<T>)
    requires Distinct(d) && multiset(d) == multiset(r)
    ensures Distinct(r)
  {
    forall i, j | 0 <= i < j < |r| ensures r[i] != r[j] {
      if r[i] == r[j] {
        var x := r[i];
        assert multiset(r)[x] >= 2 by {
          assert r == r[..i] + [x] + r[i + 1..j] + [x] + r[j + 1..];
        }
        CountAtMostOne(d, x);
      }
    }
  }

  lemma {:induction false} CountAtMostOne<T>(d: seq<T>, x: T)
    requires Distinct(d)
    ensures multiset(d)[x] <= 1
    ensures x in d ==> multiset(d)[x] == 1
    decreases |d|
  {
    if d != [] {
      var front := d[..|d| - 1];
      assert d == front + [d[|d| - 1]];
      CountAtMostOne(front, x);
      if x == d[|d| - 1] {
        assert x !in front;
      }
    }
  }

  /** `sorted(set(names))` depends only on which names occur, not on their order or
      repetition. */
  lemma SortedSetBySet(a: seq<string>, b: seq<string>)
    requires forall x :: x in a <==> x in b
    ensures SortedSet(a) == SortedSet(b)
  {
    StrOrder();
    var ra := SortedSet(a);
    var rb := SortedSet(b);
    forall x ensures multiset(ra)[x] == multiset(rb)[x] {
      CountAtMostOne(ra, x);
      CountAtMostOne(rb, x);
    }
    assert multiset(ra) == multiset(rb);
    Sorting.AscendingPairs(ra, StrLeq);
    Sorting.AscendingPairs(rb, StrLeq);
    Sorting.AscendingUnique(ra, rb, StrLeq);
  }
}
