/** The parts of Go's `strings` and `strconv` packages the core relies on.
    Strings are sequences of code points; ordering code points is the same as
    ordering the UTF-8 bytes Go compares. */
module GoStrings {
  import opened Wrappers
  import Sorting

  const NUL: char := 0 as char

  // ---------------------------------------------------------------- ordering

  /** Go's `a < b` on strings: lexicographic, a proper prefix is smaller. */
  predicate StrLess(a: string, b: string) {
    |b| > 0 && (|a| == 0 || a[0] < b[0] || (a[0] == b[0] && StrLess(a[1..], b[1..])))
  }

  predicate StrLe(a: string, b: string) {
    a == b || StrLess(a, b)
  }

  lemma StrLessIrreflexive(a: string)
    ensures !StrLess(a, a)
  {
    if |a| > 0 { StrLessIrreflexive(a[1..]); }
  }

  lemma StrLessTransitive(a: string, b: string, c: string)
    requires StrLess(a, b) && StrLess(b, c)
    ensures StrLess(a, c)
  {
    if |a| > 0 && a[0] == b[0] && b[0] == c[0] {
      StrLessTransitive(a[1..], b[1..], c[1..]);
    }
  }

  lemma StrLessTrichotomy(a: string, b: string)
    ensures a == b || StrLess(a, b) || StrLess(b, a)
  {
    if |a| > 0 && |b| > 0 && a[0] == b[0] {
      StrLessTrichotomy(a[1..], b[1..]);
      if a[1..] == b[1..] {
        assert a == [a[0]] + a[1..] && b == [b[0]] + b[1..];
      }
    }
  }

  lemma StrLessAsymmetric(a: string, b: string)
    requires StrLess(a, b)
    ensures !StrLess(b, a)
  {
    if StrLess(b, a) {
      StrLessTransitive(a, b, a);
      StrLessIrreflexive(a);
    }
  }

  /** The order `sort.Strings` uses, as a function value. */
  function StringOrder(): (string, string) -> bool {
    (a: string, b: string) => StrLe(a, b)
  }

  lemma StringOrderIsTotal()
    ensures Sorting.TotalPreorder(StringOrder())
    ensures Sorting.Antisymmetric(StringOrder())
  {
    forall a: string, b: string ensures StrLe(a, b) || StrLe(b, a) {
      StrLessTrichotomy(a, b);
    }
    forall a: string, b: string, c: string | StrLe(a, b) && StrLe(b, c) ensures StrLe(a, c) {
      if a != b && b != c { StrLessTransitive(a, b, c); }
    }
    forall a: string, b: string | StrLe(a, b) && StrLe(b, a) ensures a == b {
      if a != b { StrLessAsymmetric(a, b); }
    }
  }

  /** `sort.Strings`. */
  function SortStrings(xs: seq<string>): (r: seq<string>)
    ensures Sorting.SortedBy(r, StringOrder())
    ensures multiset(r) == multiset(xs)
  {
    StringOrderIsTotal();
    Sorting.InsertionSort(xs, StringOrder())
  }

  /** `sort.StringsAreSorted`: no element is smaller than its predecessor. */
  predicate StringsAreSorted(xs: seq<string>)
  {
    forall i :: 0 < i < |xs| ==> !StrLess(xs[i], xs[i - 1])
  }

  lemma StringsAreSortedMeansSorted(xs: seq<string>)
    ensures StringsAreSorted(xs) <==> Sorting.SortedBy(xs, StringOrder())
  {
    if StringsAreSorted(xs) {
      forall i, j | 0 <= i < j < |xs| ensures StrLe(xs[i], xs[j]) {
        AdjacentOrderSpreads(xs, i, j);
      }
    }
    if Sorting.SortedBy(xs, StringOrder()) {
      forall i | 0 < i < |xs| ensures !StrLess(xs[i], xs[i - 1]) {
        assert StrLe(xs[i - 1], xs[i]);
        if xs[i - 1] != xs[i] { StrLessAsymmetric(xs[i - 1], xs[i]); }
        else { StrLessIrreflexive(xs[i]); }
      }
    }
  }

  lemma {:induction false} AdjacentOrderSpreads(xs: seq<string>, i: int, j: int)
    requires StringsAreSorted(xs) && 0 <= i < j < |xs|
    ensures StrLe(xs[i], xs[j])
    decreases j - i
  {
    StrLessTrichotomy(xs[j - 1], xs[j]);
    if i < j - 1 {
      AdjacentOrderSpreads(xs, i, j - 1);
      if xs[i] != xs[j - 1] && xs[j - 1] != xs[j] { StrLessTransitive(xs[i], xs[j - 1], xs[j]); }
    }
  }

  // ------------------------------------------------------- splitting, joining

  /** `strings.Split(s, sep)` for a one-character separator. */
  function Split(s: string, sep: char): (r: seq<string>)
    ensures |r| >= 1
    ensures forall i :: 0 <= i < |r| ==> sep !in r[i]
  {
    if |s| == 0 then [""]
    else if s[0] == sep then [""] + Split(s[1..], sep)
    else
      var rest := Split(s[1..], sep);
      [[s[0]] + rest[0]] + rest[1..]
  }

  /** `strings.Join(xs, sep)`. */
  function Join(xs: seq<string>, sep: string): (s: string)
  {
    if |xs| == 0 then ""
    else if |xs| == 1 then xs[0]
    else xs[0] + sep + Join(xs[1..], sep)
  }

  /** Splitting and joining with the same separator gives the input back. */
  lemma {:induction false} JoinSplit(s: string, sep: char)
    ensures Join(Split(s, sep), [sep]) == s
  {
    if |s| > 0 {
      JoinSplit(s[1..], sep);
      var rest := Split(s[1..], sep);
      if s[0] != sep && |rest| > 1 {
        assert Join(rest, [sep]) == rest[0] + [sep] + Join(rest[1..], [sep]);
      }
    }
  }

  /** A string without the separator is a single piece. */
  lemma {:induction false} SplitWithoutSeparator(s: string, sep: char)
    requires sep !in s
    ensures Split(s, sep) == [s]
  {
    if |s| > 0 {
      SplitWithoutSeparator(s[1..], sep);
      assert s == [s[0]] + s[1..];
    }
  }

  /** The text before the first separator is the first piece; the rest splits on its own. */
  lemma {:induction false} SplitAtFirst(a: string, sep: char, rest: string)
    requires sep !in a
    ensures Split(a + [sep] + rest, sep) == [a] + Split(rest, sep)
  {
    var s := a + [sep] + rest;
    if |a| == 0 {
      assert s[1..] == rest;
    } else {
      assert s[1..] == a[1..] + [sep] + rest;
      SplitAtFirst(a[1..], sep, rest);
      assert a == [a[0]] + a[1..];
    }
  }

  /** Joining pieces that do not contain the separator and splitting again gives the
      pieces back. */
  lemma {:induction false} SplitJoin(xs: seq<string>, sep: char)
    requires |xs| >= 1
    requires forall i :: 0 <= i < |xs| ==> sep !in xs[i]
    ensures Split(Join(xs, [sep]), sep) == xs
  {
    if |xs| == 1 {
      SplitWithoutSeparator(xs[0], sep);
    } else {
      SplitJoin(xs[1..], sep);
      SplitAtFirst(xs[0], sep, Join(xs[1..], [sep]));
      assert xs == [xs[0]] + xs[1..];
    }
  }

  /** `strings.SplitN(s, [c], 2)`: `None` when `c` does not occur (a one-piece result),
      otherwise the parts before and after the first `c`. */
  function Cut(s: string, c: char): (r: Option<(string, string)>)
    ensures r.None? <==> c !in s
    ensures r.Some? ==> s == r.value.0 + [c] + r.value.1 && c !in r.value.0
  {
    if |s| == 0 then None
    else if s[0] == c then Some(("", s[1..]))
    else match Cut(s[1..], c)
      case None => None
      case Some((a, b)) =>
        assert s == [s[0]] + s[1..];
        Some(([s[0]] + a, b))
  }

  /** Cutting at the first `c` finds it right after a prefix that does not contain `c`. */
  lemma {:induction false} CutAt(a: string, c: char, b: string)
    requires c !in a
    ensures Cut(a + [c] + b, c) == Some((a, b))
  {
    if |a| > 0 {
      CutAt(a[1..], c, b);
      assert (a + [c] + b)[1..] == a[1..] + [c] + b;
      assert a == [a[0]] + a[1..];
    }
  }

  // --------------------------------------------------------------- trimming

  /** The single code points `unicode.IsSpace` accepts, besides the range U+2000..U+200A. */
  const SpaceChars: set<char> := {' ', '\t', '\n', '\r', '\U{000B}', '\U{000C}',
    '\U{0085}', '\U{00A0}', '\U{1680}', '\U{2028}', '\U{2029}', '\U{202F}', '\U{205F}', '\U{3000}'}

  /** `unicode.IsSpace`, the predicate `strings.TrimSpace` trims by. */
  predicate IsSpace(c: char) {
    c in SpaceChars || ('\U{2000}' <= c <= '\U{200A}')
  }

  /** The end of the run of spaces that starts at `i`: the first index at or after `i`
      that is not a space, or `|s|`. */
  function SpaceRunEnd(s: string, i: nat): (k: nat)
    requires i <= |s|
    ensures i <= k <= |s|
    ensures k < |s| ==> !IsSpace(s[k])
    ensures forall j :: i <= j < k ==> IsSpace(s[j])
    decreases |s| - i
  {
    if i < |s| && IsSpace(s[i]) then SpaceRunEnd(s, i + 1) else i
  }

  /** The start of the run of spaces that ends at `j`, looking no further back than `lo`. */
  function SpaceRunStart(s: string, lo: nat, j: nat): (k: nat)
    requires lo <= j <= |s|
    ensures lo <= k <= j
    ensures k > lo ==> !IsSpace(s[k - 1])
    ensures forall m :: k <= m < j ==> IsSpace(s[m])
    decreases j
  {
    if j > lo && IsSpace(s[j - 1]) then SpaceRunStart(s, lo, j - 1) else j
  }

  /** Where the result of `TrimSpace` starts in its argument. */
  function TrimStart(s: string): (k: nat)
    ensures k <= |s| && (k < |s| ==> !IsSpace(s[k]))
    ensures forall j :: 0 <= j < k ==> IsSpace(s[j])
  {
    SpaceRunEnd(s, 0)
  }

  /** Where the result of `TrimSpace` ends in its argument. */
  function TrimStop(s: string): (e: nat)
    ensures TrimStart(s) <= e <= |s| && (e > TrimStart(s) ==> !IsSpace(s[e - 1]))
    ensures forall m :: e <= m < |s| ==> IsSpace(s[m])
  {
    SpaceRunStart(s, TrimStart(s), |s|)
  }

  /** `strings.TrimSpace`: the leading spaces are skipped, then the trailing spaces of
      what is left; the result neither starts nor ends with a space. */
  function TrimSpace(s: string): (r: string)
    ensures |r| <= |s|
    ensures |r| > 0 ==> !IsSpace(r[0]) && !IsSpace(r[|r| - 1])
  {
    s[TrimStart(s)..TrimStop(s)]
  }

  /** `TrimSpace` keeps an infix of its argument and cuts off only spaces. */
  lemma TrimSpaceIsInfix(s: string)
    ensures var k, e := TrimStart(s), TrimStop(s);
      && k <= e <= |s| && TrimSpace(s) == s[k..e]
      && (forall j :: 0 <= j < k ==> IsSpace(s[j]))
      && (forall j :: e <= j < |s| ==> IsSpace(s[j]))
  {
  }

  /** Neither starts nor ends with a space: what `TrimSpace` returns. */
  predicate Trimmed(s: string) {
    |s| > 0 ==> !IsSpace(s[0]) && !IsSpace(s[|s| - 1])
  }

  /** `TrimSpace` adds no character its argument does not hold. */
  lemma TrimSpaceKeepsOut(s: string, c: char)
    requires c !in s
    ensures c !in TrimSpace(s)
  {
    TrimSpaceIsInfix(s);
    forall i | 0 <= i < |TrimSpace(s)| ensures TrimSpace(s)[i] != c {
      assert TrimSpace(s)[i] == s[TrimStart(s) + i];
    }
  }

  /** A string with no space at either end is its own `TrimSpace`. */
  lemma TrimSpaceOfTrimmed(s: string)
    requires Trimmed(s)
    ensures TrimSpace(s) == s
  {
    assert TrimStart(s) == 0;
    assert TrimStop(s) == |s|;
  }

  /** Trimming twice is trimming once. */
  lemma TrimSpaceIdempotent(s: string)
    ensures TrimSpace(TrimSpace(s)) == TrimSpace(s)
  {
    TrimSpaceOfTrimmed(TrimSpace(s));
  }

  // --------------------------------------------------------------- strconv

  const MinInt64: int := -0x8000_0000_0000_0000
  const MaxInt64: int := 0x7FFF_FFFF_FFFF_FFFF

  predicate IsDigit(c: char) { '0' <= c <= '9' }

  /** One or more decimal digits and nothing else. */
  predicate AllDigits(ds: string) {
    |ds| > 0 && forall i :: 0 <= i < |ds| ==> IsDigit(ds[i])
  }

  /** The value of a non-empty run of decimal digits; `None` if it is empty or holds
      anything but a digit. */
  function DecimalValue(ds: string): (r: Option<int>)
    ensures r.Some? <==> AllDigits(ds)
    ensures r.Some? ==> r.value >= 0
  {
    if |ds| == 0 || !IsDigit(ds[|ds| - 1]) then None
    else
      var d := ds[|ds| - 1] as int - '0' as int;
      if |ds| == 1 then Some(d)
      else match DecimalValue(ds[..|ds| - 1])
        case None => None
        case Some(n) => Some(n * 10 + d)
  }

  /** `strconv.ParseInt(s, 10, 64)`: an optional sign, then one or more decimal digits
      (no underscores, no base prefix), the value within the signed 64-bit range. */
  function ParseInt64(s: string): (r: Option<int>)
    ensures r.Some? ==> MinInt64 <= r.value <= MaxInt64
    ensures r.Some? ==> |s| > 0 && (IsDigit(s[0]) || s[0] == '+' || s[0] == '-')
  {
    if |s| == 0 then None
    else
      var negative := s[0] == '-';
      var digits := if s[0] == '+' || s[0] == '-' then s[1..] else s;
      match DecimalValue(digits)
      case None => None
      case Some(n) =>
        var value := if negative then -n else n;
        if MinInt64 <= value <= MaxInt64 then Some(value) else None
  }

  /** Where the digits of an integer's text start: after a leading `+` or `-`, if any. */
  function DigitsStart(s: string): (k: nat)
    ensures k <= |s|
  {
    if |s| > 0 && (s[0] == '+' || s[0] == '-') then 1 else 0
  }

  /** `ParseInt64` accepts exactly an optional sign followed by one or more digits whose
      value, negated after a `-`, lies in the signed 64-bit range, and yields that value. */
  lemma ParseInt64Accepts(s: string)
    ensures ParseInt64(s).Some? <==>
      && |s| > 0 && AllDigits(s[DigitsStart(s)..])
      && var n := DecimalValue(s[DigitsStart(s)..]).value;
         MinInt64 <= (if s[0] == '-' then -n else n) <= MaxInt64
    ensures ParseInt64(s).Some? ==>
      var n := DecimalValue(s[DigitsStart(s)..]).value;
      ParseInt64(s).value == if s[0] == '-' then -n else n
  {
    if |s| > 0 {
      assert s[DigitsStart(s)..] == if s[0] == '+' || s[0] == '-' then s[1..] else s;
    }
  }

  /** The character of a decimal digit. */
  function DigitChar(d: nat): (c: char)
    requires d < 10
    ensures IsDigit(c) && c as int - '0' as int == d
  {
    ('0' as int + d) as char
  }

  /** The decimal digits of `n`, most significant first, with no leading zero. */
  function FormatDecimal(n: nat): (ds: string)
    ensures AllDigits(ds)
    ensures |ds| > 1 ==> ds[0] != '0'
  {
    if n < 10 then [DigitChar(n)] else FormatDecimal(n / 10) + [DigitChar(n % 10)]
  }

  /** `strconv.FormatInt(n, 10)`: a `-` for a negative number, then its digits. */
  function FormatInt64(n: int): (s: string) {
    if n < 0 then "-" + FormatDecimal(-n) else FormatDecimal(n)
  }

  lemma {:induction false} DecimalValueOfFormat(n: nat)
    ensures DecimalValue(FormatDecimal(n)) == Some(n)
    decreases n
  {
    if n >= 10 {
      var ds := FormatDecimal(n);
      DecimalValueOfFormat(n / 10);
      assert ds[..|ds| - 1] == FormatDecimal(n / 10);
    }
  }

  /** Parsing an int64's text gives the number back. */
  lemma ParseFormatInt64(n: int)
    requires MinInt64 <= n <= MaxInt64
    ensures ParseInt64(FormatInt64(n)) == Some(n)
  {
    if n < 0 {
      DecimalValueOfFormat(-n);
      assert FormatInt64(n)[1..] == FormatDecimal(-n);
    } else {
      DecimalValueOfFormat(n);
    }
  }

  /** Digits that do not start with a superfluous zero have a positive value unless they
      are the single digit `0`. */
  lemma {:induction false} LeadingDigitValue(ds: string)
    requires AllDigits(ds) && ds[0] != '0'
    ensures DecimalValue(ds).value >= 1
    decreases |ds|
  {
    if |ds| > 1 {
      var pre := ds[..|ds| - 1];
      assert pre[0] == ds[0];
      LeadingDigitValue(pre);
    }
  }

  /** Formatting the value of digits with no leading zero gives the digits back. */
  lemma {:induction false} FormatDecimalValue(ds: string)
    requires AllDigits(ds) && (|ds| > 1 ==> ds[0] != '0')
    ensures FormatDecimal(DecimalValue(ds).value) == ds
    decreases |ds|
  {
    var n := DecimalValue(ds).value;
    if |ds| > 1 {
      var pre := ds[..|ds| - 1];
      assert pre[0] == ds[0];
      assert AllDigits(pre);
      LeadingDigitValue(pre);
      FormatDecimalValue(pre);
      assert n / 10 == DecimalValue(pre).value;
      assert ds == pre + [ds[|ds| - 1]];
    }
  }

  /** `strconv.ParseBool`. */
  function ParseBool(s: string): (r: Option<bool>)
    ensures r == Some(true) <==> s in {"1", "t", "T", "TRUE", "true", "True"}
    ensures r == Some(false) <==> s in {"0", "f", "F", "FALSE", "false", "False"}
  {
    if s in {"1", "t", "T", "TRUE", "true", "True"} then Some(true)
    else if s in {"0", "f", "F", "FALSE", "false", "False"} then Some(false)
    else None
  }

  /** `fmt.Sprintf("%t", b)`. */
  function FormatBool(b: bool): (s: string) {
    if b then "true" else "false"
  }

  lemma ParseFormatBool(b: bool)
    ensures ParseBool(FormatBool(b)) == Some(b)
  {
  }
}
