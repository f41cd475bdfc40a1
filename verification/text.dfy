/** Text primitives the application relies on: the `cleanit` sanitiser,
    Python's `%d` formatting of integers, and Python 2's `int()` applied to
    the text of a form field. */
module Text {

  import opened Replies

  predicate IsDigit(c: char) { '0' <= c <= '9' }

  /** The character class `[a-zA-Z0-9]` kept by `cleanit`. */
  predicate IsAlnum(c: char) { 'a' <= c <= 'z' || 'A' <= c <= 'Z' || IsDigit(c) }

  predicate AllAlnum(s: string) { forall i :: 0 <= i < |s| ==> IsAlnum(s[i]) }

  predicate AllDigits(s: string) { forall i :: 0 <= i < |s| ==> IsDigit(s[i]) }

  /** `a` occurs in `b` with its characters in the same relative order. */
  predicate IsSubsequence(a: string, b: string)
    decreases |b|
  {
    |a| == 0 || (|b| > 0 && ((a[0] == b[0] && IsSubsequence(a[1..], b[1..])) || IsSubsequence(a, b[1..])))
  }

  /** `cleanit(word)`: `re.sub("[^a-zA-Z0-9]", "", word)`. */
  function Clean(s: string): (r: string)
    ensures AllAlnum(r)
    ensures |r| <= |s|
  {
    if |s| == 0 then "" else (if IsAlnum(s[0]) then [s[0]] else []) + Clean(s[1..])
  }

  lemma {:induction false} CleanKeepsAlnumText(s: string)
    requires AllAlnum(s)
    ensures Clean(s) == s
    decreases |s|
  {
    if |s| > 0 {
      assert AllAlnum(s[1..]) by {
        forall i | 0 <= i < |s[1..]| ensures IsAlnum(s[1..][i]) { assert s[1..][i] == s[i + 1]; }
      }
      CleanKeepsAlnumText(s[1..]);
      assert s == [s[0]] + s[1..];
    }
  }

  /** `cleanit` changes a word exactly when the word has a character outside `[a-zA-Z0-9]`. */
  lemma CleanFixesExactlyAlnum(s: string)
    ensures Clean(s) == s <==> AllAlnum(s)
  {
    if AllAlnum(s) { CleanKeepsAlnumText(s); }
  }

  /** Sanitising twice is the same as sanitising once. */
  lemma CleanIdempotent(s: string)
    ensures Clean(Clean(s)) == Clean(s)
  {
    CleanKeepsAlnumText(Clean(s));
  }

  /** The surviving characters keep their relative order. */
  lemma {:induction false} CleanIsSubsequence(s: string)
    ensures IsSubsequence(Clean(s), s)
    decreases |s|
  {
    if |s| > 0 {
      CleanIsSubsequence(s[1..]);
      if IsAlnum(s[0]) {
        assert Clean(s) == [s[0]] + Clean(s[1..]);
        assert Clean(s)[1..] == Clean(s[1..]);
      } else {
        assert Clean(s) == Clean(s[1..]);
      }
    }
  }

  /** Every alphanumeric character survives as often as it occurs; nothing else survives. */
  lemma {:induction false} CleanCounts(s: string, c: char)
    ensures multiset(Clean(s))[c] == if IsAlnum(c) then multiset(s)[c] else 0
    decreases |s|
  {
    if |s| > 0 {
      CleanCounts(s[1..], c);
      assert s == [s[0]] + s[1..];
      assert multiset(s) == multiset([s[0]]) + multiset(s[1..]);
      var head: string := if IsAlnum(s[0]) then [s[0]] else [];
      assert Clean(s) == head + Clean(s[1..]);
      assert multiset(Clean(s)) == multiset(head) + multiset(Clean(s[1..]));
    }
  }

  /** Sanitising distributes over concatenation. */
  lemma {:induction false} CleanAppend(a: string, b: string)
    ensures Clean(a + b) == Clean(a) + Clean(b)
    decreases |a|
  {
    if |a| > 0 {
      assert (a + b)[0] == a[0];
      assert (a + b)[1..] == a[1..] + b;
      CleanAppend(a[1..], b);
    } else {
      assert a + b == b;
    }
  }

  // ---------------------------------------------------------------------
  // Decimal digits and `%d`

  function DigitChar(d: nat): (c: char)
    requires d < 10
    ensures IsDigit(c) && (c as int) - ('0' as int) == d
  {
    (('0' as int) + d) as char
  }

  function DigitValue(c: char): nat
    requires IsDigit(c)
  {
    (c as int) - ('0' as int)
  }

  /** The decimal numeral of `n`, without leading zeros. */
  function NatToString(n: nat): (r: string)
    ensures |r| >= 1 && AllDigits(r)
    ensures |r| > 1 ==> r[0] != '0'
    decreases n
  {
    if n < 10 then [DigitChar(n)] else NatToString(n / 10) + [DigitChar(n % 10)]
  }

  /** Python's `"%d" % n`. */
  function IntToString(n: int): (r: string)
    ensures |r| >= 1
    ensures n >= 0 ==> AllDigits(r)
    ensures n < 0 ==> r[0] == '-' && AllDigits(r[1..])
    ensures n >= 0 && |r| > 1 ==> r[0] != '0'
  {
    if n < 0 then "-" + NatToString(-n) else NatToString(n)
  }

  /** The value of a string of decimal digits (empty string: 0). */
  function DigitsValue(s: string): nat
    requires AllDigits(s)
  {
    if |s| == 0 then 0 else DigitsValue(s[..|s| - 1]) * 10 + DigitValue(s[|s| - 1])
  }

  /** Reading back a numeral gives the number it was printed from. */
  lemma {:induction false} DigitsValueOfNatToString(n: nat)
    ensures DigitsValue(NatToString(n)) == n
    decreases n
  {
    if n >= 10 {
      var s := NatToString(n);
      assert s == NatToString(n / 10) + [DigitChar(n % 10)];
      assert s[..|s| - 1] == NatToString(n / 10);
      DigitsValueOfNatToString(n / 10);
    }
  }

  lemma NatToStringInjective(a: nat, b: nat)
    requires NatToString(a) == NatToString(b)
    ensures a == b
  {
    DigitsValueOfNatToString(a);
    DigitsValueOfNatToString(b);
  }

  /** Distinct numbers print differently under `%d`. */
  lemma IntToStringInjective(a: int, b: int)
    requires IntToString(a) == IntToString(b)
    ensures a == b
  {
    if a < 0 && b < 0 {
      assert IntToString(a)[1..] == NatToString(-a);
      assert IntToString(b)[1..] == NatToString(-b);
      NatToStringInjective(-a, -b);
    } else if a >= 0 && b >= 0 {
      NatToStringInjective(a, b);
    }
  }

  // ---------------------------------------------------------------------
  // Python 2 `int()` on the text of a form field

  /** C `isspace` in the "C" locale: space, tab, newline, vertical tab, form feed, carriage return. */
  predicate IsSpace(c: char) { c == ' ' || 9 <= c as int <= 13 }

  function DropSpaces(s: string): (r: string)
    ensures |r| <= |s| && r == s[|s| - |r|..]
    ensures |r| > 0 ==> !IsSpace(r[0])
    ensures (forall i :: 0 <= i < |s| - |r| ==> IsSpace(s[i]))
  {
    if |s| > 0 && IsSpace(s[0]) then DropSpaces(s[1..]) else s
  }

  /** Length of the longest prefix made of decimal digits. */
  function DigitRun(s: string): (n: nat)
    ensures n <= |s| && AllDigits(s[..n])
    ensures n < |s| ==> !IsDigit(s[n])
  {
    if |s| > 0 && IsDigit(s[0]) then
      var k := DigitRun(s[1..]);
      assert s[..k + 1] == [s[0]] + s[1..][..k];
      k + 1
    else 0
  }

  predicate AllSpaces(s: string) { forall i :: 0 <= i < |s| ==> IsSpace(s[i]) }

  /** Digits followed by nothing but whitespace: their value, otherwise `None`. */
  function ParseUnsigned(u: string): (r: Option<nat>)
    ensures r.Some? ==> |u| > 0 && IsDigit(u[0])
  {
    var n := DigitRun(u);
    if n == 0 || !AllSpaces(u[n..]) then None else Some(DigitsValue(u[..n]))
  }

  function Negated(o: Option<nat>): Option<int> {
    match o
    case None => None
    case Some(v) => Some(-(v as int))
  }

  /** `int(text)`: leading whitespace, an optional sign, whitespace again (Python 2's
      `PyOS_strtol` skips it before and after the sign), one or more digits, and
      trailing whitespace only. `None` is the `ValueError` the callers catch. */
  function ParseInt(s: string): (r: Option<int>)
    ensures |s| == 0 ==> r.None?
    ensures AllSpaces(s) ==> r.None?
  {
    var t := DropSpaces(s);
    if |t| > 0 && t[0] == '-' then
      Negated(ParseUnsigned(DropSpaces(t[1..])))
    else if |t| > 0 && t[0] == '+' then
      match ParseUnsigned(DropSpaces(t[1..]))
      case None => None
      case Some(v) => Some(v)
    else
      match ParseUnsigned(t)
      case None => None
      case Some(v) => Some(v)
  }

  lemma ParseUnsignedOfDigits(d: string)
    requires |d| >= 1 && AllDigits(d)
    ensures ParseUnsigned(d) == Some(DigitsValue(d))
  {
    DigitRunOfDigits(d);
    assert d[..|d|] == d;
    assert d[|d|..] == [];
  }

  /** A bare run of digits is read as its value. */
  lemma ParseIntOfDigits(d: string)
    requires |d| >= 1 && AllDigits(d)
    ensures ParseInt(d) == Some(DigitsValue(d))
  {
    ParseUnsignedOfDigits(d);
    assert !IsSpace(d[0]) && d[0] != '+' && d[0] != '-';
    assert DropSpaces(d) == d;
  }

  lemma DropSpacesOfNonSpace(s: string)
    requires |s| > 0 && !IsSpace(s[0])
    ensures DropSpaces(s) == s
  {
  }

  lemma ParseIntOfMinus(m: string)
    requires |m| >= 1 && m[0] == '-' && DropSpaces(m) == m
    ensures ParseInt(m) == Negated(ParseUnsigned(DropSpaces(m[1..])))
  {
  }

  /** A minus sign followed by digits is read as the negated value. */
  lemma {:induction false} ParseIntOfNegatedDigits(d: string, v: int)
    requires |d| >= 1 && AllDigits(d) && v == DigitsValue(d)
    ensures ParseInt("-" + d) == Some(-v)
  {
    var m := "-" + d;
    ParseUnsignedOfDigits(d);
    DropSpacesOfNonSpace(d);
    assert m[0] == '-' && m[1..] == d;
    DropSpacesOfNonSpace(m);
    ParseIntOfMinus(m);
  }

  /** The numeral `%d` prints is read back by `int()` as the same number. */
  lemma ParseIntOfIntToString(n: int)
    ensures ParseInt(IntToString(n)) == Some(n)
  {
    if n < 0 {
      DigitsValueOfNatToString(-n);
      ParseIntOfNegatedDigits(NatToString(-n), -n);
    } else {
      DigitsValueOfNatToString(n);
      ParseIntOfDigits(NatToString(n));
    }
  }

  lemma {:induction false} DigitRunOfDigits(s: string)
    requires AllDigits(s)
    ensures DigitRun(s) == |s|
    decreases |s|
  {
    if |s| > 0 {
      assert AllDigits(s[1..]) by {
        forall i | 0 <= i < |s[1..]| ensures IsDigit(s[1..][i]) { assert s[1..][i] == s[i + 1]; }
      }
      DigitRunOfDigits(s[1..]);
    }
  }

  // ---------------------------------------------------------------------
  // Splitting at a separator

  /** A separator that occurs in neither left part splits both strings at the same place. */
  lemma SplitAtSeparator(x: string, y: string, x': string, y': string, sep: char)
    requires sep !in x && sep !in x'
    requires x + [sep] + y == x' + [sep] + y'
    ensures x == x' && y == y'
  {
    var s := x + [sep] + y;
    FirstIndexAfter(x, y, sep);
    FirstIndexAfter(x', y', sep);
    assert x == s[..|x|] == x';
    assert y == s[|x| + 1..] == y';
  }

  /** Position of the first `sep` in `s` (`|s|` when there is none). */
  function FirstIndex(s: string, sep: char): (k: nat)
    ensures k <= |s|
  {
    if |s| == 0 || s[0] == sep then 0 else 1 + FirstIndex(s[1..], sep)
  }

  lemma {:induction false} FirstIndexAfter(x: string, y: string, sep: char)
    requires sep !in x
    ensures FirstIndex(x + [sep] + y, sep) == |x|
    decreases |x|
  {
    var s := x + [sep] + y;
    if |x| == 0 {
      assert s[0] == sep;
    } else {
      assert s[0] == x[0];
      assert s[1..] == x[1..] + [sep] + y;
      FirstIndexAfter(x[1..], y, sep);
    }
  }

  lemma AlnumHasNo(s: string, c: char)
    requires AllAlnum(s) && !IsAlnum(c)
    ensures c !in s
  {
  }

  lemma DigitsHaveNo(s: string, c: char)
    requires AllDigits(s) && !IsDigit(c)
    ensures c !in s
  {
  }
}
