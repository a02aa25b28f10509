/**
 The Python string primitives the converter relies on: `str.split()`,
 substring tests (`key in line`), `str.find`, slicing with Python's
 negative/clamping index rules, `int(...)` on a token and `str(...)` of an
 integer.
 */
module Text {
  import opened Results

  /** The characters `str.split()` and `int()` treat as whitespace (the ASCII
      ones plus the C1/Latin-1 separators Python also recognises). */
  predicate IsSpace(c: char) {
    || c == ' ' || c == '\t' || c == '\n' || c == '\r'
    || c == '\U{0B}' || c == '\U{0C}'
    || ('\U{1C}' <= c <= '\U{1F}')
    || c == '\U{85}' || c == '\U{A0}'
  }

  /** A token produced by `split()`: non-empty, with no whitespace. */
  predicate IsWord(t: string) {
    |t| > 0 && forall i :: 0 <= i < |t| ==> !IsSpace(t[i])
  }

  // ---------------------------------------------------------------------------
  // str.split()
  // ---------------------------------------------------------------------------

  /** Length of the run of non-whitespace characters at the front of `s`. */
  function WordLength(s: string): (n: nat)
    ensures n <= |s|
    ensures forall i :: 0 <= i < n ==> !IsSpace(s[i])
    ensures n == |s| || IsSpace(s[n])
  {
    if s == [] || IsSpace(s[0]) then 0 else 1 + WordLength(s[1..])
  }

  /** Python's `split()` with no argument: the maximal runs of non-whitespace
      characters, in order. */
  function Tokens(s: string): (r: seq<string>)
    ensures forall i :: 0 <= i < |r| ==> IsWord(r[i])
    decreases |s|
  {
    if s == [] then []
    else if IsSpace(s[0]) then Tokens(s[1..])
    else
      var w := WordLength(s);
      [s[..w]] + Tokens(s[w..])
  }

  /** The words joined with one space between neighbours. */
  function Join(ts: seq<string>): string
  {
    if |ts| == 0 then ""
    else if |ts| == 1 then ts[0]
    else ts[0] + " " + Join(ts[1..])
  }

  lemma {:induction false} WordLengthOfWord(t: string, rest: string)
    requires IsWord(t)
    requires rest == [] || IsSpace(rest[0])
    ensures WordLength(t + rest) == |t|
    decreases |t|
  {
    if |t| == 1 {
      assert (t + rest)[1..] == rest;
    } else {
      assert (t + rest)[1..] == t[1..] + rest;
      WordLengthOfWord(t[1..], rest);
    }
  }

  /** Splitting the space-joined words gives the words back. */
  lemma {:induction false} TokensOfJoin(ts: seq<string>)
    requires forall i :: 0 <= i < |ts| ==> IsWord(ts[i])
    ensures Tokens(Join(ts)) == ts
  {
    if |ts| == 0 {
    } else if |ts| == 1 {
      var t := ts[0];
      WordLengthOfWord(t, []);
      assert t + [] == t;
      assert t[..|t|] == t;
      assert t[|t|..] == [];
    } else {
      var t := ts[0];
      var rest := " " + Join(ts[1..]);
      assert Join(ts) == t + rest;
      WordLengthOfWord(t, rest);
      assert (t + rest)[..|t|] == t;
      assert (t + rest)[|t|..] == rest;
      assert rest[1..] == Join(ts[1..]);
      TokensOfJoin(ts[1..]);
    }
  }

  /** Every character of `s` is whitespace (`s` may be empty). */
  predicate AllSpace(s: string) {
    forall i :: 0 <= i < |s| ==> IsSpace(s[i])
  }

  /** Words laid out on a line with whitespace around them:
      `gaps[0] ws[0] gaps[1] ... ws[n-1] gaps[n]`. */
  function Layout(ws: seq<string>, gaps: seq<string>): string
    requires |gaps| == |ws| + 1
  {
    if ws == [] then gaps[0] else gaps[0] + ws[0] + Layout(ws[1..], gaps[1..])
  }

  /** The gaps of a layout are whitespace, and the ones between two words are
      not empty; leading and trailing padding and the line terminator may be. */
  predicate Spacing(ws: seq<string>, gaps: seq<string>) {
    && |gaps| == |ws| + 1
    && (forall i :: 0 <= i < |gaps| ==> AllSpace(gaps[i]))
    && (forall i :: 0 < i < |ws| ==> |gaps[i]| > 0)
  }

  lemma {:induction false} TokensOfSpacePrefix(pre: string, s: string)
    requires AllSpace(pre)
    ensures Tokens(pre + s) == Tokens(s)
    decreases |pre|
  {
    if pre != [] {
      assert (pre + s)[0] == pre[0];
      assert (pre + s)[1..] == pre[1..] + s;
      TokensOfSpacePrefix(pre[1..], s);
    } else {
      assert pre + s == s;
    }
  }

  /** Splitting a line whose words are separated by any runs of whitespace,
      with any padding and line terminator, gives back exactly the words. */
  lemma {:induction false} TokensOfLayout(ws: seq<string>, gaps: seq<string>)
    requires forall i :: 0 <= i < |ws| ==> IsWord(ws[i])
    requires Spacing(ws, gaps)
    ensures Tokens(Layout(ws, gaps)) == ws
  {
    if ws == [] {
      TokensOfSpacePrefix(gaps[0], []);
      assert gaps[0] + [] == gaps[0];
    } else {
      var w := ws[0];
      var tail := Layout(ws[1..], gaps[1..]);
      assert Layout(ws, gaps) == gaps[0] + (w + tail);
      TokensOfSpacePrefix(gaps[0], w + tail);
      if |ws| > 1 {
        assert tail == gaps[1] + ws[1] + Layout(ws[2..], gaps[2..]);
        assert tail[0] == gaps[1][0];
      }
      WordLengthOfWord(w, tail);
      assert (w + tail)[0] == w[0];
      assert (w + tail)[..|w|] == w;
      assert (w + tail)[|w|..] == tail;
      assert Tokens(w + tail) == [w] + Tokens(tail);
      assert Spacing(ws[1..], gaps[1..]) by {
        forall i | 0 < i < |ws[1..]|
          ensures |gaps[1..][i]| > 0
        {
          assert gaps[1..][i] == gaps[i + 1];
        }
      }
      TokensOfLayout(ws[1..], gaps[1..]);
    }
  }

  // ---------------------------------------------------------------------------
  // `pat in s` and `s.find(c)`
  // ---------------------------------------------------------------------------

  predicate OccursAt(s: string, pat: string, i: nat) {
    i + |pat| <= |s| && s[i..i + |pat|] == pat
  }

  /** Python's substring test `pat in s`. */
  function Contains(s: string, pat: string): (b: bool)
    ensures b <==> exists i: nat :: OccursAt(s, pat, i)
    decreases |s|
  {
    if |pat| > |s| then false
    else if s[..|pat|] == pat then
      assert OccursAt(s, pat, 0);
      true
    else
      var b := Contains(s[1..], pat);
      if b then
        var i: nat :| OccursAt(s[1..], pat, i);
        assert s[1..][i..i + |pat|] == s[i + 1..i + 1 + |pat|];
        assert OccursAt(s, pat, i + 1);
        true
      else
        forall i: nat | 0 < i && OccursAt(s, pat, i)
          ensures OccursAt(s[1..], pat, i - 1)
        {
          assert s[1..][i - 1..i - 1 + |pat|] == s[i..i + |pat|];
        }
        false
  }

  /** `s.find(c)` for a one-character needle: the first position of `c`, or -1. */
  function Find(s: string, c: char): (r: int)
    ensures r == -1 <==> c !in s
    ensures r != -1 ==> 0 <= r < |s| && s[r] == c && c !in s[..r]
  {
    if |s| == 0 then -1
    else if s[0] == c then 0
    else
      var r := Find(s[1..], c);
      assert s == [s[0]] + s[1..];
      if r == -1 then -1
      else
        assert s[..r + 1] == [s[0]] + s[1..][..r];
        r + 1
  }

  /** No element occurs twice. */
  predicate Distinct<T(==)>(s: seq<T>) {
    forall i, j :: 0 <= i < j < |s| ==> s[i] != s[j]
  }

  /** No line in `lines[k..p]` contains `m`. */
  predicate NoLineHas(lines: seq<string>, k: nat, p: nat, m: string)
    requires p <= |lines|
    decreases p - k
  {
    k >= p || (!Contains(lines[k], m) && NoLineHas(lines, k + 1, p, m))
  }

  lemma {:induction false} NoLineHasOfForall(lines: seq<string>, k: nat, p: nat, m: string)
    requires k <= p <= |lines|
    requires forall j :: k <= j < p ==> !Contains(lines[j], m)
    ensures NoLineHas(lines, k, p, m)
    decreases p - k
  {
    if k < p {
      NoLineHasOfForall(lines, k + 1, p, m);
    }
  }

  // ---------------------------------------------------------------------------
  // s[a:b]
  // ---------------------------------------------------------------------------

  /** Python's adjustment of a slice bound: negative bounds count from the end,
      and every bound is clamped into `[0, n]`. */
  function SliceBound(i: int, n: nat): (r: nat)
    ensures r <= n
    ensures 0 <= i <= n ==> r == i
    ensures -(n as int) <= i < 0 ==> r == n + i
    ensures i < -(n as int) ==> r == 0
    ensures i > n ==> r == n
  {
    if i < 0 then (if i + n < 0 then 0 else i + n)
    else if i > n then n
    else i
  }

  /** `s[a:b]` with step 1, on a string or a list. */
  function PySlice<T>(s: seq<T>, a: int, b: int): (r: seq<T>)
    ensures 0 <= a <= b <= |s| ==> r == s[a..b]
    ensures |r| <= |s|
  {
    var lo := SliceBound(a, |s|);
    var hi := SliceBound(b, |s|);
    if lo < hi then s[lo..hi] else []
  }

  // ---------------------------------------------------------------------------
  // int(token) and str(integer)
  // ---------------------------------------------------------------------------

  predicate IsDigit(c: char) {
    '0' <= c <= '9'
  }

  function DigitValue(c: char): nat
    requires IsDigit(c)
  {
    (c as int) - ('0' as int)
  }

  function DigitChar(d: nat): (c: char)
    requires d < 10
    ensures IsDigit(c) && DigitValue(c) == d
  {
    (('0' as int) + d) as char
  }

  /** Python's `strip()`: whitespace removed from both ends. */
  function Strip(s: string): (r: string)
    ensures |r| <= |s|
    ensures r == [] || (!IsSpace(r[0]) && !IsSpace(r[|r| - 1]))
    ensures r == [] <==> AllSpace(s)
    decreases |s|
  {
    if s == [] then []
    else if IsSpace(s[0]) then Strip(s[1..])
    else if IsSpace(s[|s| - 1]) then Strip(s[..|s| - 1])
    else s
  }

  /** The digit string accepted by `int()` in base 10: digits, with single
      underscores allowed only between two digits. */
  predicate ValidDigits(d: string) {
    && |d| > 0
    && IsDigit(d[0])
    && IsDigit(d[|d| - 1])
    && (forall i :: 0 <= i < |d| ==> IsDigit(d[i]) || d[i] == '_')
    && (forall i :: 0 <= i < |d| - 1 ==> !(d[i] == '_' && d[i + 1] == '_'))
  }

  /** The value of a digit string, underscores ignored. */
  function DigitsValue(d: string): nat
    requires forall i :: 0 <= i < |d| ==> IsDigit(d[i]) || d[i] == '_'
  {
    if d == [] then 0
    else if d[|d| - 1] == '_' then DigitsValue(d[..|d| - 1])
    else 10 * DigitsValue(d[..|d| - 1]) + DigitValue(d[|d| - 1])
  }

  /** Python's `int()` on a string: surrounding whitespace, an optional sign,
      then digits. A blank string is not a number, and a negative result
      needs a leading minus sign. */
  function ParseInt(s: string): (r: Option<int>)
    ensures AllSpace(s) ==> r.None?
    ensures r.Some? && r.value < 0 ==> Strip(s)[0] == '-'
    ensures r.Some? && Strip(s)[0] != '-' && Strip(s)[0] != '+' ==> ValidDigits(Strip(s))
  {
    var t := Strip(s);
    if |t| > 0 && (t[0] == '-' || t[0] == '+') then
      var d := t[1..];
      if ValidDigits(d) then
        Some(if t[0] == '-' then -(DigitsValue(d) as int) else DigitsValue(d))
      else None
    else if ValidDigits(t) then Some(DigitsValue(t))
    else None
  }
  /** What `int()` accepts: after stripping whitespace, an optional sign
      and then digits in which single underscores may separate digits; the
      value is that of the digits, negated after a '-'. */
  lemma ParseIntSpec(s: string)
    ensures ParseInt(s).Some? <==>
      || ValidDigits(Strip(s))
      || (|Strip(s)| > 0 && (Strip(s)[0] == '-' || Strip(s)[0] == '+') && ValidDigits(Strip(s)[1..]))
    ensures ValidDigits(Strip(s)) ==> ParseInt(s) == Some(DigitsValue(Strip(s)))
    ensures |Strip(s)| > 0 && Strip(s)[0] == '+' && ValidDigits(Strip(s)[1..]) ==>
      ParseInt(s) == Some(DigitsValue(Strip(s)[1..]))
    ensures |Strip(s)| > 0 && Strip(s)[0] == '-' && ValidDigits(Strip(s)[1..]) ==>
      ParseInt(s) == Some(-(DigitsValue(Strip(s)[1..]) as int))
  {
  }


  /** `int()` accepts an explicit plus sign. */
  lemma ParseIntPlusSign()
    ensures ParseInt("+5") == Some(5)
  {
    assert Strip("+5") == "+5";
    assert "+5"[1..] == "5";
  }

  /** `int()` accepts leading zeros inside surrounding whitespace. */
  lemma ParseIntLeadingZeros()
    ensures ParseInt(" 007\n") == Some(7)
  {
    var s: string := " 007\n";
    var t: string := "007\n";
    var d: string := "007";
    assert s[1..] == t;
    assert t[..3] == d;
    assert Strip(s) == d;
    assert d[..2] == "00";
    assert "00"[..1] == "0";
    assert "0"[..0] == "";
    assert DigitsValue("0") == 0;
    assert DigitsValue("00") == 0;
    assert DigitsValue(d) == 7;
  }

  /** `int()` accepts single underscores between digits. */
  lemma ParseIntUnderscores()
    ensures ParseInt("1_000") == Some(1000)
  {
    var s: string := "1_000";
    assert Strip(s) == s;
    assert s[..4] == "1_00";
    assert "1_00"[..3] == "1_0";
    assert "1_0"[..2] == "1_";
    assert "1_"[..1] == "1";
    assert "1"[..0] == "";
    assert DigitsValue("1") == 1;
    assert DigitsValue("1_") == 1;
    assert DigitsValue("1_0") == 10;
    assert DigitsValue("1_00") == 100;
    assert DigitsValue(s) == 1000;
  }

  /** `int()` rejects a doubled underscore, a leading underscore and a bare
      sign. */
  lemma ParseIntRejects()
    ensures ParseInt("1__0") == None
    ensures ParseInt("_1") == None
    ensures ParseInt("-") == None
  {
    assert Strip("1__0") == "1__0";
    assert !ValidDigits("1__0") by { assert "1__0"[1] == '_' && "1__0"[2] == '_'; }
    assert Strip("_1") == "_1";
    assert Strip("-") == "-";
    assert "-"[1..] == "";
  }

  /** `int(s)` as a step that fails with `NotAnInteger`. */
  function ParseIntOrFail(s: string): (r: Result<int>)
    ensures r.Ok? <==> ParseInt(s).Some?
    ensures r.Ok? ==> ParseInt(s) == Some(r.value)
    ensures r.Err? ==> r.error == NotAnInteger
  {
    Need(ParseInt(s), NotAnInteger)
  }

  /** Decimal digits of a natural number, most significant first. */
  function NatToString(n: nat): (r: string)
    ensures |r| > 0
    ensures forall i :: 0 <= i < |r| ==> IsDigit(r[i])
  {
    if n < 10 then [DigitChar(n)]
    else NatToString(n / 10) + [DigitChar(n % 10)]
  }

  /** Python's `str()` of an integer: a minus sign exactly for negative
      numbers, then decimal digits. */
  function IntToString(x: int): (r: string)
    ensures |r| > 0
    ensures r[0] == '-' <==> x < 0
    ensures x >= 0 ==> IsDigit(r[0])
    ensures forall i :: 0 < i < |r| ==> IsDigit(r[i])
  {
    if x < 0 then "-" + NatToString(-x) else NatToString(x)
  }

  lemma {:induction false} DigitsValueOfNat(n: nat)
    ensures DigitsValue(NatToString(n)) == n
  {
    var s := NatToString(n);
    if n < 10 {
    } else {
      DigitsValueOfNat(n / 10);
      assert s[..|s| - 1] == NatToString(n / 10);
    }
  }

  lemma StripOfDigits(s: string)
    requires forall i :: 0 <= i < |s| ==> IsDigit(s[i]) || s[i] == '-'
    ensures Strip(s) == s
  {
  }

  /** A printed natural number is a valid digit string with nothing to strip. */
  lemma NatToStringIsValid(n: nat)
    ensures ValidDigits(NatToString(n))
    ensures Strip(NatToString(n)) == NatToString(n)
  {
    StripOfDigits(NatToString(n));
  }

  /** A printed natural number reads back as itself. */
  lemma ParseIntOfNatToString(n: nat)
    ensures ParseInt(NatToString(n)) == Some(n)
  {
    var d := NatToString(n);
    NatToStringIsValid(n);
    DigitsValueOfNat(n);
    assert IsDigit(d[0]);
  }

  /** A minus sign followed by decimal digits reads back as the negated
      value of the digits. */
  lemma ParseIntOfNegated(s: string)
    requires |s| > 1 && s[0] == '-'
    requires forall i :: 0 < i < |s| ==> IsDigit(s[i])
    ensures ValidDigits(s[1..]) && ParseInt(s) == Some(-(DigitsValue(s[1..]) as int))
  {
    StripOfDigits(s);
    assert ValidDigits(s[1..]);
    ParseIntOfMinus(s);
  }

  lemma ParseIntOfMinus(s: string)
    requires |s| > 1 && s[0] == '-' && Strip(s) == s && ValidDigits(s[1..])
    ensures ParseInt(s) == Some(-(DigitsValue(s[1..]) as int))
  {
  }

  /** `int(str(x)) == x`: reading back a printed integer gives the integer. */
  lemma ParseIntOfIntToString(x: int)
    ensures ParseInt(IntToString(x)) == Some(x)
  {
    if x < 0 {
      ParseIntOfNegativeInt(x);
    } else {
      ParseIntOfNatToString(x);
    }
  }

  /** A printed negative integer reads back as itself. */
  lemma ParseIntOfNegativeInt(x: int)
    requires x < 0
    ensures ParseInt(IntToString(x)) == Some(x)
  {
    var s := IntToString(x);
    var n: nat := -x;
    NegativeIntToString(x);
    ParseIntOfNegated(s);
    DigitsValueOfNat(n);
    assert DigitsValue(s[1..]) == n;
    assert ParseInt(s) == Some(x);
  }

  lemma NegativeIntToString(x: int)
    requires x < 0
    ensures var s := IntToString(x); |s| > 1 && s[1..] == NatToString(-x)
  {
    assert IntToString(x)[1..] == NatToString(-x);
  }

  /** Whitespace on either side of a string with non-blank ends is exactly
      what stripping removes. */
  lemma {:induction false} StripPadded(pre: string, s: string, post: string)
    requires AllSpace(pre) && AllSpace(post)
    requires s != [] && !IsSpace(s[0]) && !IsSpace(s[|s| - 1])
    ensures Strip(pre + s + post) == s
    decreases |pre| + |post|
  {
    var t := pre + s + post;
    if pre != [] {
      assert t[0] == pre[0];
      assert t[1..] == pre[1..] + s + post;
      StripPadded(pre[1..], s, post);
    } else if post != [] {
      assert t[0] == s[0];
      assert t[|t| - 1] == post[|post| - 1];
      assert t[..|t| - 1] == pre + s + post[..|post| - 1];
      StripPadded(pre, s, post[..|post| - 1]);
    } else {
      assert t == s;
    }
  }

  /** `int()` reads a printed integer back even with whitespace around it,
      as in a padded or newline-terminated field. */
  lemma ParseIntPadded(pre: string, x: int, post: string)
    requires AllSpace(pre) && AllSpace(post)
    ensures ParseInt(pre + IntToString(x) + post) == Some(x)
  {
    var s := IntToString(x);
    StripPadded(pre, s, post);
    ParseIntOfIntToString(x);
  }

  /** Distinct integers print as distinct strings, so `str(t)` keys of
      distinct temperatures never collide. */
  lemma IntToStringInjective(a: int, b: int)
    requires IntToString(a) == IntToString(b)
    ensures a == b
  {
    ParseIntOfIntToString(a);
    ParseIntOfIntToString(b);
  }
}
