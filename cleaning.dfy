/**
 * The field cleaner of the crash report script: the text of an `Aboard` or
 * `Fatalities` cell has every parenthesised annotation removed (the regular
 * expression `\(.*?\)` replaced by nothing), surrounding whitespace trimmed,
 * the placeholder `?` mapped to a missing value, and the rest converted to a
 * number, which raises when the text is not numeric.
 */
module FieldCleaning {
  import opened Wrappers

  // ---------------------------------------------------------------------
  // Removing parenthesised annotations
  // ---------------------------------------------------------------------

  /** Position of the first occurrence of `c` in `s`. */
  function IndexOf(s: string, c: char): (i: nat)
    requires c in s
    ensures i < |s| && s[i] == c && c !in s[..i]
  {
    if s[0] == c then 0 else 1 + IndexOf(s[1..], c)
  }

  /**
   * `re.sub(r"\(.*?\)", "", s)`: scanning left to right, an opening
   * parenthesis that has a closing one somewhere after it starts a match that
   * ends at the FIRST such closing parenthesis, and the whole match is
   * deleted; an opening parenthesis with no closing one after it is kept.
   * Field text is taken to hold no line breaks, so `.` matches every char.
   */
  function StripParens(s: string): string
    decreases |s|
  {
    if s == [] then []
    else if s[0] == '(' && ')' in s[1..] then
      StripParens(s[1..][IndexOf(s[1..], ')') + 1..])
    else
      [s[0]] + StripParens(s[1..])
  }

  /** No opening parenthesis of `s` is followed, anywhere later, by a closing one. */
  predicate NoParenPair(s: string) {
    forall i, j :: 0 <= i < j < |s| ==> !(s[i] == '(' && s[j] == ')')
  }

  /** `a` can be obtained from `b` by deleting characters. */
  predicate IsSubsequence(a: string, b: string)
    decreases |b|
  {
    a == [] ||
    (b != [] && ((a[0] == b[0] && IsSubsequence(a[1..], b[1..])) || IsSubsequence(a, b[1..])))
  }

  lemma {:induction false} SubsequenceOfSuffix(a: string, b: string, k: nat)
    requires k <= |b| && IsSubsequence(a, b[k..])
    ensures IsSubsequence(a, b)
    decreases k
  {
    if k > 0 {
      assert b[k - 1..][1..] == b[k..];
      SubsequenceOfSuffix(a, b, k - 1);
    }
  }

  lemma {:induction false} SubsequenceReflexive(a: string)
    ensures IsSubsequence(a, a)
    decreases |a|
  {
    if a != [] {
      SubsequenceReflexive(a[1..]);
    }
  }

  lemma {:induction false} SubsequenceOfPrefix(a: string, b: string, n: nat)
    requires n <= |b| && IsSubsequence(a, b[..n])
    ensures IsSubsequence(a, b)
    decreases |b|
  {
    if a != [] {
      assert b[..n] != [];
      if a[0] == b[0] && IsSubsequence(a[1..], b[..n][1..]) {
        assert b[..n][1..] == b[1..][..n - 1];
        SubsequenceOfPrefix(a[1..], b[1..], n - 1);
      } else {
        assert b[..n][1..] == b[1..][..n - 1];
        SubsequenceOfPrefix(a, b[1..], n - 1);
      }
    }
  }

  /** Every contiguous slice of a string is a subsequence of it. */
  lemma SliceIsSubsequence(b: string, i: nat, j: nat)
    requires i <= j <= |b|
    ensures IsSubsequence(b[i..j], b)
  {
    SubsequenceReflexive(b[i..j]);
    assert b[i..][..j - i] == b[i..j];
    SubsequenceOfPrefix(b[i..j], b[i..], j - i);
    SubsequenceOfSuffix(b[i..j], b, i);
  }

  lemma {:induction false} SubsequenceTransitive(a: string, b: string, c: string)
    requires IsSubsequence(a, b) && IsSubsequence(b, c)
    ensures IsSubsequence(a, c)
    decreases |c|
  {
    if a != [] {
      if IsSubsequence(b, c[1..]) {
        SubsequenceTransitive(a, b, c[1..]);
      } else if a[0] == b[0] && IsSubsequence(a[1..], b[1..]) {
        SubsequenceTransitive(a[1..], b[1..], c[1..]);
      } else {
        SubsequenceTransitive(a, b[1..], c[1..]);
      }
    }
  }

  /** A subsequence uses no character its source does not contain. */
  lemma {:induction false} SubsequenceChars(a: string, b: string)
    requires IsSubsequence(a, b)
    ensures forall k :: 0 <= k < |a| ==> a[k] in b
    decreases |b|
  {
    if a != [] {
      if a[0] == b[0] && IsSubsequence(a[1..], b[1..]) {
        SubsequenceChars(a[1..], b[1..]);
        assert forall k :: 1 <= k < |a| ==> a[k] == a[1..][k - 1];
      } else {
        SubsequenceChars(a, b[1..]);
      }
    }
  }

  /** Stripping only deletes characters: the result is a subsequence of the input. */
  lemma {:induction false} StripParensSubsequence(s: string)
    ensures IsSubsequence(StripParens(s), s)
    decreases |s|
  {
    if s == [] {
    } else if s[0] == '(' && ')' in s[1..] {
      var t := s[1..];
      var k := IndexOf(t, ')') + 1;
      StripParensSubsequence(t[k..]);
      assert t[k..] == s[k + 1..];
      SubsequenceOfSuffix(StripParens(s), s, k + 1);
    } else {
      StripParensSubsequence(s[1..]);
    }
  }

  /** After stripping, no `(` is followed later by a `)`. */
  lemma {:induction false} StripParensNoParenPair(s: string)
    ensures NoParenPair(StripParens(s))
    decreases |s|
  {
    if s == [] {
    } else if s[0] == '(' && ')' in s[1..] {
      var u := StripParensSkip(s);
      StripParensNoParenPair(u);
    } else {
      StripParensKeep(s);
      var rest := StripParens(s[1..]);
      StripParensNoParenPair(s[1..]);
      StripParensSubsequence(s[1..]);
      SubsequenceChars(rest, s[1..]);
      NoParenPairCons(s[0], rest);
    }
  }

  /** A leading annotation is skipped: what stripping continues with. */
  lemma StripParensSkip(s: string) returns (u: string)
    requires s != [] && s[0] == '(' && ')' in s[1..]
    ensures |u| < |s| && StripParens(s) == StripParens(u)
  {
    u := s[1..][IndexOf(s[1..], ')') + 1..];
  }

  /** A leading character that opens no annotation is kept. */
  lemma StripParensKeep(s: string)
    requires s != [] && !(s[0] == '(' && ')' in s[1..])
    ensures StripParens(s) == [s[0]] + StripParens(s[1..])
  {
  }

  /** A character put in front keeps a text free of pairs unless it opens one. */
  lemma NoParenPairCons(c: char, rest: string)
    requires NoParenPair(rest)
    requires c == '(' ==> forall k :: 0 <= k < |rest| ==> rest[k] != ')'
    ensures NoParenPair([c] + rest)
  {
    var r := [c] + rest;
    forall i, j | 0 <= i < j < |r|
      ensures !(r[i] == '(' && r[j] == ')')
    {
      assert r[j] == rest[j - 1];
      if i > 0 {
        assert r[i] == rest[i - 1];
      }
    }
  }

  /** A string without a `(` ... `)` pair is left unchanged by stripping. */
  lemma {:induction false} StripParensFixpoint(s: string)
    requires NoParenPair(s)
    ensures StripParens(s) == s
    decreases |s|
  {
    if s != [] {
      assert s[0] == '(' ==> ')' !in s[1..];
      assert NoParenPair(s[1..]) by {
        forall i, j | 0 <= i < j < |s[1..]|
          ensures !(s[1..][i] == '(' && s[1..][j] == ')')
        {
          assert s[1..][i] == s[i + 1] && s[1..][j] == s[j + 1];
        }
      }
      StripParensFixpoint(s[1..]);
      assert [s[0]] + s[1..] == s;
    }
  }

  /** A string with no `(` at all is left unchanged by stripping. */
  lemma StripParensNoOpen(s: string)
    requires '(' !in s
    ensures StripParens(s) == s
  {
    StripParensFixpoint(s);
  }

  /** Stripping is idempotent. */
  lemma StripParensIdempotent(s: string)
    ensures StripParens(StripParens(s)) == StripParens(s)
  {
    StripParensNoParenPair(s);
    StripParensFixpoint(StripParens(s));
  }

  /** A prefix with no `(` passes through stripping untouched. */
  lemma {:induction false} StripParensPrefix(a: string, b: string)
    requires '(' !in a
    ensures StripParens(a + b) == a + StripParens(b)
    decreases |a|
  {
    if a != [] {
      assert a[0] in a && '(' !in a[1..];
      assert (a + b)[0] == a[0] && (a + b)[1..] == a[1..] + b;
      assert StripParens(a + b) == [a[0]] + StripParens(a[1..] + b);
      StripParensPrefix(a[1..], b);
      assert [a[0]] + (a[1..] + StripParens(b)) == a + StripParens(b);
    } else {
      assert a + b == b;
    }
  }

  /**
   * Each segment from a `(` to the first `)` after it is deleted: the
   * annotation `(m)` following a `(`-free prefix disappears, whatever follows.
   */
  lemma StripParensDeletesSegment(a: string, m: string, b: string)
    requires '(' !in a && ')' !in m
    ensures StripParens(a + "(" + m + ")" + b) == a + StripParens(b)
  {
    Reassociate(a, m, b);
    StripParensPrefix(a, "(" + m + ")" + b);
    StripParensSkipsAnnotation(m, b);
  }

  /** `a + "(" + m + ")" + b`, grouped after `a`. */
  lemma Reassociate(a: string, m: string, b: string)
    ensures a + "(" + m + ")" + b == a + ("(" + m + ")" + b)
  {
    var l, r := a + "(" + m + ")" + b, a + ("(" + m + ")" + b);
    assert |l| == |r|;
    forall k | 0 <= k < |l| ensures l[k] == r[k] {
      if k < |a| {
      } else if k == |a| {
      } else if k < |a| + 1 + |m| {
        assert l[k] == m[k - |a| - 1] == r[k];
      } else if k == |a| + 1 + |m| {
      } else {
        assert l[k] == b[k - |a| - 2 - |m|] == r[k];
      }
    }
  }

  /** An annotation `(m)` at the front is deleted, up to its first `)`. */
  lemma StripParensSkipsAnnotation(m: string, b: string)
    requires ')' !in m
    ensures StripParens("(" + m + ")" + b) == StripParens(b)
  {
    var seg := "(" + m + ")" + b;
    var t := m + ")" + b;
    assert seg[0] == '(' && seg[1..] == t;
    IndexOfFirst(m, ')', b);
    assert t[|m| + 1..] == b;
  }

  /** The first `c` of `m + [c] + b` is the one right after `m`, when `m` has none. */
  lemma IndexOfFirst(m: string, c: char, b: string)
    requires c !in m
    ensures c in m + [c] + b && IndexOf(m + [c] + b, c) == |m|
  {
    var t := m + [c] + b;
    assert t[|m|] == c;
    var j := IndexOf(t, c);
    assert forall k :: 0 <= k < |m| ==> t[k] == m[k];
    assert forall k :: 0 <= k < j ==> t[k] == t[..j][k];
  }

  // ---------------------------------------------------------------------
  // Trimming whitespace
  // ---------------------------------------------------------------------

  /** The characters Python's `str.strip()` removes (those `str.isspace` accepts). */
  predicate IsSpace(c: char) {
    c == ' ' || ('\t' <= c <= '\r') || ('\U{1C}' <= c <= '\U{1F}') ||
    c == '\U{85}' || c == '\U{A0}' || c == '\U{1680}' || ('\U{2000}' <= c <= '\U{200A}') ||
    c == '\U{2028}' || c == '\U{2029}' || c == '\U{202F}' || c == '\U{205F}' || c == '\U{3000}'
  }

  /** The number of whitespace characters `s` starts with. */
  function LeadingSpace(s: string): (n: nat)
    ensures n <= |s|
    ensures forall k :: 0 <= k < n ==> IsSpace(s[k])
    ensures n < |s| ==> !IsSpace(s[n])
    decreases |s|
  {
    if s != [] && IsSpace(s[0]) then
      var n := LeadingSpace(s[1..]);
      assert forall k :: 1 <= k < 1 + n ==> s[k] == s[1..][k - 1];
      1 + n
    else 0
  }

  /** The number of whitespace characters `s` ends with. */
  function TrailingSpace(s: string): (n: nat)
    ensures n <= |s|
    ensures forall k :: |s| - n <= k < |s| ==> IsSpace(s[k])
    ensures n < |s| ==> !IsSpace(s[|s| - n - 1])
    decreases |s|
  {
    if s != [] && IsSpace(s[|s| - 1]) then
      var n := TrailingSpace(s[..|s| - 1]);
      assert forall k :: |s| - 1 - n <= k < |s| - 1 ==> s[k] == s[..|s| - 1][k];
      1 + n
    else 0
  }

  /** Drops the leading whitespace. */
  function TrimStart(s: string): string {
    s[LeadingSpace(s)..]
  }

  /** Drops the trailing whitespace. */
  function TrimEnd(s: string): string {
    s[..|s| - TrailingSpace(s)]
  }

  /** Python's `str.strip()`: the slice of `s` between its leading and trailing whitespace. */
  function Trim(s: string): string {
    TrimEnd(TrimStart(s))
  }

  /** Every character of `s[lo..hi]` is whitespace. */
  ghost predicate AllSpace(s: string, lo: int, hi: int)
    requires 0 <= lo && hi <= |s|
  {
    forall k :: lo <= k < hi ==> IsSpace(s[k])
  }

  /** What `Trim` keeps: a slice of its input, all whitespace outside, no whitespace at either end. */
  lemma TrimIsSlice(s: string)
    ensures LeadingSpace(s) + |Trim(s)| <= |s|
    ensures Trim(s) == s[LeadingSpace(s)..LeadingSpace(s) + |Trim(s)|]
    ensures AllSpace(s, 0, LeadingSpace(s))
    ensures AllSpace(s, LeadingSpace(s) + |Trim(s)|, |s|)
    ensures Trim(s) != [] ==> !IsSpace(Trim(s)[0]) && !IsSpace(Trim(s)[|Trim(s)| - 1])
  {
    var i := LeadingSpace(s);
    var j := TrailingSpace(s[i..]);
    var r := s[i..][..|s| - i - j];
    assert Trim(s) == r;
    CutSlice(s, i, j);
  }

  /** Cutting `i` characters in front and then `j` at the end leaves a slice; where the cuts stop decides the ends. */
  lemma CutSlice(s: string, i: nat, j: nat)
    requires i <= |s| && j <= |s| - i
    requires i < |s| ==> !IsSpace(s[i])
    requires forall k :: |s[i..]| - j <= k < |s[i..]| ==> IsSpace(s[i..][k])
    requires j < |s| - i ==> !IsSpace(s[i..][|s| - i - j - 1])
    ensures var r := s[i..][..|s| - i - j];
      && i + |r| == |s| - j
      && r == s[i..i + |r|]
      && AllSpace(s, i + |r|, |s|)
      && (r != [] ==> !IsSpace(r[0]) && !IsSpace(r[|r| - 1]))
  {
    var r := s[i..][..|s| - i - j];
    assert r == s[i..i + |r|];
    SuffixSpaces(s, i, j);
    if r != [] {
      assert r[0] == s[i];
      assert r[|r| - 1] == s[i..][|s| - i - j - 1];
    }
  }

  /** The trailing whitespace of the suffix `s[i..]` is trailing whitespace of `s`. */
  lemma SuffixSpaces(s: string, i: nat, j: nat)
    requires i <= |s| && j <= |s| - i
    requires forall k :: |s[i..]| - j <= k < |s[i..]| ==> IsSpace(s[i..][k])
    ensures forall k :: |s| - j <= k < |s| ==> IsSpace(s[k])
  {
    forall k | |s| - j <= k < |s| ensures IsSpace(s[k]) {
      assert s[k] == s[i..][k - i];
    }
  }


  /** A string that neither starts nor ends with whitespace is left unchanged by trimming. */
  lemma TrimFixpoint(s: string)
    requires s == [] || (!IsSpace(s[0]) && !IsSpace(s[|s| - 1]))
    ensures Trim(s) == s
  {
  }

  /** Trimming is idempotent. */
  lemma TrimIdempotent(s: string)
    ensures Trim(Trim(s)) == Trim(s)
  {
    TrimIsSlice(s);
    TrimFixpoint(Trim(s));
  }

  // ---------------------------------------------------------------------
  // The text cleaner: strip annotations, then trim
  // ---------------------------------------------------------------------

  /** The text of a cell after lines 25-26: annotations removed, then trimmed. */
  function CleanText(s: string): string {
    Trim(StripParens(s))
  }

  /** The cleaned text is obtained from the raw text by deleting characters. */
  lemma CleanTextSubsequence(s: string)
    ensures IsSubsequence(CleanText(s), s)
  {
    var p := StripParens(s);
    TrimIsSlice(p);
    var r := Trim(p);
    var i := LeadingSpace(p);
    SliceIsSubsequence(p, i, i + |r|);
    StripParensSubsequence(s);
    SubsequenceTransitive(r, p, s);
  }

  /** Cleaned text holds no `(` that is followed by a `)`. */
  lemma CleanTextNoParenPair(s: string)
    ensures NoParenPair(CleanText(s))
  {
    var p := StripParens(s);
    StripParensNoParenPair(s);
    TrimIsSlice(p);
    NoParenPairSlice(p, LeadingSpace(p), LeadingSpace(p) + |Trim(p)|);
  }

  /** A slice of a text free of pairs is free of pairs. */
  lemma NoParenPairSlice(p: string, lo: nat, hi: nat)
    requires lo <= hi <= |p| && NoParenPair(p)
    ensures NoParenPair(p[lo..hi])
  {
    var r := p[lo..hi];
    forall a, b | 0 <= a < b < |r| ensures !(r[a] == '(' && r[b] == ')') {
      assert r[a] == p[lo + a] && r[b] == p[lo + b];
    }
  }

  /** Cleaning twice is the same as cleaning once. */
  lemma CleanTextIdempotent(s: string)
    ensures CleanText(CleanText(s)) == CleanText(s)
  {
    var r := CleanText(s);
    CleanTextNoParenPair(s);
    StripParensFixpoint(r);
    TrimIsSlice(StripParens(s));
    TrimFixpoint(r);
  }

  /** Text with no `(` is only trimmed. */
  lemma CleanTextWithoutParens(s: string)
    requires '(' !in s
    ensures CleanText(s) == Trim(s)
  {
    StripParensNoOpen(s);
  }

  // ---------------------------------------------------------------------
  // Converting the cleaned text to a number
  // ---------------------------------------------------------------------

  predicate IsDigit(c: char) {
    '0' <= c <= '9'
  }

  predicate AllDigits(s: string) {
    forall k :: 0 <= k < |s| ==> IsDigit(s[k])
  }

  predicate AllZeros(s: string) {
    forall k :: 0 <= k < |s| ==> s[k] == '0'
  }

  /** The value of a string of decimal digits, most significant first. */
  function DigitsValue(s: string): nat
    requires AllDigits(s)
    decreases |s|
  {
    if s == [] then 0 else DigitsValue(s[..|s| - 1]) * 10 + (s[|s| - 1] as int - '0' as int)
  }

  /** Position of the first `.` in `s`, or `|s|` when there is none. */
  function PointIndex(s: string): (i: nat)
    ensures i <= |s| && '.' !in s[..i] && (i < |s| ==> s[i] == '.')
  {
    if '.' in s then IndexOf(s, '.') else |s|
  }

  /**
   * An unsigned numeral of a whole number as Python's `float` reads it:
   * digits, optionally followed by a point and zeros, with at least one digit
   * in all (`"139"`, `"139.0"`, `"139."`, `".0"`).
   */
  predicate IsWholeNumeral(s: string) {
    var i := PointIndex(s);
    AllDigits(s[..i]) && (i == |s| || AllZeros(s[i + 1..])) && (i > 0 || |s| > 1)
  }

  function WholeNumeralValue(s: string): nat
    requires IsWholeNumeral(s)
  {
    DigitsValue(s[..PointIndex(s)])
  }

  /** The three letters of "nan" in any mix of cases, which `float` reads as NaN. */
  predicate IsNaNText(s: string) {
    |s| == 3 && (s[0] == 'n' || s[0] == 'N') && (s[1] == 'a' || s[1] == 'A') && (s[2] == 'n' || s[2] == 'N')
  }

  predicate HasSign(s: string) {
    |s| > 0 && (s[0] == '+' || s[0] == '-')
  }

  /** The text after an optional leading sign. */
  function Unsigned(s: string): string {
    if HasSign(s) then s[1..] else s
  }

  /**
   * `float(s)` restricted to whole numbers: an optional sign followed by a
   * whole numeral gives that number, an optional sign followed by "nan" gives
   * a missing value, and any other text raises, reported with the text.
   */
  function ParseNumber(s: string): (r: Result<Option<int>, string>)
    ensures r == Success(None) <==> IsNaNText(Unsigned(s))
    ensures r.Failure? <==> !IsNaNText(Unsigned(s)) && !IsWholeNumeral(Unsigned(s))
    ensures r.Failure? ==> r.error == s
    ensures r.Success? && r.value.Some? ==>
      r.value.value == (if HasSign(s) && s[0] == '-' then -1 else 1) * WholeNumeralValue(Unsigned(s))
  {
    var body := Unsigned(s);
    if IsNaNText(body) then Success(None)
    else if IsWholeNumeral(body) then
      var v: int := WholeNumeralValue(body);
      Success(Some(if HasSign(s) && s[0] == '-' then -v else v))
    else Failure(s)
  }

  /** Decimal digits of a natural number, as Python prints an int. */
  function ShowNat(n: nat): (r: string)
    ensures |r| > 0 && AllDigits(r) && DigitsValue(r) == n
    decreases n
  {
    var d := ['0' + (n % 10) as char];
    if n < 10 then d
    else
      var p := ShowNat(n / 10);
      assert (p + d)[..|p + d| - 1] == p;
      p + d
  }

  /** Decimal text of an integer, with a leading `-` when negative. */
  function ShowInt(n: int): string {
    if n < 0 then "-" + ShowNat(-n) else ShowNat(n)
  }

  /** Parsing reads back every integer printed in decimal. */
  lemma ParseShowInt(n: int)
    ensures ParseNumber(ShowInt(n)) == Success(Some(n))
  {
    var s := ShowInt(n);
    var body := ShowNat(if n < 0 then -n else n);
    assert Unsigned(s) == body;
    assert forall k :: 0 <= k < |body| ==> IsDigit(body[k]);
    assert PointIndex(body) == |body|;
    assert body[..|body|] == body;
  }

  // ---------------------------------------------------------------------
  // One cell, one column
  // ---------------------------------------------------------------------

  /** A raw cell of the loaded table: missing, or the text it holds. */
  datatype Cell = Missing | Text(text: string)

  /** `astype(str)`: a missing cell becomes the text "nan". */
  function AsText(c: Cell): string {
    match c
    case Missing => "nan"
    case Text(s) => s
  }

  /**
   * The cleaned text of a cell through line 27 and the `astype(float)` of
   * lines 30-31: missing exactly when it is "?" or a (signed) "nan"; an
   * error carrying the text exactly when it is none of these and not a
   * whole numeral; otherwise the numeral's value.
   */
  function ConvertCleaned(t: string): (r: Result<Option<int>, string>)
    ensures r == Success(None) <==> t == "?" || IsNaNText(Unsigned(t))
    ensures r.Failure? <==> t != "?" && !IsNaNText(Unsigned(t)) && !IsWholeNumeral(Unsigned(t))
    ensures r.Failure? ==> r.error == t
    ensures r.Success? && r.value.Some? ==>
      (IsWholeNumeral(Unsigned(t)) &&
       r.value.value == (if HasSign(t) && t[0] == '-' then -1 else 1) * WholeNumeralValue(Unsigned(t)))
  {
    if t == "?" then
      assert !IsWholeNumeral(Unsigned(t)) by {
        assert Unsigned(t) == "?";
        assert '.' !in "?";
      }
      Success(None)
    else ParseNumber(t)
  }

  /** One cell through lines 24-31: its text cleaned, then converted. */
  function CleanField(c: Cell): Result<Option<int>, string> {
    ConvertCleaned(CleanText(AsText(c)))
  }

  /** A missing cell comes back missing: "nan" survives cleaning and parses to NaN. */
  lemma MissingCellIsAbsent()
    ensures CleanField(Missing) == Success(None)
  {
    NanCleansToItself();
    assert Unsigned("nan") == "nan" && IsNaNText("nan");
  }

  lemma NanCleansToItself()
    ensures CleanText("nan") == "nan"
  {
    var t := "nan";
    assert '(' !in t;
    assert !IsSpace(t[0]) && !IsSpace(t[2]);
    StripParensNoOpen(t);
    TrimFixpoint(t);
  }


  /** A placeholder, however annotated or padded, is missing, never zero. */
  lemma PlaceholderIsAbsent(pad: string, note: string)
    requires (forall k :: 0 <= k < |pad| ==> IsSpace(pad[k])) && ')' !in note
    ensures CleanField(Text(pad + "?" + pad + "(" + note + ")")) == Success(None)
  {
    CleanAnnotated(pad, "?", pad, note);
  }

  /**
   * A token padded with whitespace and followed by an annotation in
   * parentheses is cleaned to the token alone.
   */
  lemma CleanAnnotated(lead: string, tok: string, pad: string, note: string)
    requires forall k :: 0 <= k < |lead| ==> IsSpace(lead[k])
    requires forall k :: 0 <= k < |pad| ==> IsSpace(pad[k])
    requires tok != [] && !IsSpace(tok[0]) && !IsSpace(tok[|tok| - 1]) && '(' !in tok
    requires ')' !in note
    ensures CleanText(lead + tok + pad + "(" + note + ")") == tok
  {
    var a := lead + tok + pad;
    NoOpenInPadded(lead, tok, pad);
    var raw := lead + tok + pad + "(" + note + ")";
    assert raw == a + "(" + note + ")" + "";
    StripParensDeletesSegment(a, note, "");
    assert StripParens(raw) == a;
    TrimAround(lead, tok, pad);
  }

  lemma NoOpenInPadded(lead: string, tok: string, pad: string)
    requires forall k :: 0 <= k < |lead| ==> IsSpace(lead[k])
    requires forall k :: 0 <= k < |pad| ==> IsSpace(pad[k])
    requires '(' !in tok
    ensures '(' !in lead + tok + pad
  {
    var a := lead + tok + pad;
    assert !IsSpace('(');
    forall k | 0 <= k < |a| ensures a[k] != '(' {
      if k < |lead| { assert a[k] == lead[k]; }
      else if k < |lead| + |tok| { assert a[k] == tok[k - |lead|]; }
      else { assert a[k] == pad[k - |lead| - |tok|]; }
    }
  }

  /** Trimming removes whitespace padding around a token that has no whitespace at its ends. */
  lemma TrimAround(lead: string, t: string, trail: string)
    requires forall k :: 0 <= k < |lead| ==> IsSpace(lead[k])
    requires forall k :: 0 <= k < |trail| ==> IsSpace(trail[k])
    requires t != [] && !IsSpace(t[0]) && !IsSpace(t[|t| - 1])
    ensures Trim(lead + t + trail) == t
  {
    var s := lead + t + trail;
    TrimIsSlice(s);
    var i := LeadingSpace(s);
    var r := Trim(s);
    assert s[|lead|] == t[0] && s[|lead| + |t| - 1] == t[|t| - 1];
    assert i <= |lead|;
    assert forall k :: 0 <= k < |lead| ==> IsSpace(s[k]);
    assert forall k :: |lead| + |t| <= k < |s| ==> IsSpace(s[k]);
    assert r != [];
    assert i == |lead|;
    assert i + |r| == |lead| + |t|;
    assert s[|lead|..|lead| + |t|] == t;
  }

  /** The decimal text of an integer holds only a sign and digits, so it is a token without whitespace, `(` or `?`. */
  lemma ShowIntChars(n: int)
    ensures ShowInt(n) != [] && ShowInt(n) != "?" && '(' !in ShowInt(n)
    ensures !IsSpace(ShowInt(n)[0]) && !IsSpace(ShowInt(n)[|ShowInt(n)| - 1])
  {
    var num := ShowInt(n);
    assert forall k :: 0 <= k < |num| ==> num[k] == '-' || IsDigit(num[k]);
  }

  /**
   * A head-count written in decimal, followed by whitespace and an annotation
   * in parentheses, is cleaned back to that count.
   */
  lemma AnnotatedCountRoundTrip(n: int, pad: string, note: string)
    requires forall k :: 0 <= k < |pad| ==> IsSpace(pad[k])
    requires ')' !in note
    ensures CleanField(Text(ShowInt(n) + pad + "(" + note + ")")) == Success(Some(n))
  {
    var num := ShowInt(n);
    ShowIntChars(n);
    CleanAnnotated("", num, pad, note);
    assert "" + num == num;
    ParseShowInt(n);
  }

  /** The example of the data set: "139 (all)" is cleaned to 139. */
  lemma AnnotatedCountParses()
    ensures CleanField(Text("139" + " " + "(" + "all" + ")")) == Success(Some(139))
  {
    ShowOneThirtyNine();
    AnnotatedCountRoundTrip(139, " ", "all");
  }

  /** The count 139 is written "139". */
  lemma ShowOneThirtyNine()
    ensures ShowInt(139) == "139"
  {
    assert ShowNat(1) == "1";
    assert ShowNat(13) == "1" + "3";
    assert ShowNat(139) == "13" + "9";
  }

  /** Any other non-numeric leftover raises: an annotation with nothing before it. */
  lemma BareAnnotationRaises(note: string)
    requires ')' !in note
    ensures CleanField(Text("(" + note + ")")) == Failure("")
  {
    StripParensDeletesSegment("", note, "");
    assert "" + "(" + note + ")" + "" == "(" + note + ")";
  }

  /** Index of the first failed conversion, or `|rs|` when none failed. */
  function FirstFailure<T, E>(rs: seq<Result<T, E>>): (i: nat)
    ensures i <= |rs|
    ensures forall j :: 0 <= j < i ==> rs[j].Success?
    ensures i < |rs| ==> rs[i].Failure?
    decreases |rs|
  {
    if rs == [] || rs[0].Failure? then 0 else 1 + FirstFailure(rs[1..])
  }

  /** Every cell of a column, converted on its own. */
  function CleanFields(cells: seq<Cell>): (rs: seq<Result<Option<int>, string>>)
    ensures |rs| == |cells| && forall i :: 0 <= i < |cells| ==> rs[i] == CleanField(cells[i])
  {
    seq(|cells|, i requires 0 <= i < |cells| => CleanField(cells[i]))
  }

  /** All the values when every conversion succeeded, otherwise the first failure. */
  function Collect<T, E>(rs: seq<Result<T, E>>): (r: Result<seq<T>, E>)
    ensures r.Success? <==> forall i :: 0 <= i < |rs| ==> rs[i].Success?
    ensures r.Success? ==> |r.value| == |rs|
    ensures r.Success? ==> forall i :: 0 <= i < |rs| ==> r.value[i] == rs[i].value
    ensures r.Failure? ==> FirstFailure(rs) < |rs| && r.error == rs[FirstFailure(rs)].error
    decreases |rs|
  {
    if rs == [] then Success([])
    else
      match rs[0]
      case Failure(e) => Failure(e)
      case Success(v) =>
        match Collect(rs[1..])
        case Failure(e) => Failure(e)
        case Success(vs) => Success([v] + vs)
  }

  /**
   * The `astype(float)` applied to a whole column: every cell is cleaned, and
   * the first cell whose cleaned text is not numeric makes the whole
   * conversion raise with that text.
   */
  function CleanColumn(cells: seq<Cell>): (r: Result<seq<Option<int>>, string>)
    ensures r.Success? <==> forall i :: 0 <= i < |cells| ==> CleanField(cells[i]).Success?
    ensures r.Success? ==> |r.value| == |cells|
    ensures r.Success? ==> forall i :: 0 <= i < |cells| ==> r.value[i] == CleanField(cells[i]).value
    ensures r.Failure? ==>
      var i := FirstFailure(CleanFields(cells)); i < |cells| && r.error == CleanField(cells[i]).error
  {
    Collect(CleanFields(cells))
  }
}
