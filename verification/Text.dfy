/** Characters and decimal text. */
module Text {
  /** The characters Unicode calls white space. */
  predicate IsWhitespace(c: char) {
    || '\U{9}' <= c <= '\U{d}' || c == ' ' || c == '\U{85}' || c == '\U{a0}' || c == '\U{1680}'
    || '\U{2000}' <= c <= '\U{200a}' || c == '\U{2028}' || c == '\U{2029}' || c == '\U{202f}'
    || c == '\U{205f}' || c == '\U{3000}'
  }

  /** The twenty-five of them by number. */
  lemma WhitespaceIs(c: char)
    ensures IsWhitespace(c) <==>
            c as int in {9, 10, 11, 12, 13, 32, 133, 160, 5760, 8192, 8193, 8194, 8195, 8196, 8197, 8198, 8199, 8200, 8201, 8202,
                         8232, 8233, 8239, 8287, 12288}
  {
  }

  predicate IsBlank(s: string) {
    forall c <- s :: IsWhitespace(c)
  }

  predicate StartsAt(s: string, part: string, i: nat) {
    i + |part| <= |s| && s[i..i + |part|] == part
  }

  predicate HasText(s: string, part: string) {
    exists i :: 0 <= i <= |s| && StartsAt(s, part, i)
  }

  function Digit(n: nat): char
    requires n < 10
  {
    '0' + n as char
  }

  function Decimal(n: nat): (s: string)
    ensures s != "" && forall c <- s :: '0' <= c <= '9'
  {
    if n < 10 then [Digit(n)] else Decimal(n / 10) + [Digit(n % 10)]
  }

  /** Different numbers are written differently. */
  lemma {:induction false} DecimalIsInjective(m: nat, n: nat)
    requires Decimal(m) == Decimal(n)
    ensures m == n
  {
    var s, t := Decimal(m), Decimal(n);
    assert s[|s| - 1] == Digit(m % 10) && t[|t| - 1] == Digit(n % 10);
    assert Digit(m % 10) as int == '0' as int + m % 10 && Digit(n % 10) as int == '0' as int + n % 10;
    if m >= 10 && n >= 10 {
      assert s[..|s| - 1] == Decimal(m / 10) && t[..|t| - 1] == Decimal(n / 10);
      DecimalIsInjective(m / 10, n / 10);
    }
  }

  /** A number written after a mark that is no digit can be read back. */
  lemma SuffixIsInjective(a: string, b: string, mark: char, m: nat, n: nat)
    requires !('0' <= mark <= '9')
    requires a + [mark] + Decimal(m) == b + [mark] + Decimal(n)
    ensures m == n
  {
    var s, t := Decimal(m), Decimal(n);
    if |s| < |t| {
      MarkPosition(a, mark, s, b, t);
    } else if |t| < |s| {
      MarkPosition(b, mark, t, a, s);
    } else {
      var whole := a + [mark] + s;
      assert whole[|whole| - |s|..] == s && whole[|whole| - |t|..] == t;
      DecimalIsInjective(m, n);
    }
  }

  /** Counted from the end, the mark of the shorter suffix falls among the digits of the longer one. */
  lemma MarkPosition(a: string, mark: char, s: string, b: string, t: string)
    requires a + [mark] + s == b + [mark] + t && |s| < |t|
    ensures mark in t
  {
    var whole := a + [mark] + s;
    assert whole[|a|] == mark;
    assert whole[|a|] == t[|a| - |b| - 1];
  }

  // ----- Trimming -----------------------------------------------------------------------------------

  function TrimStart(s: string, p: char -> bool): string {
    if s != "" && p(s[0]) then TrimStart(s[1..], p) else s
  }

  function TrimEnd(s: string, p: char -> bool): string {
    if s != "" && p(s[|s| - 1]) then TrimEnd(s[..|s| - 1], p) else s
  }

  const whitespace := (c: char) => IsWhitespace(c)

  /** Without the white space around it. */
  function Trimmed(s: string): string {
    TrimEnd(TrimStart(s, whitespace), whitespace)
  }

  lemma {:induction false} StartSpan(s: string)
    ensures var n := |s| - |TrimStart(s, whitespace)|;
            0 <= n <= |s| && s[n..] == TrimStart(s, whitespace) && forall k :: 0 <= k < n ==> IsWhitespace(s[k])
  {
    if s != "" && IsWhitespace(s[0]) {
      StartSpan(s[1..]);
      var n := |s| - |TrimStart(s, whitespace)|;
      assert s[n..] == s[1..][n - 1..];
      assert forall k :: 0 < k < n ==> s[k] == s[1..][k - 1];
    }
  }

  lemma {:induction false} EndSpan(s: string)
    ensures var n := |TrimEnd(s, whitespace)|;
            n <= |s| && s[..n] == TrimEnd(s, whitespace) && forall k :: n <= k < |s| ==> IsWhitespace(s[k])
  {
    if s != "" && IsWhitespace(s[|s| - 1]) {
      EndSpan(s[..|s| - 1]);
    }
  }

  /** Only white space is trimmed away. */
  lemma TrimSpan(s: string) returns (p: nat)
    ensures p + |Trimmed(s)| <= |s| && s[p..p + |Trimmed(s)|] == Trimmed(s)
    ensures forall k :: 0 <= k < p || p + |Trimmed(s)| <= k < |s| ==> IsWhitespace(s[k])
  {
    hide TrimStart, TrimEnd, IsWhitespace;
    var t := TrimStart(s, whitespace);
    StartSpan(s);
    EndSpan(t);
    p := |s| - |t|;
    forall k | p + |Trimmed(s)| <= k < |s| ensures IsWhitespace(s[k]) {
      assert s[k] == t[k - p];
    }
  }

  // ----- Splitting ----------------------------------------------------------------------------------

  /** The pieces between the marks. */
  function Split(mark: char, s: string): (pieces: seq<string>)
    ensures |pieces| > 0
  {
    if s == "" then [""]
    else
      var rest := Split(mark, s[1..]);
      if s[0] == mark then [""] + rest else [[s[0]] + rest[0]] + rest[1..]
  }

  lemma SplitFirst(mark: char, c: char, s: string)
    ensures Split(mark, [c] + s) ==
            if c == mark then [""] + Split(mark, s) else [[c] + Split(mark, s)[0]] + Split(mark, s)[1..]
  {
    assert ([c] + s)[1..] == s;
  }

  lemma SplitMark(mark: char, s: string)
    ensures Split(mark, [mark] + s) == [""] + Split(mark, s)
  {
    SplitFirst(mark, mark, s);
  }

  lemma EmptySplits(mark: char)
    ensures Split(mark, "") == [""]
  {
  }

  /** Two texts joined by a mark have the pieces of both. */
  lemma {:induction false} SplitAt(mark: char, a: string, b: string)
    ensures Split(mark, a + [mark] + b) == Split(mark, a) + Split(mark, b)
  {
    hide Split;
    SplitMark(mark, b);
    if a == "" {
      assert a + [mark] + b == [mark] + b;
      EmptySplits(mark);
    } else {
      var first, rest := Split(mark, a[1..]), Split(mark, b);
      SplitAt(mark, a[1..], b);
      assert a == [a[0]] + a[1..] && a + [mark] + b == [a[0]] + (a[1..] + [mark] + b);
      SplitFirst(mark, a[0], a[1..]);
      SplitFirst(mark, a[0], a[1..] + [mark] + b);
      assert (first + rest)[0] == first[0] && (first + rest)[1..] == first[1..] + rest;
    }
  }

  lemma {:induction false} SplitPlain(mark: char, s: string)
    requires mark !in s
    ensures Split(mark, s) == [s]
  {
    if s != "" {
      SplitPlain(mark, s[1..]);
      assert [s[0]] + s[1..] == s;
    }
  }
}
