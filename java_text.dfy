/** The handful of java.lang.String operations the core relies on, written out
    on `seq<char>` so that their edge cases (a missing character, an empty
    piece, a leading blank) are part of the model. */
module JavaText {

  /** String.startsWith. */
  predicate StartsWith(s: string, prefix: string)
    ensures StartsWith(s, prefix) ==> |prefix| <= |s| && s == prefix + s[|prefix|..]
  {
    |prefix| <= |s| && s[..|prefix|] == prefix
  }

  /** `sub` occurs in `s` as a contiguous run of characters. */
  ghost predicate IsSubstring(sub: string, s: string) {
    exists i, j :: 0 <= i <= j <= |s| && sub == s[i..j]
  }

  lemma SubstringAt(sub: string, s: string, i: nat, j: nat)
    requires i <= j <= |s| && sub == s[i..j]
    ensures IsSubstring(sub, s)
  {
  }

  /** String.indexOf(char): the first index holding `c`, or -1 when there is none. */
  function IndexOf(s: string, c: char): (r: int)
    ensures -1 <= r < |s|
    ensures r == -1 <==> c !in s
    ensures 0 <= r ==> s[r] == c && c !in s[..r]
  {
    if |s| == 0 then -1
    else if s[0] == c then 0
    else
      var k := IndexOf(s[1..], c);
      assert s[1..][..k + 1] == s[1..k + 2] by { if k >= 0 { } }
      if k == -1 then -1 else k + 1
  }

  /** The first occurrence is where indexOf finds it. */
  lemma IndexOfAt(s: string, c: char, k: nat)
    requires k < |s| && s[k] == c && c !in s[..k]
    ensures IndexOf(s, c) == k
  {
    assert s[k] in s;
  }

  // ---------------------------------------------------------------------------
  // String.trim()

  /** The characters String.trim() removes: every code point at or below U+0020. */
  predicate IsBlank(c: char) {
    c <= ' '
  }

  /** trim's forward scan: the first index at or after `i` that is not blank. */
  function SkipBlanks(s: string, i: nat): (n: nat)
    requires i <= |s|
    ensures i <= n <= |s|
    ensures forall k :: i <= k < n ==> IsBlank(s[k])
    ensures n < |s| ==> !IsBlank(s[n])
    decreases |s| - i
  {
    if i < |s| && IsBlank(s[i]) then SkipBlanks(s, i + 1) else i
  }

  /** trim's backward scan: the end of the text once the blanks before index
      `j` are dropped. */
  function DropBlanksBefore(s: string, j: nat): (m: nat)
    requires j <= |s|
    ensures m <= j
    ensures forall k :: m <= k < j ==> IsBlank(s[k])
    ensures m > 0 ==> !IsBlank(s[m - 1])
    decreases j
  {
    if j > 0 && IsBlank(s[j - 1]) then DropBlanksBefore(s, j - 1) else j
  }

  /** Every character of `s` before index i and from index j on is blank. */
  predicate BlankOutside(s: string, i: nat, j: nat)
    requires i <= j <= |s|
  {
    && (forall k :: 0 <= k < i ==> IsBlank(s[k]))
    && (forall k :: j <= k < |s| ==> IsBlank(s[k]))
  }

  /** String.trim(): the text from the first non-blank character to the last
      one, with only blanks before and after it. */
  function Trim(s: string): (r: string)
    ensures var i := SkipBlanks(s, 0);
      i + |r| <= |s| && r == s[i..i + |r|] && BlankOutside(s, i, i + |r|)
    ensures IsSubstring(r, s)
    ensures r != [] ==> !IsBlank(r[0]) && !IsBlank(r[|r| - 1])
    ensures s == [] || (!IsBlank(s[0]) && !IsBlank(s[|s| - 1])) ==> r == s
  {
    var i := SkipBlanks(s, 0);
    var j := DropBlanksBefore(s, |s|);
    if j <= i then
      SubstringAt([], s, i, i);
      []
    else
      SubstringAt(s[i..j], s, i, j);
      s[i..j]
  }

  /** Trim is determined by its contract: a run with non-blank ends and only
      blanks around it is what trim returns. */
  lemma TrimUnique(s: string, i: nat, j: nat)
    requires i < j <= |s| && BlankOutside(s, i, j)
    requires !IsBlank(s[i]) && !IsBlank(s[j - 1])
    ensures Trim(s) == s[i..j]
  {
    var r := Trim(s);
    var a := SkipBlanks(s, 0);
    var e := a + |r|;
    assert BlankOutside(s, a, e);
    assert a <= i;
    assert r != [];
    assert r[0] == s[a];
    assert a == i;
    assert r[|r| - 1] == s[e - 1];
    assert e == j;
  }

  /** Blanks around a text with non-blank ends are exactly what trim removes. */
  lemma TrimPadded(pre: string, core: string, post: string)
    requires forall k :: 0 <= k < |pre| ==> IsBlank(pre[k])
    requires forall k :: 0 <= k < |post| ==> IsBlank(post[k])
    requires core != [] && !IsBlank(core[0]) && !IsBlank(core[|core| - 1])
    ensures Trim(pre + core + post) == core
  {
    var s := pre + core + post;
    var i, j := |pre|, |pre| + |core|;
    assert s[i..j] == core;
    assert s[i] == core[0] && s[j - 1] == core[|core| - 1];
    forall k | 0 <= k < i ensures IsBlank(s[k]) {
      assert s[k] == pre[k];
    }
    forall k | j <= k < |s| ensures IsBlank(s[k]) {
      assert s[k] == post[k - j];
    }
    TrimUnique(s, i, j);
  }

  lemma TrimIdempotent(s: string)
    ensures Trim(Trim(s)) == Trim(s)
  {
  }

  // ---------------------------------------------------------------------------
  // String.equalsIgnoreCase

  /** The case folding under which String.equalsIgnoreCase compares a string
      with the ASCII word "unknown": upper-case ASCII letters fold to lower
      case and KELVIN SIGN (U+212A) folds to 'k'. No other character folds
      onto one of the letters u, n, k, o, w. */
  function FoldCase(c: char): char {
    if 'A' <= c <= 'Z' then (c as int + 32) as char
    else if c == '\U{212A}' then 'k'
    else c
  }

  predicate EqualsIgnoreCase(a: string, b: string)
    ensures EqualsIgnoreCase(a, b) ==> |a| == |b|
    ensures a == b ==> EqualsIgnoreCase(a, b)
  {
    |a| == |b| && forall i :: 0 <= i < |a| ==> FoldCase(a[i]) == FoldCase(b[i])
  }

  // ---------------------------------------------------------------------------
  // String.split(String) with a one-character, non-special separator and the
  // default limit 0

  /** The pieces of `s` between occurrences of `c`: one more piece than there
      are occurrences. */
  function Pieces(s: string, c: char): (r: seq<string>)
    ensures |r| >= 1
    ensures r[0] == if c in s then s[..IndexOf(s, c)] else s
    ensures forall i :: 0 <= i < |r| ==> c !in r[i]
    decreases |s|
  {
    var k := IndexOf(s, c);
    if k == -1 then [s] else [s[..k]] + Pieces(s[k + 1..], c)
  }

  /** Limit 0 discards every empty string at the end of the result. */
  function DropTrailingEmpty(parts: seq<string>): (r: seq<string>)
    ensures |r| <= |parts| && r == parts[..|r|]
    ensures r != [] ==> r[|r| - 1] != ""
    ensures forall i :: |r| <= i < |parts| ==> parts[i] == ""
  {
    if parts != [] && parts[|parts| - 1] == "" then DropTrailingEmpty(parts[..|parts| - 1]) else parts
  }

  /** String.split: a string without the separator is returned whole (so ""
      splits into [""]); otherwise the pieces, less the empty ones at the end. */
  function Split(s: string, c: char): (r: seq<string>)
    ensures c !in s ==> r == [s]
    ensures c in s ==> r == [] || r[|r| - 1] != ""
    ensures forall i :: 0 <= i < |r| ==> c !in r[i]
  {
    if c !in s then [s] else DropTrailingEmpty(Pieces(s, c))
  }

  predicate AllEmpty(parts: seq<string>) {
    forall i :: 0 <= i < |parts| ==> parts[i] == ""
  }

  predicate OnlyChar(s: string, c: char) {
    forall i :: 0 <= i < |s| ==> s[i] == c
  }

  lemma AllEmptyCons(h: string, q: seq<string>)
    ensures AllEmpty([h] + q) <==> h == "" && AllEmpty(q)
  {
    var p := [h] + q;
    assert p[0] == h;
    if AllEmpty(p) {
      forall i | 0 <= i < |q| ensures q[i] == "" {
        assert p[i + 1] == q[i];
      }
    }
  }

  lemma OnlyCharAfterFirst(s: string, c: char)
    requires c in s
    ensures OnlyChar(s, c) <==> IndexOf(s, c) == 0 && OnlyChar(s[1..], c)
  {
    var k := IndexOf(s, c);
    if k > 0 {
      assert s[0] in s[..k];
    }
    if k == 0 && OnlyChar(s[1..], c) {
      forall j | 1 <= j < |s| ensures s[j] == c {
        assert s[j] == s[1..][j - 1];
      }
    }
  }

  lemma {:induction false} PiecesAllEmpty(s: string, c: char)
    ensures AllEmpty(Pieces(s, c)) <==> OnlyChar(s, c)
    decreases |s|
  {
    var k := IndexOf(s, c);
    if k == -1 {
      if s != [] {
        assert s[0] in s;
      }
    } else {
      var rest := s[k + 1..];
      PiecesAllEmpty(rest, c);
      assert Pieces(s, c) == [s[..k]] + Pieces(rest, c);
      AllEmptyCons(s[..k], Pieces(rest, c));
      OnlyCharAfterFirst(s, c);
    }
  }

  /** A split comes back empty exactly when the text is non-empty and consists
      of separators only; otherwise its first element is the text before the
      first separator. */
  lemma SplitFirst(s: string, c: char)
    ensures Split(s, c) == [] <==> s != [] && OnlyChar(s, c)
    ensures Split(s, c) != [] ==> Split(s, c)[0] == if c in s then s[..IndexOf(s, c)] else s
  {
    var parts := Pieces(s, c);
    PiecesAllEmpty(s, c);
    if c in s {
      var r := DropTrailingEmpty(parts);
      if r != [] {
        assert r[0] == parts[0];
        assert r[|r| - 1] == parts[|r| - 1];
      }
      if r == [] {
        assert AllEmpty(parts);
      }
    } else if s != [] {
      assert s[0] in s;
    }
  }

  // ---------------------------------------------------------------------------
  // String.valueOf(long)

  predicate IsDigit(c: char) {
    '0' <= c <= '9'
  }

  predicate IsDigits(s: string) {
    forall i :: 0 <= i < |s| ==> IsDigit(s[i])
  }

  function DigitChar(d: nat): (c: char)
    requires d < 10
    ensures IsDigit(c)
  {
    (('0' as int) + d) as char
  }

  function DigitValue(c: char): (d: nat)
    requires IsDigit(c)
    ensures d < 10
  {
    (c as int) - ('0' as int)
  }

  /** The decimal text of a non-negative number, without leading zeros. */
  function NatToDecimal(n: nat): (r: string)
    ensures |r| >= 1 && IsDigits(r)
    decreases n
  {
    if n < 10 then [DigitChar(n)] else NatToDecimal(n / 10) + [DigitChar(n % 10)]
  }

  /** String.valueOf(long): a minus sign before the digits of a negative value. */
  function IntToDecimal(n: int): (r: string)
    ensures |r| >= 1
    ensures r[0] == '-' <==> n < 0
  {
    if n < 0 then "-" + NatToDecimal(-n) else NatToDecimal(n)
  }

  /** The number a string of decimal digits denotes. */
  function DecimalValue(s: string): nat
    requires IsDigits(s)
  {
    if s == [] then 0 else DecimalValue(s[..|s| - 1]) * 10 + DigitValue(s[|s| - 1])
  }

  /** Reading back the decimal text gives the number, and the text has no
      leading zero unless the number is zero. */
  lemma {:induction false} DecimalRoundTrip(n: nat)
    ensures DecimalValue(NatToDecimal(n)) == n
    ensures NatToDecimal(n)[0] == '0' ==> n == 0
    decreases n
  {
    if n >= 10 {
      DecimalRoundTrip(n / 10);
      var r := NatToDecimal(n);
      assert r[..|r| - 1] == NatToDecimal(n / 10);
      assert r[0] == NatToDecimal(n / 10)[0];
    }
  }

  /** Distinct numbers have distinct decimal texts. */
  lemma IntToDecimalInjective(a: int, b: int)
    requires IntToDecimal(a) == IntToDecimal(b)
    ensures a == b
  {
    if a < 0 && b < 0 {
      assert NatToDecimal(-a) == IntToDecimal(a)[1..];
      assert NatToDecimal(-b) == IntToDecimal(b)[1..];
      DecimalRoundTrip(-a);
      DecimalRoundTrip(-b);
    } else if a >= 0 && b >= 0 {
      DecimalRoundTrip(a);
      DecimalRoundTrip(b);
    }
  }
}
