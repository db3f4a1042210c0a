/**
 * The few pieces of Python's string handling that the collection scripts rely on:
 * `str(n)` for integers, `int(s)` for decimal tokens and `str.split()` with no
 * argument (split on runs of whitespace, dropping empty pieces).
 */
module Text {
  import opened Wrappers

  /** The characters Python's `str.split()` and `str.strip()` treat as whitespace. */
  predicate IsSpace(c: char) {
    var n := c as int;
    (9 <= n <= 13) || (28 <= n <= 32) || n == 0x85 || n == 0xA0 || n == 0x1680
    || (0x2000 <= n <= 0x200A) || n == 0x2028 || n == 0x2029 || n == 0x202F
    || n == 0x205F || n == 0x3000
  }

  predicate NoSpace(s: string) {
    forall k :: 0 <= k < |s| ==> !IsSpace(s[k])
  }

  predicate IsDigit(c: char) {
    '0' <= c <= '9'
  }

  predicate AllDigits(s: string) {
    forall k :: 0 <= k < |s| ==> IsDigit(s[k])
  }

  function DigitChar(d: nat): (c: char)
    requires d < 10
    ensures IsDigit(c) && c as int - '0' as int == d
  {
    (d + '0' as int) as char
  }

  /** Python's `str(n)` for a non-negative integer: decimal digits, no leading zeros. */
  function ShowNat(n: nat): (s: string)
    ensures s != [] && AllDigits(s)
    ensures |s| > 1 ==> s[0] != '0'
    decreases n
  {
    if n < 10 then [DigitChar(n)] else ShowNat(n / 10) + [DigitChar(n % 10)]
  }

  /** Python's `str(n)` for any integer. */
  function Show(n: int): (s: string)
    ensures s != [] && NoSpace(s)
    ensures forall k :: 0 <= k < |s| ==> IsDigit(s[k]) || s[k] == '-'
  {
    if n < 0 then "-" + ShowNat(-n) else ShowNat(n)
  }

  /** The value of a string of decimal digits, most significant first. */
  function DigitsValue(s: string): (v: nat)
    requires AllDigits(s)
    decreases |s|
  {
    if s == [] then 0
    else 10 * DigitsValue(s[..|s| - 1]) + (s[|s| - 1] as int - '0' as int)
  }

  /**
   * Python's `int(s)` on a token without surrounding whitespace: an optional
   * sign followed by at least one decimal digit; anything else raises.
   */
  function ParseInt(s: string): (r: Option<int>)
    ensures r.Some? ==> s != [] && (AllDigits(s) || (s[0] in "+-" && |s| > 1 && AllDigits(s[1..])))
  {
    if s == [] then None
    else if s[0] == '-' || s[0] == '+' then
      if |s| > 1 && AllDigits(s[1..]) then
        var v: int := DigitsValue(s[1..]);
        Some(if s[0] == '-' then -v else v)
      else None
    else if AllDigits(s) then Some(DigitsValue(s))
    else None
  }

  lemma {:induction false} DigitsOfShowNat(n: nat)
    ensures DigitsValue(ShowNat(n)) == n
    decreases n
  {
    if n >= 10 {
      var s := ShowNat(n);
      DigitsOfShowNat(n / 10);
      assert s[..|s| - 1] == ShowNat(n / 10);
    }
  }

  lemma ParseShowNat(m: nat)
    ensures ParseInt(ShowNat(m)) == Some(m)
  {
    DigitsOfShowNat(m);
    assert IsDigit(ShowNat(m)[0]);
  }

  lemma ParseShowNegative(m: nat)
    ensures ParseInt("-" + ShowNat(m)) == Some(-(m as int))
  {
    var s := "-" + ShowNat(m);
    assert s[1..] == ShowNat(m);
    DigitsOfShowNat(m);
  }

  /** Reading back what `str` wrote gives the same integer. */
  lemma ParseShow(n: int)
    ensures ParseInt(Show(n)) == Some(n)
  {
    if n < 0 {
      ParseShowNegative(-n);
    } else {
      ParseShowNat(n);
    }
  }

  /** The end of the whitespace-free run that starts at `i`. */
  function TokenEnd(s: string, i: nat): (j: nat)
    requires i <= |s|
    ensures i <= j <= |s|
    ensures j == |s| || IsSpace(s[j])
    ensures forall k :: i <= k < j ==> !IsSpace(s[k])
    decreases |s| - i
  {
    if i == |s| || IsSpace(s[i]) then i else TokenEnd(s, i + 1)
  }

  /** Python's `s.split()` (equally `s.strip().split()`): the maximal whitespace-free runs, in order. */
  function Split(s: string): (t: seq<string>)
    ensures forall k :: 0 <= k < |t| ==> t[k] != [] && NoSpace(t[k])
    decreases |s|
  {
    if s == [] then []
    else if IsSpace(s[0]) then Split(s[1..])
    else
      var j := TokenEnd(s, 0);
      [s[..j]] + Split(s[j..])
  }

  /** A leading whitespace-free token followed by a whitespace character is split off whole. */
  lemma SplitToken(a: string, sp: char, b: string)
    requires a != [] && NoSpace(a) && IsSpace(sp)
    ensures Split(a + [sp] + b) == [a] + Split(b)
  {
    var s := a + [sp] + b;
    assert s[|a|] == sp;
    assert forall k :: 0 <= k < |a| ==> s[k] == a[k];
    var j := TokenEnd(s, 0);
    assert j == |a|;
    assert s[..j] == a;
    assert s[j..] == [sp] + b;
    assert ([sp] + b)[1..] == b;
  }

  /** A whitespace-free string splits into itself. */
  lemma SplitWhole(a: string)
    requires a != [] && NoSpace(a)
    ensures Split(a) == [a]
  {
    var j := TokenEnd(a, 0);
    assert j == |a|;
    assert a[..j] == a && a[j..] == [];
  }

  /** A trailing whitespace character (the newline of a file line) does not change the split. */
  lemma {:induction false} SplitTrailingSpace(s: string, c: char)
    requires IsSpace(c)
    ensures Split(s + [c]) == Split(s)
    decreases |s|
  {
    var t := s + [c];
    if s == [] {
      assert t[1..] == [];
    } else if IsSpace(s[0]) {
      assert t[1..] == s[1..] + [c];
      SplitTrailingSpace(s[1..], c);
    } else {
      var j := TokenEnd(s, 0);
      assert forall k :: 0 <= k < |s| ==> t[k] == s[k];
      assert t[|s|] == c;
      assert TokenEnd(t, 0) == j;
      assert t[..j] == s[..j];
      assert t[j..] == s[j..] + [c];
      SplitTrailingSpace(s[j..], c);
    }
  }

  /** The tokens written one after another with a single space between neighbours. */
  function JoinSpaced(t: seq<string>): (s: string)
    decreases |t|
  {
    if t == [] then [] else if |t| == 1 then t[0] else t[0] + " " + JoinSpaced(t[1..])
  }

  /** Splitting undoes a space-join of non-empty whitespace-free tokens. */
  lemma {:induction false} SplitJoinSpaced(t: seq<string>)
    requires forall k :: 0 <= k < |t| ==> t[k] != [] && NoSpace(t[k])
    ensures Split(JoinSpaced(t)) == t
    decreases |t|
  {
    if |t| == 1 {
      SplitWhole(t[0]);
    } else if |t| > 1 {
      SplitJoinSpaced(t[1..]);
      SplitToken(t[0], ' ', JoinSpaced(t[1..]));
      assert t[0] + " " + JoinSpaced(t[1..]) == t[0] + [' '] + JoinSpaced(t[1..]);
      assert [t[0]] + t[1..] == t;
    }
  }

  lemma {:induction false} NoNewlineInJoin(t: seq<string>)
    requires forall k :: 0 <= k < |t| ==> NoSpace(t[k])
    ensures forall k :: 0 <= k < |JoinSpaced(t)| ==> JoinSpaced(t)[k] != '\n'
    decreases |t|
  {
    if |t| > 1 {
      NoNewlineInJoin(t[1..]);
      assert IsSpace('\n');
    }
  }

  /** Python's `s[:-1]`: everything but the last character (empty stays empty). */
  function DropLast(s: string): (r: string)
    ensures |r| == if s == [] then 0 else |s| - 1
    ensures r <= s
  {
    if s == [] then [] else s[..|s| - 1]
  }

  /** Python's `s.split(c)` for one separator character: every piece, empty ones included. */
  function SplitOn(s: string, c: char): (parts: seq<string>)
    ensures |parts| >= 1
    decreases |s|
  {
    if s == [] then [[]]
    else
      var rest := SplitOn(s[1..], c);
      if s[0] == c then [[]] + rest else [[s[0]] + rest[0]] + rest[1..]
  }

  /** A piece free of the separator, followed by the separator, is split off whole. */
  lemma {:induction false} SplitOnPiece(a: string, c: char, b: string)
    requires c !in a
    ensures SplitOn(a + [c] + b, c) == [a] + SplitOn(b, c)
    decreases |a|
  {
    if a == [] {
      assert a + [c] + b == [c] + b;
      assert ([c] + b)[1..] == b;
    } else {
      SplitOnPiece(a[1..], c, b);
      assert (a + [c] + b)[1..] == a[1..] + [c] + b;
      assert [a[0]] + a[1..] == a;
    }
  }

  /** A string free of the separator is one piece. */
  lemma {:induction false} SplitOnWhole(a: string, c: char)
    requires c !in a
    ensures SplitOn(a, c) == [a]
    decreases |a|
  {
    if a != [] {
      SplitOnWhole(a[1..], c);
      assert [a[0]] + a[1..] == a;
    }
  }
}
