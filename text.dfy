/**
 * The handful of Python string operations the parser relies on, over `seq<char>`:
 * substring tests (`in`), `strip`, `split`, `replace`, `isdigit` and `int`.
 * Only ASCII digits are digits here; see README for what that leaves out.
 */
module Text {
  import opened Wrappers

  /** Python's `str.isspace()` characters, which is also what `strip()` and `\s` remove or match. */
  predicate IsSpace(c: char)
  {
    || c == ' ' || '\t' <= c <= '\r' || '\U{1c}' <= c <= '\U{1f}'
    || c == '\U{85}' || c == '\U{a0}' || c == '\U{1680}' || '\U{2000}' <= c <= '\U{200a}'
    || c == '\U{2028}' || c == '\U{2029}' || c == '\U{202f}' || c == '\U{205f}' || c == '\U{3000}'
  }

  predicate IsDigit(c: char)
  {
    '0' <= c <= '9'
  }

  function DigitValue(c: char): (d: nat)
    requires IsDigit(c)
    ensures d < 10
  {
    c as int - '0' as int
  }

  /** `s.isdigit()` restricted to ASCII: non-empty and digits only. */
  predicate IsDigits(s: string)
  {
    |s| > 0 && forall i :: 0 <= i < |s| ==> IsDigit(s[i])
  }

  predicate StartsWith(s: string, p: string)
  {
    |p| <= |s| && s[..|p|] == p
  }

  /** `p` occurs in `s` starting at index `i`. */
  predicate OccursAt(s: string, p: string, i: nat)
  {
    i + |p| <= |s| && s[i..i + |p|] == p
  }

  /** Python's `p in s` for strings. */
  predicate Contains(s: string, p: string)
  {
    exists i: nat | i <= |s| :: OccursAt(s, p, i)
  }

  /** A character occurs in `s` exactly when the one-character string does. */
  lemma ContainsChar(s: string, c: char)
    ensures Contains(s, [c]) <==> c in s
  {
    if c in s {
      var i :| 0 <= i < |s| && s[i] == c;
      assert OccursAt(s, [c], i);
    }
    if Contains(s, [c]) {
      var i: nat :| i <= |s| && OccursAt(s, [c], i);
      assert s[i..i + 1] == [c];
      assert s[i] == c;
    }
  }

  function TrimLeft(s: string): (r: string)
    ensures |r| <= |s| && r == s[|s| - |r|..]
    ensures r == [] || !IsSpace(r[0])
    ensures forall i :: 0 <= i < |s| - |r| ==> IsSpace(s[i])
  {
    if s != [] && IsSpace(s[0]) then TrimLeft(s[1..]) else s
  }

  function TrimRight(s: string): (r: string)
    ensures |r| <= |s| && r == s[..|r|]
    ensures r == [] || !IsSpace(r[|r| - 1])
    ensures forall i :: |r| <= i < |s| ==> IsSpace(s[i])
  {
    if s != [] && IsSpace(s[|s| - 1]) then TrimRight(s[..|s| - 1]) else s
  }

  /** Python's `s.strip()`: drop whitespace at both ends. */
  function Strip(s: string): (r: string)
  {
    TrimRight(TrimLeft(s))
  }

  /** A string with no whitespace at either end is its own `strip()`. */
  lemma StripStable(s: string)
    requires s == [] || (!IsSpace(s[0]) && !IsSpace(s[|s| - 1]))
    ensures Strip(s) == s
  {
  }

  /** A text that lacks one of the pattern's characters does not contain the pattern. */
  lemma AbsentByChar(s: string, p: string, j: nat)
    requires j < |p| && p[j] !in s
    ensures !Contains(s, p)
  {

  }

  /** The text before the first `c` of a text written with `c` after a `c`-free part is that part. */
  lemma BeforeAt(a: string, c: char, b: string)
    requires c !in a
    ensures Before(a + [c] + b, c) == a
  {
    var s := a + [c] + b;
    var r := Before(s, c);
    assert s[|a|] == c;
    assert forall i :: 0 <= i < |a| ==> s[i] == a[i];
  }

  /** One trailing space is all `strip()` removes from a text without whitespace at its ends. */
  lemma StripTrailingSpace(s: string)
    requires s != [] && !IsSpace(s[0]) && !IsSpace(s[|s| - 1])
    ensures Strip(s + " ") == s
  {
    var t := s + " ";
    assert TrimLeft(t) == t;
    assert t[..|t| - 1] == s;
    assert TrimRight(t) == TrimRight(s);
  }

  /** Index of the first occurrence of `c`, as `str.find` with a one-character pattern. */
  function Find(s: string, c: char): (r: Option<nat>)
    ensures r.None? <==> c !in s
    ensures r.Some? ==> r.value < |s| && s[r.value] == c && c !in s[..r.value]
  {
    if s == [] then None
    else if s[0] == c then Some(0)
    else match Find(s[1..], c)
      case None => None
      case Some(k) => assert s[1..][..k] == s[1..k + 1]; Some(k + 1)
  }

  /** Index of the last occurrence of `c`, as `str.rfind`. */
  function RFind(s: string, c: char): (r: Option<nat>)
    ensures r.None? <==> c !in s
    ensures r.Some? ==> r.value < |s| && s[r.value] == c && c !in s[r.value + 1..]
  {
    if s == [] then None
    else if s[|s| - 1] == c then Some(|s| - 1)
    else RFind(s[..|s| - 1], c)
  }

  /** Index of the first character of `s` that is in `ds`. */
  function FindAny(s: string, ds: set<char>): (r: Option<nat>)
    ensures r.None? <==> forall i :: 0 <= i < |s| ==> s[i] !in ds
    ensures r.Some? ==> r.value < |s| && s[r.value] in ds
    ensures r.Some? ==> forall i :: 0 <= i < r.value ==> s[i] !in ds
  {
    if s == [] then None
    else if s[0] in ds then Some(0)
    else match FindAny(s[1..], ds)
      case None => None
      case Some(k) => Some(k + 1)
  }

  /**
   * `re.findall(".*?[ds]", s)[0][:-1]`: the leftmost lazy match of anything-but-newline up to a
   * character of `ds`, without that character. Because `.` does not match a newline, the match
   * starts after the last newline that precedes the first delimiter. `None` is the `IndexError`
   * of an empty match list.
   */
  function LazyMatch(s: string, ds: set<char>): (r: Option<string>)
    requires '\n' !in ds
    ensures r.None? <==> forall i :: 0 <= i < |s| ==> s[i] !in ds
    ensures r.Some? ==> '\n' !in r.value && forall i :: 0 <= i < |r.value| ==> r.value[i] !in ds
    ensures r.Some? ==> exists p: nat :: (OccursAt(s, r.value, p)
                                          && p + |r.value| < |s| && s[p + |r.value|] in ds
                                          && (p == 0 || s[p - 1] == '\n')
                                          && forall i :: 0 <= i < p + |r.value| ==> s[i] !in ds)
  {
    match FindAny(s, ds)
    case None => None
    case Some(k) =>
      match RFind(s[..k], '\n')
      case None => assert OccursAt(s, s[..k], 0); Some(s[..k])
      case Some(p) => assert OccursAt(s, s[p + 1..k], p + 1); Some(s[p + 1..k])
  }

  /** The text before the first `c`, or all of `s`: Python's `s.split(c)[0]`. */
  function Before(s: string, c: char): (r: string)
    ensures |r| <= |s| && c !in r && r == s[..|r|]
    ensures c in s ==> s[|r|] == c
    ensures c !in s ==> r == s
  {
    match Find(s, c)
    case None => s
    case Some(k) => s[..k]
  }

  function Count(s: string, c: char): (n: nat)
    ensures n == 0 <==> c !in s
  {
    if s == [] then 0 else (if s[0] == c then 1 else 0) + Count(s[1..], c)
  }

  /**
   * Python's `a, b = s.split(c)`: the unpacking succeeds only when `c` occurs exactly once,
   * and then gives the text before and after it.
   */
  function SplitPair(s: string, c: char): (r: Option<(string, string)>)
    ensures r.Some? <==> Count(s, c) == 1
    ensures r.Some? ==> s == r.value.0 + [c] + r.value.1 && c !in r.value.0 && c !in r.value.1
  {
    match Find(s, c)
    case None => None
    case Some(k) =>
      CountSplit(s, c, k);
      if c in s[k + 1..] then None else Some((s[..k], s[k + 1..]))
  }

  /** Splitting a text written around exactly one separator gives back its two sides. */
  lemma SplitPairAt(a: string, c: char, b: string)
    requires c !in a && c !in b
    ensures SplitPair(a + [c] + b, c) == Some((a, b))
  {
    var s := a + [c] + b;
    assert s[|a|] == c;
    var k := Find(s, c).value;
    assert forall i :: 0 <= i < |a| ==> s[i] == a[i];
    assert s[..k] == a && s[k + 1..] == b;
  }

  /** The lazy match of a line up to its first delimiter is the text before that delimiter. */
  lemma LazyMatchAt(a: string, d: char, rest: string, ds: set<char>)
    requires '\n' !in ds && '\n' !in a && d in ds
    requires forall i :: 0 <= i < |a| ==> a[i] !in ds
    ensures LazyMatch(a + [d] + rest, ds) == Some(a)
  {
    var s := a + [d] + rest;
    assert s[|a|] == d;
    var k := FindAny(s, ds).value;
    assert forall i :: 0 <= i < |a| ==> s[i] == a[i];
    assert s[..k] == a;
  }

  lemma CountSplit(s: string, c: char, k: nat)
    requires k < |s| && s[k] == c && c !in s[..k]
    ensures Count(s, c) == 1 + Count(s[k + 1..], c)
  {
    if k > 0 {
      assert s[1..][..k - 1] == s[1..k];
      assert s[1..][k..] == s[k + 1..];
      CountSplit(s[1..], c, k - 1);
    }
  }

  /** Python's `s.replace(p, q)` for a non-empty pattern: left to right, non-overlapping. */
  function Replace(s: string, p: string, q: string): string
    requires p != []
  {
    if |s| < |p| then s
    else if s[..|p|] == p then q + Replace(s[|p|..], p, q)
    else [s[0]] + Replace(s[1..], p, q)
  }

  /** Replacing a pattern that does not occur changes nothing. */
  lemma {:induction false} ReplaceAbsent(s: string, p: string, q: string)
    requires p != [] && !Contains(s, p)
    ensures Replace(s, p, q) == s
  {
    if |s| >= |p| {
      assert s[0..|p|] == s[..|p|];
      assert !OccursAt(s, p, 0);
      forall i: nat | i <= |s[1..]|
        ensures OccursAt(s[1..], p, i) ==> OccursAt(s, p, i + 1)
      {
        if OccursAt(s[1..], p, i) {
          forall k | 0 <= k < |p| ensures s[i + 1..i + 1 + |p|][k] == p[k] {
            assert s[1..][i..i + |p|][k] == p[k];
          }
          assert s[i + 1..i + 1 + |p|] == p;
        }
      }
      ReplaceAbsent(s[1..], p, q);
    }
  }

  /**
   * When the first place `p` can start is right after the prefix `a`, replacing in `a + p + c`
   * keeps `a`, substitutes once and goes on with `c`.
   */
  lemma {:induction false} ReplaceFirst(a: string, p: string, q: string, c: string)
    requires p != []
    requires forall i :: 0 <= i < |a| ==> a[i] != p[0]
    ensures Replace(a + p + c, p, q) == a + q + Replace(c, p, q)
  {
    var s := a + p + c;
    if a == [] {
      assert s == p + c;
      assert s[..|p|] == p;
      assert s[|p|..] == c;
    } else {
      assert s[..|p|][0] == a[0];
      assert s[1..] == a[1..] + p + c;
      ReplaceFirst(a[1..], p, q, c);
      assert a + q + Replace(c, p, q) == [a[0]] + (a[1..] + q + Replace(c, p, q));
    }
  }

  /** Python's `re.sub("[xy]", z, s)` for single characters: every character in `from` becomes `to`. */
  function MapChars(s: string, from: set<char>, to: char): (r: string)
    ensures |r| == |s|
    ensures forall i :: 0 <= i < |s| ==> r[i] == (if s[i] in from then to else s[i])
  {
    if s == [] then [] else [if s[0] in from then to else s[0]] + MapChars(s[1..], from, to)
  }

  /** The value of a string of ASCII digits, most significant first. */
  function DigitsValue(s: string): (n: nat)
    requires forall i :: 0 <= i < |s| ==> IsDigit(s[i])
  {
    if s == [] then 0 else 10 * DigitsValue(s[..|s| - 1]) + DigitValue(s[|s| - 1])
  }

  /** The decimal spelling of a natural number, with no leading zeros. */
  function Decimal(n: nat): (s: string)
    ensures IsDigits(s)
    ensures s[0] == '0' ==> n == 0
  {
    if n < 10 then [('0' as int + n) as char]
    else Decimal(n / 10) + [('0' as int + n % 10) as char]
  }

  /** Reading back a decimal spelling gives the number: the partner of `Decimal`. */
  lemma {:induction false} DecimalRoundTrip(n: nat)
    ensures DigitsValue(Decimal(n)) == n
  {
    if n >= 10 {
      var s := Decimal(n);
      assert s[..|s| - 1] == Decimal(n / 10);
      DecimalRoundTrip(n / 10);
    }
  }

  /**
   * Python's `int(s)` on ASCII text: surrounding whitespace is ignored, an optional `+` or `-`
   * sign, then at least one digit. `None` stands for the `ValueError`.
   */
  function ParseInt(s: string): (r: Option<int>)
    ensures r.Some? ==> var t := Strip(s);
      && t != []
      && (t[0] == '-' ==> r.value <= 0)
      && (IsDigit(t[0]) ==> r.value >= 0)
  {
    var t := Strip(s);
    if t == [] then None
    else if t[0] == '-' || t[0] == '+' then
      (if IsDigits(t[1..]) then
         var v: int := DigitsValue(t[1..]); Some(if t[0] == '-' then -v else v)
       else None)
    else if IsDigits(t) then Some(DigitsValue(t))
    else None
  }

  /** `int()` ignores surrounding whitespace, so stripping first changes nothing. */
  lemma ParseIntStrip(s: string)
    ensures ParseInt(Strip(s)) == ParseInt(s)
  {
    StripStable(Strip(s));
  }

  /** A signed decimal spelling, with the ASCII minus for negative numbers. */
  function SignedDecimal(g: int): (s: string)
  {
    if g < 0 then "-" + Decimal(-g) else Decimal(g)
  }

  /** `int()` reads back what `SignedDecimal` writes. */
  lemma SignedDecimalRoundTrip(g: int)
    ensures ParseInt(SignedDecimal(g)) == Some(g)
  {
    var s := SignedDecimal(g);
    var d := Decimal(if g < 0 then -g else g);
    DecimalRoundTrip(if g < 0 then -g else g);
    assert !IsSpace(s[0]) && !IsSpace(s[|s| - 1]);
    StripStable(s);
    if g < 0 {
      assert s[1..] == d;
    }
  }

  /** `int()` reads a minus sign before a positive decimal as the negative number. */
  lemma NegativeDecimal(n: nat)
    requires n > 0
    ensures ParseInt("-" + Decimal(n)) == Some(-(n as int))
  {
    var d := Decimal(n);
    var s := "-" + d;
    DecimalRoundTrip(n);
    assert !IsSpace(s[0]) && !IsSpace(s[|s| - 1]);
    StripStable(s);
    assert s[1..] == d;
  }
}
