/** Character-string helpers used by the client: Python's `str.lower`, the
    substring test `pat in s`, `str.rstrip('/')`, `os.path.basename` and the
    decimal rendering of integers. */
module Text {

  datatype Option<+T> = None | Some(value: T)

  /** `str.lower` on one character, restricted to the ASCII letters. */
  function LowerChar(c: char): char
  {
    if 'A' <= c <= 'Z' then (c as int + 32) as char else c
  }

  /** `s.lower()`: every ASCII upper-case letter is replaced by its lower-case
      form, every other character is kept. */
  function Lower(s: string): (r: string)
    ensures |r| == |s|
    ensures forall i :: 0 <= i < |s| ==> r[i] == LowerChar(s[i])
  {
    if s == [] then [] else [LowerChar(s[0])] + Lower(s[1..])
  }

  lemma {:induction false} LowerAppend(a: string, b: string)
    ensures Lower(a + b) == Lower(a) + Lower(b)
  {
    var l, la, lb := Lower(a + b), Lower(a), Lower(b);
    assert |l| == |la + lb|;
    forall i | 0 <= i < |l| ensures l[i] == (la + lb)[i] {
      if i < |a| {
        assert (a + b)[i] == a[i];
      } else {
        assert (a + b)[i] == b[i - |a|];
      }
    }
  }

  /** `pat` occurs in `s` starting at index `i`. */
  predicate OccursAt(s: string, pat: string, i: int)
  {
    0 <= i && i + |pat| <= |s| && s[i..i + |pat|] == pat
  }

  /** Python's `pat in s` for strings. */
  function Contains(s: string, pat: string): (b: bool)
    ensures b <==> exists i :: OccursAt(s, pat, i)
    decreases |s|
  {
    if |s| < |pat| then
      assert forall i :: !OccursAt(s, pat, i);
      false
    else if s[..|pat|] == pat then
      assert OccursAt(s, pat, 0);
      true
    else
      ShiftOccurrence(s, pat);
      Contains(s[1..], pat)
  }

  lemma ShiftOccurrence(s: string, pat: string)
    requires |s| >= |pat| && s[..|pat|] != pat
    ensures (exists i :: OccursAt(s, pat, i)) <==> (exists i :: OccursAt(s[1..], pat, i))
  {
    if exists i :: OccursAt(s, pat, i) {
      var i :| OccursAt(s, pat, i);
      assert i != 0;
      assert s[1..][i - 1..i - 1 + |pat|] == s[i..i + |pat|];
      assert OccursAt(s[1..], pat, i - 1);
    }
    if exists i :: OccursAt(s[1..], pat, i) {
      var i :| OccursAt(s[1..], pat, i);
      assert s[i + 1..i + 1 + |pat|] == s[1..][i..i + |pat|];
      assert OccursAt(s, pat, i + 1);
    }
  }

  /** An occurrence inside `x` is an occurrence inside `a + x + b`. */
  lemma ContainsInContext(a: string, x: string, b: string, pat: string)
    requires Contains(x, pat)
    ensures Contains(a + x + b, pat)
  {
    var i :| OccursAt(x, pat, i);
    var s := a + x + b;
    assert s[|a| + i..|a| + i + |pat|] == x[i..i + |pat|];
    assert OccursAt(s, pat, |a| + i);
  }

  /** `s.rstrip('/')`: the longest prefix of `s` that does not end in '/'
      and is followed in `s` only by '/' characters. */
  function RStripSlashes(s: string): (r: string)
    ensures |r| <= |s| && r == s[..|r|]
    ensures forall i :: |r| <= i < |s| ==> s[i] == '/'
    ensures r == [] || r[|r| - 1] != '/'
  {
    if s != [] && s[|s| - 1] == '/' then RStripSlashes(s[..|s| - 1]) else s
  }

  /** `os.path.basename` for POSIX paths: what follows the last '/'. */
  function Basename(p: string): (r: string)
    ensures |r| <= |p| && r == p[|p| - |r|..]
    ensures '/' !in r
    ensures |r| == |p| || p[|p| - |r| - 1] == '/'
  {
    if p == [] || p[|p| - 1] == '/' then [] else Basename(p[..|p| - 1]) + [p[|p| - 1]]
  }

  /** A character `repr` writes as itself inside either kind of quotes:
      printable ASCII other than the backslash and the two quote marks. */
  predicate Plain(c: char)
  {
    32 <= c as int < 127 && c != '\\' && c != '\'' && c != '"'
  }

  function HexDigit(d: int): char
    requires 0 <= d < 16
  {
    if d < 10 then Digit(d) else ('a' as int + (d - 10)) as char
  }

  /** How `repr` writes one ASCII character of a string it quotes with
      `quote`: the backslash, the quote itself, newline, carriage return
      and tab get their escapes, other control characters `\xNN`. */
  function EscapeChar(c: char, quote: char): string
  {
    if c == '\\' then "\\\\"
    else if c == quote then ['\\', quote]
    else if c == '\n' then "\\n"
    else if c == '\r' then "\\r"
    else if c == '\t' then "\\t"
    else if c as int < 32 || c as int == 127 then ['\\', 'x', HexDigit(c as int / 16), HexDigit(c as int % 16)]
    else [c]
  }

  function Escape(s: string, quote: char): string
  {
    if s == [] then [] else EscapeChar(s[0], quote) + Escape(s[1..], quote)
  }

  /** `repr(s)` for a string: single quotes, unless the string holds a
      single quote and no double quote; the body escaped for that quote. */
  function ReprString(s: string): (r: string)
    ensures |r| >= 2 && r[0] == r[|r| - 1] && (r[0] == '\'' || r[0] == '"')
    ensures r[0] == '"' <==> '\'' in s && '"' !in s
  {
    var quote := if '\'' in s && '"' !in s then '"' else '\'';
    [quote] + Escape(s, quote) + [quote]
  }

  lemma {:induction false} EscapeAppend(a: string, b: string, quote: char)
    ensures Escape(a + b, quote) == Escape(a, quote) + Escape(b, quote)
    decreases |a|
  {
    if a != [] {
      var c, rest := EscapeChar(a[0], quote), Escape(a[1..], quote);
      assert (a + b)[0] == a[0] && (a + b)[1..] == a[1..] + b;
      EscapeAppend(a[1..], b, quote);
      calc {
        Escape(a + b, quote);
        c + Escape(a[1..] + b, quote);
        c + (rest + Escape(b, quote));
        (c + rest) + Escape(b, quote);
        Escape(a, quote) + Escape(b, quote);
      }
    } else {
      assert a + b == b;
    }
  }

  /** Plain characters are written as they are. */
  lemma {:induction false} EscapePlain(s: string, quote: char)
    requires quote == '\'' || quote == '"'
    requires forall i :: 0 <= i < |s| ==> Plain(s[i])
    ensures Escape(s, quote) == s
    decreases |s|
  {
    if s != [] {
      EscapePlain(s[1..], quote);
    }
  }

  function Digit(d: int): char
    requires 0 <= d < 10
  {
    ('0' as int + d) as char
  }

  predicate AllDigits(s: string)
  {
    forall i :: 0 <= i < |s| ==> '0' <= s[i] <= '9'
  }

  /** The number a string of decimal digits denotes. */
  function DigitsValue(s: string): int
    requires AllDigits(s)
  {
    if s == [] then 0 else 10 * DigitsValue(s[..|s| - 1]) + (s[|s| - 1] as int - '0' as int)
  }

  /** `str(n)` for a non-negative integer: the decimal digits that denote
      `n`, with no leading zero. */
  function NatToString(n: nat): (r: string)
    ensures |r| >= 1 && AllDigits(r)
    ensures DigitsValue(r) == n
    ensures |r| == 1 || r[0] != '0'
  {
    if n < 10 then [Digit(n)]
    else
      var r := NatToString(n / 10) + [Digit(n % 10)];
      assert r[..|r| - 1] == NatToString(n / 10);
      r
  }

  /** `str(n)` for any integer: a '-' exactly for a negative number, then
      the digits of its magnitude. */
  function IntToString(n: int): (r: string)
    ensures |r| >= 1 && (r[0] == '-' <==> n < 0)
    ensures n >= 0 ==> AllDigits(r) && DigitsValue(r) == n
    ensures n < 0 ==> AllDigits(r[1..]) && DigitsValue(r[1..]) == -n && |r| >= 2
  {
    if n < 0 then
      var r := "-" + NatToString(-n);
      assert r[1..] == NatToString(-n);
      r
    else NatToString(n)
  }
}
