/** The handful of Python `str` operations the visualizer relies on, over
    `string` (a sequence of code points). */
module PyText {

  /** `c.isspace()` for the characters Python treats as whitespace. */
  predicate IsSpace(c: char)
  {
    c == ' ' || c == '\t' || c == '\n' || c == '\r' || c == '\U{B}' || c == '\U{C}'
    || ('\U{1C}' <= c <= '\U{1F}') || c == '\U{85}' || c == '\U{A0}' || c == '\U{1680}'
    || ('\U{2000}' <= c <= '\U{200A}') || c == '\U{2028}' || c == '\U{2029}'
    || c == '\U{202F}' || c == '\U{205F}' || c == '\U{3000}'
  }

  /** `s.rstrip()`: drop the trailing whitespace. */
  function RStrip(s: string): string
  {
    if s != [] && IsSpace(s[|s| - 1]) then RStrip(s[..|s| - 1]) else s
  }

  /** `RStrip` keeps a prefix that does not end in whitespace and drops only
      whitespace. */
  lemma {:induction false} RStripShape(s: string)
    ensures var r := RStrip(s);
      && |r| <= |s| && r == s[..|r|]
      && (r != [] ==> !IsSpace(r[|r| - 1]))
      && forall i :: |r| <= i < |s| ==> IsSpace(s[i])
    decreases |s|
  {
    if s != [] && IsSpace(s[|s| - 1]) {
      RStripShape(s[..|s| - 1]);
    }
  }

  /** `s.lstrip()`: drop the leading whitespace. */
  function LStrip(s: string): string
  {
    if s != [] && IsSpace(s[0]) then LStrip(s[1..]) else s
  }

  /** `s.strip()`. */
  function Strip(s: string): string
  {
    LStrip(RStrip(s))
  }

  /** `s.rstrip(ch)`: drop the trailing copies of one character. */
  function RStripChar(s: string, ch: char): string
  {
    if s != [] && s[|s| - 1] == ch then RStripChar(s[..|s| - 1], ch) else s
  }

  /** `RStripChar` keeps a prefix that does not end in `ch` and drops only
      copies of `ch`. */
  lemma {:induction false} RStripCharShape(s: string, ch: char)
    ensures var r := RStripChar(s, ch);
      && |r| <= |s| && r == s[..|r|]
      && (r != [] ==> r[|r| - 1] != ch)
      && forall i :: |r| <= i < |s| ==> s[i] == ch
    decreases |s|
  {
    if s != [] && s[|s| - 1] == ch {
      RStripCharShape(s[..|s| - 1], ch);
    }
  }

  /** `s.lower()` on the ASCII letters; every other character is kept. The
      prompt compares the result with `""`, `s`, `n`, `c` and `q` only, and no
      character outside ASCII lower-cases to one of those, so the full
      Unicode mapping would classify every line the same way. */
  function Lower(s: string): string
  {
    if s == [] then []
    else [if 'A' <= s[0] <= 'Z' then (s[0] as int + 32) as char else s[0]] + Lower(s[1..])
  }

  /** `s.startswith(prefix)`. */
  predicate StartsWith(s: string, prefix: string)
  {
    |prefix| <= |s| && s[..|prefix|] == prefix
  }

  /** `sep.join(parts)`. */
  function Join(sep: string, parts: seq<string>): string
  {
    if parts == [] then ""
    else if |parts| == 1 then parts[0]
    else parts[0] + sep + Join(sep, parts[1..])
  }

  /** `s[:n]` with Python's slice semantics: a negative `n` counts from the end,
      and a bound past either end is clamped. */
  function SlicePrefix(s: string, n: int): (r: string)
    ensures |r| <= |s| && r == s[..|r|]
    ensures n >= 0 ==> |r| == if n <= |s| then n else |s|
    ensures n < 0 ==> |r| == if -n <= |s| then |s| + n else 0
  {
    if n >= 0 then (if n <= |s| then s[..n] else s)
    else if -n <= |s| then s[..|s| + n]
    else []
  }

  /** The decimal digits of a natural number, as `str(n)` prints them. */
  function NatToString(n: nat): string
    decreases n
  {
    if n < 10 then [(48 + n) as char]
    else NatToString(n / 10) + [(48 + n % 10) as char]
  }

  /** `str(n)` is a non-empty string of decimal digits. */
  lemma {:induction false} NatToStringDigits(n: nat)
    ensures var r := NatToString(n);
      r != [] && forall i :: 0 <= i < |r| ==> '0' <= r[i] <= '9'
    decreases n
  {
    if n >= 10 {
      NatToStringDigits(n / 10);
    }
  }

  /** `str(i)` for any integer. */
  function IntToString(i: int): string
  {
    (if i < 0 then "-" else "") + NatToString(if i < 0 then -i else i)
  }

  /** `" " * n`. */
  function Spaces(n: nat): string
  {
    if n == 0 then [] else [' '] + Spaces(n - 1)
  }

  lemma {:induction false} SpacesShape(n: nat)
    ensures |Spaces(n)| == n && forall i :: 0 <= i < n ==> Spaces(n)[i] == ' '
  {
    if n > 0 {
      SpacesShape(n - 1);
    }
  }

  /** `format(s, ">w")`: right-align in a field of `w` characters. */
  function RJust(s: string, w: nat): string
  {
    if |s| < w then Spaces(w - |s|) + s else s
  }

  /** `RJust` pads on the left with spaces up to the width and keeps the
      text itself at the end. */
  lemma RJustShape(s: string, w: nat)
    ensures var r := RJust(s, w);
      && |r| == (if |s| < w then w else |s|)
      && r[|r| - |s|..] == s
      && forall i :: 0 <= i < |r| - |s| ==> r[i] == ' '
  {
    var r := RJust(s, w);
    if |s| < w {
      SpacesShape(w - |s|);
      assert r[|r| - |s|..] == s;
    }
  }

  /** Stripping trailing whitespace from a concatenation: the tail is stripped
      first, and the head is only reached when the tail was all whitespace. */
  lemma {:induction false} RStripAppend(a: string, b: string)
    ensures RStrip(a + b) == if RStrip(b) == [] then RStrip(a) else a + RStrip(b)
    decreases |b|
  {
    if b == [] {
      assert a + b == a;
    } else if IsSpace(b[|b| - 1]) {
      assert (a + b)[..|a + b| - 1] == a + b[..|b| - 1];
      RStripAppend(a, b[..|b| - 1]);
    } else {
      assert RStrip(b) == b;
    }
  }

  /** Concatenation regroups. Stated as a lemma so that a caller's proof sees
      only this one fact rather than proving it in its own, larger context. */
  lemma AppendAssoc<T>(a: seq<T>, b: seq<T>, c: seq<T>)
    ensures a + b + c == a + (b + c)
  {
  }
}
