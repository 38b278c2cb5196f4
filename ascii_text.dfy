/**
  The parts of Python's `str` that the password service relies on, restricted to ASCII:
  the four regular-expression character classes `[a-z]`, `[A-Z]`, `[0-9]` and
  `[^a-zA-Z0-9]`, `str.lower()` and `str.strip()`.
 */
module AsciiText {

  predicate IsLowerAscii(c: char) { 'a' <= c <= 'z' }

  predicate IsUpperAscii(c: char) { 'A' <= c <= 'Z' }

  predicate IsDigitAscii(c: char) { '0' <= c <= '9' }

  /** The class `[^a-zA-Z0-9]`: every other character, including every non-ASCII one. */
  predicate IsSymbol(c: char) { !IsLowerAscii(c) && !IsUpperAscii(c) && !IsDigitAscii(c) }

  /** The ASCII characters for which `str.isspace()` holds: tab, line feed, vertical tab,
      form feed, carriage return (9-13), the four separators 28-31, and space (32). */
  predicate IsSpace(c: char) {
    var k := c as int;
    k == 32 || 9 <= k <= 13 || 28 <= k <= 31
  }

  /** `str.lower()` on one character, ASCII case mapping only. */
  function LowerChar(c: char): char {
    if IsUpperAscii(c) then (c as int + 32) as char else c
  }

  /** `str.lower()`: maps every character independently. */
  function Lower(s: string): string {
    seq(|s|, i requires 0 <= i < |s| => LowerChar(s[i]))
  }

  /** Drops the leading whitespace of `s`. */
  function TrimStart(s: string): string {
    if |s| > 0 && IsSpace(s[0]) then TrimStart(s[1..]) else s
  }

  /** Drops the trailing whitespace of `s`. */
  function TrimEnd(s: string): string {
    if |s| > 0 && IsSpace(s[|s| - 1]) then TrimEnd(s[..|s| - 1]) else s
  }

  /** `str.strip()` with no argument. */
  function Strip(s: string): string {
    TrimEnd(TrimStart(s))
  }

  /** `TrimStart` removes a prefix made only of whitespace and stops at the first other
      character. */
  lemma {:induction false} TrimStartFacts(s: string)
    ensures var r := TrimStart(s);
            && |r| <= |s| && r == s[|s| - |r|..]
            && (forall k :: 0 <= k < |s| - |r| ==> IsSpace(s[k]))
            && (r == [] || !IsSpace(r[0]))
  {
    if |s| > 0 && IsSpace(s[0]) {
      var t := s[1..];
      TrimStartFacts(t);
      var r := TrimStart(t);
      assert TrimStart(s) == r;
      assert r == s[|s| - |r|..] by {
        assert t[|t| - |r|..] == s[|s| - |r|..];
      }
      assert forall k :: 1 <= k < |s| - |r| ==> s[k] == t[k - 1];
    }
  }

  /** `TrimEnd` removes a suffix made only of whitespace and stops at the last other
      character. */
  lemma {:induction false} TrimEndFacts(s: string)
    ensures var r := TrimEnd(s);
            && |r| <= |s| && r == s[..|r|]
            && (forall k :: |r| <= k < |s| ==> IsSpace(s[k]))
            && (r == [] || !IsSpace(r[|r| - 1]))
  {
    if |s| > 0 && IsSpace(s[|s| - 1]) {
      var t := s[..|s| - 1];
      TrimEndFacts(t);
      var r := TrimEnd(t);
      assert TrimEnd(s) == r;
      assert r == s[..|r|] by {
        assert t[..|r|] == s[..|r|];
      }
      assert forall k :: |r| <= k < |s| - 1 ==> s[k] == t[k];
    }
  }

  /** `strip()` keeps the slice `s[i..i + |r|]` of `s`, where everything before `i` and
      everything after the slice is whitespace and the slice neither starts nor ends with
      whitespace. */
  lemma StripFacts(s: string)
    ensures var r := Strip(s);
            var i := |s| - |TrimStart(s)|;
            && 0 <= i && i + |r| <= |s| && r == s[i..i + |r|]
            && (forall k :: 0 <= k < i ==> IsSpace(s[k]))
            && (forall k :: i + |r| <= k < |s| ==> IsSpace(s[k]))
            && (r == [] || (!IsSpace(r[0]) && !IsSpace(r[|r| - 1])))
  {
    var t := TrimStart(s);
    TrimStartFacts(s);
    TrimEndFacts(t);
    var i := |s| - |t|;
    var r := TrimEnd(t);
    assert r == s[i..i + |r|] by {
      assert s[i..i + |r|] == t[..|r|];
    }
    forall k | i + |r| <= k < |s|
      ensures IsSpace(s[k])
    {
      assert s[k] == t[k - i];
    }
    assert r != [] ==> r[0] == t[0];
  }

  /** A string that is its own `lower()` and its own `strip()`. */
  predicate IsNormalised(s: string) {
    Lower(s) == s && Strip(s) == s
  }

  lemma ClassesPartition(c: char)
    ensures IsLowerAscii(c) || IsUpperAscii(c) || IsDigitAscii(c) || IsSymbol(c)
    ensures !(IsLowerAscii(c) && IsUpperAscii(c))
    ensures !(IsLowerAscii(c) && IsDigitAscii(c))
    ensures !(IsUpperAscii(c) && IsDigitAscii(c))
    ensures IsSymbol(c) ==> !IsLowerAscii(c) && !IsUpperAscii(c) && !IsDigitAscii(c)
  {
  }

  lemma LowerCharFacts(c: char)
    ensures !IsUpperAscii(LowerChar(c))
    ensures LowerChar(LowerChar(c)) == LowerChar(c)
    ensures IsSpace(LowerChar(c)) == IsSpace(c)
  {
  }

  lemma LowerIdempotent(s: string)
    ensures |Lower(s)| == |s|
    ensures Lower(Lower(s)) == Lower(s)
  {
  }

  /** A string without whitespace at either end is its own `strip()`. */
  lemma StripOfTrimmed(s: string)
    requires s == [] || (!IsSpace(s[0]) && !IsSpace(s[|s| - 1]))
    ensures Strip(s) == s
  {
  }

  lemma StripIdempotent(s: string)
    ensures Strip(Strip(s)) == Strip(s)
  {
    StripFacts(s);
    StripOfTrimmed(Strip(s));
  }

  lemma {:induction false} LowerTrimStart(s: string)
    ensures Lower(TrimStart(s)) == TrimStart(Lower(s))
  {
    if |s| > 0 && IsSpace(s[0]) {
      LowerCharFacts(s[0]);
      assert Lower(s)[1..] == Lower(s[1..]);
      LowerTrimStart(s[1..]);
    } else if |s| > 0 {
      LowerCharFacts(s[0]);
    }
  }

  lemma {:induction false} LowerTrimEnd(s: string)
    ensures Lower(TrimEnd(s)) == TrimEnd(Lower(s))
  {
    if |s| > 0 && IsSpace(s[|s| - 1]) {
      LowerCharFacts(s[|s| - 1]);
      assert Lower(s)[..|s| - 1] == Lower(s[..|s| - 1]);
      LowerTrimEnd(s[..|s| - 1]);
    } else if |s| > 0 {
      LowerCharFacts(s[|s| - 1]);
    }
  }

  /** `strip().lower()` and `lower().strip()` give the same string: case mapping never
      turns whitespace into non-whitespace or back. */
  lemma LowerStripCommute(s: string)
    ensures Lower(Strip(s)) == Strip(Lower(s))
  {
    LowerTrimStart(s);
    LowerTrimEnd(TrimStart(s));
  }

  /** Both normalisation orders produce a normalised string. */
  lemma NormalisedForm(s: string)
    ensures IsNormalised(Lower(Strip(s)))
    ensures IsNormalised(Strip(Lower(s)))
  {
    LowerIdempotent(Strip(s));
    LowerStripCommute(Strip(s));
    StripIdempotent(s);
    LowerStripCommute(s);
  }

  /** `strip()` is empty exactly when every character is whitespace. */
  lemma StripEmpty(s: string)
    ensures Strip(s) == [] <==> forall k :: 0 <= k < |s| ==> IsSpace(s[k])
  {
    StripFacts(s);
  }

  /** Leading whitespace in front of `t` is removed by `TrimStart`. */
  lemma {:induction false} TrimStartPadded(w: string, t: string)
    requires forall k :: 0 <= k < |w| ==> IsSpace(w[k])
    ensures TrimStart(w + t) == TrimStart(t)
  {
    if w != [] {
      assert (w + t)[1..] == w[1..] + t;
      TrimStartPadded(w[1..], t);
    } else {
      assert w + t == t;
    }
  }

  /** Trailing whitespace after `t` is removed by `TrimEnd`. */
  lemma {:induction false} TrimEndPadded(t: string, w: string)
    requires forall k :: 0 <= k < |w| ==> IsSpace(w[k])
    ensures TrimEnd(t + w) == TrimEnd(t)
  {
    if w != [] {
      var n := |w| - 1;
      assert (t + w)[..|t + w| - 1] == t + w[..n];
      TrimEndPadded(t, w[..n]);
    } else {
      assert t + w == t;
    }
  }

  /** Appending text after `s` either survives behind whatever `TrimStart` keeps of `s`,
      or, when `s` is all whitespace, is trimmed on its own. */
  lemma {:induction false} TrimStartAppend(s: string, u: string)
    ensures TrimStart(s + u) == if TrimStart(s) == [] then TrimStart(u) else TrimStart(s) + u
  {
    if s == [] {
      assert s + u == u;
    } else if IsSpace(s[0]) {
      assert (s + u)[1..] == s[1..] + u;
      TrimStartAppend(s[1..], u);
    }
  }

  /** `strip()` ignores any whitespace added around a string. */
  lemma StripPadded(before: string, s: string, after: string)
    requires forall k :: 0 <= k < |before| ==> IsSpace(before[k])
    requires forall k :: 0 <= k < |after| ==> IsSpace(after[k])
    ensures Strip(before + s + after) == Strip(s)
  {
    assert before + s + after == before + (s + after);
    TrimStartPadded(before, s + after);
    TrimStartAppend(s, after);
    if TrimStart(s) == [] {
      TrimStartPadded(after, []);
      assert after + [] == after;
    } else {
      TrimEndPadded(TrimStart(s), after);
    }
  }
}
