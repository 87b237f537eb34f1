/**
 * The Python string operations the scraper relies on, written out on
 * `seq<char>`: `startswith`, the substring test `in`, `lower()`, `strip()`,
 * `replace(p, '')`, `isdigit()` and `split(c)`.
 */
module Text {

  /** `s.startswith(p)` */
  predicate StartsWith(s: string, p: string)
  {
    |p| <= |s| && s[..|p|] == p
  }

  /** `p in s` for a substring `p` (a single character is tested with `c in s`). */
  predicate Contains(s: string, p: string)
    decreases |s|
  {
    StartsWith(s, p) || (|s| > 0 && Contains(s[1..], p))
  }

  /** Some marker of the list occurs in `s`. */
  predicate ContainsAny(s: string, marks: seq<string>)
  {
    exists k :: 0 <= k < |marks| && Contains(s, marks[k])
  }

  /** A one-character substring occurs exactly when the character does. */
  lemma {:induction false} ContainsChar(s: string, c: char)
    ensures Contains(s, [c]) <==> c in s
    decreases |s|
  {
    if |s| > 0 {
      ContainsChar(s[1..], c);
      assert s == [s[0]] + s[1..];
    }
  }

  // ---------------------------------------------------------------- case

  /** `c.lower()` on ASCII letters; every other character is left alone. */
  function LowerChar(c: char): char
  {
    if 'A' <= c <= 'Z' then (c as int + 32) as char else c
  }

  /** `s.lower()` */
  function Lower(s: string): string
  {
    seq(|s|, i requires 0 <= i < |s| => LowerChar(s[i]))
  }

  /** Lowering keeps the length and never creates or removes a non-letter. */
  lemma LowerKeepsNonLetter(s: string, c: char)
    requires !('A' <= c <= 'Z') && !('a' <= c <= 'z')
    ensures |Lower(s)| == |s|
    ensures c in Lower(s) <==> c in s
  {
    if c in s {
      var i :| 0 <= i < |s| && s[i] == c;
      assert Lower(s)[i] == c;
    }
    if c in Lower(s) {
      var i :| 0 <= i < |s| && Lower(s)[i] == c;
      assert s[i] == c;
    }
  }

  // ---------------------------------------------------------------- strip

  /**
   * The characters for which Python's `str.isspace()` holds, the set that
   * `strip()` with no argument removes.
   */
  predicate IsSpace(c: char)
  {
    var n := c as int;
    (9 <= n <= 13) || (28 <= n <= 32) || n == 0x85 || n == 0xA0 || n == 0x1680
    || (0x2000 <= n <= 0x200A) || n == 0x2028 || n == 0x2029 || n == 0x202F
    || n == 0x205F || n == 0x3000
  }

  /** The number of leading white-space characters of `s`. */
  function LeadingSpace(s: string): (k: nat)
    ensures k <= |s|
    ensures forall i :: 0 <= i < k ==> IsSpace(s[i])
    ensures k < |s| ==> !IsSpace(s[k])
  {
    if s != [] && IsSpace(s[0]) then 1 + LeadingSpace(s[1..]) else 0
  }

  /** The index at which the trailing white space of `s` starts. */
  function TrailingSpace(s: string): (k: nat)
    ensures k <= |s|
    ensures forall i :: k <= i < |s| ==> IsSpace(s[i])
    ensures k > 0 ==> !IsSpace(s[k - 1])
  {
    if s != [] && IsSpace(s[|s| - 1]) then TrailingSpace(s[..|s| - 1]) else |s|
  }

  /** `s.strip()`: drops the leading and the trailing white space. */
  function Strip(s: string): string
  {
    var t := s[LeadingSpace(s)..];
    t[..TrailingSpace(t)]
  }

  /** What `strip()` returns: a window of `s` outside which there is only white space. */
  lemma StripWindow(s: string)
    ensures exists i, j :: 0 <= i <= j <= |s| && Strip(s) == s[i..j]
                        && (forall k :: 0 <= k < i ==> IsSpace(s[k]))
                        && (forall k :: j <= k < |s| ==> IsSpace(s[k]))
    ensures Strip(s) == [] || (!IsSpace(Strip(s)[0]) && !IsSpace(Strip(s)[|Strip(s)| - 1]))
  {
    var i := LeadingSpace(s);
    var t := s[i..];
    var m := TrailingSpace(t);
    assert Strip(s) == s[i..i + m];
    forall k | i + m <= k < |s| ensures IsSpace(s[k]) {
      assert s[k] == t[k - i];
    }
    if m > 0 {
      assert Strip(s)[0] == s[i];
      assert Strip(s)[m - 1] == t[m - 1];
    }
  }

  // ---------------------------------------------------------------- replace

  /** `s.replace(p, '')`: removes the non-overlapping occurrences of `p`, left to right. */
  function RemoveAll(s: string, p: string): (r: string)
    requires p != []
    ensures |r| <= |s|
    decreases |s|
  {
    if s == [] then []
    else if StartsWith(s, p) then RemoveAll(s[|p|..], p)
    else [s[0]] + RemoveAll(s[1..], p)
  }

  /** Removing one character leaves a string without it, and changes the string iff it occurred. */
  lemma {:induction false} RemoveChar(s: string, c: char)
    ensures c !in RemoveAll(s, [c])
    ensures RemoveAll(s, [c]) == s <==> c !in s
    decreases |s|
  {
    if s != [] {
      RemoveChar(s[1..], c);
      if s[0] == c {
        assert StartsWith(s, [c]);
        assert |RemoveAll(s, [c])| < |s|;
      } else {
        assert !StartsWith(s, [c]);
        assert s == [s[0]] + s[1..];
      }
    }
  }

  // ---------------------------------------------------------------- digits

  predicate IsDigit(c: char)
  {
    '0' <= c <= '9'
  }

  /** Some character of `s` is a digit. */
  predicate AnyDigit(s: string)
  {
    exists i :: 0 <= i < |s| && IsDigit(s[i])
  }

  /** `s.isdigit()`: non-empty and made of digits only. */
  predicate AllDigits(s: string)
  {
    s != [] && forall i :: 0 <= i < |s| ==> IsDigit(s[i])
  }

  // ---------------------------------------------------------------- split

  /** `s.split(c)` */
  function SplitOn(s: string, c: char): (parts: seq<string>)
    ensures |parts| >= 1
  {
    if s == [] then [[]]
    else
      var rest := SplitOn(s[1..], c);
      if s[0] == c then [[]] + rest
      else [[s[0]] + rest[0]] + rest[1..]
  }

  /**
   * The first part of `s.split(c)` is the text before the first `c`, and
   * there is more than one part exactly when `c` occurs.
   */
  lemma {:induction false} SplitHead(s: string, c: char)
    ensures c !in SplitOn(s, c)[0]
    ensures |SplitOn(s, c)| > 1 <==> c in s
    ensures exists k :: 0 <= k <= |s| && SplitOn(s, c)[0] == s[..k] && (k < |s| ==> s[k] == c)
    decreases |s|
  {
    if s != [] {
      SplitHead(s[1..], c);
      var k :| 0 <= k <= |s| - 1 && SplitOn(s[1..], c)[0] == s[1..][..k] && (k < |s| - 1 ==> s[1..][k] == c);
      var rest := SplitOn(s[1..], c);
      assert s == [s[0]] + s[1..];
      if s[0] == c {
        assert SplitOn(s, c) == [[]] + rest;
        assert SplitOn(s, c)[0] == s[..0];
      } else {
        assert SplitOn(s, c) == [[s[0]] + rest[0]] + rest[1..];
        assert s[..k + 1] == [s[0]] + s[1..][..k];
        assert SplitOn(s, c)[0] == s[..k + 1];
        assert c in s <==> c in s[1..];
      }
    } else {
      assert SplitOn(s, c)[0] == s[..0];
    }
  }
}
