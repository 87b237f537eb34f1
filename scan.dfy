/**
 * First-match-wins scans. Every extractor walks its selectors in order and,
 * for each selector, the elements it finds in order, returning the first
 * candidate that passes; `First` is that policy as a function and
 * `ScanSelectors` is the nested loop that implements it.
 */
module Scan {
  import opened Wrappers
  import opened Page

  /** The first `f(x)` that is `Some`, scanning `s` from the front. */
  function First<T, R>(f: T -> Option<R>, s: seq<T>): (r: Option<R>)
    ensures r.Some? ==> exists i :: 0 <= i < |s| && f(s[i]) == r
  {
    if s == [] then None
    else if f(s[0]).Some? then f(s[0])
    else First(f, s[1..])
  }

  /** `First` picks the earliest hit, and finds nothing only when nothing hits. */
  lemma {:induction false} FirstIsEarliest<T, R>(f: T -> Option<R>, s: seq<T>)
    ensures First(f, s).None? <==> forall i :: 0 <= i < |s| ==> f(s[i]).None?
    ensures First(f, s).Some? ==>
      exists i :: 0 <= i < |s| && f(s[i]) == First(f, s) && forall j :: 0 <= j < i ==> f(s[j]).None?
  {
    if s != [] && f(s[0]).None? {
      FirstIsEarliest(f, s[1..]);
      if First(f, s).Some? {
        var i :| 0 <= i < |s| - 1 && f(s[1..][i]) == First(f, s[1..])
                 && forall j :: 0 <= j < i ==> f(s[1..][j]).None?;
        assert f(s[i + 1]) == First(f, s);
        forall j | 0 <= j < i + 1 ensures f(s[j]).None? {
          if j > 0 { assert s[j] == s[1..][j - 1]; }
        }
      }
      forall i | 0 <= i < |s| && First(f, s).None? ensures f(s[i]).None? {
        if i > 0 { assert s[i] == s[1..][i - 1]; }
      }
    }
  }

  /** A scan over `a + b` only reaches `b` when nothing in `a` hits. */
  lemma {:induction false} FirstAppend<T, R>(f: T -> Option<R>, a: seq<T>, b: seq<T>)
    ensures First(f, a + b) == if First(f, a).Some? then First(f, a) else First(f, b)
  {
    if a != [] {
      assert (a + b)[0] == a[0];
      assert (a + b)[1..] == a[1..] + b;
      FirstAppend(f, a[1..], b);
    } else {
      assert a + b == b;
    }
  }

  /** Everything the selectors find, selector by selector, each in the order found. */
  function Matches(find: Query, selectors: seq<string>): seq<Element>
  {
    if selectors == [] then [] else find(selectors[0]) + Matches(find, selectors[1..])
  }

  /** The inner loop of every extractor: the elements (or candidates) one selector gave. */
  method ScanCandidates<T, R>(f: T -> Option<R>, s: seq<T>) returns (r: Option<R>)
    ensures r == First(f, s)
  {
    var i := 0;
    while i < |s|
      invariant 0 <= i <= |s|
      invariant First(f, s) == First(f, s[i..])
    {
      assert s[i..][1..] == s[i + 1..];
      if f(s[i]).Some? {
        return f(s[i]);
      }
      i := i + 1;
    }
    return None;
  }

  /** The outer loop: selectors in order, returning from the first accepted element. */
  method ScanSelectors<R>(f: Element -> Option<R>, find: Query, selectors: seq<string>) returns (r: Option<R>)
    ensures r == First(f, Matches(find, selectors))
  {
    var i := 0;
    while i < |selectors|
      invariant 0 <= i <= |selectors|
      invariant First(f, Matches(find, selectors)) == First(f, Matches(find, selectors[i..]))
    {
      assert selectors[i..][1..] == selectors[i + 1..];
      FirstAppend(f, find(selectors[i]), Matches(find, selectors[i + 1..]));
      r := ScanCandidates(f, find(selectors[i]));
      if r.Some? {
        return;
      }
      i := i + 1;
    }
    return None;
  }
}
