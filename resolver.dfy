/**
 * The selector cache for the Auto vehicle-type button: the order in which
 * the candidate selectors are tried and when the cached selector is replaced.
 * Elapsed time is a whole number of milliseconds.
 */
module Resolver {
  import opened Wrappers
  import opened Page
  import opened Scan

  const AUTO_SELECTORS: seq<string> := ["//a[contains(@class, 'vehicle')]//span[text()='Auto']"]

  /** A success faster than this many milliseconds replaces a cached selector. */
  const FAST_MS: nat := 1000

  /** Something usable is cached: set, and not the empty string. */
  predicate Cached(cache: Option<string>)
  {
    cache.Some? && cache.value != ""
  }

  /** The candidates other than `x`, in their listed order. */
  function Without(s: seq<string>, x: string): seq<string>
  {
    if s == [] then [] else (if s[0] == x then [] else [s[0]]) + Without(s[1..], x)
  }

  /** The order of attempts: the cached selector first, then the others without it; else the list as given. */
  function AttemptOrder(cache: Option<string>, all: seq<string>): seq<string>
  {
    if Cached(cache) then [cache.value] + Without(all, cache.value) else all
  }

  /** Filtering out `x` removes every copy of it and keeps every other selector as often as it was there. */
  lemma {:induction false} WithoutCounts(s: seq<string>, x: string)
    ensures multiset(Without(s, x))[x] == 0
    ensures forall y :: y != x ==> multiset(Without(s, x))[y] == multiset(s)[y]
  {
    if s != [] {
      WithoutCounts(s[1..], x);
      assert s == [s[0]] + s[1..];
      assert multiset(s) == multiset{s[0]} + multiset(s[1..]);
    }
  }

  /** Filtering distributes over concatenation, so the kept selectors stay in their listed order. */
  lemma {:induction false} WithoutAppend(a: seq<string>, b: seq<string>, x: string)
    ensures Without(a + b, x) == Without(a, x) + Without(b, x)
    decreases |a|
  {
    if a == [] {
      assert a + b == b;
    } else {
      WithoutAppend(a[1..], b, x);
      assert (a + b)[1..] == a[1..] + b;
      var h := if a[0] == x then [] else [a[0]];
      assert Without(a + b, x) == h + Without(a[1..] + b, x);
      assert Without(a, x) == h + Without(a[1..], x);
    }
  }

  /** On one selector the filter drops it exactly when it is the cached one. */
  lemma WithoutSingle(y: string, x: string)
    ensures Without([y], x) == (if y == x then [] else [y])
  {
    assert [y][1..] == [];
  }

  /** A list without the cached selector is tried exactly as listed. */
  lemma {:induction false} WithoutAbsent(s: seq<string>, x: string)
    requires x !in s
    ensures Without(s, x) == s
    decreases |s|
  {
    if s != [] {
      WithoutAbsent(s[1..], x);
      assert s == [s[0]] + s[1..];
    }
  }

  /**
   * With a cached selector, it is tried first and exactly once, and every
   * other candidate is tried as often as it is listed; without one, the list
   * is tried as given.
   */
  lemma AttemptOrderTriesCachedFirst(cache: Option<string>, all: seq<string>)
    ensures Cached(cache) ==>
      && |AttemptOrder(cache, all)| >= 1 && AttemptOrder(cache, all)[0] == cache.value
      && multiset(AttemptOrder(cache, all))[cache.value] == 1
      && forall y :: y != cache.value ==> multiset(AttemptOrder(cache, all))[y] == multiset(all)[y]
    ensures !Cached(cache) ==> AttemptOrder(cache, all) == all
    ensures Cached(cache) && cache.value !in all ==> AttemptOrder(cache, all) == [cache.value] + all
  {
    if Cached(cache) {
      if cache.value !in all {
        WithoutAbsent(all, cache.value);
      }
      WithoutCounts(all, cache.value);
      assert multiset(AttemptOrder(cache, all)) == multiset{cache.value} + multiset(Without(all, cache.value));
    }
  }

  function FoundPicker(attempt: string -> Attempt): string -> Option<string>
  {
    s => if attempt(s).Found? then Some(s) else None
  }

  /** The selector that finds the button: the first in attempt order that does. */
  function Resolved(cache: Option<string>, all: seq<string>, attempt: string -> Attempt): Option<string>
  {
    First(FoundPicker(attempt), AttemptOrder(cache, all))
  }

  predicate Fast(a: Attempt)
  {
    a.Found? && a.elapsedMs < FAST_MS
  }

  /** A found selector is cached when nothing usable is cached yet, or when it was found fast. */
  function CacheAfter(cache: Option<string>, used: Option<string>, attempt: string -> Attempt): Option<string>
  {
    if used.Some? && (!Cached(cache) || Fast(attempt(used.value))) then used else cache
  }

  /**
   * The resolved selector is one that finds the button, and every selector
   * tried before it did not; nothing is resolved only when every attempt fails.
   */
  lemma ResolvedIsFirstFound(cache: Option<string>, all: seq<string>, attempt: string -> Attempt)
    ensures var order := AttemptOrder(cache, all);
      Resolved(cache, all, attempt).None? <==> forall i :: 0 <= i < |order| ==> attempt(order[i]).Missing?
    ensures var order := AttemptOrder(cache, all);
      Resolved(cache, all, attempt).Some? ==>
        exists i :: 0 <= i < |order| && order[i] == Resolved(cache, all, attempt).value
          && attempt(order[i]).Found? && forall j :: 0 <= j < i ==> attempt(order[j]).Missing?
  {
    var order := AttemptOrder(cache, all);
    FirstIsEarliest(FoundPicker(attempt), order);
    if Resolved(cache, all, attempt).Some? {
      var i :| 0 <= i < |order| && FoundPicker(attempt)(order[i]) == First(FoundPicker(attempt), order)
        && forall j :: 0 <= j < i ==> FoundPicker(attempt)(order[j]).None?;
      assert order[i] == Resolved(cache, all, attempt).value;
    }
  }

  /**
   * The cache only ever names a listed selector: if it did before a
   * resolution, it still does after.
   */
  lemma CacheStaysListed(cache: Option<string>, all: seq<string>, attempt: string -> Attempt)
    requires cache.Some? ==> cache.value in all
    ensures var c := CacheAfter(cache, Resolved(cache, all, attempt), attempt);
      c.Some? ==> c.value in all
  {
    var order := AttemptOrder(cache, all);
    var used := Resolved(cache, all, attempt);
    if used.Some? {
      var i :| 0 <= i < |order| && FoundPicker(attempt)(order[i]) == used;
      if Cached(cache) && i > 0 {
        WithoutCounts(all, cache.value);
        assert order[i] in multiset(Without(all, cache.value));
      }
    }
  }

  /**
   * After a first successful resolution with an empty cache, the next
   * resolution tries the selector that succeeded before anything else; a
   * cached selector is replaced only by a fast success.
   */
  lemma WinnerTriedFirstNextTime(cache: Option<string>, all: seq<string>, attempt: string -> Attempt)
    requires Resolved(cache, all, attempt).Some?
    ensures var used := Resolved(cache, all, attempt).value;
      (!Cached(cache) && used != "") ==> AttemptOrder(CacheAfter(cache, Some(used), attempt), all)[0] == used
    ensures var used := Resolved(cache, all, attempt).value;
      Cached(cache) && !Fast(attempt(used)) ==> CacheAfter(cache, Some(used), attempt) == cache
    ensures var used := Resolved(cache, all, attempt).value;
      Cached(cache) && Fast(attempt(used)) ==> CacheAfter(cache, Some(used), attempt) == Some(used)
  {
  }
}
