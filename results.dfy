/**
 * The result listing of one place: which rows count as results, which
 * element of a row gets clicked, and how many rows one pass handles.
 */
module Results {
  import opened Wrappers
  import opened Page
  import opened Scan

  const RESULT_SELECTORS: seq<string> := ["[class*='row']"]

  const CLICKABLE_SELECTORS: seq<string> := [
    "button", "a", "[class*='name']", ".cell--name", ".result-name", ".item-name"]

  /** The most rows one pass over a listing processes. */
  const MAX_RESULTS: nat := 1000

  /** A row is a result when it can be read and its `data-rid` is set, non-empty and not `'None'`. */
  predicate ValidRow(e: Element)
  {
    e.Live? && e.rid.Some? && e.rid.value != "" && e.rid.value != "None"
  }

  /** The valid rows of one selector's matches, in listing order. */
  function ValidOf(s: seq<Element>): seq<Element>
  {
    if s == [] then [] else (if ValidRow(s[0]) then [s[0]] else []) + ValidOf(s[1..])
  }

  /** Filtering distributes over concatenation: the valid rows keep their relative order. */
  lemma {:induction false} ValidOfAppend(a: seq<Element>, b: seq<Element>)
    ensures ValidOf(a + b) == ValidOf(a) + ValidOf(b)
  {
    if a == [] {
      assert a + b == b;
    } else {
      var h := if ValidRow(a[0]) then [a[0]] else [];
      assert (a + b)[0] == a[0];
      assert (a + b)[1..] == a[1..] + b;
      assert ValidOf(a + b) == h + ValidOf(a[1..] + b);
      ValidOfAppend(a[1..], b);
      assert h + (ValidOf(a[1..]) + ValidOf(b)) == (h + ValidOf(a[1..])) + ValidOf(b);
    }
  }

  /**
   * The filter keeps every valid row exactly as often as it occurs, and
   * nothing else: n valid rows among m invalid ones give exactly n results.
   */
  lemma {:induction false} ValidOfKeeps(s: seq<Element>)
    ensures forall x :: x in ValidOf(s) ==> ValidRow(x)
    ensures forall x :: ValidRow(x) ==> multiset(ValidOf(s))[x] == multiset(s)[x]
  {
    if s != [] {
      ValidOfKeeps(s[1..]);
      assert s == [s[0]] + s[1..];
      assert multiset(s) == multiset{s[0]} + multiset(s[1..]);
    }
  }

  /** The loop that collects one selector's valid rows (`valid_results.append`). */
  method FilterValid(elements: seq<Element>) returns (valid: seq<Element>)
    ensures valid == ValidOf(elements)
  {
    valid := [];
    var j := 0;
    while j < |elements|
      invariant 0 <= j <= |elements|
      invariant valid == ValidOf(elements[..j])
    {
      assert elements[..j + 1] == elements[..j] + [elements[j]];
      ValidOfAppend(elements[..j], [elements[j]]);
      if ValidRow(elements[j]) {
        valid := valid + [elements[j]];
      }
      j := j + 1;
    }
    assert elements[..j] == elements;
  }

  function ValidPicker(find: Query): string -> Option<seq<Element>>
  {
    sel => var v := ValidOf(find(sel)); if v == [] then None else Some(v)
  }

  /** The rows a listing yields: the valid rows of the first selector that has any. */
  function ChosenFrom(find: Query, selectors: seq<string>): seq<Element>
  {
    match First(ValidPicker(find), selectors)
    case Some(v) => v
    case None => []
  }

  function Chosen(find: Query): seq<Element>
  {
    ChosenFrom(find, RESULT_SELECTORS)
  }

  /** The enumeration loop over the result selectors. */
  method EnumerateResults(find: Query) returns (rows: seq<Element>)
    ensures rows == Chosen(find)
  {
    var i := 0;
    while i < |RESULT_SELECTORS|
      invariant 0 <= i <= |RESULT_SELECTORS|
      invariant First(ValidPicker(find), RESULT_SELECTORS) == First(ValidPicker(find), RESULT_SELECTORS[i..])
    {
      assert RESULT_SELECTORS[i..][1..] == RESULT_SELECTORS[i + 1..];
      var elements := find(RESULT_SELECTORS[i]);
      if elements != [] {
        var valid := FilterValid(elements);
        if valid != [] {
          return valid;
        }
      }
      i := i + 1;
    }
    return [];
  }

  /**
   * The chosen rows are exactly the valid rows of one selector, the first
   * that has any, and never a mixture of selectors; there are none only if
   * no selector finds a valid row.
   */
  lemma ChosenIsFirstValidSelector(find: Query, selectors: seq<string>)
    ensures ChosenFrom(find, selectors) == [] <==>
      forall k :: 0 <= k < |selectors| ==> ValidOf(find(selectors[k])) == []
    ensures ChosenFrom(find, selectors) != [] ==>
      exists k :: 0 <= k < |selectors| && ChosenFrom(find, selectors) == ValidOf(find(selectors[k]))
        && forall j :: 0 <= j < k ==> ValidOf(find(selectors[j])) == []
  {
    FirstIsEarliest(ValidPicker(find), selectors);
    if First(ValidPicker(find), selectors).Some? {
      var k :| 0 <= k < |selectors|
        && ValidPicker(find)(selectors[k]) == First(ValidPicker(find), selectors)
        && forall j :: 0 <= j < k ==> ValidPicker(find)(selectors[j]).None?;
      assert ValidOf(find(selectors[k])) != [];
    }
  }

  /** The rows processed: at most the first `MAX_RESULTS`, in listing order. */
  function Batch(rows: seq<Element>): (b: seq<Element>)
    ensures |b| == if |rows| < MAX_RESULTS then |rows| else MAX_RESULTS
    ensures b == rows[..|b|]
  {
    rows[..if |rows| < MAX_RESULTS then |rows| else MAX_RESULTS]
  }

  function InnerPicker(inner: Query): string -> Option<Element>
  {
    sel => if inner(sel) == [] then None else Some(inner(sel)[0])
  }

  /** The element clicked for a row: the first match of the first inner selector that has one, else the row. */
  function Clickable(row: Element, inner: Query): Element
  {
    match First(InnerPicker(inner), CLICKABLE_SELECTORS)
    case Some(x) => x
    case None => row
  }

  method ChooseClickable(row: Element, inner: Query) returns (target: Element)
    ensures target == Clickable(row, inner)
  {
    var hit := ScanCandidates(InnerPicker(inner), CLICKABLE_SELECTORS);
    target := if hit.Some? then hit.value else row;
  }

  /**
   * The clicked element is the first element of the first inner selector
   * that matches anything, and the row itself only when none does.
   */
  lemma ClickableChoice(row: Element, inner: Query)
    ensures
      || (Clickable(row, inner) == row
          && forall k :: 0 <= k < |CLICKABLE_SELECTORS| ==> inner(CLICKABLE_SELECTORS[k]) == [])
      || (exists k ::
            && 0 <= k < |CLICKABLE_SELECTORS| && inner(CLICKABLE_SELECTORS[k]) != []
            && Clickable(row, inner) == inner(CLICKABLE_SELECTORS[k])[0]
            && forall j :: 0 <= j < k ==> inner(CLICKABLE_SELECTORS[j]) == [])
  {
    FirstIsEarliest(InnerPicker(inner), CLICKABLE_SELECTORS);
    if First(InnerPicker(inner), CLICKABLE_SELECTORS).Some? {
      var k :| 0 <= k < |CLICKABLE_SELECTORS|
        && InnerPicker(inner)(CLICKABLE_SELECTORS[k]) == First(InnerPicker(inner), CLICKABLE_SELECTORS)
        && forall j :: 0 <= j < k ==> InnerPicker(inner)(CLICKABLE_SELECTORS[j]).None?;
      assert inner(CLICKABLE_SELECTORS[k]) != [];
    }
  }
}
