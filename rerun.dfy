/**
 * Running the scraper a second time over the same pages writes nothing.
 * The dedup gate never learns the keys it writes during a run, but the next
 * process loads them from the two files at startup; and everything a run
 * extracts depends only on the cached selector and the reported names and
 * addresses, which every process starts afresh. So the second run computes
 * the same keys as the first and finds each of them loaded.
 */
module Rerun {
  import opened Wrappers
  import opened Page
  import opened Extract
  import opened Results
  import opened Resolver
  import opened Session

  /** The part of the state that decides what is extracted: everything but the loaded keys and the files. */
  function Memory(s: State): (Option<string>, set<string>, set<string>)
  {
    (s.cache, s.foundSchoolNames, s.foundEmails)
  }

  /** The first field of every row of `longer` beyond the first `|shorter|`. */
  function Added(shorter: seq<Row>, longer: seq<Row>): set<string>
  {
    set i | |shorter| <= i < |longer| && longer[i] != [] :: longer[i][0]
  }

  /** The keys `t` holds in its files beyond the rows `s` holds. */
  function NewKeys(s: State, t: State): set<string>
  {
    Added(s.noEmailRows, t.noEmailRows) + Added(s.leadRows, t.leadRows)
  }

  // ================================================================ the keys a run computes

  /** The key built for a row, if clicking it opened a detail view. */
  function RowKeys(s: State, page: SearchPage, row: Element): set<string>
  {
    match page.click(Clickable(row, page.inner(row)))
    case None => {}
    case Some(d) => {EntryOf(s, d)}
  }

  /** The keys built over a listing, row by row. */
  function RowsKeys(s: State, page: SearchPage, rows: seq<Element>): set<string>
    decreases |rows|
  {
    if rows == [] then {}
    else
      var init := rows[..|rows| - 1];
      RowsKeys(s, page, init) + RowKeys(VisitRows(s, page, init), page, rows[|rows| - 1])
  }

  /** The keys built for one place. */
  function PlaceKeys(s: State, page: SearchPage): set<string>
  {
    if !page.searchBox then {}
    else
      var used := Resolved(s.cache, AUTO_SELECTORS, page.attempt);
      var s1 := s.(cache := CacheAfter(s.cache, used, page.attempt));
      if used.None? || !page.autoClicked then {} else RowsKeys(s1, page, Batch(Chosen(page.results)))
  }

  /** The keys built over a run, place by place. */
  function RunKeys(s: State, pages: seq<SearchPage>): set<string>
    decreases |pages|
  {
    if pages == [] then {}
    else
      var init := pages[..|pages| - 1];
      RunKeys(s, init) + PlaceKeys(Places(s, init), pages[|pages| - 1])
  }

  // ================================================================ new keys along a run

  lemma AddedTrans(a: seq<Row>, b: seq<Row>, c: seq<Row>)
    requires a <= b <= c
    ensures Added(a, b) <= Added(a, c) && Added(b, c) <= Added(a, c)
  {
    forall k | k in Added(a, b) ensures k in Added(a, c) {
      var i :| |a| <= i < |b| && b[i] != [] && b[i][0] == k;
      assert c[i] == b[i];
    }
  }

  /** The keys added from `a` to `c` include those added from `a` to `b` and from `b` to `c`. */
  lemma NewKeysTrans(a: State, b: State, c: State)
    requires Grows(a, b) && Grows(b, c)
    ensures NewKeys(a, b) <= NewKeys(a, c) && NewKeys(b, c) <= NewKeys(a, c)
  {
    AddedTrans(a.noEmailRows, b.noEmailRows, c.noEmailRows);
    AddedTrans(a.leadRows, b.leadRows, c.leadRows);
  }

  // ================================================================ one result

  /** What is extracted from a result, and the key, depend only on the memory. */
  lemma VisitMemory(s: State, t: State, d: Detail)
    requires Memory(s) == Memory(t)
    ensures Memory(Visit(s, d)) == Memory(Visit(t, d)) && EntryOf(s, d) == EntryOf(t, d)
  {
    GateWritesOnce(s.(foundSchoolNames := NamesAfter(s.foundSchoolNames, d), foundEmails := EmailsAfter(s.foundEmails, d)),
                   EntryOf(s, d), EmailAddress(s.foundEmails, d));
    GateWritesOnce(t.(foundSchoolNames := NamesAfter(t.foundSchoolNames, d), foundEmails := EmailsAfter(t.foundEmails, d)),
                   EntryOf(t, d), EmailAddress(t.foundEmails, d));
  }

  /** The key of a result is either loaded already or written by the gate. */
  lemma VisitCovered(s: State, d: Detail)
    ensures EntryOf(s, d) in s.entries + NewKeys(s, Visit(s, d))
  {
    var entry := EntryOf(s, d);
    var t := Visit(s, d);
    if entry !in s.entries {
      var s1 := s.(foundSchoolNames := NamesAfter(s.foundSchoolNames, d), foundEmails := EmailsAfter(s.foundEmails, d));
      assert t == Gate(s1, entry, EmailAddress(s.foundEmails, d));
      if EmailAddress(s.foundEmails, d).None? {
        assert t.noEmailRows[|s.noEmailRows|] == [entry];
      } else {
        assert t.leadRows[|s.leadRows|] == [entry];
      }
    }
  }

  /** A result whose key is loaded leaves both files and the loaded keys as they were. */
  lemma VisitQuiet(s: State, d: Detail)
    requires EntryOf(s, d) in s.entries
    ensures Visit(s, d).noEmailRows == s.noEmailRows && Visit(s, d).leadRows == s.leadRows
    ensures Visit(s, d).entries == s.entries
  {
  }

  // ================================================================ a listing

  lemma VisitRowGrows(s: State, page: SearchPage, row: Element)
    ensures Grows(s, VisitRow(s, page, row))
  {
    match page.click(Clickable(row, page.inner(row)))
    case None =>
    case Some(d) => VisitGrows(s, d);
  }

  lemma {:induction false} RowsMemory(s: State, t: State, page: SearchPage, rows: seq<Element>)
    requires Memory(s) == Memory(t)
    ensures Memory(VisitRows(s, page, rows)) == Memory(VisitRows(t, page, rows))
    ensures RowsKeys(s, page, rows) == RowsKeys(t, page, rows)
    decreases |rows|
  {
    if rows != [] {
      var init := rows[..|rows| - 1];
      var row := rows[|rows| - 1];
      RowsMemory(s, t, page, init);
      match page.click(Clickable(row, page.inner(row)))
      case None =>
      case Some(d) => VisitMemory(VisitRows(s, page, init), VisitRows(t, page, init), d);
    }
  }

  lemma RowCovered(s: State, page: SearchPage, row: Element)
    ensures RowKeys(s, page, row) <= s.entries + NewKeys(s, VisitRow(s, page, row))
  {
    match page.click(Clickable(row, page.inner(row)))
    case None =>
    case Some(d) => VisitCovered(s, d);
  }

  lemma {:induction false} RowsCovered(s: State, page: SearchPage, rows: seq<Element>)
    ensures RowsKeys(s, page, rows) <= s.entries + NewKeys(s, VisitRows(s, page, rows))
    decreases |rows|
  {
    if rows != [] {
      var init := rows[..|rows| - 1];
      var row := rows[|rows| - 1];
      var s1 := VisitRows(s, page, init);
      var s2 := VisitRow(s1, page, row);
      RowsCovered(s, page, init);
      VisitRowsGrows(s, page, init);
      VisitRowGrows(s1, page, row);
      NewKeysTrans(s, s1, s2);
      RowCovered(s1, page, row);
      assert s1.entries == s.entries;
      assert VisitRows(s, page, rows) == s2;
    }
  }

  lemma {:induction false} RowsQuiet(s: State, page: SearchPage, rows: seq<Element>)
    requires RowsKeys(s, page, rows) <= s.entries
    ensures VisitRows(s, page, rows).noEmailRows == s.noEmailRows && VisitRows(s, page, rows).leadRows == s.leadRows
    ensures VisitRows(s, page, rows).entries == s.entries
    decreases |rows|
  {
    if rows != [] {
      var init := rows[..|rows| - 1];
      var row := rows[|rows| - 1];
      RowsQuiet(s, page, init);
      match page.click(Clickable(row, page.inner(row)))
      case None =>
      case Some(d) => VisitQuiet(VisitRows(s, page, init), d);
    }
  }

  // ================================================================ a place

  lemma PlaceMemory(s: State, t: State, page: SearchPage)
    requires Memory(s) == Memory(t)
    ensures Memory(PlaceStep(s, page)) == Memory(PlaceStep(t, page))
    ensures PlaceKeys(s, page) == PlaceKeys(t, page)
  {
    if page.searchBox {
      var used := Resolved(s.cache, AUTO_SELECTORS, page.attempt);
      var s1 := s.(cache := CacheAfter(s.cache, used, page.attempt));
      var t1 := t.(cache := CacheAfter(t.cache, used, page.attempt));
      RowsMemory(s1, t1, page, Batch(Chosen(page.results)));
    }
  }

  lemma PlaceCovered(s: State, page: SearchPage)
    ensures PlaceKeys(s, page) <= s.entries + NewKeys(s, PlaceStep(s, page))
  {
    if page.searchBox {
      var used := Resolved(s.cache, AUTO_SELECTORS, page.attempt);
      var s1 := s.(cache := CacheAfter(s.cache, used, page.attempt));
      RowsCovered(s1, page, Batch(Chosen(page.results)));
      assert NewKeys(s1, VisitRows(s1, page, Batch(Chosen(page.results))))
          == NewKeys(s, VisitRows(s1, page, Batch(Chosen(page.results))));
    }
  }

  lemma PlaceQuiet(s: State, page: SearchPage)
    requires PlaceKeys(s, page) <= s.entries
    ensures PlaceStep(s, page).noEmailRows == s.noEmailRows && PlaceStep(s, page).leadRows == s.leadRows
    ensures PlaceStep(s, page).entries == s.entries
  {
    if page.searchBox {
      var used := Resolved(s.cache, AUTO_SELECTORS, page.attempt);
      var s1 := s.(cache := CacheAfter(s.cache, used, page.attempt));
      if used.Some? && page.autoClicked {
        RowsQuiet(s1, page, Batch(Chosen(page.results)));
      }
    }
  }

  // ================================================================ a run

  lemma {:induction false} RunMemory(s: State, t: State, pages: seq<SearchPage>)
    requires Memory(s) == Memory(t)
    ensures Memory(Places(s, pages)) == Memory(Places(t, pages))
    ensures RunKeys(s, pages) == RunKeys(t, pages)
    decreases |pages|
  {
    if pages != [] {
      var init := pages[..|pages| - 1];
      RunMemory(s, t, init);
      PlaceMemory(Places(s, init), Places(t, init), pages[|pages| - 1]);
    }
  }

  lemma {:induction false} RunCovered(s: State, pages: seq<SearchPage>)
    ensures RunKeys(s, pages) <= s.entries + NewKeys(s, Places(s, pages))
    decreases |pages|
  {
    if pages != [] {
      var init := pages[..|pages| - 1];
      var s1 := Places(s, init);
      RunCovered(s, init);
      PlacesGrows(s, init);
      PlaceStepGrows(s1, pages[|pages| - 1]);
      PlaceCovered(s1, pages[|pages| - 1]);
      NewKeysTrans(s, s1, Places(s, pages));
    }
  }

  lemma {:induction false} RunQuiet(s: State, pages: seq<SearchPage>)
    requires RunKeys(s, pages) <= s.entries
    ensures Places(s, pages).noEmailRows == s.noEmailRows && Places(s, pages).leadRows == s.leadRows
    ensures Places(s, pages).entries == s.entries
    decreases |pages|
  {
    if pages != [] {
      var init := pages[..|pages| - 1];
      RunQuiet(s, init);
      PlaceQuiet(Places(s, init), pages[|pages| - 1]);
    }
  }

  // ================================================================ two processes

  /** The state a fresh process is in after loading the keys of the two files. */
  function Started(noEmailFile: seq<Row>, leadsFile: seq<Row>): State
  {
    State(None, {}, {}, Loaded(noEmailFile) + Loaded(leadsFile), noEmailFile, leadsFile)
  }

  /** The rows a run appends to a readable file keep it readable, and the next startup loads their keys. */
  lemma AppendedKeysLoaded(file: seq<Row>, t: seq<Row>)
    requires Readable(file) && file <= t
    requires forall i :: |file| <= i < |t| ==> |t[i]| == 1
    ensures Readable(t)
    ensures Loaded(file) <= Loaded(t)
    ensures forall i :: |file| <= i < |t| ==> t[i][0] in Loaded(t)
  {
    var more := t[|file|..];
    assert t == file + more;
    AppendedRowsLoaded(file, more);
    forall i | |file| <= i < |t| ensures t[i][0] in Loaded(t) {
      assert more[i - |file|] == t[i];
    }
  }

  /**
   * A second process over the two files the first left behind, and over the
   * same pages, writes nothing: both files stay exactly as the first run left
   * them, and both are readable at its startup.
   */
  lemma RerunWritesNothing(noEmailFile: seq<Row>, leadsFile: seq<Row>, pages: seq<SearchPage>)
    requires Readable(noEmailFile) && Readable(leadsFile)
    ensures var first := Places(Started(noEmailFile, leadsFile), pages);
      && Readable(first.noEmailRows) && Readable(first.leadRows)
      && var second := Places(Started(first.noEmailRows, first.leadRows), pages);
         second.noEmailRows == first.noEmailRows && second.leadRows == first.leadRows
  {
    var s := Started(noEmailFile, leadsFile);
    var first := Places(s, pages);
    PlacesGrows(s, pages);
    AppendedKeysLoaded(noEmailFile, first.noEmailRows);
    AppendedKeysLoaded(leadsFile, first.leadRows);
    var s2 := Started(first.noEmailRows, first.leadRows);
    RunCovered(s, pages);
    assert NewKeys(s, first) <= s2.entries;
    RunMemory(s, s2, pages);
    RunQuiet(s2, pages);
  }
}
