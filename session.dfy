/**
 * The process-wide state of one run and how each step changes it, as
 * functions: the dedup and persistence gate, the processing of one opened
 * result, of a place's listing, of a place and of a list of places, and
 * the startup load of the keys already written. `Scraper` is the object
 * that carries this state; its methods are proved to follow these functions.
 */
module Session {
  import opened Wrappers
  import opened Page
  import opened Extract
  import opened Records
  import opened Results
  import opened Resolver

  /** One CSV row, as its fields. */
  type Row = seq<string>

  /**
   * The globals of the source: the cached Auto selector, the names and
   * addresses already reported, the keys loaded at startup, and the two
   * output files (`leads_no_email.csv`, `rijscholen_leads.csv`) row by row,
   * header row included.
   */
  datatype State = State(
    cache: Option<string>,
    foundSchoolNames: set<string>,
    foundEmails: set<string>,
    entries: set<string>,
    noEmailRows: seq<Row>,
    leadRows: seq<Row>)

  // ================================================================ the gate

  /** A key already loaded is not written; a new one goes to the file chosen by whether an email was found. */
  function Gate(s: State, entry: string, email: Option<string>): State
  {
    if entry in s.entries then s
    else if email.None? then s.(noEmailRows := s.noEmailRows + [[entry]])
    else s.(leadRows := s.leadRows + [[entry]])
  }

  /** The number of rows the two output files hold together. */
  function RowCount(s: State): nat
  {
    |s.noEmailRows| + |s.leadRows|
  }

  /**
   * The gate writes one row exactly when the key is new, into exactly one
   * file, the one without emails iff the email is missing; the row is the
   * key alone, and nothing else changes, the loaded keys included.
   */
  lemma GateWritesOnce(s: State, entry: string, email: Option<string>)
    ensures var t := Gate(s, entry, email);
      && t.entries == s.entries && t.cache == s.cache
      && t.foundSchoolNames == s.foundSchoolNames && t.foundEmails == s.foundEmails
      && RowCount(t) == RowCount(s) + (if entry in s.entries then 0 else 1)
      && (email.None? ==> t.leadRows == s.leadRows)
      && (email.Some? ==> t.noEmailRows == s.noEmailRows)
      && (entry !in s.entries && email.None? ==> t.noEmailRows[|s.noEmailRows|] == [entry])
      && (entry !in s.entries && email.Some? ==> t.leadRows[|s.leadRows|] == [entry])
    ensures var t := Gate(s, entry, email);
      s.noEmailRows <= t.noEmailRows && s.leadRows <= t.leadRows
    ensures entry in s.entries ==> Gate(s, entry, email) == s
  {
  }

  /**
   * The loaded keys never grow during a run, so a new key that comes up
   * twice is written twice.
   */
  lemma SameNewKeyWrittenTwice(s: State, entry: string, email: Option<string>)
    requires entry !in s.entries
    ensures email.None? ==> Gate(Gate(s, entry, email), entry, email).noEmailRows == s.noEmailRows + [[entry], [entry]]
    ensures email.Some? ==> Gate(Gate(s, entry, email), entry, email).leadRows == s.leadRows + [[entry], [entry]]
  {
  }

  // ================================================================ one result

  /** The key `extract_driving_school_data_from_result` builds for an opened result. */
  function EntryOf(s: State, d: Detail): string
  {
    Key(SchoolName(s.foundSchoolNames, d), PhoneNumber(d), EmailAddress(s.foundEmails, d), Website(d))
  }

  /** All four extractors, one after another, then the gate. */
  function Visit(s: State, d: Detail): State
  {
    var email := EmailAddress(s.foundEmails, d);
    Gate(s.(foundSchoolNames := NamesAfter(s.foundSchoolNames, d), foundEmails := EmailsAfter(s.foundEmails, d)),
         EntryOf(s, d), email)
  }

  /**
   * How a step may change the state: the loaded keys stay, the reported
   * names and addresses only grow, and the files only grow at the end, by
   * one-field rows whose key had not been loaded.
   */
  predicate Grows(s: State, t: State)
  {
    && t.entries == s.entries
    && s.foundSchoolNames <= t.foundSchoolNames && s.foundEmails <= t.foundEmails
    && s.noEmailRows <= t.noEmailRows && s.leadRows <= t.leadRows
    && (forall i :: |s.noEmailRows| <= i < |t.noEmailRows| ==> |t.noEmailRows[i]| == 1 && t.noEmailRows[i][0] !in s.entries)
    && (forall i :: |s.leadRows| <= i < |t.leadRows| ==> |t.leadRows[i]| == 1 && t.leadRows[i][0] !in s.entries)
  }

  lemma GrowsTrans(a: State, b: State, c: State)
    requires Grows(a, b) && Grows(b, c)
    ensures Grows(a, c)
  {
    forall i | |a.noEmailRows| <= i < |c.noEmailRows|
      ensures |c.noEmailRows[i]| == 1 && c.noEmailRows[i][0] !in a.entries
    {
      if i < |b.noEmailRows| {
        assert c.noEmailRows[i] == b.noEmailRows[i];
      }
    }
    forall i | |a.leadRows| <= i < |c.leadRows|
      ensures |c.leadRows[i]| == 1 && c.leadRows[i][0] !in a.entries
    {
      if i < |b.leadRows| {
        assert c.leadRows[i] == b.leadRows[i];
      }
    }
  }

  /** The gate is a step of the allowed kind and writes at most one row. */
  lemma GateGrows(s: State, entry: string, email: Option<string>)
    ensures Grows(s, Gate(s, entry, email))
    ensures RowCount(Gate(s, entry, email)) <= RowCount(s) + 1
    ensures Gate(s, entry, email).cache == s.cache
  {
  }

  /** One result adds at most one row and keeps the cached selector. */
  lemma VisitGrows(s: State, d: Detail)
    ensures Grows(s, Visit(s, d))
    ensures RowCount(Visit(s, d)) <= RowCount(s) + 1
    ensures Visit(s, d).cache == s.cache
  {
    var email := EmailAddress(s.foundEmails, d);
    var s1 := s.(foundSchoolNames := NamesAfter(s.foundSchoolNames, d), foundEmails := EmailsAfter(s.foundEmails, d));
    var entry := EntryOf(s, d);
    assert Visit(s, d) == Gate(s1, entry, email);
    assert s.foundSchoolNames <= s1.foundSchoolNames && s.foundEmails <= s1.foundEmails;
    assert Grows(s, s1);
    GateGrows(s1, entry, email);
    GrowsTrans(s, s1, Visit(s, d));
  }

  // ================================================================ a listing

  /** What processing one row does: click its clickable element, and extract if that opened something. */
  function VisitRow(s: State, page: SearchPage, row: Element): State
  {
    match page.click(Clickable(row, page.inner(row)))
    case None => s
    case Some(d) => Visit(s, d)
  }

  /** The rows processed one by one, in order. */
  function VisitRows(s: State, page: SearchPage, rows: seq<Element>): State
    decreases |rows|
  {
    if rows == [] then s
    else VisitRow(VisitRows(s, page, rows[..|rows| - 1]), page, rows[|rows| - 1])
  }

  /** A listing pass adds at most one row per processed result and keeps the cached selector. */
  lemma {:induction false} VisitRowsGrows(s: State, page: SearchPage, rows: seq<Element>)
    ensures Grows(s, VisitRows(s, page, rows))
    ensures RowCount(VisitRows(s, page, rows)) <= RowCount(s) + |rows|
    ensures VisitRows(s, page, rows).cache == s.cache
    decreases |rows|
  {
    if rows != [] {
      var s1 := VisitRows(s, page, rows[..|rows| - 1]);
      VisitRowsGrows(s, page, rows[..|rows| - 1]);
      var row := rows[|rows| - 1];
      match page.click(Clickable(row, page.inner(row)))
      case None =>
      case Some(d) =>
        VisitGrows(s1, d);
        GrowsTrans(s, s1, Visit(s1, d));
    }
  }

  // ================================================================ a place

  /**
   * `process_place` after the search: without a search box nothing happens;
   * otherwise the Auto button is resolved, the cache updated, and, if the
   * button was found and clicking it did not raise, the listing's first
   * results processed.
   */
  function PlaceStep(s: State, page: SearchPage): State
  {
    if !page.searchBox then s
    else
      var used := Resolved(s.cache, AUTO_SELECTORS, page.attempt);
      var s1 := s.(cache := CacheAfter(s.cache, used, page.attempt));
      if used.None? || !page.autoClicked then s1 else VisitRows(s1, page, Batch(Chosen(page.results)))
  }

  /**
   * When the Auto button is found but clicking it raises, the cache update
   * that preceded the click stays, and nothing else happens at that place.
   */
  lemma FailedAutoClickOnlyCaches(s: State, page: SearchPage)
    requires page.searchBox && !page.autoClicked
    ensures PlaceStep(s, page) == s.(cache := CacheAfter(s.cache, Resolved(s.cache, AUTO_SELECTORS, page.attempt), page.attempt))
    ensures var used := Resolved(s.cache, AUTO_SELECTORS, page.attempt);
      used.Some? && !Cached(s.cache) ==> PlaceStep(s, page).cache == used
    ensures var used := Resolved(s.cache, AUTO_SELECTORS, page.attempt);
      used.Some? && Cached(s.cache) && !Fast(page.attempt(used.value)) ==> PlaceStep(s, page).cache == s.cache
  {
  }

  /** The places processed one by one, in order. */
  function Places(s: State, pages: seq<SearchPage>): State
    decreases |pages|
  {
    if pages == [] then s
    else PlaceStep(Places(s, pages[..|pages| - 1]), pages[|pages| - 1])
  }

  /** One place adds at most `MAX_RESULTS` rows. */
  lemma PlaceStepGrows(s: State, page: SearchPage)
    ensures Grows(s, PlaceStep(s, page))
    ensures RowCount(PlaceStep(s, page)) <= RowCount(s) + MAX_RESULTS
  {
    if page.searchBox {
      var used := Resolved(s.cache, AUTO_SELECTORS, page.attempt);
      var s1 := s.(cache := CacheAfter(s.cache, used, page.attempt));
      if used.Some? && page.autoClicked {
        VisitRowsGrows(s1, page, Batch(Chosen(page.results)));
      }
    }
  }

  /** A run over `n` places adds at most `n * MAX_RESULTS` rows, all new keys, and forgets no loaded key. */
  lemma {:induction false} PlacesGrows(s: State, pages: seq<SearchPage>)
    ensures Grows(s, Places(s, pages))
    ensures RowCount(Places(s, pages)) <= RowCount(s) + |pages| * MAX_RESULTS
    decreases |pages|
  {
    if pages != [] {
      var p := pages[..|pages| - 1];
      PlacesGrows(s, p);
      PlaceStepGrows(Places(s, p), pages[|pages| - 1]);
      GrowsTrans(s, Places(s, p), Places(s, pages));
    }
  }

  // ================================================================ startup

  /** The index of the first empty row (an empty CSV line), or the number of rows. */
  function FirstEmpty(rows: seq<Row>): (k: nat)
    ensures k <= |rows|
    ensures forall i :: 0 <= i < k ==> rows[i] != []
    ensures k < |rows| ==> rows[k] == []
  {
    if rows == [] || rows[0] == [] then 0 else 1 + FirstEmpty(rows[1..])
  }

  /** The first fields of the first `n` rows. */
  function Column0(rows: seq<Row>, n: nat): set<string>
    requires n <= FirstEmpty(rows)
  {
    set i | 0 <= i < n :: rows[i][0]
  }

  /** A file loads without raising: it has a header row, and no data row is empty. */
  predicate Readable(file: seq<Row>)
  {
    |file| > 0 && FirstEmpty(file[1..]) == |file| - 1
  }

  /** The keys loading adds before it finishes or raises: the first field of every data row before the first empty one. */
  function Loaded(file: seq<Row>): set<string>
  {
    if |file| == 0 then {} else Column0(file[1..], FirstEmpty(file[1..]))
  }

  /** A readable file loads the first field of every data row, and nothing else. */
  lemma LoadedReadable(file: seq<Row>)
    requires Readable(file)
    ensures forall i :: 1 <= i < |file| ==> file[i] != [] && file[i][0] in Loaded(file)
    ensures forall k :: k in Loaded(file) ==> exists i :: 1 <= i < |file| && file[i][0] == k
  {
    forall i | 1 <= i < |file| ensures file[i] != [] && file[i][0] in Loaded(file) {
      assert file[1..][i - 1] == file[i];
    }
    forall k | k in Loaded(file) ensures exists i :: 1 <= i < |file| && file[i][0] == k {
      var j :| 0 <= j < |file| - 1 && file[1..][j][0] == k;
      assert file[j + 1] == file[1..][j];
    }
  }

  /**
   * Rows the gate appends to a readable file keep it readable, and the next
   * startup loads their keys as well as the old ones.
   */
  lemma {:induction false} AppendedRowsLoaded(file: seq<Row>, more: seq<Row>)
    requires Readable(file)
    requires forall i :: 0 <= i < |more| ==> |more[i]| == 1
    ensures Readable(file + more)
    ensures Loaded(file + more) == Loaded(file) + set i | 0 <= i < |more| :: more[i][0]
  {
    var f := file + more;
    assert f[1..] == file[1..] + more;
    LoadedReadable(file);
    FirstEmptyAll(f[1..]);
    LoadedReadable(f);
    forall k | k in Loaded(f) ensures k in Loaded(file) + set i | 0 <= i < |more| :: more[i][0] {
      var i :| 1 <= i < |f| && f[i][0] == k;
      if i >= |file| {
        assert more[i - |file|] == f[i];
      } else {
        assert f[i] == file[i];
      }
    }
    forall k | k in set i | 0 <= i < |more| :: more[i][0] ensures k in Loaded(f) {
      var i :| 0 <= i < |more| && more[i][0] == k;
      assert f[|file| + i] == more[i];
    }
    forall k | k in Loaded(file) ensures k in Loaded(f) {
      var i :| 1 <= i < |file| && file[i][0] == k;
      assert f[i] == file[i];
    }
  }

  /** A sequence of non-empty rows has no first empty row. */
  lemma {:induction false} FirstEmptyAll(rows: seq<Row>)
    requires forall i :: 0 <= i < |rows| ==> rows[i] != []
    ensures FirstEmpty(rows) == |rows|
    decreases |rows|
  {
    if rows != [] {
      FirstEmptyAll(rows[1..]);
    }
  }
}
