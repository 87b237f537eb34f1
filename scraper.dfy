/**
 * The scraper's global state as one object, and the stateful parts of the
 * source as its methods: the two extractors that consult and update the
 * reported names and addresses, the dedup gate, the pass over a listing,
 * the Auto-button resolution with its cache, one place, the startup load
 * and the run over all places. Each method is proved to follow the
 * corresponding function of `Session`.
 */
module Scraper {
  import opened Wrappers
  import opened Page
  import opened Scan
  import opened Fields
  import opened Extract
  import opened Records
  import opened Results
  import opened Resolver
  import opened Session

  class Scraper {
    /** `fastest_auto_selector` */
    var fastestAutoSelector: Option<string>
    /** `found_schoolnames` */
    var foundSchoolNames: set<string>
    /** `found_emails` */
    var foundEmails: set<string>
    /** `entries` */
    var entries: set<string>
    /** The rows of `leads_no_email.csv`. */
    var noEmailRows: seq<Row>
    /** The rows of `rijscholen_leads.csv`. */
    var leadRows: seq<Row>

    function Snapshot(): State
      reads this
    {
      State(fastestAutoSelector, foundSchoolNames, foundEmails, entries, noEmailRows, leadRows)
    }

    /** A fresh process over the two output files as they are on disk. */
    constructor (noEmailFile: seq<Row>, leadsFile: seq<Row>)
      ensures Snapshot() == State(None, {}, {}, {}, noEmailFile, leadsFile)
    {
      fastestAutoSelector := None;
      foundSchoolNames := {};
      foundEmails := {};
      entries := {};
      noEmailRows := noEmailFile;
      leadRows := leadsFile;
    }

    /**
     * One `with open(...)` block of the startup: skip the header, add the
     * first field of every row. `false` where the source raises: no header
     * row to skip, or an empty row.
     */
    method LoadFile(file: seq<Row>) returns (ok: bool)
      modifies this`entries
      ensures ok == Readable(file)
      ensures entries == old(entries) + Loaded(file)
    {
      if |file| == 0 {
        return false;
      }
      var rows := file[1..];
      var i := 0;
      while i < |rows|
        invariant 0 <= i <= |rows|
        invariant i <= FirstEmpty(rows)
        invariant entries == old(entries) + Column0(rows, i)
      {
        if rows[i] == [] {
          return false;
        }
        assert Column0(rows, i + 1) == Column0(rows, i) + {rows[i][0]};
        entries := entries + {rows[i][0]};
        i := i + 1;
      }
      return true;
    }

    /** The startup load of both files; the second is not reached when the first raises. */
    method LoadEntries() returns (ok: bool)
      modifies this`entries
      ensures ok == (Readable(noEmailRows) && Readable(leadRows))
      ensures entries == old(entries) + Loaded(noEmailRows) + (if Readable(noEmailRows) then Loaded(leadRows) else {})
    {
      ok := LoadFile(noEmailRows);
      if ok {
        ok := LoadFile(leadRows);
      }
    }

    /** `extract_school_name` */
    method ExtractSchoolName(d: Detail) returns (name: Option<string>)
      modifies this`foundSchoolNames
      ensures name == SchoolName(old(foundSchoolNames), d)
      ensures foundSchoolNames == NamesAfter(old(foundSchoolNames), d)
    {
      name := ScanSelectors(NamePicker(foundSchoolNames), d.find, NAME_SELECTORS);
      if name.Some? {
        foundSchoolNames := foundSchoolNames + {NameMark(name.value)};
      } else {
        name := TitleName(d.title);
      }
    }

    /** `extract_email_address` */
    method ExtractEmailAddress(d: Detail) returns (email: Option<string>)
      modifies this`foundEmails
      ensures email == EmailAddress(old(foundEmails), d)
      ensures foundEmails == EmailsAfter(old(foundEmails), d)
    {
      email := ScanSelectors(EmailPicker(foundEmails), d.find, EMAIL_SELECTORS);
      if email.Some? {
        foundEmails := foundEmails + {EmailMark(email.value)};
      }
    }

    /** The two extractors of `extract_driving_school_data_from_result` that consult and update the process state. */
    method ExtractRecorded(d: Detail) returns (name: Option<string>, email: Option<string>)
      modifies this`foundSchoolNames, this`foundEmails
      ensures name == SchoolName(old(foundSchoolNames), d) && email == EmailAddress(old(foundEmails), d)
      ensures Snapshot() == old(Snapshot()).(foundSchoolNames := NamesAfter(old(foundSchoolNames), d),
                                             foundEmails := EmailsAfter(old(foundEmails), d))
    {
      name := ExtractSchoolName(d);
      email := ExtractEmailAddress(d);
    }

    /** The dedup check and the CSV append of `extract_driving_school_data_from_result`. */
    method Persist(entry: string, email: Option<string>)
      modifies this`noEmailRows, this`leadRows
      ensures Snapshot() == Gate(old(Snapshot()), entry, email)
    {
      if entry !in entries {
        if email.None? {
          noEmailRows := noEmailRows + [[entry]];
        } else {
          leadRows := leadRows + [[entry]];
        }
      }
    }

    /** `extract_driving_school_data_from_result`: the four extractors, the key, and the gate. */
    method ExtractFromResult(d: Detail) returns (entry: string)
      modifies this
      ensures entry == EntryOf(old(Snapshot()), d)
      ensures Snapshot() == Visit(old(Snapshot()), d)
    {
      var name, email := ExtractRecorded(d);
      var phone := ExtractPhoneNumber(d);
      var website := ExtractWebsite(d);
      entry := Key(name, phone, email, website);
      Persist(entry, email);
    }

    /** The body of the result loop of `click_all_search_results`: click the row's target, extract what it opens. */
    method VisitResult(page: SearchPage, row: Element)
      modifies this
      ensures Snapshot() == VisitRow(old(Snapshot()), page, row)
    {
      var target := ChooseClickable(row, page.inner(row));
      var detail := page.click(target);
      if detail.Some? {
        var _ := ExtractFromResult(detail.value);
      }
    }

    /** The result loop of `click_all_search_results`: each row once, in order. */
    method VisitResults(page: SearchPage, rows: seq<Element>)
      modifies this
      ensures Snapshot() == VisitRows(old(Snapshot()), page, rows)
    {
      var i := 0;
      while i < |rows|
        invariant 0 <= i <= |rows|
        invariant Snapshot() == VisitRows(old(Snapshot()), page, rows[..i])
      {
        assert rows[..i + 1][..i] == rows[..i];
        VisitResult(page, rows[i]);
        i := i + 1;
      }
      assert rows[..i] == rows;
    }

    /** `click_all_search_results`: enumerate, keep at most `MAX_RESULTS` rows, process them. */
    method ClickAllSearchResults(page: SearchPage)
      modifies this
      ensures Snapshot() == VisitRows(old(Snapshot()), page, Batch(Chosen(page.results)))
    {
      var rows := EnumerateResults(page.results);
      VisitResults(page, rows[..if |rows| < MAX_RESULTS then |rows| else MAX_RESULTS]);
    }

    /** The selector loop of `process_place` for the Auto button, with the cache update. */
    method ResolveAutoButton(attempt: string -> Attempt) returns (used: Option<string>)
      modifies this`fastestAutoSelector
      ensures used == Resolved(old(fastestAutoSelector), AUTO_SELECTORS, attempt)
      ensures fastestAutoSelector == CacheAfter(old(fastestAutoSelector), used, attempt)
    {
      var selectors := AttemptOrder(fastestAutoSelector, AUTO_SELECTORS);
      var i := 0;
      while i < |selectors|
        invariant 0 <= i <= |selectors|
        invariant fastestAutoSelector == old(fastestAutoSelector)
        invariant First(FoundPicker(attempt), selectors) == First(FoundPicker(attempt), selectors[i..])
      {
        assert selectors[i..][1..] == selectors[i + 1..];
        var selector := selectors[i];
        if attempt(selector).Found? {
          assert First(FoundPicker(attempt), selectors) == Some(selector);
          if !Cached(fastestAutoSelector) || attempt(selector).elapsedMs < FAST_MS {
            fastestAutoSelector := Some(selector);
          }
          return Some(selector);
        }
        i := i + 1;
      }
      assert First(FoundPicker(attempt), selectors) == None;
      return None;
    }

    /** `process_place`, from the search box on (the sorting step is not modelled). */
    method ProcessPlace(page: SearchPage)
      modifies this
      ensures Snapshot() == PlaceStep(old(Snapshot()), page)
    {
      if page.searchBox {
        var used := ResolveAutoButton(page.attempt);
        if used.Some? && page.autoClicked {
          ClickAllSearchResults(page);
        }
      }
    }

    /**
     * The `__main__` block: load the keys of both files (a raise ends the
     * process with status 1), stop with status 1 when there are no places,
     * then process every place but the first, in order.
     */
    method Run(places: seq<SearchPage>) returns (exitCode: int)
      modifies this
      ensures var loadedOk := Readable(old(noEmailRows)) && Readable(old(leadRows));
        var loaded := old(Snapshot()).(entries := old(entries) + Loaded(old(noEmailRows))
                        + (if Readable(old(noEmailRows)) then Loaded(old(leadRows)) else {}));
        && (exitCode == 0 <==> loadedOk && places != [])
        && (exitCode != 0 ==> exitCode == 1 && Snapshot() == loaded)
        && (exitCode == 0 ==> Snapshot() == Places(loaded, places[1..]))
    {
      var ok := LoadEntries();
      if !ok || places == [] {
        return 1;
      }
      ghost var loaded := Snapshot();
      var i := 1;
      while i < |places|
        invariant 1 <= i <= |places|
        invariant Snapshot() == Places(loaded, places[1..i])
      {
        assert places[1..i + 1][..i - 1] == places[1..i];
        ProcessPlace(places[i]);
        i := i + 1;
      }
      assert places[1..i] == places[1..];
      return 0;
    }
  }
}
