# CBR driving-school lead scraper, modelled in Dafny

`datascraper.py` visits the CBR "rijschoolzoeker" page once per Dutch place
name. For each place it types the name, resolves the "Auto" vehicle button
(trying a cached selector first), enumerates the result rows that carry a
`data-rid`, and clicks at most 1000 of them. From each opened result it
extracts a school name, an email address, a phone number and a website.
It joins the four into a comma-separated key and appends that key, as a
one-field CSV row, to `leads_no_email.csv` (no email found) or to
`rijscholen_leads.csv`, unless the key was loaded from one of those files
at startup.

This project models that logic with the browser taken out. A page element
is a record `Live(href, text, rid)`, or `Stale` when reading it raises. A
DOM query is a function from selector text to the elements it finds, in
document order. A detail view, a search page and a Selenium wait outcome
are values passed in as inputs.

The model is organised by the program's structure:

- `text.dfy` (`Text`): the Python string operations used, written out on
  `seq<char>`: `startswith`, `in`, `lower`, `strip`, `replace(p, '')`,
  `isdigit` and `split`.
- `scan.dfy` (`Scan`): the shape every extractor shares. Selectors are
  tried in order, then elements in order, and the first accepted element
  wins. `First` is the specification; `ScanCandidates` and `ScanSelectors`
  are the two nested loops.
- `fields.dfy` (`Fields`): the per-element acceptance tests (email, name,
  phone, website), the page-title fallback and the website fallback filter.
- `extract.dfy` (`Extract`): the selector lists and the four extractors as
  functions, with the phone and website loops as methods.
- `records.dfy` (`Records`): the f-string key `name,phone,email,website`.
- `results.dfy` (`Results`): the result enumeration, the 1000-row batch and
  the choice of the clickable element.
- `resolver.dfy` (`Resolver`): the attempt order for the Auto button and
  the `fastest_auto_selector` cache.
- `session.dfy` (`Session`): the process state as a value (`State`). It
  holds the dedup gate, what one result, one listing, one place and one run
  do to the state, and the startup load.
- `scraper.dfy` (`Scraper`): the class `Scraper`, whose fields are the
  source's globals: `fastest_auto_selector`, `found_schoolnames`,
  `found_emails`, `entries`, and the two files. Its methods are the
  stateful functions of the source, and each one is proved to equal the
  matching `Session` function.
- `rerun.dfy` (`Rerun`): a second process over the files the first one
  left, and over the same pages, writes nothing.

Behaviour worth knowing, each stated by a lemma:

- `entries` is filled only by the startup load (datascraper.py:934-945) and
  is only read by the dedup test (datascraper.py:492). A key written during a
  run is not added to it, so the same new key met twice in one run is written
  twice (`Session.SameNewKeyWrittenTwice`). A run's own keys take effect only
  at the next startup (`Rerun.RerunWritesNothing`).
- A missing field renders as the text `None` in the key (datascraper.py:491).
  So a missing name and a name that reads "None" give the same key
  (`Records.KeyCollisions`).
- The main loop iterates over `places[1:]` (datascraper.py:962), so the
  first place is never processed (`Scraper.Scraper.Run`).
- The email and name "already reported" tests check the raw value, but the
  value recorded has its commas removed (datascraper.py:565-566, 634-647). A
  value containing a comma is therefore not blocked the next time it appears
  (`Fields.EmailBlockedOnceRecorded`, `Fields.NameBlockedOnceRecorded`).
- When the Auto button is found but stepping to its parent link or clicking
  it raises (datascraper.py:144-147), the place's handler skips the listing,
  while the cache update at datascraper.py:129-130 has already happened
  (`Session.FailedAutoClickOnlyCaches`).

## Model

| member | source | states |
|---|---|---|
| Text.StripWindow | datascraper.py:549 | `strip()` returns a window of the text; only white space (Python's `isspace` set) lies outside it, and the result has no white space at either end |
| Text.RemoveChar | datascraper.py:566 | removing a character with `replace(c, '')` leaves no copy of it, and leaves the string unchanged exactly when it did not occur |
| Text.SplitHead | datascraper.py:578 | the first part of `split(c)` is the text before the first `c`; there is more than one part exactly when `c` occurs |
| Scan.FirstIsEarliest | datascraper.py:547-567 | the first-match scan finds nothing exactly when no candidate is accepted; otherwise it returns the earliest accepted candidate's value |
| Scan.FirstAppend | datascraper.py:539-567 | a scan over two selectors' matches only reaches the second when the first yields nothing |
| Scan.ScanCandidates | datascraper.py:547-569 | the element loop with its early return computes the first-match scan |
| Scan.ScanSelectors | datascraper.py:539-571 | the selector loop around the element loop computes the first-match scan over all matches, in selector-then-document order |
| Fields.AtBeforeFirstDotIff | datascraper.py:634 | `'@' in a.split('.')[0]` holds exactly when some `@` comes before the first `.` |
| Fields.EmailOf | datascraper.py:626-649 | the email test on one element: the `mailto:` remainder, else the href, else the stripped text, each judged as `Fields.EmailAcceptance` states |
| Fields.EmailAcceptance | datascraper.py:626-649 | a `mailto:` href decides on its remainder after 7 characters; otherwise the href if it holds `@` and `.`; otherwise the stripped text. In each case the value is accepted exactly when it is longer than 5, has `@` before the first `.`, and is not yet reported |
| Fields.EmailBlockedOnceRecorded | datascraper.py:634-647 | after recording an accepted address, the same element is refused next time exactly when the address has no comma |
| Fields.NameOf | datascraper.py:549-567 | the name test on one element; what it accepts is stated by `Fields.NameAcceptance` |
| Fields.NameAcceptance | datascraper.py:547-567 | an accepted name is the stripped text. It is longer than 3 and not one of the seven denylisted strings. It does not start with `Resultaten`/`Geen`/`Niet`, its lower case does not start with `klik`/`selecteer`, and its lower case is not yet reported |
| Fields.NameBlockedOnceRecorded | datascraper.py:565-566 | after recording an accepted comma-free name, any text equal to it up to ASCII case is refused; with a comma, the same element is accepted again |
| Fields.TitleName | datascraper.py:574-582 | the page-title fallback for the name; stated by `Fields.TitleNameAt` |
| Fields.TitleNameAt | datascraper.py:574-582 | the title fallback needs `rijschool` in the lower-cased title and a `-`; it returns the stripped text before the first `-` if that is longer than 3 |
| Fields.CleanPhone | datascraper.py:723 | the phone text with `+31`, `0031`, spaces, dashes and brackets removed, in that order; its digits-only form is what `Fields.PhoneAcceptance` requires |
| Fields.PhoneOf | datascraper.py:709-725 | the phone test on one element; what it returns is stated in both directions by `Fields.PhoneAcceptance` and `Fields.PhoneAccepted` |
| Fields.PhoneAcceptance | datascraper.py:709-725 | a `tel:` href yields its remainder (longer than 5, holds a digit). Otherwise the stripped text is returned unchanged; it is longer than 5, and its cleaned form is at least 8 digits and free of spaces, dashes and brackets |
| Fields.PhoneAccepted | datascraper.py:713-725 | the converse of `Fields.PhoneAcceptance`: a `tel:` remainder longer than 5 with a digit is returned; without a `tel:` href, a stripped text longer than 5 that cleans to at least 8 digits is returned unchanged |
| Fields.CleanDigitsImplyDigit | datascraper.py:719-724 | a text whose cleaned form is all digits already holds a digit, so the any-digit test never decides the text branch |
| Fields.WebsiteOf | datascraper.py:791-806 | the website test on one element; stated by `Fields.WebsiteAcceptance` |
| Fields.WebsiteAcceptance | datascraper.py:791-806 | an accepted website is the href or the stripped text. It is longer than 10 and holds a `.` and `http://`, `https://` or `www.`. It has no `#`, and its lower case holds none of `mailto:`, `tel:`, `javascript:`. An href with a marker decides the element alone |
| Fields.FallbackWebsite | datascraper.py:827-833 | the filter and scheme prefix applied to one body-text candidate: length, `.`, and the five excluded markers `mailto:`, `tel:`, `javascript:`, `#`, `@`; stated by `Fields.FallbackHasScheme` |
| Fields.FallbackHasScheme | datascraper.py:827-833 | every fallback website starts with `http://` or `https://`: the candidate itself if it had a scheme, else exactly `http://` plus the candidate; accepted candidates are longer than 10, hold a `.`, hold no `@` or `#`, and their lower case holds none of `mailto:`, `tel:`, `javascript:` |
| Extract.SchoolName | datascraper.py:513-586 | the name extractor's result: the first accepted element text, else the title fallback; stated by `Extract.SchoolNameFresh` |
| Extract.NamesAfter | datascraper.py:565-566 | the reported names after the name extractor: extended by the marked name only on an element hit; stated by `Fields.NameBlockedOnceRecorded` and `Extract.SchoolNameFresh` |
| Extract.EmailAddress | datascraper.py:592-669 | the email extractor's result: the first accepted address, with no fallback; stated by `Extract.EmailAddressFresh` |
| Extract.EmailsAfter | datascraper.py:634-647 | the reported addresses after the email extractor: extended by the accepted address with commas removed; stated by `Fields.EmailBlockedOnceRecorded` |
| Extract.PhoneNumber | datascraper.py:675-750 | the phone extractor's result; stated by `Extract.PhoneNumberChoice` |
| Extract.Website | datascraper.py:756-837 | the website extractor's result; stated by `Extract.WebsiteChoice` |
| Extract.ExtractPhoneNumber | datascraper.py:683-750 | the phone loops return the first accepted element, else the body-text match |
| Extract.ExtractWebsite | datascraper.py:764-837 | the website loops return the first accepted element, else the first accepted body-text candidate |
| Extract.PhoneNumberChoice | datascraper.py:699-750 | the phone result is the earliest accepted element over all selectors; the body-text match is used only when no element is accepted |
| Extract.WebsiteChoice | datascraper.py:781-837 | every reported website passed the element test, or is a fallback candidate that passed the filter and starts with a scheme |
| Extract.EmailAddressFresh | datascraper.py:600-649 | a reported address was found by the email selector, is longer than 5, holds `@` and `.`, and was not reported before |
| Extract.SchoolNameFresh | datascraper.py:521-586 | a name from the element scan was not reported before (up to case); the title fallback neither consults nor extends the reported names |
| Records.Key | datascraper.py:491 | the key `name,phone,email,website` with `None` for a missing field; stated by `Records.KeySplits`, `Records.KeyInjective` and `Records.KeyCollisions` |
| Records.KeySplits | datascraper.py:491 | splitting a key built from comma-free fields on `,` gives back the four rendered fields |
| Records.KeyInjective | datascraper.py:491-492 | for comma-free fields, two keys are equal exactly when all four rendered fields are |
| Records.KeyChangesWithOneField | datascraper.py:491-492 | changing any one comma-free field changes the key, so the dedup test can tell the results apart |
| Records.KeyCollisions | datascraper.py:491 | a missing field and the text `None` give the same key, and a comma inside a field can shift the boundary between fields |
| Results.ValidOf | datascraper.py:333-342 | the rows with a usable `data-rid`, in listing order; stated by `Results.ValidOfAppend` and `Results.ValidOfKeeps` |
| Results.ValidOfAppend | datascraper.py:333-342 | the valid-row filter distributes over concatenation, so valid rows keep their listing order |
| Results.ValidOfKeeps | datascraper.py:336-342 | the filter keeps only rows with a `data-rid` that is neither empty nor `None`, each exactly as often as it is listed |
| Results.FilterValid | datascraper.py:333-346 | the `valid_results.append` loop computes the filter |
| Results.Chosen | datascraper.py:317-352 | the valid rows of the first result selector that has any; stated by `Results.ChosenIsFirstValidSelector` |
| Results.EnumerateResults | datascraper.py:317-352 | the enumeration loop returns the valid rows of the first selector that has any |
| Results.ChosenIsFirstValidSelector | datascraper.py:317-352 | the chosen rows are exactly the valid rows of the first selector that has any, never a mix; they are empty only when no selector has a valid row |
| Results.Batch | datascraper.py:366-369 | the processed rows are the first `min(1000, n)` chosen rows, in order |
| Results.Clickable | datascraper.py:390-404 | the element clicked for a row; stated by `Results.ClickableChoice` |
| Results.ChooseClickable | datascraper.py:390-404 | the inner-selector loop computes the clickable choice |
| Results.ClickableChoice | datascraper.py:381-404 | the clicked element is the first element of the first inner selector that matches; the row itself only when none does |
| Resolver.AttemptOrder | datascraper.py:96-100 | the cached selector first, then the candidates without it; stated by `Resolver.AttemptOrderTriesCachedFirst` |
| Resolver.WithoutCounts | datascraper.py:97 | filtering out the cached selector removes every copy of it and keeps every other selector as often as listed |
| Resolver.WithoutAppend | datascraper.py:97 | filtering out the cached selector distributes over concatenation, so the other selectors keep their listed order |
| Resolver.WithoutSingle | datascraper.py:97 | on a single selector the filter drops it exactly when it is the cached one |
| Resolver.WithoutAbsent | datascraper.py:97 | a list that does not hold the cached selector passes the filter unchanged |
| Resolver.AttemptOrderTriesCachedFirst | datascraper.py:96-100 | with a cached selector it is tried first and exactly once, and every other selector as often as listed; a cached selector not in the list is followed by the list unchanged; without a cached selector the list is tried as given (the order of the rest is fixed by `Resolver.WithoutAppend` and `Resolver.WithoutSingle`) |
| Resolver.Resolved | datascraper.py:103-133 | the first selector in attempt order that finds the button; stated by `Resolver.ResolvedIsFirstFound` |
| Resolver.CacheAfter | datascraper.py:129-130 | the cache after a resolution: replaced by a found selector when nothing usable is cached or the find was fast; stated by `Resolver.WinnerTriedFirstNextTime` and `Resolver.CacheStaysListed` |
| Resolver.ResolvedIsFirstFound | datascraper.py:103-140 | the resolved selector finds the button and every selector tried before it failed; nothing is resolved only when all attempts fail |
| Resolver.CacheStaysListed | datascraper.py:96-131 | the cache only ever holds a selector from the candidate list |
| Resolver.WinnerTriedFirstNextTime | datascraper.py:96-131 | a first success with an empty cache is tried first next time; a cached selector is replaced only by a fast success |
| Session.Gate | datascraper.py:492-504 | the dedup test and the append to one of the two files; stated by `Session.GateWritesOnce` |
| Session.GateWritesOnce | datascraper.py:491-504 | a loaded key leaves the state exactly as it was; a new key appends the one-field row `[key]` after the rows already in the no-email file when the email is missing, and after those of the leads file otherwise; the other file, the reported sets, the cache and `entries` do not change |
| Session.SameNewKeyWrittenTwice | datascraper.py:492-502 | a new key that comes up twice in one run is written twice |
| Session.Visit | datascraper.py:462-504 | one opened result: the four extractors, then the gate on its key; stated by `Session.VisitGrows` and `Rerun.RunMemory` |
| Session.VisitRow | datascraper.py:381-436 | one listed row: the chosen element is clicked, and an opened detail is processed as `Session.Visit` |
| Session.VisitRows | datascraper.py:369-449 | the batch of rows processed one by one, in order; stated by `Session.VisitRowsGrows` |
| Session.VisitGrows | datascraper.py:462-504 | one result adds at most one row and keeps the cache; loaded keys never change, the reported sets only grow, files only grow at the end with rows of new keys |
| Session.VisitRowsGrows | datascraper.py:369-449 | a listing adds at most one row per processed result |
| Session.PlaceStep | datascraper.py:35-168 | one place: search box, Auto-button resolution and cache update, the Auto click, then the listing; stated by `Session.PlaceStepGrows` and `Session.FailedAutoClickOnlyCaches` |
| Session.FailedAutoClickOnlyCaches | datascraper.py:129-162 | when the Auto button is found but its click raises, the place keeps only the cache update and writes nothing; the found selector is cached when nothing was cached, and a slow find leaves a cached selector in place |
| Session.PlaceStepGrows | datascraper.py:35-168 | one place adds at most 1000 rows |
| Session.Places | datascraper.py:962-964 | the places processed one after another, in order; stated by `Session.PlacesGrows` and `Rerun.RunQuiet` |
| Session.PlacesGrows | datascraper.py:962-964 | a run over `n` places adds at most `1000 * n` rows, all with keys that were not loaded |
| Session.Loaded | datascraper.py:934-945 | the first fields of the data rows of one file; stated by `Session.LoadedReadable` |
| Session.LoadedReadable | datascraper.py:935-945 | a file that loads without raising contributes the first field of every data row after the header, and nothing else |
| Session.AppendedRowsLoaded | datascraper.py:496-502 | rows appended by the gate keep a file readable, and the next startup loads their keys along with the old ones |
| Scraper.Scraper.LoadFile | datascraper.py:935-939 | one startup block adds the first field of every data row; it fails where the source raises (no header row, or an empty row) |
| Scraper.Scraper.LoadEntries | datascraper.py:935-945 | both files are loaded; the second is not reached when the first raises |
| Scraper.Scraper.ExtractSchoolName | datascraper.py:513-589 | the name extractor returns the specified name and records the lower-cased, comma-stripped name only on an element hit |
| Scraper.Scraper.ExtractEmailAddress | datascraper.py:592-672 | the email extractor returns the specified address and records it, commas removed, only on acceptance |
| Scraper.Scraper.constructor | datascraper.py:14-17 | a fresh process has no cached selector, no reported names or emails and no loaded keys, and holds the two given files |
| Scraper.Scraper.ExtractRecorded | datascraper.py:465-475 | the name and email extractors run in order, return the specified values and update only the two reported sets |
| Scraper.Scraper.Persist | datascraper.py:492-504 | the dedup check and the append change the files exactly as the gate specifies |
| Scraper.Scraper.ExtractFromResult | datascraper.py:462-504 | processing one opened result returns its key and changes the state exactly as `Session.Visit` |
| Scraper.Scraper.VisitResult | datascraper.py:381-436 | one row: the clickable choice is clicked; a failed click changes nothing, an opened detail is processed as `Session.Visit` |
| Scraper.Scraper.VisitResults | datascraper.py:369-449 | the result loop processes each row once, in order |
| Scraper.Scraper.ClickAllSearchResults | datascraper.py:288-451 | enumeration, the 1000-row cap and the result loop together change the state as `Session.VisitRows` over the batch |
| Scraper.Scraper.ResolveAutoButton | datascraper.py:96-140 | the selector loop returns the first selector that finds the button and updates the cache as the source does |
| Scraper.Scraper.ProcessPlace | datascraper.py:35-168 | one place changes the state exactly as `Session.PlaceStep` |
| Scraper.Scraper.Run | datascraper.py:934-965 | the main block exits with status 1 when a file cannot be loaded or there are no places; otherwise it processes every place but the first, in order |
| Rerun.RunMemory | datascraper.py:462-491 | what a run extracts, and every key it builds, depend only on the cache and the reported sets, not on the loaded keys or the files |
| Rerun.RunCovered | datascraper.py:491-504 | every key a run builds was loaded at startup or is written by the run |
| Rerun.RunQuiet | datascraper.py:492-504 | a run whose every key is already loaded leaves both files unchanged |
| Rerun.RerunWritesNothing | datascraper.py:934-965 | a second process over the files the first left (and over the same pages) finds both files readable and writes nothing |

## Left out

- Selenium calls (`get`, `find_elements`, `click`, `execute_script`, `quit`, the tab `close`) are foreign calls. The page, its queries, the search box, the Auto-button wait and the result click are inputs.
- The JavaScript click retry and the click that deselects a result are not modelled. A click either opens a detail view or fails, and a failed click skips the row.
- The span-to-parent lookup and the Auto click (lines 144-147) are one input, `autoClicked`. When either raises, the handler at line 161 skips the listing for that place, as `Session.PlaceStep` models.
- Scraper.Scraper.Run: `driver.get` (line 38), the driver setup (line 959) and the per-place `quit` and new driver (lines 965-966) are outside every handler, so a raise there ends the whole process. `Run` always processes every place but the first, so it does not capture that.
- `time.sleep`, `time.time()` and the per-extractor timeouts (lines 541, 617, 701, 783) depend on the wall clock. The model has no timeout.
- Scraper.Scraper.ResolveAutoButton: the elapsed time of a successful attempt is a whole number of milliseconds, and "fast" means under 1000 ms. This stands in for the source's float seconds below 1.0.
- The regex scans over the page body (lines 732-748, 813-835) rely on Python regex semantics. The phone scan's first match is an input `Option<string>`. The website scan's candidates are an input list, in pattern order, and only the post-filter on each candidate is modelled.
- The text `lower()` and `isdigit()` are not modelled at full Unicode scope. Lower-casing maps only ASCII letters, and `isdigit` accepts only ASCII digits.
- The JSON loading of the places list (lines 19-32) reads a file. The list of places is an input to `Run`.
- Rerun.RerunWritesNothing: the appends open the files as UTF-8 (lines 496, 500), but the startup reads use the platform's default encoding (lines 935, 941). The model assumes a row reads back exactly as it was written, which holds when the default is UTF-8 or the keys are ASCII. Under another default, such as cp1252, a key with non-ASCII characters can read back differently and be appended again on every run, or the load can raise `UnicodeDecodeError` and end the process.
- The CSV encoding is treated as an exact round trip. A file is its sequence of rows, the header included. A missing file is not modelled. An empty file, or a blank line that reads as an empty row, makes the load fail (exit status 1). This stands in for the source's uncaught `StopIteration`/`IndexError`, which end the process.
- The tab-closing loop (lines 411-414) depends on browser state and may not terminate.
- `select_sorting_option` (lines 171-285) only clicks UI and produces no data.
- `extract_driving_schools` (lines 842-931) is never called.
- `remove_duplicates.py` is not part of this model; it is a thin wrapper over a pandas call.
- The per-item exception handlers are not modelled as exceptions. A failing element read is `Stale` and is skipped, and a failing query finds nothing. Each extractor call has its own handler (lines 467-489), so an extractor failure only makes that field `None`, and the model's extractors never fail.
- Session.Gate: the appends (lines 494-502) are assumed to succeed. In the source they sit inside the result's `try` (line 465). If opening or writing a file raises, for example on a locked or read-only CSV, the handler at line 507 returns `True`: nothing is written for that result and the run goes on. `Session.GateWritesOnce`, `Session.AppendedRowsLoaded` and `Rerun.RerunWritesNothing` are stated for appends that succeed.
- Console output (`print`) is not modelled.
