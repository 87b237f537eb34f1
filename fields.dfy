/**
 * The per-element acceptance tests of the four field extractors and the two
 * fallbacks (page title for the name, body-text candidates for the website).
 * Each `…Of` function says what one element yields: `Some(value)` when it
 * is accepted, `None` when the scan must go on to the next element.
 */
module Fields {
  import opened Wrappers
  import opened Text
  import opened Page

  // ================================================================ email

  /** An `@` occurs in the part of the text before its first `.`, tested on the split as the source does. */
  predicate AtBeforeFirstDot(a: string)
  {
    '@' in SplitOn(a, '.')[0]
  }

  /** The checks the source applies once the `'@'`/`'.'` presence test has passed. */
  predicate PassesEmailChecks(foundEmails: set<string>, a: string)
  {
    |a| > 5 && AtBeforeFirstDot(a) && a !in foundEmails
  }

  /**
   * One element of the email scan: a `mailto:` href is judged on what follows
   * the 7-character prefix and nothing else; otherwise the href is judged if it
   * holds both `@` and `.`; otherwise the stripped text, on the same terms.
   */
  function EmailOf(foundEmails: set<string>, e: Element): Option<string>
  {
    match e
    case Stale => None
    case Live(href, text, _) =>
      var t := Strip(text);
      if StartsWith(href, "mailto:") then
        var a := href[7..];
        if '@' in a && '.' in a && PassesEmailChecks(foundEmails, a) then Some(a) else None
      else if '@' in href && '.' in href then
        if PassesEmailChecks(foundEmails, href) then Some(href) else None
      else if '@' in t && '.' in t then
        if PassesEmailChecks(foundEmails, t) then Some(t) else None
      else None
  }

  function EmailPicker(foundEmails: set<string>): Element -> Option<string>
  {
    e => EmailOf(foundEmails, e)
  }

  /** What `found_emails` records for an accepted address: the address with its commas removed. */
  function EmailMark(v: string): string
  {
    RemoveAll(v, ",")
  }

  /** An email address as the source's checks describe it, stated on indices. */
  predicate ValidEmail(foundEmails: set<string>, a: string)
  {
    && '@' in a && '.' in a && |a| > 5
    && (exists i :: 0 <= i < |a| && a[i] == '@' && '.' !in a[..i])
    && a !in foundEmails
  }

  /** The split-based test is "some `@` comes before the first `.`". */
  lemma AtBeforeFirstDotIff(a: string)
    ensures AtBeforeFirstDot(a) <==> exists i :: 0 <= i < |a| && a[i] == '@' && '.' !in a[..i]
  {
    SplitHead(a, '.');
    var k :| 0 <= k <= |a| && SplitOn(a, '.')[0] == a[..k] && (k < |a| ==> a[k] == '.');
    if AtBeforeFirstDot(a) {
      var i :| 0 <= i < k && a[..k][i] == '@';
      assert a[..i] == a[..k][..i];
    }
    if i :| 0 <= i < |a| && a[i] == '@' && '.' !in a[..i] {
      assert a[..k][i] == '@';
    }
  }

  /**
   * Email acceptance, branch by branch: for a `mailto:` href the remainder is
   * accepted exactly when it is a valid, not yet reported address; otherwise
   * the href, if it holds `@` and `.`; otherwise the stripped text.
   */
  lemma EmailAcceptance(foundEmails: set<string>, e: Element)
    requires e.Live?
    ensures StartsWith(e.href, "mailto:") ==>
      EmailOf(foundEmails, e) == (if ValidEmail(foundEmails, e.href[7..]) then Some(e.href[7..]) else None)
    ensures !StartsWith(e.href, "mailto:") && '@' in e.href && '.' in e.href ==>
      EmailOf(foundEmails, e) == (if ValidEmail(foundEmails, e.href) then Some(e.href) else None)
    ensures !StartsWith(e.href, "mailto:") && !('@' in e.href && '.' in e.href) ==>
      EmailOf(foundEmails, e) == (if ValidEmail(foundEmails, Strip(e.text)) then Some(Strip(e.text)) else None)
  {
    if StartsWith(e.href, "mailto:") {
      AtBeforeFirstDotIff(e.href[7..]);
    }
    AtBeforeFirstDotIff(e.href);
    AtBeforeFirstDotIff(Strip(e.text));
  }

  /**
   * After an address is recorded, the same element is refused next time
   * exactly when the address has no comma: the membership test uses the raw
   * address, while what is recorded has its commas removed.
   */
  lemma EmailBlockedOnceRecorded(foundEmails: set<string>, e: Element, v: string)
    requires EmailOf(foundEmails, e) == Some(v)
    ensures EmailOf(foundEmails + {EmailMark(v)}, e).None? <==> ',' !in v
  {
    RemoveChar(v, ',');
  }

  // ================================================================ name

  /** The exact strings of site chrome that are never a school name. */
  const NAME_DENYLIST: set<string> := {
    "Rijschoolzoeker", "Examenlocaties", "Resultaten voor Auto",
    "Geef ons je feedback!", "Auto", "Motor", "Bromfiets" }

  /** The filter a stripped element text must pass to be taken as the school name. */
  predicate AcceptableName(foundSchoolNames: set<string>, n: string)
  {
    && n != ""
    && n !in NAME_DENYLIST
    && |n| > 3
    && !StartsWith(n, "Resultaten")
    && !StartsWith(n, "Geen")
    && !StartsWith(n, "Niet")
    && !StartsWith(Lower(n), "klik")
    && !StartsWith(Lower(n), "selecteer")
    && Lower(n) !in foundSchoolNames
  }

  /** One element of the name scan: its stripped text, if that passes the filter. */
  function NameOf(foundSchoolNames: set<string>, e: Element): Option<string>
  {
    match e
    case Stale => None
    case Live(_, text, _) =>
      var n := Strip(text);
      if AcceptableName(foundSchoolNames, n) then Some(n) else None
  }

  function NamePicker(foundSchoolNames: set<string>): Element -> Option<string>
  {
    e => NameOf(foundSchoolNames, e)
  }

  /** What `found_schoolnames` records for an accepted name: lower-cased, commas removed. */
  function NameMark(n: string): string
  {
    RemoveAll(Lower(n), ",")
  }

  /**
   * An accepted name is the element's text with the surrounding white space
   * removed, longer than three characters, without white space at either
   * end, not site chrome, not a status or prompt line, and not yet reported.
   */
  lemma NameAcceptance(foundSchoolNames: set<string>, e: Element, n: string)
    requires NameOf(foundSchoolNames, e) == Some(n)
    ensures e.Live? && n == Strip(e.text) && |n| > 3
    ensures !IsSpace(n[0]) && !IsSpace(n[|n| - 1])
    ensures n !in NAME_DENYLIST && Lower(n) !in foundSchoolNames
    ensures !StartsWith(n, "Resultaten") && !StartsWith(n, "Geen") && !StartsWith(n, "Niet")
    ensures !StartsWith(Lower(n), "klik") && !StartsWith(Lower(n), "selecteer")
  {
    StripWindow(e.text);
  }

  /**
   * Once a name is recorded, any later element whose text is the same name
   * up to ASCII case is refused, provided the name has no comma; with a
   * comma, the very same element is accepted again.
   */
  lemma NameBlockedOnceRecorded(foundSchoolNames: set<string>, e: Element, n: string, e': Element)
    requires NameOf(foundSchoolNames, e) == Some(n)
    requires e'.Live? && Lower(Strip(e'.text)) == Lower(n)
    ensures ',' !in n ==> NameOf(foundSchoolNames + {NameMark(n)}, e').None?
    ensures ',' in n ==> NameOf(foundSchoolNames + {NameMark(n)}, e) == Some(n)
  {
    LowerKeepsNonLetter(n, ',');
    RemoveChar(Lower(n), ',');
  }

  /**
   * The page-title fallback: when the lower-cased title mentions `rijschool`
   * and holds a `-`, the stripped text before the first `-`, if longer than
   * three characters.
   */
  function TitleName(title: string): Option<string>
  {
    if title != "" && Contains(Lower(title), "rijschool") then
      var parts := SplitOn(title, '-');
      if |parts| > 1 then
        var p := Strip(parts[0]);
        if |p| > 3 then Some(p) else None
      else None
    else None
  }

  /** The title fallback, stated on the index of the first `-`. */
  lemma TitleNameAt(title: string)
    ensures TitleName(title).Some? ==> Contains(Lower(title), "rijschool") && '-' in title
    ensures '-' in title && Contains(Lower(title), "rijschool") ==>
      exists k :: 0 <= k < |title| && title[k] == '-' && '-' !in title[..k]
        && TitleName(title) == (if |Strip(title[..k])| > 3 then Some(Strip(title[..k])) else None)
  {
    SplitHead(title, '-');
  }

  // ================================================================ phone

  /** The phone text with the country prefixes `+31` and `0031`, then spaces, dashes and brackets, removed in that order. */
  function CleanPhone(t: string): string
  {
    RemoveAll(RemoveAll(RemoveAll(RemoveAll(RemoveAll(RemoveAll(t, "+31"), "0031"), " "), "-"), "("), ")")
  }

  /**
   * One element of the phone scan: for a `tel:` href, what follows the prefix
   * if it is longer than five characters and holds a digit (the text is then
   * not looked at); otherwise the stripped text, if it is longer than five
   * characters, holds a digit, and cleans to at least eight characters, all
   * digits. The text is returned as it was, not cleaned.
   */
  function PhoneOf(e: Element): Option<string>
  {
    match e
    case Stale => None
    case Live(href, text, _) =>
      var t := Strip(text);
      if StartsWith(href, "tel:") then
        var n := href[4..];
        if n != "" && |n| > 5 && AnyDigit(n) then Some(n) else None
      else if t != "" && |t| > 5 then
        if AnyDigit(t) then
          var c := CleanPhone(t);
          if |c| >= 8 && AllDigits(c) then Some(t) else None
        else None
      else None
  }

  /** Every character left by `replace(p, '')` was in the input. */
  lemma {:induction false} RemoveAllKeeps(s: string, p: string, c: char)
    requires p != []
    ensures c in RemoveAll(s, p) ==> c in s
    decreases |s|
  {
    if s != [] {
      if StartsWith(s, p) {
        RemoveAllKeeps(s[|p|..], p, c);
      } else {
        RemoveAllKeeps(s[1..], p, c);
      }
    }
  }

  /**
   * What the phone scan accepts: a `tel:` remainder, or a text whose cleaned
   * form is at least eight digits and free of spaces, dashes and brackets.
   * In the text branch the any-digit test never decides anything: a text
   * that cleans to digits already holds one.
   */
  lemma PhoneAcceptance(e: Element, v: string)
    requires PhoneOf(e) == Some(v)
    ensures e.Live? && |v| > 5 && AnyDigit(v)
    ensures StartsWith(e.href, "tel:") ==> v == e.href[4..]
    ensures !StartsWith(e.href, "tel:") ==>
      && v == Strip(e.text)
      && |CleanPhone(v)| >= 8
      && (forall i :: 0 <= i < |CleanPhone(v)| ==> IsDigit(CleanPhone(v)[i]))
      && ' ' !in CleanPhone(v) && '-' !in CleanPhone(v) && '(' !in CleanPhone(v) && ')' !in CleanPhone(v)
  {
    if !StartsWith(e.href, "tel:") {
      var c := CleanPhone(v);
      var c1 := RemoveAll(RemoveAll(v, "+31"), "0031");
      var c2 := RemoveAll(c1, " ");
      var c3 := RemoveAll(c2, "-");
      var c4 := RemoveAll(c3, "(");
      RemoveChar(c1, ' ');
      RemoveChar(c2, '-');
      RemoveChar(c3, '(');
      RemoveChar(c4, ')');
      RemoveAllKeeps(c4, ")", ' ');
      RemoveAllKeeps(c3, "(", ' ');
      RemoveAllKeeps(c2, "-", ' ');
      RemoveAllKeeps(c4, ")", '-');
      RemoveAllKeeps(c3, "(", '-');
      RemoveAllKeeps(c4, ")", '(');
    }
  }

  /**
   * The converse: a `tel:` remainder longer than five characters with a
   * digit is returned, and so is a stripped text longer than five characters
   * that cleans to at least eight digits.
   */
  lemma PhoneAccepted(e: Element)
    ensures e.Live? && StartsWith(e.href, "tel:") && |e.href[4..]| > 5 && AnyDigit(e.href[4..])
      ==> PhoneOf(e) == Some(e.href[4..])
    ensures e.Live? && !StartsWith(e.href, "tel:") && |Strip(e.text)| > 5
      && |CleanPhone(Strip(e.text))| >= 8 && AllDigits(CleanPhone(Strip(e.text)))
      ==> PhoneOf(e) == Some(Strip(e.text))
  {
    if e.Live? && AllDigits(CleanPhone(Strip(e.text))) {
      CleanDigitsImplyDigit(Strip(e.text));
    }
  }

  /** The any-digit test in the text branch is implied by the cleaned-digits test. */
  lemma CleanDigitsImplyDigit(t: string)
    requires AllDigits(CleanPhone(t))
    ensures AnyDigit(t)
  {
    var c := CleanPhone(t);
    var d := c[0];
    var c1 := RemoveAll(t, "+31");
    var c2 := RemoveAll(c1, "0031");
    var c3 := RemoveAll(c2, " ");
    var c4 := RemoveAll(c3, "-");
    var c5 := RemoveAll(c4, "(");
    RemoveAllKeeps(c5, ")", d);
    RemoveAllKeeps(c4, "(", d);
    RemoveAllKeeps(c3, "-", d);
    RemoveAllKeeps(c2, " ", d);
    RemoveAllKeeps(c1, "0031", d);
    RemoveAllKeeps(t, "+31", d);
    var i :| 0 <= i < |t| && t[i] == d;
  }

  // ================================================================ website

  /** The markers that make an href or text look like a website. */
  const WEB_MARKERS: seq<string> := ["http://", "https://", "www."]

  /** Markers of non-website links, tested on the lower-cased value. */
  const WEB_EXCLUDES: seq<string> := ["mailto:", "tel:", "javascript:", "#"]

  /** The body-text fallback also refuses anything holding an `@`. */
  const FALLBACK_EXCLUDES: seq<string> := WEB_EXCLUDES + ["@"]

  predicate PlausibleWebsite(w: string)
  {
    |w| > 10 && '.' in w && !ContainsAny(Lower(w), WEB_EXCLUDES)
  }

  /**
   * One element of the website scan: an href carrying a marker is judged and
   * the text is then not looked at; otherwise the stripped text, if it
   * carries a marker.
   */
  function WebsiteOf(e: Element): Option<string>
  {
    match e
    case Stale => None
    case Live(href, text, _) =>
      var t := Strip(text);
      if href != "" && ContainsAny(href, WEB_MARKERS) then
        if PlausibleWebsite(href) then Some(href) else None
      else if t != "" && ContainsAny(t, WEB_MARKERS) then
        if PlausibleWebsite(t) then Some(t) else None
      else None
  }

  /** Lower-casing does not change whether a value holds one of the non-letter markers. */
  lemma NoMarkChar(w: string, c: char)
    requires !('A' <= c <= 'Z') && !('a' <= c <= 'z')
    ensures Contains(Lower(w), [c]) <==> c in w
  {
    ContainsChar(Lower(w), c);
    LowerKeepsNonLetter(w, c);
  }

  /** The exclusion test spelled out marker by marker. */
  lemma NotExcluded(w: string)
    requires !ContainsAny(Lower(w), WEB_EXCLUDES)
    ensures '#' !in w
    ensures !Contains(Lower(w), "mailto:") && !Contains(Lower(w), "tel:") && !Contains(Lower(w), "javascript:")
  {
    NoMarkChar(w, '#');
    assert !Contains(Lower(w), WEB_EXCLUDES[0]);
    assert !Contains(Lower(w), WEB_EXCLUDES[1]);
    assert !Contains(Lower(w), WEB_EXCLUDES[2]);
    assert !Contains(Lower(w), WEB_EXCLUDES[3]);
  }

  /** The marker test spelled out marker by marker. */
  lemma Marked(w: string)
    requires ContainsAny(w, WEB_MARKERS)
    ensures Contains(w, "http://") || Contains(w, "https://") || Contains(w, "www.")
  {
    var k :| 0 <= k < |WEB_MARKERS| && Contains(w, WEB_MARKERS[k]);
  }

  /** Which value the website test judged, and that it passed the test. */
  lemma WebsiteJudged(e: Element, w: string)
    requires WebsiteOf(e) == Some(w)
    ensures e.Live? && (w == e.href || w == Strip(e.text))
    ensures ContainsAny(e.href, WEB_MARKERS) ==> w == e.href
    ensures ContainsAny(w, WEB_MARKERS) && PlausibleWebsite(w)
  {
    if e.href != "" && ContainsAny(e.href, WEB_MARKERS) {
      assert w == e.href;
    } else {
      assert !ContainsAny(e.href, WEB_MARKERS);
      assert w == Strip(e.text);
    }
  }

  /**
   * Website acceptance: the value is the href or the stripped text, longer
   * than ten characters, with a `.`, a scheme or `www.`, and no `#`; an href
   * that carries a marker decides the element on its own.
   */
  lemma WebsiteAcceptance(e: Element, w: string)
    requires WebsiteOf(e) == Some(w)
    ensures e.Live? && (w == e.href || w == Strip(e.text))
    ensures ContainsAny(e.href, WEB_MARKERS) ==> w == e.href
    ensures |w| > 10 && '.' in w && '#' !in w
    ensures Contains(w, "http://") || Contains(w, "https://") || Contains(w, "www.")
    ensures !Contains(Lower(w), "mailto:") && !Contains(Lower(w), "tel:") && !Contains(Lower(w), "javascript:")
  {
    WebsiteJudged(e, w);
    NotExcluded(w);
    Marked(w);
  }

  predicate HasScheme(w: string)
  {
    StartsWith(w, "http://") || StartsWith(w, "https://")
  }

  /**
   * One candidate of the body-text fallback: refused when short, without a
   * `.`, or holding an excluded marker or an `@`; otherwise returned with
   * `http://` in front unless it already starts with a scheme.
   */
  function FallbackWebsite(w: string): Option<string>
  {
    if |w| > 10 && '.' in w && !ContainsAny(Lower(w), FALLBACK_EXCLUDES) then
      Some(if HasScheme(w) then w else "http://" + w)
    else None
  }

  /**
   * Every fallback result starts with a scheme; it is the candidate itself
   * exactly when the candidate had one, and otherwise the candidate behind
   * exactly `http://`. No accepted candidate holds `@` or `#`, and its
   * lower case holds none of `mailto:`, `tel:` and `javascript:`.
   */
  lemma FallbackHasScheme(w: string, v: string)
    requires FallbackWebsite(w) == Some(v)
    ensures HasScheme(v)
    ensures v == w <==> HasScheme(w)
    ensures v != w ==> v == "http://" + w
    ensures '@' !in w && '#' !in w && |w| > 10 && '.' in w
    ensures !Contains(Lower(w), "mailto:") && !Contains(Lower(w), "tel:") && !Contains(Lower(w), "javascript:")
  {
    assert Contains(Lower(w), FALLBACK_EXCLUDES[0]) ==> ContainsAny(Lower(w), FALLBACK_EXCLUDES);
    assert Contains(Lower(w), FALLBACK_EXCLUDES[1]) ==> ContainsAny(Lower(w), FALLBACK_EXCLUDES);
    assert Contains(Lower(w), FALLBACK_EXCLUDES[2]) ==> ContainsAny(Lower(w), FALLBACK_EXCLUDES);
    NoMarkChar(w, '@');
    NoMarkChar(w, '#');
    assert Contains(Lower(w), FALLBACK_EXCLUDES[3]) ==> ContainsAny(Lower(w), FALLBACK_EXCLUDES);
    assert Contains(Lower(w), FALLBACK_EXCLUDES[4]) ==> ContainsAny(Lower(w), FALLBACK_EXCLUDES);
    if !HasScheme(w) {
      assert ("http://" + w)[..7] == "http://";
      assert |"http://" + w| != |w|;
    }
  }
}
