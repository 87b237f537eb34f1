/**
 * The four field extractors as a whole: the selector lists of the source,
 * the first-match scan over what they find, and the fallback each takes when
 * no element is accepted. The name and email extractors depend on, and add
 * to, the process-wide sets of names and addresses already reported; the
 * methods that update those sets live on `Scraper`, and the functions here
 * say what they return and record.
 */
module Extract {
  import opened Wrappers
  import opened Text
  import opened Page
  import opened Scan
  import opened Fields

  /** Each list is the specific selectors followed by the more general ones, as the source groups them. */
  const NAME_SELECTORS: seq<string> :=
    ["h1", "h2", "h3", ".school-name", ".driving-school-name", "[class*=\"name\"]", "[class*=\"title\"]"]
    + ["[class*=\"school\"]", "[class*=\"rijschool\"]", ".cell--name", ".result-name", ".item-name", "strong", "b"]

  const EMAIL_SELECTORS: seq<string> := ["a[href^=\"mailto:\"]"]

  const PHONE_SELECTORS: seq<string> :=
    ["a[href^=\"tel:\"]", "a.details_contact.details_contact_phone", "a[class*=\"phone\"]", "a[class*=\"tel\"]",
     ".phone", ".telefoon", "[class*=\"phone\"]", "[class*=\"tel\"]"]
    + ["a[href*=\"tel\"]", "[class*=\"contact\"]", "span", "div"]

  const WEBSITE_SELECTORS: seq<string> :=
    ["a.details_contact.details_contact_website", "a[href*=\"http\"]", "a[href*=\"www\"]",
     "a[class*=\"website\"]", "a[class*=\"site\"]", "a[class*=\"web\"]",
     "[class*=\"website\"]", "[class*=\"site\"]", "[class*=\"web\"]"]
    + ["a[target=\"_blank\"]", "a[rel*=\"noreferrer\"]", "a[rel*=\"noopener\"]", "a"]

  /** The name the element scan accepts, if any. */
  function NameHit(foundSchoolNames: set<string>, d: Detail): Option<string>
  {
    First(NamePicker(foundSchoolNames), Matches(d.find, NAME_SELECTORS))
  }

  /** `extract_school_name`: the first accepted element text, else the title fallback. */
  function SchoolName(foundSchoolNames: set<string>, d: Detail): Option<string>
  {
    match NameHit(foundSchoolNames, d)
    case Some(n) => Some(n)
    case None => TitleName(d.title)
  }

  /** `found_schoolnames` after the extractor: grows only by a name the element scan accepted. */
  function NamesAfter(foundSchoolNames: set<string>, d: Detail): set<string>
  {
    match NameHit(foundSchoolNames, d)
    case Some(n) => foundSchoolNames + {NameMark(n)}
    case None => foundSchoolNames
  }

  /** `extract_email_address`: the first accepted address; the source has no fallback. */
  function EmailAddress(foundEmails: set<string>, d: Detail): Option<string>
  {
    First(EmailPicker(foundEmails), Matches(d.find, EMAIL_SELECTORS))
  }

  /** `found_emails` after the extractor: grows only by the accepted address, commas removed. */
  function EmailsAfter(foundEmails: set<string>, d: Detail): set<string>
  {
    match EmailAddress(foundEmails, d)
    case Some(v) => foundEmails + {EmailMark(v)}
    case None => foundEmails
  }

  /** `extract_phone_number`: the first accepted element, else the body-text match. */
  function PhoneNumber(d: Detail): Option<string>
  {
    match First(PhoneOf, Matches(d.find, PHONE_SELECTORS))
    case Some(p) => Some(p)
    case None => d.bodyPhone
  }

  /** `extract_website`: the first accepted element, else the first accepted body-text candidate. */
  function Website(d: Detail): Option<string>
  {
    match First(WebsiteOf, Matches(d.find, WEBSITE_SELECTORS))
    case Some(w) => Some(w)
    case None => First(FallbackWebsite, d.bodyWebsites)
  }

  method ExtractPhoneNumber(d: Detail) returns (phone: Option<string>)
    ensures phone == PhoneNumber(d)
  {
    phone := ScanSelectors(PhoneOf, d.find, PHONE_SELECTORS);
    if phone.None? {
      phone := d.bodyPhone;
    }
  }

  method ExtractWebsite(d: Detail) returns (website: Option<string>)
    ensures website == Website(d)
  {
    website := ScanSelectors(WebsiteOf, d.find, WEBSITE_SELECTORS);
    if website.None? {
      website := ScanCandidates(FallbackWebsite, d.bodyWebsites);
    }
  }

  /**
   * The phone extractor returns the first element, in selector-then-listing
   * order, that the phone test accepts; only when none is accepted does it
   * return the body-text match.
   */
  lemma PhoneNumberChoice(d: Detail)
    ensures var ms := Matches(d.find, PHONE_SELECTORS);
      || ((forall i :: 0 <= i < |ms| ==> PhoneOf(ms[i]).None?) && PhoneNumber(d) == d.bodyPhone)
      || (exists i :: 0 <= i < |ms| && PhoneOf(ms[i]) == PhoneNumber(d) && PhoneNumber(d).Some?
                      && forall j :: 0 <= j < i ==> PhoneOf(ms[j]).None?)
  {
    var ms := Matches(d.find, PHONE_SELECTORS);
    var hit := First(PhoneOf, ms);
    FirstIsEarliest(PhoneOf, ms);
    if hit.None? {
      assert PhoneNumber(d) == d.bodyPhone;
    } else {
      assert PhoneNumber(d) == hit;
    }
  }

  /**
   * Every website the extractor reports either passed the element test or is
   * a body-text candidate that passed the fallback filter, and the latter
   * always starts with `http://` or `https://`.
   */
  lemma WebsiteChoice(d: Detail, w: string)
    requires Website(d) == Some(w)
    ensures || (exists e :: e in Matches(d.find, WEBSITE_SELECTORS) && WebsiteOf(e) == Some(w))
            || (exists c :: c in d.bodyWebsites && FallbackWebsite(c) == Some(w) && HasScheme(w))
  {
    var ms := Matches(d.find, WEBSITE_SELECTORS);
    if First(WebsiteOf, ms).Some? {
      var i :| 0 <= i < |ms| && WebsiteOf(ms[i]) == First(WebsiteOf, ms);
      assert ms[i] in ms;
    } else {
      var i :| 0 <= i < |d.bodyWebsites| && FallbackWebsite(d.bodyWebsites[i]) == Some(w);
      FallbackHasScheme(d.bodyWebsites[i], w);
      assert d.bodyWebsites[i] in d.bodyWebsites;
    }
  }

  /**
   * Every address the email extractor reports passed the email test against
   * the addresses reported before it: in particular it is not one of them.
   */
  lemma EmailAddressFresh(foundEmails: set<string>, d: Detail, v: string)
    requires EmailAddress(foundEmails, d) == Some(v)
    ensures v !in foundEmails && |v| > 5 && '@' in v && '.' in v
    ensures exists e :: e in Matches(d.find, EMAIL_SELECTORS) && EmailOf(foundEmails, e) == Some(v)
  {
    var ms := Matches(d.find, EMAIL_SELECTORS);
    var i :| 0 <= i < |ms| && EmailPicker(foundEmails)(ms[i]) == Some(v);
    assert ms[i] in ms;
    EmailAcceptance(foundEmails, ms[i]);
  }

  /**
   * A name the element scan accepts is not already recorded (up to ASCII
   * case); the title fallback, unlike the scan, neither consults nor adds
   * to the recorded names.
   */
  lemma SchoolNameFresh(foundSchoolNames: set<string>, d: Detail, n: string)
    requires SchoolName(foundSchoolNames, d) == Some(n)
    ensures NameHit(foundSchoolNames, d) == Some(n) ==> Lower(n) !in foundSchoolNames && |n| > 3
    ensures NameHit(foundSchoolNames, d).None? ==>
      TitleName(d.title) == Some(n) && NamesAfter(foundSchoolNames, d) == foundSchoolNames
  {
    var ms := Matches(d.find, NAME_SELECTORS);
    if NameHit(foundSchoolNames, d) == Some(n) {
      var i :| 0 <= i < |ms| && NamePicker(foundSchoolNames)(ms[i]) == Some(n);
      NameAcceptance(foundSchoolNames, ms[i], n);
    }
  }
}
